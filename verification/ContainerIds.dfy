/**
 Container ids: a readable form of task ids, and a hash of them that keeps different task ids apart.
 */
module ContainerIds {
  const MAX_LEN: nat := 76
  const HASH_LEN: nat := 20
  const MAX_PREFIX_LEN: nat := MAX_LEN - HASH_LEN - 1

  // ---- Characters ----

  predicate IsUpper(c: char) {
    'A' <= c <= 'Z'
  }

  predicate IsLowerAlnum(c: char) {
    'a' <= c <= 'z' || '0' <= c <= '9'
  }

  predicate IsSep(c: char) {
    c == '.' || c == '_' || c == '-'
  }

  function Lower(c: char): char {
    if IsUpper(c) then c - 'A' + 'a' else c
  }

  const LETTERS := "abcdefghijklmnopqrstuvwxyz"
  const CAPITALS := "ABCDEFGHIJKLMNOPQRSTUVWXYZ"
  const FIGURES := "0123456789"

  lemma {:induction false} SpelledOut(i: nat)
    ensures i < 26 ==> LETTERS[i] as int == 'a' as int + i && CAPITALS[i] as int == 'A' as int + i
    ensures i < 10 ==> FIGURES[i] as int == '0' as int + i
  {
  }

  /** The alphabet of an id. */
  lemma {:induction false} Alphabet(c: char)
    ensures IsLowerAlnum(c) <==> c in LETTERS || c in FIGURES
    ensures IsUpper(c) <==> c in CAPITALS
  {
    forall i: nat
      ensures i < 26 ==> LETTERS[i] as int == 'a' as int + i && CAPITALS[i] as int == 'A' as int + i
      ensures i < 10 ==> FIGURES[i] as int == '0' as int + i
    {
      SpelledOut(i);
    }
    InSuccession(LETTERS, 'a', c);
    InSuccession(FIGURES, '0', c);
    InSuccession(CAPITALS, 'A', c);
  }

  lemma {:induction false} InSuccession(s: string, first: char, c: char)
    requires forall i: nat :: i < |s| ==> s[i] as int == first as int + i
    ensures c in s <==> first as int <= c as int < first as int + |s|
  {
    if first as int <= c as int < first as int + |s| {
      assert s[c as int - first as int] == c;
    }
  }

  /** Capitals become the letters in the same place; nothing else changes. */
  lemma {:induction false} LowerByPlace(c: char)
    ensures forall i :: 0 <= i < 26 && c == CAPITALS[i] ==> Lower(c) == LETTERS[i]
    ensures c !in CAPITALS ==> Lower(c) == c
  {
    Alphabet(c);
    forall i: nat | i < 26 && c == CAPITALS[i]
      ensures Lower(c) == LETTERS[i]
    {
      SpelledOut(i);
    }
  }

  // ---- The steps of the conversion ----

  function RemoveInvalid(s: string): string {
    if s == "" then ""
    else if IsUpper(s[0]) || IsLowerAlnum(s[0]) || IsSep(s[0]) then [s[0]] + RemoveInvalid(s[1..])
    else RemoveInvalid(s[1..])
  }

  function ToLower(s: string): string {
    seq(|s|, i requires 0 <= i < |s| => Lower(s[i]))
  }

  function TrimLeft(s: string): (t: string)
    ensures |t| <= |s| && (t != "" ==> !IsSep(t[0]))
  {
    if s != "" && IsSep(s[0]) then TrimLeft(s[1..]) else s
  }

  function TrimRight(s: string): (t: string)
    ensures t <= s && (t != "" ==> !IsSep(t[|t| - 1]))
  {
    if s != "" && IsSep(s[|s| - 1]) then TrimRight(s[..|s| - 1]) else s
  }

  /** Every run of separators becomes one dot. */
  function Collapse(s: string): string
    decreases |s|
  {
    if s == "" then ""
    else if IsSep(s[0]) then "." + Collapse(TrimLeft(s[1..]))
    else [s[0]] + Collapse(s[1..])
  }

  function Cleaned(taskId: string): string {
    ToLower(RemoveInvalid(taskId))
  }

  function SafeTaskId(taskId: string): string {
    TrimRight(TrimLeft(Collapse(Cleaned(taskId))))
  }

  function ReadablePrefix(taskId: string): string {
    var safe := SafeTaskId(taskId);
    TrimRight(if |safe| > MAX_PREFIX_LEN then safe[..MAX_PREFIX_LEN] else safe)
  }

  /** The first characters of the base32 encoding of a hash of it. */
  predicate IsHash(hash: string) {
    |hash| == HASH_LEN && forall i :: 0 <= i < |hash| ==> 'a' <= hash[i] <= 'z' || '2' <= hash[i] <= '7'
  }

  function ContainerId(taskId: string, hash: string): string {
    var prefix := ReadablePrefix(taskId);
    if prefix == "" then hash else prefix + "." + hash
  }

  // ---- What the readable part is ----

  predicate IsWord(w: string) {
    w != "" && forall i :: 0 <= i < |w| ==> !IsSep(w[i])
  }

  function WordLength(s: string): (n: nat)
    ensures n <= |s|
    ensures forall i :: 0 <= i < n ==> !IsSep(s[i])
    ensures n < |s| ==> IsSep(s[n])
  {
    if s == "" || IsSep(s[0]) then 0 else 1 + WordLength(s[1..])
  }

  /** The words of a string: what lies between its separators, without the empty pieces. */
  function Words(s: string): (words: seq<string>)
    ensures forall k :: 0 <= k < |words| ==> IsWord(words[k])
  {
    if s == "" then []
    else if IsSep(s[0]) then Words(s[1..])
    else [s[..WordLength(s)]] + Words(s[WordLength(s)..])
  }

  function Join(words: seq<string>): string {
    if words == [] then ""
    else if |words| == 1 then words[0]
    else words[0] + "." + Join(words[1..])
  }

  lemma {:induction false} CollapseWord(w: string, rest: string)
    requires forall i :: 0 <= i < |w| ==> !IsSep(w[i])
    ensures Collapse(w + rest) == w + Collapse(rest)
  {
    if w == "" {
      assert w + rest == rest;
    } else {
      CollapseWord(w[1..], rest);
      assert (w + rest)[1..] == w[1..] + rest;
      assert w == [w[0]] + w[1..];
    }
  }

  lemma {:induction false} TrimKeepsWords(s: string)
    ensures Words(TrimLeft(s)) == Words(s)
    ensures TrimLeft(s) != "" ==> s[|s| - 1] == TrimLeft(s)[|TrimLeft(s)| - 1]
  {
    if s != "" && IsSep(s[0]) {
      TrimKeepsWords(s[1..]);
    }
  }

  function DotIfSep(s: string): string {
    if s != "" && IsSep(s[|s| - 1]) then "." else ""
  }

  lemma {:induction false} OnlySeparators(s: string)
    requires TrimLeft(s) == ""
    ensures s != "" ==> IsSep(s[|s| - 1])
  {
    if s != "" {
      OnlySeparators(s[1..]);
    }
  }

  lemma {:induction false} FirstWord(w: string, rest: string)
    requires IsWord(w) && (rest != "" ==> IsSep(rest[0]))
    ensures Words(w + rest) == [w] + Words(rest)
  {
    var s := w + rest;
    assert forall i :: 0 <= i < |w| ==> s[i] == w[i];
    assert rest != "" ==> s[|w|] == rest[0];
    assert WordLength(s) == |w|;
    assert s[..|w|] == w && s[|w|..] == rest;
  }

  lemma {:induction false} JoinMore(w: string, words: seq<string>)
    ensures Join([w] + words) == if words == [] then w else w + "." + Join(words)
  {
    assert ([w] + words)[1..] == words;
  }

  lemma {:induction false} Glue(a: string, b: string, c: string, d: string)
    ensures a + (b + (c + d)) == a + b + c + d
  {
  }

  /** A string that begins with a word collapses to its words, joined by dots, and a dot if it ends in a separator. */
  lemma {:induction false} CollapseIsJoin(s: string)
    requires s == "" || !IsSep(s[0])
    ensures Collapse(s) == Join(Words(s)) + DotIfSep(s)
    decreases |s|
  {
    if s != "" {
      var n := WordLength(s);
      var w, rest := s[..n], s[n..];
      assert s == w + rest;
      if rest != "" {
        var next := TrimLeft(rest[1..]);
        if next != "" {
          CollapseIsJoin(next);
        }
        CollapseMore(w, rest, next);
      } else {
        CollapseWord(w, "");
        FirstWord(w, "");
        assert w + "" == w;
      }
    }
  }

  lemma {:induction false} AfterSeparators(rest: string, next: string)
    requires rest != "" && IsSep(rest[0]) && next == TrimLeft(rest[1..])
    ensures Words(rest) == Words(next) && (next == "" <==> Words(next) == [])
    ensures DotIfSep(rest) == if next == "" then "." else DotIfSep(next)
  {
    TrimKeepsWords(rest[1..]);
    if next == "" {
      OnlySeparators(rest[1..]);
    }
  }

  lemma {:induction false} JoinWithDot(w: string, words: seq<string>, d: string)
    ensures w + ("." + (Join(words) + d)) == if words == [] then w + ("." + d) else Join([w] + words) + d
  {
    JoinMore(w, words);
    if words == [] {
      assert Join(words) + d == d;
    } else {
      Glue(w, ".", Join(words), d);
    }
  }

  lemma {:induction false} CollapseMore(w: string, rest: string, next: string)
    requires IsWord(w) && rest != "" && IsSep(rest[0]) && next == TrimLeft(rest[1..])
    requires Collapse(next) == Join(Words(next)) + DotIfSep(next)
    ensures Collapse(w + rest) == Join(Words(w + rest)) + DotIfSep(w + rest)
  {
    var words, d := Words(next), DotIfSep(next);
    CollapseWord(w, rest);
    FirstWord(w, rest);
    AfterSeparators(rest, next);
    assert Collapse(rest) == "." + Collapse(next);
    SameLast(w, rest);
    JoinWithDot(w, words, d);
    if next == "" {
      assert "." + d == ".";
      JoinMore(w, words);
    }
  }

  lemma {:induction false} SameLast(w: string, rest: string)
    requires rest != ""
    ensures DotIfSep(w + rest) == DotIfSep(rest)
  {
  }

  lemma {:induction false} JoinEnds(words: seq<string>)
    requires forall k :: 0 <= k < |words| ==> IsWord(words[k])
    ensures words != [] ==> Join(words) != "" && !IsSep(Join(words)[0]) && !IsSep(Join(words)[|Join(words)| - 1])
  {
    if |words| > 1 {
      JoinEnds(words[1..]);
    }
  }

  lemma {:induction false} TrimRightDot(p: string, d: string)
    requires (p != "" ==> !IsSep(p[|p| - 1])) && (d == "" || d == ".")
    ensures TrimRight(p + d) == p
  {
    if d == "" {
      assert p + d == p;
    } else {
      assert (p + d)[..|p|] == p;
    }
  }

  lemma {:induction false} TrimmedIsJoin(s: string)
    ensures TrimRight(TrimLeft(Collapse(s))) == Join(Words(s))
  {
    if s != "" && IsSep(s[0]) {
      var next := TrimLeft(s[1..]);
      TrimmedFromWord(next);
      TrimKeepsWords(s[1..]);
      assert ("." + Collapse(next))[1..] == Collapse(next);
    } else {
      TrimmedFromWord(s);
    }
  }

  lemma {:induction false} TrimmedFromWord(s: string)
    requires s == "" || !IsSep(s[0])
    ensures TrimLeft(Collapse(s)) == Collapse(s) && TrimRight(Collapse(s)) == Join(Words(s))
  {
    CollapseIsJoin(s);
    JoinEnds(Words(s));
    TrimRightDot(Join(Words(s)), DotIfSep(s));
  }

  /** The readable part is made of the words of the id in their order, one dot between each two. */
  lemma {:induction false} SafeIsWords(taskId: string)
    ensures SafeTaskId(taskId) == Join(Words(Cleaned(taskId)))
  {
    TrimmedIsJoin(Cleaned(taskId));
  }

  // ---- The form of the ids ----

  /** Lower-case letters and digits with single dots between them, and perhaps one at the end. */
  predicate Dotted(p: string) {
    && (forall i :: 0 <= i < |p| ==> IsLowerAlnum(p[i]) || p[i] == '.')
    && (forall i :: 0 < i < |p| && p[i] == '.' ==> p[i - 1] != '.')
    && (p != "" ==> p[0] != '.')
  }

  /** Lower-case letters and digits with single dots between them. */
  predicate Tight(p: string) {
    Dotted(p) && (p != "" ==> p[|p| - 1] != '.')
  }

  predicate Clean(s: string) {
    forall i :: 0 <= i < |s| ==> IsLowerAlnum(s[i]) || IsSep(s[i])
  }

  lemma {:induction false} CleanedIsClean(taskId: string)
    ensures Clean(Cleaned(taskId))
  {
    if taskId != "" {
      CleanedIsClean(taskId[1..]);
      var rest := RemoveInvalid(taskId[1..]);
      if RemoveInvalid(taskId) != rest {
        assert Cleaned(taskId) == [Lower(taskId[0])] + ToLower(rest);
      }
    }
  }

  predicate LowerWords(words: seq<string>) {
    forall k :: 0 <= k < |words| ==> words[k] != "" && forall i :: 0 <= i < |words[k]| ==> IsLowerAlnum(words[k][i])
  }

  lemma {:induction false} WordsAreLower(s: string)
    requires Clean(s)
    ensures LowerWords(Words(s))
    decreases |s|
  {
    if s != "" {
      if IsSep(s[0]) {
        WordsAreLower(s[1..]);
      } else {
        WordsAreLower(s[WordLength(s)..]);
      }
    }
  }

  lemma {:induction false} JoinIsTight(words: seq<string>)
    requires LowerWords(words)
    ensures Tight(Join(words)) && (words != [] ==> Join(words) != "")
  {
    if |words| > 1 {
      var w, rest := words[0], words[1..];
      assert forall k :: 0 <= k < |rest| ==> rest[k] == words[k + 1];
      JoinIsTight(rest);
      WithDot(w, Join(rest));
    }
  }

  lemma {:induction false} WithDot(a: string, b: string)
    requires Tight(a) && Tight(b) && a != "" && b != ""
    ensures Tight(a + "." + b)
  {
    var s := a + "." + b;
    assert forall i :: 0 <= i < |a| ==> s[i] == a[i];
    assert forall i :: |a| < i < |s| ==> s[i] == b[i - |a| - 1];
  }

  lemma {:induction false} PrefixIsTight(taskId: string)
    ensures Tight(ReadablePrefix(taskId)) && |ReadablePrefix(taskId)| <= 55
  {
    var safe := SafeTaskId(taskId);
    SafeIsWords(taskId);
    CleanedIsClean(taskId);
    WordsAreLower(Cleaned(taskId));
    JoinIsTight(Words(Cleaned(taskId)));
    CutIsTight(safe, if |safe| > MAX_PREFIX_LEN then safe[..MAX_PREFIX_LEN] else safe);
  }

  lemma {:induction false} CutIsTight(safe: string, cut: string)
    requires Dotted(safe) && cut <= safe
    ensures Tight(TrimRight(cut))
  {
    var t := TrimRight(cut);
    assert forall i :: 0 <= i < |t| ==> t[i] == safe[i];
  }

  /** A non-empty id of at most 76 characters: lower-case letters and digits, single inner dots, the hash at its end. */
  lemma {:induction false} IdIsValid(taskId: string, hash: string)
    requires IsHash(hash)
    ensures var id := ContainerId(taskId, hash);
            && id != ""
            && |id| <= 76
            && Tight(id)
            && id[|id| - 20..] == hash
  {
    PrefixIsTight(taskId);
    if ReadablePrefix(taskId) != "" {
      WithDot(ReadablePrefix(taskId), hash);
    }
  }

  /** Two ids are equal exactly if both the hashes and the readable parts are. */
  lemma {:induction false} EqualIds(a: string, ha: string, b: string, hb: string)
    requires IsHash(ha) && IsHash(hb)
    ensures ContainerId(a, ha) == ContainerId(b, hb) <==> ha == hb && ReadablePrefix(a) == ReadablePrefix(b)
  {
    IdIsValid(a, ha);
    IdIsValid(b, hb);
    var x, y := ContainerId(a, ha), ContainerId(b, hb);
    if x == y {
      var n := |x| - HASH_LEN;
      if n > 0 {
        assert x[..n - 1] == ReadablePrefix(a) && y[..n - 1] == ReadablePrefix(b);
      }
    }
  }

  lemma {:induction false} CleanIsKept(s: string)
    requires Clean(s)
    ensures Cleaned(s) == s
  {
    NothingRemoved(s);
    assert forall i :: 0 <= i < |s| ==> Lower(s[i]) == s[i];
  }

  lemma {:induction false} NothingRemoved(s: string)
    requires Clean(s)
    ensures RemoveInvalid(s) == s
  {
    if s != "" {
      NothingRemoved(s[1..]);
      assert s == [s[0]] + s[1..];
    }
  }

  lemma {:induction false} DottedIsKept(s: string)
    requires Dotted(s)
    ensures Collapse(s) == s
    decreases |s|
  {
    if s != "" {
      var w := s[..1];
      assert s == [s[0]] + s[1..];
      if |s| > 1 && s[1] == '.' {
        var rest := s[2..];
        assert s[1..] == "." + rest;
        assert rest != "" ==> rest[0] == s[2];
        assert TrimLeft(rest) == rest;
        DottedIsKept(rest);
      } else {
        DottedIsKept(s[1..]);
      }
    }
  }

  /** A task id is its own readable part exactly if it already has the form of one and is short enough. */
  lemma {:induction false} KeptVerbatim(taskId: string)
    ensures ReadablePrefix(taskId) == taskId <==> Tight(taskId) && |taskId| <= 55
  {
    PrefixIsTight(taskId);
    if Tight(taskId) && |taskId| <= MAX_PREFIX_LEN {
      TightIsKept(taskId);
    }
  }

  lemma {:induction false} TightIsKept(taskId: string)
    requires Tight(taskId) && |taskId| <= MAX_PREFIX_LEN
    ensures ReadablePrefix(taskId) == taskId
  {
    CleanIsKept(taskId);
    DottedIsKept(taskId);
    assert TrimLeft(taskId) == taskId && TrimRight(taskId) == taskId;
  }
}
