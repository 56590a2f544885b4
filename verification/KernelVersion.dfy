/**
 How kernel file names are ordered by version, and which kernel and initrd a root file system boots with.
 Names are strings of bytes, and are read byte by byte.
 */
module KernelVersion {
  import opened Wrappers

  type byte = x: int | 0 <= x < 256
  type Bytes = seq<byte>

  // ---- Three-way comparison ----

  function Cmp(a: int, b: int): int {
    if a < b then -1 else if a > b then 1 else 0
  }

  function CmpByte(a: byte, b: byte): int {
    Cmp(a, b)
  }

  /** The first difference decides; of two lists of which one begins the other, the shorter is the lesser. */
  function Lex<T>(c: (T, T) -> int, a: seq<T>, b: seq<T>): int {
    if a == [] || b == [] then Cmp(|a|, |b|)
    else if c(a[0], b[0]) != 0 then c(a[0], b[0])
    else Lex(c, a[1..], b[1..])
  }

  /** A comparison that orders a type totally: 0 only for equal values, sign-antisymmetric and transitive. */
  ghost predicate TotalOrder<T(!new)>(c: (T, T) -> int) {
    && (forall x, y :: -1 <= c(x, y) <= 1 && c(x, y) == -c(y, x) && (c(x, y) == 0 <==> x == y))
    && (forall x, y, z :: c(x, y) <= 0 && c(y, z) <= 0 ==> c(x, z) <= 0)
  }

  lemma {:induction false} LexSigns<T(!new)>(c: (T, T) -> int, a: seq<T>, b: seq<T>)
    requires TotalOrder(c)
    ensures -1 <= Lex(c, a, b) <= 1 && Lex(c, a, b) == -Lex(c, b, a)
    ensures Lex(c, a, b) == 0 <==> a == b
  {
    if a != [] && b != [] {
      LexSigns(c, a[1..], b[1..]);
      assert a == [a[0]] + a[1..] && b == [b[0]] + b[1..];
    }
  }

  lemma {:induction false} LexTransitive<T(!new)>(c: (T, T) -> int, x: seq<T>, y: seq<T>, z: seq<T>)
    requires TotalOrder(c) && Lex(c, x, y) <= 0 && Lex(c, y, z) <= 0
    ensures Lex(c, x, z) <= 0
  {
    if x != [] && y != [] && z != [] {
      assert c(x[0], y[0]) <= 0 && c(y[0], z[0]) <= 0;
      if c(x[0], z[0]) == 0 {
        assert c(z[0], x[0]) == 0 && x[0] == z[0];
        LexTransitive(c, x[1..], y[1..], z[1..]);
      }
    }
  }

  lemma {:induction false} LexSkip<T>(c: (T, T) -> int, p: seq<T>, a: seq<T>, b: seq<T>)
    requires forall i :: 0 <= i < |p| ==> c(p[i], p[i]) == 0
    ensures Lex(c, p + a, p + b) == Lex(c, a, b)
  {
    if p == [] {
      assert p + a == a && p + b == b;
    } else {
      LexSkip(c, p[1..], a, b);
      assert (p + a)[1..] == p[1..] + a && (p + b)[1..] == p[1..] + b;
    }
  }

  // ---- Tokens ----

  datatype Class = Digit | Letter | Other

  /** Each byte is read as the Latin-1 character of that number. */
  predicate IsDigit(b: byte) {
    0x30 <= b <= 0x39
  }

  predicate IsLetter(b: byte) {
    || 0x41 <= b <= 0x5A
    || 0x61 <= b <= 0x7A
    || b == 0xAA || b == 0xB5 || b == 0xBA
    || 0xC0 <= b <= 0xD6
    || 0xD8 <= b <= 0xF6
    || 0xF8 <= b
  }

  function ClassOf(b: byte): Class {
    if IsDigit(b) then Digit else if IsLetter(b) then Letter else Other
  }

  datatype Token = Number(n: int) | Alpha(a: Bytes) | Separator

  const MAX_INT: int := 0x7FFF_FFFF_FFFF_FFFF

  function Value(run: Bytes): int {
    if run == [] then 0 else 10 * Value(run[..|run| - 1]) + (run[|run| - 1] as int - 0x30)
  }

  /** A number too large for an int is read as the largest int. */
  function Atoi(run: Bytes): int {
    if Value(run) > MAX_INT then MAX_INT else Value(run)
  }

  function TokenOf(run: Bytes): Token
    requires run != []
  {
    match ClassOf(run[0])
    case Digit => Number(Atoi(run))
    case Letter => Alpha(run)
    case Other => Separator
  }

  function Rank(t: Token): int {
    match t
    case Number(_) => 0
    case Alpha(_) => 1
    case Separator => 2
  }

  function CompareToken(x: Token, y: Token): int {
    if Rank(x) != Rank(y) then Cmp(Rank(x), Rank(y))
    else
      match x
      case Number(n) => Cmp(n, y.n)
      case Alpha(a) => Lex(CmpByte, a, y.a)
      case Separator => 0
  }

  lemma {:induction false} TokenOrder()
    ensures TotalOrder(CompareToken)
  {
    forall x, y
      ensures -1 <= CompareToken(x, y) <= 1 && CompareToken(x, y) == -CompareToken(y, x)
      ensures CompareToken(x, y) == 0 <==> x == y
    {
      if x.Alpha? && y.Alpha? {
        LexSigns(CmpByte, x.a, y.a);
      }
    }
    forall x, y, z | CompareToken(x, y) <= 0 && CompareToken(y, z) <= 0
      ensures CompareToken(x, z) <= 0
    {
      if x.Alpha? && y.Alpha? && z.Alpha? {
        LexTransitive(CmpByte, x.a, y.a, z.a);
      }
    }
  }

  /** The length of the longest prefix in the class of the first byte. */
  function RunLength(s: Bytes): (k: nat)
    requires s != []
    ensures 1 <= k <= |s|
    ensures forall i :: 0 <= i < k ==> ClassOf(s[i]) == ClassOf(s[0])
    ensures k < |s| ==> ClassOf(s[k]) != ClassOf(s[0])
  {
    if |s| == 1 || ClassOf(s[1]) != ClassOf(s[0]) then 1 else 1 + RunLength(s[1..])
  }

  function Runs(s: Bytes): (runs: seq<Bytes>)
    ensures forall i :: 0 <= i < |runs| ==> runs[i] != []
  {
    if s == [] then [] else [s[..RunLength(s)]] + Runs(s[RunLength(s)..])
  }

  function TokensOf(runs: seq<Bytes>): seq<Token>
    requires forall i :: 0 <= i < |runs| ==> runs[i] != []
  {
    seq(|runs|, i requires 0 <= i < |runs| => TokenOf(runs[i]))
  }

  function Tokens(s: Bytes): seq<Token> {
    TokensOf(Runs(s))
  }

  // ---- What splitting into runs means ----

  function Flatten(runs: seq<Bytes>): Bytes {
    if runs == [] then [] else runs[0] + Flatten(runs[1..])
  }

  predicate Uniform(run: Bytes) {
    run != [] && forall i :: 0 <= i < |run| ==> ClassOf(run[i]) == ClassOf(run[0])
  }

  /** The runs cover the string, each stays within one class, and none can be made longer. */
  predicate IsSplit(s: Bytes, runs: seq<Bytes>) {
    && Flatten(runs) == s
    && (forall k :: 0 <= k < |runs| ==> Uniform(runs[k]))
    && (forall k :: 0 < k < |runs| ==> ClassOf(runs[k - 1][0]) != ClassOf(runs[k][0]))
  }

  /** Splitting into maximal runs of one class has exactly one result for every string, and it is the tokenizer's. */
  lemma {:induction false} SplitIsRuns(s: Bytes, runs: seq<Bytes>)
    ensures IsSplit(s, runs) <==> runs == Runs(s)
    decreases |s|
  {
    RunsSplit(s);
    if IsSplit(s, runs) && runs != [] {
      var first, rest := runs[0], runs[1..];
      assert s == first + Flatten(rest) && Uniform(runs[0]);
      assert s[0] == first[0];
      var k := RunLength(s);
      FirstRunIsMaximal(first, rest);
      assert k == |first|;
      assert s[..k] == first && s[k..] == Flatten(rest);
      assert forall j :: 0 < j < |rest| ==> rest[j - 1] == runs[j] && rest[j] == runs[j + 1];
      SplitIsRuns(s[k..], rest);
      assert runs == [first] + rest;
    }
  }

  lemma {:induction false} FirstRunIsMaximal(first: Bytes, rest: seq<Bytes>)
    requires Uniform(first)
    requires rest != [] ==> rest[0] != [] && ClassOf(rest[0][0]) != ClassOf(first[0])
    ensures RunLength(first + Flatten(rest)) == |first|
  {
    var s := first + Flatten(rest);
    assert forall i :: 0 <= i < |first| ==> s[i] == first[i];
    assert rest != [] ==> s[|first|] == rest[0][0];
  }

  lemma {:induction false} SplitStart(s: Bytes, runs: seq<Bytes>)
    requires Flatten(runs) == s && runs != [] && runs[0] != []
    ensures s != [] && s[0] == runs[0][0]
  {
    assert s == runs[0] + Flatten(runs[1..]);
  }

  /** A run in front of a split is a split if it cannot be made longer. */
  lemma {:induction false} SplitMore(first: Bytes, tail: Bytes, rest: seq<Bytes>)
    requires Uniform(first) && IsSplit(tail, rest)
    requires tail != [] ==> ClassOf(tail[0]) != ClassOf(first[0])
    ensures IsSplit(first + tail, [first] + rest)
  {
    var runs := [first] + rest;
    assert runs[1..] == rest;
    if rest != [] {
      SplitStart(tail, rest);
    }
    assert forall k :: 0 < k < |runs| ==> runs[k] == rest[k - 1];
    forall k | 0 < k < |runs|
      ensures ClassOf(runs[k - 1][0]) != ClassOf(runs[k][0])
    {
      if k > 1 {
        assert runs[k - 1] == rest[k - 2];
      }
    }
  }

  lemma {:induction false} RunsSplit(s: Bytes)
    ensures IsSplit(s, Runs(s))
    decreases |s|
  {
    if s != [] {
      var k := RunLength(s);
      var first, tail := s[..k], s[k..];
      RunsSplit(tail);
      SplitMore(first, tail, Runs(tail));
      assert s == first + tail;
    }
  }

  // ---- Comparing versions ----

  function CompareVersions(a: Bytes, b: Bytes): int {
    Lex(CompareToken, Tokens(a), Tokens(b))
  }

  /** A total preorder on names, whose ties are exactly the names with the same tokens. */
  lemma {:induction false} VersionsAreOrdered(a: Bytes, b: Bytes, c: Bytes)
    ensures CompareVersions(a, b) == -CompareVersions(b, a)
    ensures CompareVersions(a, b) == 0 <==> Tokens(a) == Tokens(b)
    ensures CompareVersions(a, b) <= 0 && CompareVersions(b, c) <= 0 ==> CompareVersions(a, c) <= 0
    ensures CompareVersions(a, b) < 0 && CompareVersions(b, c) <= 0 ==> CompareVersions(a, c) < 0
  {
    TokenOrder();
    LexSigns(CompareToken, Tokens(a), Tokens(b));
    LexSigns(CompareToken, Tokens(a), Tokens(c));
    LexSigns(CompareToken, Tokens(b), Tokens(c));
    if CompareVersions(a, b) <= 0 && CompareVersions(b, c) <= 0 {
      LexTransitive(CompareToken, Tokens(a), Tokens(b), Tokens(c));
    }
  }

  /** Between `s` and `t` a run ends. */
  predicate Boundary(s: Bytes, t: Bytes) {
    s == [] || t == [] || ClassOf(s[|s| - 1]) != ClassOf(t[0])
  }

  lemma {:induction false} RunsFirst(first: Bytes, rest: Bytes)
    requires Uniform(first) && (rest != [] ==> ClassOf(first[0]) != ClassOf(rest[0]))
    ensures Runs(first + rest) == [first] + Runs(rest)
  {
    var s := first + rest;
    assert forall i :: 0 <= i < |first| ==> s[i] == first[i];
    assert rest != [] ==> s[|first|] == rest[0];
    assert RunLength(s) == |first|;
    assert s[..|first|] == first && s[|first|..] == rest;
  }

  lemma {:induction false} TokensFirst(first: Bytes, rest: Bytes)
    requires Uniform(first) && (rest != [] ==> ClassOf(first[0]) != ClassOf(rest[0]))
    ensures Tokens(first + rest) == [TokenOf(first)] + Tokens(rest)
  {
    RunsFirst(first, rest);
    TokensOfMore(first, Runs(rest));
  }

  lemma {:induction false} TokensOfMore(run: Bytes, runs: seq<Bytes>)
    requires run != [] && forall i :: 0 <= i < |runs| ==> runs[i] != []
    ensures TokensOf([run] + runs) == [TokenOf(run)] + TokensOf(runs)
  {
  }

  lemma {:induction false} Glue<T>(a: seq<T>, b: seq<T>, c: seq<T>)
    ensures a + (b + c) == (a + b) + c
  {
  }

  lemma {:induction false} FlattenConcat(a: seq<Bytes>, b: seq<Bytes>)
    ensures Flatten(a + b) == Flatten(a) + Flatten(b)
  {
    if a == [] {
      assert a + b == b;
    } else {
      FlattenConcat(a[1..], b);
      assert (a + b)[1..] == a[1..] + b;
      Glue(a[0], Flatten(a[1..]), Flatten(b));
    }
  }

  lemma {:induction false} SplitEnds(s: Bytes, runs: seq<Bytes>)
    requires IsSplit(s, runs) && runs != []
    ensures s != [] && s[0] == runs[0][0] && ClassOf(s[|s| - 1]) == ClassOf(runs[|runs| - 1][0])
  {
    var before, last := runs[..|runs| - 1], runs[|runs| - 1];
    FlattenConcat(before, [last]);
    assert runs == before + [last];
    assert Flatten([last]) == last;
    assert s[|s| - 1] == last[|last| - 1];
  }

  lemma {:induction false} SplitConcat(s: Bytes, a: seq<Bytes>, t: Bytes, b: seq<Bytes>)
    requires IsSplit(s, a) && IsSplit(t, b) && Boundary(s, t)
    ensures IsSplit(s + t, a + b)
  {
    FlattenConcat(a, b);
    if a != [] && b != [] {
      SplitEnds(s, a);
      SplitEnds(t, b);
    }
  }

  lemma {:induction false} RunsConcat(s: Bytes, t: Bytes)
    requires Boundary(s, t)
    ensures Runs(s + t) == Runs(s) + Runs(t)
  {
    RunsSplit(s);
    RunsSplit(t);
    SplitConcat(s, Runs(s), t, Runs(t));
    SplitIsRuns(s + t, Runs(s) + Runs(t));
  }

  lemma {:induction false} TokensConcat(s: Bytes, t: Bytes)
    requires Boundary(s, t)
    ensures Tokens(s + t) == Tokens(s) + Tokens(t)
  {
    RunsConcat(s, t);
  }

  lemma {:induction false} TokensAround(p: Bytes, d: Bytes, t: Bytes)
    requires Uniform(d) && Boundary(p, d) && Boundary(d, t)
    ensures Tokens(p + d + t) == Tokens(p) + ([TokenOf(d)] + Tokens(t))
  {
    assert ClassOf(d[|d| - 1]) == ClassOf(d[0]);
    assert Boundary(p, d + t);
    TokensFirst(d, t);
    TokensConcat(p, d + t);
    Glue(p, d, t);
  }

  /** After a common beginning the first runs decide, and what follows them counts only if they tie. */
  lemma {:induction false} RunsDecide(p: Bytes, d: Bytes, e: Bytes, t: Bytes, u: Bytes)
    requires Uniform(d) && Uniform(e) && Boundary(p, d) && Boundary(p, e) && Boundary(d, t) && Boundary(e, u)
    ensures var c := CompareToken(TokenOf(d), TokenOf(e));
            CompareVersions(p + d + t, p + e + u) == if c != 0 then c else CompareVersions(t, u)
  {
    TokensAround(p, d, t);
    TokensAround(p, e, u);
    TokenOrder();
    LexSkip(CompareToken, Tokens(p), [TokenOf(d)] + Tokens(t), [TokenOf(e)] + Tokens(u));
    assert ([TokenOf(d)] + Tokens(t))[1..] == Tokens(t);
    assert ([TokenOf(e)] + Tokens(u))[1..] == Tokens(u);
  }

  /** Runs of different classes: digits are older than letters, and both are older than anything else. */
  lemma {:induction false} ClassesDecide(p: Bytes, d: Bytes, e: Bytes, t: Bytes, u: Bytes)
    requires Uniform(d) && Uniform(e) && Boundary(p, d) && Boundary(p, e) && Boundary(d, t) && Boundary(e, u)
    requires IsDigit(d[0]) != IsDigit(e[0]) || IsLetter(d[0]) != IsLetter(e[0])
    ensures CompareVersions(p + d + t, p + e + u) ==
            if IsDigit(d[0]) || (IsLetter(d[0]) && !IsDigit(e[0])) then -1 else 1
  {
    RunsDecide(p, d, e, t, u);
  }

  /** Runs that are neither digits nor letters all tie. */
  lemma {:induction false} SeparatorsTie(p: Bytes, d: Bytes, e: Bytes, t: Bytes, u: Bytes)
    requires Uniform(d) && Uniform(e) && Boundary(p, d) && Boundary(p, e) && Boundary(d, t) && Boundary(e, u)
    requires !IsDigit(d[0]) && !IsLetter(d[0]) && !IsDigit(e[0]) && !IsLetter(e[0])
    ensures CompareVersions(p + d + t, p + e + u) == CompareVersions(t, u)
  {
    RunsDecide(p, d, e, t, u);
  }

  lemma {:induction false} LettersDiffer(d: Bytes, e: Bytes, k: nat)
    requires k <= |d| && k <= |e| && d[..k] == e[..k]
    ensures k < |d| && k < |e| && d[k] < e[k] ==> Lex(CmpByte, d, e) == -1
    ensures k < |d| && k < |e| && d[k] > e[k] ==> Lex(CmpByte, d, e) == 1
    ensures k == |d| && k < |e| ==> Lex(CmpByte, d, e) == -1
    ensures k < |d| && k == |e| ==> Lex(CmpByte, d, e) == 1
    ensures k == |d| && k == |e| ==> Lex(CmpByte, d, e) == 0
  {
    LexSkip(CmpByte, d[..k], d[k..], e[k..]);
    assert d == d[..k] + d[k..] && e == e[..k] + e[k..];
  }

  /** Letters are compared byte by byte: the first difference decides, and a word is older than what it begins. */
  lemma {:induction false} LettersDecide(p: Bytes, d: Bytes, e: Bytes, t: Bytes, u: Bytes, k: nat)
    requires Uniform(d) && Uniform(e) && Boundary(p, d) && Boundary(d, t) && Boundary(e, u)
    requires IsLetter(d[0]) && IsLetter(e[0])
    requires k <= |d| && k <= |e| && d[..k] == e[..k] && (k < |d| && k < |e| ==> d[k] != e[k])
    ensures CompareVersions(p + d + t, p + e + u) ==
            if d == e then CompareVersions(t, u)
            else if k == |d| || (k < |e| && d[k] < e[k]) then -1
            else 1
  {
    RunsDecide(p, d, e, t, u);
    LettersDiffer(d, e, k);
  }

  function Digits(n: nat): (d: Bytes)
    ensures d != [] && forall i :: 0 <= i < |d| ==> IsDigit(d[i])
  {
    if n < 10 then [0x30 + n] else Digits(n / 10) + [0x30 + n % 10]
  }

  function Zeros(k: nat): (z: Bytes)
    ensures |z| == k && forall i :: 0 <= i < k ==> z[i] == 0x30
  {
    seq(k, _ => 0x30)
  }

  lemma {:induction false} ZerosAreNothing(k: nat)
    ensures Value(Zeros(k)) == 0
  {
    if k > 0 {
      assert Zeros(k)[..k - 1] == Zeros(k - 1);
      ZerosAreNothing(k - 1);
    }
  }

  lemma {:induction false} DigitsDenote(k: nat, n: nat)
    ensures Value(Zeros(k) + Digits(n)) == n
  {
    var d := Zeros(k) + Digits(n);
    if n < 10 {
      assert d[..|d| - 1] == Zeros(k);
      ZerosAreNothing(k);
    } else {
      assert d[..|d| - 1] == Zeros(k) + Digits(n / 10);
      DigitsDenote(k, n / 10);
    }
  }

  function Clamped(n: nat): nat {
    if n > 0x7FFF_FFFF_FFFF_FFFF then 0x7FFF_FFFF_FFFF_FFFF else n
  }

  /**
   After a common beginning, numbers decide by their value, whatever their leading zeros and number of digits, and what
   follows counts only if they tie; numbers beyond the range of a 64-bit int all tie.
   */
  lemma {:induction false} NumbersDecide(p: Bytes, j: nat, n: nat, t: Bytes, k: nat, m: nat, u: Bytes)
    requires var d, e := Zeros(j) + Digits(n), Zeros(k) + Digits(m); Boundary(p, d) && Boundary(d, t) && Boundary(e, u)
    ensures CompareVersions(p + (Zeros(j) + Digits(n)) + t, p + (Zeros(k) + Digits(m)) + u) ==
            if Clamped(n) < Clamped(m) then -1 else if Clamped(n) > Clamped(m) then 1 else CompareVersions(t, u)
  {
    var d, e := Zeros(j) + Digits(n), Zeros(k) + Digits(m);
    DigitsDenote(j, n);
    DigitsDenote(k, m);
    assert forall i :: 0 <= i < |d| ==> IsDigit(d[i]);
    assert forall i :: 0 <= i < |e| ==> IsDigit(e[i]);
    RunsDecide(p, d, e, t, u);
  }

  /** A name that goes on after a whole token is newer: a release is older than its own release candidate. */
  lemma {:induction false} LongerIsNewer(s: Bytes, t: Bytes)
    requires Boundary(s, t) && t != []
    ensures CompareVersions(s, s + t) == -1
  {
    TokensConcat(s, t);
    TokenOrder();
    LexSkip(CompareToken, Tokens(s), [], Tokens(t));
    assert Tokens(s) + [] == Tokens(s);
  }

  /** The lower-case form of a Latin-1 letter. */
  function LowerCase(b: byte): byte {
    if 0x41 <= b <= 0x5A || (0xC0 <= b <= 0xDE && b != 0xD7) then b + 0x20 else b
  }

  predicate SameButForCase(a: Bytes, b: Bytes) {
    |a| == |b| && forall i :: 0 <= i < |a| ==> LowerCase(a[i]) == LowerCase(b[i])
  }

  /** The letters are those with two cases, and the five of Latin-1 that have no upper case in it. */
  lemma {:induction false} LettersHaveCases(b: byte)
    ensures IsLetter(b) <==>
            || LowerCase(b) != b
            || (exists c: byte :: LowerCase(c) == b && c != b)
            || b in {0xAA, 0xB5, 0xBA, 0xDF, 0xFF}
  {
    if IsLetter(b) && LowerCase(b) == b && b !in {0xAA, 0xB5, 0xBA, 0xDF, 0xFF} {
      var c: byte := b - 0x20;
      assert LowerCase(c) == b && c != b;
    }
  }

  /** Letters are compared as they are: names that differ only in case tie exactly if they do not differ at all. */
  lemma {:induction false} CaseCounts(a: Bytes, b: Bytes)
    requires SameButForCase(a, b)
    ensures CompareVersions(a, b) == 0 <==> a == b
  {
    VersionsAreOrdered(a, b, b);
    if Tokens(a) == Tokens(b) {
      SameTokensSameName(a, b);
    }
  }

  lemma {:induction false} SameTokensSameName(a: Bytes, b: Bytes)
    requires SameButForCase(a, b) && Tokens(a) == Tokens(b)
    ensures a == b
    decreases |a|
  {
    if a != [] {
      var k := RunLength(a);
      SameClasses(a, b);
      var x, y, v, w := a[..k], b[..k], a[k..], b[k..];
      assert a == x + v && b == y + w;
      TokensFirst(x, v);
      TokensFirst(y, w);
      SameRunAndRest(x, v, y, w);
      SameTokensSameName(v, w);
    }
  }

  lemma {:induction false} SameRunAndRest(x: Bytes, v: Bytes, y: Bytes, w: Bytes)
    requires SameButForCase(x, y) && Uniform(x) && Uniform(y) && [TokenOf(x)] + Tokens(v) == [TokenOf(y)] + Tokens(w)
    ensures x == y && Tokens(v) == Tokens(w)
  {
    SameHead(TokenOf(x), Tokens(v), TokenOf(y), Tokens(w));
    SameRun(x, y);
  }

  lemma {:induction false} SameClasses(a: Bytes, b: Bytes)
    requires SameButForCase(a, b) && a != []
    ensures RunLength(a) == RunLength(b)
  {
    assert forall i :: 0 <= i < |a| ==> ClassOf(a[i]) == ClassOf(b[i]);
  }

  lemma {:induction false} SameHead<T>(x: T, xs: seq<T>, y: T, ys: seq<T>)
    requires [x] + xs == [y] + ys
    ensures x == y && xs == ys
  {
    assert ([x] + xs)[0] == x && ([y] + ys)[0] == y;
    assert ([x] + xs)[1..] == xs && ([y] + ys)[1..] == ys;
  }

  lemma {:induction false} SameRun(x: Bytes, y: Bytes)
    requires SameButForCase(x, y) && Uniform(x) && Uniform(y) && TokenOf(x) == TokenOf(y)
    ensures x == y
  {
    if ClassOf(x[0]) != Letter {
      assert forall i :: 0 <= i < |x| ==> ClassOf(x[i]) == ClassOf(x[0]) && x[i] == y[i];
    }
  }

  // ---- The loops ----

  method ReadRun(s: Bytes, i: nat, cond: byte -> bool) returns (run: Bytes, j: nat)
    requires i <= |s|
    ensures i <= j <= |s| && run == s[i..j]
    ensures forall k :: i <= k < j ==> cond(s[k])
    ensures j < |s| ==> !cond(s[j])
  {
    j := i;
    while j < |s| && cond(s[j])
      invariant i <= j <= |s|
      invariant forall k :: i <= k < j ==> cond(s[k])
    {
      j := j + 1;
    }
    run := s[i..j];
  }

  method TokenizeVersion(s: Bytes) returns (tokens: seq<Token>)
    ensures tokens == Tokens(s)
  {
    tokens := [];
    var i := 0;
    while i < |s|
      invariant 0 <= i <= |s|
      invariant Tokens(s) == tokens + Tokens(s[i..])
    {
      ghost var start, before := i, tokens;
      var r := s[i];
      var run;
      if IsDigit(r) {
        run, i := ReadRun(s, i, IsDigit);
        tokens := tokens + [Number(Atoi(run))];
      } else if IsLetter(r) {
        run, i := ReadRun(s, i, IsLetter);
        tokens := tokens + [Alpha(run)];
      } else {
        run, i := ReadRun(s, i, (b: byte) => !IsDigit(b) && !IsLetter(b));
        tokens := tokens + [Separator];
      }
      OneToken(s, start, i, before);
    }
  }

  lemma {:induction false} OneToken(s: Bytes, i: nat, j: nat, tokens: seq<Token>)
    requires i < |s| && i <= j <= |s| && Tokens(s) == tokens + Tokens(s[i..])
    requires forall k :: i <= k < j ==> ClassOf(s[k]) == ClassOf(s[i])
    requires j < |s| ==> ClassOf(s[j]) != ClassOf(s[i])
    ensures i < j && Tokens(s) == tokens + [TokenOf(s[i..j])] + Tokens(s[j..])
  {
    var first, rest := s[i..j], s[j..];
    assert s[i..] == first + rest;
    TokensFirst(first, rest);
    Glue(tokens, [TokenOf(first)], Tokens(rest));
  }

  method Compare(v: seq<Token>, o: seq<Token>) returns (r: int)
    ensures r == Lex(CompareToken, v, o)
  {
    var n := if |v| < |o| then |v| else |o|;
    var i := 0;
    while i < n
      invariant 0 <= i <= n
      invariant Lex(CompareToken, v, o) == Lex(CompareToken, v[i..], o[i..])
    {
      var a, b := v[i], o[i];
      assert v[i..][1..] == v[i + 1..] && o[i..][1..] == o[i + 1..];
      if Rank(a) != Rank(b) {
        return Cmp(Rank(a), Rank(b));
      }
      match a {
        case Number(x) =>
          var res := Cmp(x, b.n);
          if res != 0 {
            return res;
          }
        case Alpha(x) =>
          var res := Lex(CmpByte, x, b.a);
          if res != 0 {
            return res;
          }
        case Separator =>
      }
      i := i + 1;
    }
    r := Cmp(|v|, |o|);
  }

  // ---- The choice of the kernel ----

  const SLASH: byte := 0x2F

  function StripSlashes(path: Bytes): Bytes {
    if path != [] && path[|path| - 1] == SLASH then StripSlashes(path[..|path| - 1]) else path
  }

  function AfterLastSlash(path: Bytes): Bytes {
    if path == [] || path[|path| - 1] == SLASH then [] else AfterLastSlash(path[..|path| - 1]) + [path[|path| - 1]]
  }

  /** The last element of a path: "." for the empty path, "/" for one that is all slashes. */
  function Base(path: Bytes): Bytes {
    if path == [] then [0x2E]
    else
      var last := AfterLastSlash(StripSlashes(path));
      if last == [] then [SLASH] else last
  }

  /** The name of a file in a directory is read back from its path. */
  lemma {:induction false} BaseIsName(dir: Bytes, name: Bytes)
    requires name != [] && SLASH !in name
    ensures Base(dir + [SLASH] + name) == name
  {
    assert (dir + [SLASH] + name)[|dir| + |name|] == name[|name| - 1];
    LastElement(dir, name);
  }

  /** Slashes at the end do not count; without any other byte the name is "/", and "." for the empty path. */
  lemma {:induction false} BaseOfSlashes(path: Bytes)
    ensures path != [] ==> Base(path + [SLASH]) == Base(path)
    ensures path != [] && (forall i :: 0 <= i < |path| ==> path[i] == SLASH) ==> Base(path) == [SLASH]
    ensures Base([]) == [0x2E]
  {
    assert (path + [SLASH])[..|path|] == path;
    if forall i :: 0 <= i < |path| ==> path[i] == SLASH {
      OnlySlashes(path);
    }
  }

  lemma {:induction false} OnlySlashes(path: Bytes)
    requires forall i :: 0 <= i < |path| ==> path[i] == SLASH
    ensures StripSlashes(path) == []
  {
    if path != [] {
      OnlySlashes(path[..|path| - 1]);
    }
  }

  lemma {:induction false} LastElement(dir: Bytes, name: Bytes)
    requires SLASH !in name
    ensures AfterLastSlash(dir + [SLASH] + name) == name
  {
    var path := dir + [SLASH] + name;
    if name == [] {
      assert path[|path| - 1] == SLASH;
    } else {
      var before, last := name[..|name| - 1], name[|name| - 1];
      assert path[..|path| - 1] == dir + [SLASH] + before && path[|path| - 1] == last;
      LastElement(dir, before);
      assert name == before + [last];
    }
  }

  function ComparePaths(a: Bytes, b: Bytes): int {
    CompareVersions(Base(a), Base(b))
  }

  /** Comparing sorts any values into ties, and the ties into a line. */
  ghost predicate TotalPreorder<T(!new)>(c: (T, T) -> int) {
    && (forall x, y :: c(x, y) == -c(y, x))
    && (forall x, y, z :: c(x, y) >= 0 && c(y, z) >= 0 ==> c(x, z) >= 0)
    && (forall x, y, z :: c(x, y) > 0 && c(y, z) >= 0 ==> c(x, z) > 0)
  }

  lemma {:induction false} PathsAreOrdered()
    ensures TotalPreorder(ComparePaths)
  {
    forall a, b, c
      ensures ComparePaths(a, b) == -ComparePaths(b, a)
      ensures ComparePaths(a, b) >= 0 && ComparePaths(b, c) >= 0 ==> ComparePaths(a, c) >= 0
      ensures ComparePaths(a, b) > 0 && ComparePaths(b, c) >= 0 ==> ComparePaths(a, c) > 0
    {
      PathOrder(Base(a), Base(b), Base(c));
    }
  }

  lemma {:induction false} PathOrder(a: Bytes, b: Bytes, c: Bytes)
    ensures CompareVersions(a, b) == -CompareVersions(b, a)
    ensures CompareVersions(a, b) >= 0 && CompareVersions(b, c) >= 0 ==> CompareVersions(a, c) >= 0
    ensures CompareVersions(a, b) > 0 && CompareVersions(b, c) >= 0 ==> CompareVersions(a, c) > 0
  {
    VersionsAreOrdered(a, b, c);
    VersionsAreOrdered(c, b, a);
    VersionsAreOrdered(a, c, b);
    if CompareVersions(a, b) > 0 && CompareVersions(b, c) >= 0 && CompareVersions(a, c) == 0 {
      VersionsAreOrdered(b, c, a);
    }
  }

  /** The position of the maximum of a list: it moves on only to a value that is greater still. */
  function MaxFunc<T>(xs: seq<T>, c: (T, T) -> int): (k: nat)
    requires xs != []
    ensures k < |xs|
  {
    if |xs| == 1 then 0
    else
      var k := MaxFunc(xs[..|xs| - 1], c);
      if c(xs[|xs| - 1], xs[k]) > 0 then |xs| - 1 else k
  }

  /** Element `k` is at least as great as every element, and greater than every element before it. */
  ghost predicate FirstMaximum<T>(xs: seq<T>, c: (T, T) -> int, k: nat) {
    && k < |xs|
    && (forall i :: 0 <= i < |xs| ==> c(xs[k], xs[i]) >= 0)
    && (forall i :: 0 <= i < k ==> c(xs[k], xs[i]) > 0)
  }

  lemma {:induction false} MaxIsMaximum<T(!new)>(xs: seq<T>, c: (T, T) -> int)
    requires xs != [] && TotalPreorder(c)
    ensures FirstMaximum(xs, c, MaxFunc(xs, c))
  {
    if |xs| == 1 {
      OnlyOne(xs, c);
    } else {
      var before, last := xs[..|xs| - 1], xs[|xs| - 1];
      assert xs == before + [last];
      MaxIsMaximum(before, c);
      MaxStep(before, last, c);
      OneMore(before, last, c, MaxFunc(before, c));
    }
  }

  lemma {:induction false} OnlyOne<T(!new)>(xs: seq<T>, c: (T, T) -> int)
    requires |xs| == 1 && TotalPreorder(c)
    ensures FirstMaximum(xs, c, 0)
  {
    assert c(xs[0], xs[0]) == 0;
  }

  lemma {:induction false} MaxStep<T>(before: seq<T>, last: T, c: (T, T) -> int)
    requires before != []
    ensures var k := MaxFunc(before, c);
            MaxFunc(before + [last], c) == if c(last, before[k]) > 0 then |before| else k
  {
    assert (before + [last])[..|before|] == before;
  }

  lemma {:induction false} OneMore<T(!new)>(xs: seq<T>, last: T, c: (T, T) -> int, k: nat)
    requires TotalPreorder(c) && FirstMaximum(xs, c, k)
    ensures FirstMaximum(xs + [last], c, if c(last, xs[k]) > 0 then |xs| else k)
  {
    assert c(last, last) == 0;
    assert forall i :: 0 <= i < |xs| ==> c(xs[k], xs[i]) >= 0;
  }

  const KERNEL_PATTERNS := ["vmlinuz-*", "vmlinux-*"]
  const INITRD_PATTERNS := ["initramfs-*", "initrd-*", "initrd.img-*"]

  /** Globbing a pattern in the boot directory: the matches, or None for a malformed pattern. */
  type Glob = string -> Option<seq<Bytes>>

  /** The matches of the first pattern that fails or has any. */
  function FindFirstMatches(glob: Glob, patterns: seq<string>): Option<seq<Bytes>> {
    if patterns == [] then Some([])
    else if glob(patterns[0]) != Some([]) then glob(patterns[0])
    else FindFirstMatches(glob, patterns[1..])
  }

  datatype Found = Files(kernel: Bytes, initrd: Bytes) | NoKernelFound | GlobFailed

  function FindLinuxKernelFiles(glob: Glob): Found {
    var kernels := FindFirstMatches(glob, KERNEL_PATTERNS);
    if kernels.None? then GlobFailed
    else if kernels.value == [] then NoKernelFound
    else
      var initrds := FindFirstMatches(glob, INITRD_PATTERNS);
      if initrds.None? then GlobFailed
      else Files(
          kernels.value[MaxFunc(kernels.value, ComparePaths)],
          if initrds.value == [] then [] else initrds.value[MaxFunc(initrds.value, ComparePaths)])
  }

  /** `p` is the first of the patterns with a match, and none before it fails. */
  ghost predicate FirstMatching(glob: Glob, patterns: seq<string>, p: nat) {
    && p < |patterns|
    && glob(patterns[p]) != Some([])
    && forall q :: 0 <= q < p ==> glob(patterns[q]) == Some([])
  }

  lemma {:induction false} FirstMatchesAre(glob: Glob, patterns: seq<string>, p: nat)
    requires FirstMatching(glob, patterns, p)
    ensures FindFirstMatches(glob, patterns) == glob(patterns[p])
  {
    if p > 0 {
      var rest := patterns[1..];
      assert forall q :: 0 <= q < |rest| ==> rest[q] == patterns[q + 1];
      FirstMatchesAre(glob, rest, p - 1);
    }
  }

  lemma {:induction false} SomeFirstMatching(glob: Glob, patterns: seq<string>)
    ensures (forall q :: 0 <= q < |patterns| ==> glob(patterns[q]) == Some([])) <==>
            FindFirstMatches(glob, patterns) == Some([])
  {
    if patterns != [] {
      SomeFirstMatching(glob, patterns[1..]);
      assert forall q :: 0 <= q < |patterns| - 1 ==> patterns[1..][q] == patterns[q + 1];
      assert forall q :: 0 < q < |patterns| ==> patterns[q] == patterns[1..][q - 1];
    }
  }

  /** The answer of the second pattern counts only if the first has no match. */
  function Else(first: Option<seq<Bytes>>, second: Option<seq<Bytes>>): Option<seq<Bytes>> {
    if first == Some([]) then second else first
  }

  function KernelMatches(glob: Glob): Option<seq<Bytes>> {
    Else(glob("vmlinuz-*"), glob("vmlinux-*"))
  }

  function InitrdMatches(glob: Glob): Option<seq<Bytes>> {
    Else(glob("initramfs-*"), Else(glob("initrd-*"), glob("initrd.img-*")))
  }

  lemma {:induction false} MatchesAre(glob: Glob)
    ensures FindFirstMatches(glob, KERNEL_PATTERNS) == KernelMatches(glob)
    ensures FindFirstMatches(glob, INITRD_PATTERNS) == InitrdMatches(glob)
  {
    FindTwo(glob, "vmlinuz-*", "vmlinux-*");
    FindTwo(glob, "initrd-*", "initrd.img-*");
    assert INITRD_PATTERNS[1..] == ["initrd-*", "initrd.img-*"];
  }

  lemma {:induction false} FindTwo(glob: Glob, first: string, second: string)
    ensures FindFirstMatches(glob, [first, second]) == Else(glob(first), glob(second))
  {
    assert [first, second][1..] == [second] && [second][1..] == [];
    assert FindFirstMatches(glob, [second]) == glob(second);
  }

  /** Exactly when a kernel is found, when none is, and when the search fails; the initrd may be missing. */
  lemma {:induction false} FoundIff(glob: Glob)
    ensures FindLinuxKernelFiles(glob).NoKernelFound? <==> KernelMatches(glob) == Some([])
    ensures FindLinuxKernelFiles(glob).GlobFailed? <==>
            KernelMatches(glob).None? || (KernelMatches(glob) != Some([]) && InitrdMatches(glob).None?)
    ensures FindLinuxKernelFiles(glob).Files? && InitrdMatches(glob) == Some([]) ==> FindLinuxKernelFiles(glob).initrd == []
  {
    MatchesAre(glob);
  }

  /** The matches are the files of these names in this directory. */
  ghost predicate FilesNamed(matches: seq<Bytes>, dir: Bytes, names: seq<Bytes>) {
    && |matches| == |names|
    && forall i :: 0 <= i < |names| ==> names[i] != [] && SLASH !in names[i] && matches[i] == dir + [SLASH] + names[i]
  }

  /** `path` is the file of the newest of the names, the first one among equals. */
  ghost predicate IsNewest(names: seq<Bytes>, dir: Bytes, path: Bytes) {
    exists k :: 0 <= k < |names| && path == dir + [SLASH] + names[k] && FirstMaximum(names, CompareVersions, k)
  }

  lemma {:induction false} NewestMatch(matches: seq<Bytes>, dir: Bytes, names: seq<Bytes>)
    requires matches != [] && FilesNamed(matches, dir, names)
    ensures IsNewest(names, dir, matches[MaxFunc(matches, ComparePaths)])
  {
    PathsAreOrdered();
    MaxIsMaximum(matches, ComparePaths);
    var k := MaxFunc(matches, ComparePaths);
    forall i | 0 <= i < |names|
      ensures CompareVersions(names[k], names[i]) == ComparePaths(matches[k], matches[i])
    {
      BaseIsName(dir, names[i]);
      BaseIsName(dir, names[k]);
    }
  }

  /**
   Among the files that match, by name, no kernel is newer than the chosen one and no initrd newer than the chosen one;
   of equally new ones the first is chosen.
   */
  lemma {:induction false} NewestFilesAreFound(glob: Glob, dir: Bytes, kernels: seq<Bytes>, initrds: seq<Bytes>)
    requires KernelMatches(glob).Some? && FilesNamed(KernelMatches(glob).value, dir, kernels) && kernels != []
    requires InitrdMatches(glob).Some? && FilesNamed(InitrdMatches(glob).value, dir, initrds)
    ensures FindLinuxKernelFiles(glob).Files?
    ensures IsNewest(kernels, dir, FindLinuxKernelFiles(glob).kernel)
    ensures if initrds == [] then FindLinuxKernelFiles(glob).initrd == []
            else IsNewest(initrds, dir, FindLinuxKernelFiles(glob).initrd)
  {
    MatchesAre(glob);
    NewestMatch(KernelMatches(glob).value, dir, kernels);
    if initrds != [] {
      NewestMatch(InitrdMatches(glob).value, dir, initrds);
    }
  }
}
