/**
 Recursive directory copy on a file system that may fail at any operation.
 */
module CopyDir {
  import opened Wrappers

  /** The components of an absolute, cleaned path; the root has none. */
  type Path = seq<string>

  datatype Node = Dir(mode: int) | File(content: string, mode: int)

  // ---- Paths as strings ----

  predicate ValidName(name: string) {
    name != "" && '/' !in name
  }

  predicate ValidPath(p: Path) {
    forall i :: 0 <= i < |p| ==> ValidName(p[i])
  }

  function Render(p: Path): string {
    if p == [] then "" else "/" + p[0] + Render(p[1..])
  }

  /** The absolute path as text. */
  function Abs(p: Path): string {
    if p == [] then "/" else Render(p)
  }

  lemma {:induction false} RenderStart(p: Path)
    ensures p != [] ==> Render(p) != "" && Render(p)[0] == '/'
  {
  }

  /** Two texts that agree up to a slash agree on the name in front of it. */
  lemma {:induction false} SameFirstName(x: string, a: string, y: string, b: string)
    requires ValidName(x) && ValidName(y) && a != "" && a[0] == '/' && (b == "" || b[0] == '/')
    requires x + a <= y + b
    ensures x == y && a <= b
  {
    var w := y + b;
    assert forall k :: 0 <= k < |x + a| ==> (x + a)[k] == w[k];
    assert w[|x|] == a[0] && forall k :: 0 <= k < |x| ==> w[k] == x[k];
    assert x == w[..|x|] && y == w[..|y|] && a <= w[|x|..] && b == w[|y|..];
  }

  /** The guards' test for a strict prefix followed by a separator is the test for a path strictly inside another. */
  lemma {:induction false} PrefixGuard(p: Path, q: Path)
    requires ValidPath(p) && ValidPath(q) && p != []
    ensures Render(p) + "/" <= Render(q) <==> p < q
    decreases p, 0
  {
    if q != [] {
      var x, p', y, q' := p[0], p[1..], q[0], q[1..];
      RenderStart(p');
      RenderStart(q');
      assert Render(p) + "/" == "/" + (x + (Render(p') + "/"));
      assert Render(q) == "/" + (y + Render(q'));
      StripSlash(x + (Render(p') + "/"), y + Render(q'));
      FirstNames(x, Render(p') + "/", y, Render(q'));
      GuardBehindName(p', q');
      assert p == [x] + p' && q == [y] + q';
      ConsPrefix(x, p', y, q');
    }
  }

  lemma {:induction false} FirstNames(x: string, a: string, y: string, b: string)
    requires ValidName(x) && ValidName(y) && a != "" && a[0] == '/' && (b == "" || b[0] == '/')
    ensures x + a <= y + b <==> x == y && a <= b
  {
    if x + a <= y + b {
      SameFirstName(x, a, y, b);
    } else {
      StripPrefix(x, a, b);
    }
  }

  lemma {:induction false} ConsPrefix<T>(x: T, p: seq<T>, y: T, q: seq<T>)
    ensures [x] + p < [y] + q <==> x == y && p < q
  {
    if [x] + p < [y] + q {
      assert ([x] + p)[0] == ([y] + q)[0];
    }
    StripPrefix([x], p, q);
  }

  lemma {:induction false} GuardBehindName(p: Path, q: Path)
    requires ValidPath(p) && ValidPath(q)
    ensures Render(p) + "/" <= Render(q) <==> p < q
    decreases p, 1
  {
    if p == [] {
      RenderStart(q);
      assert Render(p) + "/" == "/";
    } else {
      PrefixGuard(p, q);
    }
  }

  lemma {:induction false} StripSlash(a: string, b: string)
    ensures "/" + a <= "/" + b <==> a <= b
  {
    StripPrefix("/", a, b);
  }

  lemma {:induction false} StripPrefix<T>(x: seq<T>, a: seq<T>, b: seq<T>)
    ensures x + a <= x + b <==> a <= b
    ensures x + a == x + b <==> a == b
  {
    assert (x + a)[|x|..] == a && (x + b)[|x|..] == b;
    if a <= b {
      assert b == a + b[|a|..];
      assert x + b == (x + a) + b[|a|..];
    }
    if x + a <= x + b {
      assert a == (x + b)[..|x + a|][|x|..];
    }
  }

  lemma {:induction false} RenderInjective(p: Path, q: Path)
    requires ValidPath(p) && ValidPath(q)
    ensures Abs(p) == Abs(q) <==> p == q
  {
    if p != [] && q != [] && Abs(p) == Abs(q) {
      assert Render(p) + "/" == Render(q) + "/";
      SameRender(p, q);
    } else if p != [] && q == [] {
      NotRoot(p);
    } else if q != [] && p == [] {
      NotRoot(q);
    }
  }

  lemma {:induction false} NotRoot(p: Path)
    requires ValidPath(p) && p != []
    ensures Render(p) != "/"
  {
    assert |Render(p)| >= 1 + |p[0]|;
  }

  lemma {:induction false} SameRender(p: Path, q: Path)
    requires ValidPath(p) && ValidPath(q) && Render(p) == Render(q)
    ensures p == q
  {
    if p != [] && q != [] {
      var x, p', y, q' := p[0], p[1..], q[0], q[1..];
      RenderStart(p');
      RenderStart(q');
      assert Render(p) == "/" + (x + Render(p')) && Render(q) == "/" + (y + Render(q'));
      StripPrefix("/", x + Render(p'), y + Render(q'));
      assert x + (Render(p') + "/") == (x + Render(p')) + "/" == (y + Render(q')) + "/" == y + (Render(q') + "/");
      SameFirstName(x, Render(p') + "/", y, Render(q') + "/");
      StripPrefix(x, Render(p'), Render(q'));
      SameRender(p', q');
      assert p == [x] + p' && q == [y] + q';
    }
  }

  /** For the root the guard looks for two separators in a row: it does not see that everything is inside the root. */
  lemma {:induction false} RootEscapesGuard(q: Path)
    requires ValidPath(q) && q != []
    ensures [] < q && !(Abs([]) + "/" <= Abs(q))
  {
    assert Abs(q)[1] == q[0][0];
    assert (Abs([]) + "/")[1] == '/';
  }

  // ---- Trees ----

  /** Whatever exists lies in a directory. */
  ghost predicate Closed(nodes: map<Path, Node>) {
    && [] in nodes && nodes[[]].Dir?
    && forall p :: p in nodes && p != [] ==> ParentIsDir(nodes, p)
  }

  predicate ParentIsDir(nodes: map<Path, Node>, p: Path)
    requires p != []
  {
    p[..|p| - 1] in nodes && nodes[p[..|p| - 1]].Dir?
  }

  predicate SameAt(a: map<Path, Node>, p: Path, b: map<Path, Node>, q: Path) {
    (p in a <==> q in b) && (p in a ==> a[p] == b[q])
  }

  /** The tree at `p` in `a` is the tree at `q` in `b`, with contents and modes. */
  ghost predicate SameTree(a: map<Path, Node>, p: Path, b: map<Path, Node>, q: Path) {
    forall rel: Path :: SameAt(a, p + rel, b, q + rel)
  }

  /** Nothing differs except at or below `q`. */
  ghost predicate SameOutside(a: map<Path, Node>, b: map<Path, Node>, q: Path) {
    forall p: Path :: !(q <= p) ==> SameAt(a, p, b, p)
  }

  ghost predicate EmptyAt(nodes: map<Path, Node>, q: Path) {
    forall p: Path :: q <= p ==> p !in nodes
  }

  ghost function Below(nodes: map<Path, Node>, q: Path): set<Path> {
    set p | p in nodes && q <= p
  }

  predicate Disjoint(p: Path, q: Path) {
    !(p <= q) && !(q <= p)
  }

  lemma {:induction false} PutClosed(nodes: map<Path, Node>, p: Path, node: Node)
    requires Closed(nodes) && p != [] && ParentIsDir(nodes, p) && (p in nodes && nodes[p].Dir? ==> node.Dir?)
    ensures Closed(nodes[p := node]) && SameOutside(nodes, nodes[p := node], p) && ParentIsDir(nodes[p := node], p)
  {
    var after := nodes[p := node];
    forall q | q in after && q != []
      ensures ParentIsDir(after, q)
    {
      assert ParentIsDir(nodes, q);
    }
  }

  // ---- The file system ----

  class FileSystem {
    var nodes: map<Path, Node>

    /** Whether no operation ever fails for reasons of its own. */
    const reliable: bool

    constructor (reliable: bool)
      ensures nodes == map[[] := Dir(0)] && this.reliable == reliable
    {
      nodes := map[[] := Dir(0)];
      this.reliable := reliable;
    }

    /** Unless the file system is reliable, any operation may fail. */
    method Works() returns (ok: bool)
      ensures reliable ==> ok
    {
      ok := *;
      ok := ok || reliable;
    }

    /** A failed removal may have removed some of it, children first. */
    method RemoveAll(p: Path) returns (ok: bool)
      requires Closed(nodes) && p != []
      modifies this
      ensures Closed(nodes) && SameOutside(old(nodes), nodes, p)
      ensures ok ==> EmptyAt(nodes, p)
      ensures reliable ==> ok
    {
      ok := Works();
      if ok {
        nodes := map q | q in nodes && !(p <= q) :: nodes[q];
        forall q | q in nodes && q != []
          ensures ParentIsDir(nodes, q)
        {
          assert ParentIsDir(old(nodes), q);
        }
      }
    }

    method Mkdir(p: Path, mode: int) returns (ok: bool)
      requires Closed(nodes) && p != []
      modifies this
      ensures Closed(nodes)
      ensures ok ==> p !in old(nodes) && ParentIsDir(old(nodes), p) && nodes == old(nodes)[p := Dir(mode)]
      ensures !ok ==> nodes == old(nodes)
      ensures reliable ==> (ok <==> p !in old(nodes) && ParentIsDir(old(nodes), p))
    {
      ok := Works();
      if ok && p !in nodes && ParentIsDir(nodes, p) {
        PutClosed(nodes, p, Dir(mode));
        nodes := nodes[p := Dir(mode)];
      } else {
        ok := false;
      }
    }

    /** The names in a directory, each once. */
    method ReadDir(p: Path) returns (ok: bool, names: seq<string>)
      ensures ok ==> forall n: string :: n in names <==> p + [n] in nodes
      ensures ok ==> forall i, j :: 0 <= i < j < |names| ==> names[i] != names[j]
      ensures reliable ==> (ok <==> p in nodes && nodes[p].Dir?)
    {
      ok := Works();
      names := [];
      if !ok || p !in nodes || !nodes[p].Dir? {
        return false, names;
      }
      var todo := nodes.Keys;
      while todo != {}
        invariant todo <= nodes.Keys
        invariant forall n: string :: n in names <==> p + [n] in nodes.Keys - todo
        invariant forall i, j :: 0 <= i < j < |names| ==> names[i] != names[j]
        decreases todo
      {
        var q :| q in todo;
        todo := todo - {q};
        if |q| == |p| + 1 && p <= q {
          assert q == p + [q[|p|]];
          names := names + [q[|p|]];
        } else {
          assert forall n: string :: p <= p + [n] && |p + [n]| == |p| + 1;
        }
      }
    }

    /** Opening for writing creates the file with `mode`, or empties the one that is there; a failed copy may leave part of it. */
    method CopyFile(src: Path, dst: Path, mode: int) returns (ok: bool)
      requires Closed(nodes) && dst != [] && src != dst
      modifies this
      ensures Closed(nodes) && SameOutside(old(nodes), nodes, dst)
      ensures ok ==> src in old(nodes) && old(nodes)[src].File?
      ensures ok ==> var kept := if dst in old(nodes) then old(nodes)[dst].mode else mode;
                     nodes == old(nodes)[dst := File(old(nodes)[src].content, kept)]
      ensures reliable ==> (ok <==> src in old(nodes) && old(nodes)[src].File? && ParentIsDir(old(nodes), dst)
                                    && (dst in old(nodes) ==> old(nodes)[dst].File?))
    {
      var isOpen := Works();
      if !isOpen || src !in nodes || !nodes[src].File? || !ParentIsDir(nodes, dst) || (dst in nodes && nodes[dst].Dir?) {
        return false;
      }
      var kept := if dst in nodes then nodes[dst].mode else mode;
      ok := Works();
      var part: string := *;
      var written := File(if ok then nodes[src].content else part, kept);
      PutClosed(nodes, dst, written);
      nodes := nodes[dst := written];
    }
  }

  // ---- Moving trees around in proofs ----

  lemma {:induction false} PrefixTransitive<T>(a: seq<T>, b: seq<T>, c: seq<T>)
    requires a <= b <= c
    ensures a <= c
  {
    assert a == b[..|a|] == c[..|a|];
  }

  lemma {:induction false} PrefixesCompare<T>(a: seq<T>, b: seq<T>, c: seq<T>)
    requires a <= c && b <= c
    ensures a <= b || b <= a
  {
    if |a| <= |b| {
      assert a == c[..|a|] == b[..|a|];
    } else {
      assert b == c[..|b|] == a[..|b|];
    }
  }

  lemma {:induction false} OutsideTransitive(a: map<Path, Node>, b: map<Path, Node>, c: map<Path, Node>, q: Path, r: Path)
    requires SameOutside(a, b, q) && SameOutside(b, c, r) && q <= r
    ensures SameOutside(a, c, q)
  {
    forall p: Path | !(q <= p)
      ensures SameAt(a, p, c, p)
    {
      if r <= p {
        PrefixTransitive(q, r, p);
      }
      assert SameAt(a, p, b, p) && SameAt(b, p, c, p);
    }
  }

  lemma {:induction false} DisjointBelow(p: Path, q: Path, rel: Path)
    requires Disjoint(p, q)
    ensures !(q <= p + rel)
  {
    if q <= p + rel {
      PrefixesCompare(p, q, p + rel);
    }
  }

  /** A tree at `q` is not touched by changes at or below a disjoint path. */
  lemma {:induction false} TreeKept(a: map<Path, Node>, p: Path, b: map<Path, Node>, q: Path, c: map<Path, Node>, r: Path)
    requires SameTree(a, p, b, q) && SameOutside(b, c, r) && Disjoint(q, r)
    ensures SameTree(a, p, c, q)
  {
    forall rel: Path
      ensures SameAt(a, p + rel, c, q + rel)
    {
      DisjointBelow(q, r, rel);
      assert SameAt(a, p + rel, b, q + rel) && SameAt(b, q + rel, c, q + rel);
    }
  }

  lemma {:induction false} SourceKept(a: map<Path, Node>, b: map<Path, Node>, p: Path, c: map<Path, Node>, q: Path, r: Path)
    requires SameOutside(a, b, r) && Disjoint(p, r) && SameTree(b, p, c, q)
    ensures SameTree(a, p, c, q)
  {
    forall rel: Path
      ensures SameAt(a, p + rel, c, q + rel)
    {
      DisjointBelow(p, r, rel);
      assert SameAt(a, p + rel, b, p + rel) && SameAt(b, p + rel, c, q + rel);
    }
  }

  lemma {:induction false} EmptyKept(b: map<Path, Node>, c: map<Path, Node>, q: Path, r: Path)
    requires EmptyAt(b, q) && SameOutside(b, c, r) && Disjoint(q, r)
    ensures EmptyAt(c, q)
  {
    forall p: Path | q <= p
      ensures p !in c
    {
      DisjointBelow(q, r, p[|q|..]);
      assert p == q + p[|q|..] && SameAt(b, p, c, p);
    }
  }

  lemma {:induction false} SiblingsDisjoint(p: Path, m: string, n: string)
    requires m != n
    ensures Disjoint(p + [m], p + [n])
  {
    assert (p + [m])[|p|] == m && (p + [n])[|p|] == n;
  }

  lemma {:induction false} ChildrenDisjoint(p: Path, q: Path, n: string)
    requires Disjoint(p, q)
    ensures Disjoint(p + [n], q) && Disjoint(p + [n], q + [n])
  {
    DisjointBelow(p, q, [n]);
    DisjointBelow(q, p, [n]);
    assert p <= p + [n] && q <= q + [n];
    if p + [n] <= q {
      PrefixTransitive(p, p + [n], q);
    }
    if p + [n] <= q + [n] {
      PrefixTransitive(p, p + [n], q + [n]);
    }
    if q + [n] <= p + [n] {
      PrefixTransitive(q, q + [n], p + [n]);
    }
  }

  /** Nothing exists below a path that does not exist, or that is a file. */
  lemma {:induction false} NothingBelow(nodes: map<Path, Node>, p: Path, rel: Path)
    requires Closed(nodes) && (p !in nodes || nodes[p].File?) && rel != []
    ensures p + rel !in nodes
    decreases rel
  {
    var q := p + rel;
    assert q[..|q| - 1] == p + rel[..|rel| - 1];
    assert |rel| == 1 ==> p + rel[..|rel| - 1] == p;
    if q in nodes {
      assert ParentIsDir(nodes, q);
      if |rel| > 1 {
        NothingBelow(nodes, p, rel[..|rel| - 1]);
      }
    }
  }

  /** A copied file is a copied tree of one node. */
  lemma {:induction false} FileIsTree(b: map<Path, Node>, p: Path, c: map<Path, Node>, q: Path)
    requires Closed(b) && p in b && b[p].File? && EmptyAt(b, q) && c == b[q := b[p]]
    ensures SameTree(b, p, c, q)
  {
    forall rel: Path
      ensures SameAt(b, p + rel, c, q + rel)
    {
      if rel == [] {
        assert p + rel == p && q + rel == q;
      } else {
        NothingBelow(b, p, rel);
        assert q <= q + rel && q + rel != q;
      }
    }
  }

  /** A directory whose entries are all copied is copied. */
  lemma {:induction false} Assemble(a: map<Path, Node>, p: Path, c: map<Path, Node>, q: Path, names: seq<string>)
    requires Closed(a) && SameAt(a, p, c, q)
    requires forall n: string :: n in names <==> p + [n] in a
    requires forall n :: n in names ==> SameTree(a, p + [n], c, q + [n])
    requires forall n: string :: n !in names ==> EmptyAt(c, q + [n])
    ensures SameTree(a, p, c, q)
  {
    forall rel: Path
      ensures SameAt(a, p + rel, c, q + rel)
    {
      if rel == [] {
        assert p + rel == p && q + rel == q;
      } else {
        var n, rest := rel[0], rel[1..];
        assert p + rel == p + [n] + rest && q + rel == q + [n] + rest;
        if n in names {
          assert SameAt(a, p + [n] + rest, c, q + [n] + rest);
        } else {
          assert q + [n] <= q + rel;
          if rest == [] {
            assert p + rel == p + [n];
          } else {
            NothingBelow(a, p + [n], rest);
          }
        }
      }
    }
  }

  lemma {:induction false} ChildShrinks(a: map<Path, Node>, b: map<Path, Node>, p: Path, n: string, r: Path)
    requires SameOutside(a, b, r) && Disjoint(p, r) && p in a
    ensures Below(b, p + [n]) < Below(a, p)
  {
    forall q | q in Below(b, p + [n])
      ensures q in Below(a, p)
    {
      assert q[..|p|] == (p + [n])[..|p|] == p;
      DisjointBelow(p, r, q[|p|..]);
      assert q == p + q[|p|..] && SameAt(a, q, b, q);
    }
    assert p in Below(a, p) && p !in Below(b, p + [n]);
  }

  // ---- The copy ----

  /** One entry, file or directory. */
  method CopyEntry(fs: FileSystem, src: Path, dst: Path) returns (ok: bool)
    requires Closed(fs.nodes) && dst != [] && Disjoint(src, dst) && src in fs.nodes && EmptyAt(fs.nodes, dst)
    modifies fs
    ensures Closed(fs.nodes) && SameOutside(old(fs.nodes), fs.nodes, dst)
    ensures ok ==> SameTree(old(fs.nodes), src, fs.nodes, dst)
    ensures fs.reliable && ParentIsDir(old(fs.nodes), dst) ==> ok
    decreases Below(fs.nodes, src), 1
  {
    var node := fs.nodes[src];
    if node.Dir? {
      ok := CopyDirNoChecks(fs, src, node.mode, dst);
    } else {
      ghost var before := fs.nodes;
      assert dst <= dst;
      ok := fs.CopyFile(src, dst, node.mode);
      if ok {
        FileIsTree(before, src, fs.nodes, dst);
      }
    }
  }

  /** The recursion; it ends because every entry has a smaller tree and the source never changes. */
  method CopyDirNoChecks(fs: FileSystem, src: Path, mode: int, dst: Path) returns (ok: bool)
    requires Closed(fs.nodes) && dst != [] && Disjoint(src, dst) && EmptyAt(fs.nodes, dst)
    requires src in fs.nodes && fs.nodes[src] == Dir(mode)
    modifies fs
    ensures Closed(fs.nodes) && SameOutside(old(fs.nodes), fs.nodes, dst)
    ensures ok ==> SameTree(old(fs.nodes), src, fs.nodes, dst)
    ensures ok ==> ParentIsDir(old(fs.nodes), dst)
    ensures fs.reliable && ParentIsDir(old(fs.nodes), dst) ==> ok
    decreases Below(fs.nodes, src), 0
  {
    ghost var was := fs.nodes;
    assert dst <= dst;
    ok := fs.Mkdir(dst, mode);
    if !ok {
      return;
    }
    var names: seq<string>;
    ok, names := fs.ReadDir(src);
    if !ok {
      return;
    }
    EntriesOf(was, fs.nodes, src, dst, mode, names);
    for i := 0 to |names|
      invariant Closed(fs.nodes) && SameOutside(was, fs.nodes, dst) && dst in fs.nodes && fs.nodes[dst] == Dir(mode)
      invariant forall n :: n in names[..i] ==> SameTree(was, src + [n], fs.nodes, dst + [n])
      invariant forall n: string :: n !in names[..i] ==> EmptyAt(fs.nodes, dst + [n])
    {
      var n := names[i];
      ghost var before := fs.nodes;
      assert n !in names[..i];
      BeforeEntry(was, before, src, dst, n);
      ok := CopyEntry(fs, src + [n], dst + [n]);
      OutsideTransitive(was, before, fs.nodes, dst, dst + [n]);
      if !ok {
        return;
      }
      AfterEntry(was, before, fs.nodes, src, dst, names, i, mode);
    }
    assert names[..|names|] == names;
    Assemble(was, src, fs.nodes, dst, names);
  }

  /** An entry is ready to be copied: there as it was, with a smaller tree, and with a directory to go to. */
  lemma {:induction false} BeforeEntry(was: map<Path, Node>, before: map<Path, Node>, src: Path, dst: Path, n: string)
    requires Disjoint(src, dst) && SameOutside(was, before, dst) && src in was && src + [n] in was
    requires dst in before && before[dst].Dir?
    ensures Disjoint(src + [n], dst + [n]) && src + [n] in before
    ensures Below(before, src + [n]) < Below(was, src)
    ensures ParentIsDir(before, dst + [n])
  {
    ChildrenDisjoint(src, dst, n);
    ChildShrinks(was, before, src, n, dst);
    assert SameAt(was, src + [n], before, src + [n]);
    assert (dst + [n])[..|dst + [n]| - 1] == dst;
  }

  lemma {:induction false} EntriesOf(was: map<Path, Node>, now: map<Path, Node>, src: Path, dst: Path, mode: int, names: seq<string>)
    requires Disjoint(src, dst) && EmptyAt(was, dst) && now == was[dst := Dir(mode)]
    requires forall n: string :: n in names <==> src + [n] in now
    ensures SameOutside(was, now, dst)
    ensures forall n: string :: n in names <==> src + [n] in was
    ensures forall n: string :: EmptyAt(now, dst + [n])
  {
    forall n: string
      ensures src + [n] in now <==> src + [n] in was
      ensures EmptyAt(now, dst + [n])
    {
      DisjointBelow(src, dst, [n]);
      forall p: Path | dst + [n] <= p
        ensures p !in now
      {
        assert p[..|dst|] == (dst + [n])[..|dst|] == dst;
      }
    }
  }

  lemma {:induction false} AfterEntry(was: map<Path, Node>, before: map<Path, Node>, now: map<Path, Node>, src: Path, dst: Path,
                                      names: seq<string>, i: nat, mode: int)
    requires i < |names| && forall j, k :: 0 <= j < k < |names| ==> names[j] != names[k]
    requires Disjoint(src, dst) && SameOutside(was, before, dst)
    requires dst in before && before[dst] == Dir(mode)
    requires SameOutside(before, now, dst + [names[i]]) && SameTree(before, src + [names[i]], now, dst + [names[i]])
    requires forall n :: n in names[..i] ==> SameTree(was, src + [n], before, dst + [n])
    requires forall n: string :: n !in names[..i] ==> EmptyAt(before, dst + [n])
    ensures dst in now && now[dst] == Dir(mode)
    ensures forall n :: n in names[..i + 1] ==> SameTree(was, src + [n], now, dst + [n])
    ensures forall n: string :: n !in names[..i + 1] ==> EmptyAt(now, dst + [n])
  {
    var m := names[i];
    assert !(dst + [m] <= dst) && SameAt(before, dst, now, dst);
    forall n | n in names[..i + 1]
      ensures SameTree(was, src + [n], now, dst + [n])
    {
      if n == m {
        ChildrenDisjoint(src, dst, m);
        SourceKept(was, before, src + [m], now, dst + [m], dst);
      } else {
        SiblingsDisjoint(dst, n, m);
        assert n in names[..i];
        TreeKept(was, src + [n], before, dst + [n], now, dst + [m]);
      }
    }
    forall n: string | n !in names[..i + 1]
      ensures EmptyAt(now, dst + [n])
    {
      assert names[..i + 1] == names[..i] + [m];
      SiblingsDisjoint(dst, n, m);
      EmptyKept(before, now, dst + [n], dst + [m]);
    }
  }

  datatype CopyResult = Copied | NothingToDo | IntoItself | IntoParent | Failed

  /**
   A successful copy makes the tree at `dst` that at `src`, without what was there before, and leaves everything else,
   the source included, as it was; overlapping paths change nothing, and a failure changes nothing outside `dst`. If no
   operation fails by itself, disjoint paths are copied exactly if `src` is a directory and `dst` lies in one.
   */
  method CopyDir(fs: FileSystem, src: Path, dst: Path) returns (r: CopyResult)
    requires Closed(fs.nodes) && ValidPath(src) && ValidPath(dst) && src != [] && dst != []
    modifies fs
    ensures Closed(fs.nodes)
    ensures r.NothingToDo? <==> src == dst
    ensures r.IntoItself? <==> src < dst
    ensures r.IntoParent? <==> dst < src
    ensures !Disjoint(src, dst) ==> fs.nodes == old(fs.nodes)
    ensures SameOutside(old(fs.nodes), fs.nodes, dst)
    ensures r.Copied? ==> src in old(fs.nodes) && old(fs.nodes)[src].Dir? && SameTree(old(fs.nodes), src, fs.nodes, dst)
    ensures r.Copied? ==> SameTree(old(fs.nodes), src, fs.nodes, src)
    ensures r.Copied? ==> ParentIsDir(old(fs.nodes), dst)
    ensures fs.reliable && Disjoint(src, dst) ==>
              (r.Copied? <==> src in old(fs.nodes) && old(fs.nodes)[src].Dir? && ParentIsDir(old(fs.nodes), dst))
  {
    RenderInjective(src, dst);
    PrefixGuard(src, dst);
    PrefixGuard(dst, src);
    if Abs(src) == Abs(dst) {
      return NothingToDo;
    }
    if Abs(src) + "/" <= Abs(dst) {
      return IntoItself;
    }
    if Abs(dst) + "/" <= Abs(src) {
      return IntoParent;
    }
    var ok := fs.Works();
    if !ok || src !in fs.nodes || !fs.nodes[src].Dir? {
      return Failed;
    }
    var mode := fs.nodes[src].mode;
    ghost var was := fs.nodes;
    ok := fs.RemoveAll(dst);
    if !ok {
      return Failed;
    }
    ghost var cleared := fs.nodes;
    assert SameAt(was, src, cleared, src);
    ParentKept(was, cleared, dst);
    ok := CopyDirNoChecks(fs, src, mode, dst);
    OutsideTransitive(was, cleared, fs.nodes, dst, dst);
    if !ok {
      return Failed;
    }
    SourceKept(was, cleared, src, fs.nodes, dst, dst);
    SameTreeRefl(was, src);
    TreeKept(was, src, was, src, fs.nodes, dst);
    r := Copied;
  }

  lemma {:induction false} ParentKept(was: map<Path, Node>, now: map<Path, Node>, dst: Path)
    requires dst != [] && SameOutside(was, now, dst)
    ensures ParentIsDir(was, dst) <==> ParentIsDir(now, dst)
  {
    assert !(dst <= dst[..|dst| - 1]) && SameAt(was, dst[..|dst| - 1], now, dst[..|dst| - 1]);
  }

  lemma {:induction false} SameTreeRefl(a: map<Path, Node>, p: Path)
    ensures SameTree(a, p, a, p)
  {
  }
}
