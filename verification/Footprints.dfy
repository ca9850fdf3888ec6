/**
 * What a disk holds at one path and below it, taken out and put back. Two paths of which
 * neither covers the other do not see each other's changes.
 */
module Footprints {
  import opened Wrappers
  import opened Paths
  import opened Extract
  import opened ZipDir
  import opened Report
  import opened Keys

  /** A relative path that names something below. */
  type Inner = r: Rel | r != [] witness ["x"]

  /** The node at a path, and all that is below it. */
  datatype Local = Local(top: Option<Node>, below: map<Inner, Node>)

  const GONE: Local := Local(None, map[])

  function PlainFile(b: Bytes): Local {
    Local(Some(File(b)), map[])
  }

  function FolderOf(t: ReportTree): Local {
    Local(Some(Dir), t)
  }

  function Content(l: Local): Option<Bytes> {
    if l.top.Some? && l.top.value.File? then Some(l.top.value.content) else None
  }

  /** os.Stat finds something. */
  predicate Present(l: Local) {
    l.top.Some?
  }

  /** os.Create succeeds: at most a file is in the way. */
  predicate Tidy(l: Local) {
    l.below == map[] && l.top != Some(Dir)
  }

  /** os.Remove takes away a file or an empty directory. */
  predicate Removable(l: Local) {
    l.top.Some? && l.below == map[]
  }

  function Unlinked(l: Local): Local {
    if l.below == map[] then GONE else l
  }

  function Tail(p: Path, k: Path): Rel
    requires |p.comps| <= |k.comps|
  {
    k.comps[|p.comps|..]
  }

  function Below(t: Tree, p: Path): map<Inner, Node> {
    assert forall k | k in t && Covers(p, k) && k != p :: At(p, Tail(p, k)) == k;
    map r: Inner | r in (set k | k in t && Covers(p, k) && k != p :: Tail(p, k)) :: t[At(p, r)]
  }

  lemma BelowMeaning(t: Tree, p: Path)
    ensures forall r: Inner :: Get(Below(t, p), r) == Get(t, At(p, r))
  {
    assert forall r: Inner :: Covers(p, At(p, r)) && At(p, r) != p && Tail(p, At(p, r)) == r;
    assert forall k | k in t && Covers(p, k) && k != p :: At(p, Tail(p, k)) == k;
  }

  function LocalAt(t: Tree, p: Path): Local {
    Local(Get(t, p), Below(t, p))
  }

  /** What `l` puts at a path that p covers. */
  function Piece(p: Path, l: Local, k: Path): Option<Node>
    requires Covers(p, k)
  {
    if k == p then l.top else PathTail(p, k); Get(l.below, Tail(p, k))
  }

  lemma PathTail(p: Path, k: Path)
    requires Covers(p, k) && k != p
    ensures Tail(p, k) != [] && At(p, Tail(p, k)) == k
  {
    assert k.comps == k.comps[..|p.comps|] + Tail(p, k);
  }

  /** The content of a directory, put at p. */
  function Lift(p: Path, m: map<Inner, Node>): Tree {
    assert forall r: Inner :: Tail(p, At(p, r)) == r;
    map k | k in (set r | r in m :: At(p, r)) :: m[Tail(p, k)]
  }

  lemma LiftMeaning(p: Path, m: map<Inner, Node>)
    ensures forall r: Inner :: Get(Lift(p, m), At(p, r)) == Get(m, r)
    ensures forall k | k in Lift(p, m) :: Covers(p, k) && k != p
  {
    assert forall r: Inner :: Covers(p, At(p, r)) && At(p, r) != p && Tail(p, At(p, r)) == r;
  }

  /** The tree without p and all below it. */
  function Without(t: Tree, p: Path): Tree {
    map k | k in t && !Covers(p, k) :: t[k]
  }

  /** The tree with everything at and below p replaced. */
  function Graft(t: Tree, p: Path, l: Local): Tree {
    Without(t, p) + Lift(p, l.below) + if l.top.Some? then map[p := l.top.value] else map[]
  }

  lemma GraftMeaning(t: Tree, p: Path, l: Local)
    ensures forall k :: Get(Graft(t, p, l), k) == if Covers(p, k) then Piece(p, l, k) else Get(t, k)
  {
    var top: Tree := if l.top.Some? then map[p := l.top.value] else map[];
    LiftMeaning(p, l.below);
    GraftGet(t, p, l, Without(t, p), Lift(p, l.below), top);
  }

  lemma GraftGet(t: Tree, p: Path, l: Local, rest: Tree, lifted: Tree, top: Tree)
    requires forall k :: Get(rest, k) == if Covers(p, k) then None else Get(t, k)
    requires forall r: Inner :: Get(lifted, At(p, r)) == Get(l.below, r)
    requires forall k | k in lifted :: Covers(p, k) && k != p
    requires forall k :: Get(top, k) == if k == p then l.top else None
    ensures forall k :: Get(rest + lifted + top, k) == if Covers(p, k) then Piece(p, l, k) else Get(t, k)
  {
    forall k ensures Get(rest + lifted + top, k) == if Covers(p, k) then Piece(p, l, k) else Get(t, k) {
      UnionGet(rest, lifted, top, k);
      CoversAt(p, []);
      if Covers(p, k) && k != p {
        PathTail(p, k);
        var r: Inner := Tail(p, k);
        assert Get(lifted, At(p, r)) == Get(l.below, r);
      }
      assert Get(rest, k) == if Covers(p, k) then None else Get(t, k);
      assert Get(top, k) == if k == p then l.top else None;
    }
  }

  lemma UnionGet(a: Tree, b: Tree, c: Tree, k: Path)
    ensures Get(a + b + c, k) == if k in c then Get(c, k) else if k in b then Get(b, k) else Get(a, k)
  {
  }

  lemma AsideSplit(p: Path, q: Path, k: Path)
    requires Aside(p, q)
    ensures !Covers(p, k) || !Covers(q, k)
  {
  }

  lemma CoversAt(p: Path, r: Rel)
    ensures Covers(p, At(p, r)) && Tail(p, At(p, r)) == r
    ensures At(p, r) == p <==> r == []
  {
  }

  lemma LocalSame(t: Tree, u: Tree, p: Path)
    requires forall k | Covers(p, k) :: Get(t, k) == Get(u, k)
    ensures LocalAt(t, p) == LocalAt(u, p)
  {
    BelowMeaning(t, p);
    BelowMeaning(u, p);
    CoversAt(p, []);
    forall r: Inner ensures Get(Below(t, p), r) == Get(Below(u, p), r) {
      CoversAt(p, r);
    }
    SameMap(Below(t, p), Below(u, p));
  }

  lemma GraftSame(t: Tree, p: Path, l: Local)
    ensures LocalAt(Graft(t, p, l), p) == l
  {
    GraftMeaning(t, p, l);
    BelowMeaning(Graft(t, p, l), p);
    CoversAt(p, []);
    forall r: Inner ensures Get(Below(Graft(t, p, l), p), r) == Get(l.below, r) {
      CoversAt(p, r);
    }
    SameMap(Below(Graft(t, p, l), p), l.below);
  }

  lemma GraftOther(t: Tree, p: Path, l: Local, q: Path)
    requires Aside(p, q)
    ensures LocalAt(Graft(t, p, l), q) == LocalAt(t, q)
  {
    GraftMeaning(t, p, l);
    forall k | Covers(q, k) ensures Get(Graft(t, p, l), k) == Get(t, k) {
      AsideSplit(p, q, k);
    }
    LocalSame(Graft(t, p, l), t, q);
  }

  lemma GraftOwn(t: Tree, p: Path)
    ensures Graft(t, p, LocalAt(t, p)) == t
  {
    GraftMeaning(t, p, LocalAt(t, p));
    BelowMeaning(t, p);
    forall k ensures Get(Graft(t, p, LocalAt(t, p)), k) == Get(t, k) {
      if Covers(p, k) && k != p { PathTail(p, k); }
    }
    SameMap(Graft(t, p, LocalAt(t, p)), t);
  }

  // ----- single file operations, as grafts -----

  lemma CreateGrafts(t: Tree, p: Path, b: Bytes)
    requires Tidy(LocalAt(t, p))
    ensures t[p := File(b)] == Graft(t, p, PlainFile(b))
  {
    var u := t[p := File(b)];
    GraftMeaning(t, p, PlainFile(b));
    BelowMeaning(t, p);
    forall k ensures Get(u, k) == Get(Graft(t, p, PlainFile(b)), k) {
      if Covers(p, k) && k != p {
        PathTail(p, k);
        assert Get(t, k) == Get(LocalAt(t, p).below, Tail(p, k)) == None;
      }
      CoversAt(p, []);
    }
    SameMap(u, Graft(t, p, PlainFile(b)));
  }

  lemma UnlinkGrafts(t: Tree, p: Path)
    requires Removable(LocalAt(t, p))
    ensures t - {p} == Graft(t, p, GONE)
  {
    GraftMeaning(t, p, GONE);
    BelowMeaning(t, p);
    forall k ensures Get(t - {p}, k) == Get(Graft(t, p, GONE), k) {
      if Covers(p, k) && k != p {
        PathTail(p, k);
        assert Get(t, k) == Get(LocalAt(t, p).below, Tail(p, k)) == None;
      }
      CoversAt(p, []);
    }
    SameMap(t - {p}, Graft(t, p, GONE));
  }

  /** os.RemoveAll. */
  lemma ClearGrafts(t: Tree, p: Path)
    ensures Without(t, p) == Graft(t, p, GONE)
  {
    GraftMeaning(t, p, GONE);
    SameMap(Without(t, p), Graft(t, p, GONE));
  }
}
