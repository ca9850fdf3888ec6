/**
 * Packing a report directory: utils.ZipDirectory.
 *
 * A directory is a map from component lists, relative to its root, to nodes. The walk
 * visits a directory before its content and the names of one directory in byte order,
 * which is the lexicographic order of component lists.
 */
module ZipDir {
  import opened Wrappers
  import opened Text
  import opened Paths
  import opened Extract

  type Rel = seq<string>
  type Folder = map<Rel, Node>

  /** Directory entries have a name ending in "/" and no content. */
  datatype ZipEntry = ZipEntry(name: string, content: Bytes)
  type Archive = seq<ZipEntry>

  /** A key's proper ancestors are directories of the folder. */
  predicate IsFolder(t: Folder) {
    forall k | k in t ::
      && k != []
      && (forall c | c in k :: IsName(c))
      && (forall i | 0 < i < |k| :: k[..i] in t && t[k[..i]].Dir?)
  }

  /** The content of a result directory. */
  type ReportTree = t: Folder | IsFolder(t) witness map[]

  // ----- order -----

  predicate NameLess(a: string, b: string) {
    b != "" && (a == "" || a[0] < b[0] || (a[0] == b[0] && NameLess(a[1..], b[1..])))
  }

  predicate RelLess(p: Rel, q: Rel) {
    q != [] && (p == [] || NameLess(p[0], q[0]) || (p[0] == q[0] && RelLess(p[1..], q[1..])))
  }

  predicate Ascending(order: seq<Rel>) {
    forall i, j | 0 <= i < j < |order| :: RelLess(order[i], order[j])
  }

  lemma {:induction false} NameLessTotal(a: string, b: string)
    requires a != b
    ensures NameLess(a, b) || NameLess(b, a)
    decreases |a|
  {
    if a != "" && b != "" && a[0] == b[0] {
      assert a == [a[0]] + a[1..] && b == [b[0]] + b[1..];
      NameLessTotal(a[1..], b[1..]);
    }
  }

  lemma {:induction false} NameLessTransitive(a: string, b: string, c: string)
    requires NameLess(a, b) && NameLess(b, c)
    ensures NameLess(a, c)
    decreases |a|
  {
    if a != "" && a[0] == b[0] == c[0] {
      NameLessTransitive(a[1..], b[1..], c[1..]);
    }
  }

  lemma {:induction false} NameLessIrreflexive(a: string)
    ensures !NameLess(a, a)
  {
    if a != "" { NameLessIrreflexive(a[1..]); }
  }

  lemma {:induction false} RelLessIrreflexive(p: Rel)
    ensures !RelLess(p, p)
  {
    if p != [] {
      NameLessIrreflexive(p[0]);
      RelLessIrreflexive(p[1..]);
    }
  }

  /** Byte order: at the first difference the smaller character, or the end, comes first. */
  lemma {:induction false} NameOrder(a: string, b: string)
    ensures NameLess(a, b) <==>
      exists i | 0 <= i <= |a| && i < |b| :: a[..i] == b[..i] && (i == |a| || a[i] < b[i])
  {
    if a != "" && b != "" && a[0] == b[0] {
      NameOrder(a[1..], b[1..]);
      if NameLess(a, b) {
        var i :| 0 <= i <= |a[1..]| && i < |b[1..]| && a[1..][..i] == b[1..][..i] &&
            (i == |a[1..]| || a[1..][i] < b[1..][i]);
        assert a[..i + 1] == [a[0]] + a[1..][..i] && b[..i + 1] == [b[0]] + b[1..][..i];
      }
      forall i | 0 <= i <= |a| && i < |b| && a[..i] == b[..i] && (i == |a| || a[i] < b[i]) ensures NameLess(a, b) {
        assert a[1..][..i - 1] == a[..i][1..] == b[1..][..i - 1];
      }
    } else if NameLess(a, b) {
      assert a[..0] == b[..0];
    }
  }

  /** Order below a common directory is the order of what follows it. */
  lemma {:induction false} RelLessUnder(dir: Rel, x: Rel, y: Rel)
    ensures RelLess(dir + x, dir + y) <==> RelLess(x, y)
  {
    if dir == [] {
      assert dir + x == x && dir + y == y;
    } else {
      NameLessIrreflexive(dir[0]);
      assert (dir + x)[1..] == dir[1..] + x && (dir + y)[1..] == dir[1..] + y;
      RelLessUnder(dir[1..], x, y);
    }
  }

  /** A directory comes before what is below it, and siblings with all below them in the order of their names. */
  lemma RelOrder(dir: Rel, a: string, b: string, x: Rel, y: Rel)
    ensures x != [] ==> RelLess(dir, dir + x)
    ensures NameLess(a, b) ==> RelLess(dir + [a] + x, dir + [b] + y)
  {
    RelLessUnder(dir, [], x);
    RelLessUnder(dir, [a] + x, [b] + y);
    assert dir + [] == dir && dir + [a] + x == dir + ([a] + x) && dir + [b] + y == dir + ([b] + y);
  }

  // ----- reading a directory -----

  predicate Within(dir: Rel, k: Rel) {
    |dir| <= |k| && k[..|dir|] == dir
  }

  function Children(t: Folder, dir: Rel): set<string> {
    set k | k in t && |k| == |dir| + 1 && Within(dir, k) :: k[|dir|]
  }

  ghost predicate IsLeast(names: set<string>, least: string) {
    least in names && forall n | n in names && n != least :: NameLess(least, n)
  }

  lemma {:induction false} LeastExists(names: set<string>) returns (least: string)
    requires names != {}
    ensures IsLeast(names, least)
  {
    var some :| some in names;
    var rest := names - {some};
    if rest == {} {
      least := some;
      assert names == {some};
    } else {
      var other := LeastExists(rest);
      NameLessTotal(some, other);
      if NameLess(other, some) {
        least := other;
      } else {
        least := some;
        forall n | n in names && n != some ensures NameLess(some, n) {
          if n != other { NameLessTransitive(some, other, n); }
        }
      }
    }
  }

  lemma LeastUnique(names: set<string>, a: string, b: string)
    requires IsLeast(names, a) && IsLeast(names, b)
    ensures a == b
  {
    if a != b {
      NameLessTransitive(a, b, a);
      NameLessIrreflexive(a);
    }
  }

  ghost function Least(names: set<string>): (least: string)
    requires names != {}
    ensures IsLeast(names, least)
  {
    assert exists l :: IsLeast(names, l) by { var l := LeastExists(names); }
    var l :| IsLeast(names, l); l
  }

  /** The names of a directory in byte order. */
  ghost function Sorted(names: set<string>): seq<string> {
    if names == {} then [] else [Least(names)] + Sorted(names - {Least(names)})
  }

  ghost predicate NamesAscend(names: seq<string>) {
    forall i, j | 0 <= i < j < |names| :: NameLess(names[i], names[j])
  }

  lemma {:induction false} SortedSpec(names: set<string>)
    ensures NamesAscend(Sorted(names))
    ensures forall n :: n in Sorted(names) <==> n in names
  {
    if names != {} { SortedSpec(names - {Least(names)}); }
  }

  /** os.ReadDir */
  method ReadDir(t: Folder, dir: Rel) returns (names: seq<string>)
    ensures names == Sorted(Children(t, dir))
  {
    names := [];
    var rest := Children(t, dir);
    while rest != {}
      invariant Sorted(Children(t, dir)) == names + Sorted(rest)
      decreases rest
    {
      ghost var least := Least(rest);
      assert least in rest && forall n | n in rest && n != least :: NameLess(least, n);
      var name :| name in rest && forall n | n in rest && n != name :: NameLess(name, n);
      LeastUnique(rest, name, least);
      names := names + [name];
      rest := rest - {name};
    }
  }

  // ----- the walk -----

  function EntryFor(t: Folder, k: Rel): ZipEntry {
    if k in t && t[k].File? then ZipEntry(Join(k, '/'), t[k].content)
    else ZipEntry(Join(k, '/') + "/", [])
  }

  function EntriesFor(t: Folder, order: seq<Rel>): Archive {
    seq(|order|, i requires 0 <= i < |order| => EntryFor(t, order[i]))
  }

  lemma EntriesForAppend(t: Folder, before: Archive, a: seq<Rel>, b: seq<Rel>)
    ensures before + EntriesFor(t, a + b) == before + EntriesFor(t, a) + EntriesFor(t, b)
  {
    assert EntriesFor(t, a + b) == EntriesFor(t, a) + EntriesFor(t, b);
  }

  /** The archive holds every key of the folder once, in walk order. */
  ghost predicate Lists(t: Folder, order: seq<Rel>, archive: Archive) {
    && Ascending(order)
    && (forall i, j | 0 <= i < j < |order| :: order[i] != order[j])
    && (forall k :: k in order <==> k in t)
    && archive == EntriesFor(t, order)
  }

  function SubtreeKeys(t: Folder, dir: Rel): set<Rel> {
    set k | k in t && Within(dir, k)
  }

  predicate AreChildren(t: Folder, k: Rel, names: seq<string>) {
    forall n | n in names :: n in Children(t, k)
  }

  /** The keys in the order a walk from k visits them. */
  ghost function WalkOrder(t: Folder, k: Rel): seq<Rel>
    requires IsFolder(t) && (k == [] || k in t)
    decreases SubtreeKeys(t, k), k == [], 1, 0
  {
    (if k == [] then [] else [k]) +
    (if k != [] && t[k].File? then [] else SortedSpec(Children(t, k)); WalkChildren(t, k, Sorted(Children(t, k))))
  }

  ghost function WalkChildren(t: Folder, k: Rel, names: seq<string>): seq<Rel>
    requires IsFolder(t) && (k == [] || k in t)
    requires AreChildren(t, k, names)
    decreases SubtreeKeys(t, k), k == [], 0, |names|
  {
    if names == [] then []
    else
      ChildKey(t, k, names[0]);
      ChildSubtree(t, k, names[0]);
      WalkOrder(t, k + [names[0]]) + WalkChildren(t, k, names[1..])
  }

  lemma WalkStep(t: Folder, k: Rel, names: seq<string>)
    requires IsFolder(t) && (k == [] || k in t)
    requires names != [] && AreChildren(t, k, names)
    ensures k + [names[0]] in t && AreChildren(t, k, names[1..])
    ensures SubtreeKeys(t, k + [names[0]]) <= SubtreeKeys(t, k)
    ensures k != [] ==> SubtreeKeys(t, k + [names[0]]) < SubtreeKeys(t, k)
    ensures WalkChildren(t, k, names) == WalkOrder(t, k + [names[0]]) + WalkChildren(t, k, names[1..])
  {
    ChildKey(t, k, names[0]);
    ChildSubtree(t, k, names[0]);
  }

  /** None of the keys is broken. */
  predicate Intact(order: seq<Rel>, broken: set<Rel>) {
    forall x | x in order :: x !in broken
  }

  lemma IntactAppend(a: seq<Rel>, b: seq<Rel>, broken: set<Rel>)
    ensures Intact(a + b, broken) <==> Intact(a, broken) && Intact(b, broken)
  {
  }

  /** The first name of a directory's listing: what the walk below it adds, and what is left. */
  lemma NextName(t: Folder, k: Rel, names: seq<string>, broken: set<Rel>)
    requires IsFolder(t) && (k == [] || k in t) && names != [] && AreChildren(t, k, names)
    ensures k + [names[0]] in t && AreChildren(t, k, names[1..])
    ensures SubtreeKeys(t, k + [names[0]]) <= SubtreeKeys(t, k)
    ensures k != [] ==> SubtreeKeys(t, k + [names[0]]) < SubtreeKeys(t, k)
    ensures k + [names[0]] in WalkOrder(t, k + [names[0]])
    ensures var head, rest := WalkOrder(t, k + [names[0]]), WalkChildren(t, k, names[1..]);
      && WalkChildren(t, k, names) == head + rest
      && (Intact(head + rest, broken) <==> Intact(head, broken) && Intact(rest, broken))
  {
    WalkStep(t, k, names);
    WalkBegins(t, k + [names[0]]);
    IntactAppend(WalkOrder(t, k + [names[0]]), WalkChildren(t, k, names[1..]), broken);
  }

  class ZipWriter {
    var entries: Archive

    constructor ()
      ensures entries == []
    {
      entries := [];
    }

    method CreateHeader(name: string)
      modifies this
      ensures entries == old(entries) + [ZipEntry(name, [])]
    {
      entries := entries + [ZipEntry(name, [])];
    }

    /** Writes the content of the entry created last. */
    method Copy(content: Bytes)
      requires entries != []
      modifies this
      ensures entries == old(entries[..|entries| - 1]) + [ZipEntry(old(entries[|entries| - 1].name), content)]
    {
      var last := |entries| - 1;
      entries := entries[..last] + [entries[last].(content := content)];
    }

    /**
     * The walk's callback; the directory being packed is visited as []. broken are the keys
     * that cannot be looked at, or whose content cannot be opened or read.
     */
    method Visit(t: Folder, k: Rel, broken: set<Rel>) returns (ok: bool)
      requires IsFolder(t) && (k == [] || k in t)
      modifies this
      ensures ok <==> k !in broken
      ensures ok ==> entries == if k == [] then old(entries) else old(entries) + [EntryFor(t, k)]
    {
      var isDir := k == [] || t[k].Dir?;
      if isDir && k in broken { return false; }
      var name := if k == [] then "." else Join(k, '/');
      if isDir { name := name + "/"; }
      if k != [] { NotRootName(t, k); }
      if name == "./" || name == "." { return true; }
      CreateHeader(name);
      if isDir { return true; }
      if k in broken { return false; }
      Copy(t[k].content);
      ok := true;
    }

    method WalkDir(t: Folder, k: Rel, broken: set<Rel>) returns (ok: bool)
      requires IsFolder(t) && (k == [] || k in t)
      modifies this
      ensures ok <==> k !in broken && Intact(WalkOrder(t, k), broken)
      ensures ok ==> entries == old(entries) + EntriesFor(t, WalkOrder(t, k))
      decreases SubtreeKeys(t, k), k == [], 1, 0
    {
      ghost var self := if k == [] then [] else [k];
      ok := Visit(t, k, broken);
      if !ok { return; }
      assert entries == old(entries) + EntriesFor(t, self);
      if k != [] && t[k].File? {
        assert WalkOrder(t, k) == self;
        return;
      }
      var names := ReadDir(t, k);
      SortedSpec(Children(t, k));
      EntriesForAppend(t, old(entries), self, WalkChildren(t, k, names));
      IntactAppend(self, WalkChildren(t, k, names), broken);
      assert WalkOrder(t, k) == self + WalkChildren(t, k, names);
      ok := WalkNames(t, k, names, broken);
    }

    /** One directory's entries, in turn; the first error ends the walk. */
    method WalkNames(t: Folder, k: Rel, names: seq<string>, broken: set<Rel>) returns (ok: bool)
      requires IsFolder(t) && (k == [] || k in t)
      requires AreChildren(t, k, names)
      modifies this
      ensures ok <==> Intact(WalkChildren(t, k, names), broken)
      ensures ok ==> entries == old(entries) + EntriesFor(t, WalkChildren(t, k, names))
      decreases SubtreeKeys(t, k), k == [], 0, |names|
    {
      if names == [] { return true; }
      NextName(t, k, names, broken);
      ghost var head, rest := WalkOrder(t, k + [names[0]]), WalkChildren(t, k, names[1..]);
      EntriesForAppend(t, old(entries), head, rest);
      ok := WalkDir(t, k + [names[0]], broken);
      if ok { ok := WalkNames(t, k, names[1..], broken); }
    }

    /** created: the target file can be created. What a failure leaves in it is no matter. */
    method ZipDirectory(t: Folder, created: bool, broken: set<Rel>) returns (ok: bool)
      requires IsFolder(t) && entries == []
      modifies this
      ensures ok <==> created && broken !! t.Keys + {[]}
      ensures ok ==> entries == ArchiveOf(t)
    {
      if !created { return false; }
      WalkOrderKeys(t, []);
      ok := WalkDir(t, [], broken);
    }
  }

  /** A walk from a key visits that key first. */
  lemma WalkBegins(t: Folder, k: Rel)
    requires IsFolder(t) && k in t && k != []
    ensures k in WalkOrder(t, k)
  {
    if t[k].Dir? { SortedSpec(Children(t, k)); }
  }

  /** The archive of a whole folder. */
  ghost function ArchiveOf(t: Folder): Archive
    requires IsFolder(t)
  {
    EntriesFor(t, WalkOrder(t, []))
  }

  /** Every key is archived exactly once, in ascending order, with its own content. */
  lemma ArchiveComplete(t: Folder)
    requires IsFolder(t)
    ensures Lists(t, WalkOrder(t, []), ArchiveOf(t))
  {
    WalkOrderKeys(t, []);
    WalkOrderAscends(t, []);
    AscendingOnce(WalkOrder(t, []));
  }

  /** Ascending keys come once each. */
  lemma AscendingOnce(order: seq<Rel>)
    requires Ascending(order)
    ensures forall i, j | 0 <= i < j < |order| :: order[i] != order[j]
  {
    forall i, j | 0 <= i < j < |order| ensures order[i] != order[j] {
      RelLessIrreflexive(order[i]);
    }
  }

  /** No entry is mistaken for the directory being packed. */
  lemma NotRootName(t: Folder, k: Rel)
    requires IsFolder(t) && k in t
    ensures Join(k, '/') != "." && Join(k, '/') != "./" && Join(k, '/') + "/" != "./" && Join(k, '/') + "/" != "."
  {
    assert k[0] in k;
    SplitJoin(k, '/');
    assert Split(".", '/') == ["."];
    SplitHead(".", "", '/');
    assert "." + ['/'] + "" == "./";
  }

  lemma FileAlone(t: Folder, k: Rel, x: Rel)
    requires IsFolder(t) && k in t && t[k].File? && x in SubtreeKeys(t, k)
    ensures x == k
  {
    assert forall i | 0 < i < |x| :: t[x[..i]].Dir?;
  }

  lemma ChildKey(t: Folder, dir: Rel, name: string)
    requires name in Children(t, dir)
    ensures dir + [name] in t
  {
    var k :| k in t && |k| == |dir| + 1 && Within(dir, k) && k[|dir|] == name;
    assert k == dir + [name];
  }

  lemma ChildSubtree(t: Folder, dir: Rel, name: string)
    requires IsFolder(t) && dir + [name] in t && (dir == [] || dir in t)
    ensures SubtreeKeys(t, dir + [name]) <= SubtreeKeys(t, dir)
    ensures dir != [] ==> SubtreeKeys(t, dir + [name]) < SubtreeKeys(t, dir)
  {
    var child := dir + [name];
    forall x | x in SubtreeKeys(t, child) ensures x in SubtreeKeys(t, dir) {
      assert x[..|dir|] == x[..|child|][..|dir|] == dir;
    }
    if dir != [] {
      assert dir in SubtreeKeys(t, dir) && dir !in SubtreeKeys(t, child);
    }
  }

  /** Keys under an earlier child come before keys under a later one, and after the directory. */
  lemma ChildOrder(dir: Rel, x: Rel, y: Rel)
    requires Within(dir, x) && Within(dir, y) && |y| > |dir|
    requires x == dir || (|x| > |dir| && NameLess(x[|dir|], y[|dir|]))
    ensures RelLess(x, y)
  {
    assert x == dir + x[|dir|..] && y == dir + y[|dir|..];
    RelLessUnder(dir, x[|dir|..], y[|dir|..]);
  }

  /** A walk lists exactly the keys below its start ... */
  lemma {:induction false} WalkOrderKeys(t: Folder, k: Rel)
    requires IsFolder(t) && (k == [] || k in t)
    ensures forall x :: x in WalkOrder(t, k) <==> x in SubtreeKeys(t, k)
    decreases SubtreeKeys(t, k), k == [], 1, 0
  {
    if k != [] && t[k].File? {
      forall x | x in SubtreeKeys(t, k) ensures x == k { FileAlone(t, k, x); }
    } else {
      var names := Sorted(Children(t, k));
      SortedSpec(Children(t, k));
      WalkChildrenKeys(t, k, names);
      forall x | x in SubtreeKeys(t, k) && x != k ensures x in WalkChildren(t, k, names) { ChildTowards(t, k, x); }
    }
  }

  lemma {:induction false} WalkChildrenKeys(t: Folder, k: Rel, names: seq<string>)
    requires IsFolder(t) && (k == [] || k in t)
    requires AreChildren(t, k, names)
    ensures forall x :: x in WalkChildren(t, k, names) <==> x in t && BelowOneOf(k, names, x)
    decreases SubtreeKeys(t, k), k == [], 0, |names|
  {
    if names != [] {
      WalkStep(t, k, names);
      WalkOrderKeys(t, k + [names[0]]);
      WalkChildrenKeys(t, k, names[1..]);
      forall x ensures BelowOneOf(k, names, x) <==> Within(k + [names[0]], x) || BelowOneOf(k, names[1..], x) {
        BelowFirstOrRest(k, names, x);
      }
    }
  }

  lemma BelowFirstOrRest(dir: Rel, names: seq<string>, x: Rel)
    requires names != []
    ensures BelowOneOf(dir, names, x) <==> Within(dir + [names[0]], x) || BelowOneOf(dir, names[1..], x)
  {
    WithinChild(dir, names[0], x);
    assert names == [names[0]] + names[1..];
  }

  /** ... in ascending order. */
  lemma {:induction false} WalkOrderAscends(t: Folder, k: Rel)
    requires IsFolder(t) && (k == [] || k in t)
    ensures Ascending(WalkOrder(t, k))
    decreases SubtreeKeys(t, k), k == [], 1, 0
  {
    if k == [] || t[k].Dir? {
      var names := Sorted(Children(t, k));
      SortedSpec(Children(t, k));
      WalkChildrenKeys(t, k, names);
      WalkChildrenAscend(t, k, names);
      if k != [] {
        forall x | x in WalkChildren(t, k, names) ensures RelLess(k, x) { ChildOrder(k, k, x); }
        AscendingAppend([k], WalkChildren(t, k, names));
      }
    }
  }

  lemma {:induction false} WalkChildrenAscend(t: Folder, k: Rel, names: seq<string>)
    requires IsFolder(t) && (k == [] || k in t)
    requires NamesAscend(names) && AreChildren(t, k, names)
    ensures Ascending(WalkChildren(t, k, names))
    decreases SubtreeKeys(t, k), k == [], 0, |names|
  {
    if names != [] {
      var n, rest := names[0], names[1..];
      WalkStep(t, k, names);
      WalkOrderAscends(t, k + [n]);
      WalkChildrenAscend(t, k, rest);
      var head, tail := WalkOrder(t, k + [n]), WalkChildren(t, k, rest);
      forall x, y | x in head && y in tail ensures RelLess(x, y) {
        WalkOrderKeys(t, k + [n]);
        WalkChildrenKeys(t, k, rest);
        WithinChild(k, n, x);
        ChildOrder(k, x, y);
      }
      AscendingAppend(head, tail);
    }
  }

  predicate BelowOneOf(dir: Rel, names: seq<string>, x: Rel) {
    Within(dir, x) && |x| > |dir| && x[|dir|] in names
  }

  lemma AscendingAppend(a: seq<Rel>, b: seq<Rel>)
    requires Ascending(a) && Ascending(b)
    requires forall x, y | x in a && y in b :: RelLess(x, y)
    ensures Ascending(a + b)
  {
  }

  lemma WithinChild(dir: Rel, n: string, x: Rel)
    ensures Within(dir + [n], x) <==> BelowOneOf(dir, [n], x)
  {
    if |x| > |dir| { assert x[..|dir| + 1] == x[..|dir|] + [x[|dir|]]; }
    if Within(dir + [n], x) { assert x[..|dir|] == x[..|dir| + 1][..|dir|]; }
  }

  lemma ChildTowards(t: Folder, dir: Rel, x: Rel)
    requires IsFolder(t) && x in SubtreeKeys(t, dir) && x != dir
    ensures |x| > |dir| && x[|dir|] in Children(t, dir)
  {
    assert x[..|x|] == x;
    var child := x[..|dir| + 1];
    assert child in t;
    assert child[..|dir|] == x[..|dir|];
  }
}
