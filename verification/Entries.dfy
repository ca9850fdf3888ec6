/**
 * What an archive stream says, told from its entries: which entry stands for which path,
 * which of them wins, and what the runners' extraction therefore leaves on the disk.
 */
module Entries {
  import opened Wrappers
  import opened Text
  import opened Paths
  import opened Extract
  import opened ZipDir
  import opened Report
  import opened Keys

  /** The name that an entry has below the copied directory: docker cp puts that directory's own name before it. */
  ghost predicate Names(layout: Layout, entry: string, name: string) {
    match layout
    case Docker => name != "" && exists root :: '/' !in root && entry == root + ['/'] + name
    case Kubernetes => name == entry && name != "" && name != "."
  }

  /** The entry stands for the path p, when unpacked into dest. */
  ghost predicate EntryAt(dest: string, layout: Layout, e: TarEntry, p: Path) {
    exists name :: Names(layout, e.name, name) && Resolve(dest + ['/'] + name) == p
  }

  ghost predicate RegularAt(dest: string, layout: Layout, es: seq<TarEntry>, i: int, p: Path) {
    0 <= i < |es| && es[i].kind.Regular? && EntryAt(dest, layout, es[i], p)
  }

  /** The last regular entry for p. */
  ghost predicate LastAt(dest: string, layout: Layout, es: seq<TarEntry>, i: int, p: Path) {
    RegularAt(dest, layout, es, i, p) && forall j | i < j < |es| :: !RegularAt(dest, layout, es, j, p)
  }

  /** The entry makes p a directory: it is one, or stands for a file or directory below it. */
  ghost predicate DirFor(dest: string, layout: Layout, es: seq<TarEntry>, i: int, p: Path) {
    && 0 <= i < |es| && !es[i].kind.Other?
    && exists q :: EntryAt(dest, layout, es[i], q) && StrictlyBelow(Resolve(dest), q) && Covers(p, q)
                   && (q == p ==> es[i].kind.Directory?)
  }

  /**
   * What is at p, below the destination, after the entries were unpacked over the tree t: the
   * content of the last regular entry for p; else what was there; else a directory, if some
   * entry makes it one; else nothing.
   */
  ghost predicate Holds(t: Tree, dest: string, layout: Layout, es: seq<TarEntry>, p: Path, node: Option<Node>) {
    && (forall i | LastAt(dest, layout, es, i, p) :: node == Some(File(es[i].content)))
    && ((forall i :: !RegularAt(dest, layout, es, i, p)) ==>
         node == if p in t then Some(t[p])
                 else if exists i :: DirFor(dest, layout, es, i, p) then Some(Dir)
                 else None)
  }

  // ----- the plans say the same -----

  lemma NamesExactly(layout: Layout, entry: string, name: string)
    ensures Names(layout, entry, name) <==> EntryName(layout, entry) == Some(name)
  {
    if layout.Docker? {
      if Names(layout, entry, name) {
        var root :| '/' !in root && entry == root + ['/'] + name;
        assert entry[|root|] == '/' && entry[..|root|] == root && entry[|root| + 1..] == name;
        IndexOfUnique(entry, '/', |root|);
      }
      if EntryName(layout, entry) == Some(name) {
        var i := IndexOf(entry, '/');
        assert entry == entry[..i] + ['/'] + name;
      }
    }
  }

  lemma TargetIs(dest: string, name: string)
    requires dest != ""
    ensures Target(dest, name) == Resolve(dest + ['/'] + name)
  {
    assert dest + "/" + name == dest + ['/'] + name;
    ResolveCanonical(dest + "/" + name);
    ResolveRender(Resolve(dest + "/" + name));
  }

  /** What is planned for an entry, below the destination, is what the entry stands for. */
  lemma PlanIs(dest: string, layout: Layout, e: TarEntry, p: Path)
    requires dest != "" && EndsInName(Resolve(dest)) && StrictlyBelow(Resolve(dest), p)
    ensures var w := Plan(dest, layout, e);
      && (EntryAt(dest, layout, e, p) && e.kind.Regular? <==> w == MakeFile(p, e.content, e.complete))
      && (EntryAt(dest, layout, e, p) && e.kind.Directory? <==> w == MakeDir(p))
      && (EntryAt(dest, layout, e, p) && !e.kind.Other? <==> !w.Skip? && w.path == p)
  {
    WrittenExactly(dest, layout, e);
    if EntryAt(dest, layout, e, p) {
      var name :| Names(layout, e.name, name) && Resolve(dest + ['/'] + name) == p;
      NamesExactly(layout, e.name, name);
      TargetIs(dest, name);
    }
    if !Plan(dest, layout, e).Skip? {
      var name := EntryName(layout, e.name).value;
      NamesExactly(layout, e.name, name);
      TargetIs(dest, name);
    }
  }

  lemma RegularBefore(dest: string, layout: Layout, es: seq<TarEntry>, n: nat, i: int, p: Path)
    requires n <= |es| && i < n
    ensures RegularAt(dest, layout, es[..n], i, p) <==> RegularAt(dest, layout, es, i, p)
  {
  }

  /** The last regular entry for p is the last of all, or the last before it. */
  lemma LastBefore(dest: string, layout: Layout, es: seq<TarEntry>, i: int, p: Path)
    requires es != [] && LastAt(dest, layout, es, i, p)
    ensures if RegularAt(dest, layout, es, |es| - 1, p) then i == |es| - 1
            else i < |es| - 1 && LastAt(dest, layout, es[..|es| - 1], i, p)
  {
    var n := |es| - 1;
    if i < n {
      RegularBefore(dest, layout, es, n, i, p);
      forall j | i < j < n ensures !RegularAt(dest, layout, es[..n], j, p) {
        RegularBefore(dest, layout, es, n, j, p);
      }
    }
  }

  lemma PlansBefore(dest: string, layout: Layout, es: seq<TarEntry>, p: Path)
    requires es != []
    ensures var n := |es| - 1;
      LastFile(Plans(dest, layout, es), p) ==
        if Plan(dest, layout, es[n]).MakeFile? && Plan(dest, layout, es[n]).path == p
        then Some(Plan(dest, layout, es[n]).content)
        else LastFile(Plans(dest, layout, es[..n]), p)
  {
    assert Plans(dest, layout, es)[..|es| - 1] == Plans(dest, layout, es[..|es| - 1]);
  }

  /** What the entries say of a file at p: the content of the last regular one, or nothing. */
  ghost predicate FileSaid(dest: string, layout: Layout, es: seq<TarEntry>, p: Path, file: Option<Bytes>) {
    && (forall i | LastAt(dest, layout, es, i, p) :: file == Some(es[i].content))
    && ((forall i :: !RegularAt(dest, layout, es, i, p)) ==> file == None)
  }

  lemma SaidByLast(dest: string, layout: Layout, es: seq<TarEntry>, p: Path)
    requires es != [] && RegularAt(dest, layout, es, |es| - 1, p)
    ensures FileSaid(dest, layout, es, p, Some(es[|es| - 1].content))
  {
    forall i | LastAt(dest, layout, es, i, p) ensures es[i].content == es[|es| - 1].content {
      LastBefore(dest, layout, es, i, p);
    }
  }

  lemma SaidBefore(dest: string, layout: Layout, es: seq<TarEntry>, p: Path, file: Option<Bytes>)
    requires es != [] && !RegularAt(dest, layout, es, |es| - 1, p)
    requires FileSaid(dest, layout, es[..|es| - 1], p, file)
    ensures FileSaid(dest, layout, es, p, file)
  {
    forall i | LastAt(dest, layout, es, i, p) ensures file == Some(es[i].content) {
      LastBefore(dest, layout, es, i, p);
    }
    if forall i :: !RegularAt(dest, layout, es, i, p) { NoneBefore(dest, layout, es, |es| - 1, p); }
  }

  lemma {:induction false} LastFileIs(dest: string, layout: Layout, es: seq<TarEntry>, p: Path)
    requires dest != "" && EndsInName(Resolve(dest)) && StrictlyBelow(Resolve(dest), p)
    ensures FileSaid(dest, layout, es, p, LastFile(Plans(dest, layout, es), p))
    decreases |es|
  {
    if es != [] {
      var n := |es| - 1;
      var before := LastFile(Plans(dest, layout, es[..n]), p);
      PlansBefore(dest, layout, es, p);
      PlanIs(dest, layout, es[n], p);
      LastFileIs(dest, layout, es[..n], p);
      if RegularAt(dest, layout, es, n, p) {
        SaidByLast(dest, layout, es, p);
      } else {
        SaidBefore(dest, layout, es, p, before);
      }
    }
  }

  lemma NoneBefore(dest: string, layout: Layout, es: seq<TarEntry>, n: nat, p: Path)
    requires n <= |es| && forall i :: !RegularAt(dest, layout, es, i, p)
    ensures forall i :: !RegularAt(dest, layout, es[..n], i, p)
  {
    forall i ensures !RegularAt(dest, layout, es[..n], i, p) {
      if i < n { RegularBefore(dest, layout, es, n, i, p); }
    }
  }

  lemma DirsOfCovers(k: Path, q: Path)
    ensures k in DirsOf(q) <==> k.comps != [] && Covers(k, q)
  {
    if k in DirsOf(q) {
      var i :| 1 <= i <= |q.comps| && k == Path(q.rooted, q.comps[..i]);
    }
    if k.comps != [] && Covers(k, q) {
      assert k == Path(q.rooted, q.comps[..|k.comps|]);
    }
  }

  /** The directories that one entry asks for, below the destination. */
  lemma NeedsIs(dest: string, layout: Layout, es: seq<TarEntry>, i: int, k: Path)
    requires dest != "" && EndsInName(Resolve(dest)) && StrictlyBelow(Resolve(dest), k) && 0 <= i < |es|
    ensures k in Needs(Plan(dest, layout, es[i])) <==> DirFor(dest, layout, es, i, k)
  {
    var e, w := es[i], Plan(dest, layout, es[i]);
    if !w.Skip? {
      WrittenExactly(dest, layout, e);
      PlanIs(dest, layout, e, w.path);
      NeedsOfWrite(w, k);
    }
    if DirFor(dest, layout, es, i, k) {
      var q :| EntryAt(dest, layout, e, q) && StrictlyBelow(Resolve(dest), q) && Covers(k, q)
               && (q == k ==> e.kind.Directory?);
      PlanIs(dest, layout, e, q);
      NeedsOfWrite(w, k);
    }
  }

  lemma NeedsOfWrite(w: Write, k: Path)
    requires !w.Skip? && w.path.comps != [] && k.comps != []
    ensures k in Needs(w) <==> Covers(k, w.path) && (k == w.path ==> w.MakeDir?)
  {
    DirsOfCovers(k, w.path);
    DirsOfParent(w.path);
  }

  lemma AllNeedsAre(dest: string, layout: Layout, es: seq<TarEntry>, k: Path)
    requires dest != "" && EndsInName(Resolve(dest)) && StrictlyBelow(Resolve(dest), k)
    ensures k in AllNeeds(Plans(dest, layout, es)) <==> exists i :: DirFor(dest, layout, es, i, k)
  {
    var ws := Plans(dest, layout, es);
    if k in AllNeeds(ws) {
      var w :| w in ws && k in Needs(w);
      var i :| 0 <= i < |es| && ws[i] == w;
      NeedsIs(dest, layout, es, i, k);
    }
    if i :| DirFor(dest, layout, es, i, k) {
      NeedsIs(dest, layout, es, i, k);
      assert ws[i] in ws;
    }
  }

  /** What the plans leave at a path below the destination is what the entries say. */
  lemma DesiredHolds(t: Tree, dest: string, layout: Layout, es: seq<TarEntry>, p: Path)
    requires dest != "" && EndsInName(Resolve(dest)) && StrictlyBelow(Resolve(dest), p)
    ensures Holds(t, dest, layout, es, p, Desired(t, Plans(dest, layout, es), p))
  {
    LastFileIs(dest, layout, es, p);
    AllNeedsAre(dest, layout, es, p);
  }

  lemma {:induction false} LastExists(dest: string, layout: Layout, es: seq<TarEntry>, p: Path, i: int) returns (k: int)
    requires RegularAt(dest, layout, es, i, p)
    ensures LastAt(dest, layout, es, k, p)
    decreases |es| - i
  {
    if j :| i < j < |es| && RegularAt(dest, layout, es, j, p) {
      k := LastExists(dest, layout, es, p, j);
    } else {
      k := i;
    }
  }

  /** The entries leave no choice. */
  lemma HoldsOnce(t: Tree, dest: string, layout: Layout, es: seq<TarEntry>, p: Path, a: Option<Node>, b: Option<Node>)
    requires Holds(t, dest, layout, es, p, a) && Holds(t, dest, layout, es, p, b)
    ensures a == b
  {
    if i :| RegularAt(dest, layout, es, i, p) {
      var k := LastExists(dest, layout, es, p, i);
    }
  }

  /**
   * After an error-free extraction, every path below the destination holds what the entries
   * say: for every stream, either runner, and whatever was there before.
   */
  lemma ExtractedHolds(t: Tree, dest: string, layout: Layout, s: Stream, p: Path)
    requires dest != "" && EndsInName(Resolve(dest)) && StrictlyBelow(Resolve(dest), p)
    requires ExtractAll(t, dest, layout, s).ok
    ensures Holds(t, dest, layout, s.entries, p, Get(ExtractAll(t, dest, layout, s).tree, p))
  {
    PlansProper(dest, layout, s.entries);
    ExtractedTree(t, Plans(dest, layout, s.entries), p);
    DesiredHolds(t, dest, layout, s.entries, p);
  }

  // ----- when the entries can be extracted -----

  /** The entries can be extracted over the tree t, which has the destination as a directory. */
  ghost predicate Extractable(t: Tree, dest: string, layout: Layout, s: Stream) {
    && s.readable
    && (forall i, p | RegularAt(dest, layout, s.entries, i, p) && StrictlyBelow(Resolve(dest), p) ::
          s.entries[i].complete && Get(t, p) != Some(Dir))
    && (forall i, j, p | RegularAt(dest, layout, s.entries, i, p) && StrictlyBelow(Resolve(dest), p) ::
          !DirFor(dest, layout, s.entries, j, p))
    && (forall i, p | DirFor(dest, layout, s.entries, i, p) && StrictlyBelow(Resolve(dest), p) ::
          Get(t, p) == None || Get(t, p) == Some(Dir))
  }

  lemma CompleteIs(dest: string, layout: Layout, es: seq<TarEntry>)
    requires dest != "" && EndsInName(Resolve(dest))
    ensures AllComplete(Plans(dest, layout, es)) <==>
      forall i, p | RegularAt(dest, layout, es, i, p) && StrictlyBelow(Resolve(dest), p) :: es[i].complete
  {
    var ws := Plans(dest, layout, es);
    if AllComplete(ws) {
      forall i, p | RegularAt(dest, layout, es, i, p) && StrictlyBelow(Resolve(dest), p) ensures es[i].complete {
        PlanIs(dest, layout, es[i], p);
        assert ws[i] in ws;
      }
    }
    if forall i, p | RegularAt(dest, layout, es, i, p) && StrictlyBelow(Resolve(dest), p) :: es[i].complete {
      forall w | w in ws && w.MakeFile? ensures w.complete {
        var i := WriteOfEntry(dest, layout, es, w);
      }
    }
  }

  /** Every planned write is that of an entry. */
  lemma WriteOfEntry(dest: string, layout: Layout, es: seq<TarEntry>, w: Write) returns (i: int)
    requires dest != "" && EndsInName(Resolve(dest)) && w in Plans(dest, layout, es) && !w.Skip?
    ensures 0 <= i < |es| && w == Plan(dest, layout, es[i]) && StrictlyBelow(Resolve(dest), w.path)
    ensures EntryAt(dest, layout, es[i], w.path) && !es[i].kind.Other?
    ensures w.MakeFile? ==> RegularAt(dest, layout, es, i, w.path) && w.complete == es[i].complete
  {
    i :| 0 <= i < |es| && Plans(dest, layout, es)[i] == w;
    WrittenExactly(dest, layout, es[i]);
    PlanIs(dest, layout, es[i], w.path);
  }

  lemma LeavesAre(dest: string, layout: Layout, es: seq<TarEntry>, p: Path)
    requires dest != "" && EndsInName(Resolve(dest)) && StrictlyBelow(Resolve(dest), p)
    ensures p in AllLeaves(Plans(dest, layout, es)) <==> exists i :: RegularAt(dest, layout, es, i, p)
  {
    var ws := Plans(dest, layout, es);
    if p in AllLeaves(ws) {
      var w :| w in ws && p in Leaves(w);
      var i := WriteOfEntry(dest, layout, es, w);
    }
    if i :| RegularAt(dest, layout, es, i, p) {
      PlanIs(dest, layout, es[i], p);
      assert ws[i] in ws && p in Leaves(ws[i]);
    }
  }

  lemma LeavesBelow(dest: string, layout: Layout, es: seq<TarEntry>)
    requires dest != "" && EndsInName(Resolve(dest))
    ensures forall p | p in AllLeaves(Plans(dest, layout, es)) :: StrictlyBelow(Resolve(dest), p)
  {
    forall p | p in AllLeaves(Plans(dest, layout, es)) ensures StrictlyBelow(Resolve(dest), p) {
      var w :| w in Plans(dest, layout, es) && p in Leaves(w);
      var i := WriteOfEntry(dest, layout, es, w);
    }
  }

  lemma NeedsBelowOrAbove(dest: string, layout: Layout, es: seq<TarEntry>, k: Path)
    requires dest != "" && EndsInName(Resolve(dest)) && k in AllNeeds(Plans(dest, layout, es))
    ensures StrictlyBelow(Resolve(dest), k) || k in DirsOf(Resolve(dest))
  {
    var w :| w in Plans(dest, layout, es) && k in Needs(w);
    var i := WriteOfEntry(dest, layout, es, w);
    DirsOfParent(w.path);
    var n :| 1 <= n <= |w.path.comps| && k == Path(w.path.rooted, w.path.comps[..n]);
    AncestorOfBelow(Resolve(dest), w.path, n);
  }

  /** An extraction into an existing directory succeeds exactly when its entries can be extracted. */
  lemma ExtractsExactly(t: Tree, dest: string, layout: Layout, s: Stream)
    requires dest != "" && EndsInName(Resolve(dest)) && DestReady(t, Resolve(dest))
    ensures ExtractAll(t, dest, layout, s).ok <==> Extractable(t, dest, layout, s)
  {
    var ws := Plans(dest, layout, s.entries);
    PlansProper(dest, layout, s.entries);
    SucceedsExactly(t, ws);
    CompleteIs(dest, layout, s.entries);
    LeavesBelow(dest, layout, s.entries);
    if NoClash(t, ws) { NoClashExtracts(t, dest, layout, s); }
    if Extractable(t, dest, layout, s) { ExtractsNoClash(t, dest, layout, s); }
  }

  lemma RegularFits(t: Tree, dest: string, layout: Layout, es: seq<TarEntry>, i: int, p: Path)
    requires dest != "" && EndsInName(Resolve(dest)) && NoClash(t, Plans(dest, layout, es))
    requires RegularAt(dest, layout, es, i, p) && StrictlyBelow(Resolve(dest), p)
    ensures Get(t, p) != Some(Dir) && forall j :: !DirFor(dest, layout, es, j, p)
  {
    LeavesAre(dest, layout, es, p);
    AllNeedsAre(dest, layout, es, p);
    assert p !in DirsIn(t);
  }

  lemma NeededIsNoFile(t: Tree, ws: seq<Write>, p: Path)
    requires NoClash(t, ws) && p in AllNeeds(ws)
    ensures Get(t, p) == None || Get(t, p) == Some(Dir)
  {
    assert p !in FilesIn(t);
  }

  lemma DirFits(t: Tree, dest: string, layout: Layout, es: seq<TarEntry>, i: int, p: Path)
    requires dest != "" && EndsInName(Resolve(dest)) && NoClash(t, Plans(dest, layout, es))
    requires DirFor(dest, layout, es, i, p) && StrictlyBelow(Resolve(dest), p)
    ensures Get(t, p) == None || Get(t, p) == Some(Dir)
  {
    AllNeedsAre(dest, layout, es, p);
    NeededIsNoFile(t, Plans(dest, layout, es), p);
  }

  lemma NoClashExtracts(t: Tree, dest: string, layout: Layout, s: Stream)
    requires dest != "" && EndsInName(Resolve(dest)) && NoClash(t, Plans(dest, layout, s.entries))
    ensures s.readable ==> Extractable(t, dest, layout, s)
  {
    var es := s.entries;
    CompleteIs(dest, layout, es);
    forall i, p | RegularAt(dest, layout, es, i, p) && StrictlyBelow(Resolve(dest), p) ensures Get(t, p) != Some(Dir) {
      RegularFits(t, dest, layout, es, i, p);
    }
    forall i, j, p | RegularAt(dest, layout, es, i, p) && StrictlyBelow(Resolve(dest), p)
      ensures !DirFor(dest, layout, es, j, p)
    {
      RegularFits(t, dest, layout, es, i, p);
    }
    forall i, p | DirFor(dest, layout, es, i, p) && StrictlyBelow(Resolve(dest), p)
      ensures Get(t, p) == None || Get(t, p) == Some(Dir)
    {
      DirFits(t, dest, layout, es, i, p);
    }
  }

  lemma ExtractsNoClash(t: Tree, dest: string, layout: Layout, s: Stream)
    requires dest != "" && EndsInName(Resolve(dest)) && DestReady(t, Resolve(dest)) && Extractable(t, dest, layout, s)
    ensures NoClash(t, Plans(dest, layout, s.entries))
  {
    var ws := Plans(dest, layout, s.entries);
    CompleteIs(dest, layout, s.entries);
    LeavesBelow(dest, layout, s.entries);
    forall p | p in AllLeaves(ws) ensures p !in DirsIn(t) && p !in AllNeeds(ws) {
      LeavesAre(dest, layout, s.entries, p);
      AllNeedsAre(dest, layout, s.entries, p);
    }
    forall p | p in AllNeeds(ws) ensures p !in FilesIn(t) {
      NeedsBelowOrAbove(dest, layout, s.entries, p);
      if StrictlyBelow(Resolve(dest), p) {
        AllNeedsAre(dest, layout, s.entries, p);
      } else {
        assert p in DirsIn(t);
      }
    }
  }

  // ----- the report of a stream -----

  /** What is at a relative path below the destination. */
  ghost predicate Says(t: Tree, dest: string, layout: Layout, es: seq<TarEntry>, r: Rel, node: Option<Node>) {
    var d := Resolve(dest);
    if StrictlyBelow(d, At(d, r)) then Holds(t, dest, layout, es, At(d, r), node) else node == None
  }

  /** A view of what the entries say. */
  ghost predicate Tells(t: Tree, dest: string, layout: Layout, es: seq<TarEntry>, view: View) {
    forall r :: Says(t, dest, layout, es, r, view(r))
  }

  lemma ToldOnce(t: Tree, dest: string, layout: Layout, es: seq<TarEntry>, v: View, w: View)
    requires Tells(t, dest, layout, es, v) && Tells(t, dest, layout, es, w)
    ensures forall r :: v(r) == w(r)
  {
    forall r ensures v(r) == w(r) {
      var d := Resolve(dest);
      assert Says(t, dest, layout, es, r, v(r)) && Says(t, dest, layout, es, r, w(r));
      if StrictlyBelow(d, At(d, r)) { HoldsOnce(t, dest, layout, es, At(d, r), v(r), w(r)); }
    }
  }

  lemma ExtractedTells(t: Tree, dest: string, layout: Layout, s: Stream)
    requires dest != "" && EndsInName(Resolve(dest)) && ExtractAll(t, dest, layout, s).ok
    ensures Tells(t, dest, layout, s.entries, FolderView(Under(ExtractAll(t, dest, layout, s).tree, Resolve(dest))))
  {
    var d, u := Resolve(dest), ExtractAll(t, dest, layout, s).tree;
    forall r ensures Says(t, dest, layout, s.entries, r, FolderView(Under(u, d))(r)) {
      ViewUnder(u, d, r);
      if StrictlyBelow(d, At(d, r)) { ExtractedHolds(t, dest, layout, s, At(d, r)); }
    }
  }

  /**
   * The round trip: for every stream that extracts without error, over whatever was there
   * before, and every request path, the packed report serves what the entries say is at the
   * name the path stands for: the last regular entry, a directory's own entry or index page,
   * or nothing.
   */
  lemma ReportRoundTrip(t: Tree, dest: string, layout: Layout, s: Stream, path: string, name: string, view: View)
    requires dest != "" && EndsInName(Resolve(dest)) && IsFolder(Under(t, Resolve(dest)))
    requires ExtractAll(t, dest, layout, s).ok
    requires Stands(path, name) && Tells(t, dest, layout, s.entries, view)
    ensures IsFolder(Under(ExtractAll(t, dest, layout, s).tree, Resolve(dest)))
    ensures Lookup(ArchiveOf(Under(ExtractAll(t, dest, layout, s).tree, Resolve(dest))), path) == Served(view, name)
  {
    var folder := Under(ExtractAll(t, dest, layout, s).tree, Resolve(dest));
    ExtractedFolder(t, dest, layout, s);
    ExtractedTells(t, dest, layout, s);
    ToldOnce(t, dest, layout, s.entries, FolderView(folder), view);
    LookupServesFolder(folder, path, name);
    SameServed(FolderView(folder), view, name);
  }

  /** An entry that stands for a path at the destination stands for one below it. */
  lemma EntryIsBelow(dest: string, layout: Layout, e: TarEntry, r: Rel)
    requires EndsInName(Resolve(dest)) && r != [] && EntryAt(dest, layout, e, At(Resolve(dest), r))
    ensures StrictlyBelow(Resolve(dest), At(Resolve(dest), r))
  {
    var d, p := Resolve(dest), At(Resolve(dest), r);
    var name :| Names(layout, e.name, name) && Resolve(dest + ['/'] + name) == p;
    ResolveCanonical(dest + ['/'] + name);
    ResolveCanonical(dest);
    forall c | c in r ensures c != ".." {
      var i :| 0 <= i < |r| && r[i] == c;
      assert p.comps[|d.comps| + i] == c;
      assert p.comps[|d.comps| - 1] == d.comps[|d.comps| - 1] != "..";
    }
    assert p.comps[|d.comps|..] == r;
  }

  /** A view that tells the entries holds the last regular entry's content. */
  lemma ToldFile(t: Tree, dest: string, layout: Layout, es: seq<TarEntry>, view: View, i: int, r: Rel)
    requires EndsInName(Resolve(dest)) && r != [] && Tells(t, dest, layout, es, view)
    requires LastAt(dest, layout, es, i, At(Resolve(dest), r))
    ensures view(r) == Some(File(es[i].content))
  {
    EntryIsBelow(dest, layout, es[i], r);
    assert Says(t, dest, layout, es, r, view(r));
  }
}
