/**
 * The end of RunAnalysis in both runners: clear the result directory of the id, make it
 * again, and unpack the container's archive into it.
 */
module Results {
  import opened Wrappers
  import opened Text
  import opened Paths
  import opened Extract
  import opened ZipDir
  import opened Report
  import opened Keys
  import opened Entries
  import opened Footprints

  /** os.RemoveAll of d, where `left` are the paths it failed to remove. */
  function Cleared(t: Tree, d: Path, left: set<Path>): Tree {
    map k | k in t && (!Covers(d, k) || k in left) :: t[k]
  }

  function Collect(t: Tree, base: string, id: string, left: set<Path>, layout: Layout, s: Stream): Outcome {
    var u := Cleared(t, ResultDir(base, id), left);
    match MkdirAll(u, ResultDir(base, id))
    case None => Outcome(u, false)
    case Some(v) => ExtractAll(v, JoinPath(base, id), layout, s)
  }

  method RemoveAll(disk: Disk, d: Path, left: set<Path>)
    modifies disk
    ensures disk.nodes == Cleared(old(disk.nodes), d, left)
  {
    disk.nodes := map k | k in disk.nodes && (!Covers(d, k) || k in left) :: disk.nodes[k];
  }

  /** A directory that cannot be cleared is only logged; one that cannot be made ends the call. */
  method CollectResults(disk: Disk, base: string, id: string, left: set<Path>, layout: Layout, s: Stream)
    returns (ok: bool)
    requires base != "" || id != ""
    modifies disk
    ensures Outcome(disk.nodes, ok) == Collect(old(disk.nodes), base, id, left, layout, s)
  {
    CleanNotEmpty(if base == "" then id else base + "/" + id);
    var localResultDir := JoinPath(base, id);
    RemoveAll(disk, Resolve(localResultDir), left);
    ok := disk.MakeDirs(Resolve(localResultDir));
    if !ok { return; }
    match layout {
      case Docker => ok := disk.CopyFromContainer(localResultDir, s);
      case Kubernetes => ok := disk.ExtractTar(localResultDir, s);
    }
  }

  // ----- what the two steps before the extraction establish -----

  lemma BelowIsCovered(d: Path, k: Path)
    ensures StrictlyBelow(d, k) ==> Covers(d, k) && k !in DirsOf(d)
    ensures Covers(d, k) && k != d ==> k !in DirsOf(d)
  {
    if k in DirsOf(d) {
      var i :| 1 <= i <= |d.comps| && k == Path(d.rooted, d.comps[..i]);
    }
  }

  /** The tree the extraction starts from. */
  lemma Prepared(t: Tree, d: Path, left: set<Path>, v: Tree)
    requires MkdirAll(Cleared(t, d, left), d) == Some(v)
    ensures DestReady(v, d)
    ensures forall k :: Get(v, k) == if k in DirsOf(d) then Some(Dir)
                                     else if Covers(d, k) && k !in left then None else Get(t, k)
  {
    MkdirAllSpec(Cleared(t, d, left), d);
  }

  lemma EmptyBelow(t: Tree, d: Path, v: Tree)
    requires MkdirAll(Cleared(t, d, {}), d) == Some(v)
    ensures Under(v, d) == map[]
    ensures forall k | StrictlyBelow(d, k) :: Get(v, k) == None
  {
    Prepared(t, d, {}, v);
    forall k | StrictlyBelow(d, k) ensures Get(v, k) == None {
      BelowIsCovered(d, k);
    }
    forall r ensures r !in Under(v, d) {
      UnderAt(v, d, r);
    }
  }

  /** Whatever was removed or left, and however the stream ends, other paths are not touched. */
  lemma CollectContained(t: Tree, base: string, id: string, left: set<Path>, layout: Layout, s: Stream, k: Path)
    requires PlainId(id) && !Covers(ResultDir(base, id), k) && k !in DirsOf(ResultDir(base, id))
    ensures Get(Collect(t, base, id, left, layout, s).tree, k) == Get(t, k)
  {
    var d := ResultDir(base, id);
    ResultDirEndsInName(base, id);
    var m := MkdirAll(Cleared(t, d, left), d);
    if m.Some? {
      Prepared(t, d, left, m.value);
      BelowIsCovered(d, k);
      ExtractionContained(m.value, JoinPath(base, id), layout, s, k);
    }
  }

  // ----- the round trip, from the bare disk -----

  /** What the stream alone holds, stated on its entries. */
  function StreamOnly(base: string, id: string, layout: Layout, s: Stream): View {
    StreamView(map[], JoinPath(base, id), layout, s)
  }

  function Collected(t: Tree, base: string, id: string, left: set<Path>, layout: Layout, s: Stream): Folder {
    Under(Collect(t, base, id, left, layout, s).tree, ResultDir(base, id))
  }

  /** The two agree on every path. */
  ghost predicate Alike(a: View, b: View) {
    forall r :: a(r) == b(r)
  }

  lemma ViewAt(v: Tree, u: Tree, dest: string, layout: Layout, s: Stream, r: Rel)
    requires Get(v, At(Resolve(dest), r)) == Get(u, At(Resolve(dest), r))
    ensures StreamView(v, dest, layout, s)(r) == StreamView(u, dest, layout, s)(r)
  {
  }

  /** Extracting where nothing is yet. */
  lemma FromNothing(v: Tree, dest: string, layout: Layout, s: Stream)
    requires dest != "" && EndsInName(Resolve(dest)) && Under(v, Resolve(dest)) == map[]
    requires forall k | StrictlyBelow(Resolve(dest), k) :: Get(v, k) == None
    requires ExtractAll(v, dest, layout, s).ok
    ensures var folder := Under(ExtractAll(v, dest, layout, s).tree, Resolve(dest));
      IsFolder(folder) && Alike(FolderView(folder), StreamView(map[], dest, layout, s))
  {
    ExtractedFolder(v, dest, layout, s);
    var folder, none: Tree := Under(ExtractAll(v, dest, layout, s).tree, Resolve(dest)), map[];
    forall r ensures FolderView(folder)(r) == StreamView(map[], dest, layout, s)(r) {
      ViewsAgree(v, dest, layout, s, r);
      if StrictlyBelow(Resolve(dest), At(Resolve(dest), r)) {
        assert Get(v, At(Resolve(dest), r)) == None == Get(none, At(Resolve(dest), r));
        ViewAt(v, none, dest, layout, s, r);
      }
    }
  }

  /** A collection that succeeds is an extraction from the prepared tree. */
  lemma CollectedFrom(t: Tree, base: string, id: string, left: set<Path>, layout: Layout, s: Stream) returns (v: Tree)
    requires Collect(t, base, id, left, layout, s).ok
    ensures MkdirAll(Cleared(t, ResultDir(base, id), left), ResultDir(base, id)) == Some(v)
    ensures ExtractAll(v, JoinPath(base, id), layout, s).ok
    ensures Collected(t, base, id, left, layout, s) ==
        Under(ExtractAll(v, JoinPath(base, id), layout, s).tree, ResultDir(base, id))
  {
    v := MkdirAll(Cleared(t, ResultDir(base, id), left), ResultDir(base, id)).value;
  }

  /**
   * With the old directory gone, the collected folder is well-formed and holds exactly what
   * the stream does: nothing depends on the disk as it was.
   */
  lemma FreshFolder(t: Tree, base: string, id: string, layout: Layout, s: Stream)
    requires PlainId(id) && Collect(t, base, id, {}, layout, s).ok
    ensures IsFolder(Collected(t, base, id, {}, layout, s))
    ensures Alike(FolderView(Collected(t, base, id, {}, layout, s)), StreamOnly(base, id, layout, s))
  {
    ResultDirEndsInName(base, id);
    var v := CollectedFrom(t, base, id, {}, layout, s);
    EmptyBelow(t, ResultDir(base, id), v);
    FromNothing(v, JoinPath(base, id), layout, s);
  }

  /** Told from the entries: the collected folder holds what they say, and nothing else. */
  lemma FreshTells(t: Tree, base: string, id: string, layout: Layout, s: Stream)
    requires PlainId(id) && Collect(t, base, id, {}, layout, s).ok
    ensures Tells(map[], JoinPath(base, id), layout, s.entries, FolderView(Collected(t, base, id, {}, layout, s)))
  {
    var dest, folder := JoinPath(base, id), Collected(t, base, id, {}, layout, s);
    ResultDirEndsInName(base, id);
    FreshFolder(t, base, id, layout, s);
    forall r ensures Says(map[], dest, layout, s.entries, r, FolderView(folder)(r)) {
      StreamSays(dest, layout, s, r);
    }
  }

  lemma StreamSays(dest: string, layout: Layout, s: Stream, r: Rel)
    requires dest != "" && EndsInName(Resolve(dest))
    ensures Says(map[], dest, layout, s.entries, r, StreamView(map[], dest, layout, s)(r))
  {
    if StrictlyBelow(Resolve(dest), At(Resolve(dest), r)) {
      DesiredHolds(map[], dest, layout, s.entries, At(Resolve(dest), r));
    }
  }

  /**
   * For every disk, id, stream and request path: the packed report of a collected stream
   * serves what the stream's entries say is at the name that the path stands for.
   */
  lemma FreshReport(
    t: Tree, base: string, id: string, layout: Layout, s: Stream, path: string, name: string, view: View)
    requires PlainId(id) && Collect(t, base, id, {}, layout, s).ok
    requires Stands(path, name) && Tells(map[], JoinPath(base, id), layout, s.entries, view)
    ensures IsFolder(Collected(t, base, id, {}, layout, s))
    ensures Lookup(ArchiveOf(Collected(t, base, id, {}, layout, s)), path) == Served(view, name)
  {
    var folder := Collected(t, base, id, {}, layout, s);
    FreshFolder(t, base, id, layout, s);
    FreshTells(t, base, id, layout, s);
    ToldOnce(map[], JoinPath(base, id), layout, s.entries, FolderView(folder), view);
    LookupServesFolder(folder, path, name);
    SameServed(FolderView(folder), view, name);
  }

  /** So the last regular entry that stands for a path is what a request for that path is served. */
  lemma FreshPage(t: Tree, base: string, id: string, layout: Layout, s: Stream, path: string, i: int)
    requires PlainId(id) && Collect(t, base, id, {}, layout, s).ok
    requires path != "" && '\\' !in path
    requires LastAt(JoinPath(base, id), layout, s.entries, i, At(ResultDir(base, id), Split(path, '/')))
    ensures IsFolder(Collected(t, base, id, {}, layout, s))
    ensures Lookup(ArchiveOf(Collected(t, base, id, {}, layout, s)), path)
         == Some(ZipEntry(path, s.entries[i].content))
  {
    var folder := Collected(t, base, id, {}, layout, s);
    ResultDirEndsInName(base, id);
    FreshFolder(t, base, id, layout, s);
    FreshTells(t, base, id, layout, s);
    ToldFile(map[], JoinPath(base, id), layout, s.entries, FolderView(folder), i, Split(path, '/'));
    FileOfPath(folder, path);
  }

  /**
   * On the disk as a whole: where the base directory exists, collecting replaces what is at and
   * below the result directory with the collected folder, and changes nothing else.
   */
  lemma CollectGrafts(t: Tree, base: string, id: string, layout: Layout, s: Stream)
    requires PlainId(id) && Collect(t, base, id, {}, layout, s).ok && DirsOf(Resolve(base)) <= DirsIn(t)
    ensures IsFolder(Collected(t, base, id, {}, layout, s))
    ensures Collect(t, base, id, {}, layout, s).tree ==
        Graft(t, ResultDir(base, id), FolderOf(Collected(t, base, id, {}, layout, s)))
  {
    var d := ResultDir(base, id);
    FreshFolder(t, base, id, layout, s);
    ResultDirEndsInName(base, id);
    DirsOfParent(d);
    assert Parent(d) == Resolve(base);
    var v := CollectedFrom(t, base, id, {}, layout, s);
    ExtractGrafts(t, v, JoinPath(base, id), layout, s, Collected(t, base, id, {}, layout, s));
  }

  lemma ExtractGrafts(t: Tree, v: Tree, dest: string, layout: Layout, s: Stream, folder: ReportTree)
    requires dest != "" && EndsInName(Resolve(dest)) &&
        MkdirAll(Cleared(t, Resolve(dest), {}), Resolve(dest)) == Some(v)
    requires folder == Under(ExtractAll(v, dest, layout, s).tree, Resolve(dest))
    requires DirsOf(Resolve(dest)) - {Resolve(dest)} <= DirsIn(t)
    ensures ExtractAll(v, dest, layout, s).tree == Graft(t, Resolve(dest), FolderOf(folder))
  {
    var d, u := Resolve(dest), ExtractAll(v, dest, layout, s).tree;
    DirsOfParent(d);
    Prepared(t, d, {}, v);
    forall k | !StrictlyBelow(d, k) ensures Get(u, k) == Get(v, k) {
      ExtractionContained(v, dest, layout, s, k);
    }
    FolderGrafted(t, v, u, d, folder);
  }

  /** A tree that differs from t only in having a folder at d. */
  lemma FolderGrafted(t: Tree, v: Tree, u: Tree, d: Path, folder: ReportTree)
    requires forall k :: Get(v, k) == if k in DirsOf(d) then Some(Dir) else if Covers(d, k) then None else Get(t, k)
    requires forall k | !StrictlyBelow(d, k) :: Get(u, k) == Get(v, k)
    requires folder == Under(u, d) && DirsOf(d) - {d} <= DirsIn(t) && d in DirsOf(d)
    ensures u == Graft(t, d, FolderOf(folder))
  {
    GraftMeaning(t, d, FolderOf(folder));
    forall k ensures Get(u, k) == Get(Graft(t, d, FolderOf(folder)), k) {
      FolderGraftedAt(t, v, u, d, folder, k);
    }
    SameMap(u, Graft(t, d, FolderOf(folder)));
  }

  lemma FolderGraftedAt(t: Tree, v: Tree, u: Tree, d: Path, folder: ReportTree, k: Path)
    requires Get(v, k) == if k in DirsOf(d) then Some(Dir) else if Covers(d, k) then None else Get(t, k)
    requires !StrictlyBelow(d, k) ==> Get(u, k) == Get(v, k)
    requires folder == Under(u, d) && DirsOf(d) - {d} <= DirsIn(t) && d in DirsOf(d)
    ensures Get(u, k) == if Covers(d, k) then Piece(d, FolderOf(folder), k) else Get(t, k)
  {
    BelowIsCovered(d, k);
    if Covers(d, k) && k != d {
      PathTail(d, k);
      UnderAt(u, d, Tail(d, k));
    } else if k in DirsOf(d) && k != d {
      assert k in DirsIn(t);
    }
  }

  // ----- when collecting succeeds -----

  lemma ExtractableBelow(v: Tree, dest: string, layout: Layout, s: Stream)
    requires forall k | StrictlyBelow(Resolve(dest), k) :: Get(v, k) == None
    ensures Extractable(v, dest, layout, s) <==> Extractable(map[], dest, layout, s)
  {
  }

  /**
   * Collecting succeeds exactly when no file stands in the place of the base directory or
   * above it, the stream's entries can be extracted into an empty directory, and it can be
   * read to its end.
   */
  lemma CollectSucceedsExactly(t: Tree, base: string, id: string, layout: Layout, s: Stream)
    requires PlainId(id)
    ensures Collect(t, base, id, {}, layout, s).ok <==>
            && DirsOf(Resolve(base)) !! FilesIn(t)
            && Extractable(map[], JoinPath(base, id), layout, s)
  {
    var d, dest := ResultDir(base, id), JoinPath(base, id);
    var u := Cleared(t, d, {});
    ResultDirEndsInName(base, id);
    assert Parent(d) == Resolve(base);
    MkdirAllSpec(u, d);
    AboveStays(t, d);
    var m := MkdirAll(u, d);
    if m.Some? {
      Prepared(t, d, {}, m.value);
      EmptyBelow(t, d, m.value);
      ExtractsExactly(m.value, dest, layout, s);
      ExtractableBelow(m.value, dest, layout, s);
    }
  }

  lemma AboveStays(t: Tree, d: Path)
    requires d.comps != []
    ensures DirsOf(d) !! FilesIn(Cleared(t, d, {})) <==> DirsOf(Parent(d)) !! FilesIn(t)
  {
    DirsOfParent(d);
    forall k | k in DirsOf(Parent(d)) ensures k in FilesIn(Cleared(t, d, {})) <==> k in FilesIn(t) {
      BelowIsCovered(d, k);
    }
    assert Covers(d, d);
  }

  // ----- what a directory that could not be cleared does -----

  /** What a tree holds below d that the writes do not write themselves. */
  function Untouched(t: Tree, d: Path, ws: seq<Write>): set<Path> {
    set k | k in t && StrictlyBelow(d, k) && LastFile(ws, k).None? && k !in AllNeeds(ws)
  }

  /**
   * A failure to clear the directory is only logged: when the collection then succeeds, the
   * report is the stream's own exactly when everything left over is written again by it.
   */
  lemma LeftoversShowExactly(t: Tree, base: string, id: string, left: set<Path>, layout: Layout, s: Stream)
    requires PlainId(id) && Collect(t, base, id, left, layout, s).ok
    ensures Alike(FolderView(Collected(t, base, id, left, layout, s)), StreamOnly(base, id, layout, s))
       <==> Untouched(Cleared(t, ResultDir(base, id), left), ResultDir(base, id),
           Plans(JoinPath(base, id), layout, s.entries)) == {}
  {
    ResultDirEndsInName(base, id);
    var v := CollectedFrom(t, base, id, left, layout, s);
    ExactFromPrepared(v, JoinPath(base, id), layout, s);
    PreparedUntouched(Cleared(t, ResultDir(base, id), left), ResultDir(base, id), v,
        Plans(JoinPath(base, id), layout, s.entries));
  }

  lemma PreparedUntouched(u: Tree, d: Path, v: Tree, ws: seq<Write>)
    requires MkdirAll(u, d) == Some(v)
    ensures Untouched(v, d, ws) == Untouched(u, d, ws)
  {
    MkdirAllSpec(u, d);
    forall k | StrictlyBelow(d, k) ensures k in v <==> k in u {
      BelowIsCovered(d, k);
    }
  }

  lemma ExactFromPrepared(v: Tree, dest: string, layout: Layout, s: Stream)
    requires ExtractAll(v, dest, layout, s).ok
    ensures Alike(FolderView(Under(ExtractAll(v, dest, layout, s).tree, Resolve(dest))),
        StreamView(map[], dest, layout, s))
       <==> Untouched(v, Resolve(dest), Plans(dest, layout, s.entries)) == {}
  {
    var folder := Under(ExtractAll(v, dest, layout, s).tree, Resolve(dest));
    var shown := Untouched(v, Resolve(dest), Plans(dest, layout, s.entries));
    forall r
      ensures FolderView(folder)(r) == StreamView(map[], dest, layout, s)(r) <==> At(Resolve(dest), r) !in shown
    {
      OnePath(v, dest, layout, s, r);
    }
    AlikeExactly(FolderView(folder), StreamView(map[], dest, layout, s), Resolve(dest), shown);
  }

  lemma AlikeExactly(a: View, b: View, d: Path, shown: set<Path>)
    requires forall r :: a(r) == b(r) <==> At(d, r) !in shown
    requires forall k | k in shown :: StrictlyBelow(d, k)
    ensures Alike(a, b) <==> shown == {}
  {
    if k :| k in shown {
      var r := k.comps[|d.comps|..];
      assert At(d, r) == k;
      assert a(r) != b(r);
    }
  }

  lemma OnePath(v: Tree, dest: string, layout: Layout, s: Stream, r: Rel)
    requires ExtractAll(v, dest, layout, s).ok
    ensures FolderView(Under(ExtractAll(v, dest, layout, s).tree, Resolve(dest)))(r) ==
        StreamView(map[], dest, layout, s)(r)
       <==> At(Resolve(dest), r) !in Untouched(v, Resolve(dest), Plans(dest, layout, s.entries))
  {
    ViewsAgree(v, dest, layout, s, r);
    PlansProper(dest, layout, s.entries);
    SucceedsExactly(v, Plans(dest, layout, s.entries));
    DesiredFromNothing(v, Plans(dest, layout, s.entries), At(Resolve(dest), r));
  }

  lemma DesiredFromNothing(v: Tree, ws: seq<Write>, k: Path)
    requires AllNeeds(ws) !! FilesIn(v)
    ensures Desired(v, ws, k) == Desired(map[], ws, k) <==> !(k in v && LastFile(ws, k).None? && k !in AllNeeds(ws))
  {
  }
}
