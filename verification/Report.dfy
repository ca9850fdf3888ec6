/**
 * Serving a file of a stored report, and the round trip from the runner's archive
 * stream to the served file: extract, pack, look up.
 */
module Report {
  import opened Wrappers
  import opened Text
  import opened Paths
  import opened Extract
  import opened ZipDir

  // ----- looking a path up in an archive (HandleGetResult) -----

  function FirstNamed(archive: Archive, name: string): (f: Option<ZipEntry>)
    ensures f.Some? ==> f.value in archive && f.value.name == name
    ensures f.None? ==> forall e | e in archive :: e.name != name
  {
    if archive == [] then None
    else if archive[0].name == name then Some(archive[0])
    else FirstNamed(archive[1..], name)
  }

  /** The name a request path stands for. */
  function Requested(path: string): string {
    ReplaceAll(if path == "" then "index.html" else path, '\\', '/')
  }

  function Lookup(archive: Archive, path: string): Option<ZipEntry> {
    var name := Requested(path);
    var file := FirstNamed(archive, name);
    if file.None? && !HasSuffix(name, "/") then FirstNamed(archive, name + "/index.html") else file
  }

  method Search(archive: Archive, name: string) returns (file: Option<ZipEntry>)
    ensures file == FirstNamed(archive, name)
  {
    file := None;
    var i := 0;
    while i < |archive|
      invariant 0 <= i <= |archive| && file == None
      invariant FirstNamed(archive, name) == FirstNamed(archive[i..], name)
    {
      DropOne(archive, i);
      if archive[i].name == name {
        file := Some(archive[i]);
        break;
      }
      i := i + 1;
    }
  }

  method FindFile(archive: Archive, requestPath: string) returns (file: Option<ZipEntry>)
    ensures file == Lookup(archive, requestPath)
  {
    var path := requestPath;
    if path == "" { path := "index.html"; }
    path := ReplaceAll(path, '\\', '/');
    file := Search(archive, path);
    if file.None? && !HasSuffix(path, "/") {
      var indexPath := path + "/index.html";
      file := Search(archive, indexPath);
    }
  }

  // ----- what a report should serve, stated on its tree -----

  type View = Rel -> Option<Node>

  /** The entry a report has under one archive name. */
  function NamedIn(view: View, name: string): Option<ZipEntry> {
    var here := view(Split(name, '/'));
    if here.Some? && here.value.File? then Some(ZipEntry(name, here.value.content))
    else if HasSuffix(name, "/") && view(Split(name[..|name| - 1], '/')) == Some(Dir) then Some(ZipEntry(name, []))
    else None
  }

  /**
   * The name that a request path stands for, told by its characters: the start page for the
   * empty path, and else the path with "/" in the place of every backslash.
   */
  predicate Stands(path: string, name: string) {
    if path == "" then name == "index.html"
    else
      && |name| == |path|
      && forall i | 0 <= i < |path| :: name[i] == if path[i] == '\\' then '/' else path[i]
  }

  lemma StandsForRequested(path: string, name: string)
    ensures Stands(path, name) <==> name == Requested(path)
  {
    if path == "" { assert ReplaceAll("index.html", '\\', '/') == "index.html"; }
  }

  /** The file of this name; or the directory's own entry; or the directory's index page. */
  function Served(view: View, name: string): Option<ZipEntry> {
    var here := view(Split(name, '/'));
    if here.Some? && here.value.File? then Some(ZipEntry(name, here.value.content))
    else if HasSuffix(name, "/") then
      if view(Split(name[..|name| - 1], '/')) == Some(Dir) then Some(ZipEntry(name, [])) else None
    else
      var index := view(Split(name, '/') + ["index.html"]);
      if index.Some? && index.value.File? then Some(ZipEntry(name + "/index.html", index.value.content)) else None
  }

  function FolderView(t: Folder): View {
    r => Get(t, r)
  }

  /** Archive names determine keys. */
  lemma NameOfKey(t: Folder, k: Rel, name: string)
    requires IsFolder(t) && k in t
    ensures t[k].File? ==> (EntryFor(t, k).name == name <==> k == Split(name, '/'))
    ensures t[k].Dir? ==> (EntryFor(t, k).name == name <==> HasSuffix(name, "/") && k == Split(name[..|name| - 1], '/'))
  {
    SplitJoin(k, '/');
    JoinSplit(name, '/');
    if HasSuffix(name, "/") {
      JoinSplit(name[..|name| - 1], '/');
      assert name == name[..|name| - 1] + "/";
    }
    if t[k].Dir? && EntryFor(t, k).name == name {
      assert name[..|name| - 1] == Join(k, '/');
    }
  }

  /** A name ending in "/" is never the name of a file. */
  lemma SlashIsNoFile(t: Folder, name: string)
    requires IsFolder(t) && HasSuffix(name, "/")
    ensures Split(name, '/') !in t
  {
    var stem := name[..|name| - 1];
    assert name == stem + ['/'] + "";
    SplitAppend(stem, "", '/');
    assert Split("", '/') == [""];
    var k := Split(name, '/');
    assert k[|k| - 1] == "" && k[|k| - 1] in k;
  }

  lemma EntryIsNamed(t: Folder, k: Rel, name: string)
    requires IsFolder(t) && k in t && EntryFor(t, k).name == name
    ensures NamedIn(FolderView(t), name) == Some(EntryFor(t, k))
  {
    NameOfKey(t, k, name);
    if t[k].Dir? { SlashIsNoFile(t, name); }
  }

  lemma NamedIsEntry(t: Folder, name: string) returns (k: Rel)
    requires IsFolder(t) && NamedIn(FolderView(t), name).Some?
    ensures k in t && EntryFor(t, k).name == name
  {
    k := Split(name, '/');
    if k !in t || t[k].Dir? {
      k := Split(name[..|name| - 1], '/');
    }
    NameOfKey(t, k, name);
  }

  lemma ArchiveHolds(t: Folder, e: ZipEntry)
    requires IsFolder(t)
    ensures e in ArchiveOf(t) <==> exists k :: k in t && EntryFor(t, k) == e
  {
    var order := WalkOrder(t, []);
    ArchiveComplete(t);
    if e in ArchiveOf(t) {
      var i :| 0 <= i < |order| && ArchiveOf(t)[i] == e;
      assert order[i] in order && EntryFor(t, order[i]) == e;
    }
    if k :| k in t && EntryFor(t, k) == e {
      assert k in order;
      var i :| 0 <= i < |order| && order[i] == k;
      assert ArchiveOf(t)[i] == e;
    }
  }

  /** No two entries of an archive have one name, so that the first of a name is the only one. */
  lemma NamesOnce(t: Folder, i: nat, j: nat)
    requires IsFolder(t) && i < j < |ArchiveOf(t)|
    ensures ArchiveOf(t)[i].name != ArchiveOf(t)[j].name
  {
    ArchiveComplete(t);
    var order := WalkOrder(t, []);
    var k, l, name := order[i], order[j], ArchiveOf(t)[i].name;
    assert k in order && l in order && k != l;
    NameOfKey(t, k, name);
    NameOfKey(t, l, name);
    if HasSuffix(name, "/") { SlashIsNoFile(t, name); }
  }

  lemma FirstNamedMeaning(t: Folder, name: string)
    requires IsFolder(t)
    ensures FirstNamed(ArchiveOf(t), name) == NamedIn(FolderView(t), name)
  {
    var found := FirstNamed(ArchiveOf(t), name);
    if found.Some? {
      ArchiveHolds(t, found.value);
      var k :| k in t && EntryFor(t, k) == found.value;
      EntryIsNamed(t, k, name);
    } else if NamedIn(FolderView(t), name).Some? {
      var k := NamedIsEntry(t, name);
      ArchiveHolds(t, EntryFor(t, k));
    }
  }

  lemma LastChar(a: string, b: string)
    requires b != ""
    ensures HasSuffix(a + b, "/") <==> b[|b| - 1] == '/'
  {
    assert (a + b)[|a + b| - 1..] == [b[|b| - 1]];
  }

  lemma IndexName(name: string)
    ensures Split(name + "/index.html", '/') == Split(name, '/') + ["index.html"]
    ensures !HasSuffix(name + "/index.html", "/")
  {
    var page := "index.html";
    assert page[9] == 'l' && '/' !in page;
    LastChar(name + "/", page);
    assert name + "/index.html" == name + "/" + page == name + ['/'] + page;
    SplitAppend(name, page, '/');
  }

  /** The entry of this name, or else that of its index page. */
  function NamedOrIndex(view: View, name: string): Option<ZipEntry> {
    var file := NamedIn(view, name);
    if file.Some? || HasSuffix(name, "/") then file else NamedIn(view, name + "/index.html")
  }

  lemma ServedByName(t: Folder, name: string)
    requires IsFolder(t)
    ensures NamedOrIndex(FolderView(t), name) == Served(FolderView(t), name)
  {
    if HasSuffix(name, "/") {
      SlashIsNoFile(t, name);
    } else {
      IndexName(name);
      PlainNamed(FolderView(t), name);
      PlainNamed(FolderView(t), name + "/index.html");
    }
  }

  lemma PlainNamed(view: View, name: string)
    requires !HasSuffix(name, "/")
    ensures var here := view(Split(name, '/'));
      NamedIn(view, name) == if here.Some? && here.value.File? then Some(ZipEntry(name, here.value.content)) else None
  {
  }

  /** Looking a path up in a folder's archive serves what the folder holds, for every path. */
  lemma LookupServesFolder(t: Folder, path: string, name: string)
    requires IsFolder(t) && Stands(path, name)
    ensures Lookup(ArchiveOf(t), path) == Served(FolderView(t), name)
  {
    StandsForRequested(path, name);
    FirstNamedMeaning(t, name);
    FirstNamedMeaning(t, name + "/index.html");
    ServedByName(t, name);
  }

  /** Paths that stand for one name are answered alike, in any archive. */
  lemma SameName(archive: Archive, path: string, other: string, name: string)
    requires Stands(path, name) && Stands(other, name)
    ensures Lookup(archive, path) == Lookup(archive, other)
  {
    StandsForRequested(path, name);
    StandsForRequested(other, name);
  }

  lemma PlainStands(path: string)
    requires path != "" && '\\' !in path
    ensures Stands(path, path)
  {
  }

  /** A path with backslashes is answered as the one with slashes in their place. */
  lemma BackslashesAreSlashes(archive: Archive, path: string, slashed: string)
    requires path != "" && |slashed| == |path|
    requires forall i | 0 <= i < |path| :: slashed[i] == if path[i] == '\\' then '/' else path[i]
    ensures Lookup(archive, path) == Lookup(archive, slashed)
  {
    PlainStands(slashed);
    SameName(archive, path, slashed, slashed);
  }

  /** Any other path is looked up as it stands. */
  lemma FileOfPath(t: Folder, path: string)
    requires IsFolder(t) && path != "" && '\\' !in path
    ensures forall b | Get(t, Split(path, '/')) == Some(File(b)) ::
      Lookup(ArchiveOf(t), path) == Some(ZipEntry(path, b))
  {
    PlainStands(path);
    LookupServesFolder(t, path, path);
  }

  lemma PageName(page: string)
    requires page == "index.html"
    ensures page != "" && '\\' !in page && Split(page, '/') == [page]
  {
    OnePart(page);
  }

  lemma StartPageOf(t: Folder, page: string)
    requires IsFolder(t) && Stands("", page)
    ensures Lookup(ArchiveOf(t), "") == Lookup(ArchiveOf(t), page)
    ensures forall b | Get(t, [page]) == Some(File(b)) :: Lookup(ArchiveOf(t), "") == Some(ZipEntry(page, b))
  {
    PageName(page);
    PlainStands(page);
    SameName(ArchiveOf(t), "", page, page);
    FileOfPath(t, page);
  }

  /** The empty path is answered as "index.html", with that file where there is one. */
  lemma StartPage(t: Folder)
    requires IsFolder(t)
    ensures Lookup(ArchiveOf(t), "") == Lookup(ArchiveOf(t), "index.html")
    ensures forall b | Get(t, ["index.html"]) == Some(File(b)) ::
      Lookup(ArchiveOf(t), "") == Some(ZipEntry("index.html", b))
  {
    StartPageOf(t, "index.html");
  }

  // ----- the tree below the destination -----

  function At(d: Path, r: Rel): Path {
    Path(d.rooted, d.comps + r)
  }

  function Under(t: Tree, d: Path): (f: Folder)
    ensures forall r :: Get(f, r) == if StrictlyBelow(d, At(d, r)) then Get(t, At(d, r)) else None
  {
    var keys := set k | k in t && StrictlyBelow(d, k) :: k.comps[|d.comps|..];
    assert forall k | k in t && StrictlyBelow(d, k) :: At(d, k.comps[|d.comps|..]) == k;
    assert forall r | StrictlyBelow(d, At(d, r)) :: At(d, r).comps[|d.comps|..] == r;
    map r | r in keys :: t[At(d, r)]
  }

  lemma ViewUnder(t: Tree, d: Path, r: Rel)
    ensures FolderView(Under(t, d))(r) == if StrictlyBelow(d, At(d, r)) then Get(t, At(d, r)) else None
  {
  }

  /** One key of a well-formed folder: proper names, below directories. */
  predicate Rooted(g: Folder, k: Rel) {
    && k != []
    && (forall c | c in k :: IsName(c))
    && forall i | 0 < i < |k| :: Get(g, k[..i]) == Some(Dir)
  }

  lemma RootedIsFolder(g: Folder)
    ensures IsFolder(g) <==> forall k | k in g :: Rooted(g, k)
  {
    if forall k | k in g :: Rooted(g, k) {
      forall k | k in g
        ensures k != [] && (forall c | c in k :: IsName(c))
        ensures forall i | 0 < i < |k| :: k[..i] in g && g[k[..i]].Dir?
      {
        assert Rooted(g, k);
        assert forall i | 0 < i < |k| :: Get(g, k[..i]) == Some(Dir);
      }
    }
  }

  lemma DirAfter(t: Tree, w: Write, q: Path)
    requires Proper(w) && Apply(t, w).ok
    requires q in DirsIn(t) || q in Needs(w)
    ensures Get(Apply(t, w).tree, q) == Some(Dir)
  {
    ApplySpec(t, w);
    if w.MakeFile? { DirsOfParent(w.path); }
  }

  lemma NewKey(t: Tree, w: Write, q: Path)
    requires Proper(w) && !w.Skip? && Apply(t, w).ok
    requires q in Apply(t, w).tree && q !in t
    ensures q in DirsOf(w.path)
  {
    ApplySpec(t, w);
    DirsOfParent(w.path);
  }

  lemma KeyKept(t: Tree, d: Path, w: Write, k: Rel)
    requires EndsInName(d) && !w.Skip? && IsCanonical(w.path) && StrictlyBelow(d, w.path)
    requires Apply(t, w).ok
    requires k in Under(Apply(t, w).tree, d)
    requires k in Under(t, d) ==> Rooted(Under(t, d), k)
    ensures Rooted(Under(Apply(t, w).tree, d), k)
  {
    var u := Apply(t, w).tree;
    UnderAt(u, d, k);
    UnderAt(t, d, k);
    if k !in Under(t, d) {
      NewKey(t, w, At(d, k));
      NamesBelow(d, w.path, k);
    }
    forall i | 0 < i < |k| ensures Get(Under(u, d), k[..i]) == Some(Dir) {
      if k in Under(t, d) {
        assert Get(Under(t, d), k[..i]) == Some(Dir);
        UnderAt(t, d, k[..i]);
      } else {
        ShorterNeeded(d, w, k, i);
      }
      DirAfter(t, w, At(d, k[..i]));
      UnderAt(u, d, k[..i]);
    }
  }

  lemma UnderAt(t: Tree, d: Path, r: Rel)
    ensures Get(Under(t, d), r) == if StrictlyBelow(d, At(d, r)) then Get(t, At(d, r)) else None
  {
  }

  /** Writing below the destination keeps the folder there well-formed. */
  lemma FolderKept(t: Tree, d: Path, w: Write)
    requires IsFolder(Under(t, d)) && EndsInName(d)
    requires !w.Skip? && IsCanonical(w.path) && StrictlyBelow(d, w.path)
    requires Apply(t, w).ok
    ensures IsFolder(Under(Apply(t, w).tree, d))
  {
    RootedIsFolder(Under(t, d));
    RootedIsFolder(Under(Apply(t, w).tree, d));
    forall k | k in Under(Apply(t, w).tree, d) ensures Rooted(Under(Apply(t, w).tree, d), k) {
      KeyKept(t, d, w, k);
    }
  }

  /** A path on the way to a canonical target consists of names below the destination. */
  lemma NamesBelow(d: Path, target: Path, k: Rel)
    requires EndsInName(d) && IsCanonical(target) && StrictlyBelow(d, target)
    requires StrictlyBelow(d, At(d, k)) && At(d, k) in DirsOf(target)
    ensures k != [] && forall c | c in k :: IsName(c)
  {
    var i :| 1 <= i <= |target.comps| && At(d, k) == Path(target.rooted, target.comps[..i]);
    forall c | c in k ensures IsName(c) {
      var j :| 0 <= j < |k| && k[j] == c;
      assert target.comps[|d.comps| + j] == (d.comps + k)[|d.comps| + j] == c;
      assert target.comps[|d.comps| - 1] == d.comps[|d.comps| - 1];
    }
  }

  lemma ShorterNeeded(d: Path, w: Write, k: Rel, i: nat)
    requires !w.Skip? && w.path.comps != [] && 0 < i < |k|
    requires StrictlyBelow(d, At(d, k)) && At(d, k) in DirsOf(w.path)
    ensures StrictlyBelow(d, At(d, k[..i]))
    ensures At(d, k[..i]) in Needs(w) && At(d, k[..i]) != w.path
  {
    var n :| 1 <= n <= |w.path.comps| && At(d, k) == Path(w.path.rooted, w.path.comps[..n]);
    var m := |d.comps| + i;
    assert (d.comps + k)[..m] == d.comps + k[..i];
    assert w.path.comps[..n][..m] == w.path.comps[..m];
    assert At(d, k[..i]) == Path(w.path.rooted, w.path.comps[..m]);
    assert At(d, k[..i]).comps[|d.comps|..] == k[..i];
    assert At(d, k).comps[|d.comps|..] == k;
    DirsOfParent(w.path);
  }

  lemma {:induction false} FolderKeptByAll(t: Tree, d: Path, ws: seq<Write>)
    requires IsFolder(Under(t, d)) && EndsInName(d)
    requires forall w | w in ws :: w.Skip? || (IsCanonical(w.path) && StrictlyBelow(d, w.path))
    requires ApplyAll(t, ws).ok
    ensures IsFolder(Under(ApplyAll(t, ws).tree, d))
    decreases ws
  {
    if ws != [] {
      if !ws[0].Skip? { FolderKept(t, d, ws[0]); }
      FolderKeptByAll(Apply(t, ws[0]).tree, d, ws[1..]);
    }
  }

  /** After an error-free extraction the destination holds a well-formed folder. */
  lemma ExtractedFolder(t: Tree, dest: string, layout: Layout, s: Stream)
    requires dest != "" && EndsInName(Resolve(dest)) && IsFolder(Under(t, Resolve(dest)))
    requires ExtractAll(t, dest, layout, s).ok
    ensures IsFolder(Under(ExtractAll(t, dest, layout, s).tree, Resolve(dest)))
  {
    var ws := Plans(dest, layout, s.entries);
    forall w | w in ws ensures w.Skip? || (IsCanonical(w.path) && StrictlyBelow(Resolve(dest), w.path)) {
      var i :| 0 <= i < |s.entries| && w == Plan(dest, layout, s.entries[i]);
      WrittenExactly(dest, layout, s.entries[i]);
      if !w.Skip? { AcceptedMeaning(dest, EntryName(layout, s.entries[i].name).value); }
    }
    FolderKeptByAll(t, Resolve(dest), ws);
  }

  /** What the stream should leave at a relative path: stated on the entries alone. */
  function StreamView(t: Tree, dest: string, layout: Layout, s: Stream): View {
    var d := Resolve(dest);
    (r: Rel) => if StrictlyBelow(d, At(d, r)) then Desired(t, Plans(dest, layout, s.entries), At(d, r)) else None
  }

  lemma SameServed(v: View, w: View, name: string)
    requires forall r :: v(r) == w(r)
    ensures Served(v, name) == Served(w, name)
  {
  }

  lemma ViewsAgree(t: Tree, dest: string, layout: Layout, s: Stream, r: Rel)
    requires ExtractAll(t, dest, layout, s).ok
    ensures FolderView(Under(ExtractAll(t, dest, layout, s).tree, Resolve(dest)))(r)
         == StreamView(t, dest, layout, s)(r)
  {
    PlansProper(dest, layout, s.entries);
    ExtractedTree(t, Plans(dest, layout, s.entries), At(Resolve(dest), r));
    ViewUnder(ExtractAll(t, dest, layout, s).tree, Resolve(dest), r);
  }
}
