/**
 * Unpacking a result archive onto the disk: extractTar of the Kubernetes runner and
 * copyFromContainer of the Docker runner.
 *
 * The disk is a map from resolved paths to nodes. Each archive entry is planned as one
 * write; the plans are then applied in order. The two runners differ only in how they
 * read an entry's name.
 */
module Extract {
  import opened Wrappers
  import opened Text
  import opened Paths

  datatype Node = File(content: Bytes) | Dir
  type Tree = map<Path, Node>

  datatype Kind = Directory | Regular | Other

  /** complete is false when reading the entry's content fails part-way. */
  datatype TarEntry = TarEntry(name: string, kind: Kind, content: Bytes, complete: bool)

  /** readable is false when the stream breaks after the last entry instead of ending. */
  datatype Stream = Stream(entries: seq<TarEntry>, readable: bool)

  datatype Layout = Docker | Kubernetes

  datatype Write = Skip | MakeDir(path: Path) | MakeFile(path: Path, content: Bytes, complete: bool)

  datatype Outcome = Outcome(tree: Tree, ok: bool)

  function Parent(p: Path): Path
    requires p.comps != []
  {
    Path(p.rooted, p.comps[..|p.comps| - 1])
  }

  /** p and its ancestors, without the root. */
  function DirsOf(p: Path): set<Path> {
    set i | 1 <= i <= |p.comps| :: Path(p.rooted, p.comps[..i])
  }

  function FilesIn(t: Tree): set<Path> {
    set k | k in t && t[k].File?
  }

  function DirsIn(t: Tree): set<Path> {
    set k | k in t && t[k].Dir?
  }

  /** os.MkdirAll: creates what is missing, fails on a file in the way. */
  function MkdirAll(t: Tree, p: Path): Option<Tree>
    decreases |p.comps|
  {
    if p.comps == [] then Some(t)
    else match MkdirAll(t, Parent(p))
      case None => None
      case Some(u) =>
        if p !in u then Some(u[p := Dir])
        else if u[p].Dir? then Some(u)
        else None
  }

  /** The name under the destination that a runner reads from an entry, if any. */
  function EntryName(layout: Layout, name: string): Option<string> {
    match layout
    case Docker =>
      if '/' !in name then None
      else
        var rest := name[IndexOf(name, '/') + 1..];
        if rest == "" then None else Some(rest)
    case Kubernetes =>
      if name == "" || name == "." then None else Some(name)
  }

  function WriteFor(target: Path, e: TarEntry): Write {
    match e.kind
    case Directory => MakeDir(target)
    case Regular => MakeFile(target, e.content, e.complete)
    case Other => Skip
  }

  /** What becomes of an entry read as `name`: nothing unless its target passes the traversal guard. */
  function PlanAt(dest: string, name: string, e: TarEntry): Write {
    var target := JoinPath(dest, name);
    if !PrefixGuard(target, dest) then Skip else WriteFor(Resolve(target), e)
  }

  function Plan(dest: string, layout: Layout, e: TarEntry): Write {
    match EntryName(layout, e.name)
    case None => Skip
    case Some(name) => PlanAt(dest, name, e)
  }

  function Plans(dest: string, layout: Layout, es: seq<TarEntry>): seq<Write> {
    seq(|es|, i requires 0 <= i < |es| => Plan(dest, layout, es[i]))
  }

  function Apply(t: Tree, w: Write): Outcome {
    match w
    case Skip => Outcome(t, true)
    case MakeDir(p) =>
      (match MkdirAll(t, p)
       case None => Outcome(t, false)
       case Some(u) => Outcome(u, true))
    case MakeFile(p, content, complete) =>
      if p.comps == [] then Outcome(t, false)
      else match MkdirAll(t, Parent(p))
        case None => Outcome(t, false)
        case Some(u) =>
          if p in u && u[p].Dir? then Outcome(u, false)
          else Outcome(u[p := File(content)], complete)
  }

  /** Applies the writes in order and stops at the first failure. */
  function ApplyAll(t: Tree, ws: seq<Write>): Outcome
    decreases ws
  {
    if ws == [] then Outcome(t, true)
    else
      var o := Apply(t, ws[0]);
      if o.ok then ApplyAll(o.tree, ws[1..]) else o
  }

  function ExtractAll(t: Tree, dest: string, layout: Layout, s: Stream): Outcome {
    var o := ApplyAll(t, Plans(dest, layout, s.entries));
    if o.ok then Outcome(o.tree, s.readable) else o
  }

  // ----- the extractors -----

  class Disk {
    var nodes: Tree

    method MakeDirs(p: Path) returns (ok: bool)
      modifies this
      ensures var m := MkdirAll(old(nodes), p);
              ok == m.Some? && nodes == if ok then m.value else old(nodes)
    {
      var m := MkdirAll(nodes, p);
      ok := m.Some?;
      if ok { nodes := m.value; }
    }

    /** os.Create followed by io.Copy. */
    method ExtractFile(p: Path, content: Bytes, complete: bool) returns (ok: bool)
      modifies this
      ensures if p in old(nodes) && old(nodes)[p].Dir?
              then !ok && nodes == old(nodes)
              else ok == complete && nodes == old(nodes)[p := File(content)]
    {
      if p in nodes && nodes[p].Dir? { return false; }
      nodes := nodes[p := File(content)];
      ok := complete;
    }

    /** What either loop does with an entry whose target passed the guard. */
    method WriteEntry(target: Path, header: TarEntry) returns (ok: bool)
      requires target.comps != []
      modifies this
      ensures Outcome(nodes, ok) == Apply(old(nodes), WriteFor(target, header))
    {
      match header.kind {
        case Directory =>
          ok := MakeDirs(target);
        case Regular =>
          ok := MakeDirs(Parent(target));
          if ok { ok := ExtractFile(target, header.content, header.complete); }
        case Other =>
          ok := true;
      }
    }

    /** What either loop does with an entry it has read a name from. */
    method ExtractEntry(dest: string, name: string, header: TarEntry) returns (ok: bool)
      modifies this
      ensures Outcome(nodes, ok) == Apply(old(nodes), PlanAt(dest, name, header))
    {
      var target := JoinPath(dest, name);
      if !PrefixGuard(target, dest) { return true; }
      TargetHasComponents(dest, name);
      ok := WriteEntry(Resolve(target), header);
    }

    method ExtractTar(dest: string, s: Stream) returns (ok: bool)
      requires dest != ""
      modifies this
      ensures Outcome(nodes, ok) == ExtractAll(old(nodes), dest, Kubernetes, s)
    {
      ghost var plans := Plans(dest, Kubernetes, s.entries);
      var i := 0;
      while i < |s.entries|
        invariant 0 <= i <= |s.entries|
        invariant ApplyAll(old(nodes), plans) == ApplyAll(nodes, plans[i..])
      {
        var header := s.entries[i];
        DropOne(plans, i);
        i := i + 1;
        var name := header.name;
        if name == "" || name == "." { continue; }
        var written := ExtractEntry(dest, name, header);
        if !written { return false; }
      }
      assert plans[i..] == [];
      ok := s.readable;
    }

    /** The name without its first component; entries of the copied directory itself have none left. */
    method ReadName(header: TarEntry) returns (name: Option<string>)
      ensures name == EntryName(Docker, header.name)
    {
      if '/' !in header.name { return None; }
      var rest := header.name[IndexOf(header.name, '/') + 1..];
      name := if rest == "" then None else Some(rest);
    }

    /** One round of the Docker loop. */
    method CopyEntry(dest: string, header: TarEntry) returns (ok: bool)
      modifies this
      ensures Outcome(nodes, ok) == Apply(old(nodes), Plan(dest, Docker, header))
    {
      var name := ReadName(header);
      if name.None? { return true; }
      ok := ExtractEntry(dest, name.value, header);
    }

    method CopyFromContainer(dest: string, s: Stream) returns (ok: bool)
      requires dest != ""
      modifies this
      ensures Outcome(nodes, ok) == ExtractAll(old(nodes), dest, Docker, s)
    {
      ghost var plans := Plans(dest, Docker, s.entries);
      var i := 0;
      while i < |s.entries|
        invariant 0 <= i <= |s.entries|
        invariant ApplyAll(old(nodes), plans) == ApplyAll(nodes, plans[i..])
      {
        var header := s.entries[i];
        DropOne(plans, i);
        i := i + 1;
        var written := CopyEntry(dest, header);
        if !written { return false; }
      }
      assert plans[i..] == [];
      ok := s.readable;
    }
  }

  lemma TargetHasComponents(dest: string, name: string)
    requires Accepted(dest, name)
    ensures Target(dest, name).comps != []
  {
    AcceptedMeaning(dest, name);
  }

  // ----- one write -----

  /** The directories a write creates on demand, and the file it leaves. */
  function Needs(w: Write): set<Path> {
    match w
    case Skip => {}
    case MakeDir(p) => DirsOf(p)
    case MakeFile(p, _, _) => if p.comps == [] then {} else DirsOf(Parent(p))
  }

  function Leaves(w: Write): set<Path> {
    match w
    case MakeFile(p, _, _) => {p}
    case _ => {}
  }

  /** Planned writes have a target below the root, so a file has a parent. */
  predicate Proper(w: Write) {
    w.Skip? || w.path.comps != []
  }

  function AddDirs(t: Tree, dirs: set<Path>): Tree {
    map k | k in t.Keys + dirs :: if k in t then t[k] else Dir
  }

  lemma DirsOfParent(p: Path)
    requires p.comps != []
    ensures DirsOf(p) == DirsOf(Parent(p)) + {p}
    ensures p !in DirsOf(Parent(p))
  {
    var n := |p.comps|;
    assert p.comps[..n] == p.comps;
    forall i | 1 <= i < n ensures p.comps[..i] == Parent(p).comps[..i] {}
    forall k | k in DirsOf(p) ensures k in DirsOf(Parent(p)) + {p} {
      var i :| 1 <= i <= n && k == Path(p.rooted, p.comps[..i]);
      if i < n { assert k == Path(p.rooted, Parent(p).comps[..i]); }
    }
    forall k | k in DirsOf(Parent(p)) ensures k in DirsOf(p) {
      var i :| 1 <= i <= n - 1 && k == Path(p.rooted, Parent(p).comps[..i]);
      assert k == Path(p.rooted, p.comps[..i]);
    }
  }

  lemma {:induction false} MkdirAllSpec(t: Tree, p: Path)
    ensures MkdirAll(t, p).Some? <==> DirsOf(p) !! FilesIn(t)
    ensures MkdirAll(t, p).Some? ==> MkdirAll(t, p).value == AddDirs(t, DirsOf(p))
    decreases |p.comps|
  {
    if p.comps == [] {
      assert DirsOf(p) == {};
    } else {
      MkdirAllSpec(t, Parent(p));
      DirsOfParent(p);
    }
  }

  /** When one write succeeds, and what it then leaves. */
  lemma ApplySpec(t: Tree, w: Write)
    requires Proper(w)
    ensures Apply(t, w).ok <==>
            Needs(w) !! FilesIn(t) && Leaves(w) !! DirsIn(t) && (w.MakeFile? ==> w.complete)
    ensures Apply(t, w).ok ==>
            Apply(t, w).tree == if w.MakeFile? then AddDirs(t, Needs(w))[w.path := File(w.content)]
                                else AddDirs(t, Needs(w))
  {
    match w
    case Skip =>
      assert AddDirs(t, {}) == t;
    case MakeDir(p) =>
      MkdirAllSpec(t, p);
    case MakeFile(p, content, complete) =>
      MkdirAllSpec(t, Parent(p));
      DirsOfParent(p);
  }

  // ----- a whole stream -----

  /** A failure is that of one write, before which all succeeded and after which nothing is written. */
  lemma {:induction false} StopsAtFirst(t: Tree, ws: seq<Write>) returns (i: nat)
    requires !ApplyAll(t, ws).ok
    ensures i < |ws| && ApplyAll(t, ws[..i]).ok && !Apply(ApplyAll(t, ws[..i]).tree, ws[i]).ok
    ensures ApplyAll(t, ws) == Apply(ApplyAll(t, ws[..i]).tree, ws[i])
    decreases ws
  {
    var o := Apply(t, ws[0]);
    if o.ok {
      var k := StopsAtFirst(o.tree, ws[1..]);
      i := k + 1;
      assert ws[..i][0] == ws[0] && ws[..i][1..] == ws[1..][..k];
    } else {
      i := 0;
      assert ws[..0] == [];
    }
  }

  function AllNeeds(ws: seq<Write>): set<Path> {
    set w, k | w in ws && k in Needs(w) :: k
  }

  function AllLeaves(ws: seq<Write>): set<Path> {
    set w, k | w in ws && k in Leaves(w) :: k
  }

  /** No directory is needed where a file is, and no file is written over a directory. */
  predicate NoClash(t: Tree, ws: seq<Write>) {
    Compatible(AllNeeds(ws), AllLeaves(ws), FilesIn(t), DirsIn(t)) && AllComplete(ws)
  }

  predicate Compatible(needs: set<Path>, leaves: set<Path>, files: set<Path>, dirs: set<Path>) {
    needs !! leaves + files && leaves !! dirs
  }

  predicate AllComplete(ws: seq<Write>) {
    forall w | w in ws && w.MakeFile? :: w.complete
  }

  predicate AllProper(ws: seq<Write>) {
    forall w | w in ws :: Proper(w)
  }

  lemma ConsSets(ws: seq<Write>)
    requires ws != []
    ensures AllNeeds(ws) == Needs(ws[0]) + AllNeeds(ws[1..])
    ensures AllLeaves(ws) == Leaves(ws[0]) + AllLeaves(ws[1..])
  {
    assert forall w :: w in ws <==> w == ws[0] || w in ws[1..];
  }

  lemma ApplySets(t: Tree, w: Write)
    requires Proper(w) && Apply(t, w).ok
    ensures FilesIn(Apply(t, w).tree) == FilesIn(t) + Leaves(w)
    ensures DirsIn(Apply(t, w).tree) == DirsIn(t) + Needs(w)
  {
    ApplySpec(t, w);
    if w.MakeFile? { DirsOfParent(w.path); }
  }

  lemma CompatibleStep(n: set<Path>, l: set<Path>, ns: set<Path>, ls: set<Path>, files: set<Path>, dirs: set<Path>)
    requires n !! l
    ensures Compatible(n + ns, l + ls, files, dirs)
       <==> Compatible(n, l, files, dirs) && Compatible(ns, ls, files + l, dirs + n)
  {
  }

  lemma ClashStep(t: Tree, ws: seq<Write>)
    requires AllProper(ws) && ws != []
    ensures NoClash(t, ws) <==> Apply(t, ws[0]).ok && NoClash(Apply(t, ws[0]).tree, ws[1..])
  {
    var w, rest := ws[0], ws[1..];
    ConsSets(ws);
    ApplySpec(t, w);
    assert AllComplete(ws) <==> (w.MakeFile? ==> w.complete) && AllComplete(rest) by { assert ws == [w] + rest; }
    if w.MakeFile? { DirsOfParent(w.path); }
    CompatibleStep(Needs(w), Leaves(w), AllNeeds(rest), AllLeaves(rest), FilesIn(t), DirsIn(t));
    if Apply(t, w).ok { ApplySets(t, w); }
  }

  /** A stream extracts without error exactly when nothing clashes: the order plays no part. */
  lemma {:induction false} SucceedsExactly(t: Tree, ws: seq<Write>)
    requires AllProper(ws)
    ensures ApplyAll(t, ws).ok <==> NoClash(t, ws)
    decreases ws
  {
    if ws != [] {
      ClashStep(t, ws);
      SucceedsExactly(Apply(t, ws[0]).tree, ws[1..]);
    }
  }

  /** The content of the last regular entry written to k. */
  function LastFile(ws: seq<Write>, k: Path): Option<Bytes> {
    if ws == [] then None
    else
      var w := ws[|ws| - 1];
      if w.MakeFile? && w.path == k then Some(w.content) else LastFile(ws[..|ws| - 1], k)
  }

  /** What the disk should hold at k after the stream. */
  function Desired(t: Tree, ws: seq<Write>, k: Path): Option<Node> {
    match LastFile(ws, k)
    case Some(content) => Some(File(content))
    case None =>
      if k in t then Some(t[k])
      else if k in AllNeeds(ws) then Some(Dir)
      else None
  }

  lemma {:induction false} LastFileCons(ws: seq<Write>, k: Path)
    requires ws != []
    ensures LastFile(ws, k) == if LastFile(ws[1..], k).Some? then LastFile(ws[1..], k)
                               else if ws[0].MakeFile? && ws[0].path == k then Some(ws[0].content)
                               else None
    decreases ws
  {
    if |ws| > 1 {
      assert ws[1..][..|ws| - 2] == ws[..|ws| - 1][1..];
      LastFileCons(ws[..|ws| - 1], k);
    }
  }

  /** The tree an error-free stream leaves: last file wins, parents made on demand, the rest kept. */
  lemma {:induction false} ExtractedTree(t: Tree, ws: seq<Write>, k: Path)
    requires AllProper(ws) && ApplyAll(t, ws).ok
    ensures Get(ApplyAll(t, ws).tree, k) == Desired(t, ws, k)
    decreases ws
  {
    if ws != [] {
      var w, rest := ws[0], ws[1..];
      ConsSets(ws);
      ApplySpec(t, w);
      LastFileCons(ws, k);
      ExtractedTree(Apply(t, w).tree, rest, k);
      if w.MakeFile? { DirsOfParent(w.path); }
    }
  }

  lemma {:induction false} LastFileIn(ws: seq<Write>, k: Path)
    ensures LastFile(ws, k).Some? ==>
        exists w :: w in ws && w.MakeFile? && w.path == k && w.content == LastFile(ws, k).value
    ensures LastFile(ws, k).None? ==> forall w | w in ws && w.MakeFile? :: w.path != k
  {
    if ws != [] {
      LastFileIn(ws[..|ws| - 1], k);
      assert ws == ws[..|ws| - 1] + [ws[|ws| - 1]];
    }
  }

  /** Two writes to one file path carry one content. */
  predicate Agreeing(ws: seq<Write>) {
    forall v, w | v in ws && w in ws && v.MakeFile? && w.MakeFile? && v.path == w.path :: v.content == w.content
  }

  /** The same writes in another order: the same success, and the same tree. */
  lemma Reordered(t: Tree, ws: seq<Write>, vs: seq<Write>)
    requires AllProper(ws) && forall w :: w in ws <==> w in vs
    ensures ApplyAll(t, ws).ok == ApplyAll(t, vs).ok
    ensures ApplyAll(t, ws).ok && Agreeing(ws) ==> ApplyAll(t, ws).tree == ApplyAll(t, vs).tree
  {
    SucceedsExactly(t, ws);
    SucceedsExactly(t, vs);
    assert AllNeeds(ws) == AllNeeds(vs) && AllLeaves(ws) == AllLeaves(vs);
    if ApplyAll(t, ws).ok && Agreeing(ws) {
      var a, b := ApplyAll(t, ws).tree, ApplyAll(t, vs).tree;
      forall k ensures Get(a, k) == Get(b, k) {
        ExtractedTree(t, ws, k);
        ExtractedTree(t, vs, k);
        LastFileIn(ws, k);
        LastFileIn(vs, k);
      }
      SameMap(a, b);
    }
  }

  // ----- entries -----

  lemma PlansProper(dest: string, layout: Layout, es: seq<TarEntry>)
    ensures AllProper(Plans(dest, layout, es))
  {
    forall w | w in Plans(dest, layout, es)
      ensures Proper(w)
    {
      var i :| 0 <= i < |es| && w == Plan(dest, layout, es[i]);
      match EntryName(layout, es[i].name)
      case None =>
      case Some(name) => AcceptedMeaning(dest, name);
    }
  }

  /** Any permutation of the entries extracts alike, for either runner. */
  lemma ExtractionConfluence(
      t: Tree, dest: string, layout: Layout, es: seq<TarEntry>, fs: seq<TarEntry>, readable: bool)
    requires multiset(es) == multiset(fs)
    ensures var a := ExtractAll(t, dest, layout, Stream(es, readable));
            var b := ExtractAll(t, dest, layout, Stream(fs, readable));
            a.ok == b.ok && (a.ok && Agreeing(Plans(dest, layout, es)) ==> a.tree == b.tree)
  {
    var ws, vs := Plans(dest, layout, es), Plans(dest, layout, fs);
    forall w ensures w in ws <==> w in vs {
      if w in ws {
        var i :| 0 <= i < |es| && w == ws[i];
        assert es[i] in multiset(fs);
        var j :| 0 <= j < |fs| && fs[j] == es[i];
        assert vs[j] == w;
      }
      if w in vs {
        var i :| 0 <= i < |fs| && w == vs[i];
        assert fs[i] in multiset(es);
        var j :| 0 <= j < |es| && es[j] == fs[i];
        assert ws[j] == w;
      }
    }
    PlansProper(dest, layout, es);
    Reordered(t, ws, vs);
  }

  /** An entry is written exactly when its kind is supported and its target lies below the destination. */
  lemma WrittenExactly(dest: string, layout: Layout, e: TarEntry)
    requires dest != "" && EndsInName(Resolve(dest))
    ensures var name := EntryName(layout, e.name);
            !Plan(dest, layout, e).Skip? <==>
            !e.kind.Other? && name.Some? && StrictlyBelow(Resolve(dest), Target(dest, name.value))
    ensures !Plan(dest, layout, e).Skip? ==> Plan(dest, layout, e).path == Target(dest, EntryName(layout, e.name).value)
  {
    match EntryName(layout, e.name)
    case None =>
    case Some(name) => GuardExact(dest, name);
  }

  /** The destination and its ancestors are directories. */
  predicate DestReady(t: Tree, d: Path) {
    DirsOf(d) <= DirsIn(t)
  }

  /** One write below a ready destination changes nothing that is not below it. */
  lemma WriteContained(t: Tree, d: Path, w: Write, k: Path)
    requires DestReady(t, d) && !w.Skip? && StrictlyBelow(d, w.path) && !StrictlyBelow(d, k)
    ensures Get(Apply(t, w).tree, k) == Get(t, k)
    ensures DestReady(Apply(t, w).tree, d)
  {
    var p := w.path;
    var made := if w.MakeDir? then p else Parent(p);
    MkdirAllSpec(t, made);
    forall q | q in DirsOf(made) && !StrictlyBelow(d, q)
      ensures q in DirsIn(t)
    {
      var i :| 1 <= i <= |made.comps| && q == Path(made.rooted, made.comps[..i]);
      assert q.comps == p.comps[..i];
      AncestorOfBelow(d, p, i);
    }
    forall q | q in DirsOf(d)
      ensures q in Apply(t, w).tree && Apply(t, w).tree[q].Dir?
    {
      assert q in DirsIn(t);
      NotBelow(d, q);
    }
  }

  lemma AncestorOfBelow(d: Path, p: Path, i: nat)
    requires StrictlyBelow(d, p) && 1 <= i <= |p.comps|
    ensures var q := Path(p.rooted, p.comps[..i]); StrictlyBelow(d, q) || q in DirsOf(d)
  {
    var q := Path(p.rooted, p.comps[..i]);
    if i <= |d.comps| {
      assert q == Path(d.rooted, d.comps[..i]) by { assert p.comps[..i] == p.comps[..|d.comps|][..i]; }
    } else {
      assert q.comps[..|d.comps|] == p.comps[..|d.comps|];
      assert forall c | c in q.comps[|d.comps|..] :: c in p.comps[|d.comps|..];
    }
  }

  lemma NotBelow(d: Path, q: Path)
    requires q in DirsOf(d)
    ensures !StrictlyBelow(d, q)
  {
    var i :| 1 <= i <= |d.comps| && q == Path(d.rooted, d.comps[..i]);
  }

  lemma {:induction false} RunContained(t: Tree, d: Path, ws: seq<Write>, k: Path)
    requires DestReady(t, d) && !StrictlyBelow(d, k)
    requires forall w | w in ws :: w.Skip? || StrictlyBelow(d, w.path)
    ensures Get(ApplyAll(t, ws).tree, k) == Get(t, k)
    decreases ws
  {
    if ws != [] {
      var o := Apply(t, ws[0]);
      if !ws[0].Skip? { WriteContained(t, d, ws[0], k); }
      if o.ok { RunContained(o.tree, d, ws[1..], k); }
    }
  }

  /** Whatever the stream holds and however it ends, nothing outside the destination changes. */
  lemma ExtractionContained(t: Tree, dest: string, layout: Layout, s: Stream, k: Path)
    requires dest != "" && EndsInName(Resolve(dest)) && DestReady(t, Resolve(dest))
    requires !StrictlyBelow(Resolve(dest), k)
    ensures Get(ExtractAll(t, dest, layout, s).tree, k) == Get(t, k)
  {
    var d, ws := Resolve(dest), Plans(dest, layout, s.entries);
    forall w | w in ws ensures w.Skip? || StrictlyBelow(d, w.path) {
      var i :| 0 <= i < |s.entries| && w == Plan(dest, layout, s.entries[i]);
      WrittenExactly(dest, layout, s.entries[i]);
    }
    RunContained(t, d, ws, k);
  }

  // ----- the two packings -----

  function Packed(prefix: string, members: seq<TarEntry>): seq<TarEntry> {
    seq(|members|, i requires 0 <= i < |members| => members[i].(name := prefix + "/" + members[i].name))
  }

  /** A leading "." component does not move the target. */
  lemma SameTarget(dest: string, n: string)
    requires dest != ""
    ensures Target(dest, "./" + n) == Target(dest, n)
  {
    assert "./" + n == "." + ['/'] + n;
    SplitHead(".", n, '/');
    assert (["."] + Split(n, '/'))[1..] == Split(n, '/');
    ResolveJoin(dest, "./" + n);
    ResolveJoin(dest, n);
  }

  lemma EmptyNameRejected(dest: string)
    requires dest != ""
    ensures !Accepted(dest, "")
  {
    var d := Resolve(dest);
    assert Split("", '/') == [""];
    assert PushAll(d.rooted, d.comps, [""]) == PushAll(d.rooted, d.comps, []);
    ResolveJoin(dest, "");
    AcceptedMeaning(dest, "");
  }

  lemma EntryNames(root: string, n: string)
    requires '/' !in root
    ensures EntryName(Docker, root + "/" + n) == if n == "" then None else Some(n)
    ensures EntryName(Kubernetes, "./" + n) == Some("./" + n)
  {
    var docker := root + "/" + n;
    assert docker[|root|] == '/' && docker[..|root|] == root && docker[|root| + 1..] == n;
    IndexOfUnique(docker, '/', |root|);
  }

  /** Only the target of a name matters. */
  lemma PlanByTarget(dest: string, a: string, b: string, e: TarEntry, f: TarEntry)
    requires Target(dest, a) == Target(dest, b) && f == e.(name := f.name)
    ensures PlanAt(dest, a, e) == PlanAt(dest, b, f)
  {
    AcceptedMeaning(dest, a);
    AcceptedMeaning(dest, b);
  }

  lemma SamePlan(dest: string, root: string, e: TarEntry)
    requires dest != "" && '/' !in root
    ensures Plan(dest, Docker, e.(name := root + "/" + e.name)) == Plan(dest, Kubernetes, e.(name := "./" + e.name))
  {
    var docker, pod := e.(name := root + "/" + e.name), e.(name := "./" + e.name);
    EntryNames(root, e.name);
    SameTarget(dest, e.name);
    PlanByTarget(dest, "./" + e.name, e.name, pod, docker);
    if e.name == "" { EmptyNameRejected(dest); }
  }

  /** The same members, packed as docker cp packs them or as tar -C packs them, extract alike. */
  lemma RunnersAgree(t: Tree, dest: string, root: string, members: seq<TarEntry>, readable: bool)
    requires dest != "" && '/' !in root
    ensures ExtractAll(t, dest, Docker, Stream(Packed(root, members), readable))
         == ExtractAll(t, dest, Kubernetes, Stream(Packed(".", members), readable))
  {
    forall i | 0 <= i < |members|
      ensures Plans(dest, Docker, Packed(root, members))[i] == Plans(dest, Kubernetes, Packed(".", members))[i]
    {
      SamePlan(dest, root, members[i]);
      assert "." + "/" + members[i].name == "./" + members[i].name;
    }
    assert Plans(dest, Docker, Packed(root, members)) == Plans(dest, Kubernetes, Packed(".", members));
  }
}
