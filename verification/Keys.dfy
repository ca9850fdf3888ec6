/**
 * The names under which one analysis is kept: two store objects, three local files
 * and the runner's result directory.
 */
module Keys {
  import opened Wrappers
  import opened Text
  import opened Paths
  import opened Extract

  predicate HasDots(id: string) {
    exists i | 0 <= i < |id| - 1 :: id[i] == '.' && id[i + 1] == '.'
  }

  /** The check every handler starts with. */
  predicate ValidId(id: string) {
    id != "" && !HasDots(id) && '/' !in id && '\\' !in id
  }

  /** A checked id that also names a directory of its own. */
  predicate PlainId(id: string) {
    ValidId(id) && id != "."
  }

  function ZipKey(id: string): string { "results/" + id + "/result.zip" }

  function ShotKey(id: string): string { "results/" + id + "/screenshot.png" }

  function TempZip(tmp: string, id: string): Path {
    Resolve(JoinPath(tmp, id + ".zip"))
  }

  function CacheZip(tmp: string, id: string): Path {
    Resolve(JoinPath(JoinPath(tmp, "sitespeed-cache"), id + ".zip"))
  }

  function CacheShot(tmp: string, id: string): Path {
    Resolve(JoinPath(JoinPath(tmp, "sitespeed-cache"), id + "-screenshot.png"))
  }

  function ResultDir(base: string, id: string): Path {
    Resolve(JoinPath(base, id))
  }

  lemma LastOf(a: string, b: string)
    requires b != ""
    ensures (a + b)[|a + b| - 1] == b[|b| - 1]
  {
  }

  lemma ZipKeyInjective(a: string, b: string)
    requires ZipKey(a) == ZipKey(b)
    ensures a == b
  {
    var k := ZipKey(a);
    assert |k| == 8 + |a| + 11 == 8 + |b| + 11;
    assert k[8..8 + |a|] == a && k[8..8 + |b|] == b;
  }

  lemma ShotKeyInjective(a: string, b: string)
    requires ShotKey(a) == ShotKey(b)
    ensures a == b
  {
    var k := ShotKey(a);
    assert |k| == 8 + |a| + 15 == 8 + |b| + 15;
    assert k[8..8 + |a|] == a && k[8..8 + |b|] == b;
  }

  lemma ZipIsNoShot(a: string, b: string)
    ensures ZipKey(a) != ShotKey(b)
  {
    LastOf("results/" + a, "/result.zip");
    LastOf("results/" + b, "/screenshot.png");
    assert "/result.zip"[10] == 'p' && "/screenshot.png"[14] == 'g';
  }

  /** A file name made of an id and an extension. */
  lemma IsFileName(id: string, ext: string)
    requires ValidId(id) && |ext| >= 3 && '/' !in ext
    ensures IsName(id + ext)
  {
    assert |id + ext| > 3;
  }

  lemma SuffixCancels(a: string, b: string, ext: string)
    requires a + ext == b + ext
    ensures a == b
  {
    assert a == (a + ext)[..|a|] && b == (b + ext)[..|b|];
  }

  lemma FileComps(tmp: string, id: string)
    requires ValidId(id)
    ensures var t := Resolve(tmp);
      && TempZip(tmp, id) == Path(t.rooted, t.comps + [id + ".zip"])
      && CacheZip(tmp, id) == Path(t.rooted, t.comps + ["sitespeed-cache"] + [id + ".zip"])
      && CacheShot(tmp, id) == Path(t.rooted, t.comps + ["sitespeed-cache"] + [id + "-screenshot.png"])
  {
    IsFileName(id, ".zip");
    IsFileName(id, "-screenshot.png");
    ResolveJoinName(tmp, id + ".zip");
    ResolveJoinName(tmp, "sitespeed-cache");
    ResolveJoinName(JoinPath(tmp, "sitespeed-cache"), id + ".zip");
    ResolveJoinName(JoinPath(tmp, "sitespeed-cache"), id + "-screenshot.png");
  }

  lemma LastComp(p: seq<string>, q: seq<string>, a: string, b: string)
    requires p + [a] == q + [b]
    ensures a == b && p == q
  {
    assert (p + [a])[|p|] == a && (q + [b])[|q|] == b;
    assert p == (p + [a])[..|p|] && q == (q + [b])[..|q|];
  }

  /** The local files of all ids are told apart by kind and by id. */
  lemma FilesDistinct(tmp: string, a: string, b: string)
    requires ValidId(a) && ValidId(b)
    ensures TempZip(tmp, a) != CacheZip(tmp, b) && TempZip(tmp, a) != CacheShot(tmp, b)
    ensures CacheZip(tmp, a) != CacheShot(tmp, b)
    ensures TempZip(tmp, a) == TempZip(tmp, b) ==> a == b
    ensures CacheZip(tmp, a) == CacheZip(tmp, b) ==> a == b
    ensures CacheShot(tmp, a) == CacheShot(tmp, b) ==> a == b
  {
    FileComps(tmp, a);
    FileComps(tmp, b);
    var t := Resolve(tmp).comps;
    LastOf(a, ".zip");
    LastOf(b, "-screenshot.png");
    assert ".zip"[3] == 'p' && "-screenshot.png"[14] == 'g';
    if CacheZip(tmp, a) == CacheShot(tmp, b) {
      LastComp(t + ["sitespeed-cache"], t + ["sitespeed-cache"], a + ".zip", b + "-screenshot.png");
    }
    if TempZip(tmp, a) == TempZip(tmp, b) {
      LastComp(t, t, a + ".zip", b + ".zip");
      SuffixCancels(a, b, ".zip");
    }
    if CacheZip(tmp, a) == CacheZip(tmp, b) {
      LastComp(t + ["sitespeed-cache"], t + ["sitespeed-cache"], a + ".zip", b + ".zip");
      SuffixCancels(a, b, ".zip");
    }
    if CacheShot(tmp, a) == CacheShot(tmp, b) {
      LastComp(t + ["sitespeed-cache"], t + ["sitespeed-cache"], a + "-screenshot.png", b + "-screenshot.png");
      SuffixCancels(a, b, "-screenshot.png");
    }
  }

  lemma PlainIsName(id: string)
    requires PlainId(id)
    ensures IsName(id)
  {
    assert HasDots("..") by { assert ".."[0] == '.' && ".."[1] == '.'; }
  }

  /** The destination a runner extracts into is always one the traversal guard is exact for. */
  lemma ResultDirEndsInName(base: string, id: string)
    requires PlainId(id)
    ensures ResultDir(base, id) == Path(Resolve(base).rooted, Resolve(base).comps + [id])
    ensures JoinPath(base, id) != "" && EndsInName(ResultDir(base, id))
  {
    PlainIsName(id);
    ResolveJoinName(base, id);
    assert Resolve("") == Path(false, []) by {
      assert Split("", '/') == [""];
      assert PushAll(false, [], [""]) == PushAll(false, [], []);
    }
  }

  lemma ResultDirInjective(base: string, a: string, b: string)
    requires PlainId(a) && PlainId(b) && ResultDir(base, a) == ResultDir(base, b)
    ensures a == b
  {
    ResultDirEndsInName(base, a);
    ResultDirEndsInName(base, b);
    LastComp(Resolve(base).comps, Resolve(base).comps, a, b);
  }

  /** p is q or lies above it: removing p removes q. */
  predicate Covers(p: Path, q: Path) {
    p.rooted == q.rooted && |p.comps| <= |q.comps| && q.comps[..|p.comps|] == p.comps
  }

  /** Neither path is, or lies below, the other. */
  predicate Aside(p: Path, q: Path) {
    !Covers(p, q) && !Covers(q, p)
  }

  /** The four local paths of an id: two kinds of zip, the screenshot, the result directory. */
  datatype Locals = Locals(temp: Path, cachedZip: Path, cachedShot: Path, dir: Path)

  function LocalsOf(tmp: string, base: string, id: string): Locals {
    Locals(TempZip(tmp, id), CacheZip(tmp, id), CacheShot(tmp, id), ResultDir(base, id))
  }

  predicate FilesAside(l: Locals, p: Path) {
    Aside(l.temp, p) && Aside(l.cachedZip, p) && Aside(l.cachedShot, p)
  }

  /** No path of the one is, or contains, a path of the other. */
  predicate LocalsAside(l: Locals, m: Locals) {
    && FilesAside(l, m.temp) && FilesAside(l, m.cachedZip) && FilesAside(l, m.cachedShot)
    && FilesAside(l, m.dir) && FilesAside(m, l.dir) && Aside(l.dir, m.dir)
  }

  /** The paths of one id are apart from each other. */
  predicate SelfAside(l: Locals) {
    && Aside(l.temp, l.cachedZip) && Aside(l.temp, l.cachedShot) && Aside(l.cachedZip, l.cachedShot)
    && FilesAside(l, l.dir)
  }

  // ----- children of directories -----

  function Child(p: Path, c: string): Path {
    Path(p.rooted, p.comps + [c])
  }

  /** q lies below p, by way of the child c. */
  predicate Through(p: Path, q: Path, c: string) {
    Covers(p, q) && |p.comps| < |q.comps| && q.comps[|p.comps|] == c
  }

  lemma ChildCovers(p: Path, c: string, q: Path)
    ensures Covers(Child(p, c), q) <==> Through(p, q, c)
  {
    if Through(p, q, c) {
      assert q.comps[..|p.comps| + 1] == q.comps[..|p.comps|] + [q.comps[|p.comps|]];
    }
    if Covers(Child(p, c), q) {
      assert q.comps[..|p.comps|] == q.comps[..|p.comps| + 1][..|p.comps|] == p.comps;
      assert q.comps[|p.comps|] == q.comps[..|p.comps| + 1][|p.comps|];
    }
  }

  lemma ChildInjective(p: Path, c: string, q: Path, d: string)
    requires Child(p, c) == Child(q, d)
    ensures p == q && c == d
  {
    LastComp(p.comps, q.comps, c, d);
  }

  /** Two children of directories, wherever these are: the exact condition for being apart. */
  lemma ChildrenAside(p: Path, c: string, q: Path, d: string)
    ensures Aside(Child(p, c), Child(q, d)) <==> !Through(p, q, c) && !Through(q, p, d) && !(p == q && c == d)
  {
    ChildUnder(p, c, q, d);
    ChildUnder(q, d, p, c);
  }

  lemma ChildUnder(p: Path, c: string, q: Path, d: string)
    ensures Covers(Child(p, c), Child(q, d)) <==> Through(p, q, c) || (p == q && c == d)
  {
    ChildCovers(p, c, Child(q, d));
    var k := Child(q, d);
    if |p.comps| < |q.comps| {
      assert k.comps[..|p.comps|] == q.comps[..|p.comps|];
    } else if |p.comps| == |q.comps| {
      assert k.comps[..|p.comps|] == q.comps == q.comps[..|q.comps|];
    }
  }

  // ----- the exact condition on the two directories -----

  predicate ZipName(n: string) {
    HasSuffix(n, ".zip") && PlainId(n[..|n| - 4])
  }

  predicate ShotName(n: string) {
    HasSuffix(n, "-screenshot.png") && PlainId(n[..|n| - 15])
  }

  /**
   * The base directory b of the results is neither the temporary directory t nor its cache
   * directory, does not lie below anything named as the files there are, and t does not lie
   * below a directory that an id could name.
   */
  predicate BaseClear(t: Path, b: Path, cache: string) {
    && b != t && b != Child(t, cache)
    && !(Covers(b, t) && |b.comps| < |t.comps| && PlainId(t.comps[|b.comps|]))
    && !(Covers(t, b) && |t.comps| < |b.comps| && ZipName(b.comps[|t.comps|]))
    && !(Covers(Child(t, cache), b) && |t.comps| + 1 < |b.comps|
         && (ZipName(b.comps[|t.comps| + 1]) || ShotName(b.comps[|t.comps| + 1])))
  }

  const CACHE: string := "sitespeed-cache"

  /** The paths of an id, with the names of its files as parameters. */
  function LaidOut(t: Path, b: Path, cache: string, zip: string, shot: string, id: string): Locals {
    Locals(Child(t, zip), Child(Child(t, cache), zip), Child(Child(t, cache), shot), Child(b, id))
  }

  lemma LocalsLaidOut(tmp: string, base: string, id: string)
    requires PlainId(id)
    ensures LocalsOf(tmp, base, id)
         == LaidOut(Resolve(tmp), Resolve(base), CACHE, id + ".zip", id + "-screenshot.png", id)
  {
    FileComps(tmp, id);
    ResultDirEndsInName(base, id);
  }

  /** A directory and a file, for any two ids or one. */
  lemma DirAside(t: Path, b: Path, cache: string, zip: string, shot: string, id: string)
    requires BaseClear(t, b, cache) && PlainId(id) && ZipName(zip) && ShotName(shot)
    ensures Aside(Child(t, zip), Child(b, id))
    ensures Aside(Child(Child(t, cache), zip), Child(b, id))
    ensures Aside(Child(Child(t, cache), shot), Child(b, id))
  {
    ChildrenAside(t, zip, b, id);
    ChildrenAside(Child(t, cache), zip, b, id);
    ChildrenAside(Child(t, cache), shot, b, id);
    ChildUnderDir(b, t, cache, id);
  }

  lemma ChildUnderDir(b: Path, t: Path, cache: string, id: string)
    ensures Through(b, Child(t, cache), id) ==> Through(b, t, id) || b == t
  {
    if Through(b, Child(t, cache), id) && |b.comps| <= |t.comps| {
      assert Child(t, cache).comps[..|b.comps|] == t.comps[..|b.comps|];
      assert t.comps[..|t.comps|] == t.comps;
    }
  }

  /** Files of the cache and of the temporary directory. */
  lemma FilesApart(t: Path, cache: string, zipA: string, shotA: string, zipB: string, shotB: string)
    requires zipA != cache && zipB != cache
    ensures Aside(Child(t, zipA), Child(Child(t, cache), zipB))
    ensures Aside(Child(t, zipA), Child(Child(t, cache), shotB))
    ensures zipA != zipB ==> Aside(Child(t, zipA), Child(t, zipB))
    ensures zipA != zipB ==> Aside(Child(Child(t, cache), zipA), Child(Child(t, cache), zipB))
    ensures zipA != shotB ==> Aside(Child(Child(t, cache), zipA), Child(Child(t, cache), shotB))
    ensures shotA != shotB ==> Aside(Child(Child(t, cache), shotA), Child(Child(t, cache), shotB))
  {
    var c := Child(t, cache);
    ChildrenAside(t, zipA, c, zipB);
    ChildrenAside(t, zipA, c, shotB);
    ChildrenAside(t, zipA, t, zipB);
    ChildrenAside(c, zipA, c, zipB);
    ChildrenAside(c, zipA, c, shotB);
    ChildrenAside(c, shotA, c, shotB);
    assert c.comps[|t.comps|] == cache;
  }

  lemma LaidOutApart(
      t: Path, b: Path, cache: string, zipA: string, shotA: string, idA: string, zipB: string, shotB: string,
      idB: string)
    requires BaseClear(t, b, cache) && PlainId(idA) && PlainId(idB) && idA != idB
    requires ZipName(zipA) && ShotName(shotA) && ZipName(zipB) && ShotName(shotB)
    requires zipA != zipB && shotA != shotB && zipA != shotB && zipB != shotA && zipA != cache && zipB != cache
    ensures LocalsAside(LaidOut(t, b, cache, zipA, shotA, idA), LaidOut(t, b, cache, zipB, shotB, idB))
  {
    FilesApart(t, cache, zipA, shotA, zipB, shotB);
    FilesApart(t, cache, zipB, shotB, zipA, shotA);
    DirAside(t, b, cache, zipA, shotA, idB);
    DirAside(t, b, cache, zipB, shotB, idA);
    ChildrenAside(b, idA, b, idB);
  }

  lemma FileNames(id: string)
    requires PlainId(id)
    ensures ZipName(id + ".zip") && ShotName(id + "-screenshot.png")
    ensures id + ".zip" != CACHE && id + ".zip" != id + "-screenshot.png"
  {
    assert (id + ".zip")[..|id|] == id && (id + ".zip")[|id|..] == ".zip";
    assert (id + "-screenshot.png")[..|id|] == id && (id + "-screenshot.png")[|id|..] == "-screenshot.png";
    ZipEnding(id);
    LastOf(id, ".zip");
    LastOf(id, "-screenshot.png");
    assert ".zip"[3] == 'p' && "-screenshot.png"[14] == 'g';
  }

  lemma ClearApart(tmp: string, base: string, a: string, b: string)
    requires BaseClear(Resolve(tmp), Resolve(base), CACHE) && PlainId(a) && PlainId(b) && a != b
    ensures LocalsAside(LocalsOf(tmp, base, a), LocalsOf(tmp, base, b))
  {
    LocalsLaidOut(tmp, base, a);
    LocalsLaidOut(tmp, base, b);
    FileNames(a);
    FileNames(b);
    NamesDiffer(a, b);
    LaidOutApart(Resolve(tmp), Resolve(base), CACHE, a + ".zip", a + "-screenshot.png", a, b + ".zip",
        b + "-screenshot.png", b);
  }

  /** The same condition keeps the four paths of one id apart. */
  lemma ClearSelf(tmp: string, base: string, id: string)
    requires BaseClear(Resolve(tmp), Resolve(base), CACHE) && PlainId(id)
    ensures SelfAside(LocalsOf(tmp, base, id))
  {
    LocalsLaidOut(tmp, base, id);
    FileNames(id);
    var zip, shot := id + ".zip", id + "-screenshot.png";
    FilesApart(Resolve(tmp), CACHE, zip, shot, zip, shot);
    DirAside(Resolve(tmp), Resolve(base), CACHE, zip, shot, id);
  }

  ghost predicate AllApart(tmp: string, base: string) {
    forall a, b | PlainId(a) && PlainId(b) && a != b :: LocalsAside(LocalsOf(tmp, base, a), LocalsOf(tmp, base, b))
  }

  /** Two ids of which one is not the given one. */
  lemma Another(id: string) returns (other: string)
    ensures PlainId(other) && other != id
  {
    other := if id == "a" then "b" else "a";
    assert |other| == 1;
  }

  /** The zip name of an id, where it is an id itself. */
  lemma ZipAsId()
    ensures PlainId("a") && PlainId("a.zip") && "a.zip" == "a" + ".zip" && "a" != "a.zip"
  {
    var s := "a.zip";
    assert s[0] == 'a' && s[1] == '.' && s[2] == 'z' && s[3] == 'i' && s[4] == 'p';
  }

  /** How the directory of the id a can meet a file of another id. */
  predicate MeetsFile(t: Path, b: Path, cache: string, zip: string, shot: string, a: string) {
    || Through(b, t, a) || (b == t && a == zip) || (b == Child(t, cache) && a == zip)
    || Through(t, b, zip) || Through(Child(t, cache), b, zip) || Through(Child(t, cache), b, shot)
  }

  lemma LaidOutMeet(
      t: Path, b: Path, cache: string, zipA: string, shotA: string, a: string, zip: string, shot: string, id: string)
    requires MeetsFile(t, b, cache, zip, shot, a)
    ensures !LocalsAside(LaidOut(t, b, cache, zipA, shotA, a), LaidOut(t, b, cache, zip, shot, id))
  {
    ChildrenAside(t, zip, b, a);
    ChildrenAside(Child(t, cache), zip, b, a);
    ChildrenAside(Child(t, cache), shot, b, a);
  }

  lemma LocalsMeet(tmp: string, base: string, a: string, b: string)
    requires PlainId(a) && PlainId(b)
    requires MeetsFile(Resolve(tmp), Resolve(base), CACHE, b + ".zip", b + "-screenshot.png", a)
    ensures !LocalsAside(LocalsOf(tmp, base, a), LocalsOf(tmp, base, b))
  {
    LocalsLaidOut(tmp, base, a);
    LocalsLaidOut(tmp, base, b);
    LaidOutMeet(Resolve(tmp), Resolve(base), CACHE, a + ".zip", a + "-screenshot.png", a, b + ".zip",
        b + "-screenshot.png", b);
  }

  /** Where the condition fails, one id's directory meets a file of another id. */
  lemma UnclearMeets(t: Path, d: Path, cache: string) returns (a: string, b: string)
    requires !BaseClear(t, d, cache)
    ensures PlainId(a) && PlainId(b) && a != b && MeetsFile(t, d, cache, b + ".zip", b + "-screenshot.png", a)
  {
    if d == t || d == Child(t, cache) {
      a, b := "a.zip", "a";
      ZipAsId();
    } else if Covers(d, t) && |d.comps| < |t.comps| && PlainId(t.comps[|d.comps|]) {
      a := t.comps[|d.comps|];
      b := Another(a);
    } else if Covers(t, d) && |t.comps| < |d.comps| && ZipName(d.comps[|t.comps|]) {
      b := Stem(d.comps[|t.comps|], ".zip");
      a := Another(b);
    } else {
      var n := d.comps[|t.comps| + 1];
      if ZipName(n) { b := Stem(n, ".zip"); } else { b := Stem(n, "-screenshot.png"); }
      a := Another(b);
    }
  }

  lemma Stem(n: string, ext: string) returns (stem: string)
    requires HasSuffix(n, ext)
    ensures stem == n[..|n| - |ext|] && n == stem + ext
  {
    stem := n[..|n| - |ext|];
  }

  /**
   * The local paths of all ids are apart if and only if the base directory is clear of the
   * temporary directory.
   */
  lemma FootprintsApartExactly(tmp: string, base: string)
    ensures AllApart(tmp, base) <==> BaseClear(Resolve(tmp), Resolve(base), CACHE)
  {
    if BaseClear(Resolve(tmp), Resolve(base), CACHE) {
      forall a, b | PlainId(a) && PlainId(b) && a != b
        ensures LocalsAside(LocalsOf(tmp, base, a), LocalsOf(tmp, base, b))
      {
        ClearApart(tmp, base, a, b);
      }
    } else {
      var a, b := UnclearMeets(Resolve(tmp), Resolve(base), CACHE);
      LocalsMeet(tmp, base, a, b);
    }
  }

  /** A directory of its own below the temporary directory is clear: the default is of this form. */
  lemma SubdirectoryClear(tmp: string, results: string)
    requires IsName(results) && results != CACHE && !HasSuffix(results, ".zip")
    ensures BaseClear(Resolve(tmp), Resolve(JoinPath(tmp, results)), CACHE)
  {
    ResolveJoinName(tmp, results);
    var t := Resolve(tmp);
    assert Resolve(JoinPath(tmp, results)) == Child(t, results);
    if Child(t, results) == Child(t, CACHE) { ChildInjective(t, results, t, CACHE); }
    assert !ZipName(results);
  }

  lemma ZipEnding(s: string)
    ensures HasSuffix(s + ".zip", ".zip") && !HasSuffix(CACHE, ".zip")
  {
    assert (s + ".zip")[|s|..] == ".zip";
    var cache := CACHE;
    assert cache[11..][3] == cache[14] == 'e' && ".zip"[3] == 'p';
  }

  /** The names that different ids give their files, told apart by their endings. */
  lemma NamesDiffer(a: string, b: string)
    requires a != b
    ensures a + ".zip" != b + ".zip" && a + "-screenshot.png" != b + "-screenshot.png"
    ensures a + ".zip" != b + "-screenshot.png" && a + "-screenshot.png" != b + ".zip"
  {
    if a + ".zip" == b + ".zip" { SuffixCancels(a, b, ".zip"); }
    if a + "-screenshot.png" == b + "-screenshot.png" { SuffixCancels(a, b, "-screenshot.png"); }
    LastOf(a, ".zip");
    LastOf(b, ".zip");
    LastOf(a, "-screenshot.png");
    LastOf(b, "-screenshot.png");
    assert ".zip"[3] == 'p' && "-screenshot.png"[14] == 'g';
  }

  /** With one directory for both, the paths of a single id are still apart. */
  lemma EqualSelf(tmp: string, id: string)
    requires PlainId(id) && id != CACHE
    ensures SelfAside(LocalsOf(tmp, tmp, id))
  {
    var t, zip, shot := Resolve(tmp), id + ".zip", id + "-screenshot.png";
    LocalsLaidOut(tmp, tmp, id);
    FileNames(id);
    FilesApart(t, CACHE, zip, shot, zip, shot);
    ChildrenAside(t, zip, t, id);
    ChildrenAside(Child(t, CACHE), zip, t, id);
    ChildrenAside(Child(t, CACHE), shot, t, id);
    assert Child(t, CACHE).comps[|t.comps|] == CACHE;
  }

  /** With one directory for both, the zip of an id is at the result directory of another. */
  lemma ZipAtResultDir(tmp: string, id: string, other: string)
    requires other == id + ".zip"
    ensures LocalsOf(tmp, tmp, id).temp == LocalsOf(tmp, tmp, other).dir
  {
  }

  /** The id "." passes the check, and its result directory covers everyone else's. */
  lemma DotIdCoversOthers(base: string, id: string)
    requires base != "" && PlainId(id)
    ensures ValidId(".") && Covers(ResultDir(base, "."), ResultDir(base, id))
    ensures ResultDir(base, id) == Child(ResultDir(base, "."), id)
    ensures forall tmp :: LocalsOf(tmp, base, id).dir == Child(LocalsOf(tmp, base, ".").dir, id)
  {
    ResultDirEndsInName(base, id);
    var b := Resolve(base);
    ResolveJoin(base, ".");
    assert Split(".", '/') == ["."];
    assert PushAll(b.rooted, b.comps, ["."]) == PushAll(b.rooted, b.comps, []);
  }
}
