/**
 * Lexical paths as Go's path/filepath treats them on Unix.
 *
 * A path text is read as a list of components; Clean resolves the components and
 * Render writes the result back. The extractors decide what to write by comparing
 * rendered texts, so the lemmas below say what that text comparison means.
 */
module Paths {
  import opened Text

  datatype Path = Path(rooted: bool, comps: seq<string>)

  /** A name that can stand for one directory entry. */
  predicate IsName(c: string) {
    c != "" && c != "." && c != ".." && '/' !in c
  }

  /** What Clean produces: names, with ".." only at the front of a relative path. */
  predicate Canonical(rooted: bool, comps: seq<string>) {
    forall i | 0 <= i < |comps| ::
      IsName(comps[i]) || (comps[i] == ".." && !rooted && forall j | 0 <= j < i :: comps[j] == "..")
  }

  predicate IsCanonical(p: Path) {
    Canonical(p.rooted, p.comps)
  }

  /** Resolves one more component after those already resolved. */
  function Push(rooted: bool, comps: seq<string>, c: string): seq<string> {
    if c == "" || c == "." then comps
    else if c == ".." then
      if comps != [] && comps[|comps| - 1] != ".." then comps[..|comps| - 1]
      else if rooted then comps
      else comps + [".."]
    else comps + [c]
  }

  function PushAll(rooted: bool, comps: seq<string>, parts: seq<string>): seq<string>
    decreases parts
  {
    if parts == [] then comps
    else PushAll(rooted, Push(rooted, comps, parts[0]), parts[1..])
  }

  predicate IsRooted(s: string) {
    s != "" && s[0] == '/'
  }

  /** The components filepath.Clean resolves a text to. */
  function Resolve(s: string): Path {
    Path(IsRooted(s), PushAll(IsRooted(s), [], Split(s, '/')))
  }

  function Render(p: Path): string {
    if p.rooted then "/" + Join(p.comps, '/')
    else if p.comps == [] then "."
    else Join(p.comps, '/')
  }

  /** filepath.Clean */
  function Clean(s: string): string {
    Render(Resolve(s))
  }

  /** filepath.Join of two elements: empty elements are ignored. */
  function JoinPath(dir: string, name: string): string {
    if dir == "" && name == "" then ""
    else if dir == "" then Clean(name)
    else Clean(dir + "/" + name)
  }

  // ----- Clean -----

  lemma PushCanonical(rooted: bool, comps: seq<string>, c: string)
    requires Canonical(rooted, comps) && '/' !in c
    ensures Canonical(rooted, Push(rooted, comps, c))
  {
    var r := Push(rooted, comps, c);
    forall i | 0 <= i < |r|
      ensures IsName(r[i]) || (r[i] == ".." && !rooted && forall j | 0 <= j < i :: r[j] == "..")
    {
      if i < |comps| {
        assert r[i] == comps[i];
      } else if c == ".." && comps != [] {
        DotsBeforeDots(rooted, comps);
      }
    }
  }

  /** If the last component is "..", so are all the others. */
  lemma DotsBeforeDots(rooted: bool, comps: seq<string>)
    requires Canonical(rooted, comps)
    requires comps != [] && comps[|comps| - 1] == ".."
    ensures !rooted && forall j | 0 <= j < |comps| :: comps[j] == ".."
  {
    assert !IsName(comps[|comps| - 1]);
  }

  lemma {:induction false} PushAllCanonical(rooted: bool, comps: seq<string>, parts: seq<string>)
    requires Canonical(rooted, comps)
    requires forall p | p in parts :: '/' !in p
    ensures Canonical(rooted, PushAll(rooted, comps, parts))
    decreases parts
  {
    if parts != [] {
      PushCanonical(rooted, comps, parts[0]);
      PushAllCanonical(rooted, Push(rooted, comps, parts[0]), parts[1..]);
    }
  }

  lemma {:induction false} PushAllAppend(rooted: bool, comps: seq<string>, a: seq<string>, b: seq<string>)
    ensures PushAll(rooted, comps, a + b) == PushAll(rooted, PushAll(rooted, comps, a), b)
    decreases a
  {
    if a == [] {
      assert a + b == b;
    } else {
      assert (a + b)[1..] == a[1..] + b;
      PushAllAppend(rooted, Push(rooted, comps, a[0]), a[1..], b);
    }
  }

  /** Components that are already resolved are kept as they are. */
  lemma {:induction false} PushAllKeeps(rooted: bool, comps: seq<string>, parts: seq<string>)
    requires Canonical(rooted, comps + parts)
    ensures PushAll(rooted, comps, parts) == comps + parts
    decreases parts
  {
    if parts == [] {
      assert comps + parts == comps;
    } else {
      assert (comps + parts)[|comps|] == parts[0];
      if parts[0] == ".." && comps != [] {
        assert (comps + parts)[|comps| - 1] == comps[|comps| - 1];
      }
      assert comps + parts == (comps + [parts[0]]) + parts[1..];
      PushAllKeeps(rooted, comps + [parts[0]], parts[1..]);
    }
  }

  lemma ResolveCanonical(s: string)
    ensures IsCanonical(Resolve(s))
  {
    PushAllCanonical(IsRooted(s), [], Split(s, '/'));
  }

  /** No component of a canonical path holds a separator. */
  lemma CanonicalNoSeparator(p: Path)
    requires IsCanonical(p)
    ensures forall c | c in p.comps :: '/' !in c && c != "" && c != "."
  {
    forall c | c in p.comps
      ensures '/' !in c && c != "" && c != "."
    {
      var i :| 0 <= i < |p.comps| && p.comps[i] == c;
      assert IsName(p.comps[i]) || p.comps[i] == "..";
    }
  }

  /** The text of a canonical path never begins with a separator by accident. */
  lemma JoinStart(p: Path)
    requires IsCanonical(p) && p.comps != []
    ensures Join(p.comps, '/') != "" && Join(p.comps, '/')[0] != '/'
  {
    CanonicalNoSeparator(p);
    assert p.comps[0] in p.comps;
    assert p.comps[0][0] in p.comps[0];
  }

  /** Reading back a rendered canonical path gives the path. */
  lemma ResolveRender(p: Path)
    requires IsCanonical(p)
    ensures Resolve(Render(p)) == p
  {
    if p.comps == [] {
      ResolveTop(p);
    } else {
      ResolveJoined(p);
    }
  }

  lemma ResolveTop(p: Path)
    requires p.comps == []
    ensures Resolve(Render(p)) == p
  {
    assert Split(".", '/') == ["."];
    SplitHead("", "", '/');
    assert "/" == "" + ['/'] + "";
    assert p.rooted ==> Split("/", '/') == ["", ""] && PushAll(true, [], [""]) == [];
  }

  lemma ResolveJoined(p: Path)
    requires IsCanonical(p) && p.comps != []
    ensures Resolve(Render(p)) == p
  {
    var joined := Join(p.comps, '/');
    CanonicalNoSeparator(p);
    JoinStart(p);
    SplitJoin(p.comps, '/');
    assert [] + p.comps == p.comps;
    PushAllKeeps(p.rooted, [], p.comps);
    if p.rooted {
      assert Render(p) == "" + ['/'] + joined;
      SplitHead("", joined, '/');
      assert ([""] + p.comps)[1..] == p.comps;
    }
  }

  lemma CleanNotEmpty(s: string)
    ensures Clean(s) != ""
  {
    ResolveCanonical(s);
    if Resolve(s).comps != [] { JoinStart(Resolve(s)); }
  }

  /** Clean is idempotent: a path text that Clean or Join produced is left alone. */
  lemma CleanIdempotent(s: string)
    ensures Clean(Clean(s)) == Clean(s)
  {
    ResolveCanonical(s);
    ResolveRender(Resolve(s));
  }

  /** Joining resolves the new name against the directory's components. */
  lemma ResolveJoin(dir: string, name: string)
    requires dir != ""
    ensures var d := Resolve(dir);
            Resolve(JoinPath(dir, name)) == Path(d.rooted, PushAll(d.rooted, d.comps, Split(name, '/')))
  {
    var d := Resolve(dir);
    var whole := dir + "/" + name;
    assert whole == dir + ['/'] + name;
    SplitAppend(dir, name, '/');
    PushAllAppend(d.rooted, [], Split(dir, '/'), Split(name, '/'));
    assert IsRooted(whole) == IsRooted(dir);
    ResolveCanonical(whole);
    ResolveRender(Resolve(whole));
  }

  /** A single name joined to a directory becomes its last component. */
  lemma ResolveJoinName(dir: string, name: string)
    requires IsName(name)
    ensures var d := Resolve(dir);
            Resolve(JoinPath(dir, name)) == Path(d.rooted, d.comps + [name])
  {
    assert Split(name, '/') == [name];
    var d := Resolve(dir);
    assert PushAll(d.rooted, d.comps, [name]) == d.comps + [name];
    if dir == "" {
      assert Split("", '/') == [""];
      assert Resolve("") == Path(false, []) by {
        assert PushAll(false, [], [""]) == PushAll(false, [], [""][1..]);
      }
      assert !IsRooted(name) by { assert name[0] in name; }
      ResolveCanonical(name);
      ResolveRender(Resolve(name));
    } else {
      ResolveJoin(dir, name);
    }
  }

  // ----- the rules of Clean -----

  /** A text begins with "/" or not, whatever follows its first component. */
  lemma RootedBy(a: string, b: string)
    requires a != ""
    ensures IsRooted(a + ['/'] + b) == IsRooted(a)
  {
  }

  /** Cleaning by parts: what follows a separator is resolved after what comes before it. */
  lemma ResolveSplit(a: string, b: string)
    requires a != ""
    ensures var d := Resolve(a);
      Resolve(a + ['/'] + b) == Path(d.rooted, PushAll(d.rooted, d.comps, Split(b, '/')))
  {
    RootedBy(a, b);
    SplitAppend(a, b, '/');
    PushAllAppend(IsRooted(a), [], Split(a, '/'), Split(b, '/'));
  }

  /** Texts that resolve alike before a separator resolve alike after it. */
  lemma ResolveAlike(a: string, c: string, b: string)
    requires a != "" && c != "" && Resolve(a) == Resolve(c)
    ensures Resolve(a + ['/'] + b) == Resolve(c + ['/'] + b)
  {
    ResolveSplit(a, b);
    ResolveSplit(c, b);
  }

  lemma OnePart(c: string)
    requires '/' !in c
    ensures Split(c, '/') == [c]
  {
  }

  lemma PushOne(rooted: bool, comps: seq<string>, c: string)
    ensures PushAll(rooted, comps, [c]) == Push(rooted, comps, c)
  {
    assert [c][1..] == [];
  }

  /** A second separator and a component "." count for nothing. */
  lemma IdleParts(a: string)
    requires a != ""
    ensures Resolve(a + ['/'] + "") == Resolve(a) && Resolve(a + ['/'] + ".") == Resolve(a)
  {
    ResolveSplit(a, "");
    ResolveSplit(a, ".");
    OnePart("");
    OnePart(".");
    PushOne(Resolve(a).rooted, Resolve(a).comps, "");
    PushOne(Resolve(a).rooted, Resolve(a).comps, ".");
  }

  lemma DotsPart()
    ensures Split("..", '/') == [".."] && !IsName("..") && '/' !in ".." && ".." != "" && ".." != "."
  {
    assert '/' !in "..";
    OnePart("..");
  }

  /** A name is one more component. */
  lemma NamePart(a: string, name: string)
    requires a != "" && IsName(name)
    ensures Resolve(a + ['/'] + name) == Path(Resolve(a).rooted, Resolve(a).comps + [name])
  {
    ResolveSplit(a, name);
    OnePart(name);
    PushOne(Resolve(a).rooted, Resolve(a).comps, name);
  }

  /** ".." takes the name before it back; at a root it counts for nothing; else it stays. */
  lemma ParentPart(a: string)
    requires a != ""
    ensures var d := Resolve(a);
      Resolve(a + ['/'] + "..") ==
        if EndsInName(d) then Path(d.rooted, d.comps[..|d.comps| - 1])
        else if d.rooted then d
        else Path(d.rooted, d.comps + [".."])
  {
    var d := Resolve(a);
    ResolveSplit(a, "..");
    DotsPart();
    PushOne(d.rooted, d.comps, "..");
    ResolveCanonical(a);
    if d.rooted && d.comps != [] { assert IsName(d.comps[|d.comps| - 1]); }
  }

  /** So a name followed by ".." leaves the directory as it was. */
  lemma NameAndBack(a: string, name: string)
    requires a != "" && IsName(name)
    ensures Resolve(a + ['/'] + name + ['/'] + "..") == Resolve(a)
    ensures Clean(a + ['/'] + name + ['/'] + "..") == Clean(a)
  {
    var below := a + ['/'] + name;
    NamePart(a, name);
    ParentPart(below);
    var d := Resolve(a);
    assert (d.comps + [name])[..|d.comps|] == d.comps;
  }

  /** And from a rooted directory below the root, "../x" leaves it. */
  lemma ClimbLeaves(dest: string, name: string)
    requires dest != "" && Resolve(dest).rooted && Resolve(dest).comps != [] && IsName(name)
    ensures var d := Resolve(dest);
      Resolve(dest + ['/'] + ".." + ['/'] + name) == Path(true, d.comps[..|d.comps| - 1] + [name])
    ensures !StrictlyBelow(Resolve(dest), Resolve(dest + ['/'] + ".." + ['/'] + name))
  {
    var d := Resolve(dest);
    ResolveCanonical(dest);
    assert IsName(d.comps[|d.comps| - 1]);
    ParentPart(dest);
    NamePart(dest + ['/'] + "..", name);
  }

  /** The shortest texts. */
  lemma ShortTexts()
    ensures Resolve("") == Path(false, []) && Resolve("/") == Path(true, [])
    ensures Clean("") == "." && Clean("/") == "/"
  {
    assert Split("", '/') == [""];
    assert PushAll(false, [], [""]) == PushAll(false, [], []);
    assert "/" == "" + ['/'] + "";
    SplitAppend("", "", '/');
    assert Split("/", '/') == ["", ""];
    assert ["", ""][1..] == [""];
    assert PushAll(true, [], ["", ""]) == PushAll(true, [], [""]) == PushAll(true, [], []);
  }

  /** A text of names, with or without "/" before them, is clean already. */
  lemma NamesAreClean(comps: seq<string>, rooted: bool)
    requires forall c | c in comps :: IsName(c)
    requires comps != [] || rooted
    ensures var s := (if rooted then "/" else "") + Join(comps, '/');
      Resolve(s) == Path(rooted, comps) && Clean(s) == s
  {
    var p := Path(rooted, comps);
    ResolveRender(p);
    if !rooted { assert "" + Join(comps, '/') == Join(comps, '/'); }
  }

  // ----- being inside a directory -----

  /** p lies below d: it extends d's components, and never climbs back. */
  predicate StrictlyBelow(d: Path, p: Path) {
    && p.rooted == d.rooted
    && |d.comps| < |p.comps|
    && p.comps[..|d.comps|] == d.comps
    && ".." !in p.comps[|d.comps|..]
  }

  /** The directory is named by its last component (not "/", "." or a chain of ".."). */
  predicate EndsInName(d: Path) {
    d.comps != [] && d.comps[|d.comps| - 1] != ".."
  }

  /** The extractors' traversal guard, on rendered texts. */
  predicate PrefixGuard(target: string, dest: string) {
    HasPrefix(Clean(target), Clean(dest) + "/")
  }

  /** t has more components than the non-empty path d, and begins with them. */
  predicate Extends(d: Path, t: Path) {
    && d.comps != []
    && t.rooted == d.rooted
    && |d.comps| < |t.comps|
    && t.comps[..|d.comps|] == d.comps
  }

  /** What the guard's text comparison means in terms of components. */
  lemma PrefixGuardMeaning(t: Path, d: Path)
    requires IsCanonical(t) && IsCanonical(d)
    ensures HasPrefix(Render(t), Render(d) + "/")
       <==> Extends(d, t)
  {
    CanonicalNoSeparator(t);
    CanonicalNoSeparator(d);
    var rt, rd := Render(t), Render(d) + "/";
    if t.comps != [] { JoinStart(t); }
    if d.comps == [] {
      RootGuard(t, d);
    } else {
      JoinStart(d);
      if t.comps != [] {
        JoinPrefix(d.comps, t.comps, '/');
        assert rt[0] == '/' <==> t.rooted;
        assert rd[0] == '/' <==> d.rooted;
        if t.rooted && d.rooted {
          assert rt[1..] == Join(t.comps, '/');
          assert rd[1..] == Join(d.comps, '/') + ['/'];
          PrefixTail(rt, rd);
        }
      } else {
        assert |rt| == 1 && |rd| > 1;
      }
    }
  }

  /** No cleaned text begins with "//" or "./". */
  lemma RootGuard(t: Path, d: Path)
    requires IsCanonical(t) && d.comps == []
    ensures !HasPrefix(Render(t), Render(d) + "/")
  {
    CanonicalNoSeparator(t);
    var rt := Render(t);
    if t.comps != [] { JoinStart(t); }
    if d.rooted {
      assert Render(d) + "/" == "//" && ("//")[1] == '/';
      assert |rt| < 2 || rt[0] != '/' || rt[1] != '/';
    } else {
      assert Render(d) + "/" == "./";
      if HasPrefix(rt, "./") {
        assert rt[0] == '.' && rt[1] == '/';
        assert rt == Join(t.comps, '/') == "." + ['/'] + rt[2..];
        HeadComponent(t.comps, ".", rt[2..]);
        assert false;
      }
    }
  }

  lemma PrefixTail(s: string, p: string)
    requires s != "" && p != "" && s[0] == p[0]
    ensures HasPrefix(s, p) <==> HasPrefix(s[1..], p[1..])
  {
    if HasPrefix(s, p) { assert s[1..][..|p| - 1] == s[..|p|][1..]; }
    if HasPrefix(s[1..], p[1..]) { assert s[..|p|] == [s[0]] + s[1..][..|p| - 1]; }
  }

  lemma HeadComponent(parts: seq<string>, head: string, rest: string)
    requires parts != [] && '/' !in head
    requires forall p | p in parts :: '/' !in p
    requires Join(parts, '/') == head + ['/'] + rest
    ensures parts[0] == head
  {
    SplitHead(head, rest, '/');
    SplitJoin(parts, '/');
  }

  /** The guard, as the extractors apply it to a name joined to the destination. */
  predicate Accepted(dest: string, name: string) {
    PrefixGuard(JoinPath(dest, name), dest)
  }

  function Target(dest: string, name: string): Path {
    Resolve(JoinPath(dest, name))
  }

  lemma AcceptedMeaning(dest: string, name: string)
    ensures Accepted(dest, name) <==> Extends(Resolve(dest), Target(dest, name))
    ensures IsCanonical(Target(dest, name))
  {
    ResolveCanonical(JoinPath(dest, name));
    ResolveCanonical(dest);
    PrefixGuardMeaning(Target(dest, name), Resolve(dest));
  }

  /** For a destination that ends in a name, the guard accepts exactly what lies below it. */
  lemma GuardExact(dest: string, name: string)
    requires EndsInName(Resolve(dest))
    ensures Accepted(dest, name) <==> StrictlyBelow(Resolve(dest), Target(dest, name))
  {
    AcceptedMeaning(dest, name);
    var t, d := Target(dest, name), Resolve(dest);
    if Accepted(dest, name) {
      assert t.comps[|d.comps| - 1] == d.comps[|d.comps| - 1];
      assert forall i | |d.comps| <= i < |t.comps| :: IsName(t.comps[i]);
    }
  }

  /** The guard is exact for every name if and only if the destination ends in a name. */
  lemma ContainmentExactly(dest: string)
    requires dest != ""
    ensures (forall name :: Accepted(dest, name) <==> StrictlyBelow(Resolve(dest), Target(dest, name)))
       <==> EndsInName(Resolve(dest))
  {
    var d := Resolve(dest);
    if EndsInName(d) {
      forall name ensures Accepted(dest, name) <==> StrictlyBelow(d, Target(dest, name)) {
        GuardExact(dest, name);
      }
    } else if d.comps == [] {
      RootAcceptsNothing(dest);
    } else {
      DotsLetEscape(dest);
    }
  }

  /** Destination "/" or ".": a plain name lies below it, yet is not accepted. */
  lemma RootAcceptsNothing(dest: string)
    requires dest != "" && Resolve(dest).comps == []
    ensures !Accepted(dest, "x") && StrictlyBelow(Resolve(dest), Target(dest, "x"))
  {
    AcceptedMeaning(dest, "x");
    ResolveJoinName(dest, "x");
  }

  lemma SplitClimb()
    ensures Split("../x", '/') == ["..", "x"]
  {
    SplitHead("..", "x", '/');
    assert ".." + ['/'] + "x" == "../x";
  }

  lemma ClimbAndDescend(d: Path)
    requires !d.rooted && d.comps != [] && d.comps[|d.comps| - 1] == ".."
    ensures PushAll(d.rooted, d.comps, ["..", "x"]) == d.comps + ["..", "x"]
  {
    var up := d.comps + [".."];
    assert Push(d.rooted, d.comps, "..") == up;
    assert ["..", "x"][1..] == ["x"];
    assert PushAll(d.rooted, up, ["x"]) == PushAll(d.rooted, up + ["x"], []);
  }

  /** Destination "..", "../.." and so on: climbing one level further is accepted. */
  lemma DotsLetEscape(dest: string)
    requires dest != "" && Resolve(dest).comps != [] && !EndsInName(Resolve(dest))
    ensures Accepted(dest, "../x") && !StrictlyBelow(Resolve(dest), Target(dest, "../x"))
  {
    var d := Resolve(dest);
    ResolveCanonical(dest);
    DotsBeforeDots(d.rooted, d.comps);
    AcceptedMeaning(dest, "../x");
    ResolveJoin(dest, "../x");
    SplitClimb();
    ClimbAndDescend(d);
    assert Target(dest, "../x").comps[|d.comps|..] == ["..", "x"];
    assert ["..", "x"][0] == "..";
  }
}
