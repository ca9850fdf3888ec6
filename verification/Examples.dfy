/**
 * Concrete requests for the runs of Race: the races and collisions need nothing but a
 * report that the service accepts.
 */
module Examples {
  import opened Wrappers
  import opened Paths
  import opened Extract
  import opened ZipDir
  import opened Keys
  import opened Footprints
  import opened Requests
  import opened Interleaving
  import opened Places
  import opened Race

  const NO_FAULTS: Faults :=
    Faults(false, None, false, false, false, false, false, false, false, false, 0, None, false, false)

  /** The smallest report that is accepted: a page's directory and a summary that parses. */
  function SmallReport(summary: Bytes): Folder {
    map[["pages"] := Dir, ["pages", "p"] := Dir, ["data"] := Dir, SUMMARY := File(summary)]
  }

  lemma SmallIsFolder(summary: Bytes)
    ensures IsFolder(SmallReport(summary))
  {
    var t := SmallReport(summary);
    assert IsName("pages") && IsName("p") && IsName("data") by { SmallNames(); }
    assert IsName("browsertime.summary-total.json") by { SummaryName(); }
    assert ["pages", "p"][..1] == ["pages"] && SUMMARY[..1] == ["data"];
    assert forall k | k in t :: k in {["pages"], ["pages", "p"], ["data"], SUMMARY};
    forall k | k in t
      ensures k != [] && (forall c | c in k :: IsName(c)) && forall i | 0 < i < |k| :: k[..i] in t && t[k[..i]].Dir?
    {
      assert |k| <= 2;
    }
  }

  lemma SmallNames()
    ensures IsName("pages") && IsName("p") && IsName("data")
  {
    assert "pages"[0] == 'p' && "p"[0] == 'p' && "data"[0] == 'd';
  }

  lemma SummaryName()
    ensures IsName("browsertime.summary-total.json")
  {
    var s := "browsertime.summary-total.json";
    assert |s| == 30 && s[0] == 'b';
  }

  /** An analysis of this id whose runner produces the small report. */
  function SmallAnalysis(id: string, summary: Bytes): Request {
    SmallIsFolder(summary);
    Analyze(id, true, Some(SmallReport(summary)), NO_FAULTS)
  }

  lemma SmallIsReportable(c: Codec, id: string, summary: Bytes)
    requires c.parses(summary) && ValidId(id)
    ensures Reportable(c, SmallAnalysis(id, summary)) && Faultless(SmallAnalysis(id, summary).faults)
  {
    var t := SmallReport(summary);
    assert ["pages"] + ["p"] == ["pages", "p"];
    assert Within(["pages"], ["pages", "p"]) && ["pages", "p"] in t;
    assert "p" in Children(t, ["pages"]);
    assert "p" in PageDirs(t);
  }

  const EMPTY: World := World(map[], map[], map[])

  lemma EmptyView(pl: IdPlaces, id: string)
    ensures MemoryUnder(pl).view(EMPTY, id) == Slice(None, None, GONE, GONE, GONE, GONE, 0, 0)
  {
    EmptyLocal(pl(id).local.temp);
    EmptyLocal(pl(id).local.cachedZip);
    EmptyLocal(pl(id).local.cachedShot);
    EmptyLocal(pl(id).local.dir);
  }

  lemma EmptyLocal(p: Path)
    ensures LocalAt(map[], p) == GONE
  {
    assert Below(map[], p) == map[];
  }

  /** The ids "a" and "a.zip", with the temporary directory as base directory. */
  lemma ZipNameExample(c: Codec, tmp: string, summary: Bytes)
    requires c.parses(summary)
    ensures var m := ServiceMemory(tmp, tmp);
      var s := System(EMPTY, [Begin(SmallAnalysis("a.zip", summary)), Begin(SmallAnalysis("a", summary))]);
      && ResponseOf(Exec(Handlers(c), m, s, [0] + Times(1, 11)), 1) == ServerError
      && ResponseOf(Exec(Handlers(c), m, s, Times(1, 11)), 1) == Okay
  {
    ZipAsId();
    assert "a" != CACHE by { assert |CACHE| == 15; }
    SmallIsReportable(c, "a", summary);
    SmallIsReportable(c, "a.zip", summary);
    EmptyView(PlacesUnder(tmp, tmp), "a");
    ZipNameCollides(c, tmp, EMPTY, SmallAnalysis("a.zip", summary), SmallAnalysis("a", summary));
  }

  /** The ids "a" and ".", with any clear directories, such as the default ones. */
  lemma DotExample(c: Codec, tmp: string, base: string, summary: Bytes)
    requires c.parses(summary) && base != "" && BaseClear(Resolve(tmp), Resolve(base), CACHE)
    ensures var m := ServiceMemory(tmp, base);
      var s := System(EMPTY, [Begin(SmallAnalysis(".", summary)), Begin(SmallAnalysis("a", summary))]);
      && ResponseOf(Exec(Handlers(c), m, s, [1] + ([0] + Times(1, 10))), 1) == ServerError
      && ResponseOf(Exec(Handlers(c), m, s, Times(1, 11)), 1) == Okay
  {
    ZipAsId();
    DotIsValid();
    SeparateExactly(tmp, base);
    SmallIsReportable(c, "a", summary);
    SmallIsReportable(c, ".", summary);
    EmptyView(PlacesUnder(tmp, base), "a");
    assert ["a"] !in SmallReport(summary) by { NotInSmall(summary); }
    DotCollides(c, tmp, base, EMPTY, SmallAnalysis(".", summary), SmallAnalysis("a", summary));
  }

  lemma DotIsValid()
    ensures ValidId(".")
  {
    assert "."[0] == '.';
  }

  lemma NotInSmall(summary: Bytes)
    ensures ["a"] !in SmallReport(summary)
  {
    assert |["a"]| == 1 && |SUMMARY| == 2 && |["pages", "p"]| == 2;
    assert |"a"| == 1 && |"pages"| == 5 && |"data"| == 4;
    assert ["a"][0] != ["pages"][0] && ["a"][0] != ["data"][0];
  }

  /** Bytes that differ from the given ones. */
  function Other(b: Bytes): (r: Bytes)
    ensures r != b
  {
    if b == [] then [0] else []
  }

  /** For any id: a reader of an older report beside an analysis. */
  lemma StaleCacheExample(c: Codec, tmp: string, base: string, id: string, summary: Bytes)
    requires c.parses(summary) && PlainId(id) && BaseClear(Resolve(tmp), Resolve(base), CACHE)
    ensures exists w ::
      StaleAfter(c, ServiceMemory(tmp, base), w, GetResult(id, "", NO_FAULTS), SmallAnalysis(id, summary))
  {
    SmallIsFolder(summary);
    SeparateExactly(tmp, base);
    DistinctOwns(PlacesUnder(tmp, base), id);
    SmallIsReportable(c, id, summary);
    var w := StaleRun(c, ServiceMemory(tmp, base), EMPTY, GetResult(id, "", NO_FAULTS), SmallAnalysis(id, summary));
  }

  /** From a coherent cache, a run at whose end nothing is in flight and the cache is not coherent. */
  ghost predicate StaleAfter<W(!new)>(c: Codec, m: Memory<W>, w: W, get: Request, analyze: Request) {
    var u := Exec(Handlers(c), m, System(w, [Begin(get), Begin(analyze)]), Around(2, 11, 3));
    Coherent(m.view(w, get.id), Zip) && AtRest(u, get.id) && !Coherent(m.view(u.world, get.id), Zip)
  }

  lemma StaleFrom<W(!new)>(c: Codec, m: Memory<W>, w: W, get: Request, analyze: Request)
    requires OwnSlice(m, get.id) && get.GetResult? && analyze.id == get.id
    requires Faultless(get.faults) && Faultless(analyze.faults) && Reportable(c, analyze)
    requires var sl := m.view(w, get.id);
      sl.zip == Some(Other(c.pack(ArchiveOf(analyze.ran.value)))) && sl.cachedZip == GONE && sl.temp == GONE
    ensures StaleAfter(c, m, w, get, analyze)
  {
    StaleCacheRace(c, m, w, get, analyze);
  }

  lemma StaleRun<W(!new)>(c: Codec, m: Memory<W>, start: W, get: Request, analyze: Request) returns (w: W)
    requires OwnSlice(m, get.id) && get.GetResult? && analyze.id == get.id
    requires Faultless(get.faults) && Faultless(analyze.faults) && Reportable(c, analyze)
    ensures StaleAfter(c, m, w, get, analyze)
  {
    w := Earlier(m, start, get.id, Other(c.pack(ArchiveOf(analyze.ran.value))));
    StaleFrom(c, m, w, get, analyze);
  }

  /** A state in which only this zip is stored of the id. */
  lemma Earlier<W(!new)>(m: Memory<W>, start: W, id: string, zip: Bytes) returns (w: W)
    requires OwnSlice(m, id)
    ensures m.view(w, id) == Slice(Some(zip), None, GONE, GONE, GONE, GONE, 0, 0)
  {
    w := m.put(start, id, Slice(Some(zip), None, GONE, GONE, GONE, GONE, 0, 0));
  }
}
