/**
 * Runs that show what coherence, reading and non-interference depend on: without any
 * fault, readers and writers of one id can get in each other's way, and so can two ids
 * whose paths are not apart.
 */
module Race {
  import opened Wrappers
  import opened Paths
  import opened Extract
  import opened ZipDir
  import opened Report
  import opened Keys
  import opened Footprints
  import opened Requests
  import opened Interleaving
  import opened Places

  /** n steps of thread i in a row. */
  function Times(i: nat, n: nat): seq<nat> {
    if n == 0 then [] else [i] + Times(i, n - 1)
  }

  ghost function Repeat(step: Stepper, p: Progress, n: nat): Progress
    decreases n
  {
    if n == 0 then p else Repeat(step, step(p.slice, p.thread), n - 1)
  }

  /** Steps of one thread in a row act on its own slice alone. */
  lemma {:induction false} Burst<W(!new)>(step: Stepper, m: Memory<W>, s: System<W>, i: nat, n: nat, id: string)
    requires KeepsRequests(step) && OwnSlice(m, id) && i < |s.threads| && s.threads[i].req.id == id
    ensures var p, u := Repeat(step, Progress(m.view(s.world, id), s.threads[i]), n), Exec(step, m, s, Times(i, n));
      m.view(u.world, id) == p.slice && u.threads == s.threads[i := p.thread] && p.thread.req == s.threads[i].req
    decreases n
  {
    if n > 0 {
      OwnStep(step, m, s, i, id);
      Burst(step, m, ThreadStep(step, m, s, i), i, n - 1, id);
      ExecCons(step, m, s, i, Times(i, n - 1));
    }
  }

  lemma {:induction false} ExecAppend<W(!new)>(step: Stepper, m: Memory<W>, s: System<W>, a: seq<nat>, b: seq<nat>)
    ensures Exec(step, m, s, a + b) == Exec(step, m, Exec(step, m, s, a), b)
    decreases a
  {
    if a == [] {
      assert a + b == b;
    } else {
      assert (a + b)[0] == a[0] && (a + b)[1..] == a[1..] + b;
      ExecAppend(step, m, ThreadStep(step, m, s, a[0]), a[1..], b);
    }
  }

  /** Enough steps of the handlers finish a request. */
  lemma {:induction false} RepeatFinishes(c: Codec, sl: Slice, th: Thread, n: nat)
    requires n >= Rank(th.stage)
    ensures Repeat(Handlers(c), Progress(sl, th), n) == Finish(c, sl, th)
    ensures Finish(c, sl, th).thread.stage.Done?
    decreases n
  {
    if n > 0 {
      var p := Handlers(c)(sl, th);
      RepeatFinishes(c, p.slice, p.thread, n - 1);
    }
  }

  predicate Faultless(f: Faults) {
    && !f.uploadShot && f.pack.None? && !f.uploadZip && !f.deleteZip && !f.deleteShot && !f.dropZip && !f.dropShot
    && !f.cacheDir && !f.fetch && !f.create && f.torn.None? && !f.read && !f.open
  }

  function ResponseOf<W>(s: System<W>, i: nat): Response {
    if i < |s.threads| then s.threads[i].response else Response.Pending
  }

  /** Thread 0, then thread 1, then thread 0 again. */
  function Around(i: nat, j: nat, k: nat): seq<nat> {
    Times(0, i) + Times(1, j) + Times(0, k)
  }

  /** The three parts of such a run of two new requests, on the slice of their id. */
  datatype Parts = Parts(a: Progress, b: Progress, c: Progress)

  ghost function PartsOf(step: Stepper, sl: Slice, first: Request, second: Request, i: nat, j: nat, k: nat): Parts {
    var a := Repeat(step, Progress(sl, Begin(first)), i);
    var b := Repeat(step, Progress(a.slice, Begin(second)), j);
    Parts(a, b, Repeat(step, Progress(b.slice, a.thread), k))
  }

  lemma PartsAre(
      step: Stepper, sl: Slice, first: Request, second: Request, i: nat, j: nat, k: nat, a: Progress, b: Progress)
    requires a == Repeat(step, Progress(sl, Begin(first)), i) && b == Repeat(step, Progress(a.slice, Begin(second)), j)
    ensures PartsOf(step, sl, first, second, i, j, k) == Parts(a, b, Repeat(step, Progress(b.slice, a.thread), k))
  {
  }

  lemma ThreeBursts<W(!new)>(
      step: Stepper, m: Memory<W>, w: W, first: Request, second: Request, i: nat, j: nat, k: nat, parts: Parts)
    requires KeepsRequests(step) && OwnSlice(m, first.id) && second.id == first.id
    requires parts == PartsOf(step, m.view(w, first.id), first, second, i, j, k)
    ensures var u := Exec(step, m, System(w, [Begin(first), Begin(second)]), Around(i, j, k));
      && m.view(u.world, first.id) == parts.c.slice
      && ResponseOf(u, 0) == parts.c.thread.response && ResponseOf(u, 1) == parts.b.thread.response
      && (parts.b.thread.stage.Done? && parts.c.thread.stage.Done? ==> AtRest(u, first.id))
  {
    var s := System(w, [Begin(first), Begin(second)]);
    ExecAppend(step, m, s, Times(0, i), Times(1, j));
    ExecAppend(step, m, s, Times(0, i) + Times(1, j), Times(0, k));
    var s1 := Exec(step, m, s, Times(0, i));
    var s2 := Exec(step, m, s1, Times(1, j));
    Burst(step, m, s, 0, i, first.id);
    Burst(step, m, s1, 1, j, first.id);
    Burst(step, m, s2, 0, k, first.id);
    assert Exec(step, m, s2, Times(0, k)).threads == [parts.c.thread, parts.b.thread];
  }

  // ----- what a reader does, a few steps at a time -----

  function Fetched(get: Request, body: Bytes): Thread {
    Begin(get).(stage := Create, body := body)
  }

  lemma TwoSteps(step: Stepper, p: Progress)
    ensures Repeat(step, p, 2) == step(step(p.slice, p.thread).slice, step(p.slice, p.thread).thread)
  {
    assert Repeat(step, step(p.slice, p.thread), 1) ==
        step(step(p.slice, p.thread).slice, step(p.slice, p.thread).thread);
  }

  lemma OneMoreStep(step: Stepper, p: Progress, n: nat)
    ensures Repeat(step, p, n + 1) == Repeat(step, step(p.slice, p.thread), n)
  {
  }

  /** A reader's first two steps take a copy of the stored zip. */
  lemma ReaderFetches(c: Codec, sl: Slice, get: Request)
    requires get.GetResult? && ValidId(get.id) && Faultless(get.faults) && sl.zip.Some? && sl.cachedZip == GONE
    ensures Repeat(Handlers(c), Progress(sl, Begin(get)), 2) == Progress(sl, Fetched(get, sl.zip.value))
  {
    TwoSteps(Handlers(c), Progress(sl, Begin(get)));
  }

  function Creating(sl: Slice, get: Request, body: Bytes): Progress {
    var th := Fetched(get, body);
    Progress(sl.(cachedZip := PlainFile(Delivered(th)[..Visible(th)])), th.(stage := Copy, handle := sl.zipAge))
  }

  lemma VisiblePart(get: Request, body: Bytes)
    requires get.faults.torn.None?
    ensures Delivered(Fetched(get, body))[..Visible(Fetched(get, body))] == FirstBytes(body, get.faults.early)
  {
    assert body[..|body|] == body;
  }

  lemma ReaderCreates(c: Codec, sl: Slice, get: Request, body: Bytes)
    requires get.GetResult? && Faultless(get.faults) && Tidy(sl.cachedZip)
    ensures Handlers(c)(sl, Fetched(get, body)) == Creating(sl, get, body)
  {
  }

  /** Its last two put the copy into the file and answer from it. */
  lemma ReaderSaves(c: Codec, sl: Slice, get: Request, body: Bytes)
    requires get.GetResult? && Faultless(get.faults)
    ensures var p := Repeat(Handlers(c), Creating(sl, get, body), 2);
      && p.slice == sl.(cachedZip := PlainFile(body))
      && p.thread.stage.Done? && p.thread.response == Rendered(c, get, body)
  {
    OverwriteCompletes(body, Visible(Fetched(get, body)));
    TwoSteps(Handlers(c), Creating(sl, get, body));
  }

  lemma ReaderSavesAll(c: Codec, sl: Slice, get: Request, body: Bytes)
    requires get.GetResult? && Faultless(get.faults) && Tidy(sl.cachedZip)
    ensures var p := Repeat(Handlers(c), Progress(sl, Fetched(get, body)), 3);
      p.slice == sl.(cachedZip := PlainFile(body)) && p.thread.stage.Done? &&
          p.thread.response == Rendered(c, get, body)
  {
    OneMoreStep(Handlers(c), Progress(sl, Fetched(get, body)), 2);
    ReaderCreates(c, sl, get, body);
    ReaderSaves(c, sl, get, body);
  }

  /** A reader that finds a cached file opens it next. */
  lemma ReaderOpens(c: Codec, sl: Slice, get: Request, content: Bytes)
    requires get.GetResult? && ValidId(get.id) && Faultless(get.faults) && sl.cachedZip == PlainFile(content)
    ensures var p := Repeat(Handlers(c), Progress(sl, Begin(get)), 2);
      p.slice == sl && p.thread.stage.Done? && p.thread.response == Rendered(c, get, content)
  {
    TwoSteps(Handlers(c), Progress(sl, Begin(get)));
  }

  // ----- races between requests for one id -----

  /** A faultless analysis, as far as the zip is concerned. */
  lemma AnalysisEnds(c: Codec, sl: Slice, analyze: Request)
    requires Reportable(c, analyze) && Faultless(analyze.faults)
    ensures var p := Handle(c, sl, analyze);
      && p.thread.response == (if sl.temp.below == map[] then Okay else ServerError)
      && (sl.temp.below == map[] && Tidy(sl.cachedZip) ==>
           p.slice.cachedZip == GONE && p.slice.zip == Some(c.pack(ArchiveOf(analyze.ran.value))))
  {
    AnalyzeOutcome(c, sl, analyze);
    if Tidy(sl.cachedZip) {
      PublishedCached(sl, analyze.faults, c.pack(ArchiveOf(analyze.ran.value)), Uploaded(c, analyze), Zip);
    }
  }

  /** The same for its steps, taken without interruption. */
  lemma AnalysisRuns(c: Codec, sl: Slice, analyze: Request)
    requires Reportable(c, analyze) && Faultless(analyze.faults)
    ensures var p := Repeat(Handlers(c), Progress(sl, Begin(analyze)), 11);
      && p.thread.stage.Done? && p == Handle(c, sl, analyze)
      && p.thread.response == (if sl.temp.below == map[] then Okay else ServerError)
      && (sl.temp.below == map[] && Tidy(sl.cachedZip) ==>
           p.slice.cachedZip == GONE && p.slice.zip == Some(c.pack(ArchiveOf(analyze.ran.value))))
  {
    RepeatFinishes(c, sl, Begin(analyze), 11);
    AnalysisEnds(c, sl, analyze);
  }

  /**
   * A stale save: a reader fetches the old zip, a whole analysis stores a new one and drops
   * the cached file, and only then does the reader save what it fetched. The cache keeps
   * the old report until the next analysis or deletion.
   */
  lemma StaleCacheRace<W(!new)>(c: Codec, m: Memory<W>, w: W, get: Request, analyze: Request)
    requires OwnSlice(m, get.id) && get.GetResult? && analyze.id == get.id
    requires Faultless(get.faults) && Faultless(analyze.faults) && Reportable(c, analyze)
    requires var sl := m.view(w, get.id);
      && sl.zip.Some? && sl.cachedZip == GONE && sl.temp == GONE
      && sl.zip != Some(c.pack(ArchiveOf(analyze.ran.value)))
    ensures var u := Exec(Handlers(c), m, System(w, [Begin(get), Begin(analyze)]), Around(2, 11, 3));
      var after := m.view(u.world, get.id);
      && AtRest(u, get.id)
      && after.zip == Some(c.pack(ArchiveOf(analyze.ran.value)))
      && Content(after.cachedZip) == m.view(w, get.id).zip
      && !Coherent(after, Zip)
  {
    HandlersKeepRequests(c);
    var parts := StaleParts(c, m.view(w, get.id), get, analyze);
    ThreeBursts(Handlers(c), m, w, get, analyze, 2, 11, 3, parts);
    Disagree(parts.c.slice);
  }

  lemma Disagree(sl: Slice)
    requires Content(sl.cachedZip).Some? && Content(sl.cachedZip) != sl.zip
    ensures !Coherent(sl, Zip)
  {
  }

  lemma StaleParts(c: Codec, sl: Slice, get: Request, analyze: Request) returns (parts: Parts)
    requires get.GetResult? && analyze.id == get.id
    requires Faultless(get.faults) && Faultless(analyze.faults) && Reportable(c, analyze)
    requires sl.zip.Some? && sl.cachedZip == GONE && sl.temp == GONE
    ensures parts == PartsOf(Handlers(c), sl, get, analyze, 2, 11, 3)
    ensures parts.b.thread.stage.Done? && parts.c.thread.stage.Done?
    ensures parts.c.slice.zip == Some(c.pack(ArchiveOf(analyze.ran.value)))
    ensures Content(parts.c.slice.cachedZip) == sl.zip
  {
    var z, packed := sl.zip.value, c.pack(ArchiveOf(analyze.ran.value));
    var b := Repeat(Handlers(c), Progress(sl, Begin(analyze)), 11);
    ReaderFetches(c, sl, get);
    AnalysisRuns(c, sl, analyze);
    ReaderSavesAll(c, b.slice, get, z);
    parts := StaleCombined(Handlers(c), sl, get, analyze, z, packed, b);
  }

  lemma StaleCombined(step: Stepper, sl: Slice, get: Request, analyze: Request, z: Bytes, packed: Bytes, b: Progress)
    returns (parts: Parts)
    requires Repeat(step, Progress(sl, Begin(get)), 2) == Progress(sl, Fetched(get, z))
    requires b == Repeat(step, Progress(sl, Begin(analyze)), 11)
    requires b.thread.stage.Done? && b.slice.zip == Some(packed)
    requires var d := Repeat(step, Progress(b.slice, Fetched(get, z)), 3);
      d.slice == b.slice.(cachedZip := PlainFile(z)) && d.thread.stage.Done?
    ensures parts == PartsOf(step, sl, get, analyze, 2, 11, 3)
    ensures parts.b.thread.stage.Done? && parts.c.thread.stage.Done?
    ensures parts.c.slice.zip == Some(packed) && Content(parts.c.slice.cachedZip) == Some(z)
  {
    var a := Progress(sl, Fetched(get, z));
    parts := Parts(a, b, Repeat(step, Progress(b.slice, a.thread), 3));
    PartsAre(step, sl, get, analyze, 2, 11, 3, a, b);
  }

  /**
   * A partial read: a reader has created the cached file and not completed it when a second
   * one finds it there. The second answers 404, for a report that is stored, and that the
   * first then serves.
   */
  lemma PartialReadRace<W(!new)>(c: Codec, m: Memory<W>, w: W, first: Request, second: Request)
    requires OwnSlice(m, first.id) && first.GetResult? && second.GetResult? && second.id == first.id &&
        ValidId(first.id)
    requires Faultless(first.faults) && Faultless(second.faults)
    requires var sl := m.view(w, first.id);
      && sl.zip.Some? && sl.cachedZip == GONE
      && c.unpack(FirstBytes(sl.zip.value, first.faults.early)).None?
    ensures var u := Exec(Handlers(c), m, System(w, [Begin(first), Begin(second)]), Around(3, 2, 2));
      && AtRest(u, first.id)
      && ResponseOf(u, 1) == NotFound
      && ResponseOf(u, 0) == Direct(c, m.view(w, first.id), first)
      && Coherent(m.view(u.world, first.id), Zip)
  {
    HandlersKeepRequests(c);
    var parts := PartialParts(c, m.view(w, first.id), first, second);
    ThreeBursts(Handlers(c), m, w, first, second, 3, 2, 2, parts);
  }

  lemma PartialParts(c: Codec, sl: Slice, first: Request, second: Request) returns (parts: Parts)
    requires first.GetResult? && second.GetResult? && second.id == first.id && ValidId(first.id)
    requires Faultless(first.faults) && Faultless(second.faults) && sl.zip.Some? && sl.cachedZip == GONE
    requires c.unpack(FirstBytes(sl.zip.value, first.faults.early)).None?
    ensures parts == PartsOf(Handlers(c), sl, first, second, 3, 2, 2)
    ensures parts.b.thread.stage.Done? && parts.c.thread.stage.Done?
    ensures parts.b.thread.response == NotFound && parts.c.thread.response == Direct(c, sl, first)
    ensures Coherent(parts.c.slice, Zip)
  {
    parts := PartsOf(Handlers(c), sl, first, second, 3, 2, 2);
    ReaderStarts(c, sl, first);
    VisiblePart(first, sl.zip.value);
    ReaderOpens(c, parts.a.slice, second, FirstBytes(sl.zip.value, first.faults.early));
    ReaderSaves(c, sl, first, sl.zip.value);
  }

  lemma ReaderStarts(c: Codec, sl: Slice, get: Request)
    requires get.GetResult? && ValidId(get.id) && Faultless(get.faults) && sl.zip.Some? && sl.cachedZip == GONE
    ensures Repeat(Handlers(c), Progress(sl, Begin(get)), 3) == Creating(sl, get, sl.zip.value)
  {
    ReaderFetches(c, sl, get);
    ReaderCreates(c, sl, get, sl.zip.value);
    RepeatSplit(Handlers(c), Progress(sl, Begin(get)), 2);
  }

  lemma {:induction false} RepeatSplit(step: Stepper, p: Progress, n: nat)
    ensures Repeat(step, p, n + 1) == step(Repeat(step, p, n).slice, Repeat(step, p, n).thread)
    decreases n
  {
    if n > 0 { RepeatSplit(step, step(p.slice, p.thread), n - 1); }
  }

  /**
   * A dropped read: a reader has found the cached file, an analysis stores a new report and
   * drops the file, and the reader answers 404 although there was a report at every moment.
   */
  lemma DroppedReadRace<W(!new)>(c: Codec, m: Memory<W>, w: W, get: Request, analyze: Request)
    requires OwnSlice(m, get.id) && get.GetResult? && analyze.id == get.id
    requires Faultless(get.faults) && Faultless(analyze.faults) && Reportable(c, analyze)
    requires var sl := m.view(w, get.id);
      sl.zip.Some? && sl.cachedZip == PlainFile(sl.zip.value) && sl.temp == GONE
    ensures var u := Exec(Handlers(c), m, System(w, [Begin(get), Begin(analyze)]), Around(1, 11, 1));
      && AtRest(u, get.id)
      && ResponseOf(u, 0) == NotFound
      && m.view(u.world, get.id).zip == Some(c.pack(ArchiveOf(analyze.ran.value)))
  {
    HandlersKeepRequests(c);
    var parts := DroppedParts(c, m.view(w, get.id), get, analyze);
    ThreeBursts(Handlers(c), m, w, get, analyze, 1, 11, 1, parts);
  }

  lemma DroppedParts(c: Codec, sl: Slice, get: Request, analyze: Request) returns (parts: Parts)
    requires get.GetResult? && analyze.id == get.id
    requires Faultless(get.faults) && Faultless(analyze.faults) && Reportable(c, analyze)
    requires sl.zip.Some? && sl.cachedZip == PlainFile(sl.zip.value) && sl.temp == GONE
    ensures parts == PartsOf(Handlers(c), sl, get, analyze, 1, 11, 1)
    ensures parts.b.thread.stage.Done? && parts.c.thread.stage.Done?
    ensures parts.c.thread.response == NotFound
    ensures parts.c.slice.zip == Some(c.pack(ArchiveOf(analyze.ran.value)))
  {
    parts := PartsOf(Handlers(c), sl, get, analyze, 1, 11, 1);
    ReaderFinds(c, sl, get);
    AnalysisRuns(c, sl, analyze);
    ReaderMisses(c, parts.b.slice, get);
  }

  lemma ReaderFinds(c: Codec, sl: Slice, get: Request)
    requires get.GetResult? && ValidId(get.id) && Present(sl.cachedZip)
    ensures Repeat(Handlers(c), Progress(sl, Begin(get)), 1) == Progress(sl, Begin(get).(stage := Read))
  {
    OneMoreStep(Handlers(c), Progress(sl, Begin(get)), 0);
  }

  lemma ReaderMisses(c: Codec, sl: Slice, get: Request)
    requires get.GetResult? && sl.cachedZip == GONE
    ensures var p := Repeat(Handlers(c), Progress(sl, Begin(get).(stage := Read)), 1);
      p.slice == sl && p.thread.stage.Done? && p.thread.response == NotFound
  {
    OneMoreStep(Handlers(c), Progress(sl, Begin(get).(stage := Read)), 0);
  }

  // ----- ids whose paths are not apart -----

  function AnalysisStarted(sl: Slice, req: Request): Progress
    requires req.Analyze? && req.ran.Some?
  {
    Progress(sl.(dir := FolderOf(req.ran.value)), Begin(req).(stage := Inspect))
  }

  /** The first step of an analysis: the runner leaves its result directory. */
  lemma AnalysisStarts<W(!new)>(c: Codec, m: Memory<W>, s: System<W>, i: nat)
    requires i < |s.threads| && s.threads[i] == Begin(s.threads[i].req) && Reportable(c, s.threads[i].req)
    ensures var req, u := s.threads[i].req, ThreadStep(Handlers(c), m, s, i);
      var p := AnalysisStarted(m.view(s.world, req.id), req);
      u.world == m.put(s.world, req.id, p.slice) && u.threads == s.threads[i := p.thread]
  {
  }

  /** An analysis that runs from here on without interruption. */
  lemma AnalysisAlone<W(!new)>(c: Codec, m: Memory<W>, s: System<W>, i: nat)
    requires i < |s.threads| && s.threads[i] == Begin(s.threads[i].req)
    requires Reportable(c, s.threads[i].req) && Faultless(s.threads[i].req.faults) && OwnSlice(m, s.threads[i].req.id)
    ensures ResponseOf(Exec(Handlers(c), m, s, Times(i, 11)), i)
         == if m.view(s.world, s.threads[i].req.id).temp.below == map[] then Okay else ServerError
  {
    HandlersKeepRequests(c);
    Burst(Handlers(c), m, s, i, 11, s.threads[i].req.id);
    AnalysisRuns(c, m.view(s.world, s.threads[i].req.id), s.threads[i].req);
  }

  /** Another analysis starts, and leaves something in the way of this one. */
  lemma StartBlocks<W(!new)>(c: Codec, m: Memory<W>, w: W, other: Request, analyze: Request)
    requires Reportable(c, other) && Reportable(c, analyze) && Faultless(analyze.faults) && OwnSlice(m, analyze.id)
    requires var started := m.put(w, other.id, AnalysisStarted(m.view(w, other.id), other).slice);
      m.view(started, analyze.id).temp.below != map[]
    ensures ResponseOf(Exec(Handlers(c), m, System(w, [Begin(other), Begin(analyze)]), [0] + Times(1, 11)), 1) ==
        ServerError
  {
    var s := System(w, [Begin(other), Begin(analyze)]);
    AnalysisStarts(c, m, s, 0);
    ExecCons(Handlers(c), m, s, 0, Times(1, 11));
    AnalysisAlone(c, m, ThreadStep(Handlers(c), m, s, 0), 1);
  }

  /** Another id's result directory at the place where this one puts its zip. */
  lemma DirAtTemp(c: Codec, pl: IdPlaces, w: World, other: Request, analyze: Request)
    requires Reportable(c, other) && Reportable(c, analyze) && Faultless(analyze.faults)
    requires pl(analyze.id).local.temp == pl(other.id).local.dir
    requires Distinct(pl(analyze.id)) && Distinct(pl(other.id))
    requires MemoryUnder(pl).view(w, analyze.id).temp == GONE
    ensures var m, s := MemoryUnder(pl), System(w, [Begin(other), Begin(analyze)]);
      && ResponseOf(Exec(Handlers(c), m, s, [0] + Times(1, 11)), 1) == ServerError
      && ResponseOf(Exec(Handlers(c), m, s, Times(1, 11)), 1) == Okay
  {
    var m, s := MemoryUnder(pl), System(w, [Begin(other), Begin(analyze)]);
    DistinctOwns(pl, analyze.id);
    DistinctOwns(pl, other.id);
    var sl := AnalysisStarted(m.view(w, other.id), other).slice;
    ReportNotEmpty(c, other.ran.value);
    MemoryView(pl, m.put(w, other.id, sl), analyze.id);
    MemoryView(pl, m.put(w, other.id, sl), other.id);
    assert m.view(m.put(w, other.id, sl), other.id) == sl;
    StartBlocks(c, m, w, other, analyze);
    AnalysisAlone(c, m, s, 1);
  }

  /**
   * With the temporary directory as base directory, the result directory of the id "x.zip" is
   * where the id "x" puts its zip: while the one is analysed, the other fails, though nothing
   * is wrong and it succeeds when it runs alone.
   */
  lemma ZipNameCollides(c: Codec, tmp: string, w: World, other: Request, analyze: Request)
    requires Reportable(c, other) && Reportable(c, analyze) && Faultless(analyze.faults)
    requires PlainId(analyze.id) && PlainId(other.id) && other.id == analyze.id + ".zip" && analyze.id != CACHE
    requires ServiceMemory(tmp, tmp).view(w, analyze.id).temp == GONE
    ensures var m, s := ServiceMemory(tmp, tmp), System(w, [Begin(other), Begin(analyze)]);
      && ResponseOf(Exec(Handlers(c), m, s, [0] + Times(1, 11)), 1) == ServerError
      && ResponseOf(Exec(Handlers(c), m, s, Times(1, 11)), 1) == Okay
  {
    LocalPlaces(tmp, tmp, analyze.id);
    LocalPlaces(tmp, tmp, other.id);
    ZipAtResultDir(tmp, analyze.id, other.id);
    FileNames(analyze.id);
    EqualDistinct(tmp, analyze.id);
    EqualDistinct(tmp, other.id);
    DirAtTemp(c, PlacesUnder(tmp, tmp), w, other, analyze);
  }

  lemma ReportNotEmpty(c: Codec, t: ReportTree)
    requires Inspected(c, t).Some?
    ensures FolderOf(t).below != map[]
  {
    var pages: Rel := ["pages"];
    assert pages in t;
  }

  /** The states after this analysis, and then the other, have taken their first step. */
  lemma BothStart<W(!new)>(c: Codec, m: Memory<W>, w: W, other: Request, analyze: Request, rest: seq<nat>)
    returns (v: System<W>)
    requires Reportable(c, other) && Reportable(c, analyze)
    ensures Exec(Handlers(c), m, System(w, [Begin(other), Begin(analyze)]), [1] + ([0] + rest)) ==
        Exec(Handlers(c), m, v, rest)
    ensures |v.threads| == 2 && v.threads[1].req == analyze && v.threads[1].stage.Inspect?
    ensures exists u: W :: v.world == m.put(u, other.id, AnalysisStarted(m.view(u, other.id), other).slice)
  {
    var s := System(w, [Begin(other), Begin(analyze)]);
    var u := ThreadStep(Handlers(c), m, s, 1);
    v := ThreadStep(Handlers(c), m, u, 0);
    AnalysisStarts(c, m, s, 1);
    AnalysisStarts(c, m, u, 0);
    ExecCons(Handlers(c), m, s, 1, [0] + rest);
    ExecCons(Handlers(c), m, u, 0, rest);
    assert v.world == m.put(u.world, other.id, AnalysisStarted(m.view(u.world, other.id), other).slice);
  }

  /** An analysis starts, and another one takes its result directory away. */
  lemma StartRobs<W(!new)>(c: Codec, m: Memory<W>, w: W, other: Request, analyze: Request)
    requires Reportable(c, other) && Reportable(c, analyze) && OwnSlice(m, analyze.id)
    requires forall v: W ::
      m.view(m.put(v, other.id, AnalysisStarted(m.view(v, other.id), other).slice), analyze.id).dir.top == None
    ensures ResponseOf(Exec(Handlers(c), m, System(w, [Begin(other), Begin(analyze)]), [1] + ([0] + Times(1, 10))), 1)
         == ServerError
  {
    var v := BothStart(c, m, w, other, analyze, Times(1, 10));
    RobbedFails(c, m, v, 1);
  }

  /** An analysis whose result directory is gone before it looks into it. */
  lemma RobbedFails<W(!new)>(c: Codec, m: Memory<W>, s: System<W>, i: nat)
    requires i < |s.threads| && s.threads[i].req.Analyze? && s.threads[i].stage.Inspect? &&
        OwnSlice(m, s.threads[i].req.id)
    requires m.view(s.world, s.threads[i].req.id).dir.top == None
    ensures ResponseOf(Exec(Handlers(c), m, s, Times(i, 10)), i) == ServerError
  {
    var sl := m.view(s.world, s.threads[i].req.id);
    HandlersKeepRequests(c);
    Burst(Handlers(c), m, s, i, 10, s.threads[i].req.id);
    RepeatFinishes(c, sl, s.threads[i], 10);
    FinishWithoutDir(c, sl, s.threads[i]);
  }

  /** Another id whose result directory contains this one's. */
  lemma DirAbove(c: Codec, pl: IdPlaces, w: World, above: Request, analyze: Request)
    requires Reportable(c, above) && Reportable(c, analyze) && Faultless(analyze.faults) && Distinct(pl(analyze.id))
    requires pl(analyze.id).local.dir == Child(pl(above.id).local.dir, analyze.id)
    requires [analyze.id] !in above.ran.value
    requires MemoryUnder(pl).view(w, analyze.id).temp == GONE
    ensures var m, s := MemoryUnder(pl), System(w, [Begin(above), Begin(analyze)]);
      && ResponseOf(Exec(Handlers(c), m, s, [1] + ([0] + Times(1, 10))), 1) == ServerError
      && ResponseOf(Exec(Handlers(c), m, s, Times(1, 11)), 1) == Okay
  {
    var m, s := MemoryUnder(pl), System(w, [Begin(above), Begin(analyze)]);
    DistinctOwns(pl, analyze.id);
    forall v: World
      ensures m.view(m.put(v, above.id, AnalysisStarted(m.view(v, above.id), above).slice), analyze.id).dir.top == None
    {
      DirTakenAway(pl, v, AnalysisStarted(m.view(v, above.id), above).slice, above.id, analyze.id, above.ran.value);
    }
    StartRobs(c, m, w, above, analyze);
    AnalysisAlone(c, m, s, 1);
  }

  /**
   * The id "." has the base directory itself as its result directory: its analysis takes the
   * result directory of any other away, which then fails, though it succeeds when alone.
   */
  lemma DotCollides(c: Codec, tmp: string, base: string, w: World, dot: Request, analyze: Request)
    requires base != "" && PlainId(analyze.id) && Distinct(PlacesUnder(tmp, base)(analyze.id)) && dot.id == "."
    requires Reportable(c, dot) && Reportable(c, analyze) && Faultless(analyze.faults)
    requires [analyze.id] !in dot.ran.value
    requires ServiceMemory(tmp, base).view(w, analyze.id).temp == GONE
    ensures var m, s := ServiceMemory(tmp, base), System(w, [Begin(dot), Begin(analyze)]);
      && ResponseOf(Exec(Handlers(c), m, s, [1] + ([0] + Times(1, 10))), 1) == ServerError
      && ResponseOf(Exec(Handlers(c), m, s, Times(1, 11)), 1) == Okay
  {
    DotIdCoversOthers(base, analyze.id);
    LocalPlaces(tmp, base, analyze.id);
    LocalPlaces(tmp, base, dot.id);
    DirAbove(c, PlacesUnder(tmp, base), w, dot, analyze);
  }

  /** What an id puts into its result directory replaces all that is below it. */
  lemma DirTakenAway(pl: IdPlaces, w: World, sl: Slice, above: string, id: string, t: ReportTree)
    requires pl(id).local.dir == Child(pl(above).local.dir, id) && sl.dir == FolderOf(t) && [id] !in t
    ensures MemoryUnder(pl).view(MemoryUnder(pl).put(w, above, sl), id).dir.top == None
  {
    var d, k := pl(above).local.dir, pl(id).local.dir;
    ChildIsBelow(d, id);
    BelowPutDir(w, pl(above), sl, pl(id));
  }

  lemma ChildIsBelow(d: Path, id: string)
    ensures Covers(d, Child(d, id)) && Child(d, id) != d && Tail(d, Child(d, id)) == [id]
  {
    assert Child(d, id).comps[..|d.comps|] == d.comps;
  }

  lemma FinishWithoutDir(c: Codec, sl: Slice, th: Thread)
    requires th.req.Analyze? && th.stage.Inspect? && sl.dir.top == None
    ensures Finish(c, sl, th).thread.response == ServerError
  {
    var p := Step(c, sl, th);
    assert DirOf(sl) == map[];
    FinishCleanup(c, p.slice, p.thread);
  }
}
