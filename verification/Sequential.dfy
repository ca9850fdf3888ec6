/**
 * Requests served one after another: the cache makes no difference to any response, and
 * what a reader gets is what the runner's stream held.
 */
module Sequential {
  import opened Wrappers
  import opened Text
  import opened Paths
  import opened Extract
  import opened ZipDir
  import opened Report
  import opened Keys
  import opened Footprints
  import opened Entries
  import opened Results
  import opened Requests
  import opened Interleaving
  import opened Places
  import opened Race

  ghost function Serve<W(!new)>(c: Codec, m: Memory<W>, w: W, req: Request): W {
    m.put(w, req.id, Handle(c, m.view(w, req.id), req).slice)
  }

  /**
   * The responses that are compared: all but those of readers of the other object and of
   * readers with a fault of their own.
   */
  predicate Compared(req: Request, o: Object) {
    IsRead(req) ==> ReadsCleanly(req) && ObjectOf(req) == o
  }

  function Shown(req: Request, o: Object, response: Response): Option<Response> {
    if Compared(req, o) then Some(response) else None
  }

  ghost function Responses<W(!new)>(c: Codec, m: Memory<W>, w: W, reqs: seq<Request>, o: Object): seq<Option<Response>>
    decreases reqs
  {
    if reqs == [] then []
    else
      var p := Handle(c, m.view(w, reqs[0].id), reqs[0]);
      [Shown(reqs[0], o, p.thread.response)] + Responses(c, m, Serve(c, m, w, reqs[0]), reqs[1..], o)
  }

  function Uncached(sl: Slice): Slice {
    sl.(cachedZip := GONE, cachedShot := GONE, zipAge := 0, shotAge := 0)
  }

  /** The reference server: it forgets its cache before and after every request that passes the check. */
  ghost function ServeUncached<W(!new)>(c: Codec, m: Memory<W>, w: W, req: Request): W {
    if !ValidId(req.id) then w
    else m.put(w, req.id, Uncached(Handle(c, Uncached(m.view(w, req.id)), req).slice))
  }

  ghost function ResponsesUncached<W(!new)>(
      c: Codec, m: Memory<W>, w: W, reqs: seq<Request>, o: Object): seq<Option<Response>>
    decreases reqs
  {
    if reqs == [] then []
    else
      var p := Handle(c, Uncached(m.view(w, reqs[0].id)), reqs[0]);
      [Shown(reqs[0], o, p.thread.response)] + ResponsesUncached(c, m, ServeUncached(c, m, w, reqs[0]), reqs[1..], o)
  }

  /** Alike but for the caches, of which the one for the object agrees with its store. */
  predicate SliceRefines(sl: Slice, tl: Slice, o: Object) {
    Uncached(sl) == Uncached(tl) && Coherent(sl, o) && sl.temp.below == map[]
  }

  ghost predicate Refines<W(!new)>(m: Memory<W>, w: W, u: W, o: Object) {
    forall id | PlainId(id) :: SliceRefines(m.view(w, id), m.view(u, id), o)
  }

  /**
   * A request may fail anywhere, except that its download of the object does not break, the
   * cached object is dropped when it has to be, and, for the screenshot, that an analysis
   * which stored its screenshot also stores its zip.
   */
  ghost predicate Calm(c: Codec, req: Request, o: Object) {
    match req
    case Delete(_, f) => if o.Zip? then !f.dropZip else !f.dropShot
    case Analyze(_, _, _, f) =>
      if o.Zip? then !f.dropZip
      else Reportable(c, req) && Uploaded(c, req).Some? ==> f.pack.None? && !f.uploadZip && !f.dropShot
    case _ => ObjectOf(req) == o ==> req.faults.torn.None?
  }

  lemma CalmStaysCoherent(c: Codec, sl: Slice, req: Request, o: Object)
    requires Coherent(sl, o) && sl.temp.below == map[] && Calm(c, req, o)
    ensures Coherent(Handle(c, sl, req).slice, o)
  {
    CoherentExactly(c, sl, req, o);
  }

  lemma AnalyzeRefines(c: Codec, sl: Slice, tl: Slice, req: Request)
    requires req.Analyze? && Uncached(sl) == Uncached(tl) && sl.temp.below == map[]
    ensures Handle(c, sl, req).thread.response == Handle(c, Uncached(tl), req).thread.response
    ensures Uncached(Handle(c, sl, req).slice) == Uncached(Handle(c, Uncached(tl), req).slice)
    ensures Handle(c, sl, req).slice.temp.below == map[]
  {
    AnalyzeOutcome(c, sl, req);
    AnalyzeOutcome(c, Uncached(tl), req);
    if Reportable(c, req) {
      ReportedUncached(sl, Uncached(tl), req.faults, c.pack(ArchiveOf(req.ran.value)), Uploaded(c, req));
    }
  }

  lemma ReportedUncached(sl: Slice, tl: Slice, f: Faults, packed: Bytes, shot: Option<Bytes>)
    requires Uncached(sl) == Uncached(tl)
    ensures Uncached(Reported(sl, f, packed, shot)) == Uncached(Reported(tl, f, packed, shot)) &&
        AnswerOf(sl, f) == AnswerOf(tl, f)
    ensures sl.temp.below == map[] ==> Reported(sl, f, packed, shot).temp.below == map[]
  {
  }

  lemma DeleteRefines(c: Codec, sl: Slice, tl: Slice, req: Request)
    requires req.Delete? && Uncached(sl) == Uncached(tl)
    ensures Handle(c, sl, req).thread.response == Handle(c, Uncached(tl), req).thread.response
    ensures Uncached(Handle(c, sl, req).slice) == Uncached(Handle(c, Uncached(tl), req).slice)
    ensures Handle(c, sl, req).slice.temp == sl.temp
  {
    DeleteOutcome(c, sl, req);
    DeleteOutcome(c, Uncached(tl), req);
  }

  lemma ReadRefines(c: Codec, sl: Slice, tl: Slice, req: Request, o: Object)
    requires IsRead(req) && SliceRefines(sl, tl, o)
    ensures Shown(req, o, Handle(c, sl, req).thread.response) ==
        Shown(req, o, Handle(c, Uncached(tl), req).thread.response)
    ensures Uncached(Handle(c, sl, req).slice) == Uncached(Handle(c, Uncached(tl), req).slice)
    ensures Handle(c, sl, req).slice.temp == sl.temp
  {
    ReadOutcome(c, sl, req);
    ReadOutcome(c, Uncached(tl), req);
  }

  lemma HandleRefines(c: Codec, sl: Slice, tl: Slice, req: Request, o: Object)
    requires Calm(c, req, o) && SliceRefines(sl, tl, o)
    ensures Shown(req, o, Handle(c, sl, req).thread.response) ==
        Shown(req, o, Handle(c, Uncached(tl), req).thread.response)
    ensures SliceRefines(Handle(c, sl, req).slice, Uncached(Handle(c, Uncached(tl), req).slice), o)
  {
    CalmStaysCoherent(c, sl, req, o);
    match req
    case Analyze(_, _, _, _) => AnalyzeRefines(c, sl, tl, req);
    case Delete(_, _) => DeleteRefines(c, sl, tl, req);
    case _ => ReadRefines(c, sl, tl, req, o);
  }

  /** An id that names a place of its own, or fails the check. */
  predicate Admissible(id: string) {
    PlainId(id) || !ValidId(id)
  }

  lemma InvalidServed(c: Codec, sl: Slice, req: Request)
    requires !ValidId(req.id)
    ensures Handle(c, sl, req).slice == sl && Handle(c, sl, req).thread.response == BadRequest
  {
    var p := Step(c, sl, Begin(req));
    assert Handle(c, sl, req) == Finish(c, p.slice, p.thread);
  }

  lemma ServeRefines<W(!new)>(c: Codec, m: Memory<W>, w: W, u: W, req: Request, o: Object)
    requires SlicesApart(m) && Admissible(req.id) && Calm(c, req, o) && Refines(m, w, u, o)
    ensures Refines(m, Serve(c, m, w, req), ServeUncached(c, m, u, req), o)
  {
    if ValidId(req.id) {
      HandleRefines(c, m.view(w, req.id), m.view(u, req.id), req, o);
      assert OwnSlice(m, req.id);
    } else {
      InvalidServed(c, m.view(w, req.id), req);
    }
  }

  lemma ComparedAlike<W(!new)>(c: Codec, m: Memory<W>, w: W, u: W, req: Request, o: Object)
    requires Admissible(req.id) && Calm(c, req, o) && Refines(m, w, u, o)
    ensures Shown(req, o, Handle(c, m.view(w, req.id), req).thread.response)
         == Shown(req, o, Handle(c, Uncached(m.view(u, req.id)), req).thread.response)
  {
    if ValidId(req.id) {
      HandleRefines(c, m.view(w, req.id), m.view(u, req.id), req, o);
    } else {
      InvalidServed(c, m.view(w, req.id), req);
      InvalidServed(c, Uncached(m.view(u, req.id)), req);
    }
  }

  /**
   * Over every run of requests on any ids, each failing wherever it likes short of the faults
   * that Calm names for this object, the caching server answers as one without a cache.
   */
  lemma {:induction false} CacheInvisible<W(!new)>(c: Codec, m: Memory<W>, w: W, u: W, reqs: seq<Request>, o: Object)
    requires SlicesApart(m) && Refines(m, w, u, o)
    requires forall req | req in reqs :: Admissible(req.id) && Calm(c, req, o)
    ensures Responses(c, m, w, reqs, o) == ResponsesUncached(c, m, u, reqs, o)
    decreases reqs
  {
    if reqs != [] {
      ComparedAlike(c, m, w, u, reqs[0], o);
      ServeRefines(c, m, w, u, reqs[0], o);
      CacheInvisible(c, m, Serve(c, m, w, reqs[0]), ServeUncached(c, m, u, reqs[0]), reqs[1..], o);
    }
  }

  /** The service's own case: two clear directories, and a cache that is coherent to begin with. */
  lemma ServiceCacheInvisible(c: Codec, tmp: string, base: string, w: World, reqs: seq<Request>, o: Object)
    requires BaseClear(Resolve(tmp), Resolve(base), CACHE)
    requires forall id | PlainId(id) ::
      var sl := ServiceMemory(tmp, base).view(w, id); Coherent(sl, o) && sl.temp.below == map[]
    requires forall req | req in reqs :: Admissible(req.id) && Calm(c, req, o)
    ensures Responses(c, ServiceMemory(tmp, base), w, reqs, o) ==
        ResponsesUncached(c, ServiceMemory(tmp, base), w, reqs, o)
  {
    SeparateExactly(tmp, base);
    SeparateSlices(PlacesUnder(tmp, base));
    CacheInvisible(c, ServiceMemory(tmp, base), w, w, reqs, o);
  }

  // ----- from the container to the reader -----

  /**
   * On the slice of the id: an analysis that collected and stored its report, and then a read,
   * which is answered with what the stream's entries say of the name its path stands for.
   */
  lemma StreamToNextRead(
    c: Codec, sl: Slice, analyze: Request, get: Request, t: Tree, base: string, layout: Layout, s: Stream,
    name: string, view: View)
    requires Lawful(c)
    requires Reportable(c, analyze) && PlainId(analyze.id)
    requires Collect(t, base, analyze.id, {}, layout, s).ok
    requires analyze.ran.value == Collected(t, base, analyze.id, {}, layout, s)
    requires ZipStored(sl, analyze.faults) && !analyze.faults.dropZip && Tidy(sl.cachedZip)
    requires get.GetResult? && get.id == analyze.id && ReadsCleanly(get) && !get.faults.open
    requires Stands(get.path, name) && Tells(map[], JoinPath(base, analyze.id), layout, s.entries, view)
    ensures Handle(c, Handle(c, sl, analyze).slice, get).thread.response == Found(Served(view, name))
  {
    FreshReport(t, base, analyze.id, layout, s, get.path, name, view);
    StoredThenRead(c, sl, analyze, get);
  }

  lemma StoredThenRead(c: Codec, sl: Slice, analyze: Request, get: Request)
    requires Lawful(c) && Reportable(c, analyze)
    requires ZipStored(sl, analyze.faults) && !analyze.faults.dropZip && Tidy(sl.cachedZip)
    requires get.GetResult? && ValidId(get.id) && ReadsCleanly(get) && !get.faults.open
    ensures Handle(c, Handle(c, sl, analyze).slice, get).thread.response
         == Found(Lookup(ArchiveOf(analyze.ran.value), get.path))
  {
    var archive := ArchiveOf(analyze.ran.value);
    AnalyzeOutcome(c, sl, analyze);
    PublishedCached(sl, analyze.faults, c.pack(archive), Uploaded(c, analyze), Zip);
    FreshRead(c, Handle(c, sl, analyze).slice, get, c.pack(archive));
    assert c.unpack(c.pack(archive)) == Some(archive);
  }

  lemma FreshRead(c: Codec, sl: Slice, get: Request, stored: Bytes)
    requires get.GetResult? && ValidId(get.id) && ReadsCleanly(get)
    requires sl.zip == Some(stored) && sl.cachedZip == GONE
    ensures Handle(c, sl, get).thread.response == Rendered(c, get, stored)
  {
    ReadOutcome(c, sl, get);
  }

  /**
   * The first step of an analysis is the runner's collecting: on a disk where the base
   * directory exists, it leaves the disk as the cleared and filled result directory does.
   */
  lemma RunnerStepCollects(
      c: Codec, tmp: string, base: string, s: System<World>, i: nat, layout: Layout, stream: Stream)
    requires BaseClear(Resolve(tmp), Resolve(base), CACHE)
    requires i < |s.threads| && s.threads[i] == Begin(s.threads[i].req) && Reportable(c, s.threads[i].req)
    requires var id, disk := s.threads[i].req.id, s.world.disk;
      && PlainId(id) && DirsOf(Resolve(base)) <= DirsIn(disk) && Collect(disk, base, id, {}, layout, stream).ok
      && s.threads[i].req.ran.value == Collected(disk, base, id, {}, layout, stream)
    ensures ThreadStep(Handlers(c), ServiceMemory(tmp, base), s, i).world
         == s.world.(disk := Collect(s.world.disk, base, s.threads[i].req.id, {}, layout, stream).tree)
  {
    var id, m := s.threads[i].req.id, ServiceMemory(tmp, base);
    SeparateExactly(tmp, base);
    LocalPlaces(tmp, base, id);
    AnalysisStarts(c, m, s, i);
    DirPut(s.world, PlacesUnder(tmp, base)(id), FolderOf(s.threads[i].req.ran.value));
    CollectGrafts(s.world.disk, base, id, layout, stream);
  }

  /** A request that runs through in n steps of its thread. */
  lemma BurstHandles<W(!new)>(c: Codec, m: Memory<W>, s: System<W>, i: nat, n: nat)
    requires i < |s.threads| && s.threads[i] == Begin(s.threads[i].req) && OwnSlice(m, s.threads[i].req.id) && n >= 11
    ensures var id, u := s.threads[i].req.id, Exec(Handlers(c), m, s, Times(i, n));
      var p := Handle(c, m.view(s.world, id), s.threads[i].req);
      m.view(u.world, id) == p.slice && u.threads == s.threads[i := p.thread]
  {
    HandlersKeepRequests(c);
    Burst(Handlers(c), m, s, i, n, s.threads[i].req.id);
    RepeatFinishes(c, m.view(s.world, s.threads[i].req.id), s.threads[i], n);
  }

  /** Two requests of one id, the second after the first. */
  lemma TwoBursts<W(!new)>(c: Codec, m: Memory<W>, s: System<W>, i: nat, k: nat, n: nat, r: nat)
    requires i < |s.threads| && k < |s.threads| && i != k && n >= 11 && r >= 11
    requires s.threads[i] == Begin(s.threads[i].req) && s.threads[k] == Begin(s.threads[k].req)
    requires s.threads[k].req.id == s.threads[i].req.id && OwnSlice(m, s.threads[i].req.id)
    ensures var first := Handle(c, m.view(s.world, s.threads[i].req.id), s.threads[i].req);
      ResponseOf(Exec(Handlers(c), m, s, Times(i, n) + Times(k, r)), k)
        == Handle(c, first.slice, s.threads[k].req).thread.response
  {
    var u := Exec(Handlers(c), m, s, Times(i, n));
    ExecAppend(Handlers(c), m, s, Times(i, n), Times(k, r));
    BurstHandles(c, m, s, i, n);
    BurstHandles(c, m, u, k, r);
  }

  lemma SameResponse<W(!new)>(c: Codec, m: Memory<W>, s: System<W>, sched: seq<nat>, own: seq<nat>, id: string, k: nat)
    requires SameFor(m, Exec(Handlers(c), m, s, sched), Exec(Handlers(c), m, s, own), id)
    requires k < |s.threads| && s.threads[k].req.id == id
    ensures ResponseOf(Exec(Handlers(c), m, s, sched), k) == ResponseOf(Exec(Handlers(c), m, s, own), k)
  {
    HandlersKeepRequests(c);
    ExecKeepsRequests(Handlers(c), m, s, sched);
  }

  /** The requests of a run in which thread i analyses and stores a report and thread k reads it. */
  ghost predicate StoresThenReads(
    c: Codec, tmp: string, base: string, s: System<World>, sched: seq<nat>, i: nat, k: nat, n: nat, r: nat,
    t: Tree, layout: Layout, stream: Stream)
  {
    && i < |s.threads| && k < |s.threads| && i != k && n >= 11 && r >= 11
    && s.threads[i] == Begin(s.threads[i].req) && s.threads[k] == Begin(s.threads[k].req)
    && var analyze, get := s.threads[i].req, s.threads[k].req;
       var sl := ServiceMemory(tmp, base).view(s.world, analyze.id);
       && PlainId(analyze.id) && Reportable(c, analyze) && !analyze.faults.dropZip
       && Collect(t, base, analyze.id, {}, layout, stream).ok
       && analyze.ran.value == Collected(t, base, analyze.id, {}, layout, stream)
       && get.GetResult? && get.id == analyze.id && ReadsCleanly(get) && !get.faults.open
       && Filtered(s, sched, analyze.id) == Times(i, n) + Times(k, r)
       && ZipStored(sl, analyze.faults) && Tidy(sl.cachedZip)
  }

  /**
   * On the shared store and disk, for all clear directories and beside any interleaved
   * requests for other ids: after an analysis that collected its report into a cleared
   * directory and stored it, a read is answered with what the entries of the container's
   * stream say of the name that its path stands for.
   */
  lemma StreamToReader(
    c: Codec, tmp: string, base: string, s: System<World>, sched: seq<nat>, i: nat, k: nat, n: nat, r: nat,
    t: Tree, layout: Layout, stream: Stream, name: string, view: View)
    requires Lawful(c) && BaseClear(Resolve(tmp), Resolve(base), CACHE) && IdsPlain(s)
    requires StoresThenReads(c, tmp, base, s, sched, i, k, n, r, t, layout, stream)
    requires Stands(s.threads[k].req.path, name)
    requires Tells(map[], JoinPath(base, s.threads[i].req.id), layout, stream.entries, view)
    ensures ResponseOf(Exec(Handlers(c), ServiceMemory(tmp, base), s, sched), k) == Found(Served(view, name))
  {
    var m, id := ServiceMemory(tmp, base), s.threads[i].req.id;
    StoredAndReadResponse(c, tmp, base, s, sched, i, k, n, r, t, layout, stream);
    StreamToNextRead(c, m.view(s.world, id), s.threads[i].req, s.threads[k].req, t, base, layout, stream, name, view);
  }

  /** Other requests taken away, the two are handled one after the other. */
  lemma StoredAndReadResponse(
    c: Codec, tmp: string, base: string, s: System<World>, sched: seq<nat>, i: nat, k: nat, n: nat, r: nat,
    t: Tree, layout: Layout, stream: Stream)
    requires BaseClear(Resolve(tmp), Resolve(base), CACHE) && IdsPlain(s)
    requires StoresThenReads(c, tmp, base, s, sched, i, k, n, r, t, layout, stream)
    ensures var m, analyze, get := ServiceMemory(tmp, base), s.threads[i].req, s.threads[k].req;
      ResponseOf(Exec(Handlers(c), m, s, sched), k)
        == Handle(c, Handle(c, m.view(s.world, analyze.id), analyze).slice, get).thread.response
  {
    var m, id := ServiceMemory(tmp, base), s.threads[i].req.id;
    HandlersDoNotInterfere(c, tmp, base, s, sched, id);
    SeparateExactly(tmp, base);
    SeparateSlices(PlacesUnder(tmp, base));
    assert OwnSlice(m, id);
    SameResponse(c, m, s, sched, Times(i, n) + Times(k, r), id, k);
    TwoBursts(c, m, s, i, k, n, r);
  }

  /** So a read of a path gets the content of the last regular entry that stands for it. */
  lemma EntryToReader(
    c: Codec, tmp: string, base: string, s: System<World>, sched: seq<nat>, i: nat, k: nat, n: nat, r: nat,
    t: Tree, layout: Layout, stream: Stream, e: int)
    requires Lawful(c) && BaseClear(Resolve(tmp), Resolve(base), CACHE) && IdsPlain(s)
    requires StoresThenReads(c, tmp, base, s, sched, i, k, n, r, t, layout, stream)
    requires var id, path := s.threads[i].req.id, s.threads[k].req.path;
      && path != "" && '\\' !in path
      && LastAt(JoinPath(base, id), layout, stream.entries, e, At(ResultDir(base, id), Split(path, '/')))
    ensures ResponseOf(Exec(Handlers(c), ServiceMemory(tmp, base), s, sched), k)
         == Page(ZipEntry(s.threads[k].req.path, stream.entries[e].content))
  {
    var id := s.threads[i].req.id;
    StoredAndReadResponse(c, tmp, base, s, sched, i, k, n, r, t, layout, stream);
    FreshPage(t, base, id, layout, stream, s.threads[k].req.path, e);
    StoredThenRead(c, ServiceMemory(tmp, base).view(s.world, id), s.threads[i].req, s.threads[k].req);
  }

  /** After an analysis, a read of the screenshot gets the file that the browser left for the first page. */
  lemma ScreenshotToReader(c: Codec, sl: Slice, analyze: Request, get: Request, page: string, b: Bytes)
    requires analyze.Analyze? && ValidId(analyze.id) && analyze.valid && analyze.ran.Some?
    requires FirstPageOf(c, analyze.ran.value, page) && !analyze.faults.uploadShot && !analyze.faults.dropShot
    requires ZipStored(sl, analyze.faults) && Tidy(sl.cachedShot)
    requires Get(analyze.ran.value, ["pages", page, "data", "screenshots", "1", "afterPageCompleteCheck.png"])
          == Some(File(b))
    requires get.GetShot? && get.id == analyze.id && ReadsCleanly(get)
    ensures Handle(c, Handle(c, sl, analyze).slice, get).thread.response == Image(b)
  {
    ScreenshotStored(c, sl, analyze, page);
    CachedShotGone(c, sl, analyze, page);
    ReadOutcome(c, Handle(c, sl, analyze).slice, get);
  }

  lemma CachedShotGone(c: Codec, sl: Slice, analyze: Request, page: string)
    requires analyze.Analyze? && ValidId(analyze.id) && analyze.valid && analyze.ran.Some?
    requires FirstPageOf(c, analyze.ran.value, page) && !analyze.faults.dropShot
    requires ZipStored(sl, analyze.faults) && Tidy(sl.cachedShot)
    ensures Handle(c, sl, analyze).slice.cachedShot == GONE
  {
    AnalyzeOutcome(c, sl, analyze);
    InspectedExactly(c, analyze.ran.value, page);
    PublishedCached(sl, analyze.faults, c.pack(ArchiveOf(analyze.ran.value)), Uploaded(c, analyze), Shot);
  }

  // ----- the paths of requests -----

  /** Reads that differ only in paths that stand for one name are answered alike, in every state. */
  lemma SamePathAnswer(c: Codec, sl: Slice, id: string, f: Faults, path: string, other: string, name: string)
    requires Stands(path, name) && Stands(other, name)
    ensures Handle(c, sl, GetResult(id, path, f)).thread.response ==
        Handle(c, sl, GetResult(id, other, f)).thread.response
  {
    ReadOutcome(c, sl, GetResult(id, path, f));
    ReadOutcome(c, sl, GetResult(id, other, f));
    forall b ensures Rendered(c, GetResult(id, path, f), b) == Rendered(c, GetResult(id, other, f), b) {
      if c.unpack(b).Some? { SameName(c.unpack(b).value, path, other, name); }
    }
  }

  /** The empty path is answered as "index.html", and backslashes as slashes. */
  lemma PathAnswers(c: Codec, sl: Slice, id: string, f: Faults, path: string, slashed: string)
    requires path != "" && |slashed| == |path|
    requires forall i | 0 <= i < |path| :: slashed[i] == if path[i] == '\\' then '/' else path[i]
    ensures Handle(c, sl, GetResult(id, "", f)).thread.response
         == Handle(c, sl, GetResult(id, "index.html", f)).thread.response
    ensures Handle(c, sl, GetResult(id, path, f)).thread.response
         == Handle(c, sl, GetResult(id, slashed, f)).thread.response
  {
    PlainStands(slashed);
    PageName("index.html");
    PlainStands("index.html");
    SamePathAnswer(c, sl, id, f, "", "index.html", "index.html");
    SamePathAnswer(c, sl, id, f, path, slashed, slashed);
  }

  function Found(served: Option<ZipEntry>): Response {
    if served.Some? then Page(served.value) else NotFound
  }
}
