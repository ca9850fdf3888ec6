/**
 * Readers of one id that overlap: exactly when a reader that opens the cached file is
 * answered from the store. Downloads create the file first and fill it afterwards, each
 * from where it is itself.
 */
module Readers {
  import opened Wrappers
  import opened Keys
  import opened Footprints
  import opened Requests
  import opened Interleaving

  /**
   * What the writes so far have made of the cached file, of an object z: nothing, its first n
   * bytes, these and everything from some later point on with a hole between, or all of it.
   */
  datatype Extent = Nothing | First(n: nat) | Holed(n: nat, m: nat) | Whole

  /** After writing everything from v on. */
  function Rest(e: Extent, v: nat): Extent {
    match e
    case First(n) => if v <= n then Whole else Holed(n, v)
    case Holed(n, m) => if v <= n then Whole else Holed(n, if m <= v then m else v)
    case _ => Whole
  }

  /** The extent after a step of a reader: creating the file truncates it, completing it writes the rest. */
  function ExtentAfter(th: Thread, o: Object, e: Extent): Extent {
    if !Reads(th.req, o) then e
    else if th.stage.Create? && !th.req.faults.create then First(Visible(th))
    else if th.stage.Copy? then Rest(e, Visible(th))
    else e
  }

  predicate Fits(e: Extent, z: Bytes) {
    match e
    case First(n) => n <= |z|
    case Holed(n, m) => n < m <= |z|
    case _ => true
  }

  function BytesOf(e: Extent, z: Bytes): Bytes
    requires Fits(e, z) && !e.Nothing?
  {
    match e
    case First(n) => z[..n]
    case Holed(n, m) => z[..n] + Zeros(m - n) + z[m..]
    case Whole => z
  }

  /** What the cached file holds. */
  function Held(e: Extent, z: Bytes): Local
    requires Fits(e, z)
  {
    if e.Nothing? then GONE else PlainFile(BytesOf(e, z))
  }

  lemma RestWritten(e: Extent, z: Bytes, v: nat)
    requires Fits(e, z) && v <= |z| && !e.Nothing?
    ensures Fits(Rest(e, v), z) && Overwritten(BytesOf(e, z), v, z) == BytesOf(Rest(e, v), z)
  {
    match e
    case First(n) => RestOfFirst(z, n, v);
    case Holed(n, m) => RestOfHoled(z, n, m, v);
    case Whole => RestOfWhole(z, v);
  }

  lemma RestOfFirst(z: Bytes, n: nat, v: nat)
    requires n <= |z| && v <= |z|
    ensures Overwritten(BytesOf(First(n), z), v, z) == BytesOf(Rest(First(n), v), z)
  {
    if v <= n {
      assert z[..n][..v] + z[v..] == z;
    } else {
      assert (z[..n] + Zeros(v - n))[..v] == z[..n] + Zeros(v - n);
    }
  }

  lemma RestOfHoled(z: Bytes, n: nat, m: nat, v: nat)
    requires n < m <= |z| && v <= |z|
    ensures Overwritten(BytesOf(Holed(n, m), z), v, z) == BytesOf(Rest(Holed(n, m), v), z)
  {
    var held := BytesOf(Holed(n, m), z);
    assert |held| == |z|;
    SameLengthOverwritten(held, v, z);
    HoledFrom(z, n, m, v);
  }

  lemma SameLengthOverwritten(held: Bytes, v: nat, z: Bytes)
    requires |held| == |z| && v <= |z|
    ensures Overwritten(held, v, z) == held[..v] + z[v..]
  {
  }

  lemma HoledFrom(z: Bytes, n: nat, m: nat, v: nat)
    requires n < m <= |z| && v <= |z|
    ensures var held := z[..n] + Zeros(m - n) + z[m..];
      held[..v] + z[v..] == BytesOf(Rest(Holed(n, m), v), z)
  {
    var held := z[..n] + Zeros(m - n) + z[m..];
    if v <= n {
      BeginningFrom(z, held, v);
    } else if v < m {
      assert held[..v] == z[..n] + Zeros(v - n);
    } else {
      assert held[v..] == z[v..];
      assert held[..v] + held[v..] == held;
    }
  }

  lemma BeginningFrom(z: Bytes, held: Bytes, v: nat)
    requires v <= |z| && v <= |held| && forall k | 0 <= k < v :: held[k] == z[k]
    ensures held[..v] + z[v..] == z
  {
    assert held[..v] == z[..v];
  }

  lemma RestOfWhole(z: Bytes, v: nat)
    requires v <= |z|
    ensures Overwritten(BytesOf(Whole, z), v, z) == BytesOf(Rest(Whole, v), z)
  {
    assert z[..v] + z[v..] == z;
  }

  /** A reader between two steps, in a run of readers of an object z. */
  predicate InPlace(sl: Slice, th: Thread, o: Object, z: Bytes) {
    && IsRead(th.req) && th.req.faults.torn.None? && (th.stage.Start? || Reading(th.stage) || th.stage.Done?)
    && (Reads(th.req, o) && (th.stage.Create? || th.stage.Copy?) ==> th.body == z)
    && (Reads(th.req, o) && th.stage.Copy? ==> Live(sl, th))
    && (Reads(th.req, o) && th.stage.Read? ==> Present(Cached(sl, o)))
  }

  predicate Keeps(sl: Slice, o: Object, z: Bytes, e: Extent) {
    Fits(e, z) && Stored(sl, o) == Some(z) && Cached(sl, o) == Held(e, z)
  }

  lemma ReaderStep(c: Codec, sl: Slice, th: Thread, o: Object, z: Bytes, e: Extent)
    requires Keeps(sl, o, z, e) && InPlace(sl, th, o, z)
    ensures var p := Step(c, sl, th);
      Keeps(p.slice, o, z, ExtentAfter(th, o, e)) && InPlace(p.slice, p.thread, o, z) && Age(p.slice, o) == Age(sl, o)
  {
    if !Reads(th.req, o) {
      OtherReaderStep(c, sl, th, o);
    } else if th.stage.Create? {
      CreateStep(c, sl, th, o, z);
    } else if th.stage.Copy? {
      CopyStep(c, sl, th, o, z, e);
    }
  }

  lemma OtherReaderStep(c: Codec, sl: Slice, th: Thread, o: Object)
    requires IsRead(th.req) && !Reads(th.req, o) && th.req.faults.torn.None?
    requires th.stage.Start? || Reading(th.stage) || th.stage.Done?
    ensures var p := Step(c, sl, th);
      && Cached(p.slice, o) == Cached(sl, o) && Stored(p.slice, o) == Stored(sl, o) && Age(p.slice, o) == Age(sl, o)
      && (p.thread.stage.Start? || Reading(p.thread.stage) || p.thread.stage.Done?)
  {
  }

  lemma CreateStep(c: Codec, sl: Slice, th: Thread, o: Object, z: Bytes)
    requires Reads(th.req, o) && th.stage.Create? && th.body == z && th.req.faults.torn.None?
    requires Tidy(Cached(sl, o)) && Stored(sl, o) == Some(z)
    ensures var p := Step(c, sl, th);
      && Age(p.slice, o) == Age(sl, o) && Stored(p.slice, o) == Some(z)
      && if th.req.faults.create then p.thread.stage.Done? && Cached(p.slice, o) == Cached(sl, o)
         else p.thread.stage.Copy? && p.thread.body == z && Live(p.slice, p.thread)
              && Cached(p.slice, o) == Held(First(Visible(th)), z)
  {
  }

  lemma CopyStep(c: Codec, sl: Slice, th: Thread, o: Object, z: Bytes, e: Extent)
    requires Keeps(sl, o, z, e) && InPlace(sl, th, o, z) && Reads(th.req, o) && th.stage.Copy?
    ensures var p := Step(c, sl, th);
      && Keeps(p.slice, o, z, Rest(e, Visible(th))) && Age(p.slice, o) == Age(sl, o)
      && p.thread.stage.Read? && Present(Cached(p.slice, o))
  {
    RestWritten(e, z, Visible(th));
  }

  lemma OtherInPlace(sl: Slice, tl: Slice, x: Thread, o: Object, z: Bytes, e: Extent, g: Extent)
    requires InPlace(sl, x, o, z) && Keeps(sl, o, z, e) && Keeps(tl, o, z, g) && Age(tl, o) == Age(sl, o)
    requires g.Nothing? ==> e.Nothing?
    ensures InPlace(tl, x, o, z)
  {
  }

  /** A state in which only readers of an object z are at work on the id. */
  ghost predicate ReadersOnly<W(!new)>(m: Memory<W>, s: System<W>, id: string, o: Object, z: Bytes, e: Extent) {
    var sl := m.view(s.world, id);
    && Keeps(sl, o, z, e)
    && forall j: nat | j < |s.threads| && s.threads[j].req.id == id :: InPlace(sl, s.threads[j], o, z)
  }

  /** The extent of the cached file after a run, from its schedule. */
  ghost function ExtentOf<W(!new)>(
      c: Codec, m: Memory<W>, s: System<W>, sched: seq<nat>, id: string, o: Object, e: Extent): Extent
    decreases sched
  {
    if sched == [] then e
    else
      var i := sched[0];
      ExtentOf(c, m, ThreadStep(Handlers(c), m, s, i), sched[1..], id, o,
               if i < |s.threads| && s.threads[i].req.id == id then ExtentAfter(s.threads[i], o, e) else e)
  }

  lemma OwnReaderStep<W(!new)>(c: Codec, m: Memory<W>, s: System<W>, i: nat, id: string, o: Object, z: Bytes, e: Extent)
    requires OwnSlice(m, id) && i < |s.threads| && s.threads[i].req.id == id && ReadersOnly(m, s, id, o, z, e)
    ensures ReadersOnly(m, ThreadStep(Handlers(c), m, s, i), id, o, z, ExtentAfter(s.threads[i], o, e))
  {
    var sl, u := m.view(s.world, id), ThreadStep(Handlers(c), m, s, i);
    var p := Step(c, sl, s.threads[i]);
    OwnStep(Handlers(c), m, s, i, id);
    ReaderStep(c, sl, s.threads[i], o, z, e);
    forall j: nat | j < |u.threads| && u.threads[j].req.id == id ensures InPlace(p.slice, u.threads[j], o, z) {
      if j != i {
        assert u.threads[j] == s.threads[j];
        OtherInPlace(sl, p.slice, s.threads[j], o, z, e, ExtentAfter(s.threads[i], o, e));
      }
    }
  }

  lemma {:induction false} ReadersRun<W(!new)>(
      c: Codec, m: Memory<W>, s: System<W>, sched: seq<nat>, id: string, o: Object, z: Bytes, e: Extent)
    requires SlicesApart(m) && IdsPlain(s) && PlainId(id) && ReadersOnly(m, s, id, o, z, e)
    ensures ReadersOnly(m, Exec(Handlers(c), m, s, sched), id, o, z, ExtentOf(c, m, s, sched, id, o, e))
    decreases sched
  {
    if sched != [] {
      var i := sched[0];
      HandlersKeepRequests(c);
      StepKeepsIds(Handlers(c), m, s, i);
      if i < |s.threads| && s.threads[i].req.id == id {
        OwnReaderStep(c, m, s, i, id, o, z, e);
        ReadersRun(c, m, ThreadStep(Handlers(c), m, s, i), sched[1..], id, o, z, ExtentAfter(s.threads[i], o, e));
      } else {
        OtherStepUnseen(Handlers(c), m, s, i, id);
        ReadersRun(c, m, ThreadStep(Handlers(c), m, s, i), sched[1..], id, o, z, e);
      }
    }
  }

  // ----- the bytes -----

  predicate AllZero(b: Bytes) {
    forall k | 0 <= k < |b| :: b[k] == 0
  }

  /** The extents that give the whole object: written whole, cut off at its end, or with a hole where it is zero. */
  predicate Complete(e: Extent, z: Bytes)
    requires Fits(e, z)
  {
    match e
    case Nothing => false
    case First(n) => n == |z|
    case Holed(n, m) => AllZero(z[n..m])
    case Whole => true
  }

  /** And only they do. */
  lemma WholeBytesExactly(e: Extent, z: Bytes)
    requires Fits(e, z) && !e.Nothing?
    ensures BytesOf(e, z) == z <==> Complete(e, z)
  {
    match e
    case Nothing =>
    case Whole =>
    case First(n) =>
      if n == |z| { assert z[..n] == z; }
    case Holed(n, m) => HoleFilled(z, n, m);
  }

  lemma HoleFilled(z: Bytes, n: nat, m: nat)
    requires n < m <= |z|
    ensures z[..n] + Zeros(m - n) + z[m..] == z <==> AllZero(z[n..m])
  {
    var held := z[..n] + Zeros(m - n) + z[m..];
    assert forall k | n <= k < m :: held[k] == 0;
    if AllZero(z[n..m]) {
      forall k | 0 <= k < |z| ensures held[k] == z[k] {
        if n <= k < m { assert z[n..m][k - n] == 0; }
      }
    }
    if held == z {
      forall k | 0 <= k < m - n ensures z[n..m][k] == 0 {
        assert held[n + k] == 0;
      }
    }
  }

  // ----- an incomplete file is being completed -----

  /** A reader that has created the cached file and not completed it, and starts where the gap does or before. */
  predicate Closes(th: Thread, id: string, o: Object, e: Extent) {
    && th.req.id == id && Reads(th.req, o) && th.stage.Copy?
    && (e.First? || e.Holed?) && Visible(th) <= e.n
  }

  /** As long as the file is not whole, there is such a reader. */
  ghost predicate BeingClosed(threads: seq<Thread>, id: string, o: Object, e: Extent) {
    e.Nothing? || e.Whole? || exists j: nat | j < |threads| :: Closes(threads[j], id, o, e)
  }

  /** What a step makes of a reader that may close the gap. */
  lemma ClosingStep(c: Codec, sl: Slice, th: Thread, id: string, o: Object, z: Bytes, e: Extent)
    requires Keeps(sl, o, z, e) && InPlace(sl, th, o, z) && th.req.id == id
    ensures var p, g := Step(c, sl, th), ExtentAfter(th, o, e);
      || (g == e && (Closes(th, id, o, e) ==> Closes(p.thread, id, o, e)))
      || g.Whole? || Closes(p.thread, id, o, g)
      || ((e.First? || e.Holed?) && (g.First? || g.Holed?) && g.n == e.n && !Closes(th, id, o, e))
  {
    if !Reads(th.req, o) {
      OtherReaderStep(c, sl, th, o);
    } else if th.stage.Create? {
      CreateStep(c, sl, th, o, z);
    } else if th.stage.Copy? {
      CopyStep(c, sl, th, o, z, e);
    }
  }

  lemma OwnClosing<W(!new)>(c: Codec, m: Memory<W>, s: System<W>, i: nat, id: string, o: Object, z: Bytes, e: Extent)
    requires OwnSlice(m, id) && i < |s.threads| && s.threads[i].req.id == id
    requires ReadersOnly(m, s, id, o, z, e) && BeingClosed(s.threads, id, o, e)
    ensures BeingClosed(ThreadStep(Handlers(c), m, s, i).threads, id, o, ExtentAfter(s.threads[i], o, e))
  {
    var u, g := ThreadStep(Handlers(c), m, s, i), ExtentAfter(s.threads[i], o, e);
    OwnStep(Handlers(c), m, s, i, id);
    ClosingStep(c, m.view(s.world, id), s.threads[i], id, o, z, e);
    assert u.threads[i] == Step(c, m.view(s.world, id), s.threads[i]).thread;
    if !e.Nothing? && !e.Whole? && !g.Whole? && !Closes(u.threads[i], id, o, g) {
      var j: nat :| j < |s.threads| && Closes(s.threads[j], id, o, e);
      assert j != i && u.threads[j] == s.threads[j];
      assert Closes(u.threads[j], id, o, g);
    }
  }

  lemma OtherClosing(threads: seq<Thread>, after: seq<Thread>, id: string, o: Object, e: Extent)
    requires BeingClosed(threads, id, o, e) && |after| == |threads|
    requires forall j | 0 <= j < |threads| && threads[j].req.id == id :: after[j] == threads[j]
    ensures BeingClosed(after, id, o, e)
  {
    if !e.Nothing? && !e.Whole? {
      var j: nat :| j < |threads| && Closes(threads[j], id, o, e);
      assert Closes(after[j], id, o, e);
    }
  }

  lemma {:induction false} ClosingRun<W(!new)>(
      c: Codec, m: Memory<W>, s: System<W>, sched: seq<nat>, id: string, o: Object, z: Bytes, e: Extent)
    requires SlicesApart(m) && IdsPlain(s) && PlainId(id)
    requires ReadersOnly(m, s, id, o, z, e) && BeingClosed(s.threads, id, o, e)
    ensures BeingClosed(Exec(Handlers(c), m, s, sched).threads, id, o, ExtentOf(c, m, s, sched, id, o, e))
    decreases sched
  {
    if sched != [] {
      var i, u := sched[0], ThreadStep(Handlers(c), m, s, sched[0]);
      HandlersKeepRequests(c);
      StepKeepsIds(Handlers(c), m, s, i);
      if i < |s.threads| && s.threads[i].req.id == id {
        OwnReaderStep(c, m, s, i, id, o, z, e);
        OwnClosing(c, m, s, i, id, o, z, e);
        ClosingRun(c, m, u, sched[1..], id, o, z, ExtentAfter(s.threads[i], o, e));
      } else {
        OtherStepUnseen(Handlers(c), m, s, i, id);
        OtherClosing(s.threads, u.threads, id, o, e);
        ClosingRun(c, m, u, sched[1..], id, o, z, e);
      }
    }
  }

  // ----- what overlapping readers leave, and are answered -----

  /** Nobody reading the object is between creating the cached file and completing it. */
  ghost predicate NoneCopying<W(!new)>(s: System<W>, id: string, o: Object) {
    forall j: nat | j < |s.threads| && s.threads[j].req.id == id && Reads(s.threads[j].req, o) ::
      !s.threads[j].stage.Copy?
  }

  /** A run of overlapping readers of an id, from nothing cached, beside any requests for other ids. */
  ghost predicate ReadersFromNothing<W(!new)>(m: Memory<W>, s: System<W>, id: string, o: Object, z: Bytes) {
    SlicesApart(m) && IdsPlain(s) && PlainId(id) && ReadersOnly(m, s, id, o, z, Nothing)
  }

  /** Whenever nobody is copying, the file is not there or whole. */
  lemma QuietIsWhole<W(!new)>(c: Codec, m: Memory<W>, s: System<W>, sched: seq<nat>, id: string, o: Object, z: Bytes)
    requires ReadersFromNothing(m, s, id, o, z)
    ensures var u, e := Exec(Handlers(c), m, s, sched), ExtentOf(c, m, s, sched, id, o, Nothing);
      && ReadersOnly(m, u, id, o, z, e)
      && (NoneCopying(u, id, o) ==> e.Nothing? || e.Whole?)
  {
    ReadersRun(c, m, s, sched, id, o, z, Nothing);
    ClosingRun(c, m, s, sched, id, o, z, Nothing);
  }

  /**
   * However any number of readers of an id overlap, from nothing cached, beside any requests
   * for other ids: whenever none of them is copying, and so whenever they are done, the cache
   * agrees with the store.
   */
  lemma ReadersLeaveCoherent<W(!new)>(
      c: Codec, m: Memory<W>, s: System<W>, sched: seq<nat>, id: string, o: Object, z: Bytes)
    requires ReadersFromNothing(m, s, id, o, z)
    ensures var u := Exec(Handlers(c), m, s, sched);
      && (NoneCopying(u, id, o) ==> Coherent(m.view(u.world, id), o))
      && (AtRest(u, id) ==> Coherent(m.view(u.world, id), o))
  {
    QuietIsWhole(c, m, s, sched, id, o, z);
  }

  /** What a reader gets that opens a cached file of this extent. */
  lemma OpenedAt(c: Codec, sl: Slice, th: Thread, z: Bytes, e: Extent)
    requires ReadsCleanly(th.req) && th.stage.Read? && InPlace(sl, th, ObjectOf(th.req), z) &&
        Keeps(sl, ObjectOf(th.req), z, e)
    ensures !e.Nothing? && Step(c, sl, th).thread.response == Rendered(c, th.req, BytesOf(e, z))
    ensures Direct(c, sl, th.req) == Rendered(c, th.req, z)
  {
  }

  /** A reader of the run that is about to open the cached file. */
  ghost predicate AboutToOpen<W(!new)>(s: System<W>, u: System<W>, i: nat) {
    i < |s.threads| && i < |u.threads| && ReadsCleanly(s.threads[i].req) && u.threads[i].stage.Read?
  }

  /** A reader that opens the file while nobody is copying is answered from the store. */
  lemma QuietReadersAnswered<W(!new)>(c: Codec, m: Memory<W>, s: System<W>, sched: seq<nat>, i: nat, z: Bytes)
    requires AboutToOpen(s, Exec(Handlers(c), m, s, sched), i)
    requires ReadersFromNothing(m, s, s.threads[i].req.id, ObjectOf(s.threads[i].req), z)
    requires NoneCopying(Exec(Handlers(c), m, s, sched), s.threads[i].req.id, ObjectOf(s.threads[i].req))
    ensures var req, u := s.threads[i].req, Exec(Handlers(c), m, s, sched);
      Step(c, m.view(u.world, req.id), u.threads[i]).thread.response == Direct(c, m.view(u.world, req.id), req)
  {
    var req, u := s.threads[i].req, Exec(Handlers(c), m, s, sched);
    HandlersKeepRequests(c);
    ExecKeepsRequests(Handlers(c), m, s, sched);
    QuietIsWhole(c, m, s, sched, req.id, ObjectOf(req), z);
    OpenedAt(c, m.view(u.world, req.id), u.threads[i], z, ExtentOf(c, m, s, sched, req.id, ObjectOf(req), Nothing));
  }

  /** There is something to serve, and these bytes do not open unless they are what is stored. */
  predicate IncompleteFails(c: Codec, sl: Slice, req: Request, bytes: Bytes)
    requires IsRead(req)
  {
    Direct(c, sl, req) != NotFound && (Stored(sl, ObjectOf(req)) != Some(bytes) ==> c.unpack(bytes).None?)
  }

  /**
   * And at any other moment: a reader that opens the file is answered from the bytes that the
   * writes up to then have made of it, which are those of the object exactly if they are
   * complete. For the screenshot, that is when the answer is the stored one; and so it is for a
   * page that is to be served, if an incomplete zip does not open.
   */
  lemma OverlappingReadersExactly<W(!new)>(c: Codec, m: Memory<W>, s: System<W>, sched: seq<nat>, i: nat, z: Bytes)
    requires AboutToOpen(s, Exec(Handlers(c), m, s, sched), i)
    requires ReadersFromNothing(m, s, s.threads[i].req.id, ObjectOf(s.threads[i].req), z)
    ensures var req, u := s.threads[i].req, Exec(Handlers(c), m, s, sched);
      var e := ExtentOf(c, m, s, sched, req.id, ObjectOf(req), Nothing);
      var response := Step(c, m.view(u.world, req.id), u.threads[i]).thread.response;
      && !e.Nothing? && Fits(e, z)
      && response == Rendered(c, req, BytesOf(e, z))
      && (BytesOf(e, z) == z <==> Complete(e, z))
      && (req.GetShot? || IncompleteFails(c, m.view(u.world, req.id), req, BytesOf(e, z)) ==>
           (response == Direct(c, m.view(u.world, req.id), req) <==> Complete(e, z)))
  {
    var req, u := s.threads[i].req, Exec(Handlers(c), m, s, sched);
    var e := ExtentOf(c, m, s, sched, req.id, ObjectOf(req), Nothing);
    HandlersKeepRequests(c);
    ExecKeepsRequests(Handlers(c), m, s, sched);
    QuietIsWhole(c, m, s, sched, req.id, ObjectOf(req), z);
    OpenedAt(c, m.view(u.world, req.id), u.threads[i], z, e);
    WholeBytesExactly(e, z);
  }
}
