/**
 * Requests for any number of ids, interleaved step by step over a state that they share.
 * What the state looks like from one id is a parameter; that ids do not see each other's
 * changes is what the places of the store and the disk have to guarantee.
 */
module Interleaving {
  import opened Wrappers
  import opened Keys
  import opened Footprints
  import opened Requests

  // ----- the system -----

  /** How the state that all requests share is seen from one id, and how that id changes it. */
  datatype Memory<!W> = Memory(view: (W, string) -> Slice, put: (W, string, Slice) -> W)

  /** What an id puts is what it sees. */
  ghost predicate OwnSlice<W(!new)>(m: Memory<W>, id: string) {
    forall w: W, sl: Slice :: m.view(m.put(w, id, sl), id) == sl
  }

  /** What an id puts, others do not see; and putting back what it sees changes nothing. */
  ghost predicate SlicesApart<W(!new)>(m: Memory<W>) {
    && (forall id | PlainId(id) :: OwnSlice(m, id))
    && (forall w: W, a, b, sl: Slice | PlainId(a) && PlainId(b) && a != b :: m.view(m.put(w, a, sl), b) == m.view(w, b))
    && (forall w: W, id :: m.put(w, id, m.view(w, id)) == w)
  }

  datatype System<W> = System(world: W, threads: seq<Thread>)

  /** How one thread steps on its id's slice. */
  type Stepper = (Slice, Thread) -> Progress

  /** The server's handlers. */
  ghost function Handlers(c: Codec): Stepper {
    (sl: Slice, th: Thread) => Step(c, sl, th)
  }

  predicate InFlight(th: Thread) {
    !th.stage.Start? && !th.stage.Done?
  }

  /** Steps keep their request, and a request whose id fails the check touches nothing. */
  ghost predicate KeepsRequests(step: Stepper) {
    && (forall sl: Slice, th: Thread :: step(sl, th).thread.req == th.req)
    && (forall sl: Slice, th: Thread | !ValidId(th.req.id) && !InFlight(th) ::
          step(sl, th).slice == sl && !InFlight(step(sl, th).thread))
  }

  /** What a step does to the cache, for the thread that takes it. */
  ghost predicate MendsOwn(sl: Slice, th: Thread, p: Progress, o: Object) {
    && Tidy(Cached(p.slice, o))
    && (Coherent(sl, o) || Mends(sl, th, o) ==>
        Coherent(p.slice, o) || Mends(p.slice, p.thread, o) || Spoils(sl, th, o))
    && (Spoils(sl, th, o) ==>
         && !Mends(p.slice, p.thread, o) && Cached(p.slice, o) == FileAfter(sl, th, o)
         && Stored(p.slice, o) == Stored(sl, o) && Age(p.slice, o) == Age(sl, o))
  }

  /** And for any other. */
  ghost predicate MendsOther(sl: Slice, th: Thread, x: Thread, p: Progress, o: Object) {
    Mends(p.slice, x, o) || Coherent(p.slice, o) || Mends(p.slice, p.thread, o) || Spoils(sl, th, o)
  }

  ghost predicate KeepsCache(step: Stepper) {
    && (forall sl: Slice, th: Thread, o: Object | Tidy(Cached(sl, o)) :: MendsOwn(sl, th, step(sl, th), o))
    && (forall sl: Slice, th: Thread, x: Thread, o: Object | Tidy(Cached(sl, o)) && Mends(sl, x, o) ::
          MendsOther(sl, th, x, step(sl, th), o))
  }

  lemma HandlersKeepRequests(c: Codec)
    ensures KeepsRequests(Handlers(c))
  {
    forall sl: Slice, th: Thread | !ValidId(th.req.id) && !InFlight(th)
      ensures Handlers(c)(sl, th).slice == sl && !InFlight(Handlers(c)(sl, th).thread)
    {
      InvalidIgnored(c, sl, th);
    }
  }

  lemma HandlersKeepCache(c: Codec)
    ensures KeepsCache(Handlers(c))
  {
    forall sl: Slice, th: Thread, o: Object | Tidy(Cached(sl, o)) ensures MendsOwn(sl, th, Handlers(c)(sl, th), o) {
      StepMends(c, sl, th, o);
      if Spoils(sl, th, o) { SpoilsLeaves(c, sl, th, o); }
    }
    forall sl: Slice, th: Thread, x: Thread, o: Object | Tidy(Cached(sl, o)) && Mends(sl, x, o)
      ensures MendsOther(sl, th, x, Handlers(c)(sl, th), o)
    {
      OtherMends(c, sl, th, x, o);
    }
  }

  /** Every request is for an id of its own, or for one that fails the check and so never gets going. */
  ghost predicate IdsPlain<W(!new)>(s: System<W>) {
    forall i | 0 <= i < |s.threads| :: Admitted(s.threads[i])
  }

  predicate Admitted(th: Thread) {
    PlainId(th.req.id) || (!ValidId(th.req.id) && !InFlight(th))
  }

  ghost function ThreadStep<W(!new)>(step: Stepper, m: Memory<W>, s: System<W>, i: nat): System<W> {
    if i >= |s.threads| then s
    else
      var id := s.threads[i].req.id;
      var p := step(m.view(s.world, id), s.threads[i]);
      System(m.put(s.world, id, p.slice), s.threads[i := p.thread])
  }

  /** A schedule names the thread that takes each step. */
  ghost function Exec<W(!new)>(step: Stepper, m: Memory<W>, s: System<W>, sched: seq<nat>): System<W>
    decreases sched
  {
    if sched == [] then s else Exec(step, m, ThreadStep(step, m, s, sched[0]), sched[1..])
  }

  lemma StepKeepsIds<W(!new)>(step: Stepper, m: Memory<W>, s: System<W>, i: nat)
    requires KeepsRequests(step)
    ensures |ThreadStep(step, m, s, i).threads| == |s.threads|
    ensures forall j | 0 <= j < |s.threads| :: ThreadStep(step, m, s, i).threads[j].req == s.threads[j].req
    ensures IdsPlain(s) ==> IdsPlain(ThreadStep(step, m, s, i))
  {
    var u := ThreadStep(step, m, s, i);
    if IdsPlain(s) && i < |s.threads| {
      assert Admitted(s.threads[i]);
      assert forall j | 0 <= j < |s.threads| && j != i :: u.threads[j] == s.threads[j];
    }
  }

  lemma {:induction false} ExecKeepsRequests<W(!new)>(step: Stepper, m: Memory<W>, s: System<W>, sched: seq<nat>)
    requires KeepsRequests(step)
    ensures var u := Exec(step, m, s, sched);
      |u.threads| == |s.threads| && forall j | 0 <= j < |s.threads| :: u.threads[j].req == s.threads[j].req
    decreases sched
  {
    if sched != [] {
      StepKeepsIds(step, m, s, sched[0]);
      ExecKeepsRequests(step, m, ThreadStep(step, m, s, sched[0]), sched[1..]);
    }
  }

  // ----- requests for other ids change nothing -----

  /** The steps of the schedule that belong to one id. */
  function Filtered<W(!new)>(s: System<W>, sched: seq<nat>, id: string): seq<nat>
  {
    if sched == [] then []
    else
      var own := sched[0] < |s.threads| && s.threads[sched[0]].req.id == id;
      (if own then [sched[0]] else []) + Filtered(s, sched[1..], id)
  }

  /** Two systems that an observer of one id cannot tell apart. */
  ghost predicate SameFor<W(!new)>(m: Memory<W>, s: System<W>, t: System<W>, id: string) {
    && |s.threads| == |t.threads|
    && m.view(s.world, id) == m.view(t.world, id)
    && forall i | 0 <= i < |s.threads| ::
         s.threads[i].req == t.threads[i].req && (s.threads[i].req.id == id ==> s.threads[i] == t.threads[i])
  }

  lemma OtherStepUnseen<W(!new)>(step: Stepper, m: Memory<W>, s: System<W>, i: nat, id: string)
    requires KeepsRequests(step) && SlicesApart(m) && IdsPlain(s) && PlainId(id)
    requires i < |s.threads| ==> s.threads[i].req.id != id
    ensures SameFor(m, ThreadStep(step, m, s, i), s, id)
  {
    if i < |s.threads| {
      StepKeepsIds(step, m, s, i);
      assert Admitted(s.threads[i]);
    }
  }

  /** A thread's own step acts on its slice as the stepper says. */
  lemma OwnStep<W(!new)>(step: Stepper, m: Memory<W>, s: System<W>, i: nat, id: string)
    requires OwnSlice(m, id) && i < |s.threads| && s.threads[i].req.id == id
    ensures var p, u := step(m.view(s.world, id), s.threads[i]), ThreadStep(step, m, s, i);
      u.threads == s.threads[i := p.thread] && m.view(u.world, id) == p.slice
  {
  }

  lemma OwnStepAgrees<W(!new)>(step: Stepper, m: Memory<W>, s: System<W>, t: System<W>, i: nat, id: string)
    requires KeepsRequests(step) && SlicesApart(m) && PlainId(id) && SameFor(m, s, t, id)
    requires i < |s.threads| && s.threads[i].req.id == id
    ensures SameFor(m, ThreadStep(step, m, s, i), ThreadStep(step, m, t, i), id)
  {
    StepKeepsIds(step, m, s, i);
    StepKeepsIds(step, m, t, i);
    OwnStep(step, m, s, i, id);
    OwnStep(step, m, t, i, id);
  }

  lemma FilteredSame<W(!new)>(s: System<W>, t: System<W>, sched: seq<nat>, id: string)
    requires |s.threads| == |t.threads|
    requires forall i | 0 <= i < |s.threads| :: s.threads[i].req == t.threads[i].req
    ensures Filtered(s, sched, id) == Filtered(t, sched, id)
  {
  }

  /**
   * Removing every step of other ids' requests from a run leaves every thread of this id,
   * with its response, and everything this id owns, as they were.
   */
  lemma {:induction false} NonInterference<W(!new)>(
      step: Stepper, m: Memory<W>, s: System<W>, t: System<W>, sched: seq<nat>, id: string)
    requires KeepsRequests(step) && SlicesApart(m) && IdsPlain(s) && PlainId(id) && SameFor(m, s, t, id)
    ensures SameFor(m, Exec(step, m, s, sched), Exec(step, m, t, Filtered(t, sched, id)), id)
    decreases sched
  {
    FilteredSame(s, t, sched, id);
    if sched != [] {
      var i, rest := sched[0], sched[1..];
      var s1 := ThreadStep(step, m, s, i);
      StepKeepsIds(step, m, s, i);
      if i < |s.threads| && s.threads[i].req.id == id {
        var t1 := ThreadStep(step, m, t, i);
        StepKeepsIds(step, m, t, i);
        OwnStepAgrees(step, m, s, t, i, id);
        NonInterference(step, m, s1, t1, rest, id);
        FilteredSame(t, t1, rest, id);
        ExecCons(step, m, t, i, Filtered(t1, rest, id));
      } else {
        OtherStepUnseen(step, m, s, i, id);
        NonInterference(step, m, s1, t, rest, id);
        assert Filtered(t, sched, id) == Filtered(t, rest, id);
      }
    }
  }

  lemma ExecCons<W(!new)>(step: Stepper, m: Memory<W>, s: System<W>, i: nat, rest: seq<nat>)
    ensures Exec(step, m, s, [i] + rest) == Exec(step, m, ThreadStep(step, m, s, i), rest)
  {
    assert ([i] + rest)[1..] == rest;
  }

  // ----- the cache agrees with the store, over every run -----

  /** A thread of this id, other than i, is going to put the cache right. */
  ghost predicate OtherMending(sl: Slice, threads: seq<Thread>, i: nat, id: string, o: Object) {
    exists j: nat | j < |threads| && j != i :: threads[j].req.id == id && Mends(sl, threads[j], o)
  }

  /** The cache is clean, or a request in flight is going to make it so. */
  ghost predicate Sound<W(!new)>(m: Memory<W>, s: System<W>, id: string, o: Object) {
    var sl := m.view(s.world, id);
    && Tidy(Cached(sl, o))
    && (Coherent(sl, o) || exists j: nat | j < |s.threads| :: s.threads[j].req.id == id && Mends(sl, s.threads[j], o))
  }

  /** A thread of this id, other than i, repairs this cached file. */
  ghost predicate OtherRepairs(sl: Slice, file: Local, threads: seq<Thread>, i: nat, id: string, o: Object) {
    exists j: nat | j < |threads| && j != i :: threads[j].req.id == id && Repairs(sl, file, threads[j], o)
  }

  /**
   * Told from the state before it, the step of thread i spoils the cache: it is of one of the
   * spoiling kinds, the cached file it leaves is not what is stored, and no other request for
   * the id is going to drop that file or to complete it to what is stored.
   */
  ghost predicate StepSpoils<W(!new)>(m: Memory<W>, s: System<W>, i: nat, id: string, o: Object) {
    && i < |s.threads| && s.threads[i].req.id == id
    && var sl, th := m.view(s.world, id), s.threads[i];
       var file := FileAfter(sl, th, o);
       && Spoils(sl, th, o) && Present(file) && Content(file) != Stored(sl, o)
       && !OtherRepairs(sl, file, s.threads, i, id, o)
  }

  lemma UnseenStepSound<W(!new)>(step: Stepper, m: Memory<W>, s: System<W>, i: nat, id: string, o: Object)
    requires KeepsRequests(step) && SlicesApart(m) && IdsPlain(s) && PlainId(id) && Sound(m, s, id, o)
    requires i < |s.threads| ==> s.threads[i].req.id != id
    ensures Sound(m, ThreadStep(step, m, s, i), id, o)
  {
    OtherStepUnseen(step, m, s, i, id);
  }

  /** On the slice that such a step leaves, repairing it is mending the cache. */
  lemma RepairsAfter(sl: Slice, after: Slice, threads: seq<Thread>, i: nat, id: string, o: Object)
    requires Stored(after, o) == Stored(sl, o) && Age(after, o) == Age(sl, o)
    ensures OtherMending(after, threads, i, id, o) <==> OtherRepairs(sl, Cached(after, o), threads, i, id, o)
  {
    forall j: nat | j < |threads|
      ensures Mends(after, threads[j], o) <==> Repairs(sl, Cached(after, o), threads[j], o)
    {
    }
  }

  lemma OwnStepSound<W(!new)>(step: Stepper, m: Memory<W>, s: System<W>, i: nat, id: string, o: Object)
    requires KeepsRequests(step) && KeepsCache(step) && OwnSlice(m, id) && Sound(m, s, id, o)
    requires i < |s.threads| && s.threads[i].req.id == id
    ensures Sound(m, ThreadStep(step, m, s, i), id, o) <==> !StepSpoils(m, s, i, id, o)
  {
    var sl, th := m.view(s.world, id), s.threads[i];
    var p := step(sl, th);
    SoundAfter(step, m, s, i, id, o);
    if Spoils(sl, th, o) { RepairsAfter(sl, p.slice, s.threads, i, id, o); }
  }

  /** The same, told from the slice that the step leaves. */
  lemma SoundAfter<W(!new)>(step: Stepper, m: Memory<W>, s: System<W>, i: nat, id: string, o: Object)
    requires KeepsRequests(step) && KeepsCache(step) && OwnSlice(m, id) && Sound(m, s, id, o)
    requires i < |s.threads| && s.threads[i].req.id == id
    ensures var sl := m.view(s.world, id);
      var after := step(sl, s.threads[i]).slice;
      Sound(m, ThreadStep(step, m, s, i), id, o) <==>
        !(Spoils(sl, s.threads[i], o) && !Coherent(after, o) && !OtherMending(after, s.threads, i, id, o))
  {
    var sl, th, u := m.view(s.world, id), s.threads[i], ThreadStep(step, m, s, i);
    var p := step(sl, th);
    OwnStep(step, m, s, i, id);
    assert MendsOwn(sl, th, p, o);
    assert u.threads[i] == p.thread && p.thread.req == th.req;
    assert forall j: nat | j < |s.threads| && j != i :: u.threads[j] == s.threads[j];
    if Sound(m, u, id, o) && !Coherent(p.slice, o) {
      var j: nat :| j < |u.threads| && u.threads[j].req.id == id && Mends(p.slice, u.threads[j], o);
      assert j != i ==> OtherMending(p.slice, s.threads, i, id, o);
    }
    if !Sound(m, u, id, o) && !Coherent(sl, o) {
      var j: nat :| j < |s.threads| && s.threads[j].req.id == id && Mends(sl, s.threads[j], o);
    }
  }

  /** In every state from which it steps and where it ends, the run is sound. */
  ghost predicate SoundThroughout<W(!new)>(
      step: Stepper, m: Memory<W>, s: System<W>, sched: seq<nat>, id: string, o: Object)
    decreases sched
  {
    Sound(m, s, id, o)
    && (sched != [] ==> SoundThroughout(step, m, ThreadStep(step, m, s, sched[0]), sched[1..], id, o))
  }

  ghost predicate NeverSpoiled<W(!new)>(
      step: Stepper, m: Memory<W>, s: System<W>, sched: seq<nat>, id: string, o: Object)
    decreases sched
  {
    sched != [] ==>
      && !StepSpoils(m, s, sched[0], id, o)
      && NeverSpoiled(step, m, ThreadStep(step, m, s, sched[0]), sched[1..], id, o)
  }

  /**
   * For every interleaving of any requests, on any ids and with any faults: the cache of an
   * id stays sound at every point of the run if and only if no step of it spoils it.
   */
  lemma {:induction false} SoundExactly<W(!new)>(
      step: Stepper, m: Memory<W>, s: System<W>, sched: seq<nat>, id: string, o: Object)
    requires KeepsRequests(step) && KeepsCache(step)
    requires SlicesApart(m) && IdsPlain(s) && PlainId(id) && Sound(m, s, id, o)
    ensures SoundThroughout(step, m, s, sched, id, o) <==> NeverSpoiled(step, m, s, sched, id, o)
    decreases sched
  {
    if sched != [] {
      var i, u := sched[0], ThreadStep(step, m, s, sched[0]);
      StepKeepsIds(step, m, s, i);
      if i < |s.threads| && s.threads[i].req.id == id {
        OwnStepSound(step, m, s, i, id, o);
      } else {
        UnseenStepSound(step, m, s, i, id, o);
      }
      if Sound(m, u, id, o) { SoundExactly(step, m, u, sched[1..], id, o); }
    }
  }

  /** No step of the run is of a spoiling kind. */
  ghost predicate NoSpoilingStep<W(!new)>(
      step: Stepper, m: Memory<W>, s: System<W>, sched: seq<nat>, id: string, o: Object)
    decreases sched
  {
    sched != [] ==>
      && (sched[0] < |s.threads| && s.threads[sched[0]].req.id == id ==>
          !Spoils(m.view(s.world, id), s.threads[sched[0]], o))
      && NoSpoilingStep(step, m, ThreadStep(step, m, s, sched[0]), sched[1..], id, o)
  }

  /**
   * Only three kinds of step can end soundness: saving a download that is not, or does not
   * become, what is stored; failing to drop the cached file; failing to store the zip after
   * the screenshot. A run without them is sound throughout, whatever else fails in it.
   */
  lemma {:induction false} SoundWithoutSpoiling<W(!new)>(
      step: Stepper, m: Memory<W>, s: System<W>, sched: seq<nat>, id: string, o: Object)
    requires KeepsRequests(step) && KeepsCache(step)
    requires SlicesApart(m) && IdsPlain(s) && PlainId(id) && Sound(m, s, id, o)
    requires NoSpoilingStep(step, m, s, sched, id, o)
    ensures SoundThroughout(step, m, s, sched, id, o)
    decreases sched
  {
    if sched != [] {
      var i, u := sched[0], ThreadStep(step, m, s, sched[0]);
      StepKeepsIds(step, m, s, i);
      if i < |s.threads| && s.threads[i].req.id == id {
        OwnStepSound(step, m, s, i, id, o);
      } else {
        UnseenStepSound(step, m, s, i, id, o);
      }
      SoundWithoutSpoiling(step, m, u, sched[1..], id, o);
    }
  }

  lemma {:induction false} SoundAtEnd<W(!new)>(
      step: Stepper, m: Memory<W>, s: System<W>, sched: seq<nat>, id: string, o: Object)
    requires SoundThroughout(step, m, s, sched, id, o)
    ensures Sound(m, Exec(step, m, s, sched), id, o)
    decreases sched
  {
    if sched != [] { SoundAtEnd(step, m, ThreadStep(step, m, s, sched[0]), sched[1..], id, o); }
  }

  /** Nothing in flight for the id. */
  ghost predicate AtRest<W(!new)>(s: System<W>, id: string) {
    forall j: nat | j < |s.threads| && s.threads[j].req.id == id :: !InFlight(s.threads[j])
  }

  /** Sound and at rest is clean. */
  lemma RestIsCoherent<W(!new)>(m: Memory<W>, s: System<W>, id: string, o: Object)
    requires Sound(m, s, id, o) && AtRest(s, id)
    ensures Coherent(m.view(s.world, id), o)
  {
  }

  // ----- what readers answer -----

  /**
   * Nobody else is between changing the object and dropping the cached one, or between
   * creating the cached file and completing it.
   */
  ghost predicate Undisturbed<W(!new)>(m: Memory<W>, s: System<W>, i: nat, o: Object)
    requires i < |s.threads|
  {
    var id := s.threads[i].req.id;
    !OtherMending(m.view(s.world, id), s.threads, i, id, o)
  }

  /**
   * In a sound state in which nobody else is at work on the cached file, a reader that finishes
   * answers from what is stored at that moment if and only if the file that it found, or made,
   * is still there, or nothing is to be served in any case.
   */
  lemma ReadersAnswerFromStore<W(!new)>(c: Codec, m: Memory<W>, s: System<W>, i: nat)
    requires i < |s.threads| && PlainId(s.threads[i].req.id) && ReadsCleanly(s.threads[i].req)
    requires s.threads[i].stage.Start? || Reading(s.threads[i].stage)
    requires Sound(m, s, s.threads[i].req.id, ObjectOf(s.threads[i].req))
    requires s.threads[i].stage.Read? ==> Undisturbed(m, s, i, ObjectOf(s.threads[i].req))
    ensures var after, sl := ThreadStep(Handlers(c), m, s, i).threads[i], m.view(s.world, s.threads[i].req.id);
      after.stage.Done? ==>
        (after.response == Direct(c, sl, after.req) <==>
          (s.threads[i].stage.Read? ==>
              Present(Cached(sl, ObjectOf(after.req))) || Direct(c, sl, after.req) == NotFound))
  {
    FinishedReadExactly(c, m.view(s.world, s.threads[i].req.id), s.threads[i]);
  }
}
