/**
 * Analysis slots and the containers run in them: RunAnalysis of both runners. One call
 * is a path through a small machine; any number of calls run concurrently over a channel
 * of slots and a host that keeps the containers.
 */
module Slots {
  import PodWatch

  datatype Backend = DockerHost | KubernetesCluster

  /** One foreign call of an analysis, with its outcome. */
  datatype Event =
    | Acquire(ok: bool)
    | Create(ok: bool)
    | Start(ok: bool)
    | Finish(exitedCleanly: bool)
    | WaitError
    | Stop(ok: bool)
    | Logs
    | MakeDir(ok: bool)
    | Copy(ok: bool)
    | Remove(ok: bool)
    | Release

  datatype Stage = Starting | Waiting | Stopping | Logging | Preparing | Copying | Removing

  /** Where one call stands. Running holds a slot and a container, Holding and Leaving only a slot. */
  datatype Proc = Idle | Holding | Running(stage: Stage) | Leaving | Over | Broken

  function Next(b: Backend, p: Proc, e: Event): Proc {
    match (p, e)
    case (Idle, Acquire(ok)) => if ok then Holding else Over
    case (Holding, Create(ok)) =>
      if !ok then Leaving else if b.DockerHost? then Running(Starting) else Running(Waiting)
    case (Running(Starting), Start(ok)) => Running(if ok then Waiting else Removing)
    case (Running(Waiting), Finish(clean)) =>
      if clean then Running(Preparing) else if b.DockerHost? then Running(Logging) else Broken
    case (Running(Waiting), WaitError) => Running(if b.DockerHost? then Stopping else Logging)
    case (Running(Stopping), Stop(_)) => Running(Removing)
    case (Running(Logging), Logs) => Running(Removing)
    case (Running(Preparing), MakeDir(ok)) => Running(if ok then Copying else Removing)
    case (Running(Copying), Copy(_)) => Running(Removing)
    case (Running(Removing), Remove(_)) => Leaving
    case (Leaving, Release) => Over
    case _ => Broken
  }

  function Follow(b: Backend, es: seq<Event>): Proc {
    if es == [] then Idle else Next(b, Follow(b, es[..|es| - 1]), es[|es| - 1])
  }

  /** What a call on a Docker host does between creating its container and removing it. */
  predicate DockerMiddle(es: seq<Event>) {
    match |es|
    case 1 => es[0] == Start(false)
    case 3 =>
      && es[0] == Start(true)
      && ((es[1] == WaitError && es[2].Stop?)
          || (es[1] == Finish(false) && es[2] == Logs)
          || (es[1] == Finish(true) && es[2] == MakeDir(false)))
    case 4 => es[0] == Start(true) && es[1] == Finish(true) && es[2] == MakeDir(true) && es[3].Copy?
    case _ => false
  }

  /** The same on a cluster, which starts the pod by itself and removes it without stopping it. */
  predicate ClusterMiddle(es: seq<Event>) {
    match |es|
    case 2 => (es[0] == WaitError && es[1] == Logs) || (es[0] == Finish(true) && es[1] == MakeDir(false))
    case 3 => es[0] == Finish(true) && es[1] == MakeDir(true) && es[2].Copy?
    case _ => false
  }

  predicate Middle(b: Backend, es: seq<Event>) {
    if b.DockerHost? then DockerMiddle(es) else ClusterMiddle(es)
  }

  /** The log of a complete call. */
  ghost predicate Complete(b: Backend, es: seq<Event>) {
    || es == [Acquire(false)]
    || es == [Acquire(true), Create(false), Release]
    || exists middle, removed | Middle(b, middle) ::
         es == [Acquire(true), Create(true)] + middle + [Remove(removed), Release]
  }

  /** The log of a call that is about to remove its container, or has removed it. */
  ghost predicate UpTo(b: Backend, p: Proc, es: seq<Event>) {
    var started := if b.DockerHost? then [Start(true)] else [];
    var begun := [Acquire(true), Create(true)];
    match p
    case Idle => es == []
    case Holding => es == [Acquire(true)]
    case Running(Starting) => b.DockerHost? && es == begun
    case Running(Waiting) => es == begun + started
    case Running(Stopping) => b.DockerHost? && es == begun + [Start(true), WaitError]
    case Running(Logging) => es == if b.DockerHost? then begun + [Start(true), Finish(false)] else begun + [WaitError]
    case Running(Preparing) => es == begun + (started + [Finish(true)])
    case Running(Copying) => es == begun + (started + [Finish(true), MakeDir(true)])
    case Running(Removing) => exists middle | Middle(b, middle) :: es == begun + middle
    case Leaving =>
      || es == [Acquire(true), Create(false)]
      || exists middle, removed | Middle(b, middle) :: es == begun + middle + [Remove(removed)]
    case Over => Complete(b, es)
    case Broken => true
  }

  lemma OneMore(b: Backend, p: Proc, es: seq<Event>, e: Event)
    requires UpTo(b, p, es)
    ensures UpTo(b, Next(b, p, e), es + [e])
  {
    match Next(b, p, e)
    case Running(Removing) => EndsMiddle(b, p, es, e);
    case Leaving =>
      if p.Running? { RemovedLast(b, es, e); }
    case Over =>
      if p.Leaving? { ReleasedLast(b, es, e); }
    case _ =>
  }

  lemma EndsMiddle(b: Backend, p: Proc, es: seq<Event>, e: Event)
    requires UpTo(b, p, es) && Next(b, p, e) == Running(Removing)
    ensures UpTo(b, Running(Removing), es + [e])
  {
    var init := es[2..];
    assert es == [Acquire(true), Create(true)] + init;
    assert (init + [e])[..|init|] == init;
    assert es + [e] == [Acquire(true), Create(true)] + (init + [e]);
    assert Middle(b, init + [e]);
  }

  lemma RemovedLast(b: Backend, es: seq<Event>, e: Event)
    requires UpTo(b, Running(Removing), es) && e.Remove?
    ensures UpTo(b, Leaving, es + [e])
  {
    var middle :| Middle(b, middle) && es == [Acquire(true), Create(true)] + middle;
    assert es + [e] == [Acquire(true), Create(true)] + middle + [Remove(e.ok)];
  }

  lemma ReleasedLast(b: Backend, es: seq<Event>, e: Event)
    requires UpTo(b, Leaving, es) && e.Release?
    ensures Complete(b, es + [e])
  {
    if es != [Acquire(true), Create(false)] {
      var middle, removed :| Middle(b, middle) && es == [Acquire(true), Create(true)] + middle + [Remove(removed)];
      assert es + [e] == [Acquire(true), Create(true)] + middle + [Remove(removed), Release];
    }
  }

  lemma {:induction false} FollowUpTo(b: Backend, es: seq<Event>)
    ensures UpTo(b, Follow(b, es), es)
  {
    if es != [] {
      var n := |es| - 1;
      FollowUpTo(b, es[..n]);
      OneMore(b, Follow(b, es[..n]), es[..n], es[n]);
      assert es == es[..n] + [es[n]];
    }
  }

  lemma FollowOne(b: Backend, es: seq<Event>, e: Event)
    ensures Follow(b, es + [e]) == Next(b, Follow(b, es), e)
  {
    assert (es + [e])[..|es|] == es;
  }

  function Away(b: Backend, p: Proc, es: seq<Event>): Proc
    decreases |es|
  {
    if es == [] then p else Away(b, Next(b, p, es[0]), es[1..])
  }

  lemma {:induction false} FollowAppend(b: Backend, es: seq<Event>, more: seq<Event>)
    ensures Follow(b, es + more) == Away(b, Follow(b, es), more)
    decreases |more|
  {
    if more == [] {
      assert es + more == es;
    } else {
      FollowOne(b, es, more[0]);
      FollowAppend(b, es + [more[0]], more[1..]);
      assert es + [more[0]] + more[1..] == es + more;
    }
  }

  lemma AwayFrom(b: Backend, p: Proc, es: seq<Event>, i: nat)
    requires i < |es|
    ensures Away(b, p, es[i..]) == Away(b, Next(b, p, es[i]), es[i + 1..])
  {
    assert es[i..][1..] == es[i + 1..];
  }

  /** From the creation of the container on, up to its removal. */
  lemma MiddleAway(b: Backend, es: seq<Event>)
    requires Middle(b, es)
    ensures Away(b, if b.DockerHost? then Running(Starting) else Running(Waiting), es) == Running(Removing)
  {
    if b.DockerHost? { DockerAway(es); } else { ClusterAway(es); }
  }

  lemma DockerAway(es: seq<Event>)
    requires DockerMiddle(es)
    ensures Away(DockerHost, Running(Starting), es) == Running(Removing)
  {
    var b := DockerHost;
    assert es == es[0..];
    AwayFrom(b, Running(Starting), es, 0);
    if |es| > 1 {
      var p := Next(b, Running(Waiting), es[1]);
      AwayFrom(b, Running(Waiting), es, 1);
      AwayFrom(b, p, es, 2);
      if |es| > 3 { AwayFrom(b, Running(Copying), es, 3); }
    }
  }

  lemma ClusterAway(es: seq<Event>)
    requires ClusterMiddle(es)
    ensures Away(KubernetesCluster, Running(Waiting), es) == Running(Removing)
  {
    var b := KubernetesCluster;
    assert es == es[0..];
    AwayFrom(b, Running(Waiting), es, 0);
    AwayFrom(b, Next(b, Running(Waiting), es[0]), es, 1);
    if |es| > 2 { AwayFrom(b, Running(Copying), es, 2); }
  }

  lemma CompleteEnds(b: Backend, middle: seq<Event>, removed: bool)
    requires Middle(b, middle)
    ensures Follow(b, [Acquire(true), Create(true)] + middle + [Remove(removed), Release]) == Over
  {
    var begun := [Acquire(true), Create(true)];
    var gone := begun + middle + [Remove(removed)];
    FollowOne(b, [], Acquire(true));
    FollowOne(b, [Acquire(true)], Create(true));
    assert [Acquire(true)] + [Create(true)] == begun && [] + [Acquire(true)] == [Acquire(true)];
    FollowAppend(b, begun, middle);
    MiddleAway(b, middle);
    FollowOne(b, begun + middle, Remove(removed));
    FollowOne(b, gone, Release);
    assert gone + [Release] == begun + middle + [Remove(removed), Release];
  }

  lemma ShortEnds(b: Backend)
    ensures Follow(b, [Acquire(false)]) == Over && Follow(b, [Acquire(true), Create(false), Release]) == Over
  {
    FollowOne(b, [], Acquire(false));
    FollowOne(b, [], Acquire(true));
    FollowOne(b, [Acquire(true)], Create(false));
    FollowOne(b, [Acquire(true), Create(false)], Release);
    assert [] + [Acquire(false)] == [Acquire(false)] && [] + [Acquire(true)] == [Acquire(true)];
    assert [Acquire(true)] + [Create(false)] == [Acquire(true), Create(false)];
    assert [Acquire(true), Create(false)] + [Release] == [Acquire(true), Create(false), Release];
  }

  /** The machine accepts exactly these logs: every foreign call in its place, on every exit path. */
  lemma CallsExactly(b: Backend, es: seq<Event>)
    ensures Follow(b, es).Over? <==> Complete(b, es)
  {
    FollowUpTo(b, es);
    ShortEnds(b);
    forall middle, removed | Middle(b, middle)
      ensures Follow(b, [Acquire(true), Create(true)] + middle + [Remove(removed), Release]) == Over
    {
      CompleteEnds(b, middle, removed);
    }
  }

  // ----- the calls as the runners make them -----

  class Host {
    var events: seq<Event>
    const backend: Backend

    constructor (backend: Backend)
      ensures events == [] && this.backend == backend
    {
      this.backend := backend;
      events := [];
    }

    method Try(e: Event)
      modifies this
      ensures events == old(events) + [e]
      ensures Follow(backend, events) == Next(backend, Follow(backend, old(events)), e)
    {
      assert (events + [e])[..|events|] == events;
      events := events + [e];
    }

    /** The deferred release of the slot. */
    method Leave()
      requires Follow(backend, events) == Leaving
      modifies this
      ensures Follow(backend, events) == Over
      ensures events == old(events) + [Release]
    {
      Try(Release);
    }

    /** removeContainer or deletePod: its own failure is only logged. */
    method RemoveAndLeave()
      requires Follow(backend, events) == Running(Removing)
      modifies this
      ensures Follow(backend, events) == Over
      ensures exists ok :: events == old(events) + [Remove(ok), Release]
    {
      var ok: bool := *;
      Try(Remove(ok));
      Leave();
      assert events == old(events) + [Remove(ok), Release];
    }

    /** The part both runners share, once the analysis has ended cleanly. */
    method CopyResults() returns (ok: bool)
      requires Follow(backend, events) == Running(Preparing) && Copy(true) !in events
      modifies this
      ensures Follow(backend, events) == Over
      ensures ok <==> Copy(true) in events
    {
      var made: bool, copied: bool := *, *;
      Try(MakeDir(made));
      if !made {
        RemoveAndLeave();
        return false;
      }
      Try(Copy(copied));
      RemoveAndLeave();
      ok := copied;
    }

    method RunOnDocker() returns (ok: bool)
      requires events == [] && backend.DockerHost?
      modifies this
      ensures Follow(backend, events) == Over
      ensures ok <==> Copy(true) in events
    {
      var acquired: bool, created: bool, started: bool := *, *, *;
      Try(Acquire(acquired));
      if !acquired { return false; }
      Try(Create(created));
      if !created {
        Leave();
        return false;
      }
      Try(Start(started));
      if !started {
        RemoveAndLeave();
        return false;
      }
      var answered: bool, clean: bool := *, *;
      if answered {
        Try(Finish(clean));
        if !clean {
          Try(Logs);
          RemoveAndLeave();
          return false;
        }
      } else {
        Try(WaitError);
        var stopped: bool := *;
        Try(Stop(stopped));
        RemoveAndLeave();
        return false;
      }
      ok := CopyResults();
    }

    /** The wait is that of the pod watch: results are copied only after one that ended well. */
    method RunOnKubernetes(pod: PodWatch.Cluster) returns (ok: bool)
      requires events == [] && backend.KubernetesCluster? && pod.sessions == [] && pod.log == []
      modifies this, pod
      ensures Follow(backend, events) == Over
      ensures ok <==> Copy(true) in events
      ensures Copy(true) in events || Copy(false) in events ==>
        PodWatch.Explains(pod.history, pod.sessions, PodWatch.Finished)
    {
      var acquired: bool, created: bool := *, *;
      Try(Acquire(acquired));
      if !acquired { return false; }
      Try(Create(created));
      if !created {
        Leave();
        return false;
      }
      var waited := PodWatch.WaitForInitContainer(pod);
      if !waited.Finished? {
        Try(WaitError);
        Try(Logs);
        RemoveAndLeave();
        return false;
      }
      Try(Finish(true));
      ok := CopyResults();
    }
  }

  /**
   * A Kubernetes call that copied, on a pod whose versions report its life: at the version
   * that ended the wait, the analysis had exited with code 0.
   */
  lemma CopyAfterExit(h: PodWatch.History, sessions: seq<PodWatch.Session>, run: nat -> PodWatch.Life, upTo: nat -> nat)
    requires PodWatch.Explains(h, sessions, PodWatch.Finished) && PodWatch.ReportsLife(h, run, upTo)
    ensures exists v: nat :: PodWatch.Observed(sessions, v) && run(upTo(v)).init == PodWatch.InitExited(0)
  {
    PodWatch.FinishedMeansExited(h, sessions, run, upTo);
  }

  // ----- one call, on every exit path -----

  function Count(es: seq<Event>, f: Event -> bool): nat {
    if es == [] then 0 else Count(es[..|es| - 1], f) + if f(es[|es| - 1]) then 1 else 0
  }

  const ACQUIRED: Event -> bool := (e: Event) => e == Acquire(true)
  const CREATED: Event -> bool := (e: Event) => e == Create(true)
  const REMOVAL: Event -> bool := (e: Event) => e.Remove?
  const RELEASE: Event -> bool := (e: Event) => e.Release?

  lemma {:induction false} CountsAt(b: Backend, es: seq<Event>)
    requires !Follow(b, es).Broken?
    ensures var p := Follow(b, es);
      && Count(es, ACQUIRED) == (if p.Idle? || es == [Acquire(false)] then 0 else 1)
      && Count(es, RELEASE) == (if p.Over? then Count(es, ACQUIRED) else 0)
      && Count(es, REMOVAL) == (if p.Leaving? || p.Over? then Count(es, CREATED) else 0)
      && Count(es, CREATED) <= (if p.Idle? || p.Holding? then 0 else 1)
      && (p.Running? ==> Count(es, CREATED) == 1)
      && (p.Idle? ==> es == [])
      && (es == [Acquire(false)] ==> p.Over?)
  {
    if es != [] {
      var init := es[..|es| - 1];
      CountsAt(b, init);
      if init == [] { assert es == [es[0]]; }
    }
  }

  /** A complete call: one removal for its container if it created one, one release if it had a slot, in that order. */
  lemma CallConserves(b: Backend, es: seq<Event>)
    requires Follow(b, es).Over?
    ensures Count(es, REMOVAL) == Count(es, CREATED) <= 1
    ensures Count(es, RELEASE) == Count(es, ACQUIRED) <= 1
    ensures Count(es, ACQUIRED) == 1 ==> es[|es| - 1] == Release
    ensures Count(es, CREATED) == 1 ==> |es| >= 2 && es[|es| - 2].Remove?
  {
    CountsAt(b, es);
    var init := es[..|es| - 1];
    if Follow(b, init).Broken? {
      assert false;
    }
    CountsAt(b, init);
    if es[|es| - 1] == Release && Count(es, CREATED) == 1 {
      assert Follow(b, init) == Leaving;
      LeavingAfter(b, init);
    }
  }

  /** A slot is left either right after a failed create or right after a removal. */
  lemma LeavingAfter(b: Backend, es: seq<Event>)
    requires Follow(b, es) == Leaving
    ensures es != [] && (es[|es| - 1].Remove? || (es[|es| - 1] == Create(false) && Count(es, CREATED) == 0))
  {
    var init := es[..|es| - 1];
    if es[|es| - 1] == Create(false) { CountsAt(b, init); }
  }

  /** Results are copied only after the analysis container ended cleanly. */
  lemma {:induction false} CopyAfterCleanEnd(b: Backend, es: seq<Event>, i: nat)
    requires i < |es| && es[i].Copy? && !Follow(b, es).Broken?
    ensures exists j | 0 <= j < i :: es[j] == Finish(true)
    decreases |es|
  {
    if i < |es| - 1 {
      CopyAfterCleanEnd(b, es[..|es| - 1], i);
      var j :| 0 <= j < i && es[..|es| - 1][j] == Finish(true);
      assert es[j] == Finish(true);
    } else {
      CleanEndBehind(b, es[..i]);
    }
  }

  lemma {:induction false} CleanEndBehind(b: Backend, es: seq<Event>)
    requires Follow(b, es) == Running(Preparing) || Follow(b, es) == Running(Copying)
    ensures exists j | 0 <= j < |es| :: es[j] == Finish(true)
  {
    var init := es[..|es| - 1];
    if Follow(b, es) == Running(Copying) {
      CleanEndBehind(b, init);
      var j :| 0 <= j < |init| && init[j] == Finish(true);
      assert es[j] == Finish(true);
    }
  }

  // ----- many calls at once -----

  /**
   * live: containers that exist, by the call that created them; terminating: those of them
   * whose deletion a cluster has accepted and not yet carried out; failures: removals that
   * failed.
   */
  datatype System = System(
    backend: Backend, capacity: nat, tokens: nat, procs: seq<Proc>, live: set<nat>, terminating: set<nat>,
        failures: nat)

  datatype Move = Act(i: nat, e: Event) | Sweep(removed: set<nat>) | Vanish(gone: set<nat>)

  predicate Enabled(s: System, m: Move) {
    match m
    case Sweep(removed) => removed <= s.live
    case Vanish(gone) => gone <= s.terminating
    case Act(i, e) =>
      && i < |s.procs|
      && !Next(s.backend, s.procs[i], e).Broken?
      && (e == Acquire(true) ==> s.tokens < s.capacity)
      && (e == Release ==> s.tokens > 0)
      && (e == Remove(true) ==> i in s.live)
  }

  /** A removal that succeeds: at once on a Docker host, in the course of time on a cluster. */
  function Deleted(s: System, removed: set<nat>): System {
    if s.backend.DockerHost? then s.(live := s.live - removed) else s.(terminating := s.terminating + removed)
  }

  function Do(s: System, m: Move): System
    requires Enabled(s, m)
  {
    match m
    case Sweep(removed) => Deleted(s, removed)
    case Vanish(gone) => s.(live := s.live - gone, terminating := s.terminating - gone)
    case Act(i, e) =>
      var u := s.(procs := s.procs[i := Next(s.backend, s.procs[i], e)]);
      match e
      case Acquire(ok) => if ok then u.(tokens := s.tokens + 1) else u
      case Release => u.(tokens := s.tokens - 1)
      case Create(ok) => if ok then u.(live := s.live + {i}) else u
      case Remove(ok) => if ok then Deleted(u, {i}) else u.(failures := s.failures + 1)
      case _ => u
  }

  predicate Holds(p: Proc) {
    p.Holding? || p.Running? || p.Leaving?
  }

  function Holders(s: System): set<nat> {
    set i: nat | i < |s.procs| && Holds(s.procs[i])
  }

  function Runners(s: System): set<nat> {
    set i: nat | i < |s.procs| && s.procs[i].Running?
  }

  predicate Fresh(s: System) {
    && s.tokens == 0 && s.live == {} && s.terminating == {} && s.failures == 0
    && forall i | 0 <= i < |s.procs| :: s.procs[i].Idle?
  }

  predicate Runs(s: System, moves: seq<Move>)
    decreases moves
  {
    moves == [] || (Enabled(s, moves[0]) && Runs(Do(s, moves[0]), moves[1..]))
  }

  function After(s: System, moves: seq<Move>): System
    requires Runs(s, moves)
    decreases moves
  {
    if moves == [] then s else After(Do(s, moves[0]), moves[1..])
  }

  /** Containers outside a running call whose removal nobody has accepted. */
  function Left(s: System): set<nat> {
    s.live - Runners(s) - s.terminating
  }

  /** Tokens count the calls between acquire and release; what is left outside a running call are failed removals. */
  predicate Conserved(s: System) {
    && s.tokens == |Holders(s)|
    && s.tokens <= s.capacity
    && Runners(s) <= Holders(s)
    && |Left(s)| <= s.failures
    && s.terminating <= s.live
    && (s.backend.DockerHost? ==> s.terminating == {})
    && forall i | 0 <= i < |s.procs| :: !s.procs[i].Broken?
  }

  lemma ProcsAfter(s: System, i: nat, e: Event)
    requires Enabled(s, Act(i, e))
    ensures var u := Do(s, Act(i, e));
      && Holders(u) == (if Holds(u.procs[i]) then Holders(s) + {i} else Holders(s) - {i})
      && Runners(u) == (if u.procs[i].Running? then Runners(s) + {i} else Runners(s) - {i})
      && (i in Holders(s) <==> Holds(s.procs[i])) && (i in Runners(s) <==> s.procs[i].Running?)
  {
  }

  /** Only acquiring and releasing change whether a call holds a slot. */
  lemma HoldingAfter(b: Backend, p: Proc, e: Event)
    requires !Next(b, p, e).Broken?
    ensures if e == Acquire(true) then !Holds(p) && Holds(Next(b, p, e))
            else if e.Release? then Holds(p) && !Holds(Next(b, p, e))
            else Holds(Next(b, p, e)) == Holds(p)
  {
  }

  lemma OneMoreOrLess(a: set<nat>, i: nat)
    ensures i !in a ==> |a + {i}| == |a| + 1
    ensures i in a ==> |a - {i}| == |a| - 1
  {
    if i in a { assert a == (a - {i}) + {i}; }
  }

  lemma TokensAcquired(s: System, i: nat)
    requires Conserved(s) && Enabled(s, Act(i, Acquire(true)))
    ensures var u := Do(s, Act(i, Acquire(true))); u.tokens == |Holders(u)| && u.tokens <= u.capacity
  {
    HoldingAfter(s.backend, s.procs[i], Acquire(true));
    ProcsAfter(s, i, Acquire(true));
    OneMoreOrLess(Holders(s), i);
  }

  lemma TokensReleased(s: System, i: nat)
    requires Conserved(s) && Enabled(s, Act(i, Release))
    ensures var u := Do(s, Act(i, Release)); u.tokens == |Holders(u)| && u.tokens <= u.capacity
  {
    HoldingAfter(s.backend, s.procs[i], Release);
    ProcsAfter(s, i, Release);
    OneMoreOrLess(Holders(s), i);
  }

  /** Any other event leaves both the tokens and those who hold them. */
  lemma TokensUntouched(s: System, i: nat, e: Event)
    requires Enabled(s, Act(i, e)) && e != Acquire(true) && !e.Release?
    ensures var u := Do(s, Act(i, e)); u.tokens == s.tokens && u.capacity == s.capacity && Holders(u) == Holders(s)
  {
    HoldingAfter(s.backend, s.procs[i], e);
    SameHolders(s, Do(s, Act(i, e)), i);
  }

  lemma SameHolders(s: System, u: System, i: nat)
    requires i < |s.procs| && |u.procs| == |s.procs| && Holds(u.procs[i]) == Holds(s.procs[i])
    requires forall k | 0 <= k < |s.procs| && k != i :: u.procs[k] == s.procs[k]
    ensures Holders(u) == Holders(s)
  {
  }

  lemma TokensKept(s: System, i: nat, e: Event)
    requires Conserved(s) && Enabled(s, Act(i, e))
    ensures var u := Do(s, Act(i, e)); u.tokens == |Holders(u)| && u.tokens <= u.capacity
  {
    if e == Acquire(true) {
      TokensAcquired(s, i);
    } else if e.Release? {
      TokensReleased(s, i);
    } else {
      TokensUntouched(s, i, e);
    }
  }

  /** Only a failed removal takes a call out of its running part with its container left. */
  lemma LeftBehind(s: System, i: nat, e: Event)
    requires Conserved(s) && Enabled(s, Act(i, e))
    ensures var u := Do(s, Act(i, e)); Left(u) <= if e == Remove(false) then Left(s) + {i} else Left(s)
  {
    ProcsAfter(s, i, e);
  }

  lemma ProcsSound(s: System, i: nat, e: Event)
    requires Conserved(s) && Enabled(s, Act(i, e))
    ensures var u := Do(s, Act(i, e));
      && Runners(u) <= Holders(u) && u.terminating <= u.live && (u.backend.DockerHost? ==> u.terminating == {})
      && forall k | 0 <= k < |u.procs| :: !u.procs[k].Broken?
  {
    ProcsAfter(s, i, e);
  }

  lemma DeletionConserves(s: System, m: Move)
    requires Conserved(s) && Enabled(s, m) && !m.Act?
    ensures Conserved(Do(s, m))
  {
    var u := Do(s, m);
    assert Holders(u) == Holders(s) && Runners(u) == Runners(s);
    SubsetSize(Left(u), Left(s));
  }

  lemma MoveConserves(s: System, m: Move)
    requires Conserved(s) && Enabled(s, m)
    ensures Conserved(Do(s, m))
  {
    if m.Act? {
      TokensKept(s, m.i, m.e);
      ProcsSound(s, m.i, m.e);
      LeftKept(s, m.i, m.e);
    } else {
      DeletionConserves(s, m);
    }
  }

  lemma LeftKept(s: System, i: nat, e: Event)
    requires Conserved(s) && Enabled(s, Act(i, e))
    ensures var u := Do(s, Act(i, e)); |Left(u)| <= u.failures
  {
    LeftBehind(s, i, e);
    var bound := if e == Remove(false) then Left(s) + {i} else Left(s);
    SubsetSize(Left(Do(s, Act(i, e))), bound);
  }

  lemma {:induction false} SubsetSize<T>(a: set<T>, b: set<T>)
    requires a <= b
    ensures |a| <= |b|
  {
    if a != {} {
      var x :| x in a;
      SubsetSize(a - {x}, b - {x});
    }
  }

  lemma {:induction false} RunConserves(s: System, moves: seq<Move>)
    requires Conserved(s) && Runs(s, moves)
    ensures Conserved(After(s, moves))
    decreases moves
  {
    if moves != [] {
      MoveConserves(s, moves[0]);
      RunConserves(Do(s, moves[0]), moves[1..]);
    }
  }

  /**
   * In every reachable state of any number of concurrent analyses, under any sweeping, the
   * slots in use never exceed the capacity, and the live containers exceed it at most by the
   * failed removals and, on a cluster, by the pods that are terminating.
   */
  lemma SlotsBoundContainers(s: System, moves: seq<Move>)
    requires Fresh(s) && Runs(s, moves)
    ensures var u := After(s, moves);
      && u.tokens == |Holders(u)| <= s.capacity
      && |u.live| <= s.capacity + u.failures + |u.terminating|
      && (s.backend.DockerHost? ==> u.terminating == {} && |u.live| <= s.capacity + u.failures)
  {
    assert Holders(s) == {} && Runners(s) == {} && Left(s) == {};
    RunConserves(s, moves);
    SettingsKept(s, moves);
    var u := After(s, moves);
    SubsetSize(u.live, Holders(u) + Left(u) + u.terminating);
    assert |Holders(u) + Left(u) + u.terminating| <= |Holders(u)| + |Left(u)| + |u.terminating|;
  }

  lemma {:induction false} SettingsKept(s: System, moves: seq<Move>)
    requires Runs(s, moves)
    ensures After(s, moves).capacity == s.capacity && After(s, moves).backend == s.backend
    decreases moves
  {
    if moves != [] { SettingsKept(Do(s, moves[0]), moves[1..]); }
  }

  /** The containers of running calls exist and are not being deleted; nor are those still to come. */
  predicate AllLive(s: System) {
    && Runners(s) <= s.live && Runners(s) !! s.terminating
    && forall i | 0 <= i < |s.procs| :: s.procs[i].Idle? || s.procs[i].Holding? ==> i !in s.terminating
  }

  lemma MoveKeepsLive(s: System, m: Move)
    requires AllLive(s) && Enabled(s, m) && !m.Sweep?
    ensures AllLive(Do(s, m))
  {
    if m.Act? { ProcsAfter(s, m.i, m.e); }
  }

  lemma {:induction false} RunKeepsLive(s: System, moves: seq<Move>)
    requires AllLive(s) && Runs(s, moves) && forall m | m in moves :: !m.Sweep?
    ensures AllLive(After(s, moves))
    decreases moves
  {
    if moves != [] {
      MoveKeepsLive(s, moves[0]);
      RunKeepsLive(Do(s, moves[0]), moves[1..]);
    }
  }

  /** As long as nothing is swept, every running call has its container. */
  lemma RunnersLive(s: System, moves: seq<Move>)
    requires Fresh(s) && Runs(s, moves) && forall m | m in moves :: !m.Sweep?
    ensures Runners(After(s, moves)) <= After(s, moves).live
  {
    RunKeepsLive(s, moves);
  }

  ghost predicate Reaches(s: System, end: System) {
    exists moves :: Runs(s, moves) && After(s, moves) == end
  }

  lemma ReachesBy(s: System, m: Move, next: System, end: System)
    requires Enabled(s, m) && Do(s, m) == next && Reaches(next, end)
    ensures Reaches(s, end)
  {
    var moves :| Runs(next, moves) && After(next, moves) == end;
    assert ([m] + moves)[1..] == moves;
    assert Runs(s, [m] + moves) && After(s, [m] + moves) == end;
  }

  lemma ReachesItself(s: System)
    ensures Reaches(s, s)
  {
    assert Runs(s, []) && After(s, []) == s;
  }

  /** Two calls, one after the other, on a cluster with one slot and without any failed removal. */
  function OneSlot(tokens: nat, first: Proc, second: Proc, live: set<nat>, terminating: set<nat>): System {
    System(KubernetesCluster, 1, tokens, [first, second], live, terminating, 0)
  }

  lemma FirstCallEnds(end: System)
    requires Reaches(OneSlot(0, Over, Idle, {0}, {0}), end)
    ensures Reaches(OneSlot(1, Running(Logging), Idle, {0}, {}), end)
  {
    var s4, s5 := OneSlot(1, Running(Removing), Idle, {0}, {}), OneSlot(1, Leaving, Idle, {0}, {0});
    ReachesBy(s5, Act(0, Release), OneSlot(0, Over, Idle, {0}, {0}), end);
    ReachesBy(s4, Act(0, Remove(true)), s5, end);
    ReachesBy(OneSlot(1, Running(Logging), Idle, {0}, {}), Act(0, Logs), s4, end);
  }

  lemma FirstCall(end: System)
    requires Reaches(OneSlot(1, Running(Logging), Idle, {0}, {}), end)
    ensures Reaches(OneSlot(0, Idle, Idle, {}, {}), end)
  {
    var s1, s2 := OneSlot(1, Holding, Idle, {}, {}), OneSlot(1, Running(Waiting), Idle, {0}, {});
    ReachesBy(s2, Act(0, WaitError), OneSlot(1, Running(Logging), Idle, {0}, {}), end);
    ReachesBy(s1, Act(0, Create(true)), s2, end);
    ReachesBy(OneSlot(0, Idle, Idle, {}, {}), Act(0, Acquire(true)), s1, end);
  }

  lemma SecondCall()
    ensures Reaches(OneSlot(0, Over, Idle, {0}, {0}), OneSlot(1, Over, Running(Waiting), {0, 1}, {0}))
  {
    var s7, s8 := OneSlot(1, Over, Holding, {0}, {0}), OneSlot(1, Over, Running(Waiting), {0, 1}, {0});
    ReachesItself(s8);
    ReachesBy(s7, Act(1, Create(true)), s8, s8);
    ReachesBy(OneSlot(0, Over, Idle, {0}, {0}), Act(1, Acquire(true)), s7, s8);
  }

  /** The terminating pods are needed in the bound: one slot, no failed removal, and two pods. */
  lemma TerminatingPodsCount() returns (s: System, u: System)
    ensures Fresh(s) && s.capacity == 1 && Reaches(s, u) && u.failures == 0 && |u.live| == 2
  {
    s, u := OneSlot(0, Idle, Idle, {}, {}), OneSlot(1, Over, Running(Waiting), {0, 1}, {0});
    SecondCall();
    FirstCallEnds(u);
    FirstCall(u);
  }
}
