/**
 * Waiting for an analysis pod: podReady, waitForInitContainer and watchUntilReady,
 * against an API server whose watches drop, err and skip ahead between sessions.
 */
module PodWatch {
  import opened Wrappers

  // ----- the verdict on one version of the pod -----

  datatype ContainerStatus = ContainerStatus(name: string, exitCode: Option<int>, ready: bool)
  datatype PodPhase = PodPending | PodRunning | PodSucceeded | PodFailed
  datatype PodStatus = PodStatus(initContainers: seq<ContainerStatus>, phase: PodPhase,
      containers: seq<ContainerStatus>)

  datatype Verdict = Pending | Ready | Failing

  predicate InitFailure(cs: ContainerStatus) {
    cs.name == "sitespeed" && cs.exitCode.Some? && cs.exitCode.value != 0
  }

  predicate ResultsReady(cs: ContainerStatus) {
    cs.name == "results" && cs.ready
  }

  predicate Failed(s: PodStatus) {
    s.phase.PodFailed? || exists cs | cs in s.initContainers :: InitFailure(cs)
  }

  function Judge(s: PodStatus): Verdict {
    if Failed(s) then Failing
    else if exists cs | cs in s.containers :: ResultsReady(cs) then Ready
    else Pending
  }

  method PodReady(s: PodStatus) returns (ready: bool, err: bool)
    ensures err <==> Judge(s) == Failing
    ensures ready <==> Judge(s) == Ready
  {
    var i := 0;
    while i < |s.initContainers|
      invariant 0 <= i <= |s.initContainers|
      invariant forall cs | cs in s.initContainers[..i] :: !InitFailure(cs)
    {
      var cs := s.initContainers[i];
      if cs.name == "sitespeed" && cs.exitCode.Some? && cs.exitCode.value != 0 {
        assert cs in s.initContainers && InitFailure(cs);
        return false, true;
      }
      i := i + 1;
    }
    assert s.initContainers[..i] == s.initContainers;
    if s.phase.PodFailed? { return false, true; }
    i := 0;
    while i < |s.containers|
      invariant 0 <= i <= |s.containers|
      invariant forall cs | cs in s.containers[..i] :: !ResultsReady(cs)
    {
      if s.containers[i].name == "results" && s.containers[i].ready {
        assert s.containers[i] in s.containers && ResultsReady(s.containers[i]);
        return true, false;
      }
      i := i + 1;
    }
    assert s.containers[..i] == s.containers;
    return false, false;
  }

  /** The verdict does not depend on the order in which statuses are listed. */
  lemma JudgeIgnoresOrder(s: PodStatus, t: PodStatus)
    requires multiset(s.initContainers) == multiset(t.initContainers) && s.phase == t.phase
    requires multiset(s.containers) == multiset(t.containers)
    ensures Judge(s) == Judge(t)
  {
    forall cs ensures cs in s.initContainers <==> cs in t.initContainers {
      assert cs in multiset(s.initContainers) <==> cs in multiset(t.initContainers);
    }
    forall cs ensures cs in s.containers <==> cs in t.containers {
      assert cs in multiset(s.containers) <==> cs in multiset(t.containers);
    }
  }

  // ----- ready means finished -----

  /** A pod with restart policy Never: the init container runs once, then the main container may start. */
  datatype InitState = InitWaiting | InitRunning | InitExited(code: int)
  datatype MainState = NotStarted | Started(ready: bool) | Stopped
  datatype Life = Life(init: InitState, main: MainState, phase: PodPhase)

  const BORN := Life(InitWaiting, NotStarted, PodPending)

  predicate Lives(a: Life, b: Life) {
    || (a.init.InitWaiting? && b == a.(init := InitRunning))
    || (a.init.InitRunning? && b.init.InitExited? && b == a.(init := b.init))
    || (a.init == InitExited(0) && a.main.NotStarted? && b == a.(main := Started(false), phase := PodRunning))
    || (a.main.Started? && b.main.Started? && b == a.(main := b.main))
    || (a.main.Started? && b == a.(main := Stopped, phase := b.phase))
    || (a.init.InitExited? && a.init.code != 0 && b == a.(phase := PodFailed))
    || (b == a.(phase := PodFailed))
  }

  ghost predicate Lifetime(run: nat -> Life) {
    run(0) == BORN && forall i: nat :: Lives(run(i), run(i + 1)) || run(i + 1) == run(i)
  }

  /** A reported status: entries may be missing or belong to other containers, but none misreports. */
  predicate Reports(s: PodStatus, l: Life) {
    && s.phase == l.phase
    && (forall cs | cs in s.initContainers && cs.name == "sitespeed" ::
          cs.exitCode == if l.init.InitExited? then Some(l.init.code) else None)
    && (forall cs | cs in s.containers && cs.name == "results" :: cs.ready ==> l.main == Started(true))
  }

  lemma {:induction false} MainNeedsInit(run: nat -> Life, n: nat)
    requires Lifetime(run)
    ensures !run(n).main.NotStarted? ==> run(n).init == InitExited(0)
  {
    if n > 0 {
      MainNeedsInit(run, n - 1);
      assert Lives(run(n - 1), run(n - 1 + 1)) || run(n - 1 + 1) == run(n - 1);
    }
  }

  /** Whenever a reported status is judged ready, the analysis has exited with code 0. */
  lemma ReadyMeansFinished(run: nat -> Life, n: nat, s: PodStatus)
    requires Lifetime(run) && Reports(s, run(n)) && Judge(s) == Ready
    ensures run(n).init == InitExited(0)
  {
    MainNeedsInit(run, n);
  }

  /** The verdict in plain words: failures first, then readiness. */
  lemma JudgedExactly(s: PodStatus)
    ensures Judge(s) == Failing <==>
      s.phase == PodFailed
      || exists cs | cs in s.initContainers :: cs.name == "sitespeed" && cs.exitCode.Some? && cs.exitCode != Some(0)
    ensures Judge(s) == Ready <==>
      Judge(s) != Failing && exists cs | cs in s.containers :: cs.name == "results" && cs.ready
  {
    assert forall cs | cs in s.initContainers ::
      InitFailure(cs) <==> cs.name == "sitespeed" && cs.exitCode.Some? && cs.exitCode != Some(0);
    assert forall cs | cs in s.containers :: ResultsReady(cs) <==> cs.name == "results" && cs.ready;
  }

  /** An analysis that exited with another code than 0, and is reported, is judged to have failed. */
  lemma FailedIsFailing(run: nat -> Life, n: nat, s: PodStatus, code: int)
    requires Reports(s, run(n)) && run(n).init == InitExited(code) && code != 0
    requires exists cs :: cs in s.initContainers && cs.name == "sitespeed"
    ensures Judge(s) == Failing
  {
    JudgedExactly(s);
  }

  /** A results container that is ready, and is reported, in a pod that has not failed, is judged so. */
  lemma ReadyIsReady(run: nat -> Life, n: nat, s: PodStatus)
    requires Lifetime(run) && Reports(s, run(n)) && run(n).main == Started(true) && !run(n).phase.PodFailed?
    requires exists cs :: cs in s.containers && cs.name == "results" && cs.ready
    ensures Judge(s) == Ready
  {
    MainNeedsInit(run, n);
    JudgedExactly(s);
  }

  // ----- watching -----

  datatype Version = Status(status: PodStatus) | Gone

  function Class(v: Version): Verdict {
    if v.Gone? then Failing else Judge(v.status)
  }

  type History = nat -> Version

  /** One Get and the unbroken watch after it: versions first..last were all observed, in order. */
  datatype Session = Session(first: nat, last: nat)

  datatype GetReply = Seen(version: nat) | GetFailed
  datatype Event = Changed(version: nat) | Other | Closed | WatchError | ContextDone

  /** One call, with what it answered; or one delivery of a watch. */
  datatype WatchCall = Got(reply: GetReply) | Watched(ok: bool) | Delivered(event: Event)

  class Cluster {
    const history: History
    var sessions: seq<Session>
    var budget: nat
    var log: seq<WatchCall>

    constructor (history: History, budget: nat)
      ensures this.history == history && sessions == [] && log == []
    {
      this.history := history;
      this.budget := budget;
      sessions, log := [], [];
    }

    /** A consistent read: at least as recent as anything observed before. */
    method Get() returns (r: GetReply)
      modifies this`sessions, this`log
      ensures log == old(log) + [Got(r)]
      ensures r.GetFailed? ==> sessions == old(sessions)
      ensures r.Seen? ==> sessions == old(sessions) + [Session(r.version, r.version)]
      ensures r.Seen? && old(sessions) != [] ==> r.version >= old(sessions)[|old(sessions)| - 1].last
    {
      var fails: bool := *;
      if fails {
        log := log + [Got(GetFailed)];
        return GetFailed;
      }
      var i: nat :| sessions != [] ==> i >= sessions[|sessions| - 1].last;
      sessions := sessions + [Session(i, i)];
      r := Seen(i);
      log := log + [Got(r)];
    }

    method Watch() returns (ok: bool)
      modifies this`log
      ensures log == old(log) + [Watched(ok)]
    {
      ok := *;
      log := log + [Watched(ok)];
    }

    /** The watch delivers the version after the last one observed, or anything that is no version at all. */
    method Next() returns (e: Event)
      requires sessions != []
      modifies this`sessions, this`budget, this`log
      ensures log == old(log) + [Delivered(e)]
      ensures e.ContextDone? || budget < old(budget)
      ensures !e.Changed? ==> sessions == old(sessions)
      ensures e.Changed? ==> var n := old(|sessions|) - 1;
        && e.version == old(sessions)[n].last + 1
        && sessions == old(sessions)[n := Session(old(sessions)[n].first, e.version)]
    {
      if budget == 0 {
        log := log + [Delivered(ContextDone)];
        return ContextDone;
      }
      var kind: Event := *;
      budget := budget - 1;
      if kind.Changed? {
        var n := |sessions| - 1;
        e := Changed(sessions[n].last + 1);
        sessions := sessions[n := Session(sessions[n].first, e.version)];
      } else {
        e := kind;
      }
      log := log + [Delivered(e)];
    }
  }

  // ----- the calls of a wait -----

  /** After this call a wait cannot go on: a failed Get or Watch, or the end of its context. */
  predicate Fatal(c: WatchCall) {
    c == Got(GetFailed) || c == Watched(false) || c == Delivered(ContextDone)
  }

  /** The watch has to be made again: its channel was closed, or it delivered an error. */
  predicate Dropped(c: WatchCall) {
    c == Delivered(Closed) || c == Delivered(WatchError)
  }

  /** Which call may come after which: Get, Watch, deliveries, and after a drop Get again. */
  predicate InTurn(a: WatchCall, b: WatchCall) {
    match a
    case Got(_) => b.Watched?
    case Watched(_) => b.Delivered?
    case Delivered(_) => if Dropped(a) then b.Got? else b.Delivered?
  }

  /** The calls of a wait come in turn, beginning with a Get, and none before the last is fatal. */
  predicate Orderly(log: seq<WatchCall>) {
    && (log != [] ==> log[0].Got?)
    && (forall k | 0 <= k < |log| - 1 :: InTurn(log[k], log[k + 1]) && !Fatal(log[k]))
  }

  predicate EndsFatally(log: seq<WatchCall>) {
    log != [] && Fatal(log[|log| - 1])
  }

  predicate EndsDropped(log: seq<WatchCall>) {
    log != [] && Dropped(log[|log| - 1])
  }

  lemma OneMoreCall(log: seq<WatchCall>, c: WatchCall)
    requires Orderly(log) && !EndsFatally(log) && (if log == [] then c.Got? else InTurn(log[|log| - 1], c))
    ensures Orderly(log + [c]) && (log + [c])[|log|] == c
  {
    forall k | 0 <= k < |log| ensures InTurn((log + [c])[k], (log + [c])[k + 1]) && !Fatal((log + [c])[k]) {
      if k < |log| - 1 { assert InTurn(log[k], log[k + 1]); }
    }
  }

  /** Failure stands for an init container or pod that failed, and for a deleted pod. */
  datatype WaitResult = Finished | Failure | Interrupted

  predicate Observed(sessions: seq<Session>, v: nat) {
    exists k | 0 <= k < |sessions| :: sessions[k].first <= v <= sessions[k].last
  }

  /** Sessions never go back in time. */
  predicate Forward(sessions: seq<Session>) {
    && (forall k | 0 <= k < |sessions| :: sessions[k].first <= sessions[k].last)
    && (forall k | 0 <= k < |sessions| - 1 :: sessions[k].last <= sessions[k + 1].first)
  }

  function Newest(sessions: seq<Session>): nat
    requires sessions != []
  {
    sessions[|sessions| - 1].last
  }

  ghost predicate AllPending(h: History, sessions: seq<Session>) {
    forall v: nat | Observed(sessions, v) :: Class(h(v)) == Pending
  }

  /** Every version observed before the newest was undecided, and the result is the verdict on the newest. */
  ghost predicate Explains(h: History, sessions: seq<Session>, r: WaitResult) {
    && Forward(sessions)
    && (r.Interrupted? ==> AllPending(h, sessions))
    && (!r.Interrupted? ==>
         && sessions != []
         && (forall v: nat | Observed(sessions, v) && v < Newest(sessions) :: Class(h(v)) == Pending)
         && Class(h(Newest(sessions))) == if r.Finished? then Ready else Failing)
  }

  method WatchUntilReady(c: Cluster) returns (restart: bool, r: WaitResult)
    requires c.sessions != [] && Forward(c.sessions) && AllPending(c.history, c.sessions)
    requires Orderly(c.log) && c.log != [] && c.log[|c.log| - 1] == Watched(true)
    modifies c
    ensures Orderly(c.log) && c.log != []
    ensures restart <==> EndsDropped(c.log)
    ensures !restart ==> (r.Interrupted? <==> EndsFatally(c.log))
    ensures |c.sessions| == |old(c.sessions)|
    ensures c.sessions[..|c.sessions| - 1] == old(c.sessions)[..|c.sessions| - 1]
    ensures c.sessions[|c.sessions| - 1].first == old(c.sessions)[|c.sessions| - 1].first
    ensures Forward(c.sessions)
    ensures restart ==> AllPending(c.history, c.sessions) && c.budget < old(c.budget)
    ensures !restart ==> Explains(c.history, c.sessions, r)
  {
    var n := |c.sessions| - 1;
    r := Interrupted;
    while true
      invariant |c.sessions| == n + 1 && c.budget <= old(c.budget)
      invariant c.sessions[..n] == old(c.sessions)[..n] && c.sessions[n].first == old(c.sessions)[n].first
      invariant Forward(c.sessions) && AllPending(c.history, c.sessions)
      invariant Orderly(c.log) && c.log != [] && !EndsFatally(c.log) && !EndsDropped(c.log) && !c.log[|c.log| - 1].Got?
      decreases c.budget
    {
      ghost var before, calls := c.sessions, c.log;
      var event := c.Next();
      OneMoreCall(calls, Delivered(event));
      match event {
        case ContextDone => return false, Interrupted;
        case Closed => return true, Interrupted;
        case WatchError => return true, Interrupted;
        case Other =>
        case Changed(v) =>
          NewVersion(before, c.sessions, v);
          Judged(c.history, before, c.sessions, v);
          if c.history(v).Gone? { return false, Failure; }
          var ready, err := PodReady(c.history(v).status);
          if err || ready { return false, if ready then Finished else Failure; }
      }
    }
  }

  /** Delivering one more version to the current session adds exactly that version. */
  lemma NewVersion(before: seq<Session>, after: seq<Session>, v: nat)
    requires before != [] && Forward(before) && v == Newest(before) + 1
    requires after == before[|before| - 1 := Session(before[|before| - 1].first, v)]
    ensures Forward(after) && Newest(after) == v
    ensures forall w: nat :: Observed(after, w) <==> Observed(before, w) || w == v
  {
    var n := |before| - 1;
    forall w: nat ensures Observed(after, w) <==> Observed(before, w) || w == v {
      if Observed(before, w) {
        var k :| 0 <= k <= n && before[k].first <= w <= before[k].last;
        assert after[k].first <= w <= after[k].last;
      }
      if Observed(after, w) {
        var k :| 0 <= k <= n && after[k].first <= w <= after[k].last;
        if k < n || w <= before[n].last { assert before[k].first <= w <= before[k].last; }
      }
      if w == v { assert after[n].first <= w <= after[n].last; }
    }
  }

  lemma NewSession(before: seq<Session>, v: nat)
    requires Forward(before) && (before != [] ==> v >= Newest(before))
    ensures var after := before + [Session(v, v)];
      Forward(after) && Newest(after) == v && forall w: nat :: Observed(after, w) <==> Observed(before, w) || w == v
  {
    var after := before + [Session(v, v)];
    forall w: nat ensures Observed(after, w) <==> Observed(before, w) || w == v {
      if Observed(before, w) {
        var k :| 0 <= k < |before| && before[k].first <= w <= before[k].last;
        assert after[k].first <= w <= after[k].last;
      }
      if Observed(after, w) {
        var k :| 0 <= k <= |before| && after[k].first <= w <= after[k].last;
        if k < |before| { assert before[k].first <= w <= before[k].last; }
      }
      if w == v { assert after[|before|].first <= w <= after[|before|].last; }
    }
  }

  /** After one more observed version: still undecided, or decided by it. */
  lemma Judged(h: History, before: seq<Session>, after: seq<Session>, v: nat)
    requires AllPending(h, before) && Forward(after) && after != [] && Newest(after) == v
    requires forall w: nat :: Observed(after, w) <==> Observed(before, w) || w == v
    ensures Class(h(v)) == Pending ==> AllPending(h, after)
    ensures Class(h(v)) == Ready ==> Explains(h, after, Finished)
    ensures Class(h(v)) == Failing ==> Explains(h, after, Failure)
  {
  }

  /** The Get that precedes every watch. */
  method Prime(c: Cluster) returns (settled: bool, r: WaitResult)
    requires Forward(c.sessions) && AllPending(c.history, c.sessions)
    requires Orderly(c.log) && (c.log != [] ==> EndsDropped(c.log))
    modifies c`sessions, c`log
    ensures Orderly(c.log) && c.log != [] && c.log[|c.log| - 1].Got?
    ensures settled ==> Explains(c.history, c.sessions, r)
    ensures settled ==> (r.Interrupted? <==> EndsFatally(c.log))
    ensures !settled ==> !EndsFatally(c.log)
    ensures !settled ==> c.sessions != [] && Forward(c.sessions) && AllPending(c.history, c.sessions)
  {
    ghost var before, calls := c.sessions, c.log;
    var got := c.Get();
    OneMoreCall(calls, Got(got));
    if got.GetFailed? { return true, Interrupted; }
    NewSession(before, got.version);
    Judged(c.history, before, c.sessions, got.version);
    var pod := c.history(got.version);
    if pod.Gone? { return true, Failure; }
    var ready, err := PodReady(pod.status);
    settled := err || ready;
    r := if ready then Finished else Failure;
  }

  method WaitForInitContainer(c: Cluster) returns (r: WaitResult)
    requires c.sessions == [] && c.log == []
    modifies c
    ensures Explains(c.history, c.sessions, r)
    ensures Orderly(c.log) && c.log != []
    ensures r.Interrupted? <==> EndsFatally(c.log)
  {
    while true
      invariant Forward(c.sessions) && AllPending(c.history, c.sessions)
      invariant Orderly(c.log) && (c.log != [] ==> EndsDropped(c.log))
      decreases c.budget
    {
      var settled;
      settled, r := Prime(c);
      if settled { return r; }
      ghost var calls := c.log;
      var watching := c.Watch();
      OneMoreCall(calls, Watched(watching));
      if !watching { return Interrupted; }
      var restart;
      restart, r := WatchUntilReady(c);
      if !restart { return r; }
    }
  }

  // ----- confluence -----

  predicate Decided(h: History, v: nat) {
    Class(h(v)) != Pending
  }

  function ResultOf(v: Verdict): WaitResult {
    match v
    case Pending => Interrupted
    case Ready => Finished
    case Failing => Failure
  }

  /** From some version on, all that decide the pod decide it alike. */
  ghost predicate DecidedAlike(h: History, start: nat) {
    forall i: nat, j: nat | start <= i && start <= j && Decided(h, i) && Decided(h, j) :: Class(h(i)) == Class(h(j))
  }

  /** Once decided, a pod stays in its class: failures and deletions are final, and so is readiness. */
  ghost predicate Absorbing(h: History) {
    forall i: nat, j: nat | i <= j && Decided(h, i) :: Class(h(j)) == Class(h(i))
  }

  lemma AbsorbingIsAlike(h: History, start: nat)
    requires Absorbing(h)
    ensures DecidedAlike(h, start)
  {
  }

  ghost predicate FirstDecided(h: History, start: nat, d: nat) {
    start <= d && Decided(h, d) && forall i: nat | start <= i < d :: !Decided(h, i)
  }

  /** A wait that begins at this version and ends with a verdict. */
  ghost predicate EndsFrom(h: History, start: nat, sessions: seq<Session>, r: WaitResult) {
    Explains(h, sessions, r) && !r.Interrupted? && sessions[0].first == start
  }

  lemma {:induction false} ForwardGrows(sessions: seq<Session>)
    requires sessions != [] && Forward(sessions)
    ensures sessions[0].first <= Newest(sessions)
  {
    if |sessions| > 1 {
      ForwardGrows(sessions[1..]);
    }
  }

  lemma {:induction false} FirstObserved(sessions: seq<Session>)
    requires sessions != [] && Forward(sessions)
    ensures Observed(sessions, sessions[0].first)
  {
    assert sessions[0].first <= sessions[0].first <= sessions[0].last;
  }

  /** A wait can see nothing but its first version and, after a drop, any later one. */
  lemma DroppedWait(h: History, start: nat, i: nat)
    requires start < i && !Decided(h, start) && Decided(h, i)
    ensures EndsFrom(h, start, [Session(start, start), Session(i, i)], ResultOf(Class(h(i))))
  {
    var t := [Session(start, start), Session(i, i)];
    forall v: nat | Observed(t, v) ensures v == start || v == i {
      var k :| 0 <= k < |t| && t[k].first <= v <= t[k].last;
      assert k == 0 || k == 1;
    }
  }

  lemma ImmediateWait(h: History, i: nat)
    requires Decided(h, i)
    ensures EndsFrom(h, i, [Session(i, i)], ResultOf(Class(h(i))))
  {
    var t := [Session(i, i)];
    forall v: nat | Observed(t, v) ensures v == i {
      var k :| 0 <= k < |t| && t[k].first <= v <= t[k].last;
      assert k == 0;
    }
  }

  /** A watch that stays up ends with the first version that decides. */
  lemma UnbrokenWait(h: History, start: nat, d: nat)
    requires FirstDecided(h, start, d)
    ensures EndsFrom(h, start, [Session(start, d)], ResultOf(Class(h(d))))
  {
    var s := [Session(start, d)];
    forall v: nat | Observed(s, v) ensures start <= v <= d && (v < d ==> !Decided(h, v)) {
      var k :| 0 <= k < |s| && s[k].first <= v <= s[k].last;
      assert k == 0;
    }
  }

  /**
   * However the watch is dropped, re-established and re-read, a wait that ends with a
   * verdict ends with the class of the first decided version from its first Get on, if all
   * versions that decide from there on decide alike.
   */
  lemma WatchConfluence(h: History, start: nat, sessions: seq<Session>, r: WaitResult, d: nat)
    requires DecidedAlike(h, start) && EndsFrom(h, start, sessions, r) && FirstDecided(h, start, d)
    ensures r == ResultOf(Class(h(d)))
  {
    ForwardGrows(sessions);
    assert Decided(h, Newest(sessions)) && Class(h(Newest(sessions))) == Class(h(d));
  }

  /**
   * And it does end with a verdict, however often the watch is dropped, unless a Get or a Watch
   * fails or the context ends: without these, a wait returns that class.
   */
  lemma WaitDecides(h: History, sessions: seq<Session>, log: seq<WatchCall>, r: WaitResult, d: nat)
    requires Explains(h, sessions, r) && (r.Interrupted? <==> EndsFatally(log)) && sessions != []
    requires forall k | 0 <= k < |log| :: !Fatal(log[k])
    requires DecidedAlike(h, sessions[0].first) && FirstDecided(h, sessions[0].first, d)
    ensures r == ResultOf(Class(h(d))) && !r.Interrupted?
  {
    WatchConfluence(h, sessions[0].first, sessions, r, d);
  }

  lemma {:induction false} LastsForward(sessions: seq<Session>, k: nat)
    requires Forward(sessions) && k < |sessions|
    ensures sessions[k].last <= Newest(sessions)
    decreases |sessions| - k
  {
    if k < |sessions| - 1 { LastsForward(sessions, k + 1); }
  }

  /** A wait that has seen the pod deleted fails at that version. */
  lemma GoneDecides(h: History, sessions: seq<Session>, r: WaitResult, v: nat)
    requires Explains(h, sessions, r) && Observed(sessions, v) && h(v).Gone?
    ensures r == Failure
  {
    var k :| 0 <= k < |sessions| && sessions[k].first <= v <= sessions[k].last;
    LastsForward(sessions, k);
  }

  /** So for a pod that, once decided, stays in its class. */
  lemma AbsorbingConfluence(h: History, start: nat, sessions: seq<Session>, r: WaitResult, d: nat)
    requires Absorbing(h) && EndsFrom(h, start, sessions, r) && FirstDecided(h, start, d)
    ensures r == ResultOf(Class(h(d)))
  {
    AbsorbingIsAlike(h, start);
    WatchConfluence(h, start, sessions, r, d);
  }

  /**
   * And only then: all waits from a version end with the class of the first decided one if and
   * only if it is that version itself, or all versions that decide from there on decide alike.
   */
  lemma ConfluenceExactly(h: History, start: nat, d: nat)
    requires FirstDecided(h, start, d)
    ensures (forall sessions, r | EndsFrom(h, start, sessions, r) :: r == ResultOf(Class(h(d))))
       <==> d == start || DecidedAlike(h, start)
  {
    if d == start {
      forall sessions, r | EndsFrom(h, start, sessions, r) ensures r == ResultOf(Class(h(d))) {
        FirstObserved(sessions);
        ForwardGrows(sessions);
      }
    } else if DecidedAlike(h, start) {
      forall sessions, r | EndsFrom(h, start, sessions, r) ensures r == ResultOf(Class(h(d))) {
        WatchConfluence(h, start, sessions, r, d);
      }
    } else {
      var i: nat, j: nat :| start <= i && start <= j && Decided(h, i) && Decided(h, j) && Class(h(i)) != Class(h(j));
      var k := if Class(h(i)) != Class(h(d)) then i else j;
      DroppedWait(h, start, k);
    }
  }

  ghost predicate NeverContradict(h: History) {
    forall a: nat, s, r, b: nat, t, q | EndsFrom(h, a, s, r) && EndsFrom(h, b, t, q) :: r == q
  }

  /** Waits on one history never contradict each other if and only if all versions that decide decide alike. */
  lemma WaitsAgreeExactly(h: History)
    ensures NeverContradict(h) <==> DecidedAlike(h, 0)
  {
    if DecidedAlike(h, 0) {
      forall a: nat, s, r, b: nat, t, q | EndsFrom(h, a, s, r) && EndsFrom(h, b, t, q) ensures r == q {
        assert Decided(h, Newest(s)) && Decided(h, Newest(t));
      }
    } else {
      var i: nat, j: nat :| Decided(h, i) && Decided(h, j) && Class(h(i)) != Class(h(j));
      ImmediateWait(h, i);
      ImmediateWait(h, j);
    }
  }

  /**
   * Where a later version decides otherwise than the first one that decides, a watch that
   * stays up and one that is dropped and re-read at that version end with opposite results.
   */
  lemma FlappingDisagrees(h: History, start: nat, d: nat, i: nat)
    requires FirstDecided(h, start, d) && start < d < i && Decided(h, i) && Class(h(i)) != Class(h(d))
    ensures EndsFrom(h, start, [Session(start, d)], ResultOf(Class(h(d))))
    ensures EndsFrom(h, start, [Session(start, start), Session(i, i)], ResultOf(Class(h(i))))
    ensures ResultOf(Class(h(d))) != ResultOf(Class(h(i)))
  {
    UnbrokenWait(h, start, d);
    DroppedWait(h, start, i);
  }

  // ----- finished means the analysis ended with code 0 -----

  /** The history of one pod: each version reports some state of its life, until it is gone. */
  ghost predicate ReportsLife(h: History, run: nat -> Life, upTo: nat -> nat) {
    Lifetime(run) && forall v: nat | h(v).Status? :: Reports(h(v).status, run(upTo(v)))
  }

  /** A wait that ends well has observed a version at which the analysis had exited with code 0. */
  lemma FinishedMeansExited(h: History, sessions: seq<Session>, run: nat -> Life, upTo: nat -> nat)
    requires Explains(h, sessions, Finished) && ReportsLife(h, run, upTo)
    ensures Observed(sessions, Newest(sessions)) && run(upTo(Newest(sessions))).init == InitExited(0)
  {
    var v := Newest(sessions);
    assert sessions[|sessions| - 1].first <= v <= sessions[|sessions| - 1].last;
    assert Judge(h(v).status) == Ready;
    ReadyMeansFinished(run, upTo(v), h(v).status);
  }
}
