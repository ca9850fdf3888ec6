/**
 * Replacing an analysis pod: ensurePodRecreated, waitUntilPodDeleted and
 * createPodWithRetry, against an API server whose name slot may change in any way
 * between two calls.
 */
module PodRecreate {
  import opened Wrappers

  /** What holds the pod's name: nothing, a live object or one that is being deleted. */
  datatype Slot = Absent | Live(uid: nat) | Terminating(uid: nat)

  datatype GetReply = Found | NotFound | GetFailed
  datatype CreateReply = Created(uid: nat) | AlreadyExists | Conflict | CreateFailed
  datatype DeleteReply = Deleted | DeleteNotFound | DeleteFailed

  /** One API call, with what it answered. */
  datatype Call = Got(got: GetReply) | Made(made: CreateReply) | Removed(removed: DeleteReply)

  const MAX_ATTEMPTS: nat := 5

  predicate IsConflict(r: CreateReply) {
    r.AlreadyExists? || r.Conflict?
  }

  class PodApi {
    var slot: Slot
    var nextUid: nat
    var mine: set<nat>
    var log: seq<Call>

    /** Every uid ever given out is below nextUid. */
    predicate Valid()
      reads this
    {
      && (slot.Absent? || slot.uid < nextUid)
      && forall u | u in mine :: u < nextUid
    }

    constructor ()
      ensures Valid()
    {
      slot, nextUid, mine, log := Absent, 0, {}, [];
    }

    /** Whatever the cluster does on its own between two calls: any slot, with any newer uid. */
    method Drift()
      requires Valid()
      modifies this`slot, this`nextUid
      ensures Valid() && nextUid >= old(nextUid)
    {
      var s: Slot, n: nat :| n >= nextUid && (s.Absent? || s.uid < n);
      slot, nextUid := s, n;
    }

    method Get() returns (r: GetReply)
      requires Valid()
      modifies this`slot, this`nextUid, this`log
      ensures Valid() && nextUid >= old(nextUid)
      ensures log == old(log) + [Got(r)]
      ensures !r.GetFailed? ==> (r.NotFound? <==> slot.Absent?)
    {
      Drift();
      var fails: bool := *;
      r := if fails then GetFailed else if slot.Absent? then NotFound else Found;
      log := log + [Got(r)];
    }

    /** A Create that does not succeed leaves nothing behind; it may also conflict spuriously. */
    method Create() returns (r: CreateReply)
      requires Valid()
      modifies this
      ensures Valid() && nextUid >= old(nextUid)
      ensures log == old(log) + [Made(r)]
      ensures r.Created? ==> r.uid >= old(nextUid) && slot == Live(r.uid) && mine == old(mine) + {r.uid}
      ensures !r.Created? ==> mine == old(mine)
    {
      Drift();
      var refusal: Option<CreateReply> :| refusal.Some? ==> !refusal.value.Created?;
      if refusal.Some? {
        r := refusal.value;
      } else if !slot.Absent? {
        r := AlreadyExists;
      } else {
        r := Created(nextUid);
        slot, mine, nextUid := Live(nextUid), mine + {nextUid}, nextUid + 1;
      }
      log := log + [Made(r)];
    }

    /** Deletion is asynchronous, and a failed call may or may not have taken effect. */
    method Delete() returns (r: DeleteReply)
      requires Valid()
      modifies this`slot, this`nextUid, this`log
      ensures Valid() && nextUid >= old(nextUid)
      ensures log == old(log) + [Removed(r)]
    {
      Drift();
      var fails: bool, effective: bool, immediate: bool := *, *, *;
      r := if fails then DeleteFailed else if slot.Absent? then DeleteNotFound else Deleted;
      if slot.Live? && (effective || !fails) {
        slot := if immediate then Absent else Terminating(slot.uid);
      }
      log := log + [Removed(r)];
    }
  }

  // ----- the runner -----

  datatype Result = Pod(uid: nat) | Error

  /** polls is how many poll intervals pass before the waiting context ends. */
  method WaitUntilPodDeleted(pods: PodApi, polls: nat) returns (gone: bool)
    requires pods.Valid()
    modifies pods`slot, pods`nextUid, pods`log
    ensures pods.Valid() && pods.nextUid >= old(pods.nextUid)
    ensures |pods.log| >= |old(pods.log)| && pods.log[..|old(pods.log)|] == old(pods.log)
    ensures Waited(pods.log[|old(pods.log)|..], gone, polls)
  {
    ghost var before := pods.log;
    var left := polls;
    while true
      invariant pods.Valid() && pods.nextUid >= old(pods.nextUid)
      invariant |pods.log| >= |before| && pods.log[..|before|] == before
      invariant forall i | |before| <= i < |pods.log| :: pods.log[i] == Got(Found)
      invariant |pods.log| + left == |before| + polls
      decreases left
    {
      var r := pods.Get();
      if r.NotFound? { return true; }
      if r.GetFailed? { return false; }
      if left == 0 { return false; }
      left := left - 1;
    }
  }

  /**
   * A wait sees the pod until a last Get, and succeeds exactly when that one finds nothing. It
   * gives up only when a Get fails, or when it has polled all through its budget and every Get
   * has found the pod.
   */
  predicate Waited(calls: seq<Call>, gone: bool, polls: nat) {
    && 1 <= |calls| <= polls + 1
    && (forall i | 0 <= i < |calls| - 1 :: calls[i] == Got(Found))
    && var last := calls[|calls| - 1];
       if gone then last == Got(NotFound)
       else last == Got(GetFailed) || (last == Got(Found) && |calls| == polls + 1)
  }

  /** Both places that delete the pod then wait for it to be gone; the Delete's own error is only logged. */
  method DeleteAndWait(pods: PodApi, polls: nat) returns (gone: bool, ghost calls: seq<Call>)
    requires pods.Valid()
    modifies pods`slot, pods`nextUid, pods`log
    ensures pods.Valid() && pods.nextUid >= old(pods.nextUid)
    ensures pods.log == old(pods.log) + calls
    ensures NameFreed(calls, gone, polls)
  {
    ghost var before := pods.log;
    var removed := pods.Delete();
    gone := WaitUntilPodDeleted(pods, polls);
    calls := pods.log[|before|..];
    assert calls[0] == Removed(removed) && calls[1..] == pods.log[|before| + 1..];
  }

  predicate NameFreed(calls: seq<Call>, gone: bool, polls: nat) {
    calls != [] && calls[0].Removed? && Waited(calls[1..], gone, polls)
  }

  /** How many Gets in a row have found the pod by now. */
  function FoundAtEnd(calls: seq<Call>): nat {
    if calls == [] || calls[|calls| - 1] != Got(Found) then 0 else 1 + FoundAtEnd(calls[..|calls| - 1])
  }

  /**
   * What the last call shows when no pod was created: a Get that failed; a Create refused with
   * something else than a conflict; a wait that used its whole budget; or the last wait after
   * as many conflicts as are allowed.
   */
  predicate GaveUp(calls: seq<Call>, budgets: nat -> nat) {
    && calls != []
    && var last := calls[|calls| - 1];
       || last == Got(GetFailed)
       || last == Made(CreateFailed)
       || (last == Got(Found) && FoundAtEnd(calls) == budgets(Creates(calls)) + 1)
       || (last == Got(NotFound) && Creates(calls) == MAX_ATTEMPTS)
  }

  /** budgets gives each wait its number of polls. */
  method CreatePodWithRetry(pods: PodApi, budgets: nat -> nat) returns (result: Result, ghost calls: seq<Call>)
    requires pods.Valid()
    modifies pods
    ensures pods.Valid() && pods.nextUid >= old(pods.nextUid)
    ensures pods.log == old(pods.log) + calls
    ensures Settles(result, Follow(Free, calls))
    ensures Creates(calls) <= MAX_ATTEMPTS
    ensures Follow(Free, calls).Free? ==> Creates(calls) == MAX_ATTEMPTS
    ensures result.Pod? ==> pods.slot == Live(result.uid)
    ensures result.Pod? ==> result.uid >= old(pods.nextUid) && pods.mine == old(pods.mine) + {result.uid}
    ensures result.Error? ==> pods.mine == old(pods.mine) && GaveUp(calls, budgets)
  {
    calls := [];
    var attempt := 1;
    while attempt <= MAX_ATTEMPTS
      invariant 1 <= attempt <= MAX_ATTEMPTS + 1
      invariant pods.Valid() && pods.nextUid >= old(pods.nextUid) && pods.mine == old(pods.mine)
      invariant pods.log == old(pods.log) + calls
      invariant Follow(Free, calls) == Free && Creates(calls) == attempt - 1
      invariant attempt > 1 ==> calls != [] && calls[|calls| - 1] == Got(NotFound)
    {
      var created := pods.Create();
      FollowOne(Free, calls, Made(created));
      if created.Created? { return Pod(created.uid), calls + [Made(created)]; }
      if !IsConflict(created) { return Error, calls + [Made(created)]; }
      ghost var more;
      var gone;
      gone, more := DeleteAndWait(pods, budgets(attempt));
      Conflicted(calls, created, more, gone, budgets);
      calls := calls + [Made(created)] + more;
      if !gone { return Error, calls; }
      attempt := attempt + 1;
    }
    result := Error;
  }

  /** One more attempt that met a conflict. */
  lemma Conflicted(calls: seq<Call>, created: CreateReply, more: seq<Call>, gone: bool, budgets: nat -> nat)
    requires Follow(Free, calls) == Free && IsConflict(created)
    requires NameFreed(more, gone, budgets(Creates(calls) + 1))
    ensures var all := calls + [Made(created)] + more;
      && Creates(all) == Creates(calls) + 1 && all != []
      && (if gone then Follow(Free, all) == Free && all[|all| - 1] == Got(NotFound)
          else GaveUp(all, budgets) && (Follow(Free, all).Waiting? || Follow(Free, all).Failed?))
  {
    FollowOne(Free, calls, Made(created));
    FollowFreed(Free, calls + [Made(created)], more, gone, budgets(Creates(calls) + 1));
  }

  method EnsurePodRecreated(pods: PodApi, budgets: nat -> nat) returns (result: Result, ghost calls: seq<Call>)
    requires pods.Valid()
    modifies pods
    ensures pods.Valid()
    ensures pods.log == old(pods.log) + calls
    ensures Settles(result, Follow(Begin, calls))
    ensures Creates(calls) <= MAX_ATTEMPTS
    ensures Follow(Begin, calls).Free? ==> Creates(calls) == MAX_ATTEMPTS
    ensures result.Pod? ==> pods.slot == Live(result.uid)
    ensures result.Pod? ==> result.uid >= old(pods.nextUid) && pods.mine == old(pods.mine) + {result.uid}
    ensures result.Error? ==> pods.mine == old(pods.mine) && GaveUp(calls, budgets)
  {
    ghost var more;
    var gone;
    gone, calls := DeleteAndWait(pods, budgets(0));
    FirstWait(calls, gone, budgets);
    if !gone { return Error, calls; }
    result, more := CreatePodWithRetry(pods, budgets);
    Continued(calls, more, result, budgets);
    calls := calls + more;
  }

  lemma FirstWait(calls: seq<Call>, gone: bool, budgets: nat -> nat)
    requires NameFreed(calls, gone, budgets(0))
    ensures Creates(calls) == 0
    ensures if gone then Follow(Begin, calls) == Free
            else GaveUp(calls, budgets) && (Follow(Begin, calls).Waiting? || Follow(Begin, calls).Failed?)
  {
    FollowFreed(Begin, [], calls, gone, budgets(0));
    assert [] + calls == calls;
  }

  /** The protocol so far, and what the attempts with the name free add to it. */
  lemma Continued(calls: seq<Call>, more: seq<Call>, r: Result, budgets: nat -> nat)
    requires Follow(Begin, calls) == Free && Creates(calls) == 0
    requires Settles(r, Follow(Free, more)) && (r.Error? ==> GaveUp(more, budgets))
    ensures Follow(Begin, calls + more) == Follow(Free, more) && Creates(calls + more) == Creates(more)
    ensures r.Error? ==> GaveUp(calls + more, budgets)
  {
    FollowAppend(Begin, calls, more);
    CreatesAppend(calls, more);
    if r.Error? { GaveUpAfter(calls, more, budgets); }
  }

  /** Giving up in the end is giving up on the whole. */
  lemma GaveUpAfter(calls: seq<Call>, more: seq<Call>, budgets: nat -> nat)
    requires GaveUp(more, budgets) && Creates(calls) == 0 && !Follow(Free, more).Broken?
    ensures GaveUp(calls + more, budgets)
  {
    CreatesAppend(calls, more);
    if more[|more| - 1] == Got(Found) {
      StartsWithCreate(more);
      FoundAfter(calls, more, 0);
    }
  }

  /** With the name free, the first call is a Create. */
  lemma {:induction false} StartsWithCreate(calls: seq<Call>)
    requires calls != [] && !Follow(Free, calls).Broken?
    ensures calls[0].Made?
  {
    if |calls| > 1 { StartsWithCreate(calls[..|calls| - 1]); }
  }

  /** What came before another call does not count as found at the end. */
  lemma {:induction false} FoundAfter(a: seq<Call>, b: seq<Call>, k: nat)
    requires k < |b| && b[k] != Got(Found)
    ensures FoundAtEnd(a + b) == FoundAtEnd(b)
    decreases |b|
  {
    var n := |b| - 1;
    assert (a + b)[|a + b| - 1] == b[n] && (a + b)[..|a + b| - 1] == a + b[..n];
    if b[n] == Got(Found) { FoundAfter(a, b[..n], k); }
  }

  lemma {:induction false} AllFound(a: seq<Call>, waited: seq<Call>)
    requires a != [] && a[|a| - 1] != Got(Found) && forall i | 0 <= i < |waited| :: waited[i] == Got(Found)
    ensures FoundAtEnd(a + waited) == |waited|
    decreases |waited|
  {
    var n := |waited| - 1;
    if waited == [] {
      assert a + waited == a;
    } else {
      assert (a + waited)[..|a + waited| - 1] == a + waited[..n];
      AllFound(a, waited[..n]);
    }
  }

  // ----- the protocol the calls follow -----

  /** Where the protocol stands; Broken is reached by a call out of turn. */
  datatype Phase = Begin | Waiting | Free | Owned(uid: nat) | Refused | Failed | Broken

  function Next(p: Phase, c: Call): Phase {
    match (p, c)
    case (Begin, Removed(_)) => Waiting
    case (Refused, Removed(_)) => Waiting
    case (Waiting, Got(Found)) => Waiting
    case (Waiting, Got(NotFound)) => Free
    case (Waiting, Got(GetFailed)) => Failed
    case (Free, Made(Created(u))) => Owned(u)
    case (Free, Made(CreateFailed)) => Failed
    case (Free, Made(_)) => Refused
    case _ => Broken
  }

  function Follow(p: Phase, calls: seq<Call>): Phase {
    if calls == [] then p else Next(Follow(p, calls[..|calls| - 1]), calls[|calls| - 1])
  }

  /** A call that returns a pod ended owning it; one that returns an error owns nothing, and broke no rule. */
  predicate Settles(r: Result, end: Phase) {
    match r
    case Pod(uid) => end == Owned(uid)
    case Error => end.Waiting? || end.Free? || end.Failed?
  }

  function Creates(calls: seq<Call>): nat {
    if calls == [] then 0 else Creates(calls[..|calls| - 1]) + if calls[|calls| - 1].Made? then 1 else 0
  }

  function Deletes(calls: seq<Call>): nat {
    if calls == [] then 0 else Deletes(calls[..|calls| - 1]) + if calls[|calls| - 1].Removed? then 1 else 0
  }

  lemma FollowOne(p: Phase, calls: seq<Call>, c: Call)
    ensures Follow(p, calls + [c]) == Next(Follow(p, calls), c)
    ensures Creates(calls + [c]) == Creates(calls) + if c.Made? then 1 else 0
  {
    assert (calls + [c])[..|calls|] == calls;
  }

  lemma {:induction false} FollowAppend(p: Phase, a: seq<Call>, b: seq<Call>)
    ensures Follow(p, a + b) == Follow(Follow(p, a), b)
    decreases b
  {
    if b == [] {
      assert a + b == a;
    } else {
      FollowAppend(p, a, b[..|b| - 1]);
      assert (a + b)[..|a + b| - 1] == a + b[..|b| - 1];
    }
  }

  lemma {:induction false} CreatesAppend(a: seq<Call>, b: seq<Call>)
    ensures Creates(a + b) == Creates(a) + Creates(b)
    decreases b
  {
    if b == [] {
      assert a + b == a;
    } else {
      CreatesAppend(a, b[..|b| - 1]);
      assert (a + b)[..|a + b| - 1] == a + b[..|b| - 1];
    }
  }

  lemma {:induction false} FoundKeepsWaiting(calls: seq<Call>)
    requires forall i | 0 <= i < |calls| :: calls[i] == Got(Found)
    ensures Follow(Waiting, calls) == Waiting && Creates(calls) == 0
  {
    if calls != [] { FoundKeepsWaiting(calls[..|calls| - 1]); }
  }

  lemma FollowWait(p: Phase, calls: seq<Call>, waited: seq<Call>, gone: bool, polls: nat)
    requires Follow(p, calls) == Waiting && Waited(waited, gone, polls)
    ensures var end := Follow(p, calls + waited);
      && (gone ==> end == Free) && (!gone ==> end.Waiting? || end.Failed?)
      && Creates(calls + waited) == Creates(calls)
  {
    FollowAppend(p, calls, waited);
    CreatesAppend(calls, waited);
    FoundKeepsWaiting(waited[..|waited| - 1]);
  }

  lemma FollowFreed(p: Phase, calls: seq<Call>, more: seq<Call>, gone: bool, polls: nat)
    requires Follow(p, calls).Begin? || Follow(p, calls).Refused?
    requires NameFreed(more, gone, polls)
    ensures var end, last := Follow(p, calls + more), more[|more| - 1];
      && (gone ==> end == Free && last == Got(NotFound)) && (!gone ==> end.Waiting? || end.Failed?)
      && Creates(calls + more) == Creates(calls)
      && (calls + more)[|calls + more| - 1] == last
      && (!gone ==> last == Got(GetFailed) || (last == Got(Found) && FoundAtEnd(calls + more) == polls + 1))
  {
    FollowOne(p, calls, more[0]);
    FollowWait(p, calls + [more[0]], more[1..], gone, polls);
    assert calls + more == calls + [more[0]] + more[1..];
    if more[|more| - 1] == Got(Found) { AllFound(calls + [more[0]], more[1..]); }
  }

  // ----- what following the protocol guarantees -----

  lemma {:induction false} FollowPrefix(calls: seq<Call>, i: nat)
    requires i <= |calls| && !Follow(Begin, calls).Broken?
    ensures !Follow(Begin, calls[..i]).Broken?
    decreases |calls| - i
  {
    if i == |calls| {
      assert calls[..i] == calls;
    } else {
      FollowPrefix(calls, i + 1);
      assert calls[..i + 1][..i] == calls[..i];
    }
  }

  /** Every Create comes directly after a Get that found nothing, itself later than every Delete so far. */
  lemma CreateAfterNotFound(calls: seq<Call>, i: nat)
    requires i < |calls| && calls[i].Made? && !Follow(Begin, calls).Broken?
    ensures i > 0 && calls[i - 1] == Got(NotFound)
  {
    FollowPrefix(calls, i + 1);
    assert calls[..i + 1][..i] == calls[..i];
    if i > 0 { assert calls[..i][..i - 1] == calls[..i - 1]; }
  }

  /** Deletes exceed Creates by one from the first wait on, whatever the cluster does. */
  lemma {:induction false} DeleteCount(calls: seq<Call>)
    requires !Follow(Begin, calls).Broken?
    ensures Deletes(calls) ==
      match Follow(Begin, calls)
      case Begin => 0
      case Refused => Creates(calls)
      case Owned(_) => Creates(calls)
      case Failed => if calls[|calls| - 1].Made? then Creates(calls) else Creates(calls) + 1
      case _ => Creates(calls) + 1
    ensures Follow(Begin, calls).Begin? ==> calls == []
    ensures Follow(Begin, calls).Begin? ==> Creates(calls) == 0
  {
    if calls != [] {
      FollowPrefix(calls, |calls| - 1);
      DeleteCount(calls[..|calls| - 1]);
    }
  }

  /** Nothing is called after the Create that succeeded. */
  lemma {:induction false} OwnedIsLast(calls: seq<Call>, i: nat)
    requires i < |calls| && calls[i].Made? && calls[i].made.Created? && !Follow(Begin, calls).Broken?
    ensures i == |calls| - 1 && Follow(Begin, calls) == Owned(calls[i].made.uid)
    decreases |calls|
  {
    FollowPrefix(calls, |calls| - 1);
    if i < |calls| - 1 {
      OwnedIsLast(calls[..|calls| - 1], i);
    } else {
      assert Follow(Begin, calls) == Next(Follow(Begin, calls[..i]), calls[i]);
    }
  }

  /**
   * The whole guarantee on the calls of one EnsurePodRecreated: Creates follow a NotFound,
   * the pod returned comes from the only Create that succeeded, an error means that none
   * did, and Deletes exceed Creates by at most one.
   */
  lemma RecreationSafe(calls: seq<Call>, r: Result)
    requires Settles(r, Follow(Begin, calls))
    ensures forall i | 0 <= i < |calls| && calls[i].Made? :: i > 0 && calls[i - 1] == Got(NotFound)
    ensures forall i | 0 <= i < |calls| :: (calls[i].Made? && calls[i].made.Created?) <==> (r.Pod? && i == |calls| - 1)
    ensures r.Pod? ==> calls != [] && calls[|calls| - 1] == Made(Created(r.uid))
    ensures 1 <= Deletes(calls) <= Creates(calls) + 1
  {
    forall i | 0 <= i < |calls| && calls[i].Made? ensures i > 0 && calls[i - 1] == Got(NotFound) {
      CreateAfterNotFound(calls, i);
    }
    forall i | 0 <= i < |calls| && calls[i].Made? && calls[i].made.Created? ensures r.Pod? && i == |calls| - 1 {
      OwnedIsLast(calls, i);
    }
    DeleteCount(calls);
    if r.Pod? {
      assert Follow(Begin, calls) == Next(Follow(Begin, calls[..|calls| - 1]), calls[|calls| - 1]);
    }
    FollowPrefix(calls, 0);
    FirstIsDelete(calls);
  }

  lemma {:induction false} FirstIsDelete(calls: seq<Call>)
    requires !Follow(Begin, calls).Broken? && calls != []
    ensures calls[0].Removed? && Deletes(calls) >= 1
  {
    if |calls| > 1 {
      FollowPrefix(calls, |calls| - 1);
      FirstIsDelete(calls[..|calls| - 1]);
    } else {
      assert calls[..0] == [];
    }
  }
}
