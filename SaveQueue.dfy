/**
 * The save serialiser of transit-management-system/server.js (`saveVehicles`):
 * the `isSaving` flag, the `saveQueue` list and the follow-up saves it
 * schedules with `setTimeout`, as a state machine over values.
 *
 * `saveQueue` only ever holds `true`, so its length is all of its state.
 * The queue does not coalesce: every queued request is shifted off by its
 * own completed write and gets a follow-up run of its own.
 */
module SaveQueue {

  /**
   * `saving` is `isSaving`, `queued` is `saveQueue.length`, `timers` counts
   * the follow-up `saveVehicles` calls scheduled and not yet run.
   */
  datatype Saver = Saver(saving: bool, queued: nat, timers: nat)

  const Idle: Saver := Saver(false, 0, 0)

  /**
   * The states the machine can reach from `Idle`: a queued request is never
   * left behind without a scheduled follow-up to serve it.
   */
  ghost predicate Valid(s: Saver) {
    !s.saving && s.queued > 0 ==> s.timers > 0
  }

  /**
   * A call of `saveVehicles()` up to its first `await`. The new state, and
   * whether a write of the current snapshot started.
   */
  function Request(s: Saver): (r: (Saver, bool))
    ensures r.0.saving
    ensures r.1 <==> !s.saving
    ensures s.saving ==> r.0.queued == s.queued + 1
    ensures !s.saving ==> r.0.queued == s.queued
    ensures r.0.timers == s.timers
  {
    if s.saving then (s.(queued := s.queued + 1), false)
    else (s.(saving := true), true)
  }

  /**
   * The `finally` block that ends every write, whether it succeeded or
   * failed: `isSaving` is cleared and, if the queue is not empty, one entry
   * is shifted off and one follow-up save is scheduled.
   */
  function Complete(s: Saver): (r: Saver)
    requires s.saving
    ensures !r.saving
    ensures s.queued > 0 ==> r.queued == s.queued - 1 && r.timers == s.timers + 1
    ensures s.queued == 0 ==> r.queued == 0 && r.timers == s.timers
  {
    if s.queued > 0 then Saver(false, s.queued - 1, s.timers + 1)
    else s.(saving := false)
  }

  /**
   * A scheduled follow-up runs: it calls `saveVehicles()` again. One timer
   * is used up; the call starts a write exactly when none is in flight, and
   * queues itself otherwise. It never increases the work left to drain.
   */
  function Fire(s: Saver): (r: (Saver, bool))
    requires s.timers > 0
    ensures r.0.saving && r.0.timers == s.timers - 1
    ensures r.1 <==> !s.saving
    ensures r.0.queued == s.queued + (if s.saving then 1 else 0)
    ensures Valid(s) ==> Valid(r.0)
    ensures !s.saving ==> Pending(r.0) < Pending(s)
    ensures s.saving ==> Pending(r.0) == Pending(s)
  {
    Request(s.(timers := s.timers - 1))
  }

  /** The three steps keep the machine in its reachable states. */
  lemma StepsPreserveValid(s: Saver)
    requires Valid(s)
    ensures Valid(Request(s).0)
    ensures s.saving ==> Valid(Complete(s))
    ensures s.timers > 0 ==> Valid(Fire(s).0)
  {
  }

  /** Measure that every step of a drain decreases. */
  function Pending(s: Saver): nat {
    3 * (s.queued + s.timers) + (if s.saving then 1 else 0)
  }

  /**
   * The run of the machine when nothing else asks for a save: in-flight
   * writes complete and scheduled follow-ups fire until nothing is left.
   * The final state and the number of writes started on the way.
   */
  function Drain(s: Saver): (Saver, nat)
    decreases Pending(s)
  {
    if s.saving then Drain(Complete(s))
    else if s.timers > 0 then
      var (next, started) := Fire(s);
      var (last, writes) := Drain(next);
      (last, writes + (if started then 1 else 0))
    else (s, 0)
  }

  /**
   * Every queued request and every scheduled follow-up produces exactly one
   * further write, and the machine comes to rest idle with an empty queue.
   */
  lemma {:induction false} DrainWritesEachPending(s: Saver)
    requires Valid(s)
    ensures Drain(s) == (Idle, s.queued + s.timers)
    decreases Pending(s)
  {
    if s.saving {
      DrainWritesEachPending(Complete(s));
    } else if s.timers > 0 {
      DrainWritesEachPending(Fire(s).0);
    }
  }

  /** `k` calls of `saveVehicles()` in a row. */
  function RequestTimes(s: Saver, k: nat): (r: Saver)
    decreases k
  {
    if k == 0 then s else RequestTimes(Request(s).0, k - 1)
  }

  /** While a write is in flight, `k` requests only grow the queue by `k`. */
  lemma {:induction false} RequestsWhileSavingQueue(s: Saver, k: nat)
    requires s.saving
    ensures RequestTimes(s, k) == s.(queued := s.queued + k)
    decreases k
  {
    if k > 0 {
      RequestsWhileSavingQueue(Request(s).0, k - 1);
    }
  }

  /**
   * `k` requests made while one write is in flight lead to exactly `k`
   * follow-up writes, not one: the queue does not coalesce.
   */
  lemma KRequestsKFollowUps(k: nat)
    ensures Drain(RequestTimes(Saver(true, 0, 0), k)) == (Idle, k)
  {
    RequestsWhileSavingQueue(Saver(true, 0, 0), k);
    DrainWritesEachPending(Saver(true, k, 0));
  }
}
