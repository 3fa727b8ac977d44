/**
 * The per-block timed cache of src/statusblock/cache.rs.
 *
 * A cache holds a value, the instant it was last refreshed and an optional
 * refresh interval. It refreshes either inline, by calling its function, or,
 * once a thread pool is attached, by sending a job to the pool and polling
 * a private result channel for the answer, meanwhile `waiting`.
 *
 * The outside world seen by one call is a `Tick`: the clock reading, whether
 * a job send succeeds, and what a non-blocking receive on the result channel
 * gives. The class's methods are specified by the functions `UpdatedNow` and
 * `Updated` on `Snapshot`s, and the lemmas below state the refresh policy on
 * those functions.
 */
module Cache {
  import opened Wrappers
  import Clock

  /**
   * Everything in a cache but its function. `pooled` stands for the three
   * channel handles (jobs sender, results sender, results receiver), which
   * are always held or dropped together.
   */
  datatype Snapshot<T> = Snapshot(
    value: T,
    lastUpdate: Option<nat>,
    updateInterval: Option<nat>,
    pooled: bool,
    waiting: bool)

  /**
   * What one call of `update` or `update_now` observes: the clock, whether
   * `send` on the jobs channel succeeds, and the result of `try_recv` on the
   * result channel.
   */
  datatype Tick<T> = Tick(now: nat, sent: bool, reply: Option<T>)

  /** The state every constructor starts from: never refreshed, no pool, not waiting. */
  function Initial<T>(value: T, updateInterval: Option<nat>): (s: Snapshot<T>)
    ensures s.lastUpdate.None? && !s.pooled && !s.waiting
    ensures s.value == value && s.updateInterval == updateInterval
  {
    Snapshot(value, None, updateInterval, false, false)
  }

  /**
   * The staleness test of `update`: a cache never refreshed is due; one
   * refreshed at `last` is due only when it has an interval and strictly
   * more than that interval has passed.
   */
  predicate Due<T>(s: Snapshot<T>, now: nat)
    ensures Due(s, now) <==>
      s.lastUpdate.None? ||
      (s.updateInterval.Some? && now > s.lastUpdate.value + s.updateInterval.value)
  {
    match s.lastUpdate
    case None => true
    case Some(last) =>
      s.updateInterval.Some? && Clock.Elapsed(now, last) > s.updateInterval.value
  }

  /**
   * `next_update`: when the cache will next want refreshing. Never while
   * waiting for a pooled result, and never again once refreshed without an
   * interval; `now` if it was never refreshed.
   */
  function Deadline<T>(s: Snapshot<T>, now: nat): (r: Option<nat>)
    ensures r.None? <==> s.waiting || (s.lastUpdate.Some? && s.updateInterval.None?)
    ensures !s.waiting && s.lastUpdate.None? ==> r == Some(now)
    ensures !s.waiting && s.lastUpdate.Some? && s.updateInterval.Some? ==>
      r == Some(s.lastUpdate.value + s.updateInterval.value)
  {
    if !s.waiting then
      match (s.updateInterval, s.lastUpdate)
      case (Some(interval), Some(last)) => Some(last + interval)
      case (None, Some(_)) => None
      case (_, None) => Some(now)
    else
      None
  }

  /**
   * `update_now`, where `output` is what the cache's function returns if it
   * is called. Without a pool the value is replaced at once; with a pool a
   * job is sent and the value is left alone: a successful send sets
   * `waiting`, a failed one drops the pool without evaluating.
   */
  function UpdatedNow<T>(s: Snapshot<T>, output: T, tick: Tick<T>): (r: Snapshot<T>)
    ensures r.updateInterval == s.updateInterval
    ensures !s.pooled ==> r == s.(value := output, lastUpdate := Some(tick.now))
    ensures s.pooled ==> r.value == s.value && r.lastUpdate == s.lastUpdate
    ensures r.pooled <==> s.pooled && tick.sent
    ensures r.waiting <==> s.waiting || (s.pooled && tick.sent)
  {
    if !s.pooled then
      s.(value := output, lastUpdate := Some(tick.now))
    else if !tick.sent then
      s.(pooled := false)
    else
      s.(waiting := true)
  }

  /**
   * `update`. A pooled cache that is waiting only polls for its result;
   * otherwise the cache calls `update_now` when it is due.
   */
  function Updated<T>(s: Snapshot<T>, output: T, tick: Tick<T>): (r: Snapshot<T>)
    ensures r.updateInterval == s.updateInterval
    ensures r.pooled ==> s.pooled
  {
    if s.pooled && s.waiting then
      match tick.reply
      case Some(v) => s.(value := v, lastUpdate := Some(tick.now), waiting := false)
      case None => s
    else if Due(s, tick.now) then
      UpdatedNow(s, output, tick)
    else
      s
  }

  /** A sequence of `update` calls (repeated `get`s), one output and tick per call. */
  function Run<T>(s: Snapshot<T>, outputs: seq<T>, ticks: seq<Tick<T>>): (r: Snapshot<T>)
    requires |outputs| == |ticks|
    ensures ticks == [] ==> r == s
    ensures r.updateInterval == s.updateInterval
    ensures r.pooled ==> s.pooled
    decreases |ticks|
  {
    if ticks == [] then s
    else Run(Updated(s, outputs[0], ticks[0]), outputs[1..], ticks[1..])
  }

  /**
   * A failed `send` from `update_now` while a job is still outstanding drops
   * the channels but leaves `waiting` set, so `next_update` has no instant.
   */
  lemma FailedSendWhileWaitingSticks<T>(s: Snapshot<T>, output: T, tick: Tick<T>, now: nat)
    requires s.pooled && s.waiting && !tick.sent
    ensures UpdatedNow(s, output, tick).waiting
    ensures !UpdatedNow(s, output, tick).pooled
    ensures Deadline(UpdatedNow(s, output, tick), now).None?
  {
  }

  /**
   * Without the result channel nothing clears `waiting` again: every later
   * `update` refreshes inline when due, yet `next_update` stays `None`.
   */
  lemma {:induction false} StuckWaiting<T>(s: Snapshot<T>, outputs: seq<T>, ticks: seq<Tick<T>>, now: nat)
    requires |outputs| == |ticks|
    requires s.waiting && !s.pooled
    ensures Run(s, outputs, ticks).waiting && !Run(s, outputs, ticks).pooled
    ensures Deadline(Run(s, outputs, ticks), now).None?
    decreases |ticks|
  {
    if ticks != [] {
      StuckWaiting(Updated(s, outputs[0], ticks[0]), outputs[1..], ticks[1..], now);
    }
  }

  /** Stuck in that state, a due `update` still evaluates the function inline. */
  lemma StuckStillRefreshes<T>(s: Snapshot<T>, output: T, tick: Tick<T>)
    requires s.waiting && !s.pooled && Due(s, tick.now)
    ensures Updated(s, output, tick) == s.(value := output, lastUpdate := Some(tick.now))
  {
  }

  /** A new cache is due at once, and its first `update` evaluates inline. */
  lemma FirstUpdateEvaluates<T>(value: T, interval: Option<nat>, output: T, tick: Tick<T>)
    ensures Deadline(Initial(value, interval), tick.now) == Some(tick.now)
    ensures Updated(Initial(value, interval), output, tick) ==
      Snapshot(output, Some(tick.now), interval, false, false)
  {
  }

  /**
   * The deadline is the last instant at which the cache is not yet due: a
   * cache that is not waiting is due at `t` exactly when `t` lies strictly
   * after its deadline (or it was never refreshed), and never when it has no
   * deadline.
   */
  lemma DeadlineBoundsStaleness<T>(s: Snapshot<T>, now: nat, t: nat)
    requires !s.waiting
    ensures s.lastUpdate.None? ==> Due(s, t)
    ensures Deadline(s, now).None? ==> !Due(s, t)
    ensures s.lastUpdate.Some? && Deadline(s, now).Some? ==>
      (Due(s, t) <==> t > Deadline(s, now).value)
  {
  }

  /**
   * Staleness is strict: a cache refreshed at `last` with interval `d`, and
   * not waiting on the pool, is left alone by `update` up to and including
   * `last + d`, and handed to `update_now` after it. Without an interval it
   * is always left alone.
   */
  lemma StrictStaleness<T>(s: Snapshot<T>, output: T, tick: Tick<T>)
    requires !(s.pooled && s.waiting) && s.lastUpdate.Some?
    ensures s.updateInterval.None? ==> Updated(s, output, tick) == s
    ensures s.updateInterval.Some? && tick.now <= s.lastUpdate.value + s.updateInterval.value ==>
      Updated(s, output, tick) == s
    ensures s.updateInterval.Some? && tick.now > s.lastUpdate.value + s.updateInterval.value ==>
      Updated(s, output, tick) == UpdatedNow(s, output, tick)
  {
  }

  /**
   * Once refreshed, a cache without an interval keeps its state through any
   * number of `update` calls, so repeated `get`s return the same value.
   */
  lemma {:induction false} StableWithoutInterval<T>(s: Snapshot<T>, outputs: seq<T>, ticks: seq<Tick<T>>)
    requires |outputs| == |ticks|
    requires s.lastUpdate.Some? && s.updateInterval.None? && !(s.pooled && s.waiting)
    ensures Run(s, outputs, ticks) == s
    decreases |ticks|
  {
    if ticks != [] {
      StrictStaleness(s, outputs[0], ticks[0]);
      StableWithoutInterval(s, outputs[1..], ticks[1..]);
    }
  }

  /**
   * While a pooled cache waits, `update` never dispatches: what it does does
   * not depend on the function's output or on the send outcome, it changes
   * nothing when no result is there, and a result that is there becomes the
   * value, stamped `now`, and ends the wait.
   */
  lemma PollingNeverDispatches<T>(s: Snapshot<T>, o1: T, o2: T, t1: Tick<T>, t2: Tick<T>)
    requires s.pooled && s.waiting
    requires t1.now == t2.now && t1.reply == t2.reply
    ensures Updated(s, o1, t1) == Updated(s, o2, t2)
    ensures t1.reply.None? ==> Updated(s, o1, t1) == s
    ensures t1.reply.Some? ==>
      Updated(s, o1, t1) == s.(value := t1.reply.value, lastUpdate := Some(t1.now), waiting := false)
  {
  }

  /**
   * A failed send drops the pool and leaves the value alone; the next
   * `update_now` then evaluates inline.
   */
  lemma FailedSendFallsBackToInline<T>(s: Snapshot<T>, o1: T, t1: Tick<T>, o2: T, t2: Tick<T>)
    requires s.pooled && !t1.sent
    ensures var r := UpdatedNow(s, o1, t1);
      !r.pooled && r.value == s.value && r.lastUpdate == s.lastUpdate && r.waiting == s.waiting
    ensures var r := UpdatedNow(UpdatedNow(s, o1, t1), o2, t2);
      r.value == o2 && r.lastUpdate == Some(t2.now) && !r.pooled
  {
  }

  /** `TimedCache<T>` */
  class TimedCache<T> {
    var value: T
    /** The cache's `function`, as a function of the instant at which it is called. */
    var compute: nat -> T
    var lastUpdate: Option<nat>
    var updateInterval: Option<nat>
    /** Whether `jobs_tx`, `results_tx` and `results_rx` are held. */
    var jobsTx: bool
    var resultsTx: bool
    var resultsRx: bool
    var waiting: bool

    /** The three handles are attached and detached together. */
    ghost predicate Valid()
      reads this
    {
      jobsTx == resultsTx && resultsTx == resultsRx
    }

    ghost function State(): Snapshot<T>
      reads this
    {
      Snapshot(value, lastUpdate, updateInterval, jobsTx, waiting)
    }

    /** `new`, starting from `zero`, the value `T::default()`. */
    constructor New(updateInterval: Option<nat>, f: nat -> T, zero: T)
      ensures Valid() && State() == Initial(zero, updateInterval) && compute == f
    {
      value := zero;
      compute := f;
      lastUpdate := None;
      this.updateInterval := updateInterval;
      jobsTx, resultsTx, resultsRx := false, false, false;
      waiting := false;
    }

    /** `with_initial_value` */
    constructor WithInitialValue(initial: T, updateInterval: Option<nat>, f: nat -> T)
      ensures Valid() && State() == Initial(initial, updateInterval) && compute == f
    {
      value := initial;
      compute := f;
      lastUpdate := None;
      this.updateInterval := updateInterval;
      jobsTx, resultsTx, resultsRx := false, false, false;
      waiting := false;
    }

    /** `Default`: value and function are `T::default`, given here as `zero`. */
    constructor Default(zero: T)
      ensures Valid() && State() == Initial(zero, None)
      ensures forall t :: compute(t) == zero
    {
      value := zero;
      compute := _ => zero;
      lastUpdate := None;
      updateInterval := None;
      jobsTx, resultsTx, resultsRx := false, false, false;
      waiting := false;
    }

    /** `get`: update, then read the value. */
    method Get(tick: Tick<T>) returns (v: T)
      requires Valid()
      modifies this
      ensures Valid() && compute == old(compute)
      ensures State() == Updated(old(State()), old(compute)(tick.now), tick)
      ensures v == value
    {
      Update(tick);
      v := value;
    }

    /** `update` */
    method Update(tick: Tick<T>)
      requires Valid()
      modifies this
      ensures Valid() && compute == old(compute)
      ensures State() == Updated(old(State()), old(compute)(tick.now), tick)
    {
      if resultsRx && waiting {
        match tick.reply {
          case Some(result) =>
            Overwrite(result, tick.now);
            waiting := false;
          case None =>
        }
        return;
      }
      match lastUpdate {
        case Some(last) =>
          var timeInCache := Clock.Elapsed(tick.now, last);
          var timeForUpdate := updateInterval.Some? && timeInCache > updateInterval.value;
          if timeForUpdate {
            UpdateNow(tick);
          }
        case None =>
          UpdateNow(tick);
      }
    }

    /** `update_now` */
    method UpdateNow(tick: Tick<T>)
      requires Valid()
      modifies this
      ensures Valid() && compute == old(compute)
      ensures State() == UpdatedNow(old(State()), old(compute)(tick.now), tick)
    {
      if !jobsTx {
        var output := compute(tick.now);
        Overwrite(output, tick.now);
      } else if !tick.sent {
        // The pool has gone: back to single-threaded mode.
        jobsTx, resultsTx, resultsRx := false, false, false;
      } else {
        waiting := true;
      }
    }

    /** `attach_threadpool`: takes all three handles and touches nothing else. */
    method AttachThreadpool()
      modifies this
      ensures Valid() && compute == old(compute)
      ensures State() == old(State()).(pooled := true)
    {
      jobsTx, resultsTx, resultsRx := true, true, true;
    }

    /** `overwrite` */
    method Overwrite(v: T, now: nat)
      modifies this`value, this`lastUpdate
      ensures State() == old(State()).(value := v, lastUpdate := Some(now))
    {
      value := v;
      lastUpdate := Some(now);
    }
  }
}
