/**
 The announce manager: any number of Enqueue callers, one Run loop, a one-slot wakeup channel
 and a ticker, interleaved at the boundaries of the mutex and of the channel operations.
 */
module Announce {
  import opened Prelude
  import opened Durations

  /** Advertisements last `ttl`; a job is announced again once `interval` has passed. */
  datatype Config = Config(interval: Duration, ttl: Duration) {
    predicate Valid() {
      interval > 0
    }
  }

  /** How far the Run loop is with the job at the head of its batch; `Sent` whether or not the put succeeded. */
  datatype Stage = Fetching | Stamped(exp: Time) | Sent

  /** What the Run loop is doing: waiting in select, woken but not yet past the snapshot, or announcing a batch. */
  datatype Phase =
    | Idle
    | Woken(since: Time)
    | Announcing(since: Time, batch: seq<JobId>, stage: Stage)

  /**
   `senders` holds the Enqueue callers that have marked their job and not yet reached their
   send; `tick` is the ticker's one-slot channel; `ads` maps a job to the expiry of the
   advertisement that readers find.
   */
  datatype State = State(
    now: Time,
    dirty: set<JobId>,
    last: map<JobId, Time>,
    trigger: bool,
    tick: bool,
    nextTick: Time,
    senders: multiset<JobId>,
    phase: Phase,
    ads: map<JobId, Time>)

  datatype Label =
    | Advance(to: Time)
    | Mark(id: JobId)
    | Signal(id: JobId)
    | Fire
    | TakeTick
    | TakeTrigger
    | Snapshot(ids: seq<JobId>)
    | Stamp
    | Publish
    | FailPublish
    | Record
    | Withdraw(id: JobId)

  /** The jobs a snapshot selects: never announced, or announced at least `interval` ago. */
  predicate IsDue(last: map<JobId, Time>, interval: Duration, now: Time, id: JobId) {
    id !in last || now - last[id] >= interval
  }

  function Due(dirty: set<JobId>, last: map<JobId, Time>, interval: Duration, now: Time): set<JobId> {
    set id | id in dirty && IsDue(last, interval, now, id)
  }

  function Init(c: Config, start: Time): State {
    State(start, {}, map[], false, false, start + c.interval, multiset{}, Idle, map[])
  }

  ghost predicate Enabled(c: Config, s: State, l: Label) {
    match l
    case Advance(to) => s.now <= to
    case Mark(_) => true
    case Signal(id) => id in s.senders
    case Fire => s.nextTick <= s.now
    case TakeTick => s.phase.Idle? && s.tick
    case TakeTrigger => s.phase.Idle? && s.trigger
    case Snapshot(ids) =>
      s.phase.Woken? && Distinct(ids) && (set id | id in ids) == Due(s.dirty, s.last, c.interval, s.now)
    case Stamp => s.phase.Announcing? && s.phase.batch != [] && s.phase.stage.Fetching?
    case Publish => s.phase.Announcing? && s.phase.batch != [] && s.phase.stage.Stamped?
    case FailPublish => s.phase.Announcing? && s.phase.batch != [] && s.phase.stage.Stamped?
    case Record => s.phase.Announcing? && s.phase.batch != [] && s.phase.stage.Sent?
    case Withdraw(_) => true
  }

  function Batch(since: Time, ids: seq<JobId>): Phase {
    if ids == [] then Idle else Announcing(since, ids, Fetching)
  }

  ghost function Apply(c: Config, s: State, l: Label): State
    requires Enabled(c, s, l)
  {
    match l
    case Advance(to) => s.(now := to)
    case Mark(id) => s.(dirty := s.dirty + {id}, senders := s.senders + multiset{id})
    // a send to a full channel falls through to the default case
    case Signal(id) => s.(trigger := true, senders := s.senders - multiset{id})
    // the ticker drops a tick when the previous one has not been received
    case Fire => s.(tick := true, nextTick := s.nextTick + c.interval)
    case TakeTick => s.(tick := false, phase := Woken(s.now))
    case TakeTrigger => s.(trigger := false, phase := Woken(s.now))
    case Snapshot(ids) => s.(phase := Batch(s.phase.since, ids))
    case Stamp => s.(phase := s.phase.(stage := Stamped(s.now + c.ttl)))
    case Publish =>
      s.(ads := s.ads[s.phase.batch[0] := s.phase.stage.exp], phase := s.phase.(stage := Sent))
    // a failed put is logged and otherwise treated as a successful one
    case FailPublish => s.(phase := s.phase.(stage := Sent))
    case Record =>
      s.(last := s.last[s.phase.batch[0] := s.now], phase := Batch(s.phase.since, s.phase.batch[1..]))
    case Withdraw(id) => s.(ads := s.ads - {id})
  }

  ghost predicate StepsTo(c: Config, s: State, l: Label, s': State) {
    Enabled(c, s, l) && s' == Apply(c, s, l)
  }

  /** A run: every label is enabled where it is taken and leads to the next state. */
  ghost predicate IsRun(c: Config, ss: seq<State>, ls: seq<Label>) {
    && |ss| == |ls| + 1
    && ss[0] == Init(c, ss[0].now)
    && (forall i {:trigger ls[i]} :: 0 <= i < |ls| ==> StepsTo(c, ss[i], ls[i], ss[i + 1]))
  }

  // ---------- no lost wakeup ----------

  /** Something will still bring the Run loop to announce this job. */
  predicate Covered(s: State, id: JobId) {
    || s.trigger
    || s.phase.Woken?
    || (s.phase.Announcing? && id in s.phase.batch)
    || id in s.senders
  }

  ghost predicate WakeupInv(s: State) {
    && (forall id :: id in s.dirty && id !in s.last ==> Covered(s, id))
    && (s.phase.Announcing? ==> Distinct(s.phase.batch))
  }

  lemma WakeupStep(c: Config, s: State, l: Label, s': State)
    requires WakeupInv(s) && StepsTo(c, s, l, s')
    ensures WakeupInv(s')
  {
    if l.Record? {
      var batch := s.phase.batch;
      forall id | id in batch && id != batch[0]
        ensures id in batch[1..]
      {
      }
    }
    forall id | id in s'.dirty && id !in s'.last
      ensures Covered(s', id)
    {
      if l.Snapshot? {
        assert id in Due(s.dirty, s.last, c.interval, s.now);
        assert id in l.ids;
      }
    }
  }

  /**
   No lost wakeup: at every point of every interleaving, a job that was enqueued and never
   announced is covered by a buffered trigger, a wakeup not yet past its snapshot, the batch in
   progress, or an Enqueue caller that has yet to send. No batch holds a job twice.
   */
  lemma {:induction false} NoLostWakeup(c: Config, ss: seq<State>, ls: seq<Label>, i: nat)
    requires IsRun(c, ss, ls) && i < |ss|
    ensures forall id :: id in ss[i].dirty && id !in ss[i].last ==> Covered(ss[i], id)
    ensures ss[i].phase.Announcing? ==> Distinct(ss[i].phase.batch)
  {
    if i > 0 {
      NoLostWakeup(c, ss, ls, i - 1);
      WakeupStep(c, ss[i - 1], ls[i - 1], ss[i]);
    }
  }

  // ---------- announce spacing ----------

  lemma {:induction false} ClockMonotone(c: Config, ss: seq<State>, ls: seq<Label>, i: nat, j: nat)
    requires IsRun(c, ss, ls) && i <= j < |ss|
    ensures ss[i].now <= ss[j].now
  {
    if i < j {
      ClockMonotone(c, ss, ls, i, j - 1);
      assert StepsTo(c, ss[j - 1], ls[j - 1], ss[j]);
    }
  }

  /** No step forgets or backdates an announcement. */
  lemma LastKept(c: Config, s: State, l: Label, s': State, id: JobId, at: Time)
    requires StepsTo(c, s, l, s')
    requires id in s.last && at <= s.last[id] && at <= s.now
    ensures id in s'.last && at <= s'.last[id]
  {
  }

  lemma {:induction false} RecordRemembered(c: Config, ss: seq<State>, ls: seq<Label>, i: nat, j: nat, id: JobId)
    requires IsRun(c, ss, ls) && i < j < |ss|
    requires ls[i].Record? && Enabled(c, ss[i], ls[i]) && ss[i].phase.batch[0] == id
    ensures id in ss[j].last && ss[i].now <= ss[j].last[id]
  {
    assert StepsTo(c, ss[j - 1], ls[j - 1], ss[j]);
    if i + 1 < j {
      RecordRemembered(c, ss, ls, i, j - 1, id);
      ClockMonotone(c, ss, ls, i, j - 1);
      LastKept(c, ss[j - 1], ls[j - 1], ss[j], id, ss[i].now);
    }
  }

  /**
   Announce spacing: however often and concurrently a job is enqueued, a snapshot that selects
   it again is taken at least `interval` after any earlier announcement of it finished.
   */
  lemma AnnounceSpacing(c: Config, ss: seq<State>, ls: seq<Label>, i: nat, j: nat)
    requires IsRun(c, ss, ls) && i < j < |ls|
    requires ls[i].Record? && ls[j].Snapshot?
    requires Enabled(c, ss[i], ls[i])
    requires ss[i].phase.batch[0] in ls[j].ids
    ensures ss[j].now - ss[i].now >= c.interval
  {
    var id := ss[i].phase.batch[0];
    RecordRemembered(c, ss, ls, i, j, id);
    assert StepsTo(c, ss[j], ls[j], ss[j + 1]);
    assert id in set x | x in ls[j].ids;
    assert id in Due(ss[j].dirty, ss[j].last, c.interval, ss[j].now);
  }

  // ---------- rounds and advertisements are bounded ----------

  ghost function Count(ls: seq<Label>, n: nat, l: Label): nat
    requires n <= |ls|
  {
    if n == 0 then 0 else Count(ls, n - 1, l) + if ls[n - 1] == l then 1 else 0
  }

  ghost function Signals(ls: seq<Label>, n: nat): nat
    requires n <= |ls|
  {
    if n == 0 then 0 else Signals(ls, n - 1) + if ls[n - 1].Signal? then 1 else 0
  }

  /** Every round is paid for: the loop wakes no more often than callers signal and the ticker fires. */
  lemma {:induction false} RoundsAreCaused(c: Config, ss: seq<State>, ls: seq<Label>, n: nat)
    requires IsRun(c, ss, ls) && n <= |ls|
    ensures Count(ls, n, TakeTrigger) + (if ss[n].trigger then 1 else 0) <= Signals(ls, n)
    ensures Count(ls, n, TakeTick) + (if ss[n].tick then 1 else 0) <= Count(ls, n, Fire)
  {
    if n > 0 {
      RoundsAreCaused(c, ss, ls, n - 1);
      assert StepsTo(c, ss[n - 1], ls[n - 1], ss[n]);
    }
  }

  /** When the next tick is due after the ticker has fired so many times. */
  function NextDue(start: Time, interval: Duration, fired: nat): Time {
    if fired == 0 then start + interval else NextDue(start, interval, fired - 1) + interval
  }

  lemma {:induction false} DueEveryInterval(start: Time, interval: Duration, fired: nat)
    ensures NextDue(start, interval, fired) == start + (fired + 1) * interval
  {
    if fired > 0 {
      DueEveryInterval(start, interval, fired - 1);
      assert (fired + 1) * interval == fired * interval + interval;
    }
  }

  lemma TickStep(c: Config, s: State, l: Label, s': State)
    requires StepsTo(c, s, l, s')
    ensures s'.nextTick == s.nextTick + if l.Fire? then c.interval else 0
  {
  }

  lemma {:induction false} TicksFired(c: Config, ss: seq<State>, ls: seq<Label>, n: nat)
    requires IsRun(c, ss, ls) && n <= |ls|
    ensures ss[n].nextTick == NextDue(ss[0].now, c.interval, Count(ls, n, Fire))
    decreases n
  {
    if n > 0 {
      TicksFired(c, ss, ls, n - 1);
      assert StepsTo(c, ss[n - 1], ls[n - 1], ss[n]);
      TickStep(c, ss[n - 1], ls[n - 1], ss[n]);
    }
  }

  /** The ticker keeps to its schedule, the first tick one interval after the start. */
  lemma TicksOnSchedule(c: Config, ss: seq<State>, ls: seq<Label>, n: nat)
    requires IsRun(c, ss, ls) && n <= |ls|
    ensures ss[n].nextTick == ss[0].now + (Count(ls, n, Fire) + 1) * c.interval
  {
    TicksFired(c, ss, ls, n);
    DueEveryInterval(ss[0].now, c.interval, Count(ls, n, Fire));
  }

  ghost predicate Bounded(c: Config, s: State) {
    && (s.phase.Announcing? && s.phase.stage.Stamped? ==> s.phase.stage.exp <= s.now + c.ttl)
    && (forall id :: id in s.ads ==> s.ads[id] <= s.now + c.ttl)
  }

  /** No advertisement promises more than `ttl`, so one that is not renewed is gone from readers' view within `ttl`. */
  lemma {:induction false} AdsAreBounded(c: Config, ss: seq<State>, ls: seq<Label>, i: nat)
    requires IsRun(c, ss, ls) && i < |ss|
    ensures Bounded(c, ss[i])
  {
    if i > 0 {
      AdsAreBounded(c, ss, ls, i - 1);
      assert StepsTo(c, ss[i - 1], ls[i - 1], ss[i]);
    }
  }

  // ---------- the manager object ----------

  /** What a call of Enqueue does when nothing comes between its critical section and its send. */
  ghost function Enqueued(c: Config, s: State, id: JobId): State {
    Apply(c, Apply(c, s, Mark(id)), Signal(id))
  }

  /**
   The mutex-guarded fields and the wakeup channel. Each method is one critical section or send, or
   a few in a row, and is tied to the steps of the state machine that it performs.
   */
  class AnnounceManager {
    const interval: Duration
    var dirty: set<JobId>
    var last: map<JobId, Time>
    var trigger: bool

    /** The object is the manager's part of a state of the machine. */
    ghost predicate Shows(c: Config, s: State)
      reads this
    {
      c.interval == interval && s.dirty == dirty && s.last == last && s.trigger == trigger
    }

    constructor (interval: Duration)
      ensures dirty == {} && last == map[] && !trigger && this.interval == interval
    {
      this.interval := interval;
      dirty, last, trigger := {}, map[], false;
    }

    /** Mark the job, then wake the Run loop unless a wakeup is already buffered. */
    method Enqueue(id: JobId)
      modifies `dirty, `trigger
      ensures dirty == old(dirty) + {id} && trigger
      ensures forall c, s :: old(Shows(c, s)) ==> Shows(c, Enqueued(c, s, id))
    {
      dirty := dirty + {id};
      if !trigger {
        trigger := true;
      }
    }

    /** The snapshot: a pass over the dirty jobs in no particular order. */
    method Select(now: Time) returns (ids: seq<JobId>)
      ensures Distinct(ids)
      ensures (set id | id in ids) == Due(dirty, last, interval, now)
      ensures forall c, s :: Shows(c, s) && s.phase.Woken? && s.now == now ==> Enabled(c, s, Snapshot(ids))
    {
      ids := [];
      var todo := dirty;
      while todo != {}
        invariant todo <= dirty && Distinct(ids)
        invariant forall id :: id in ids <==> id in dirty - todo && IsDue(last, interval, now, id)
      {
        var id :| id in todo;
        assert id !in ids;
        todo := todo - {id};
        if id !in last || now - last[id] >= interval {
          ids := ids + [id];
        }
      }
    }

    /** The last critical section of announceOnce: the job is not due again until `interval` has passed. */
    method RecordAnnounced(id: JobId, now: Time)
      modifies `last
      ensures last == old(last)[id := now]
      ensures forall later :: IsDue(last, interval, later, id) <==> now + interval <= later
      ensures forall c, s ::
                old(Shows(c, s)) && Enabled(c, s, Record) && s.now == now && s.phase.batch[0] == id ==>
                  Shows(c, Apply(c, s, Record))
    {
      last := last[id := now];
    }
  }
}
