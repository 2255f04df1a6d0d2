/** Timing of the announce manager when its rounds are prompt. */
module AdLifetime {
  import opened Prelude
  import opened Durations
  import opened Announce

  /**
   Time may pass only up to the next tick, which then fires; not while the Run loop waits in
   select with a wakeup at hand; and a round that began at `since` ends within `round`.
   */
  predicate Prompt(s: State, round: Duration, l: Label) {
    l.Advance? ==>
      && l.to <= s.nextTick
      && (s.phase.Idle? ==> !s.tick && !s.trigger)
      && (!s.phase.Idle? ==> l.to <= s.phase.since + round)
  }

  ghost predicate PromptRun(c: Config, round: Duration, ss: seq<State>, ls: seq<Label>) {
    && IsRun(c, ss, ls)
    && (forall i {:trigger ls[i]} :: 0 <= i < |ls| ==> Prompt(ss[i], round, ls[i]))
  }

  /** The clock stays within the current tick period and within the current round. */
  ghost predicate Paced(c: Config, round: Duration, s: State) {
    && s.nextTick - c.interval <= s.now <= s.nextTick
    && (!s.phase.Idle? ==> s.phase.since <= s.now <= s.phase.since + round)
    && (s.phase.Announcing? ==>
          && s.phase.batch != [] && Distinct(s.phase.batch)
          && (forall id :: id in s.phase.batch ==> id in s.dirty)
          && (s.phase.stage.Stamped? ==> s.phase.since + c.ttl <= s.phase.stage.exp))
  }

  lemma PacedStep(c: Config, round: Duration, s: State, l: Label, s': State)
    requires c.Valid() && round >= 0
    requires Paced(c, round, s) && StepsTo(c, s, l, s') && Prompt(s, round, l)
    ensures Paced(c, round, s')
  {
    if l.Snapshot? {
      forall id | id in l.ids
        ensures id in s.dirty
      {
        assert id in set x | x in l.ids;
        assert id in Due(s.dirty, s.last, c.interval, s.now);
      }
    }
  }

  // ---------- announced jobs come round again ----------

  /** The job is in the batch and the put of its new advertisement is still to come in this round. */
  predicate Pending(s: State, id: JobId) {
    && s.phase.Announcing? && s.phase.batch != [] && id in s.phase.batch
    && !(id == s.phase.batch[0] && s.phase.stage.Sent?)
  }

  /** The put of the job's advertisement has returned and its announcement time is about to be recorded. */
  predicate Recording(s: State, id: JobId) {
    s.phase.Announcing? && s.phase.batch != [] && id == s.phase.batch[0] && s.phase.stage.Sent?
  }

  /**
   The job was last recorded at `r`. Either no tick has yet fired `interval` or more after `r`,
   or one has and the wakeup it caused is still to reach its snapshot.
   */
  predicate Awaiting(c: Config, round: Duration, s: State, r: Time) {
    || s.nextTick < r + 2 * c.interval
    || (&& r + c.interval <= s.now
        && match s.phase
           case Idle => s.tick && s.now <= r + 2 * c.interval + round
           case Woken(since) => since <= r + 2 * c.interval + round
           case Announcing(since, _, _) => s.tick && since <= r + 2 * c.interval)
  }

  /** The job is in a round that began in time, or such a round is on its way. */
  predicate Cycling(c: Config, round: Duration, s: State, id: JobId)
    requires id in s.last
  {
    && id in s.dirty
    && if Pending(s, id) || Recording(s, id) then
         s.phase.since <= s.last[id] + 2 * c.interval + round
       else
         Awaiting(c, round, s, s.last[id])
  }

  ghost predicate CycleInv(c: Config, round: Duration, s: State) {
    && Paced(c, round, s)
    && (forall id :: id in s.last ==> Cycling(c, round, s, id))
  }

  lemma CyclingSnapshot(c: Config, round: Duration, s: State, l: Label, s': State, id: JobId)
    requires c.Valid() && round >= 0
    requires Paced(c, round, s) && id in s.last && Cycling(c, round, s, id)
    requires StepsTo(c, s, l, s') && l.Snapshot?
    ensures Cycling(c, round, s', id)
  {
    assert id in Due(s.dirty, s.last, c.interval, s.now) <==> id in set x | x in l.ids;
  }

  lemma CyclingRecord(c: Config, round: Duration, s: State, s': State, id: JobId)
    requires c.Valid() && round >= 0
    requires Paced(c, round, s) && (id in s.last ==> Cycling(c, round, s, id))
    requires StepsTo(c, s, Record, s') && id in s'.last
    ensures Cycling(c, round, s', id)
  {
    var batch := s.phase.batch;
    assert id in batch <==> id == batch[0] || id in batch[1..];
  }

  lemma CyclingElse(c: Config, round: Duration, s: State, l: Label, s': State, id: JobId)
    requires c.Valid() && round >= 0
    requires Paced(c, round, s) && id in s.last && Cycling(c, round, s, id)
    requires StepsTo(c, s, l, s') && Prompt(s, round, l) && !l.Snapshot? && !l.Record?
    ensures Cycling(c, round, s', id)
  {
  }

  lemma CycleStep(c: Config, round: Duration, s: State, l: Label, s': State)
    requires c.Valid() && round >= 0
    requires CycleInv(c, round, s) && StepsTo(c, s, l, s') && Prompt(s, round, l)
    ensures CycleInv(c, round, s')
  {
    PacedStep(c, round, s, l, s');
    forall id | id in s'.last
      ensures Cycling(c, round, s', id)
    {
      match l
      case Snapshot(_) => CyclingSnapshot(c, round, s, l, s', id);
      case Record => CyclingRecord(c, round, s, s', id);
      case _ => CyclingElse(c, round, s, l, s', id);
    }
  }

  lemma {:induction false} CycleAlways(c: Config, round: Duration, ss: seq<State>, ls: seq<Label>, i: nat)
    requires c.Valid() && round >= 0
    requires PromptRun(c, round, ss, ls) && i < |ss|
    ensures CycleInv(c, round, ss[i])
  {
    if i > 0 {
      CycleAlways(c, round, ss, ls, i - 1);
      assert StepsTo(c, ss[i - 1], ls[i - 1], ss[i]) && Prompt(ss[i - 1], round, ls[i - 1]);
      CycleStep(c, round, ss[i - 1], ls[i - 1], ss[i]);
    }
  }

  /** This step tries to publish the job's advertisement. */
  predicate Advertises(s: State, l: Label, id: JobId) {
    && (l.Publish? || l.FailPublish?)
    && s.phase.Announcing? && s.phase.batch != [] && s.phase.batch[0] == id
  }

  /** Nothing tries to publish the job strictly between steps `i` and `j`. */
  ghost predicate Unadvertised(ss: seq<State>, ls: seq<Label>, i: nat, j: nat, id: JobId)
    requires j <= |ls| < |ss|
  {
    forall k {:trigger ls[k]} :: i < k < j ==> !Advertises(ss[k], ls[k], id)
  }

  /** The job's last announcement was recorded at `r` and no newer one is about to be. */
  predicate Recorded(s: State, id: JobId, r: Time) {
    id in s.last && s.last[id] == r && !Recording(s, id)
  }

  lemma RecordedStep(c: Config, s: State, l: Label, s': State, id: JobId, r: Time)
    requires StepsTo(c, s, l, s') && Recorded(s, id, r) && !Advertises(s, l, id)
    ensures Recorded(s', id, r)
  {
  }

  /** Between its record and the next attempt to publish it, a job's announcement time stands. */
  lemma {:induction false} RecordStands(c: Config, ss: seq<State>, ls: seq<Label>, i: nat, j: nat, id: JobId)
    requires IsRun(c, ss, ls) && i < j < |ss|
    requires ls[i].Record? && Enabled(c, ss[i], ls[i]) && ss[i].phase.batch[0] == id
    requires Unadvertised(ss, ls, i, j, id)
    ensures Recorded(ss[j], id, ss[i].now)
    decreases j
  {
    assert StepsTo(c, ss[j - 1], ls[j - 1], ss[j]);
    if i + 1 < j {
      RecordStands(c, ss, ls, i, j - 1, id);
      RecordedStep(c, ss[j - 1], ls[j - 1], ss[j], id, ss[i].now);
    }
  }

  lemma RecordedRecently(c: Config, round: Duration, s: State, id: JobId)
    requires c.Valid() && round >= 0 && CycleInv(c, round, s) && id in s.last
    ensures s.now <= s.last[id] + 2 * c.interval + 2 * round
  {
    assert Cycling(c, round, s, id);
  }

  /**
   Jobs are never dropped from the announcements: once recorded, a job is advertised again within
   two intervals and two rounds, finished and withdrawn or not, because `dirty` never shrinks.
   */
  lemma AdvertisedForEver(c: Config, round: Duration, ss: seq<State>, ls: seq<Label>, i: nat, j: nat, id: JobId)
    requires c.Valid() && round >= 0
    requires PromptRun(c, round, ss, ls) && i < j < |ss|
    requires ls[i].Record? && Enabled(c, ss[i], ls[i]) && ss[i].phase.batch[0] == id
    requires ss[i].now + 2 * c.interval + 2 * round < ss[j].now
    ensures exists k {:trigger ls[k]} :: i < k < j && Advertises(ss[k], ls[k], id)
  {
    CycleAlways(c, round, ss, ls, j);
    if Unadvertised(ss, ls, i, j, id) {
      RecordStands(c, ss, ls, i, j, id);
      RecordedRecently(c, round, ss[j], id);
    }
  }

  // ---------- advertisements ----------

  /** The longest time between two announcements of a job in a prompt run. */
  function Period(c: Config, round: Duration): Duration {
    2 * c.interval + 2 * round
  }

  /** How far the job's advertisement is behind after puts that failed, a `Period` for each in a row. */
  function DebtAfter(c: Config, round: Duration, s: State, l: Label, id: JobId, debt: Duration): Duration {
    if !Advertises(s, l, id) then debt else if l.Publish? then 0 else debt + Period(c, round)
  }

  predicate Lively(c: Config, round: Duration, s: State, id: JobId, debt: Duration)
    requires id in s.ads
  {
    if Pending(s, id) then
      s.phase.since + c.ttl <= s.ads[id] + Period(c, round) + debt
    else if Recording(s, id) then
      s.phase.since + c.ttl <= s.ads[id] + debt
    else
      id in s.last && s.last[id] + c.ttl <= s.ads[id] + round + debt
  }

  lemma LivelyUnexpired(c: Config, round: Duration, s: State, id: JobId, debt: Duration)
    requires c.Valid() && round >= 0 && Period(c, round) + debt + round <= c.ttl
    requires CycleInv(c, round, s) && id in s.ads && Lively(c, round, s, id, debt)
    ensures s.now <= s.ads[id]
  {
    assert id in s.last ==> Cycling(c, round, s, id);
  }

  lemma LivelySnapshot(c: Config, round: Duration, s: State, l: Label, s': State, id: JobId, debt: Duration)
    requires c.Valid() && round >= 0 && CycleInv(c, round, s')
    requires id in s.ads && Lively(c, round, s, id, debt)
    requires StepsTo(c, s, l, s') && l.Snapshot?
    ensures Lively(c, round, s', id, debt)
  {
    assert Cycling(c, round, s', id);
  }

  lemma LivelyRecord(c: Config, round: Duration, s: State, s': State, id: JobId, debt: Duration)
    requires round >= 0 && Paced(c, round, s) && id in s.ads && Lively(c, round, s, id, debt)
    requires StepsTo(c, s, Record, s')
    ensures Lively(c, round, s', id, debt)
  {
    var batch := s.phase.batch;
    assert id in batch <==> id == batch[0] || id in batch[1..];
  }

  lemma LivelyPut(c: Config, round: Duration, s: State, l: Label, s': State, id: JobId, debt: Duration)
    requires Paced(c, round, s) && StepsTo(c, s, l, s') && (l.Publish? || l.FailPublish?)
    requires id in s.ads ==> Lively(c, round, s, id, debt)
    requires id in s'.ads
    ensures Lively(c, round, s', id, DebtAfter(c, round, s, l, id, debt))
  {
  }

  lemma LivelyElse(c: Config, round: Duration, s: State, l: Label, s': State, id: JobId, debt: Duration)
    requires StepsTo(c, s, l, s') && !l.Snapshot? && !l.Publish? && !l.FailPublish? && !l.Record?
    requires id in s.ads ==> Lively(c, round, s, id, debt)
    requires id in s'.ads
    ensures Lively(c, round, s', id, DebtAfter(c, round, s, l, id, debt))
  {
  }

  /** Every prompt step keeps a job's advertisement no further behind than its failed puts account for. */
  lemma AdInvStep(c: Config, round: Duration, s: State, l: Label, s': State, id: JobId, debt: Duration)
    requires c.Valid() && round >= 0
    requires CycleInv(c, round, s) && StepsTo(c, s, l, s') && Prompt(s, round, l)
    requires id in s.ads ==> Lively(c, round, s, id, debt)
    ensures id in s'.ads ==> Lively(c, round, s', id, DebtAfter(c, round, s, l, id, debt))
  {
    CycleStep(c, round, s, l, s');
    if id in s'.ads {
      match l
      case Snapshot(_) => LivelySnapshot(c, round, s, l, s', id, debt);
      case Record => LivelyRecord(c, round, s, s', id, debt);
      case Publish => LivelyPut(c, round, s, l, s', id, debt);
      case FailPublish => LivelyPut(c, round, s, l, s', id, debt);
      case _ => LivelyElse(c, round, s, l, s', id, debt);
    }
  }

  /** How many puts of the job's advertisement in a row, up to step `n`, have failed. */
  function Missed(ss: seq<State>, ls: seq<Label>, n: nat, id: JobId): nat
    requires n <= |ls| < |ss|
    decreases n
  {
    if n == 0 then 0
    else
      var before := Missed(ss, ls, n - 1, id);
      if !Advertises(ss[n - 1], ls[n - 1], id) then before else if ls[n - 1].Publish? then 0 else before + 1
  }

  function Debt(c: Config, round: Duration, ss: seq<State>, ls: seq<Label>, n: nat, id: JobId): Duration
    requires n <= |ls| < |ss|
    decreases n
  {
    if n == 0 then 0 else DebtAfter(c, round, ss[n - 1], ls[n - 1], id, Debt(c, round, ss, ls, n - 1, id))
  }

  lemma {:induction false} DebtOfMissed(
    c: Config, round: Duration, ss: seq<State>, ls: seq<Label>, n: nat, id: JobId)
    requires n <= |ls| < |ss|
    ensures Debt(c, round, ss, ls, n, id) == Missed(ss, ls, n, id) * Period(c, round)
    decreases n
  {
    if n > 0 {
      DebtOfMissed(c, round, ss, ls, n - 1, id);
      var before, period := Missed(ss, ls, n - 1, id), Period(c, round);
      assert (before + 1) * period == before * period + period;
    }
  }

  lemma {:induction false} AdInvAlways(
    c: Config, round: Duration, ss: seq<State>, ls: seq<Label>, i: nat, id: JobId)
    requires c.Valid() && round >= 0
    requires PromptRun(c, round, ss, ls) && i < |ss|
    ensures id in ss[i].ads ==> Lively(c, round, ss[i], id, Debt(c, round, ss, ls, i, id))
    decreases i
  {
    if i > 0 {
      AdInvAlways(c, round, ss, ls, i - 1, id);
      CycleAlways(c, round, ss, ls, i - 1);
      assert StepsTo(c, ss[i - 1], ls[i - 1], ss[i]) && Prompt(ss[i - 1], round, ls[i - 1]);
      AdInvStep(c, round, ss[i - 1], ls[i - 1], ss[i], id, Debt(c, round, ss, ls, i - 1, id));
    }
  }

  /** A published advertisement stays where readers find it until it is withdrawn. */
  lemma {:induction false} AdStays(c: Config, ss: seq<State>, ls: seq<Label>, i: nat, j: nat, id: JobId)
    requires IsRun(c, ss, ls) && i <= j < |ss|
    requires id in ss[i].ads
    requires forall k :: i <= k < j ==> ls[k] != Withdraw(id)
    ensures id in ss[j].ads
  {
    if i < j {
      AdStays(c, ss, ls, i, j - 1, id);
      assert StepsTo(c, ss[j - 1], ls[j - 1], ss[j]);
    }
  }

  /** Publishing a job's advertisement, the first time or not, puts it where readers find it, as stamped. */
  lemma PublishedIsAdvertised(c: Config, ss: seq<State>, ls: seq<Label>, k: nat, j: nat, id: JobId)
    requires IsRun(c, ss, ls) && k < j < |ss|
    requires ls[k].Publish? && Advertises(ss[k], ls[k], id)
    requires forall m :: k < m < j ==> ls[m] != Withdraw(id)
    ensures id in ss[j].ads
    ensures ss[k].phase.stage.Stamped? && ss[k + 1].ads == ss[k].ads[id := ss[k].phase.stage.exp]
  {
    assert StepsTo(c, ss[k], ls[k], ss[k + 1]);
    AdStays(c, ss, ls, k + 1, j, id);
  }

  /** A withdrawn advertisement is gone until the job's next successful put. */
  lemma {:induction false} WithdrawnIsGone(c: Config, ss: seq<State>, ls: seq<Label>, k: nat, j: nat, id: JobId)
    requires IsRun(c, ss, ls) && k < j < |ss| && ls[k] == Withdraw(id)
    requires forall m {:trigger ls[m]} :: k < m < j && ls[m].Publish? ==> !Advertises(ss[m], ls[m], id)
    ensures id !in ss[j].ads
    decreases j
  {
    assert StepsTo(c, ss[j - 1], ls[j - 1], ss[j]);
    if k + 1 < j {
      WithdrawnIsGone(c, ss, ls, k, j - 1, id);
    }
  }

  lemma {:induction false} FewerPeriods(missed: nat, misses: nat, period: Duration)
    requires missed <= misses && period >= 0
    ensures missed * period <= misses * period
  {
    if missed < misses {
      FewerPeriods(missed, misses - 1, period);
      assert misses * period == (misses - 1) * period + period;
    }
  }

  /**
   An advertisement never lapses: if every round finishes within `round`, at most `misses` puts of
   the job's advertisement in a row have failed, and `misses + 1` periods of `2 * interval + 2 * round`
   plus one round fit in `ttl`, then from its first publication until it is withdrawn the
   advertisement is present and unexpired at every time, although ticks are dropped when rounds
   overrun them and wakeups coalesce.
   */
  lemma AdNeverLapses(
    c: Config, round: Duration, misses: nat, ss: seq<State>, ls: seq<Label>, i: nat, j: nat, id: JobId)
    requires c.Valid() && round >= 0 && (misses + 1) * (2 * c.interval + 2 * round) + round <= c.ttl
    requires PromptRun(c, round, ss, ls) && i <= j < |ss|
    requires id in ss[i].ads && Missed(ss, ls, j, id) <= misses
    requires forall k :: i <= k < j ==> ls[k] != Withdraw(id)
    ensures id in ss[j].ads && ss[j].now <= ss[j].ads[id]
  {
    var missed, period := Missed(ss, ls, j, id), Period(c, round);
    AdStays(c, ss, ls, i, j, id);
    AdInvAlways(c, round, ss, ls, j, id);
    CycleAlways(c, round, ss, ls, j);
    DebtOfMissed(c, round, ss, ls, j, id);
    FewerPeriods(missed, misses, period);
    assert (misses + 1) * period == misses * period + period;
    LivelyUnexpired(c, round, ss[j], id, Debt(c, round, ss, ls, j, id));
  }

  // ---------- first announcement ----------

  /** The wakeup for a job signalled at `t0` is still on its way to an announcement. */
  predicate Coming(round: Duration, s: State, id: JobId, t0: Time) {
    match s.phase
    case Idle => s.trigger && s.now <= t0 + round
    case Woken(since) => since <= t0 + round
    case Announcing(since, batch, _) => (id in batch && since <= t0 + round) || (s.trigger && since <= t0)
  }

  lemma ComingStep(c: Config, round: Duration, s: State, l: Label, s': State, id: JobId, t0: Time)
    requires c.Valid() && round >= 0
    requires Paced(c, round, s) && StepsTo(c, s, l, s') && Prompt(s, round, l)
    requires id in s.dirty
    requires id in s.last || Coming(round, s, id, t0)
    ensures id in s'.dirty
    ensures id in s'.last || Coming(round, s', id, t0)
  {
    match l
    case Snapshot(ids) =>
      assert id in Due(s.dirty, s.last, c.interval, s.now) <==> id in set x | x in ids;
    case Record =>
      var batch := s.phase.batch;
      assert id in batch <==> id == batch[0] || id in batch[1..];
    case _ =>
  }

  lemma {:induction false} PacedAlways(c: Config, round: Duration, ss: seq<State>, ls: seq<Label>, i: nat)
    requires c.Valid() && round >= 0
    requires PromptRun(c, round, ss, ls) && i < |ss|
    ensures Paced(c, round, ss[i])
  {
    if i > 0 {
      PacedAlways(c, round, ss, ls, i - 1);
      assert StepsTo(c, ss[i - 1], ls[i - 1], ss[i]) && Prompt(ss[i - 1], round, ls[i - 1]);
      PacedStep(c, round, ss[i - 1], ls[i - 1], ss[i]);
    }
  }

  lemma {:induction false} ComingAlways(
    c: Config, round: Duration, ss: seq<State>, ls: seq<Label>, i: nat, j: nat, id: JobId)
    requires c.Valid() && round >= 0
    requires PromptRun(c, round, ss, ls) && i < j < |ss|
    requires ls[i] == Signal(id) && id in ss[i].dirty
    ensures id in ss[j].dirty
    ensures id in ss[j].last || Coming(round, ss[j], id, ss[i].now)
  {
    PacedAlways(c, round, ss, ls, j - 1);
    assert StepsTo(c, ss[j - 1], ls[j - 1], ss[j]) && Prompt(ss[j - 1], round, ls[j - 1]);
    if i + 1 < j {
      ComingAlways(c, round, ss, ls, i, j - 1, id);
      ComingStep(c, round, ss[j - 1], ls[j - 1], ss[j], id, ss[i].now);
    }
  }

  /** A caller that reaches its send has marked its job. */
  lemma {:induction false} SendersAreDirty(c: Config, ss: seq<State>, ls: seq<Label>, i: nat)
    requires IsRun(c, ss, ls) && i < |ss|
    ensures forall id :: id in ss[i].senders ==> id in ss[i].dirty
  {
    if i > 0 {
      SendersAreDirty(c, ss, ls, i - 1);
      assert StepsTo(c, ss[i - 1], ls[i - 1], ss[i]);
    }
  }

  /** Up to step `j` no put of the job's advertisement failed and nobody withdrew it. */
  ghost predicate Smooth(ss: seq<State>, ls: seq<Label>, j: nat, id: JobId)
    requires j <= |ls| < |ss|
  {
    forall k {:trigger ls[k]} :: 0 <= k < j ==>
      ls[k] != Withdraw(id) && !(ls[k].FailPublish? && Advertises(ss[k], ls[k], id))
  }

  lemma AdvertisedStep(c: Config, s: State, l: Label, s': State, id: JobId)
    requires StepsTo(c, s, l, s') && l != Withdraw(id) && !(l.FailPublish? && Advertises(s, l, id))
    requires id in s.last || Recording(s, id) ==> id in s.ads
    ensures id in s'.last || Recording(s', id) ==> id in s'.ads
  {
  }

  /** Then a job on record as announced is advertised, and no put of it is missing. */
  lemma {:induction false} RecordedIsAdvertised(c: Config, ss: seq<State>, ls: seq<Label>, j: nat, id: JobId)
    requires IsRun(c, ss, ls) && j < |ss| && Smooth(ss, ls, j, id)
    ensures id in ss[j].last || Recording(ss[j], id) ==> id in ss[j].ads
    ensures Missed(ss, ls, j, id) == 0
    decreases j
  {
    if j > 0 {
      RecordedIsAdvertised(c, ss, ls, j - 1, id);
      assert StepsTo(c, ss[j - 1], ls[j - 1], ss[j]);
      AdvertisedStep(c, ss[j - 1], ls[j - 1], ss[j], id);
    }
  }

  lemma SmoothlyAdvertised(c: Config, round: Duration, ss: seq<State>, ls: seq<Label>, j: nat, id: JobId)
    requires c.Valid() && round >= 0
    requires PromptRun(c, round, ss, ls) && j < |ss|
    ensures id in ss[j].last && Smooth(ss, ls, j, id) ==> id in ss[j].ads
    ensures id in ss[j].last && Smooth(ss, ls, j, id) && 2 * c.interval + 3 * round <= c.ttl ==>
              ss[j].now <= ss[j].ads[id]
  {
    if id in ss[j].last && Smooth(ss, ls, j, id) {
      RecordedIsAdvertised(c, ss, ls, j, id);
      if 2 * c.interval + 3 * round <= c.ttl {
        AdNeverLapses(c, round, 0, ss, ls, j, j, id);
      }
    }
  }

  /**
   Every enqueued job is announced within two rounds of its caller's send, whatever the loop
   was doing then and however many wakeups were merged. Unless a put of it failed or it was
   withdrawn, readers then find an unexpired advertisement.
   */
  lemma FirstAnnouncement(c: Config, round: Duration, ss: seq<State>, ls: seq<Label>, i: nat, j: nat, id: JobId)
    requires c.Valid() && round >= 0
    requires PromptRun(c, round, ss, ls) && i < j < |ss|
    requires ls[i] == Signal(id)
    requires ss[i].now + 2 * round < ss[j].now
    ensures id in ss[j].last
    ensures Smooth(ss, ls, j, id) ==> id in ss[j].ads
    ensures Smooth(ss, ls, j, id) && 2 * c.interval + 3 * round <= c.ttl ==> ss[j].now <= ss[j].ads[id]
  {
    assert StepsTo(c, ss[i], ls[i], ss[i + 1]);
    SendersAreDirty(c, ss, ls, i);
    ComingAlways(c, round, ss, ls, i, j, id);
    PacedAlways(c, round, ss, ls, j);
    SmoothlyAdvertised(c, round, ss, ls, j, id);
  }

  // ---------- the loop never blocks the clock ----------

  lemma {:induction false} ListOf(jobs: set<JobId>) returns (ids: seq<JobId>)
    ensures Distinct(ids) && (forall id :: id in ids <==> id in jobs)
  {
    if jobs == {} {
      ids := [];
    } else {
      var id :| id in jobs;
      var rest := ListOf(jobs - {id});
      ids := rest + [id];
    }
  }

  /** A step of the ticker or of the Run loop, or time passing. */
  predicate Progress(s: State, l: Label) {
    match l
    case Advance(to) => s.now < to
    case Mark(_) => false
    case Signal(_) => false
    case Withdraw(_) => false
    case FailPublish => false
    case _ => true
  }

  /**
   Being prompt never leaves the system stuck: wherever a prompt run is, the ticker or the Run loop
   can take a step, or time can pass, without waiting for any caller and without any put failing.
   */
  lemma NeverStuck(c: Config, round: Duration, ss: seq<State>, ls: seq<Label>, i: nat)
    requires c.Valid() && round >= 0
    requires PromptRun(c, round, ss, ls) && i < |ss|
    ensures exists l :: Enabled(c, ss[i], l) && Prompt(ss[i], round, l) && Progress(ss[i], l)
  {
    PacedAlways(c, round, ss, ls, i);
    var s := ss[i];
    var l: Label;
    match s.phase {
      case Idle =>
        l := if s.tick then TakeTick else if s.trigger then TakeTrigger
             else if s.nextTick <= s.now then Fire else Advance(s.nextTick);
      case Woken(_) =>
        var ids := ListOf(Due(s.dirty, s.last, c.interval, s.now));
        assert (set id | id in ids) == Due(s.dirty, s.last, c.interval, s.now);
        l := Snapshot(ids);
      case Announcing(_, _, stage) =>
        l := if stage.Fetching? then Stamp else if stage.Stamped? then Publish else Record;
    }
    assert Enabled(c, s, l) && Prompt(s, round, l) && Progress(s, l);
  }
}
