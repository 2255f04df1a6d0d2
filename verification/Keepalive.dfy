/** The agent's side of a lease: how often it beats, when it gives up, and that beating keeps the lease. */
module Keepalive {
  import opened Prelude
  import opened Durations
  import opened DemandJobs
  import opened LeaseInvariants
  import opened LeaseSafety
  import opened Wire

  // ---------- configuration ----------

  function HeartbeatEvery(ttlSec: int, hbSec: int): Duration {
    if hbSec < ttlSec then hbSec * SECOND
    else if ttlSec > 1 then (ttlSec - 1) * SECOND
    else ttlSec * (SECOND / 2)
  }

  /**
   The heartbeat period the agent settles on for its two flags. A period below the lease is left
   alone; a longer one becomes a second less than the lease, or half of a lease of one second.
   */
  method CorrectHeartbeat(ttlSec: int, hbSec: int) returns (leaseTtl: Duration, hbEvery: Duration)
    ensures leaseTtl == ttlSec * SECOND
    ensures hbEvery == HeartbeatEvery(ttlSec, hbSec)
    ensures hbSec < ttlSec ==> hbEvery == hbSec * SECOND
    ensures hbSec >= ttlSec > 1 ==> hbEvery == leaseTtl - SECOND
    ensures hbSec >= ttlSec && ttlSec <= 1 ==> 2 * hbEvery == leaseTtl
    ensures ttlSec >= 1 && hbSec >= 1 ==> 0 < hbEvery <= hbSec * SECOND && hbEvery < leaseTtl
  {
    leaseTtl := ttlSec * SECOND;
    hbEvery := hbSec * SECOND;
    if hbEvery >= leaseTtl {
      if leaseTtl > SECOND {
        hbEvery := leaseTtl - SECOND;
      } else {
        hbEvery := leaseTtl / 2;
      }
    }
  }

  /**
   The corrected period is usable, that is positive and shorter than the lease the store applies,
   exactly for these flags. Above 3600 seconds the handler silently falls back to 15-second
   leases, so there the period must be below that default.
   */
  lemma HeartbeatUsableIff(ttlSec: int, hbSec: int)
    ensures 0 < HeartbeatEvery(ttlSec, hbSec) < Applied(ttlSec * SECOND)
            <==> (1 <= ttlSec <= 3600 && 1 <= hbSec) || (ttlSec > 3600 && 1 <= hbSec < 15)
  {
    assert WholeSeconds(ttlSec * SECOND) == ttlSec;
    assert WholeSeconds(15 * SECOND) == 15;
  }

  // ---------- the heartbeat loop ----------

  const MAX_FAIL := 3

  /** From tick `i` on, more than `k` beats in a row went unanswered. */
  predicate MissedMore(replies: seq<bool>, i: nat, k: nat) {
    i + k < |replies| && forall m :: i <= m <= i + k ==> !replies[m]
  }

  /** Never more than `k` consecutive beats went unanswered. */
  ghost predicate AtMostMissed(replies: seq<bool>, k: nat) {
    forall i: nat :: !MissedMore(replies, i, k)
  }

  /** One more beat keeps the limit when it leaves at most `k` failures in a row at the end. */
  lemma LongerRun(replies: seq<bool>, n: nat, fail: nat, k: nat)
    requires n < |replies| && AtMostMissed(replies[..n], k)
    requires fail <= k && fail <= n + 1 && (n + 1 > fail ==> replies[n - fail])
    ensures AtMostMissed(replies[..n + 1], k)
  {
    var longer := replies[..n + 1];
    forall i: nat
      ensures !MissedMore(longer, i, k)
    {
      if i + k < n {
        assert !MissedMore(replies[..n], i, k);
        var m :| i <= m <= i + k && replies[..n][m];
        assert longer[m];
      } else if i + k == n {
        assert longer[n - fail];
      }
    }
  }

  /** One beat per tick until three in a row fail; `replies` says which beats were answered. */
  method HeartbeatLoop(replies: seq<bool>) returns (sent: nat, gaveUp: bool)
    ensures sent <= |replies|
    ensures gaveUp ==>
              sent >= 3 && (forall m :: sent - 3 <= m < sent ==> !replies[m]) && AtMostMissed(replies[..sent - 1], 2)
    ensures !gaveUp ==> sent == |replies| && AtMostMissed(replies, 2)
  {
    var fail := 0;
    sent, gaveUp := 0, false;
    while sent < |replies| && !gaveUp
      invariant sent <= |replies| && 0 <= fail <= MAX_FAIL && fail <= sent
      invariant gaveUp <==> fail == MAX_FAIL
      invariant forall m :: sent - fail <= m < sent ==> !replies[m]
      invariant sent > fail ==> replies[sent - fail - 1]
      invariant AtMostMissed(if gaveUp then replies[..sent - 1] else replies[..sent], MAX_FAIL - 1)
    {
      ghost var front := replies[..sent];
      if !replies[sent] {
        fail := fail + 1;
        if fail >= MAX_FAIL {
          gaveUp := true;
        }
      } else {
        fail := 0;
      }
      sent := sent + 1;
      assert replies[..sent - 1] == front;
      if !gaveUp {
        LongerRun(replies, sent - 1, fail, MAX_FAIL - 1);
      }
    }
    assert replies[..|replies|] == replies;
  }

  // ---------- gaps between answered beats ----------

  /** The ticks whose beats were answered, in order. */
  function Answered(replies: seq<bool>): seq<nat> {
    if replies == [] then []
    else
      var n := |replies| - 1;
      Answered(replies[..n]) + if replies[n] then [n] else []
  }

  /** Exactly the answered ticks are listed. */
  lemma {:induction false} AnsweredExactly(replies: seq<bool>, t: nat)
    ensures t in Answered(replies) <==> t < |replies| && replies[t]
  {
    if replies != [] {
      AnsweredExactly(replies[..|replies| - 1], t);
    }
  }

  predicate GapAt(ticks: seq<nat>, j: nat, k: nat) {
    j + 1 < |ticks| ==> ticks[j] < ticks[j + 1] <= ticks[j] + k + 1
  }

  lemma MissedInFront(replies: seq<bool>, n: nat, k: nat)
    requires n <= |replies| && AtMostMissed(replies, k)
    ensures AtMostMissed(replies[..n], k)
  {
    forall i: nat
      ensures !MissedMore(replies[..n], i, k)
    {
      assert !MissedMore(replies, i, k);
      if i + k < n {
        var m :| i <= m <= i + k && replies[m];
        assert replies[..n][m];
      }
    }
  }

  /** Every beat after the last answered one was missed, so the last answered one is recent. */
  lemma {:induction false} LastAnswered(replies: seq<bool>, k: nat)
    requires AtMostMissed(replies, k) && Answered(replies) != []
    ensures var last := Answered(replies)[|Answered(replies)| - 1];
            && last < |replies| <= last + k + 1
            && forall m :: last < m < |replies| ==> !replies[m]
  {
    var n := |replies| - 1;
    if !replies[n] {
      MissedInFront(replies, n, k);
      LastAnswered(replies[..n], k);
      var last := Answered(replies)[|Answered(replies)| - 1];
      assert forall m :: last < m < n ==> replies[..n][m] == replies[m];
      assert !MissedMore(replies, last + 1, k);
    }
  }

  /** While at most `k` beats in a row are missed, answered beats are at most `k + 1` ticks apart. */
  lemma {:induction false} AnsweredGaps(replies: seq<bool>, k: nat, j: nat)
    requires AtMostMissed(replies, k)
    ensures GapAt(Answered(replies), j, k)
  {
    if replies != [] {
      var front := replies[..|replies| - 1];
      MissedInFront(replies, |replies| - 1, k);
      AnsweredGaps(front, k, j);
      if j + 1 == |Answered(front)| {
        LastAnswered(front, k);
      }
    }
  }

  // ---------- the finish loop ----------

  datatype FinishReply = Accepted | Retryable | Fatal

  const MAX_FINISH_RETRIES := 20

  /** The same report is sent until it is accepted, refused for good, or has been sent twenty times. */
  method ReportFinish(report: Statement, replies: nat -> FinishReply) returns (sent: seq<Statement>, ok: bool)
    requires report.Finish?
    ensures 1 <= |sent| <= 20
    ensures forall i :: 0 <= i < |sent| ==> sent[i] == report
    ensures forall i :: 0 <= i < |sent| - 1 ==> replies(i) == Retryable
    ensures |sent| < 20 ==> replies(|sent| - 1) != Retryable
    ensures ok <==> replies(|sent| - 1) == Accepted
  {
    sent, ok := [], false;
    var attempt := 1;
    while attempt <= MAX_FINISH_RETRIES
      invariant 1 <= attempt <= MAX_FINISH_RETRIES + 1 && |sent| == attempt - 1 && !ok
      invariant forall i :: 0 <= i < |sent| ==> sent[i] == report && replies(i) == Retryable
    {
      sent := sent + [report];
      var reply := replies(attempt - 1);
      if reply == Accepted {
        ok := true;
        return;
      }
      if reply != Retryable {
        return;
      }
      attempt := attempt + 1;
    }
  }

  // ---------- a lease lasts until its expiry ----------

  /** The job is finished, or leased to this agent under this token at least until `until`. */
  predicate Safe(row: Row, agent: AgentId, token: int, until: Time) {
    || row.status.Terminal()
    || (row.status.Active() && row.agent == Some(agent) && row.token == token
        && row.expiry.Some? && until <= row.expiry.value)
  }

  /** The job is finished, or its lease is this agent's under this token, lapsed or not. */
  predicate Owned(row: Row, agent: AgentId, token: int) {
    row.status.Terminal() || (row.agent == Some(agent) && row.token == token)
  }

  predicate IsBeat(s: Statement, id: JobId, agent: AgentId, token: int) {
    s.Beat? && s.id == id && s.agent == agent && s.token == token
  }

  /** From statement `from` on, this lease is only ever renewed for `length`. */
  ghost predicate RenewedFor(es: seq<Event>, from: nat, id: JobId, agent: AgentId, token: int, length: Duration) {
    forall i :: from <= i < |es| && IsBeat(es[i].stmt, id, agent, token) ==> LeaseLength(es[i].stmt.ttl) == length
  }

  lemma SafeStep(row: Row, e: Event, agent: AgentId, token: int, until: Time)
    requires !e.stmt.Insert? && Coherent(row) && Safe(row, agent, token, until)
    requires e.now <= until
    requires e.stmt.Beat? && e.stmt.agent == agent && e.stmt.token == token ==>
               until <= e.now + LeaseLength(e.stmt.ttl)
    ensures Matches(row, e.now, e.stmt) ==> Safe(Updated(row, e.now, e.stmt), agent, token, until)
    ensures e.stmt.Requeue? ==> !Matches(row, e.now, e.stmt)
  {
  }

  /** A lease written at statement `b` protects the job from every statement up to its expiry. */
  lemma {:induction false} LeaseOutlasts(
    es: seq<Event>, from: nat, b: nat, i: nat, id: JobId, agent: AgentId, token: int, length: Duration)
    requires Timely(es) && from <= b < i <= |es|
    requires RenewedFor(es, from, id, agent, token, length)
    requires id in At(es, b + 1) && Safe(At(es, b + 1)[id], agent, token, es[b].now + length)
    requires es[i - 1].now <= es[b].now + length
    ensures id in At(es, i) && Safe(At(es, i)[id], agent, token, es[b].now + length)
  {
    if b + 1 < i {
      LeaseOutlasts(es, from, b, i - 1, id, agent, token, length);
      RowCoherence(es, i - 1, id);
      Unroll(es, i - 1);
      if es[i - 1].stmt.id == id && !es[i - 1].stmt.Insert? {
        SafeStep(At(es, i - 1)[id], es[i - 1], agent, token, es[b].now + length);
      }
    }
  }

  /** A grant protects the job until the expiry it writes. */
  lemma ClaimOutlasts(es: seq<Event>, g: nat, i: nat, id: JobId, agent: AgentId, token: int, length: Duration)
    requires Timely(es) && g < i <= |es|
    requires Granted(es, g, id, agent, token) && LeaseLength(es[g].stmt.ttl) == length
    requires RenewedFor(es, g, id, agent, token, length)
    requires es[i - 1].now <= es[g].now + length
    ensures id in At(es, i) && Safe(At(es, i)[id], agent, token, es[g].now + length)
  {
    Unroll(es, g);
    LeaseOutlasts(es, g, g, i, id, agent, token, length);
  }

  /** A beat on a lease that is still the agent's protects the job until the expiry it writes. */
  lemma BeatOutlasts(
    es: seq<Event>, from: nat, b: nat, i: nat, id: JobId, agent: AgentId, token: int, length: Duration)
    requires Timely(es) && from <= b < i <= |es|
    requires RenewedFor(es, from, id, agent, token, length)
    requires IsBeat(es[b].stmt, id, agent, token)
    requires id in At(es, b) && Owned(At(es, b)[id], agent, token)
    requires es[i - 1].now <= es[b].now + length
    ensures id in At(es, i) && Safe(At(es, i)[id], agent, token, es[b].now + length)
  {
    RowCoherence(es, b, id);
    Unroll(es, b);
    LeaseOutlasts(es, from, b, i, id, agent, token, length);
  }

  // ---------- the first beat ----------

  /** Up to statement `i`, no sweep came by after the granted lease had lapsed. */
  ghost predicate Unswept(es: seq<Event>, g: nat, i: nat, id: JobId, expiry: Time) {
    forall k :: g < k < i && k < |es| && es[k].stmt == Requeue(id) ==> es[k].now <= expiry
  }

  /** Until statement `i` the agent neither renews nor anyone finishes the job. */
  ghost predicate Silent(es: seq<Event>, g: nat, i: nat, id: JobId, agent: AgentId, token: int) {
    forall k :: g < k < i && k < |es| ==>
      !IsBeat(es[k].stmt, id, agent, token) && !(es[k].stmt.Finish? && es[k].stmt.id == id)
  }

  /** A granted lease left alone is in place, or lost for good if a sweep found it lapsed. */
  lemma {:induction false} SilentLease(es: seq<Event>, g: nat, i: nat, id: JobId, agent: AgentId, token: int)
    requires g < i <= |es| && Granted(es, g, id, agent, token) && Silent(es, g, i, id, agent, token)
    ensures id in At(es, i)
    ensures var row, expiry := At(es, i)[id], es[g].now + LeaseLength(es[g].stmt.ttl);
            if Unswept(es, g, i, id, expiry) then
              row.status.Active() && row.agent == Some(agent) && row.token == token && row.expiry == Some(expiry)
            else
              row.token > token || (row.token == token && row.status.Queued?)
  {
    var expiry := es[g].now + LeaseLength(es[g].stmt.ttl);
    Unroll(es, i - 1);
    if g + 1 < i {
      SilentLease(es, g, i - 1, id, agent, token);
      RowCoherence(es, i - 1, id);
      assert Unswept(es, g, i, id, expiry) <==>
             Unswept(es, g, i - 1, id, expiry) && (es[i - 1].stmt == Requeue(id) ==> es[i - 1].now <= expiry);
    }
  }

  /**
   The agent waits for a manifest before its first beat. That beat is accepted exactly when no
   sweep came by in the meantime after the claimed lease had lapsed, however late the beat is.
   */
  lemma FirstBeatAcceptedIff(es: seq<Event>, g: nat, b: nat, id: JobId, agent: AgentId, token: int)
    requires g < b < |es| && Granted(es, g, id, agent, token) && Silent(es, g, b, id, agent, token)
    requires IsBeat(es[b].stmt, id, agent, token)
    ensures Hits(At(es, b), es[b]) <==> Unswept(es, g, b, id, es[g].now + LeaseLength(es[g].stmt.ttl))
  {
    SilentLease(es, g, b, id, agent, token);
    RowCoherence(es, b, id);
  }

  // ---------- beating keeps the lease ----------

  /** Beat `j` is statement `beats[j]`, sent on tick `ticks[j]` and taking effect within `delay` of it. */
  ghost predicate Landed(
    es: seq<Event>, beats: seq<nat>, ticks: seq<nat>, start: Time, hb: Duration, delay: Duration)
  {
    && |beats| == |ticks| > 0
    && (forall j :: 0 <= j < |beats| ==> beats[j] < |es|)
    && (forall i, j :: 0 <= i < j < |beats| ==> beats[i] < beats[j])
    && (forall j :: 0 <= j < |beats| ==>
          start + ticks[j] * hb <= es[beats[j]].now <= start + ticks[j] * hb + delay)
  }

  ghost predicate BeatsOf(es: seq<Event>, beats: seq<nat>, id: JobId, agent: AgentId, token: int) {
    forall j :: 0 <= j < |beats| && beats[j] < |es| ==> IsBeat(es[beats[j]].stmt, id, agent, token)
  }

  lemma {:induction false} MulMonotone(a: nat, b: nat, hb: Duration)
    requires a <= b && hb >= 0
    ensures a * hb <= b * hb
  {
    if a < b {
      MulMonotone(a, b - 1, hb);
      assert b * hb == (b - 1) * hb + hb;
    }
  }

  lemma TicksApart(a: nat, b: nat, hb: Duration, misses: nat)
    requires b <= a + misses + 1 && hb >= 0
    ensures b * hb <= a * hb + (misses + 1) * hb
  {
    MulMonotone(b, a + (misses + 1), hb);
    assert (a + (misses + 1)) * hb == a * hb + (misses + 1) * hb;
  }

  /** Consecutive beats take effect within one lease length of each other. */
  lemma BeatsClose(
    es: seq<Event>, beats: seq<nat>, ticks: seq<nat>,
    start: Time, hb: Duration, delay: Duration, misses: nat, length: Duration, j: nat)
    requires hb > 0 && Landed(es, beats, ticks, start, hb, delay)
    requires (misses + 1) * hb + delay <= length
    requires j + 1 < |beats| && GapAt(ticks, j, misses)
    ensures es[beats[j + 1]].now <= es[beats[j]].now + length
  {
    TicksApart(ticks[j], ticks[j + 1], hb, misses);
  }

  /** Every beat of the schedule finds the lease still the agent's, given that the first one does. */
  lemma {:induction false} EveryBeatOwned(
    es: seq<Event>, beats: seq<nat>, ticks: seq<nat>, start: Time, hb: Duration, delay: Duration, misses: nat,
    id: JobId, agent: AgentId, token: int, length: Duration, j: nat)
    requires Timely(es) && hb > 0
    requires Landed(es, beats, ticks, start, hb, delay) && BeatsOf(es, beats, id, agent, token)
    requires forall m: nat :: GapAt(ticks, m, misses)
    requires (misses + 1) * hb + delay <= length
    requires RenewedFor(es, beats[0], id, agent, token, length)
    requires id in At(es, beats[0]) && Owned(At(es, beats[0])[id], agent, token)
    requires j < |beats|
    ensures beats[0] <= beats[j]
    ensures id in At(es, beats[j]) && Owned(At(es, beats[j])[id], agent, token)
  {
    if j > 0 {
      EveryBeatOwned(es, beats, ticks, start, hb, delay, misses, id, agent, token, length, j - 1);
      assert GapAt(ticks, j - 1, misses);
      BeatsClose(es, beats, ticks, start, hb, delay, misses, length, j - 1);
      BeatOutlasts(es, beats[0], beats[j - 1], beats[j], id, agent, token, length);
    }
  }

  /** The last beat of the schedule at or before statement `i`. */
  lemma {:induction false} LastBeat(beats: seq<nat>, i: nat, n: nat) returns (j: nat)
    requires 0 < n <= |beats| && beats[0] <= i
    ensures j < n && beats[j] <= i
    ensures j + 1 < n ==> i < beats[j + 1]
  {
    if beats[n - 1] <= i {
      j := n - 1;
    } else {
      j := LastBeat(beats, i, n - 1);
    }
  }

  /**
   Timed keepalive: once a beat has found the lease still the agent's, as long as at most `misses`
   consecutive ticks go without a beat reaching the store and `(misses + 1) * hb + delay` fits in
   the lease, no sweep requeues the job until a full lease length after the last beat, whatever
   else is delivered.
   */
  lemma SweepSparesBeatingAgent(
    es: seq<Event>, beats: seq<nat>, ticks: seq<nat>, start: Time, hb: Duration, delay: Duration, misses: nat,
    id: JobId, agent: AgentId, token: int, length: Duration, i: nat)
    requires Timely(es) && hb > 0
    requires Landed(es, beats, ticks, start, hb, delay) && BeatsOf(es, beats, id, agent, token)
    requires forall m: nat :: GapAt(ticks, m, misses)
    requires (misses + 1) * hb + delay <= length
    requires RenewedFor(es, beats[0], id, agent, token, length)
    requires id in At(es, beats[0]) && Owned(At(es, beats[0])[id], agent, token)
    requires beats[0] <= i < |es| && es[i].stmt == Requeue(id)
    requires i <= beats[|beats| - 1] || es[i].now <= es[beats[|beats| - 1]].now + length
    ensures !Hits(At(es, i), es[i])
  {
    var j := LastBeat(beats, i, |beats|);
    EveryBeatOwned(es, beats, ticks, start, hb, delay, misses, id, agent, token, length, j);
    if j + 1 < |beats| {
      assert GapAt(ticks, j, misses);
      BeatsClose(es, beats, ticks, start, hb, delay, misses, length, j);
    }
    assert IsBeat(es[beats[j]].stmt, id, agent, token);
    BeatOutlasts(es, beats[0], beats[j], i, id, agent, token, length);
    RowCoherence(es, i, id);
  }

  /**
   The agent as configured, from its grant on: if its first beat lands within the claimed lease, its
   loop misses at most `misses` beats in a row, and `misses + 1` corrected periods plus the delay fit
   in the lease, then no sweep requeues the job until a lease length after the last answered beat.
   */
  lemma AgentKeepsLease(
    ttlSec: int, hbSec: int, replies: seq<bool>, misses: nat,
    es: seq<Event>, g: nat, beats: seq<nat>, start: Time, delay: Duration,
    id: JobId, agent: AgentId, token: int, i: nat)
    requires 1 <= ttlSec <= 3600 && hbSec >= 1
    requires Timely(es) && AtMostMissed(replies, misses)
    requires Landed(es, beats, Answered(replies), start, HeartbeatEvery(ttlSec, hbSec), delay)
    requires BeatsOf(es, beats, id, agent, token)
    requires Granted(es, g, id, agent, token) && LeaseLength(es[g].stmt.ttl) == Applied(ttlSec * SECOND)
    requires RenewedFor(es, g, id, agent, token, Applied(ttlSec * SECOND))
    requires g < beats[0] && es[beats[0]].now <= es[g].now + ttlSec * SECOND
    requires (misses + 1) * HeartbeatEvery(ttlSec, hbSec) + delay <= ttlSec * SECOND
    requires g < i < |es| && es[i].stmt == Requeue(id)
    requires i <= beats[|beats| - 1] || es[i].now <= es[beats[|beats| - 1]].now + ttlSec * SECOND
    ensures !Hits(At(es, i), es[i])
  {
    var hb, length := HeartbeatEvery(ttlSec, hbSec), ttlSec * SECOND;
    HeartbeatUsableIff(ttlSec, hbSec);
    assert WholeSeconds(length) == ttlSec;
    forall m: nat
      ensures GapAt(Answered(replies), m, misses)
    {
      AnsweredGaps(replies, misses, m);
    }
    if i < beats[0] {
      ClaimOutlasts(es, g, i, id, agent, token, length);
      RowCoherence(es, i, id);
    } else {
      ClaimOutlasts(es, g, beats[0], id, agent, token, length);
      SweepSparesBeatingAgent(
        es, beats, Answered(replies), start, hb, delay, misses, id, agent, token, length, i);
    }
  }

  /** A corrected period leaves room for one beat per lease, with up to a second (or half the lease) of delay. */
  lemma CorrectedPeriodFits(ttlSec: int, hbSec: int)
    requires 1 <= ttlSec <= hbSec
    ensures ttlSec > 1 ==> HeartbeatEvery(ttlSec, hbSec) + SECOND == ttlSec * SECOND
    ensures ttlSec == 1 ==> 2 * HeartbeatEvery(ttlSec, hbSec) == ttlSec * SECOND
  {
  }
}
