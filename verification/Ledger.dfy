/** Conservation: the table's totals against the statements of the run that produced it. */
module Ledger {
  import opened Prelude
  import opened DemandJobs
  import opened LeaseInvariants

  /** A quantity each row contributes to a total over the table. */
  datatype Measure = Tokens | Retries | Leased {
    function Of(row: Row): int {
      match this
      case Tokens => row.token
      case Retries => row.retries
      case Leased => if row.status.Active() then 1 else 0
    }
  }

  ghost function Total(t: Table, m: Measure): int {
    if t == map[] then 0
    else
      var id :| id in t;
      m.Of(t[id]) + Total(t - {id}, m)
  }

  /** The total does not depend on the order in which rows are taken. */
  lemma {:induction false} TotalSplit(t: Table, m: Measure, id: JobId)
    requires id in t
    ensures Total(t, m) == m.Of(t[id]) + Total(t - {id}, m)
    decreases |t|
  {
    var k :| k in t && Total(t, m) == m.Of(t[k]) + Total(t - {k}, m);
    if k != id {
      assert |t - {k}| < |t| && |t - {id}| < |t| by {
        assert (t - {k}).Keys == t.Keys - {k} && (t - {id}).Keys == t.Keys - {id};
      }
      TotalSplit(t - {k}, m, id);
      TotalSplit(t - {id}, m, k);
      assert t - {k} - {id} == t - {id} - {k};
    }
  }

  lemma TotalUpdate(t: Table, m: Measure, id: JobId, row: Row)
    ensures Total(t[id := row], m) == Total(t, m) + m.Of(row) - (if id in t then m.Of(t[id]) else 0)
  {
    TotalSplit(t[id := row], m, id);
    if id in t {
      TotalSplit(t, m, id);
      assert t[id := row] - {id} == t - {id};
    } else {
      assert t[id := row] - {id} == t;
    }
  }

  function ActiveJobs(t: Table): set<JobId> {
    set id | id in t && t[id].status.Active()
  }

  lemma ActiveWithout(t: Table, k: JobId)
    requires k in t
    ensures |ActiveJobs(t)| == |ActiveJobs(t - {k})| + Leased.Of(t[k])
  {
    var rest := ActiveJobs(t - {k});
    assert k !in rest;
    assert ActiveJobs(t) == if t[k].status.Active() then rest + {k} else rest;
  }

  lemma {:induction false} LeasedCounts(t: Table)
    ensures Total(t, Leased) == |ActiveJobs(t)|
    decreases |t|
  {
    if t == map[] {
      assert ActiveJobs(t) == {};
    } else {
      var k :| k in t;
      assert (t - {k}).Keys == t.Keys - {k};
      LeasedCounts(t - {k});
      TotalSplit(t, Leased, k);
      ActiveWithout(t, k);
    }
  }

  // ---------- counting statements of a run ----------

  ghost function Grants(es: seq<Event>, n: nat): nat
    requires n <= |es|
  {
    if n == 0 then 0
    else Grants(es, n - 1) + if es[n - 1].stmt.Claim? && Hits(At(es, n - 1), es[n - 1]) then 1 else 0
  }

  ghost function Requeues(es: seq<Event>, n: nat): nat
    requires n <= |es|
  {
    if n == 0 then 0
    else Requeues(es, n - 1) + if es[n - 1].stmt.Requeue? && Hits(At(es, n - 1), es[n - 1]) then 1 else 0
  }

  /** Finishes that closed a job while its lease was held, rather than after a requeue. */
  ghost function LeasedFinishes(es: seq<Event>, n: nat): nat
    requires n <= |es|
  {
    if n == 0 then 0
    else
      var e := es[n - 1];
      LeasedFinishes(es, n - 1) +
      if e.stmt.Finish? && Hits(At(es, n - 1), e) && At(es, n - 1)[e.stmt.id].status.Active() then 1 else 0
  }

  /** What a statement adds to each total. */
  ghost function Added(t: Table, e: Event, m: Measure): int {
    if !Hits(t, e) then 0
    else match m
      case Tokens => if e.stmt.Claim? then 1 else 0
      case Retries => if e.stmt.Requeue? then 1 else 0
      case Leased =>
        if e.stmt.Claim? then 1
        else if e.stmt.Requeue? || (e.stmt.Finish? && t[e.stmt.id].status.Active()) then -1
        else 0
  }

  lemma RowAdds(t: Table, e: Event, m: Measure)
    requires Hits(t, e) && (e.stmt.id in t ==> Coherent(t[e.stmt.id]))
    ensures m.Of(Exec(t, e)[e.stmt.id]) == (if e.stmt.id in t then m.Of(t[e.stmt.id]) else 0) + Added(t, e, m)
  {
  }

  lemma ExecTotal(es: seq<Event>, i: nat, m: Measure)
    requires i < |es|
    ensures Total(At(es, i + 1), m) == Total(At(es, i), m) + Added(At(es, i), es[i], m)
  {
    Unroll(es, i);
    var t, e := At(es, i), es[i];
    if Hits(t, e) {
      if e.stmt.id in t {
        RowCoherence(es, i, e.stmt.id);
      }
      RowAdds(t, e, m);
      TotalUpdate(t, m, e.stmt.id, Exec(t, e)[e.stmt.id]);
    }
  }

  /**
   The tokens in the table are the grants ever made, the retries are the requeues ever made, and
   the grants not yet requeued are the leases now held plus the finishes that ended a held lease.
   */
  lemma {:induction false} GrantLedger(es: seq<Event>, n: nat)
    requires n <= |es|
    ensures Total(At(es, n), Tokens) == Grants(es, n)
    ensures Total(At(es, n), Retries) == Requeues(es, n)
    ensures Grants(es, n) - Requeues(es, n) == Total(At(es, n), Leased) + LeasedFinishes(es, n)
    decreases n
  {
    if n > 0 {
      GrantLedger(es, n - 1);
      ExecTotal(es, n - 1, Tokens);
      ExecTotal(es, n - 1, Retries);
      ExecTotal(es, n - 1, Leased);
    }
  }

  /** The jobs that a report closed under a lease never returned to the queue. */
  function ClosedUnderLease(t: Table): set<JobId> {
    set id | id in t && t[id].status.Terminal() && t[id].token == t[id].retries + 1
  }

  lemma ClosedWithout(t: Table, k: JobId)
    requires k in t
    ensures |ClosedUnderLease(t)| == |ClosedUnderLease(t - {k})| + if k in ClosedUnderLease(t) then 1 else 0
  {
    var rest := ClosedUnderLease(t - {k});
    assert k !in rest;
    assert ClosedUnderLease(t) == if k in ClosedUnderLease(t) then rest + {k} else rest;
  }

  /** In a coherent table every grant not requeued is a lease now held or a job closed under it. */
  lemma {:induction false} TableBalance(t: Table)
    requires CoherentTable(t)
    ensures Total(t, Tokens) - Total(t, Retries) == |ActiveJobs(t)| + |ClosedUnderLease(t)|
    decreases |t|
  {
    if t == map[] {
      assert ActiveJobs(t) == {} && ClosedUnderLease(t) == {};
    } else {
      var k :| k in t;
      assert (t - {k}).Keys == t.Keys - {k};
      TableBalance(t - {k});
      TotalSplit(t, Tokens, k);
      TotalSplit(t, Retries, k);
      ActiveWithout(t, k);
      ClosedWithout(t, k);
      assert Coherent(t[k]);
    }
  }

  /**
   Counted in jobs: grants less requeues are the jobs now leased plus the jobs closed under their
   lease, and the finishes that ended a held lease are exactly one for each of the latter.
   */
  lemma LeaseBalance(es: seq<Event>, n: nat)
    requires n <= |es|
    ensures Grants(es, n) - Requeues(es, n) == |ActiveJobs(At(es, n))| + |ClosedUnderLease(At(es, n))|
    ensures LeasedFinishes(es, n) == |ClosedUnderLease(At(es, n))|
  {
    GrantLedger(es, n);
    LeasedCounts(At(es, n));
    CoherentReplay(map[], es[..n]);
    TableBalance(At(es, n));
  }

  /** The ids ever inserted by a run; a table holds exactly these. */
  ghost function Created(es: seq<Event>, n: nat): set<JobId>
    requires n <= |es|
  {
    if n == 0 then {}
    else Created(es, n - 1) + if es[n - 1].stmt.Insert? then {es[n - 1].stmt.id} else {}
  }

  lemma {:induction false} TableHoldsCreated(es: seq<Event>, n: nat)
    requires n <= |es|
    ensures At(es, n).Keys == Created(es, n)
  {
    if n > 0 {
      TableHoldsCreated(es, n - 1);
      Unroll(es, n - 1);
    }
  }

  function InStatus(t: Table, s: Status): set<JobId> {
    set id | id in t && t[id].status == s
  }

  function FinishedJobs(t: Table): set<JobId> {
    set id | id in t && t[id].status.Terminal()
  }

  lemma ActiveSplits(t: Table)
    ensures |ActiveJobs(t)| == |InStatus(t, Assigned)| + |InStatus(t, Running)|
  {
    var a, b := InStatus(t, Assigned), InStatus(t, Running);
    assert ActiveJobs(t) == a + b && a !! b;
  }

  lemma FinishedSplits(t: Table)
    ensures |FinishedJobs(t)| == |InStatus(t, Succeeded)| + |InStatus(t, Failed)|
  {
    var a, b := InStatus(t, Succeeded), InStatus(t, Failed);
    assert FinishedJobs(t) == a + b && a !! b;
  }

  lemma TableSplits(t: Table)
    ensures |t.Keys| == |InStatus(t, Queued)| + |ActiveJobs(t)| + |FinishedJobs(t)|
  {
    var queued, others := InStatus(t, Queued), ActiveJobs(t) + FinishedJobs(t);
    assert t.Keys == queued + others && queued !! others;
    assert ActiveJobs(t) !! FinishedJobs(t);
  }

  /** CountByStatus always adds up to the number of jobs ever created. */
  lemma StatusCountsAddUp(es: seq<Event>, n: nat)
    requires n <= |es|
    ensures var t := At(es, n);
            |InStatus(t, Queued)| + |InStatus(t, Assigned)| + |InStatus(t, Running)|
            + |InStatus(t, Succeeded)| + |InStatus(t, Failed)| == |Created(es, n)|
  {
    TableHoldsCreated(es, n);
    TableSplits(At(es, n));
    ActiveSplits(At(es, n));
    FinishedSplits(At(es, n));
  }
}
