/** What every statement keeps, for every sequence of statements whatever messages caused them. */
module LeaseInvariants {
  import opened Prelude
  import opened DemandJobs

  /**
   A row is coherent when its lease columns agree with its status, and its fencing token
   counts its requeues: a queued row has been requeued once per grant, a leased row once less.
   */
  predicate Coherent(row: Row) {
    && (row.status.Active() <==> row.agent.Some?)
    && (row.status.Active() <==> row.expiry.Some?)
    && (row.status.Terminal() <==> row.report.Some?)
    && row.retries >= 0
    && (row.status.Queued? ==> row.token == row.retries)
    && (row.status.Active() ==> row.token == row.retries + 1)
    && (row.status.Terminal() ==> row.retries <= row.token <= row.retries + 1)
  }

  ghost predicate CoherentTable(t: Table) {
    forall id :: id in t ==> Coherent(t[id])
  }

  lemma CoherentStep(t: Table, e: Event)
    requires CoherentTable(t)
    ensures CoherentTable(Exec(t, e))
  {
  }

  lemma {:induction false} CoherentReplay(t: Table, es: seq<Event>)
    requires CoherentTable(t)
    ensures CoherentTable(Replay(t, es))
  {
    if es != [] {
      CoherentReplay(t, es[..|es| - 1]);
      CoherentStep(Replay(t, es[..|es| - 1]), es[|es| - 1]);
    }
  }

  /** Every reachable row is coherent; hence a claim on an existing job succeeds iff it is queued. */
  lemma RowCoherence(es: seq<Event>, i: nat, id: JobId)
    requires i <= |es|
    requires id in At(es, i)
    ensures Coherent(At(es, i)[id])
    ensures forall now, agent, ttl ::
              Hits(At(es, i), Event(now, Claim(id, agent, ttl))) <==> At(es, i)[id].status.Queued?
  {
    CoherentReplay(map[], es[..i]);
  }

  /** A finished job stays finished under its token, although a heartbeat never tests the status. */
  lemma {:induction false} TerminalSticky(es: seq<Event>, i: nat, j: nat, id: JobId)
    requires i <= j <= |es|
    requires id in At(es, i) && At(es, i)[id].status.Terminal()
    ensures id in At(es, j) && At(es, j)[id].status.Terminal()
    ensures At(es, j)[id].token == At(es, i)[id].token
    ensures At(es, j)[id].retries == At(es, i)[id].retries
  {
    if i < j {
      TerminalSticky(es, i, j - 1, id);
      RowCoherence(es, j - 1, id);
      Unroll(es, j - 1);
    }
  }

  /** Jobs are never deleted and fencing tokens never decrease. */
  lemma {:induction false} TokenMonotone(es: seq<Event>, i: nat, j: nat, id: JobId)
    requires i <= j <= |es|
    requires id in At(es, i)
    ensures id in At(es, j)
    ensures At(es, i)[id].token <= At(es, j)[id].token
    ensures At(es, i)[id].retries <= At(es, j)[id].retries
  {
    if i < j {
      TokenMonotone(es, i, j - 1, id);
      Unroll(es, j - 1);
    }
  }
}
