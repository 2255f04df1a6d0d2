/** What each column of a row says about the statements that reached the job, in every run. */
module RowHistory {
  import opened Prelude
  import opened Durations
  import opened DemandJobs
  import opened LeaseInvariants

  // ---------- submission ----------

  /** The statement that created the job: the first insert of its id. */
  ghost function CreatedBy(es: seq<Event>, n: nat, id: JobId): Option<Statement>
    requires n <= |es|
  {
    if n == 0 then None
    else
      var before := CreatedBy(es, n - 1, id);
      if before.None? && es[n - 1].stmt.Insert? && es[n - 1].stmt.id == id then Some(es[n - 1].stmt) else before
  }

  /** A job keeps the image, command and creation time it was first submitted with; nothing changes them later. */
  lemma {:induction false} SubmissionKept(es: seq<Event>, n: nat, id: JobId)
    requires n <= |es|
    ensures id in At(es, n) <==> CreatedBy(es, n, id).Some?
    ensures id in At(es, n) ==>
              var row, s := At(es, n)[id], CreatedBy(es, n, id).value;
              s == Insert(id, row.image, row.command, row.createdAt)
  {
    if n > 0 {
      SubmissionKept(es, n - 1, id);
      Unroll(es, n - 1);
    }
  }

  // ---------- manifest ----------

  /** The manifest of the last attachment that found the job. */
  ghost function LastAttached(es: seq<Event>, n: nat, id: JobId): Option<Manifest>
    requires n <= |es|
  {
    if n == 0 then None
    else
      var s := es[n - 1].stmt;
      if s.Attach? && s.id == id && CreatedBy(es, n - 1, id).Some? then Some(s.manifest)
      else LastAttached(es, n - 1, id)
  }

  /** A row's manifest is the last one attached; claims, finishes and requeues leave it alone. */
  lemma {:induction false} ManifestIsLastAttached(es: seq<Event>, n: nat, id: JobId)
    requires n <= |es|
    ensures id in At(es, n) ==> At(es, n)[id].manifest == LastAttached(es, n, id)
    ensures id !in At(es, n) ==> LastAttached(es, n, id).None?
  {
    if n > 0 {
      ManifestIsLastAttached(es, n - 1, id);
      SubmissionKept(es, n - 1, id);
      Unroll(es, n - 1);
    }
  }

  // ---------- status, lease and result ----------

  /** The last statement other than an attachment that affected the job, and when. */
  ghost function LastHit(es: seq<Event>, n: nat, id: JobId): Option<Event>
    requires n <= |es|
  {
    if n == 0 then None
    else
      var e := es[n - 1];
      if e.stmt.id == id && !e.stmt.Attach? && Hits(At(es, n - 1), e) then Some(e) else LastHit(es, n - 1, id)
  }

  /** The row is what this statement leaves behind. */
  predicate LeftBy(row: Row, e: Event) {
    match e.stmt
    case Insert(_, _, _, _) => row.status == Queued
    case Attach(_, _) => false
    case Claim(_, agent, ttl) =>
      row.status == Assigned && row.agent == Some(agent) && row.expiry == Some(e.now + LeaseLength(ttl))
    case Beat(_, agent, token, ttl) =>
      && row.status == Running && row.agent == Some(agent) && row.token == token
      && row.expiry == Some(e.now + LeaseLength(ttl))
    case Finish(_, _, _, outcome) =>
      row.status == (if outcome.succeeded then Succeeded else Failed) && row.report == Some(outcome.report)
    case Requeue(_) => row.status == Queued
  }

  lemma LeftByStep(t: Table, e: Event, id: JobId)
    requires id in Exec(t, e)
    ensures e.stmt.id == id && !e.stmt.Attach? && Hits(t, e) ==> LeftBy(Exec(t, e)[id], e)
    ensures !(e.stmt.id == id && !e.stmt.Attach? && Hits(t, e)) ==>
              id in t && forall last :: LeftBy(t[id], last) ==> LeftBy(Exec(t, e)[id], last)
  {
  }

  /** In every run, well behaved or not, status, lease and result are those of the last statement to affect the job. */
  lemma {:induction false} RowIsLastHit(es: seq<Event>, n: nat, id: JobId)
    requires n <= |es| && id in At(es, n)
    ensures LastHit(es, n, id).Some? && LeftBy(At(es, n)[id], LastHit(es, n, id).value)
  {
    var t, e := At(es, n - 1), es[n - 1];
    Unroll(es, n - 1);
    LeftByStep(t, e, id);
    if !(e.stmt.id == id && !e.stmt.Attach? && Hits(t, e)) {
      RowIsLastHit(es, n - 1, id);
    }
  }

  /** A heartbeat has been accepted since the job was last granted. */
  ghost predicate BeatSinceGrant(es: seq<Event>, n: nat, id: JobId)
    requires n <= |es|
  {
    n > 0 &&
    var e := es[n - 1];
    if e.stmt.id == id && e.stmt.Claim? && Hits(At(es, n - 1), e) then false
    else if e.stmt.id == id && e.stmt.Beat? && Hits(At(es, n - 1), e) then true
    else BeatSinceGrant(es, n - 1, id)
  }

  /** In every run a leased job is running if its holder has beaten since the grant, and otherwise only assigned. */
  lemma {:induction false} RunningIff(es: seq<Event>, n: nat, id: JobId)
    requires n <= |es| && id in At(es, n) && At(es, n)[id].status.Active()
    ensures At(es, n)[id].status == if BeatSinceGrant(es, n, id) then Running else Assigned
  {
    Unroll(es, n - 1);
    if id in At(es, n - 1) {
      RowCoherence(es, n - 1, id);
      if At(es, n - 1)[id].status.Active() {
        RunningIff(es, n - 1, id);
      }
    }
  }
}
