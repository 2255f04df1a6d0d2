/** The lease store: each method issues the statements of `DemandJobs` against the table it holds. */
module PgStore {
  import opened Prelude
  import opened Durations
  import opened DemandJobs
  import opened Ledger
  import opened RowHistory
  import opened Wire

  datatype Lease = Lease(agent: AgentId, expireAt: Time, fencingToken: int)

  datatype StoreError = JobNotFound | NoManifest | LeaseConflict | BadToken

  /** The jobs whose lease has lapsed, as ListExpiredLeases selects them. */
  function Expired(t: Table, now: Time): set<JobId> {
    set id | id in t && t[id].status.Active() && LeaseLapsed(t[id], now)
  }

  ghost predicate Listing(ids: seq<JobId>, jobs: set<JobId>) {
    Distinct(ids) && forall id :: id in ids <==> id in jobs
  }

  /** No manifest with a root CID has been attached to the job, as its history tells. */
  ghost predicate Unattached(history: seq<Event>, id: JobId) {
    var m := LastAttached(history, |history|, id);
    m.None? || m.value.rootCid == ""
  }

  lemma UnattachedRow(history: seq<Event>, id: JobId)
    requires id in Replay(map[], history)
    ensures var m := Replay(map[], history)[id].manifest;
            Unattached(history, id) <==> m.None? || m.value.rootCid == ""
  {
    assert history[..|history|] == history;
    ManifestIsLastAttached(history, |history|, id);
  }

  /** Statements never remove a job. */
  lemma {:induction false} StaysCreated(t: Table, es: seq<Event>, id: JobId)
    requires id in t
    ensures id in Replay(t, es)
  {
    if es != [] {
      StaysCreated(t, es[..|es| - 1], id);
    }
  }

  ghost predicate OldestFirst(t: Table, ids: seq<JobId>) {
    forall i, j :: 0 <= i < j < |ids| && ids[i] in t && ids[j] in t ==> t[ids[i]].createdAt <= t[ids[j]].createdAt
  }

  lemma {:induction false} Oldest(t: Table, ids: set<JobId>)
    requires ids != {} && ids <= t.Keys
    ensures exists id :: id in ids && forall other :: other in ids ==> t[id].createdAt <= t[other].createdAt
  {
    var pick :| pick in ids;
    if ids != {pick} {
      Oldest(t, ids - {pick});
      var m :| m in ids - {pick} && forall other :: other in ids - {pick} ==> t[m].createdAt <= t[other].createdAt;
      var id := if t[pick].createdAt <= t[m].createdAt then pick else m;
      assert forall other :: other in ids ==> other == pick || other in ids - {pick};
      assert id in ids && forall other :: other in ids ==> t[id].createdAt <= t[other].createdAt;
    }
  }

  class PGStore {
    var rows: Table

    constructor ()
      ensures rows == map[]
    {
      rows := map[];
    }

    /** INSERT ... ON CONFLICT DO NOTHING; every caller submits jobs as queued. */
    method CreateJob(id: JobId, image: string, command: seq<string>, status: Status, createdAt: Time)
      modifies this
      ensures id in old(rows) ==> rows == old(rows)
      ensures id !in old(rows) ==> rows == old(rows)[id := FreshRow(image, command, createdAt, status)]
      ensures forall now :: status.Queued? ==>
                rows == Exec(old(rows), Event(now, Insert(id, image, command, createdAt)))
    {
      if id !in rows {
        rows := rows[id := FreshRow(image, command, createdAt, status)];
      }
    }

    method AttachManifest(id: JobId, manifest: Manifest, now: Time) returns (r: Result<(), StoreError>)
      modifies this
      ensures rows == Exec(old(rows), Event(now, Attach(id, manifest)))
      ensures r == if id in old(rows) then Ok(()) else Err(JobNotFound)
    {
      if id !in rows {
        return Err(JobNotFound);
      }
      rows := rows[id := rows[id].(manifest := Some(manifest))];
      r := Ok(());
    }

    /** Statements of other sessions, executed between two of ours. */
    method ExecuteAll(es: seq<Event>)
      modifies this
      ensures rows == Replay(old(rows), es)
    {
      var i := 0;
      while i < |es|
        invariant i <= |es| && rows == Replay(old(rows), es[..i])
      {
        assert es[..i + 1][..i] == es[..i];
        rows := Exec(rows, es[i]);
        i := i + 1;
      }
      assert es[..i] == es;
    }

    /**
     On success the caller holds a lease no earlier token can renew. A refused claim changes nothing
     itself; the two reads that look for the reason come later, after the statements of others in
     `beforeGet` and `beforeCheck`, so the reason given is that of the rows they find: a job without
     a manifest is refused for that, whatever its lease, and any other as a conflict.
     */
    method TryClaim(
      id: JobId, agent: AgentId, ttl: Duration, now: Time, beforeGet: seq<Event>, beforeCheck: seq<Event>)
      returns (r: Result<Lease, StoreError>)
      modifies this
      ensures r.Ok? <==> Hits(old(rows), Event(now, Claim(id, agent, ttl)))
      ensures r.Ok? ==>
                && rows == Exec(old(rows), Event(now, Claim(id, agent, ttl)))
                && r.value == Lease(agent, now + LeaseLength(ttl), old(rows)[id].token + 1)
                && rows[id].agent == Some(r.value.agent)
                && rows[id].expiry == Some(r.value.expireAt)
                && rows[id].token == r.value.fencingToken
      ensures r.Err? ==>
                var atGet := Replay(old(rows), beforeGet);
                if id !in atGet then r.error == JobNotFound && rows == atGet
                else
                  && rows == Replay(atGet, beforeCheck)
                  && id in rows
                  && r.error in {NoManifest, LeaseConflict}
                  && (r.error == NoManifest <==> rows[id].manifest.None? || rows[id].manifest.value.rootCid == "")
      ensures r.Err? && r.error != JobNotFound ==>
                forall history :: old(rows) == Replay(map[], history) ==>
                  (r.error == NoManifest <==> Unattached(history + beforeGet + beforeCheck, id))
    {
      if id in rows && rows[id].status.Queued? && (rows[id].expiry.None? || rows[id].expiry.value < now) {
        var row := rows[id];
        rows := rows[id := row.(agent := Some(agent),
                                expiry := Some(now + WholeSeconds(ttl) * SECOND),
                                token := row.token + 1,
                                status := Assigned)];
        return Ok(Lease(agent, rows[id].expiry.value, rows[id].token));
      }
      ExecuteAll(beforeGet);
      if id !in rows {
        return Err(JobNotFound);
      }
      StaysCreated(rows, beforeCheck, id);
      ExecuteAll(beforeCheck);
      var manifest := rows[id].manifest;
      r := Err(if manifest.None? || manifest.value.rootCid == "" then NoManifest else LeaseConflict);
      forall history | old(rows) == Replay(map[], history)
        ensures r.error == NoManifest <==> Unattached(history + beforeGet + beforeCheck, id)
      {
        ReplayConcat(map[], history, beforeGet);
        ReplayConcat(map[], history + beforeGet, beforeCheck);
        UnattachedRow(history + beforeGet + beforeCheck, id);
      }
    }

    method Heartbeat(id: JobId, agent: AgentId, token: Uint64, ttl: Duration, now: Time)
      returns (r: Result<(), StoreError>)
      modifies this
      ensures rows == Exec(old(rows), Event(now, Beat(id, agent, AsInt64(token), ttl)))
      ensures r == if Hits(old(rows), Event(now, Beat(id, agent, AsInt64(token), ttl))) then Ok(()) else Err(BadToken)
    {
      if id !in rows || rows[id].agent != Some(agent) || rows[id].token != AsInt64(token) {
        return Err(BadToken);
      }
      rows := rows[id := rows[id].(expiry := Some(now + WholeSeconds(ttl) * SECOND), status := Running)];
      r := Ok(());
    }

    /** Reports success to its caller whether or not a row matched. */
    method Finish(id: JobId, agent: AgentId, token: Uint64, outcome: Outcome, now: Time)
      modifies this
      ensures rows == Exec(old(rows), Event(now, Statement.Finish(id, agent, AsInt64(token), outcome)))
    {
      if id in rows {
        var row := rows[id];
        if (row.agent == Some(agent) || row.agent.None?) && row.token <= AsInt64(token) {
          rows := rows[id := row.(status := outcome.Final(),
                                  report := Some(outcome.report),
                                  agent := None,
                                  expiry := None)];
        }
      }
    }

    /** Ids come back in no particular order; `cutoff` is ignored in favour of the store clock. */
    method ListExpiredLeases(cutoff: Time, now: Time) returns (ids: seq<JobId>)
      ensures Listing(ids, Expired(rows, now))
    {
      ids := [];
      var todo := Expired(rows, now);
      while todo != {}
        invariant todo <= Expired(rows, now)
        invariant Listing(ids, Expired(rows, now) - todo)
      {
        var id :| id in todo;
        assert id !in ids;
        ids, todo := ids + [id], todo - {id};
      }
    }

    method SetStatusQueued(id: JobId, now: Time) returns (r: Result<(), StoreError>)
      modifies this
      ensures rows == Exec(old(rows), Event(now, Requeue(id)))
      ensures r == if id in Expired(old(rows), now) then Ok(()) else Err(JobNotFound)
      ensures r.Ok? <==> Hits(old(rows), Event(now, Requeue(id)))
    {
      if id !in rows || !rows[id].status.Active() || rows[id].expiry.None? || rows[id].expiry.value >= now {
        return Err(JobNotFound);
      }
      var row := rows[id];
      rows := rows[id := row.(status := Queued, agent := None, expiry := None, retries := row.retries + 1)];
      r := Ok(());
    }

    /** ORDER BY created_at ASC */
    method ListQueued() returns (ids: seq<JobId>)
      ensures Listing(ids, InStatus(rows, Queued))
      ensures forall id :: id in ids <==> id in rows && rows[id].status == Queued
      ensures forall i, j :: 0 <= i < j < |ids| ==>
                ids[i] in rows && ids[j] in rows && rows[ids[i]].createdAt <= rows[ids[j]].createdAt
    {
      ids := [];
      var todo := InStatus(rows, Queued);
      while todo != {}
        invariant todo <= InStatus(rows, Queued)
        invariant Listing(ids, InStatus(rows, Queued) - todo)
        invariant OldestFirst(rows, ids)
        invariant forall i, id :: 0 <= i < |ids| && ids[i] in rows && id in todo ==>
                    rows[ids[i]].createdAt <= rows[id].createdAt
      {
        Oldest(rows, todo);
        var id :| id in todo && forall other :: other in todo ==> rows[id].createdAt <= rows[other].createdAt;
        assert id !in ids;
        ids, todo := ids + [id], todo - {id};
      }
    }

    /** GROUP BY status: a status is listed iff some job is in it, with the number of such jobs. */
    method CountByStatus() returns (counts: map<Status, int>)
      ensures forall s :: s in counts <==> InStatus(rows, s) != {}
      ensures forall s :: s in counts ==> counts[s] == |InStatus(rows, s)|
      ensures forall s :: s in counts ==> InStatus(rows, s) == set id | id in rows && rows[id].status == s
    {
      counts := map[];
      var todo := set id | id in rows :: rows[id].status;
      forall s
        ensures InStatus(rows, s) != {} <==> s in todo
      {
        if s in todo {
          var id :| id in rows && rows[id].status == s;
          assert id in InStatus(rows, s);
        }
      }
      while todo != {}
        invariant forall s :: InStatus(rows, s) != {} <==> s in todo || s in counts
        invariant forall s :: s in counts ==> counts[s] == |InStatus(rows, s)|
      {
        var s :| s in todo;
        counts, todo := counts[s := |InStatus(rows, s)|], todo - {s};
      }
    }
  }
}
