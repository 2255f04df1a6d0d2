/** The control loops that return lapsed leases to the queue and re-announce what is queued. */
module Sweep {
  import opened Prelude
  import opened Durations
  import opened DemandJobs
  import opened LeaseInvariants
  import opened Ledger
  import opened PgStore
  import Announce

  // ---------- interference ----------

  /** Statement `i`, executed from table `t`, renews, closes or requeues the job's lease. */
  predicate Interferes(t: Table, es: seq<Event>, i: nat, id: JobId) {
    && i < |es| && es[i].stmt.id == id
    && (es[i].stmt.Beat? || es[i].stmt.Finish? || es[i].stmt.Requeue?)
    && Hits(Replay(t, es[..i]), es[i])
  }

  /** A lapsed lease nobody interferes with stays lapsed. */
  lemma {:induction false} StaysLapsed(t: Table, es: seq<Event>, j: nat, id: JobId, now: Time)
    requires j <= |es| && id in Expired(t, now)
    requires forall i :: 0 <= i < j ==> !Interferes(t, es, i, id)
    ensures id in Expired(Replay(t, es[..j]), now)
  {
    if j == 0 {
      assert es[..0] == [];
    } else {
      StaysLapsed(t, es, j - 1, id, now);
      assert es[..j][..j - 1] == es[..j - 1];
      assert !Interferes(t, es, j - 1, id);
    }
  }

  /**
   Sweep under interference: whatever statements `es` are executed between the scan and the update,
   a scanned job that the update does not hit was renewed, finished or requeued by one of them.
   */
  lemma SweepUnderInterference(t: Table, es: seq<Event>, id: JobId, scanAt: Time, now: Time)
    requires id in Expired(t, scanAt) && scanAt <= now
    ensures Hits(Replay(t, es), Event(now, Requeue(id))) || exists i :: 0 <= i < |es| && Interferes(t, es, i, id)
  {
    if forall i :: 0 <= i < |es| ==> !Interferes(t, es, i, id) {
      StaysLapsed(t, es, |es|, id, scanAt);
      assert es[..|es|] == es;
    }
  }

  // ---------- the sweep ----------

  /** What other sessions execute before the next update, and the clock at that update. */
  datatype Turn = Turn(others: seq<Event>, now: Time)

  function UpdateOf(ids: seq<JobId>, turns: nat -> Turn, k: nat): Event
    requires k < |ids|
  {
    Event(turns(k).now, Requeue(ids[k]))
  }

  /** The table after the first `n` turns of a sweep over `ids`. */
  ghost function SweepRun(t: Table, ids: seq<JobId>, turns: nat -> Turn, n: nat): Table
    requires n <= |ids|
    decreases n, 0
  {
    if n == 0 then t else Exec(Found(t, ids, turns, n - 1), UpdateOf(ids, turns, n - 1))
  }

  /** The table that the update of the `k`-th scanned job finds. */
  ghost function Found(t: Table, ids: seq<JobId>, turns: nat -> Turn, k: nat): Table
    requires k < |ids|
    decreases k, 1
  {
    Replay(SweepRun(t, ids, turns, k), turns(k).others)
  }

  ghost predicate Requeued(t: Table, ids: seq<JobId>, turns: nat -> Turn, k: nat)
    requires k < |ids|
  {
    Hits(Found(t, ids, turns, k), UpdateOf(ids, turns, k))
  }

  /** The scanned jobs whose updates hit, among the first `n`. */
  ghost function RequeuedJobs(t: Table, ids: seq<JobId>, turns: nat -> Turn, n: nat): set<JobId>
    requires n <= |ids|
  {
    if n == 0 then {}
    else
      RequeuedJobs(t, ids, turns, n - 1) + if Requeued(t, ids, turns, n - 1) then {ids[n - 1]} else {}
  }

  /** Others execute, then one scanned job is returned to the queue and announced, if its lease is still lapsed. */
  method RequeueOne(store: PGStore, mgr: Announce.AnnounceManager, id: JobId, turn: Turn)
    modifies store, mgr`dirty, mgr`trigger
    ensures var found, e := Replay(old(store.rows), turn.others), Event(turn.now, Requeue(id));
            && store.rows == Exec(found, e)
            && mgr.dirty == old(mgr.dirty) + (if Hits(found, e) then {id} else {})
            && mgr.trigger == (old(mgr.trigger) || Hits(found, e))
  {
    store.ExecuteAll(turn.others);
    var r := store.SetStatusQueued(id, turn.now);
    if r.Ok? {
      mgr.Enqueue(id);
    }
  }

  /** One round of the requeue loop: scan, then update and announce job by job. */
  method RequeueSweep(store: PGStore, mgr: Announce.AnnounceManager, scanAt: Time, turns: nat -> Turn)
    returns (expired: seq<JobId>)
    modifies store, mgr`dirty, mgr`trigger
    ensures Listing(expired, Expired(old(store.rows), scanAt))
    ensures store.rows == SweepRun(old(store.rows), expired, turns, |expired|)
    ensures mgr.dirty == old(mgr.dirty) + RequeuedJobs(old(store.rows), expired, turns, |expired|)
    ensures mgr.trigger <==> old(mgr.trigger) || RequeuedJobs(old(store.rows), expired, turns, |expired|) != {}
  {
    expired := store.ListExpiredLeases(scanAt - 3 * SECOND, scanAt);
    ghost var start := store.rows;
    var n := 0;
    while n < |expired|
      invariant n <= |expired|
      invariant store.rows == SweepRun(start, expired, turns, n)
      invariant mgr.dirty == old(mgr.dirty) + RequeuedJobs(start, expired, turns, n)
      invariant mgr.trigger <==> old(mgr.trigger) || RequeuedJobs(start, expired, turns, n) != {}
    {
      RequeueOne(store, mgr, expired[n], turns(n));
      n := n + 1;
    }
  }

  /** Everything executed up to the `n`-th update, by the sweep and by others, in order. */
  ghost function Woven(ids: seq<JobId>, turns: nat -> Turn, n: nat): seq<Event>
    requires n <= |ids|
  {
    if n == 0 then [] else Woven(ids, turns, n - 1) + turns(n - 1).others + [UpdateOf(ids, turns, n - 1)]
  }

  lemma {:induction false} WovenRuns(t: Table, ids: seq<JobId>, turns: nat -> Turn, n: nat)
    requires n <= |ids|
    ensures SweepRun(t, ids, turns, n) == Replay(t, Woven(ids, turns, n))
  {
    if n > 0 {
      WovenRuns(t, ids, turns, n - 1);
      ReplayConcat(t, Woven(ids, turns, n - 1), turns(n - 1).others);
      ReplaySnoc(t, Woven(ids, turns, n - 1) + turns(n - 1).others, UpdateOf(ids, turns, n - 1));
    }
  }

  /** Everything executed between the scan and the update of the `k`-th scanned job. */
  ghost function Meanwhile(ids: seq<JobId>, turns: nat -> Turn, k: nat): seq<Event>
    requires k < |ids|
  {
    Woven(ids, turns, k) + turns(k).others
  }

  /**
   Every job a sweep scanned is returned to the queue and announced, unless another statement
   renewed, finished or requeued it after the scan and before its turn.
   */
  lemma SweepMissesOnlyInterference(t: Table, ids: seq<JobId>, turns: nat -> Turn, scanAt: Time, k: nat)
    requires Listing(ids, Expired(t, scanAt)) && k < |ids|
    requires scanAt <= turns(k).now
    ensures Requeued(t, ids, turns, k) ||
            exists i :: 0 <= i < |Meanwhile(ids, turns, k)| && Interferes(t, Meanwhile(ids, turns, k), i, ids[k])
  {
    WovenRuns(t, ids, turns, k);
    ReplayConcat(t, Woven(ids, turns, k), turns(k).others);
    assert ids[k] in ids;
    SweepUnderInterference(t, Meanwhile(ids, turns, k), ids[k], scanAt, turns(k).now);
  }

  // ---------- recovery ----------

  function Unfinished(t: Table): set<JobId> {
    set id | id in t && !t[id].status.Terminal()
  }

  /** No job is orphaned: in every reachable state an unfinished job is queued or has a lease that will lapse. */
  lemma NoOrphans(es: seq<Event>, i: nat, id: JobId)
    requires i <= |es| && id in Unfinished(At(es, i))
    ensures id in InStatus(At(es, i), Queued) || (At(es, i)[id].status.Active() && At(es, i)[id].expiry.Some?)
  {
    RowCoherence(es, i, id);
  }

  /** The table with the leases of some jobs returned to the queue and every other row as it was. */
  function Swept(t: Table, jobs: set<JobId>): Table {
    map id | id in t :: if id in jobs then Updated(t[id], 0, Requeue(id)) else t[id]
  }

  lemma SweptStep(t: Table, jobs: set<JobId>, id: JobId, scanAt: Time, now: Time)
    requires id in Expired(t, scanAt) && id !in jobs && scanAt <= now
    ensures Hits(Swept(t, jobs), Event(now, Requeue(id)))
    ensures Exec(Swept(t, jobs), Event(now, Requeue(id))) == Swept(t, jobs + {id})
  {
  }

  function Elements(ids: seq<JobId>): set<JobId> {
    set id | id in ids
  }

  lemma NextListed(ids: seq<JobId>, n: nat)
    requires n < |ids|
    requires Distinct(ids)
    ensures ids[n] !in Elements(ids[..n])
    ensures Elements(ids[..n + 1]) == Elements(ids[..n]) + {ids[n]}
  {
    assert ids[..n + 1] == ids[..n] + [ids[n]];
  }

  /** Nobody executes anything during the first `n` turns, and the clock does not run backwards. */
  ghost predicate Quiet(turns: nat -> Turn, scanAt: Time, n: nat) {
    forall k: nat :: k < n ==> turns(k).others == [] && scanAt <= turns(k).now
  }

  lemma QuietFound(t: Table, ids: seq<JobId>, turns: nat -> Turn, scanAt: Time, k: nat, n: nat)
    requires k < |ids| && k < n && Quiet(turns, scanAt, n)
    ensures Found(t, ids, turns, k) == SweepRun(t, ids, turns, k)
  {
    assert turns(k).others == [];
  }

  /** A sweep nobody interferes with requeues exactly the jobs it scanned and leaves every other row alone. */
  lemma {:induction false} QuietSweep(t: Table, ids: seq<JobId>, turns: nat -> Turn, scanAt: Time, n: nat)
    requires Listing(ids, Expired(t, scanAt)) && n <= |ids| && Quiet(turns, scanAt, n)
    ensures SweepRun(t, ids, turns, n) == Swept(t, Elements(ids[..n]))
  {
    if n == 0 {
      assert Elements(ids[..0]) == {} && Swept(t, {}) == t;
    } else {
      QuietSweep(t, ids, turns, scanAt, n - 1);
      QuietFound(t, ids, turns, scanAt, n - 1, n);
      NextListed(ids, n - 1);
      assert ids[n - 1] in ids && scanAt <= turns(n - 1).now;
      SweptStep(t, Elements(ids[..n - 1]), ids[n - 1], scanAt, turns(n - 1).now);
    }
  }

  lemma QuietRequeued(t: Table, ids: seq<JobId>, turns: nat -> Turn, scanAt: Time, k: nat, n: nat)
    requires Listing(ids, Expired(t, scanAt)) && k < n <= |ids| && Quiet(turns, scanAt, n)
    ensures Requeued(t, ids, turns, k)
  {
    QuietSweep(t, ids, turns, scanAt, k);
    QuietFound(t, ids, turns, scanAt, k, n);
    NextListed(ids, k);
    assert ids[k] in ids && scanAt <= turns(k).now;
    SweptStep(t, Elements(ids[..k]), ids[k], scanAt, turns(k).now);
  }

  /** And every one of them is announced. */
  lemma {:induction false} QuietSweepAnnounces(t: Table, ids: seq<JobId>, turns: nat -> Turn, scanAt: Time, n: nat)
    requires Listing(ids, Expired(t, scanAt)) && n <= |ids| && Quiet(turns, scanAt, n)
    ensures RequeuedJobs(t, ids, turns, n) == Elements(ids[..n])
  {
    if n == 0 {
      assert Elements(ids[..0]) == {};
    } else {
      QuietSweepAnnounces(t, ids, turns, scanAt, n - 1);
      QuietRequeued(t, ids, turns, scanAt, n - 1, n);
      NextListed(ids, n - 1);
    }
  }

  /** Once every lease has lapsed, returning the lapsed ones leaves exactly the unfinished jobs queued. */
  lemma SweptIsUnfinished(t: Table, now: Time)
    requires CoherentTable(t)
    requires forall id :: id in t && t[id].expiry.Some? ==> t[id].expiry.value < now
    ensures Unfinished(t) == InStatus(t, Queued) + Expired(t, now)
    ensures InStatus(Swept(t, Expired(t, now)), Queued) == Unfinished(t) == Unfinished(Swept(t, Expired(t, now)))
  {
    forall id | id in t
      ensures !t[id].status.Terminal() <==> t[id].status.Queued? || id in Expired(t, now)
    {
      assert Coherent(t[id]);
    }
  }

  /** Re-announce every queued job, as on restart and on every re-announce tick. */
  method RestoreJobs(store: PGStore, mgr: Announce.AnnounceManager)
    modifies mgr`dirty, mgr`trigger
    ensures mgr.dirty == old(mgr.dirty) + InStatus(store.rows, Queued)
    ensures mgr.trigger <==> old(mgr.trigger) || InStatus(store.rows, Queued) != {}
  {
    var jobs := store.ListQueued();
    var n := 0;
    while n < |jobs|
      invariant n <= |jobs|
      invariant mgr.dirty == old(mgr.dirty) + set id | id in jobs[..n]
      invariant mgr.trigger <==> old(mgr.trigger) || n > 0
    {
      mgr.Enqueue(jobs[n]);
      assert jobs[..n + 1] == jobs[..n] + [jobs[n]];
      n := n + 1;
    }
    assert jobs[..n] == jobs;
    assert jobs != [] ==> jobs[0] in InStatus(store.rows, Queued);
    assert forall id :: id in InStatus(store.rows, Queued) ==> id in jobs;
  }

  /** The jobs a sweep requeued are among those announced. */
  lemma {:induction false} RequeuedIsAnnounced(t: Table, ids: seq<JobId>, turns: nat -> Turn, k: nat, n: nat)
    requires k < n <= |ids| && Requeued(t, ids, turns, k)
    ensures ids[k] in RequeuedJobs(t, ids, turns, n)
  {
    if k + 1 < n {
      RequeuedIsAnnounced(t, ids, turns, k, n - 1);
    }
  }

  /** Someone renewed, finished or requeued the job between the restore and its turn in the sweep. */
  ghost predicate Overtaken(t: Table, beforeScan: seq<Event>, ids: seq<JobId>, turns: nat -> Turn, id: JobId) {
    || (exists i :: 0 <= i < |beforeScan| && Interferes(t, beforeScan, i, id))
    || (exists k, i :: 0 <= k < |ids| && 0 <= i && ids[k] == id &&
          Interferes(Replay(t, beforeScan), Meanwhile(ids, turns, k), i, id))
  }

  /** After restoring the queued jobs and one sweep, an unfinished job is announced or was overtaken. */
  lemma RestoredOrOvertaken(
    t: Table, beforeScan: seq<Event>, ids: seq<JobId>, turns: nat -> Turn, now: Time, id: JobId)
    requires CoherentTable(t) && Listing(ids, Expired(Replay(t, beforeScan), now))
    requires forall k: nat :: k < |ids| ==> now <= turns(k).now
    requires forall id :: id in t && t[id].expiry.Some? ==> t[id].expiry.value < now
    requires id in Unfinished(t)
    ensures id in InStatus(t, Queued) + RequeuedJobs(Replay(t, beforeScan), ids, turns, |ids|) ||
            Overtaken(t, beforeScan, ids, turns, id)
  {
    SweptIsUnfinished(t, now);
    if id !in InStatus(t, Queued) && !Overtaken(t, beforeScan, ids, turns, id) {
      StaysLapsed(t, beforeScan, |beforeScan|, id, now);
      assert beforeScan[..|beforeScan|] == beforeScan;
      assert id in ids;
      var k :| 0 <= k < |ids| && ids[k] == id;
      SweepMissesOnlyInterference(Replay(t, beforeScan), ids, turns, now, k);
      RequeuedIsAnnounced(Replay(t, beforeScan), ids, turns, k, |ids|);
    }
  }

  /** A recovery nobody interferes with queues and announces exactly the unfinished jobs. */
  lemma QuietRecovery(t: Table, ids: seq<JobId>, turns: nat -> Turn, now: Time)
    requires CoherentTable(t) && Listing(ids, Expired(t, now)) && Quiet(turns, now, |ids|)
    requires forall id :: id in t && t[id].expiry.Some? ==> t[id].expiry.value < now
    ensures SweepRun(t, ids, turns, |ids|) == Swept(t, Expired(t, now))
    ensures InStatus(Swept(t, Expired(t, now)), Queued) == Unfinished(Swept(t, Expired(t, now))) == Unfinished(t)
    ensures InStatus(t, Queued) + RequeuedJobs(t, ids, turns, |ids|) == Unfinished(t)
  {
    SweptIsUnfinished(t, now);
    QuietSweep(t, ids, turns, now, |ids|);
    QuietSweepAnnounces(t, ids, turns, now, |ids|);
    assert ids[..|ids|] == ids;
    assert Elements(ids) == Expired(t, now);
  }

  /** Whatever others execute in between, a sweep leaves the table coherent. */
  lemma CoherentSweep(t: Table, ids: seq<JobId>, turns: nat -> Turn)
    requires CoherentTable(t)
    ensures CoherentTable(SweepRun(t, ids, turns, |ids|))
  {
    WovenRuns(t, ids, turns, |ids|);
    CoherentReplay(t, Woven(ids, turns, |ids|));
  }

  /**
   Recovery: a control server that starts with nothing but the table, at a time when every lease has
   lapsed, announces every unfinished job in its first restore and sweep, except for jobs that
   another session renewed, finished or requeued meanwhile. If no session does, exactly the
   unfinished jobs end up queued and to be announced.
   */
  method Restart(store: PGStore, now: Time, beforeScan: seq<Event>, turns: nat -> Turn)
    returns (mgr: Announce.AnnounceManager, expired: seq<JobId>)
    requires CoherentTable(store.rows)
    requires forall id :: id in store.rows && store.rows[id].expiry.Some? ==> store.rows[id].expiry.value < now
    requires forall k: nat :: now <= turns(k).now
    modifies store
    ensures fresh(mgr) && mgr.interval == 3 * SECOND && CoherentTable(store.rows)
    ensures mgr.trigger <==> mgr.dirty != {}
    ensures var scanned := Replay(old(store.rows), beforeScan);
            && Listing(expired, Expired(scanned, now))
            && store.rows == SweepRun(scanned, expired, turns, |expired|)
            && mgr.dirty == InStatus(old(store.rows), Queued) + RequeuedJobs(scanned, expired, turns, |expired|)
    ensures forall id :: id in Unfinished(old(store.rows)) ==>
              id in mgr.dirty || Overtaken(old(store.rows), beforeScan, expired, turns, id)
    ensures beforeScan == [] && Quiet(turns, now, |expired|) ==>
              && store.rows == Swept(old(store.rows), Expired(old(store.rows), now))
              && InStatus(store.rows, Queued) == Unfinished(store.rows) == Unfinished(old(store.rows)) == mgr.dirty
  {
    ghost var t := store.rows;
    mgr := new Announce.AnnounceManager(3 * SECOND);
    RestoreJobs(store, mgr);
    store.ExecuteAll(beforeScan);
    expired := RequeueSweep(store, mgr, now, turns);
    CoherentReplay(t, beforeScan);
    CoherentSweep(Replay(t, beforeScan), expired, turns);
    forall id | id in Unfinished(t)
      ensures id in mgr.dirty || Overtaken(t, beforeScan, expired, turns, id)
    {
      RestoredOrOvertaken(t, beforeScan, expired, turns, now, id);
    }
    if beforeScan == [] && Quiet(turns, now, |expired|) {
      QuietRecovery(t, expired, turns, now);
    }
  }
}
