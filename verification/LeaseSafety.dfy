/**
 Safety of the lease over whole runs. A run is any sequence of statements under a clock that
 never runs backwards, so deliveries may be delayed, duplicated, reordered or lost. The first
 results hold for every run; the later ones for runs in which agents are well behaved.
 */
module LeaseSafety {
  import opened Prelude
  import opened Durations
  import opened DemandJobs
  import opened LeaseInvariants

  // ---------- exclusive lease intervals ----------

  /** The fencing token and expiry that a statement writes into the job's lease, if any. */
  function LeaseWritten(t: Table, e: Event, id: JobId): Option<(int, Time)> {
    if e.stmt.id == id && (e.stmt.Claim? || e.stmt.Beat?) && Hits(t, e) then
      Some((Updated(t[id], e.now, e.stmt).token, e.now + LeaseLength(e.stmt.ttl)))
    else
      None
  }

  /** The expiry under a token after one more statement, given the one before it. */
  function NextExpiry(t: Table, e: Event, id: JobId, token: int, before: Option<Time>): Option<Time> {
    var w := LeaseWritten(t, e, id);
    if w.Some? && w.value.0 == token then Some(w.value.1) else before
  }

  /** The grant time of a token after one more statement, given the one before it. */
  function NextGrant(t: Table, e: Event, id: JobId, token: int, before: Option<Time>): Option<Time> {
    var w := LeaseWritten(t, e, id);
    if w.Some? && w.value.0 == token && e.stmt.Claim? then Some(e.now) else before
  }

  /** The expiry most recently written under a token in the first `n` statements. */
  ghost function LastExpiry(es: seq<Event>, n: nat, id: JobId, token: int): Option<Time>
    requires n <= |es|
  {
    if n == 0 then None
    else NextExpiry(At(es, n - 1), es[n - 1], id, token, LastExpiry(es, n - 1, id, token))
  }

  /** When a token was granted, if it was granted in the first `n` statements. */
  ghost function GrantTime(es: seq<Event>, n: nat, id: JobId, token: int): Option<Time>
    requires n <= |es|
  {
    if n == 0 then None
    else NextGrant(At(es, n - 1), es[n - 1], id, token, GrantTime(es, n - 1, id, token))
  }

  /** What holds of two tokens `t < u`: `last` was last written under `t`, `grant` is when `u` was granted. */
  predicate Apart(tbl: Table, clock: Time, id: JobId, t: int, u: int, last: Option<Time>, grant: Option<Time>) {
    && (last.Some? || grant.Some? ==> id in tbl)
    && (last.Some? ==>
          && t <= tbl[id].token
          && (tbl[id].token == t && tbl[id].status.Active() ==> tbl[id].expiry == last)
          && (t < tbl[id].token || tbl[id].status.Queued? ==> last.value < clock))
    && (grant.Some? ==> u <= tbl[id].token)
    && (last.Some? && grant.Some? ==> last.value < grant.value)
  }

  lemma ApartStep(
    tbl: Table, clock: Time, e: Event, id: JobId, t: int, u: int, last: Option<Time>, grant: Option<Time>)
    requires t < u && (id in tbl ==> clock <= e.now && Coherent(tbl[id]))
    requires Apart(tbl, clock, id, t, u, last, grant)
    ensures Apart(Exec(tbl, e), e.now, id, t, u, NextExpiry(tbl, e, id, t, last), NextGrant(tbl, e, id, u, grant))
  {
  }

  ghost function Clock(es: seq<Event>, n: nat): Time
    requires n <= |es|
  {
    if n == 0 then 0 else es[n - 1].now
  }

  lemma {:induction false} AlwaysApart(es: seq<Event>, n: nat, id: JobId, t: int, u: int)
    requires n <= |es| && Timely(es) && t < u
    ensures Apart(At(es, n), Clock(es, n), id, t, u, LastExpiry(es, n, id, t), GrantTime(es, n, id, u))
  {
    if n > 0 {
      AlwaysApart(es, n - 1, id, t, u);
      if id in At(es, n - 1) {
        RowCoherence(es, n - 1, id);
      }
      ApartStep(At(es, n - 1), Clock(es, n - 1), es[n - 1], id, t, u,
                LastExpiry(es, n - 1, id, t), GrantTime(es, n - 1, id, u));
      Unroll(es, n - 1);
    }
  }

  /**
   Lease intervals are exclusive: whatever messages arrive in whatever order, the last expiry
   ever written under a token is strictly before the moment any newer token was granted.
   */
  lemma ExclusiveLeases(es: seq<Event>, id: JobId, t: int, u: int)
    requires Timely(es) && t < u
    requires LastExpiry(es, |es|, id, t).Some? && GrantTime(es, |es|, id, u).Some?
    ensures LastExpiry(es, |es|, id, t).value < GrantTime(es, |es|, id, u).value
  {
    AlwaysApart(es, |es|, id, t, u);
  }

  // ---------- grants and fencing ----------

  /** Statement `k` granted the job to the agent under the token. */
  predicate Granted(es: seq<Event>, k: nat, id: JobId, agent: AgentId, token: int) {
    && k < |es|
    && es[k].stmt.Claim? && es[k].stmt.id == id && es[k].stmt.agent == agent
    && Hits(At(es, k), es[k])
    && At(es, k)[id].token + 1 == token
  }

  /** From a grant on, the row's token is at least the granted one; while equal, only the grantee can own the row. */
  lemma {:induction false} GrantBounds(es: seq<Event>, k: nat, i: nat, id: JobId, agent: AgentId, token: int)
    requires k < i <= |es|
    requires Granted(es, k, id, agent, token)
    ensures id in At(es, i) && token <= At(es, i)[id].token
    ensures At(es, i)[id].token == token ==> At(es, i)[id].agent in {None, Some(agent)}
  {
    Unroll(es, i - 1);
    if k + 1 < i {
      GrantBounds(es, k, i - 1, id, agent, token);
    }
  }

  /** Successive grants of a job carry strictly increasing tokens, so a token is granted at most once. */
  lemma GrantsIncrease(es: seq<Event>, i: nat, j: nat, id: JobId, a: AgentId, t: int, b: AgentId, u: int)
    requires i < j
    requires Granted(es, i, id, a, t) && Granted(es, j, id, b, u)
    ensures 1 <= t < u
  {
    GrantBounds(es, i, j, id, a, t);
    RowCoherence(es, i, id);
  }

  /** Once a newer token is granted, heartbeats and finishes carrying an older one change nothing, forever. */
  lemma StaleTokensInert(es: seq<Event>, k: nat, i: nat, id: JobId, agent: AgentId, token: int)
    requires k < i < |es|
    requires Granted(es, k, id, agent, token)
    requires es[i].stmt.Beat? || es[i].stmt.Finish?
    requires es[i].stmt.id == id && es[i].stmt.token < token
    ensures At(es, i + 1) == At(es, i)
  {
    GrantBounds(es, k, i, id, agent, token);
    Unroll(es, i);
  }

  // ---------- the intervals are those of the run ----------

  lemma OnRecordStep(t: Table, e: Event, id: JobId, last: Option<Time>)
    requires id in Exec(t, e) && Exec(t, e)[id].status.Active() && (id in t ==> Coherent(t[id]))
    requires id in t && t[id].status.Active() ==> last == t[id].expiry
    ensures NextExpiry(t, e, id, Exec(t, e)[id].token, last) == Exec(t, e)[id].expiry
    ensures id in t
    ensures t[id].status.Active() ==> Exec(t, e)[id].token == t[id].token
  {
  }

  /** While a job is leased, the last expiry on record for its token is the row's. */
  lemma {:induction false} LeaseOnRecord(es: seq<Event>, n: nat, id: JobId)
    requires n <= |es| && id in At(es, n) && At(es, n)[id].status.Active()
    ensures LastExpiry(es, n, id, At(es, n)[id].token) == At(es, n)[id].expiry
  {
    Unroll(es, n - 1);
    var t, token := At(es, n - 1), At(es, n)[id].token;
    if id in t {
      RowCoherence(es, n - 1, id);
      if t[id].status.Active() {
        LeaseOnRecord(es, n - 1, id);
        OnRecordStep(t, es[n - 1], id, t[id].expiry);
      } else {
        OnRecordStep(t, es[n - 1], id, LastExpiry(es, n - 1, id, token));
      }
    }
  }

  /** A grant is on record from the moment it is made, and for good. */
  lemma {:induction false} GrantOnRecord(es: seq<Event>, k: nat, n: nat, id: JobId, agent: AgentId, token: int)
    requires k < n <= |es| && Granted(es, k, id, agent, token)
    ensures GrantTime(es, n, id, token) == Some(es[k].now)
    decreases n
  {
    var e := es[n - 1];
    if k + 1 < n {
      GrantOnRecord(es, k, n - 1, id, agent, token);
      if e.stmt.Claim? && e.stmt.id == id && Hits(At(es, n - 1), e) {
        GrantsIncrease(es, k, n - 1, id, agent, token, e.stmt.agent, At(es, n - 1)[id].token + 1);
      }
    }
  }

  /** Without a beat under its token, the expiry on record for a lease stays what it was. */
  lemma {:induction false} ExpiryUnrenewed(es: seq<Event>, i: nat, n: nat, id: JobId)
    requires i <= n <= |es| && id in At(es, i) && At(es, i)[id].status.Active()
    requires forall k :: i <= k < n && es[k].stmt.Beat? && es[k].stmt.id == id ==>
               es[k].stmt.token != At(es, i)[id].token
    ensures LastExpiry(es, n, id, At(es, i)[id].token) == LastExpiry(es, i, id, At(es, i)[id].token)
    decreases n
  {
    if i < n {
      ExpiryUnrenewed(es, i, n - 1, id);
      TokenMonotone(es, i, n - 1, id);
    }
  }

  /**
   The same without bookkeeping: when a job is granted anew, every lease it had before has lapsed.
   If the job was leased after statement `i` under an older token, and nothing renewed that lease
   before statement `j` granted it again, its expiry was before that moment.
   */
  lemma LapsedBeforeGrant(es: seq<Event>, i: nat, j: nat, id: JobId, agent: AgentId, token: int)
    requires Timely(es) && i < j && Granted(es, j, id, agent, token)
    requires id in At(es, i) && At(es, i)[id].status.Active() && At(es, i)[id].token < token
    requires forall k :: i <= k < j && es[k].stmt.Beat? && es[k].stmt.id == id ==>
               es[k].stmt.token != At(es, i)[id].token
    ensures At(es, i)[id].expiry.Some? && At(es, i)[id].expiry.value < es[j].now
  {
    var t := At(es, i)[id].token;
    RowCoherence(es, i, id);
    LeaseOnRecord(es, i, id);
    ExpiryUnrenewed(es, i, j + 1, id);
    AlwaysApart(es, j + 1, id, t, token);
    GrantOnRecord(es, j, j + 1, id, agent, token);
  }

  // ---------- well-behaved agents ----------

  /** A heartbeat or finish presents an (agent, token) pair granted earlier for that job. */
  ghost predicate Earned(es: seq<Event>, i: nat)
    requires i < |es|
  {
    var s := es[i].stmt;
    s.Beat? || s.Finish? ==> exists k :: 0 <= k < i && Granted(es, k, s.id, s.agent, s.token)
  }

  /** Two finish reports under one grant carry one outcome. */
  predicate SameReport(s: Statement, r: Statement) {
    s.Finish? && r.Finish? && s.id == r.id && s.agent == r.agent && s.token == r.token ==> s.outcome == r.outcome
  }

  ghost predicate WellBehaved(es: seq<Event>) {
    && (forall i :: 0 <= i < |es| ==> Earned(es, i))
    && (forall i, j :: 0 <= i < |es| && 0 <= j < |es| ==> SameReport(es[i].stmt, es[j].stmt))
  }

  /**
   Fencing: for well-behaved agents, Finish's weak guard (owner matches or is NULL, and the row's
   token is at most the presented one) is exactly equality of tokens; and a heartbeat is accepted
   exactly when the tokens are equal and the lease has neither been requeued nor finished.
   */
  lemma FinishGuardIsTokenEquality(es: seq<Event>, i: nat)
    requires i < |es| && WellBehaved(es)
    requires es[i].stmt.Finish? || es[i].stmt.Beat?
    ensures es[i].stmt.id in At(es, i)
    ensures es[i].stmt.token <= At(es, i)[es[i].stmt.id].token
    ensures es[i].stmt.Finish? ==>
              (Hits(At(es, i), es[i]) <==> At(es, i)[es[i].stmt.id].token == es[i].stmt.token)
    ensures es[i].stmt.Beat? ==>
              (Hits(At(es, i), es[i]) <==>
               At(es, i)[es[i].stmt.id].token == es[i].stmt.token && At(es, i)[es[i].stmt.id].status.Active())
  {
    var s := es[i].stmt;
    assert Earned(es, i);
    var k :| 0 <= k < i && Granted(es, k, s.id, s.agent, s.token);
    GrantBounds(es, k, i, s.id, s.agent, s.token);
    RowCoherence(es, i, s.id);
  }

  /** A statement other than a matching finish leaves a finished job's result alone. */
  lemma ResultKept(es: seq<Event>, i: nat, id: JobId)
    requires i < |es| && id in At(es, i + 1) && At(es, i + 1)[id].status.Terminal()
    requires !(es[i].stmt.Finish? && es[i].stmt.id == id && Hits(At(es, i), es[i]))
    ensures id in At(es, i) && At(es, i)[id].status == At(es, i + 1)[id].status
    ensures At(es, i)[id].report == At(es, i + 1)[id].report
    ensures At(es, i)[id].token == At(es, i + 1)[id].token
  {
    Unroll(es, i);
    if id in At(es, i) {
      RowCoherence(es, i, id);
    }
  }

  /** A finished row carries the outcome of some report that hit it under the row's own token. */
  lemma {:induction false} FinishedBy(es: seq<Event>, i: nat, id: JobId) returns (f: nat)
    requires i <= |es| && WellBehaved(es)
    requires id in At(es, i) && At(es, i)[id].status.Terminal()
    ensures f < i && es[f].stmt.Finish? && es[f].stmt.id == id && Hits(At(es, f), es[f])
    ensures At(es, i)[id].status == es[f].stmt.outcome.Final()
    ensures At(es, i)[id].report == Some(es[f].stmt.outcome.report)
    ensures At(es, i)[id].token == es[f].stmt.token
  {
    var s := es[i - 1].stmt;
    if s.Finish? && s.id == id && Hits(At(es, i - 1), es[i - 1]) {
      Unroll(es, i - 1);
      FinishGuardIsTokenEquality(es, i - 1);
      f := i - 1;
    } else {
      ResultKept(es, i - 1, id);
      f := FinishedBy(es, i - 1, id);
    }
  }

  /** Reports under one token of one job come from the one agent it was granted to. */
  lemma SameGrantee(es: seq<Event>, i: nat, j: nat)
    requires i < |es| && j < |es| && WellBehaved(es)
    requires es[i].stmt.Finish? && es[j].stmt.Finish?
    requires es[i].stmt.id == es[j].stmt.id && es[i].stmt.token == es[j].stmt.token
    ensures es[i].stmt == es[j].stmt
  {
    var s, r := es[i].stmt, es[j].stmt;
    assert Earned(es, i) && Earned(es, j);
    var k :| 0 <= k < i && Granted(es, k, s.id, s.agent, s.token);
    var l :| 0 <= l < j && Granted(es, l, r.id, r.agent, r.token);
    if k < l {
      GrantsIncrease(es, k, l, s.id, s.agent, s.token, r.agent, r.token);
    } else if l < k {
      GrantsIncrease(es, l, k, s.id, r.agent, r.token, s.agent, s.token);
    }
    assert SameReport(s, r);
  }

  /**
   Outcome agreement under at-least-once delivery: every two reports that ever match a job's row
   are the same report, so of any number of deliveries only the first changes the table.
   */
  lemma OutcomeAgreement(es: seq<Event>, i: nat, j: nat)
    requires i < j < |es| && WellBehaved(es)
    requires es[i].stmt.Finish? && es[j].stmt.Finish? && es[i].stmt.id == es[j].stmt.id
    requires Hits(At(es, i), es[i]) && Hits(At(es, j), es[j])
    ensures es[i].stmt == es[j].stmt
    ensures At(es, j + 1) == At(es, j)
  {
    var id := es[i].stmt.id;
    Unroll(es, i);
    TerminalSticky(es, i + 1, j, id);
    FinishGuardIsTokenEquality(es, i);
    FinishGuardIsTokenEquality(es, j);
    SameGrantee(es, i, j);
    var f := FinishedBy(es, j, id);
    SameGrantee(es, f, j);
    RowCoherence(es, j, id);
    Unroll(es, j);
    var row := At(es, j)[id];
    assert Updated(row, es[j].now, es[j].stmt) == row;
    assert At(es, j)[id := row] == At(es, j);
  }

  /** The first report that matches fixes the result columns at every later point of the run. */
  lemma ResultFixed(es: seq<Event>, i: nat, j: nat)
    requires i < j <= |es| && WellBehaved(es)
    requires es[i].stmt.Finish? && Hits(At(es, i), es[i])
    ensures es[i].stmt.id in At(es, j)
    ensures var row := At(es, j)[es[i].stmt.id];
            && row.status == es[i].stmt.outcome.Final()
            && row.report == Some(es[i].stmt.outcome.report)
            && row.token == es[i].stmt.token
            && row.agent == None && row.expiry == None
  {
    var id := es[i].stmt.id;
    Unroll(es, i);
    FinishGuardIsTokenEquality(es, i);
    TerminalSticky(es, i + 1, j, id);
    RowCoherence(es, j, id);
    var f := FinishedBy(es, j, id);
    SameGrantee(es, f, i);
  }

  // ---------- refinement to a lease automaton ----------

  /** One job as its users think of it: unclaimed, leased, or finished for good. */
  datatype Job =
    | Absent
    | Free(token: int)
    | Held(agent: AgentId, token: int, expiry: Time)
    | Done(outcome: Outcome, token: int)
    | Malformed

  function Abs(t: Table, id: JobId): Job {
    if id !in t then Absent
    else
      var row := t[id];
      if row.status.Queued? && row.agent.None? && row.expiry.None? then
        Free(row.token)
      else if row.status.Active() && row.agent.Some? && row.expiry.Some? then
        Held(row.agent.value, row.token, row.expiry.value)
      else if row.status.Terminal() && row.agent.None? && row.expiry.None? && row.report.Some? then
        Done(Outcome(row.status.Succeeded?, row.report.value), row.token)
      else
        Malformed
  }

  /**
   The automaton's guards are the strict ones: a lease is renewed only by its holder under its
   token, a job is finished only under its current token, and a finished job never changes.
   */
  function JobStep(j: Job, e: Event, id: JobId): Job {
    if e.stmt.id != id then j
    else
      match (e.stmt, j)
      case (Insert(_, _, _, _), Absent) => Free(0)
      case (Claim(_, a, ttl), Free(t)) => Held(a, t + 1, e.now + LeaseLength(ttl))
      case (Beat(_, a, t, ttl), Held(b, u, _)) => if a == b && t == u then Held(b, u, e.now + LeaseLength(ttl)) else j
      case (Requeue(_), Held(_, t, expiry)) => if expiry < e.now then Free(t) else j
      case (Finish(_, a, t, o), Held(b, u, _)) => if a == b && t == u then Done(o, u) else j
      case (Finish(_, _, t, o), Free(u)) => if t == u then Done(o, u) else j
      case _ => j
  }

  function JobRun(es: seq<Event>, n: nat, id: JobId): Job
    requires n <= |es|
  {
    if n == 0 then Absent else JobStep(JobRun(es, n - 1, id), es[n - 1], id)
  }

  /** A finish that finds the job already done repeats the outcome it was done with. */
  lemma RepeatedFinish(es: seq<Event>, i: nat)
    requires i < |es| && WellBehaved(es)
    requires es[i].stmt.Finish? && Hits(At(es, i), es[i])
    requires At(es, i)[es[i].stmt.id].status.Terminal()
    ensures At(es, i + 1) == At(es, i)
  {
    var f := FinishedBy(es, i, es[i].stmt.id);
    OutcomeAgreement(es, f, i);
  }

  /** A well-behaved finish on a leased row comes from the holder. */
  lemma FinishByHolder(es: seq<Event>, i: nat)
    requires i < |es| && WellBehaved(es) && es[i].stmt.Finish?
    requires es[i].stmt.id in At(es, i) && At(es, i)[es[i].stmt.id].status.Active()
    requires At(es, i)[es[i].stmt.id].token == es[i].stmt.token
    ensures At(es, i)[es[i].stmt.id].agent == Some(es[i].stmt.agent)
  {
    FinishGuardIsTokenEquality(es, i);
    RowCoherence(es, i, es[i].stmt.id);
  }

  /** Each statement of a well-behaved run acts on the row as the automaton acts on the job. */
  lemma StoreStepRefines(es: seq<Event>, i: nat, id: JobId)
    requires i < |es| && WellBehaved(es)
    requires !Abs(At(es, i), id).Malformed?
    ensures Abs(Exec(At(es, i), es[i]), id) == JobStep(Abs(At(es, i), id), es[i], id)
    ensures !Abs(Exec(At(es, i), es[i]), id).Malformed?
  {
    var s := es[i].stmt;
    if s.id == id && id in At(es, i) {
      RowCoherence(es, i, id);
      if s.Finish? {
        FinishGuardIsTokenEquality(es, i);
        if At(es, i)[id].status.Terminal() {
          if Hits(At(es, i), es[i]) {
            RepeatedFinish(es, i);
            Unroll(es, i);
          }
        } else if At(es, i)[id].status.Active() && At(es, i)[id].token == s.token {
          FinishByHolder(es, i);
        }
      }
    }
  }

  /**
   Refinement: in every well-behaved run the guarded updates on the row compute exactly the
   strict automaton, and no reachable row falls outside it.
   */
  lemma {:induction false} StoreRefinesAutomaton(es: seq<Event>, n: nat, id: JobId)
    requires n <= |es| && WellBehaved(es)
    ensures Abs(At(es, n), id) == JobRun(es, n, id)
    ensures !JobRun(es, n, id).Malformed?
  {
    if n > 0 {
      StoreRefinesAutomaton(es, n - 1, id);
      Unroll(es, n - 1);
      StoreStepRefines(es, n - 1, id);
    }
  }

  // ---------- why the agents must be well behaved ----------

  /**
   Without that hypothesis Finish is not fenced: a report under a token that was never granted
   closes a queued job, because the row's owner is NULL and its token is below the presented one.
   */
  lemma UnearnedFinishCloses(id: JobId, agent: AgentId, outcome: Outcome)
    ensures var es := [Event(0, Insert(id, "alpine", [], 0)), Event(1, Finish(id, agent, 1, outcome))];
            id in At(es, 2) && At(es, 2)[id].status == outcome.Final() && !WellBehaved(es)
  {
    var es := [Event(0, Insert(id, "alpine", [], 0)), Event(1, Finish(id, agent, 1, outcome))];
    Unroll(es, 0);
    Unroll(es, 1);
    assert At(es, 0) == map[];
    assert !Earned(es, 1);
  }

  /**
   In an arbitrary run, Finish's guard is equality of tokens exactly when the presented token is
   not ahead of a row the agent could close, and the agent may close the row of its own token.
   */
  lemma FinishFencedIff(es: seq<Event>, i: nat)
    requires i < |es| && es[i].stmt.Finish? && es[i].stmt.id in At(es, i)
    ensures var s, row := es[i].stmt, At(es, i)[es[i].stmt.id];
            var held := row.status.Active() && row.agent != Some(s.agent);
            (Hits(At(es, i), es[i]) <==> row.token == s.token)
            <==> (if held then s.token != row.token else s.token <= row.token)
  {
    RowCoherence(es, i, es[i].stmt.id);
  }
}
