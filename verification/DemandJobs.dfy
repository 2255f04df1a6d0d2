/**
 The `demand_jobs` table and the SQL statements the lease store issues against it.

 Every statement is one atomic step: a WHERE clause over one row (`Matches`) and the SET
 clause applied to it (`Updated`). SQL's comparison with NULL is never true, which the
 optional columns express by comparing with `Some(v)`.
 */
module DemandJobs {
  import opened Prelude
  import opened Durations

  type AgentId = string

  datatype Status = Queued | Assigned | Running | Succeeded | Failed {
    predicate Active() {
      Assigned? || Running?
    }

    predicate Terminal() {
      Succeeded? || Failed?
    }
  }

  /** The result columns written by Finish. */
  datatype Report = Report(resultCid: string, artifacts: seq<string>, metrics: string)

  /** The manifest columns, which are always written together. */
  datatype Manifest = Manifest(rootCid: string, providers: seq<string>, encMeta: string)

  datatype Outcome = Outcome(succeeded: bool, report: Report) {
    function Final(): Status {
      if succeeded then Succeeded else Failed
    }
  }

  datatype Row = Row(
    image: string,
    command: seq<string>,
    createdAt: Time,
    manifest: Option<Manifest>,
    status: Status,
    agent: Option<AgentId>,
    expiry: Option<Time>,
    token: int,
    retries: int,
    report: Option<Report>)

  type Table = map<JobId, Row>

  datatype Statement =
    | Insert(id: JobId, image: string, command: seq<string>, createdAt: Time)
    | Attach(id: JobId, manifest: Manifest)
    | Claim(id: JobId, agent: AgentId, ttl: Duration)
    | Beat(id: JobId, agent: AgentId, token: int, ttl: Duration)
    | Finish(id: JobId, agent: AgentId, token: int, outcome: Outcome)
    | Requeue(id: JobId)

  /** A statement together with the value of the store clock when it takes effect. */
  datatype Event = Event(now: Time, stmt: Statement)

  /** The row an INSERT creates: every column not named takes its schema default. */
  function FreshRow(image: string, command: seq<string>, createdAt: Time, status: Status): Row {
    Row(image, command, createdAt, None, status, None, None, 0, 0, None)
  }

  /** `lease_expires_at IS NOT NULL AND lease_expires_at < now()` */
  predicate LeaseLapsed(row: Row, now: Time) {
    row.expiry.Some? && row.expiry.value < now
  }

  /** The WHERE clause of an UPDATE, beyond `id = $1`. */
  predicate Matches(row: Row, now: Time, s: Statement)
    requires !s.Insert?
  {
    match s
    case Attach(_, _) => true
    case Claim(_, _, _) => row.status.Queued? && (row.expiry.None? || row.expiry.value < now)
    case Beat(_, agent, token, _) => row.agent == Some(agent) && row.token == token
    case Finish(_, agent, token, _) => (row.agent == Some(agent) || row.agent.None?) && row.token <= token
    case Requeue(_) => row.status.Active() && LeaseLapsed(row, now)
  }

  /** The SET clause of an UPDATE. */
  function Updated(row: Row, now: Time, s: Statement): Row
    requires !s.Insert?
  {
    match s
    case Attach(_, manifest) =>
      row.(manifest := Some(manifest))
    case Claim(_, agent, ttl) =>
      row.(agent := Some(agent), expiry := Some(now + LeaseLength(ttl)), token := row.token + 1, status := Assigned)
    case Beat(_, _, _, ttl) =>
      row.(expiry := Some(now + LeaseLength(ttl)), status := Running)
    case Finish(_, _, _, outcome) =>
      row.(status := outcome.Final(), report := Some(outcome.report), agent := None, expiry := None)
    case Requeue(_) =>
      row.(status := Queued, agent := None, expiry := None, retries := row.retries + 1)
  }

  /** The statement affects a row (for an INSERT: creates one). */
  predicate Hits(t: Table, e: Event) {
    if e.stmt.Insert? then e.stmt.id !in t
    else e.stmt.id in t && Matches(t[e.stmt.id], e.now, e.stmt)
  }

  function Exec(t: Table, e: Event): Table {
    var s := e.stmt;
    if !Hits(t, e) then t
    else if s.Insert? then t[s.id := FreshRow(s.image, s.command, s.createdAt, Queued)]
    else t[s.id := Updated(t[s.id], e.now, s)]
  }

  /** The table after a sequence of statements. */
  function Replay(t: Table, es: seq<Event>): Table {
    if es == [] then t else Exec(Replay(t, es[..|es| - 1]), es[|es| - 1])
  }

  /** In a run, the table just before statement `i`; a run starts with an empty table. */
  function At(es: seq<Event>, i: nat): Table
    requires i <= |es|
  {
    Replay(map[], es[..i])
  }

  /** The store clock never runs backwards. */
  ghost predicate Timely(es: seq<Event>) {
    forall i, j :: 0 <= i < j < |es| ==> es[i].now <= es[j].now
  }

  lemma Unroll(es: seq<Event>, i: nat)
    requires i < |es|
    ensures At(es, i + 1) == Exec(At(es, i), es[i])
  {
    assert es[..i + 1][..i] == es[..i];
  }

  lemma ReplaySnoc(t: Table, es: seq<Event>, e: Event)
    ensures Replay(t, es + [e]) == Exec(Replay(t, es), e)
  {
    assert (es + [e])[..|es|] == es;
  }

  lemma {:induction false} ReplayConcat(t: Table, xs: seq<Event>, ys: seq<Event>)
    ensures Replay(t, xs + ys) == Replay(Replay(t, xs), ys)
  {
    if ys == [] {
      assert xs + ys == xs;
    } else {
      var front := ys[..|ys| - 1];
      assert (xs + ys)[..|xs + ys| - 1] == xs + front;
      ReplayConcat(t, xs, front);
    }
  }
}
