/**
 Agents, control and an unreliable network around the store. Messages stay in the pool once
 sent, so any of them may be delivered late, out of order, many times or never. Discovery is
 left arbitrary: any agent may ask for any job at any time. The result is that every run of
 this system issues a well-behaved sequence of statements.
 */
module Network {
  import opened Prelude
  import opened Durations
  import opened DemandJobs
  import opened LeaseSafety

  /** A lease an agent has been told about. */
  datatype Grant = Grant(id: JobId, agent: AgentId, token: int)

  datatype Message =
    | Request(stmt: Statement)
    | Reply(grant: Grant)

  /** `log` lists the statements executed so far, in order; the table is what they produce. */
  datatype System = System(
    clock: Time,
    log: seq<Event>,
    pool: set<Message>,
    known: set<Grant>,
    outcomes: map<Grant, Outcome>)

  const START := System(0, [], {}, {}, map[])

  datatype Step =
    | Tick(elapsed: nat)
    | Control(stmt: Statement)
    | Ask(id: JobId, agent: AgentId, ttl: Duration)
    | Learn(grant: Grant)
    | Renew(grant: Grant, ttl: Duration)
    | Decide(grant: Grant, outcome: Outcome)
    | Report(grant: Grant)
    | Deliver(stmt: Statement)

  predicate Enabled(s: System, step: Step) {
    match step
    case Tick(_) => true
    case Control(stmt) => stmt.Insert? || stmt.Attach? || stmt.Requeue?
    case Ask(_, _, _) => true
    case Learn(grant) => Reply(grant) in s.pool
    case Renew(grant, _) => grant in s.known
    // an agent fixes the outcome of a grant once, when its execution ends
    case Decide(grant, _) => grant in s.known && grant !in s.outcomes
    // and then reports it any number of times
    case Report(grant) => grant in s.outcomes
    case Deliver(stmt) => Request(stmt) in s.pool
  }

  function Executed(s: System, stmt: Statement): System {
    var e := Event(s.clock, stmt);
    var t := Replay(map[], s.log);
    var replies :=
      if stmt.Claim? && Hits(t, e) then {Reply(Grant(stmt.id, stmt.agent, t[stmt.id].token + 1))} else {};
    s.(log := s.log + [e], pool := s.pool + replies)
  }

  function Next(s: System, step: Step): System
    requires Enabled(s, step)
  {
    match step
    case Tick(elapsed) => s.(clock := s.clock + elapsed)
    case Control(stmt) => Executed(s, stmt)
    case Ask(id, agent, ttl) => s.(pool := s.pool + {Request(Claim(id, agent, ttl))})
    case Learn(grant) => s.(known := s.known + {grant})
    case Renew(g, ttl) => s.(pool := s.pool + {Request(Beat(g.id, g.agent, g.token, ttl))})
    case Decide(grant, outcome) => s.(outcomes := s.outcomes[grant := outcome])
    case Report(g) => s.(pool := s.pool + {Request(Finish(g.id, g.agent, g.token, s.outcomes[g]))})
    case Deliver(stmt) => Executed(s, stmt)
  }

  /** The state a sequence of steps leads to, if each step is enabled when it is taken. */
  function Reached(steps: seq<Step>): Option<System> {
    if steps == [] then Some(START)
    else
      var p := Reached(steps[..|steps| - 1]);
      var step := steps[|steps| - 1];
      if p.Some? && Enabled(p.value, step) then Some(Next(p.value, step)) else None
  }

  // ---------- the invariant ----------

  ghost predicate GrantedInLog(log: seq<Event>, g: Grant) {
    exists k :: 0 <= k < |log| && Granted(log, k, g.id, g.agent, g.token)
  }

  /** A heartbeat or finish statement speaks for a granted lease and, if a finish, for its outcome. */
  ghost predicate Sincere(s: System, stmt: Statement) {
    && (stmt.Beat? || stmt.Finish? ==> GrantedInLog(s.log, Grant(stmt.id, stmt.agent, stmt.token)))
    && (stmt.Finish? ==>
          var g := Grant(stmt.id, stmt.agent, stmt.token);
          g in s.outcomes && s.outcomes[g] == stmt.outcome)
  }

  ghost predicate LogInv(s: System) {
    && Timely(s.log)
    && (forall i :: 0 <= i < |s.log| ==> s.log[i].now <= s.clock)
    && (forall i :: 0 <= i < |s.log| ==> Earned(s.log, i))
    && (forall i :: 0 <= i < |s.log| ==> Sincere(s, s.log[i].stmt))
  }

  ghost predicate PoolInv(s: System) {
    && (forall g :: Reply(g) in s.pool ==> GrantedInLog(s.log, g))
    && (forall g :: g in s.known ==> GrantedInLog(s.log, g))
    && (forall g :: g in s.outcomes ==> g in s.known)
    && (forall stmt :: Request(stmt) in s.pool ==> Sincere(s, stmt))
  }

  /** Grants and earned statements are unaffected by what is appended later. */
  lemma GrantedExtends(log: seq<Event>, e: Event, k: nat, g: Grant)
    requires k < |log|
    ensures Granted(log + [e], k, g.id, g.agent, g.token) <==> Granted(log, k, g.id, g.agent, g.token)
  {
    assert (log + [e])[..k] == log[..k];
  }

  lemma GrantedInLogExtends(log: seq<Event>, e: Event)
    ensures forall g :: GrantedInLog(log, g) ==> GrantedInLog(log + [e], g)
    ensures forall i :: 0 <= i < |log| ==> (Earned(log, i) <==> Earned(log + [e], i))
  {
    forall g | GrantedInLog(log, g)
      ensures GrantedInLog(log + [e], g)
    {
      var k :| 0 <= k < |log| && Granted(log, k, g.id, g.agent, g.token);
      GrantedExtends(log, e, k, g);
    }
    forall i | 0 <= i < |log|
      ensures Earned(log, i) <==> Earned(log + [e], i)
    {
      var s := log[i].stmt;
      if s.Beat? || s.Finish? {
        forall k | 0 <= k < i
          ensures Granted(log + [e], k, s.id, s.agent, s.token) <==> Granted(log, k, s.id, s.agent, s.token)
        {
          GrantedExtends(log, e, k, Grant(s.id, s.agent, s.token));
        }
      }
    }
  }

  /** Sincerity survives steps that only add grants and outcomes. */
  lemma SincereGrows(s: System, s': System, stmt: Statement)
    requires Sincere(s, stmt)
    requires forall g :: GrantedInLog(s.log, g) ==> GrantedInLog(s'.log, g)
    requires forall g :: g in s.outcomes ==> g in s'.outcomes && s'.outcomes[g] == s.outcomes[g]
    ensures Sincere(s', stmt)
  {
  }

  /** The statement just executed was earned by a grant in the log before it. */
  lemma LastEarned(s: System, stmt: Statement)
    requires Sincere(s, stmt)
    ensures Earned(Executed(s, stmt).log, |s.log|)
  {
    if stmt.Beat? || stmt.Finish? {
      var k :| 0 <= k < |s.log| && Granted(s.log, k, stmt.id, stmt.agent, stmt.token);
      GrantedExtends(s.log, Event(s.clock, stmt), k, Grant(stmt.id, stmt.agent, stmt.token));
    }
  }

  lemma ExecutedKeepsLogInv(s: System, stmt: Statement)
    requires LogInv(s) && Sincere(s, stmt)
    ensures LogInv(Executed(s, stmt))
  {
    var s' := Executed(s, stmt);
    GrantedInLogExtends(s.log, Event(s.clock, stmt));
    LastEarned(s, stmt);
    forall i | 0 <= i < |s'.log|
      ensures Sincere(s', s'.log[i].stmt)
    {
      SincereGrows(s, s', s'.log[i].stmt);
    }
  }

  /** A claim that hits leaves its grant in the log. */
  lemma ClaimIsGranted(s: System, stmt: Statement)
    requires stmt.Claim? && Hits(Replay(map[], s.log), Event(s.clock, stmt))
    ensures GrantedInLog(Executed(s, stmt).log, Grant(stmt.id, stmt.agent, Replay(map[], s.log)[stmt.id].token + 1))
  {
    var log := Executed(s, stmt).log;
    assert log[..|s.log|] == s.log;
    assert Granted(log, |s.log|, stmt.id, stmt.agent, Replay(map[], s.log)[stmt.id].token + 1);
  }

  lemma ExecutedKeepsPoolInv(s: System, stmt: Statement)
    requires PoolInv(s)
    ensures PoolInv(Executed(s, stmt))
  {
    var s' := Executed(s, stmt);
    GrantedInLogExtends(s.log, Event(s.clock, stmt));
    if stmt.Claim? && Hits(Replay(map[], s.log), Event(s.clock, stmt)) {
      ClaimIsGranted(s, stmt);
    }
    forall r | Request(r) in s'.pool
      ensures Sincere(s', r)
    {
      SincereGrows(s, s', r);
    }
  }

  lemma NextKeepsLogInv(s: System, step: Step)
    requires LogInv(s) && PoolInv(s) && Enabled(s, step)
    ensures LogInv(Next(s, step))
  {
    if step.Control? || step.Deliver? {
      ExecutedKeepsLogInv(s, step.stmt);
    } else {
      var s' := Next(s, step);
      forall i | 0 <= i < |s.log|
        ensures Sincere(s', s.log[i].stmt)
      {
        SincereGrows(s, s', s.log[i].stmt);
      }
    }
  }

  lemma NextKeepsPoolInv(s: System, step: Step)
    requires PoolInv(s) && Enabled(s, step)
    ensures PoolInv(Next(s, step))
  {
    if step.Control? || step.Deliver? {
      ExecutedKeepsPoolInv(s, step.stmt);
    } else {
      var s' := Next(s, step);
      forall r | Request(r) in s.pool
        ensures Sincere(s', r)
      {
        SincereGrows(s, s', r);
      }
    }
  }

  /**
   Whatever the network does to messages, the statements the store executes are well behaved
   and in clock order, so the safety results hold of every run of the system.
   */
  lemma {:induction false} SystemIsWellBehaved(steps: seq<Step>)
    requires Reached(steps).Some?
    ensures var s := Reached(steps).value;
            && LogInv(s) && PoolInv(s)
            && Timely(s.log) && WellBehaved(s.log)
  {
    var s := Reached(steps).value;
    if steps != [] {
      var front := steps[..|steps| - 1];
      SystemIsWellBehaved(front);
      NextKeepsLogInv(Reached(front).value, steps[|steps| - 1]);
      NextKeepsPoolInv(Reached(front).value, steps[|steps| - 1]);
    }
    forall i, j | 0 <= i < |s.log| && 0 <= j < |s.log|
      ensures SameReport(s.log[i].stmt, s.log[j].stmt)
    {
      assert Sincere(s, s.log[i].stmt) && Sincere(s, s.log[j].stmt);
    }
  }

  /** End to end: in every reachable state of the system, every job is where the strict automaton puts it. */
  lemma SystemRefinesAutomaton(steps: seq<Step>, id: JobId)
    requires Reached(steps).Some?
    ensures var log := Reached(steps).value.log;
            Abs(Replay(map[], log), id) == JobRun(log, |log|, id) && !JobRun(log, |log|, id).Malformed?
  {
    SystemIsWellBehaved(steps);
    var log := Reached(steps).value.log;
    StoreRefinesAutomaton(log, |log|, id);
    assert log[..|log|] == log;
  }

  // ---------- nobody is cut off ----------

  /** Every grant in the log has its reply in the network. */
  ghost predicate Offered(s: System) {
    forall g :: GrantedInLog(s.log, g) ==> Reply(g) in s.pool
  }

  lemma ExecutedKeepsOffered(s: System, stmt: Statement)
    requires Offered(s)
    ensures Offered(Executed(s, stmt))
  {
    var s', e := Executed(s, stmt), Event(s.clock, stmt);
    forall g | GrantedInLog(s'.log, g)
      ensures Reply(g) in s'.pool
    {
      var k :| 0 <= k < |s'.log| && Granted(s'.log, k, g.id, g.agent, g.token);
      if k < |s.log| {
        GrantedExtends(s.log, e, k, g);
      } else {
        assert s'.log[..k] == s.log;
      }
    }
  }

  /** In every reachable state, each lease ever granted has been answered, so its agent can learn of it. */
  lemma {:induction false} GrantsAreOffered(steps: seq<Step>)
    requires Reached(steps).Some?
    ensures Offered(Reached(steps).value)
  {
    if steps != [] {
      var front, step := steps[..|steps| - 1], steps[|steps| - 1];
      GrantsAreOffered(front);
      if step.Control? || step.Deliver? {
        ExecutedKeepsOffered(Reached(front).value, step.stmt);
      }
    }
  }

  lemma ReachedNext(steps: seq<Step>, step: Step)
    requires Reached(steps).Some? && Enabled(Reached(steps).value, step)
    ensures Reached(steps + [step]) == Some(Next(Reached(steps).value, step))
  {
    assert (steps + [step])[..|steps|] == steps;
  }

  /** The run goes on with these steps, and they execute just this statement. */
  ghost predicate Executes(steps: seq<Step>, more: seq<Step>, stmt: Statement) {
    && Reached(steps).Some? && Reached(steps + more).Some?
    && Reached(steps + more).value.log == Reached(steps).value.log + [Event(Reached(steps).value.clock, stmt)]
  }

  /** At any point control may submit a job, attach a manifest or requeue. */
  lemma ControlCanAct(steps: seq<Step>, stmt: Statement)
    requires Reached(steps).Some? && (stmt.Insert? || stmt.Attach? || stmt.Requeue?)
    ensures Executes(steps, [Control(stmt)], stmt)
  {
    ReachedNext(steps, Control(stmt));
  }

  lemma TimeCanPass(steps: seq<Step>, elapsed: nat)
    requires Reached(steps).Some?
    ensures var s := Reached(steps).value;
            Reached(steps + [Tick(elapsed)]) == Some(s.(clock := s.clock + elapsed))
  {
    ReachedNext(steps, Tick(elapsed));
  }

  /** At any point any agent may claim any job, and if that succeeds the grant is answered. */
  lemma AgentCanClaim(steps: seq<Step>, id: JobId, agent: AgentId, ttl: Duration)
    requires Reached(steps).Some?
    ensures var claim := Claim(id, agent, ttl);
            Executes(steps, [Ask(id, agent, ttl), Deliver(claim)], claim)
  {
    var claim := Claim(id, agent, ttl);
    ReachedNext(steps, Ask(id, agent, ttl));
    ReachedNext(steps + [Ask(id, agent, ttl)], Deliver(claim));
    assert steps + [Ask(id, agent, ttl)] + [Deliver(claim)] == steps + [Ask(id, agent, ttl), Deliver(claim)];
  }

  /** At any point the agent of any lease ever granted may learn of it and renew it. */
  lemma AgentCanBeat(steps: seq<Step>, g: Grant, ttl: Duration)
    requires Reached(steps).Some? && GrantedInLog(Reached(steps).value.log, g)
    ensures var beat := Beat(g.id, g.agent, g.token, ttl);
            Executes(steps, [Learn(g), Renew(g, ttl), Deliver(beat)], beat)
  {
    var beat := Beat(g.id, g.agent, g.token, ttl);
    GrantsAreOffered(steps);
    var one := steps + [Learn(g)];
    ReachedNext(steps, Learn(g));
    ReachedNext(one, Renew(g, ttl));
    ReachedNext(one + [Renew(g, ttl)], Deliver(beat));
    assert one + [Renew(g, ttl)] + [Deliver(beat)] == steps + [Learn(g), Renew(g, ttl), Deliver(beat)];
  }

  /** And it may report any outcome, once, under that lease. */
  lemma AgentCanFinish(steps: seq<Step>, g: Grant, outcome: Outcome)
    requires Reached(steps).Some? && GrantedInLog(Reached(steps).value.log, g)
    requires g !in Reached(steps).value.outcomes
    ensures var finish := Finish(g.id, g.agent, g.token, outcome);
            Executes(steps, [Learn(g), Decide(g, outcome), Step.Report(g), Deliver(finish)], finish)
  {
    var finish := Finish(g.id, g.agent, g.token, outcome);
    GrantsAreOffered(steps);
    var one := steps + [Learn(g)];
    var two := one + [Decide(g, outcome)];
    ReachedNext(steps, Learn(g));
    ReachedNext(one, Decide(g, outcome));
    ReachedNext(two, Step.Report(g));
    ReachedNext(two + [Step.Report(g)], Deliver(finish));
    assert two + [Step.Report(g)] + [Deliver(finish)] ==
           steps + [Learn(g), Decide(g, outcome), Step.Report(g), Deliver(finish)];
  }

  /** After that it may only repeat the outcome, as often as it likes. */
  lemma AgentCanRepeat(steps: seq<Step>, g: Grant)
    requires Reached(steps).Some? && g in Reached(steps).value.outcomes
    ensures var finish := Finish(g.id, g.agent, g.token, Reached(steps).value.outcomes[g]);
            Executes(steps, [Step.Report(g), Deliver(finish)], finish)
  {
    var finish := Finish(g.id, g.agent, g.token, Reached(steps).value.outcomes[g]);
    ReachedNext(steps, Step.Report(g));
    ReachedNext(steps + [Step.Report(g)], Deliver(finish));
    assert steps + [Step.Report(g)] + [Deliver(finish)] == steps + [Step.Report(g), Deliver(finish)];
  }
}
