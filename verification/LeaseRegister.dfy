/** Leases kept in the DHT: Claim, Heartbeat and Release as checks run by the compare-and-set loop. */
module LeaseRegister {
  import opened Prelude
  import opened Durations
  import opened Cas

  /** `expires` is None for Go's zero time. */
  datatype Lease = Lease(owner: string, nonce: string, expires: Option<Time>, version: int)

  const ZERO := Lease("", "", None, 0)
  const DEFAULT_LEASE_TTL := 20 * SECOND

  /** A stored value as the decoder sees it: nothing, undecodable bytes, or a lease (`{}` decodes to ZERO). */
  datatype Value = Empty | Garbage | Doc(lease: Lease)

  datatype LeaseError = Busy | Stolen | BadJson

  type LeaseCheck = Checker<Value, LeaseError>

  function TtlOr(ttl: Duration): Duration {
    if ttl <= 0 then DEFAULT_LEASE_TTL else ttl
  }

  function Decoded(prev: Option<Value>): Lease {
    if prev.Some? && prev.value.Doc? then prev.value.lease else ZERO
  }

  predicate Live(l: Lease, now: Time) {
    l.owner != "" && l.expires.Some? && l.expires.value > now
  }

  function ClaimCheck(me: string, nonce: string, ttl: Duration): LeaseCheck {
    (prev: Option<Value>, now: Time) =>
      var cur := Decoded(prev);
      if Live(cur, now) then Refuse(Busy)
      else Store(Doc(Lease(me, nonce, Some(now + TtlOr(ttl)), cur.version + 1)))
  }

  function HeartbeatCheck(me: string, nonce: string, ttl: Duration): LeaseCheck {
    (prev: Option<Value>, now: Time) =>
      if prev.None? || prev.value.Empty? then NotNow
      else if prev.value.Garbage? then Refuse(BadJson)
      else
        var cur := prev.value.lease;
        if cur.owner != me || cur.nonce != nonce then Refuse(Stolen)
        else Store(Doc(cur.(expires := Some(now + TtlOr(ttl)), version := cur.version + 1)))
  }

  function ReleaseCheck(me: string, nonce: string): LeaseCheck {
    (prev: Option<Value>, now: Time) =>
      if prev.None? || prev.value.Empty? then NotNow
      else if prev.value.Garbage? then Refuse(BadJson)
      else
        var cur := prev.value.lease;
        if cur.owner != me || cur.nonce != nonce then Refuse(Stolen)
        else Store(Doc(Lease("", "", None, cur.version + 1)))
  }

  // ---------- the atomic lease object ----------

  /** Who a lease belongs to; a released lease belongs to nobody. */
  datatype Credential = Credential(owner: string, nonce: string)

  const NOBODY := Credential("", "")

  /** The object clients believe they share. */
  datatype Shared = Absent | Corrupt | Kept(holder: Credential, expires: Option<Time>, version: int) {
    function Version(): int {
      if Kept? then version else 0
    }

    /** A lease excludes claims while it is unexpired, provided that its owner has a name. */
    predicate Excludes(now: Time) {
      Kept? && holder.owner != "" && expires.Some? && expires.value > now
    }
  }

  datatype Op =
    | ClaimOp(client: Credential, ttl: Duration, now: Time)
    | HeartbeatOp(client: Credential, ttl: Duration, now: Time)
    | ReleaseOp(client: Credential, now: Time)
  {
    /** How long the lease asked for lasts: as requested, or twenty seconds. */
    function Lasts(): Duration
      requires !ReleaseOp?
    {
      if ttl > 0 then ttl else 20 * SECOND
    }
  }

  function Atomic(o: Shared, op: Op): (Shared, Option<CasError<LeaseError>>) {
    if op.ClaimOp? then
      if o.Excludes(op.now) then (o, Some(Refused(Busy)))
      else (Kept(op.client, Some(op.now + op.Lasts()), o.Version() + 1), None)
    else if o.Absent? then (o, Some(Conflict))
    else if o.Corrupt? then (o, Some(Refused(BadJson)))
    else if o.holder != op.client then (o, Some(Refused(Stolen)))
    else if op.HeartbeatOp? then (Kept(o.holder, Some(op.now + op.Lasts()), o.version + 1), None)
    else (Kept(NOBODY, None, o.version + 1), None)
  }

  function Abs(reg: Option<Value>): Shared {
    match reg
    case None => Absent
    case Some(Empty) => Absent
    case Some(Garbage) => Corrupt
    case Some(Doc(l)) => Kept(Credential(l.owner, l.nonce), l.expires, l.version)
  }

  // ---------- operations over an undisturbed register ----------

  function CheckOf(op: Op): LeaseCheck {
    match op
    case ClaimOp(c, ttl, _) => ClaimCheck(c.owner, c.nonce, ttl)
    case HeartbeatOp(c, ttl, _) => HeartbeatCheck(c.owner, c.nonce, ttl)
    case ReleaseOp(c, _) => ReleaseCheck(c.owner, c.nonce)
  }

  /** The register after an operation whose check looks at it at the operation's time. */
  function RegisterStep(reg: Option<Value>, op: Op): Option<Value> {
    match CheckOf(op)(reg, op.now)
    case Store(next) => Some(next)
    case _ => reg
  }

  function ErrorOf(r: Result<Value, CasError<LeaseError>>): Option<CasError<LeaseError>> {
    match r
    case Ok(_) => None
    case Err(e) => Some(e)
  }

  /**
   No one else touches the register during the operation: every read returns it, from the network
   or from the local fallback, and a put is read back or, without peers, goes to the fallback.
   */
  ghost predicate Undisturbed(
    peers: bool, net: nat -> Attempt<Value>, key: string, local: map<string, Value>,
    reg: Option<Value>, check: LeaseCheck)
  {
    forall k: nat :: k < ATTEMPTS ==>
      var a := net(k);
      && a.before == a.after == local
      && Or(a.read, local, key) == reg
      && a.put == (if peers then Put else NoPeers)
      && (peers && check(reg, a.now).Store? ==> a.verify == Some(check(reg, a.now).next))
  }

  /** The check of an operation decides as the atomic object does, for every client and every stored value. */
  lemma CheckIsAtomic(reg: Option<Value>, op: Op)
    ensures var (o, err), c := Atomic(Abs(reg), op), CheckOf(op)(reg, op.now);
            && (c.Store? ==> err == None && o == Abs(Some(c.next)))
            && (c.Refuse? ==> err == Some(Refused(c.error)) && o == Abs(reg))
            && (c.NotNow? ==> err == Some(Conflict) && o == Abs(reg))
            && (c.NotNow? <==> (reg.None? || reg.value.Empty?) && !op.ClaimOp?)
            && (c == Refuse(BadJson) <==> reg == Some(Garbage) && !op.ClaimOp?)
  {
  }

  lemma {:induction false} NothingWritten(net: nat -> Attempt<Value>, n: nat, key: string, check: LeaseCheck)
    requires forall k: nat :: k < n ==> Asked(net(k), key, check) == []
    ensures forall m: nat :: m <= n ==> Written(net, m, key, check) == []
  {
    if n > 0 {
      NothingWritten(net, n - 1, key, check);
    }
  }

  /** An absent lease stays "not now" at every attempt, so nothing is ever written. */
  lemma NotNowForever(
    peers: bool, net: nat -> Attempt<Value>, key: string, local: map<string, Value>, reg: Option<Value>, op: Op)
    requires Undisturbed(peers, net, key, local, reg, CheckOf(op))
    requires !op.ClaimOp? && Abs(reg).Absent?
    ensures forall k: nat :: k < ATTEMPTS ==> TryOnce(net(k), key, CheckOf(op)) == Again(Conflict)
    ensures forall n: nat :: n <= ATTEMPTS ==> Written(net, n, key, CheckOf(op)) == []
  {
    forall k: nat | k < ATTEMPTS
      ensures TryOnce(net(k), key, CheckOf(op)) == Again(Conflict) && Asked(net(k), key, CheckOf(op)) == []
    {
      assert Or(net(k).read, net(k).before, key) == reg;
    }
    NothingWritten(net, ATTEMPTS, key, CheckOf(op));
  }

  /** Unless the lease is absent, the first attempt ends the loop. */
  lemma FirstAttemptDecides(
    peers: bool, net: nat -> Attempt<Value>, key: string, local: map<string, Value>, reg: Option<Value>, op: Op)
    requires op.now == net(0).now && Undisturbed(peers, net, key, local, reg, CheckOf(op))
    requires !CheckOf(op)(reg, op.now).NotNow?
    ensures var c, v := CheckOf(op)(reg, op.now), TryOnce(net(0), key, CheckOf(op));
            && v == (if c.Refuse? then Stopped(c.error) else if peers then Committed(c.next) else StoredLocally(c.next))
            && Written(net, 1, key, CheckOf(op)) == (if c.Store? then [c.next] else [])
  {
    assert Or(net(0).read, net(0).before, key) == reg;
    var check := CheckOf(op);
    assert Written(net, 1, key, check) == Written(net, 0, key, check) + Asked(net(0), key, check);
  }

  /** Where the loop ends on an undisturbed register, and with what. */
  lemma LoopIsAtomic(
    peers: bool, net: nat -> Attempt<Value>, key: string, local: map<string, Value>,
    reg: Option<Value>, op: Op, used: nat)
    requires op.now == net(0).now && Undisturbed(peers, net, key, local, reg, CheckOf(op))
    requires 1 <= used <= ATTEMPTS
    requires Retried(net, used - 1, key, CheckOf(op))
    requires TryOnce(net(used - 1), key, CheckOf(op)).Again? ==> used == ATTEMPTS
    ensures var v := TryOnce(net(used - 1), key, CheckOf(op));
            var r := Concluded(v);
            && ErrorOf(r) == Atomic(Abs(reg), op).1
            && Abs(RegisterStep(reg, op)) == Atomic(Abs(reg), op).0
            && RegisterStep(reg, op) == (if r.Ok? then Some(r.value) else reg)
            && (v.StoredLocally? <==> r.Ok? && !peers)
            && Written(net, used, key, CheckOf(op)) == (if r.Ok? then [r.value] else [])
            && (r == Err(Conflict) ==> used == ATTEMPTS && v.Again?)
            && (r != Err(Conflict) ==> used == 1)
  {
    CheckIsAtomic(reg, op);
    if CheckOf(op)(reg, op.now).NotNow? {
      NotNowForever(peers, net, key, local, reg, op);
    } else {
      FirstAttemptDecides(peers, net, key, local, reg, op);
    }
  }

  /**
   Each operation over an undisturbed register behaves as one atomic step taken when its first
   attempt reads: it succeeds, fails and changes the register exactly as the atomic object does.
   An operation that fails writes nothing; renewing or releasing an absent lease tries five times.
   */
  method Operate(
    node: Node<Value>, key: string, op: Op, ghost peers: bool, net: nat -> Attempt<Value>, ghost reg: Option<Value>)
    returns (r: Result<Value, CasError<LeaseError>>, used: nat, writes: seq<Value>, slept: nat)
    requires op.now == net(0).now
    requires Undisturbed(peers, net, key, node.localStore, reg, CheckOf(op))
    modifies node
    ensures ErrorOf(r) == Atomic(Abs(reg), op).1
    ensures Abs(RegisterStep(reg, op)) == Atomic(Abs(reg), op).0
    ensures RegisterStep(reg, op) == if r.Ok? then Some(r.value) else reg
    ensures node.localStore == if r.Ok? && !peers then old(node.localStore)[key := r.value] else old(node.localStore)
    ensures writes == if r.Ok? then [r.value] else []
    ensures r == Err(Conflict) ==> used == ATTEMPTS && 3100 <= slept <= 4095
    ensures r != Err(Conflict) ==> used == 1
  {
    ghost var local := node.localStore;
    r, used, writes, slept := node.PutJSONCAS(key, CheckOf(op), net);
    LoopIsAtomic(peers, net, key, local, reg, op, used);
    assert net(used - 1).before == net(used - 1).after == local;
    BackoffBounds(net);
  }

  // ---------- runs of the atomic object ----------

  function RegisterAt(reg: Option<Value>, ops: seq<Op>, i: nat): Option<Value>
    requires i <= |ops|
  {
    if i == 0 then reg else RegisterStep(RegisterAt(reg, ops, i - 1), ops[i - 1])
  }

  function ObjectAt(start: Shared, ops: seq<Op>, i: nat): Shared
    requires i <= |ops|
  {
    if i == 0 then start else Atomic(ObjectAt(start, ops, i - 1), ops[i - 1]).0
  }

  /** Any run of claims, heartbeats and releases on the register is a run of the atomic object. */
  lemma {:induction false} RegisterRefinesObject(reg: Option<Value>, ops: seq<Op>, i: nat)
    requires i <= |ops|
    ensures Abs(RegisterAt(reg, ops, i)) == ObjectAt(Abs(reg), ops, i)
  {
    if i > 0 {
      RegisterRefinesObject(reg, ops, i - 1);
      CheckIsAtomic(RegisterAt(reg, ops, i - 1), ops[i - 1]);
    }
  }

  /** The fallback store before operation `i`: what the operations without peers left there. */
  function FallbackAt(
    local: map<string, Value>, key: string, reg: Option<Value>, ops: seq<Op>, peers: nat -> bool, i: nat)
    : map<string, Value>
    requires i <= |ops|
    decreases i
  {
    if i == 0 then local
    else
      var before := FallbackAt(local, key, reg, ops, peers, i - 1);
      match CheckOf(ops[i - 1])(RegisterAt(reg, ops, i - 1), ops[i - 1].now)
      case Store(next) => if peers(i - 1) then before else before[key := next]
      case _ => before
  }

  /** Nobody else touches the register during operation `i` of the run. */
  ghost predicate UndisturbedAt(
    local: map<string, Value>, key: string, reg: Option<Value>, ops: seq<Op>,
    peers: nat -> bool, net: nat -> Attempt<Value>, i: nat)
    requires i < |ops|
  {
    && ops[i].now == net(0).now
    && Undisturbed(peers(i), net, key, FallbackAt(local, key, reg, ops, peers, i),
                   RegisterAt(reg, ops, i), CheckOf(ops[i]))
  }

  /** Nobody else touches the register during any operation of the run. */
  ghost predicate RunUndisturbed(
    local: map<string, Value>, key: string, reg: Option<Value>, ops: seq<Op>,
    peers: nat -> bool, nets: nat -> nat -> Attempt<Value>)
  {
    forall i: nat {:trigger UndisturbedAt(local, key, reg, ops, peers, nets(i), i)} ::
      i < |ops| ==> UndisturbedAt(local, key, reg, ops, peers, nets(i), i)
  }

  function AnswerTo(start: Shared, ops: seq<Op>, i: nat): Option<CasError<LeaseError>>
    requires i < |ops|
  {
    Atomic(ObjectAt(start, ops, i), ops[i]).1
  }

  /** What the atomic object answers to the first `n` operations; None is success. */
  function Answers(start: Shared, ops: seq<Op>, n: nat): seq<Option<CasError<LeaseError>>>
    requires n <= |ops|
    decreases n
  {
    if n == 0 then [] else Answers(start, ops, n - 1) + [AnswerTo(start, ops, n - 1)]
  }

  predicate Always(i: nat) {
    true
  }

  /** What a network with peers answers to operation `i` if nobody disturbs it. */
  function CalmAt(local: map<string, Value>, reg: Option<Value>, ops: seq<Op>, i: nat): nat -> Attempt<Value>
    requires i < |ops|
  {
    var read, now := RegisterAt(reg, ops, i), ops[i].now;
    var verify := match CheckOf(ops[i])(read, now) case Store(next) => Some(next) case _ => None;
    (k: nat) => Attempt(read, now, Put, verify, 0, 0, local, local)
  }

  lemma {:induction false} FallbackUnused(
    local: map<string, Value>, key: string, reg: Option<Value>, ops: seq<Op>, i: nat)
    requires i <= |ops|
    ensures FallbackAt(local, key, reg, ops, Always, i) == local
    decreases i
  {
    if i > 0 {
      FallbackUnused(local, key, reg, ops, i - 1);
    }
  }

  /** Every sequence of operations has an undisturbed run. */
  lemma CalmRun(
    local: map<string, Value>, key: string, reg: Option<Value>, ops: seq<Op>, nets: nat -> nat -> Attempt<Value>)
    requires key !in local
    requires forall i: nat :: i < |ops| ==> nets(i) == CalmAt(local, reg, ops, i)
    ensures RunUndisturbed(local, key, reg, ops, Always, nets)
  {
    forall i: nat | i < |ops|
      ensures UndisturbedAt(local, key, reg, ops, Always, nets(i), i)
    {
      FallbackUnused(local, key, reg, ops, i);
    }
  }

  lemma StepRefines(
    local: map<string, Value>, key: string, reg: Option<Value>, ops: seq<Op>, peers: nat -> bool, i: nat,
    r: Result<Value, CasError<LeaseError>>)
    requires i < |ops|
    requires var now := RegisterAt(reg, ops, i);
             && ErrorOf(r) == Atomic(Abs(now), ops[i]).1
             && RegisterStep(now, ops[i]) == if r.Ok? then Some(r.value) else now
    ensures ErrorOf(r) == AnswerTo(Abs(reg), ops, i)
    ensures var before := FallbackAt(local, key, reg, ops, peers, i);
            FallbackAt(local, key, reg, ops, peers, i + 1) ==
            if r.Ok? && !peers(i) then before[key := r.value] else before
  {
    RegisterRefinesObject(reg, ops, i);
    CheckIsAtomic(RegisterAt(reg, ops, i), ops[i]);
  }

  /** Operation `i` of a run through the compare-and-set loop. */
  method OperateAt(
    node: Node<Value>, key: string, ops: seq<Op>, ghost peers: nat -> bool, nets: nat -> nat -> Attempt<Value>,
    ghost local: map<string, Value>, ghost reg: Option<Value>, i: nat)
    returns (r: Result<Value, CasError<LeaseError>>)
    requires i < |ops| && node.localStore == FallbackAt(local, key, reg, ops, peers, i)
    requires RunUndisturbed(local, key, reg, ops, peers, nets)
    modifies node
    ensures ErrorOf(r) == AnswerTo(Abs(reg), ops, i)
    ensures node.localStore == FallbackAt(local, key, reg, ops, peers, i + 1)
  {
    assert UndisturbedAt(local, key, reg, ops, peers, nets(i), i);
    var used, writes, slept;
    r, used, writes, slept := Operate(node, key, ops[i], peers(i), nets(i), RegisterAt(reg, ops, i));
    StepRefines(local, key, reg, ops, peers, i, r);
  }

  /**
   A run of the compare-and-set loop is a run of the atomic object: claims, heartbeats and releases
   of any clients, one after the other, return what the object answers and leave its state in the
   register, with the network reachable for some of them and not for others.
   */
  method RunOperations(
    node: Node<Value>, key: string, ops: seq<Op>, ghost peers: nat -> bool, nets: nat -> nat -> Attempt<Value>,
    ghost reg: Option<Value>)
    returns (errors: seq<Option<CasError<LeaseError>>>)
    requires RunUndisturbed(node.localStore, key, reg, ops, peers, nets)
    modifies node
    ensures errors == Answers(Abs(reg), ops, |ops|)
    ensures Abs(RegisterAt(reg, ops, |ops|)) == ObjectAt(Abs(reg), ops, |ops|)
    ensures node.localStore == FallbackAt(old(node.localStore), key, reg, ops, peers, |ops|)
  {
    errors := [];
    ghost var local := node.localStore;
    var i := 0;
    while i < |ops|
      invariant i <= |ops| && errors == Answers(Abs(reg), ops, i)
      invariant node.localStore == FallbackAt(local, key, reg, ops, peers, i)
    {
      var r := OperateAt(node, key, ops, peers, nets, local, reg, i);
      errors := errors + [ErrorOf(r)];
      i := i + 1;
    }
    RegisterRefinesObject(reg, ops, |ops|);
  }

  predicate Effective(start: Shared, ops: seq<Op>, i: nat)
    requires i < |ops|
  {
    AnswerTo(start, ops, i).None?
  }

  ghost function EffectiveOps(start: Shared, ops: seq<Op>, i: nat): nat
    requires i <= |ops|
  {
    if i == 0 then 0 else EffectiveOps(start, ops, i - 1) + if Effective(start, ops, i - 1) then 1 else 0
  }

  /** The version counts the effective operations, so it works as a fencing token: it never repeats or decreases. */
  lemma {:induction false} VersionCounts(start: Shared, ops: seq<Op>, i: nat)
    requires i <= |ops|
    ensures ObjectAt(start, ops, i).Version() == start.Version() + EffectiveOps(start, ops, i)
  {
    if i > 0 {
      VersionCounts(start, ops, i - 1);
    }
  }

  /** What an effective operation leaves behind: the client's lease for as long as it asked, or nobody's. */
  lemma EffectiveStores(start: Shared, ops: seq<Op>, i: nat)
    requires i < |ops| && Effective(start, ops, i)
    ensures var op, o := ops[i], ObjectAt(start, ops, i + 1);
            && o.Kept? && o.version == ObjectAt(start, ops, i).Version() + 1
            && (op.ReleaseOp? ==> o.holder == Credential("", "") && o.expires.None?)
            && (!op.ReleaseOp? ==>
                  o.holder == op.client && o.expires == Some(op.now + if op.ttl > 0 then op.ttl else 20 * SECOND))
  {
  }

  // ---------- who may renew and release ----------

  /** Whom a claim or a release leaves as the holder. */
  function Leaves(op: Op): Credential {
    if op.ReleaseOp? then NOBODY else op.client
  }

  /** From operation `from` up to `j`, the effective operations only renew. */
  ghost predicate OnlyRenewed(start: Shared, ops: seq<Op>, from: nat, j: nat)
    requires j <= |ops|
  {
    forall k: nat :: from <= k < j && Effective(start, ops, k) ==> ops[k].HeartbeatOp?
  }

  /** Operation `i` is the last before `j` that changed hands. */
  ghost predicate SetsHolder(start: Shared, ops: seq<Op>, i: nat, j: nat)
    requires i < j <= |ops|
  {
    Effective(start, ops, i) && !ops[i].HeartbeatOp? && OnlyRenewed(start, ops, i + 1, j)
  }

  lemma {:induction false} HolderKept(start: Shared, ops: seq<Op>, from: nat, j: nat)
    requires from <= j <= |ops| && ObjectAt(start, ops, from).Kept? && OnlyRenewed(start, ops, from, j)
    ensures ObjectAt(start, ops, j).Kept? && ObjectAt(start, ops, j).holder == ObjectAt(start, ops, from).holder
    decreases j
  {
    if from < j {
      HolderKept(start, ops, from, j - 1);
      assert Effective(start, ops, j - 1) ==> ops[j - 1].HeartbeatOp?;
    }
  }

  lemma OnlyRenewedNext(start: Shared, ops: seq<Op>, from: nat, j: nat)
    requires j < |ops| && OnlyRenewed(start, ops, from, j)
    requires Effective(start, ops, j) ==> ops[j].HeartbeatOp?
    ensures OnlyRenewed(start, ops, from, j + 1)
  {
  }

  /** A stored lease has been there from the start or was last handed over by operation `from - 1`. */
  lemma {:induction false} HolderWasSet(start: Shared, ops: seq<Op>, j: nat) returns (from: nat)
    requires j <= |ops| && ObjectAt(start, ops, j).Kept?
    ensures from <= j
    ensures if from == 0 then start.Kept? && OnlyRenewed(start, ops, 0, j) else SetsHolder(start, ops, from - 1, j)
    decreases j
  {
    if j == 0 || (Effective(start, ops, j - 1) && !ops[j - 1].HeartbeatOp?) {
      from := j;
    } else {
      from := HolderWasSet(start, ops, j - 1);
      OnlyRenewedNext(start, ops, from, j - 1);
    }
  }

  lemma SetterLeaves(start: Shared, ops: seq<Op>, i: nat, j: nat)
    requires i < j <= |ops| && SetsHolder(start, ops, i, j)
    ensures ObjectAt(start, ops, j).Kept? && ObjectAt(start, ops, j).holder == Leaves(ops[i])
  {
    HolderKept(start, ops, i + 1, j);
  }

  /**
   In any run, a heartbeat or release takes effect exactly when it presents the credential left by
   the last operation that changed hands: the claimer's own, or nobody's after a release. Before
   any such operation it is that of the lease the run began with.
   */
  lemma RenewedByHolderIff(start: Shared, ops: seq<Op>, j: nat)
    requires j < |ops| && !ops[j].ClaimOp?
    ensures Effective(start, ops, j) <==>
            || (start.Kept? && start.holder == ops[j].client && OnlyRenewed(start, ops, 0, j))
            || (exists i :: 0 <= i < j && SetsHolder(start, ops, i, j) && Leaves(ops[i]) == ops[j].client)
  {
    if ObjectAt(start, ops, j).Kept? {
      var from := HolderWasSet(start, ops, j);
      HolderKept(start, ops, from, j);
    }
    if start.Kept? && OnlyRenewed(start, ops, 0, j) {
      HolderKept(start, ops, 0, j);
    }
    forall i | 0 <= i < j && SetsHolder(start, ops, i, j)
      ensures ObjectAt(start, ops, j).Kept? && ObjectAt(start, ops, j).holder == Leaves(ops[i])
    {
      SetterLeaves(start, ops, i, j);
    }
  }

  // ---------- who may claim ----------

  /** From operation `from` up to `j`, nothing takes effect. */
  ghost predicate Untouched(start: Shared, ops: seq<Op>, from: nat, j: nat)
    requires j <= |ops|
  {
    forall k: nat :: from <= k < j ==> !Effective(start, ops, k)
  }

  lemma {:induction false} UntouchedKept(start: Shared, ops: seq<Op>, from: nat, j: nat)
    requires from <= j <= |ops| && Untouched(start, ops, from, j)
    ensures ObjectAt(start, ops, j) == ObjectAt(start, ops, from)
    decreases j
  {
    if from < j {
      UntouchedKept(start, ops, from, j - 1);
      assert !Effective(start, ops, j - 1);
    }
  }

  /** The number of operations up to and including the last effective one. */
  lemma {:induction false} LastEffective(start: Shared, ops: seq<Op>, j: nat) returns (from: nat)
    requires j <= |ops|
    ensures from <= j && Untouched(start, ops, from, j)
    ensures from > 0 ==> Effective(start, ops, from - 1)
    decreases j
  {
    if j == 0 || Effective(start, ops, j - 1) {
      from := j;
    } else {
      from := LastEffective(start, ops, j - 1);
    }
  }

  /** The lease this operation writes is a named client's and lasts beyond `now`. */
  predicate Bars(op: Op, now: Time) {
    !op.ReleaseOp? && op.client.owner != "" && now < op.now + if op.ttl > 0 then op.ttl else 20 * SECOND
  }

  lemma BarsIsExcludes(start: Shared, ops: seq<Op>, i: nat, j: nat, now: Time)
    requires i < j <= |ops| && Effective(start, ops, i) && Untouched(start, ops, i + 1, j)
    ensures ObjectAt(start, ops, j).Excludes(now) <==> Bars(ops[i], now)
  {
    UntouchedKept(start, ops, i + 1, j);
  }

  /**
   In any run, a claim takes effect exactly when the last effective operation before it, or without
   one the lease the run began with, does not bar it.
   */
  lemma ClaimedIff(start: Shared, ops: seq<Op>, j: nat)
    requires j < |ops| && ops[j].ClaimOp?
    ensures Effective(start, ops, j) <==>
            && !(start.Excludes(ops[j].now) && Untouched(start, ops, 0, j))
            && !(exists i :: 0 <= i < j && Effective(start, ops, i) && Untouched(start, ops, i + 1, j) &&
                   Bars(ops[i], ops[j].now))
  {
    var from := LastEffective(start, ops, j);
    if from > 0 {
      BarsIsExcludes(start, ops, from - 1, j, ops[j].now);
    }
    if Untouched(start, ops, 0, j) {
      UntouchedKept(start, ops, 0, j);
    }
    forall i | 0 <= i < j && Effective(start, ops, i) && Untouched(start, ops, i + 1, j)
      ensures ObjectAt(start, ops, j).Excludes(ops[j].now) <==> Bars(ops[i], ops[j].now)
    {
      BarsIsExcludes(start, ops, i, j, ops[j].now);
    }
  }

  /**
   Why an operation is refused, in any run: a claim because the lease is busy; a heartbeat or release
   because there is no lease, or it cannot be decoded, or, once anything was stored, because it
   belongs to someone else.
   */
  lemma RefusedBecause(start: Shared, ops: seq<Op>, j: nat)
    requires j < |ops| && !Effective(start, ops, j)
    ensures AnswerTo(start, ops, j) ==
            if ops[j].ClaimOp? then Some(Refused(Busy))
            else if start.Absent? && Untouched(start, ops, 0, j) then Some(Conflict)
            else if start.Corrupt? && Untouched(start, ops, 0, j) then Some(Refused(BadJson))
            else Some(Refused(Stolen))
  {
    var from := LastEffective(start, ops, j);
    UntouchedKept(start, ops, from, j);
    if from > 0 {
      assert Effective(start, ops, from - 1);
    }
  }

  // ---------- exclusion ----------

  ghost predicate InClockOrder(ops: seq<Op>) {
    forall i, j :: 0 <= i < j < |ops| ==> ops[i].now <= ops[j].now
  }

  /** A claim right after an effective one succeeds exactly when the lease has expired or its owner has no name. */
  lemma ClaimExcludesIff(o: Shared, op: Op, rival: Op)
    requires op.ClaimOp? && rival.ClaimOp? && Atomic(o, op).1.None?
    ensures Atomic(Atomic(o, op).0, rival).1.None? <==>
            op.client.owner == "" || op.now + (if op.ttl > 0 then op.ttl else 20 * SECOND) <= rival.now
  {
  }

  /** Until its holder acts again, a lease of a named owner stays in place or its expiry has passed. */
  lemma {:induction false} HeldUntilExpiry(start: Shared, ops: seq<Op>, i: nat, j: nat)
    requires i < j <= |ops| && InClockOrder(ops)
    requires Effective(start, ops, i) && !ops[i].ReleaseOp? && ops[i].client.owner != ""
    requires forall k :: i < k < j && Effective(start, ops, k) ==> ops[k].client != ops[i].client
    ensures var expires := ops[i].now + if ops[i].ttl > 0 then ops[i].ttl else 20 * SECOND;
            var o := ObjectAt(start, ops, j);
            (o.Kept? && o.holder == ops[i].client && o.expires == Some(expires)) || expires <= ops[j - 1].now
  {
    if i + 1 < j {
      HeldUntilExpiry(start, ops, i, j - 1);
    }
  }

  /** Exclusion: another claim succeeds only once the lease last written by a named client has lapsed or is given up. */
  lemma ClaimsExclude(start: Shared, ops: seq<Op>, i: nat, j: nat)
    requires i < j < |ops| && InClockOrder(ops)
    requires Effective(start, ops, i) && !ops[i].ReleaseOp? && ops[i].client.owner != ""
    requires forall k :: i < k < j && Effective(start, ops, k) ==> ops[k].client != ops[i].client
    requires ops[j].ClaimOp? && Effective(start, ops, j)
    ensures ops[i].now + (if ops[i].ttl > 0 then ops[i].ttl else 20 * SECOND) <= ops[j].now
  {
    HeldUntilExpiry(start, ops, i, j);
  }
}
