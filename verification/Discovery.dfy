/** How agents find jobs: the sharded task index and the discoverer's debounce. */
module Discovery {
  import opened Prelude
  import opened Durations

  const SHARDS := 32

  // ---------- the sharded index ----------

  lemma {:induction false} DistinctCounts(ids: seq<string>, id: string)
    requires Distinct(ids)
    ensures multiset(ids)[id] == if id in ids then 1 else 0
  {
    if ids != [] {
      var front := ids[..|ids| - 1];
      DistinctCounts(front, id);
      assert ids == front + [ids[|ids| - 1]];
    }
  }

  /** How a shard's write ends; one that reports failure may still have stored the shard. */
  datatype Write = Acknowledged | Failed(stored: bool)

  /**
   One call: the shard drawn, whether its read succeeds, how many of the calls listed before it had
   written when it read, and how its write ends. Calls are listed in the order of their writes.
   */
  datatype Add = Add(id: string, shard: nat, readable: bool, readAt: nat, write: Write) {
    predicate Stored() {
      write != Failed(false)
    }
  }

  ghost predicate Shards(shards: seq<seq<string>>) {
    |shards| == SHARDS && (forall i :: 0 <= i < SHARDS ==> Distinct(shards[i]))
  }

  /** The shards after a call that read `seen` in its shard: a failed read counts as an empty shard. */
  function Added(shards: seq<seq<string>>, seen: seq<string>, a: Add): seq<seq<string>>
    requires |shards| == SHARDS && a.shard < SHARDS
  {
    var ids := if a.readable then seen else [];
    if a.id in ids || !a.Stored() then shards else shards[a.shard := ids + [a.id]]
  }

  lemma AddedKeepsShards(shards: seq<seq<string>>, seen: seq<string>, a: Add)
    requires Shards(shards) && Distinct(seen) && a.shard < SHARDS
    ensures Shards(Added(shards, seen, a))
  {
  }

  /** The first `n` shards that can be read and hold the id. */
  ghost function Holding(shards: seq<seq<string>>, readable: nat -> bool, n: nat, id: string): set<nat>
    requires n <= |shards|
  {
    set i: nat | i < n && readable(i) && id in shards[i]
  }

  lemma HoldingStep(shards: seq<seq<string>>, readable: nat -> bool, n: nat, id: string)
    requires n < |shards|
    ensures |Holding(shards, readable, n + 1, id)| ==
            |Holding(shards, readable, n, id)| + if readable(n) && id in shards[n] then 1 else 0
  {
    var fewer := Holding(shards, readable, n, id);
    assert Holding(shards, readable, n + 1, id) == if readable(n) && id in shards[n] then fewer + {n} else fewer;
  }

  lemma HoldingSome(shards: seq<seq<string>>, readable: nat -> bool, id: string)
    requires |shards| == SHARDS
    ensures |Holding(shards, readable, SHARDS, id)| > 0 <==>
            exists i: nat :: i < SHARDS && readable(i) && id in shards[i]
  {
    var holding := Holding(shards, readable, SHARDS, id);
    if holding != {} {
      var i :| i in holding;
      assert i < SHARDS && readable(i) && id in shards[i];
    }
    if i: nat :| i < SHARDS && readable(i) && id in shards[i] {
      assert i in holding;
    }
  }

  /** The contents of the readable ones among the first `n` shards, in order. */
  function Joined(shards: seq<seq<string>>, readable: nat -> bool, n: nat): seq<string>
    requires n <= |shards|
  {
    if n == 0 then []
    else if readable(n - 1) then Joined(shards, readable, n - 1) + shards[n - 1]
    else Joined(shards, readable, n - 1)
  }

  lemma CountsAddUp(xs: seq<string>, ys: seq<string>, id: string)
    ensures multiset(xs + ys)[id] == multiset(xs)[id] + multiset(ys)[id]
  {
    assert multiset(xs + ys) == multiset(xs) + multiset(ys);
  }

  /** No shard holds the id twice. */
  ghost predicate OnceEach(shards: seq<seq<string>>, id: string) {
    forall i :: 0 <= i < |shards| ==> multiset(shards[i])[id] == if id in shards[i] then 1 else 0
  }

  lemma ShardsOnceEach(shards: seq<seq<string>>, id: string)
    requires Shards(shards)
    ensures OnceEach(shards, id)
  {
    forall i | 0 <= i < |shards|
      ensures multiset(shards[i])[id] == if id in shards[i] then 1 else 0
    {
      DistinctCounts(shards[i], id);
    }
  }

  ghost function Count(shards: seq<seq<string>>, readable: nat -> bool, n: nat, id: string): nat
    requires n <= |shards|
  {
    if n == 0 then 0 else Count(shards, readable, n - 1, id) + if readable(n - 1) && id in shards[n - 1] then 1 else 0
  }

  lemma {:induction false} CountIsHolding(shards: seq<seq<string>>, readable: nat -> bool, n: nat, id: string)
    requires n <= |shards|
    ensures Count(shards, readable, n, id) == |Holding(shards, readable, n, id)| <= n
    decreases n
  {
    if n == 0 {
      assert Holding(shards, readable, 0, id) == {};
    } else {
      CountIsHolding(shards, readable, n - 1, id);
      HoldingStep(shards, readable, n - 1, id);
    }
  }

  lemma {:induction false} JoinedCounts(shards: seq<seq<string>>, readable: nat -> bool, n: nat, id: string)
    requires OnceEach(shards, id) && n <= |shards|
    ensures multiset(Joined(shards, readable, n))[id] == Count(shards, readable, n, id)
    decreases n
  {
    if n > 0 {
      JoinedCounts(shards, readable, n - 1, id);
      if readable(n - 1) {
        CountsAddUp(Joined(shards, readable, n - 1), shards[n - 1], id);
      }
    }
  }

  class Index {
    var shards: seq<seq<string>>

    constructor ()
      ensures shards == seq(32, _ => []) && Shards(shards)
    {
      shards := seq(SHARDS, _ => []);
    }

    /**
     Read one shard, append the id unless it is there, and write the shard back. Between the read and
     the write other calls may have left the shards as `meanwhile`.
     */
    method AddToIndex(a: Add, meanwhile: seq<seq<string>>) returns (ok: bool)
      requires Shards(shards) && Shards(meanwhile) && a.shard < SHARDS
      modifies this
      ensures Shards(shards) && shards == Added(meanwhile, old(shards)[a.shard], a)
      ensures ok <==> a.write.Acknowledged? || (a.readable && a.id in old(shards)[a.shard])
      ensures ok && meanwhile == old(shards) ==> a.id in shards[a.shard]
      ensures a.readable && a.Stored() && a.id !in old(shards)[a.shard] ==>
                shards == meanwhile[a.shard := old(shards)[a.shard] + [a.id]]
    {
      var ids := if a.readable then shards[a.shard] else [];
      AddedKeepsShards(meanwhile, shards[a.shard], a);
      shards := meanwhile;
      var i := 0;
      while i < |ids|
        invariant i <= |ids| && a.id !in ids[..i]
      {
        if ids[i] == a.id {
          return true;
        }
        i := i + 1;
      }
      ok := a.write.Acknowledged?;
      if a.Stored() {
        shards := shards[a.shard := ids + [a.id]];
      }
    }

    /** The readable shards one after the other: every id as often as readable shards hold it, so at most 32 times. */
    method ListFromIndex(readable: nat -> bool) returns (ids: seq<string>)
      requires Shards(shards)
      ensures ids == Joined(shards, readable, SHARDS)
      ensures forall id :: multiset(ids)[id] == |Holding(shards, readable, SHARDS, id)| <= 32
      ensures forall id :: id in ids <==> exists i: nat :: i < SHARDS && readable(i) && id in shards[i]
    {
      ids := [];
      var shard := 0;
      while shard < SHARDS
        invariant shard <= SHARDS && ids == Joined(shards, readable, shard)
      {
        if readable(shard) {
          ids := ids + shards[shard];
        }
        shard := shard + 1;
      }
      forall id
        ensures multiset(ids)[id] == |Holding(shards, readable, SHARDS, id)| <= 32
        ensures id in ids <==> exists i: nat :: i < SHARDS && readable(i) && id in shards[i]
      {
        ShardsOnceEach(shards, id);
        JoinedCounts(shards, readable, SHARDS, id);
        CountIsHolding(shards, readable, SHARDS, id);
        assert id in ids <==> multiset(ids)[id] > 0;
        HoldingSome(shards, readable, id);
      }
    }
  }

  // ---------- what the index holds ----------

  predicate Calls(adds: seq<Add>) {
    forall i :: 0 <= i < |adds| ==> adds[i].shard < SHARDS && adds[i].readAt <= i
  }

  /** The shards after the first `n` writes. */
  function ShardsAt(adds: seq<Add>, n: nat): (shards: seq<seq<string>>)
    requires n <= |adds| && Calls(adds)
    ensures |shards| == SHARDS
    decreases n
  {
    if n == 0 then seq(SHARDS, _ => [])
    else
      var a := adds[n - 1];
      Added(ShardsAt(adds, n - 1), ShardsAt(adds, a.readAt)[a.shard], a)
  }

  /** However the calls overlap, no shard ever lists an id twice. */
  lemma {:induction false} ShardsDistinct(adds: seq<Add>, n: nat)
    requires n <= |adds| && Calls(adds)
    ensures Shards(ShardsAt(adds, n))
    decreases n
  {
    if n > 0 {
      var a := adds[n - 1];
      ShardsDistinct(adds, n - 1);
      ShardsDistinct(adds, a.readAt);
      AddedKeepsShards(ShardsAt(adds, n - 1), ShardsAt(adds, a.readAt)[a.shard], a);
    }
  }

  /** One of the first `n` calls stored this id in this shard. */
  ghost predicate StoredFor(adds: seq<Add>, n: nat, id: string, shard: nat)
    requires n <= |adds|
  {
    exists j: nat :: j < n && adds[j].Stored() && adds[j].shard == shard && adds[j].id == id
  }

  lemma {:induction false} OnlyStored(adds: seq<Add>, n: nat, id: string, shard: nat)
    requires n <= |adds| && Calls(adds) && shard < SHARDS && id in ShardsAt(adds, n)[shard]
    ensures StoredFor(adds, n, id, shard)
    decreases n
  {
    var a := adds[n - 1];
    if id in ShardsAt(adds, n - 1)[shard] {
      OnlyStored(adds, n - 1, id, shard);
    } else if id != a.id {
      OnlyStored(adds, a.readAt, id, shard);
    }
  }

  // ---------- overlapping calls ----------

  /** Nothing stored by the first `m` calls is missing from its shard. */
  ghost predicate Complete(adds: seq<Add>, m: nat)
    requires m <= |adds| && Calls(adds)
  {
    forall j: nat :: j < m && adds[j].Stored() ==> adds[j].id in ShardsAt(adds, m)[adds[j].shard]
  }

  /** Call `k` reads its shard after some call stored this id in it. */
  ghost predicate Sees(adds: seq<Add>, k: nat, id: string)
    requires k < |adds| && Calls(adds)
  {
    adds[k].readable && StoredFor(adds, adds[k].readAt, id, adds[k].shard)
  }

  /** If call `k` writes, it has seen every other id stored in its shard before. */
  ghost predicate Careful(adds: seq<Add>, k: nat)
    requires k < |adds| && Calls(adds)
  {
    adds[k].Stored() && !Sees(adds, k, adds[k].id) ==>
      forall j: nat :: j < k && adds[j].Stored() && adds[j].shard == adds[k].shard && adds[j].id != adds[k].id ==>
        Sees(adds, k, adds[j].id)
  }

  /** A complete index holds exactly what was stored. */
  lemma CompleteIff(adds: seq<Add>, m: nat, id: string, shard: nat)
    requires m <= |adds| && Calls(adds) && shard < SHARDS && Complete(adds, m)
    ensures id in ShardsAt(adds, m)[shard] <==> StoredFor(adds, m, id, shard)
  {
    if id in ShardsAt(adds, m)[shard] {
      OnlyStored(adds, m, id, shard);
    }
  }

  lemma CompleteStep(adds: seq<Add>, k: nat)
    requires k < |adds| && Calls(adds) && Complete(adds, k) && Complete(adds, adds[k].readAt)
    ensures Complete(adds, k + 1) <==> Careful(adds, k)
  {
    var a := adds[k];
    forall id
      ensures id in ShardsAt(adds, a.readAt)[a.shard] <==> StoredFor(adds, a.readAt, id, a.shard)
    {
      CompleteIff(adds, a.readAt, id, a.shard);
    }
    assert ShardsAt(adds, k + 1) == Added(ShardsAt(adds, k), ShardsAt(adds, a.readAt)[a.shard], a);
    if a.Stored() && !Sees(adds, k, a.id) {
      var ids := if a.readable then ShardsAt(adds, a.readAt)[a.shard] else [];
      assert ShardsAt(adds, k + 1)[a.shard] == ids + [a.id];
    }
  }

  /**
   Lost updates: at every moment of a run of overlapping calls the index holds all that was stored,
   exactly when every call that writes read its shard after each other id stored there before it.
   */
  lemma {:induction false} NothingLostIff(adds: seq<Add>, n: nat)
    requires n <= |adds| && Calls(adds)
    ensures (forall m: nat :: m <= n ==> Complete(adds, m)) <==> (forall k: nat :: k < n ==> Careful(adds, k))
  {
    if n > 0 {
      NothingLostIff(adds, n - 1);
      if forall m: nat :: m <= n - 1 ==> Complete(adds, m) {
        CompleteStep(adds, n - 1);
      }
    }
  }

  /** Calls on one shard never overlap; calls on different shards may. */
  ghost predicate SerialPerShard(adds: seq<Add>) {
    forall j, k :: 0 <= j < k < |adds| && adds[j].shard == adds[k].shard ==> j < adds[k].readAt
  }

  /**
   With successful reads, and calls on one shard one after the other, the index agrees with a plain
   set: it holds exactly the ids stored.
   */
  lemma IndexIsSet(adds: seq<Add>, n: nat, id: string)
    requires n <= |adds| && Calls(adds) && SerialPerShard(adds)
    requires forall i :: 0 <= i < |adds| ==> adds[i].readable
    ensures (exists shard: nat :: shard < SHARDS && id in ShardsAt(adds, n)[shard]) <==>
            (exists j: nat :: j < n && adds[j].id == id && adds[j].Stored())
  {
    NothingLostIff(adds, n);
    assert Complete(adds, n);
    if j: nat :| j < n && adds[j].id == id && adds[j].Stored() {
      assert adds[j].id in ShardsAt(adds, n)[adds[j].shard];
    }
    if shard: nat :| shard < SHARDS && id in ShardsAt(adds, n)[shard] {
      OnlyStored(adds, n, id, shard);
    }
  }

  // ---------- calls one after the other ----------

  ghost predicate OneByOne(adds: seq<Add>) {
    Calls(adds) && forall i :: 0 <= i < |adds| ==> adds[i].readAt == i
  }

  /** Nothing after `j` replaced the shard of call `j` for want of reading it. */
  ghost predicate Survives(adds: seq<Add>, j: nat, n: nat)
    requires j < n <= |adds|
  {
    forall k :: j < k < n && adds[k].shard == adds[j].shard && adds[k].Stored() && !adds[k].readable ==>
      adds[k].id == adds[j].id
  }

  /** Call `j` put its id in this shard and the id is still there after `n` calls. */
  ghost predicate Kept(adds: seq<Add>, j: nat, n: nat, id: string, shard: nat)
    requires j < n <= |adds|
  {
    adds[j].id == id && adds[j].shard == shard && adds[j].Stored() && Survives(adds, j, n)
  }

  lemma ShardsNext(adds: seq<Add>, n: nat)
    requires n < |adds| && OneByOne(adds)
    ensures ShardsAt(adds, n + 1) == Added(ShardsAt(adds, n), ShardsAt(adds, n)[adds[n].shard], adds[n])
  {
    assert adds[n].readAt == n;
  }

  lemma SurvivesNext(adds: seq<Add>, j: nat, n: nat)
    requires j < n < |adds| && Survives(adds, j, n)
    requires adds[n].shard == adds[j].shard && adds[n].Stored() && !adds[n].readable ==> adds[n].id == adds[j].id
    ensures Survives(adds, j, n + 1)
  {
  }

  /** A stored call's id is there after it, and what was there stays unless the call replaces the shard unread. */
  lemma AddedHolds(shards: seq<seq<string>>, a: Add, id: string, shard: nat)
    requires |shards| == SHARDS && a.shard < SHARDS && shard < SHARDS
    ensures a.Stored() ==> a.id in Added(shards, shards[a.shard], a)[a.shard]
    ensures id in shards[shard] && (a.shard == shard && a.Stored() && !a.readable ==> a.id == id) ==>
              id in Added(shards, shards[a.shard], a)[shard]
  {
  }

  lemma {:induction false} KeptIsIndexed(adds: seq<Add>, j: nat, n: nat)
    requires j < n <= |adds| && OneByOne(adds)
    requires adds[j].Stored() && Survives(adds, j, n)
    ensures adds[j].id in ShardsAt(adds, n)[adds[j].shard]
    decreases n
  {
    ShardsNext(adds, n - 1);
    AddedHolds(ShardsAt(adds, n - 1), adds[n - 1], adds[j].id, adds[j].shard);
    if j + 1 < n {
      assert Survives(adds, j, n - 1);
      KeptIsIndexed(adds, j, n - 1);
    }
  }

  /** Where an id found after a call comes from: the call itself, or before it and not replaced. */
  lemma AddedOrKept(shards: seq<seq<string>>, a: Add, id: string, shard: nat)
    requires |shards| == SHARDS && a.shard < SHARDS && shard < SHARDS
    requires id in Added(shards, shards[a.shard], a)[shard]
    requires !(a.shard == shard && a.id == id && a.Stored())
    ensures id in shards[shard] && !(a.shard == shard && a.Stored() && !a.readable)
  {
  }

  lemma {:induction false} IndexedWasKept(adds: seq<Add>, n: nat, id: string, shard: nat) returns (j: nat)
    requires n <= |adds| && OneByOne(adds) && shard < SHARDS
    requires id in ShardsAt(adds, n)[shard]
    ensures j < n && Kept(adds, j, n, id, shard)
    decreases n
  {
    var last := adds[n - 1];
    ShardsNext(adds, n - 1);
    if last.shard == shard && last.id == id && last.Stored() {
      j := n - 1;
    } else {
      AddedOrKept(ShardsAt(adds, n - 1), last, id, shard);
      j := IndexedWasKept(adds, n - 1, id, shard);
      SurvivesNext(adds, j, n - 1);
    }
  }

  /**
   What the index holds after any calls that do not overlap, whatever shards they draw and whatever
   reads and writes fail: an id is in a shard exactly when a stored call put it there and no later
   stored call replaced the shard because it could not read it.
   */
  lemma IndexedIff(adds: seq<Add>, n: nat, id: string, shard: nat)
    requires n <= |adds| && OneByOne(adds) && shard < SHARDS
    ensures id in ShardsAt(adds, n)[shard] <==> exists j: nat :: j < n && Kept(adds, j, n, id, shard)
  {
    if id in ShardsAt(adds, n)[shard] {
      var j := IndexedWasKept(adds, n, id, shard);
    } else if j: nat :| j < n && Kept(adds, j, n, id, shard) {
      KeptIsIndexed(adds, j, n);
    }
  }

  /** Both ways of losing an id: a second call whose read fails, and one that reads before the first has written. */
  lemma IdsCanBeLost()
    ensures var first, second := Add("a", 0, true, 0, Acknowledged), Add("b", 0, false, 1, Acknowledged);
            Calls([first, second]) && ShardsAt([first, second], 2)[0] == ["b"]
    ensures var first, second := Add("a", 0, true, 0, Acknowledged), Add("b", 0, true, 0, Acknowledged);
            Calls([first, second]) && ShardsAt([first, second], 2)[0] == ["b"]
  {
    var first := Add("a", 0, true, 0, Acknowledged);
    var unread, early := Add("b", 0, false, 1, Acknowledged), Add("b", 0, true, 0, Acknowledged);
    assert ShardsAt([first, unread], 2) == Added(ShardsAt([first, unread], 1), ShardsAt([first, unread], 1)[0], unread);
    assert ShardsAt([first, early], 2) == Added(ShardsAt([first, early], 1), ShardsAt([first, early], 0)[0], early);
  }

  lemma ListedIsStored(adds: seq<Add>, readable: nat -> bool, id: string)
    requires OneByOne(adds) && (forall i: nat :: i < SHARDS ==> readable(i)) && (forall a :: a in adds ==> a.readable)
    ensures (exists i: nat :: i < SHARDS && readable(i) && id in ShardsAt(adds, |adds|)[i]) <==>
            (exists j: nat :: j < |adds| && adds[j].id == id && adds[j].Stored())
  {
    IndexIsSet(adds, |adds|, id);
  }

  /**
   The index at work: after any calls one after the other, the listing holds what the readable
   shards hold, no id more than 32 times; with successful reads, exactly the ids stored.
   */
  method AddAndList(adds: seq<Add>, readable: nat -> bool) returns (ids: seq<string>)
    requires OneByOne(adds)
    ensures forall id :: multiset(ids)[id] <= 32
    ensures forall id :: id in ids <==>
              exists i: nat :: i < SHARDS && readable(i) && id in ShardsAt(adds, |adds|)[i]
    ensures (forall i: nat :: i < SHARDS ==> readable(i)) && (forall a :: a in adds ==> a.readable) ==>
              forall id :: id in ids <==> exists j: nat :: j < |adds| && adds[j].id == id && adds[j].Stored()
  {
    var index := new Index();
    var n := 0;
    while n < |adds|
      invariant n <= |adds| && fresh(index) && Shards(index.shards)
      invariant index.shards == ShardsAt(adds, n)
    {
      assert adds[n].readAt == n;
      var ok := index.AddToIndex(adds[n], index.shards);
      n := n + 1;
    }
    ids := index.ListFromIndex(readable);
    if (forall i: nat :: i < SHARDS ==> readable(i)) && (forall a :: a in adds ==> a.readable) {
      forall id
        ensures id in ids <==> exists j: nat :: j < |adds| && adds[j].id == id && adds[j].Stored()
      {
        ListedIsStored(adds, readable, id);
      }
    }
  }

  // ---------- debounce ----------

  const DEBOUNCE := 500 * MILLISECOND

  /**
   One visit to a job: what the reads return, when the debounce looks at the clock, and when the
   candidate callback has returned. `queued` is None when the state cannot be read.
   */
  datatype Visit = Visit(
    id: string, queued: Option<bool>, adReadable: bool, mirrorReadable: bool, now: Time, doneAt: Time)

  function Passes(seen: map<string, Time>, v: Visit): bool {
    && v.id != ""
    && v.queued != Some(false)
    && (v.id in seen ==> v.now - seen[v.id] >= DEBOUNCE)
    && v.adReadable
    && v.mirrorReadable
  }

  function SeenAfter(seen: map<string, Time>, v: Visit): map<string, Time> {
    if Passes(seen, v) then seen[v.id := v.doneAt] else seen
  }

  class Discoverer {
    var seen: map<string, Time>

    constructor ()
      ensures seen == map[]
    {
      seen := map[];
    }

    /** `candidate` says whether the callback was invoked. */
    method HandleJob(v: Visit) returns (candidate: bool)
      modifies this
      ensures candidate == Passes(old(seen), v) && seen == SeenAfter(old(seen), v)
    {
      candidate := false;
      if v.id == "" {
        return;
      }
      if v.queued.Some? && !v.queued.value {
        return;
      }
      if v.id in seen && v.now - seen[v.id] < DEBOUNCE {
        return;
      }
      if !v.adReadable || !v.mirrorReadable {
        return;
      }
      candidate := true;
      seen := seen[v.id := v.doneAt];
    }
  }

  function SeenAt(visits: seq<Visit>, i: nat): map<string, Time>
    requires i <= |visits|
  {
    if i == 0 then map[] else SeenAfter(SeenAt(visits, i - 1), visits[i - 1])
  }

  /** One discoverer handles one job at a time. */
  ghost predicate Sequential(visits: seq<Visit>) {
    && (forall i :: 0 <= i < |visits| ==> visits[i].now <= visits[i].doneAt)
    && (forall i, j :: 0 <= i < j < |visits| ==> visits[i].doneAt <= visits[j].now)
  }

  lemma {:induction false} LastCandidateRemembered(visits: seq<Visit>, i: nat, j: nat)
    requires Sequential(visits) && i < j <= |visits|
    requires Passes(SeenAt(visits, i), visits[i])
    ensures visits[i].id in SeenAt(visits, j) && visits[i].doneAt <= SeenAt(visits, j)[visits[i].id]
  {
    if i + 1 < j {
      LastCandidateRemembered(visits, i, j - 1);
      assert visits[i].doneAt <= visits[j - 1].now <= visits[j - 1].doneAt;
    }
  }

  /** However often the index repeats a job, two candidates for it are at least 500 ms apart. */
  lemma Debounced(visits: seq<Visit>, i: nat, j: nat)
    requires Sequential(visits) && i < j < |visits| && visits[i].id == visits[j].id
    requires Passes(SeenAt(visits, i), visits[i]) && Passes(SeenAt(visits, j), visits[j])
    ensures visits[j].now - visits[i].doneAt >= 500 * MILLISECOND
  {
    LastCandidateRemembered(visits, i, j);
  }

  /** Visit `i` led to a candidate. */
  predicate Candidate(visits: seq<Visit>, i: nat)
    requires i < |visits|
  {
    Passes(SeenAt(visits, i), visits[i])
  }

  /** What is remembered of a job is its last candidate. */
  lemma {:induction false} SeenWasCandidate(visits: seq<Visit>, j: nat, id: string) returns (i: nat)
    requires j <= |visits| && id in SeenAt(visits, j)
    ensures i < j && Candidate(visits, i) && visits[i].id == id && SeenAt(visits, j)[id] == visits[i].doneAt
    decreases j
  {
    if Candidate(visits, j - 1) && visits[j - 1].id == id {
      i := j - 1;
    } else {
      i := SeenWasCandidate(visits, j - 1, id);
    }
  }

  /**
   Exactly which visits become candidates: those to a named job that is not read as anything but
   queued, whose advertisement and manifest can be read, 500 ms or more after every earlier candidate
   for it.
   */
  lemma CandidateIff(visits: seq<Visit>, j: nat)
    requires Sequential(visits) && j < |visits|
    ensures var v := visits[j];
            Candidate(visits, j) <==>
            && v.id != "" && (v.queued.None? || v.queued.value) && v.adReadable && v.mirrorReadable
            && (forall i :: 0 <= i < j && Candidate(visits, i) && visits[i].id == v.id ==>
                  v.now - visits[i].doneAt >= 500 * MILLISECOND)
  {
    var v := visits[j];
    if v.id in SeenAt(visits, j) {
      var i := SeenWasCandidate(visits, j, v.id);
    }
    forall i | 0 <= i < j && Candidate(visits, i) && visits[i].id == v.id
      ensures v.id in SeenAt(visits, j) && visits[i].doneAt <= SeenAt(visits, j)[v.id]
    {
      LastCandidateRemembered(visits, i, j);
    }
  }
}
