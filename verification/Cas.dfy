/**
 The compare-and-set loop over the DHT: read, check, put, verify, up to five times. The environment
 is adversarial: every network call of every attempt gets whatever answer the script gives it, and
 other goroutines may have left anything in the shared local store.
 */
module Cas {
  import opened Prelude
  import opened Durations

  const ATTEMPTS := 5

  /** What a check makes of the value read: an error, "not now", or the value to store. */
  datatype Check<+T, +E> = Refuse(error: E) | NotNow | Store(next: T)

  datatype PutReply = Put | NoPeers | PutFailed(code: int)

  datatype CasError<+E> = Conflict | Refused(error: E) | Network(code: int)

  /**
   What one attempt meets: the network's answers, where a failed read is None, and the contents of
   the local fallback store when it is read first (`before`) and when the put has returned (`after`).
   */
  datatype Attempt<T> = Attempt(
    read: Option<T>, now: Time, put: PutReply, verify: Option<T>, readError: int, jitter: nat,
    before: map<string, T>, after: map<string, T>)

  /** What an attempt comes to: success, in the network or in the local fallback, an error, or another try. */
  datatype Verdict<+T, +E> =
    | Committed(next: T)
    | StoredLocally(next: T)
    | Stopped(error: E)
    | Again(last: CasError<E>)

  type Checker<!T, !E> = (Option<T>, Time) -> Check<T, E>

  /** Network value first, then the local fallback store. */
  function Or<T>(network: Option<T>, local: map<string, T>, key: string): Option<T> {
    if network.Some? then network else if key in local then Some(local[key]) else None
  }

  function TryOnce<T(==), E>(a: Attempt<T>, key: string, check: Checker<T, E>): Verdict<T, E> {
    match check(Or(a.read, a.before, key), a.now)
    case Refuse(error) => Stopped(error)
    case NotNow => Again(Conflict)
    case Store(next) =>
      match a.put
      case NoPeers => StoredLocally(next)
      case PutFailed(code) => Again(Network(code))
      case Put =>
        var after := Or(a.verify, a.after, key);
        if after.None? then Again(Network(a.readError))
        else if after.value != next then Again(Conflict)
        else Committed(next)
  }

  /** The value an attempt asks the network to store, if its check succeeds. */
  function Asked<T, E>(a: Attempt<T>, key: string, check: Checker<T, E>): seq<T> {
    var c := check(Or(a.read, a.before, key), a.now);
    if c.Store? then [c.next] else []
  }

  /** What the attempt leaves in the local store: what others put there, plus its own value if there are no peers. */
  function LocalAfter<T, E>(a: Attempt<T>, key: string, v: Verdict<T, E>, asked: bool): map<string, T> {
    if v.StoredLocally? then a.after[key := v.next] else if asked then a.after else a.before
  }

  /** What the caller of the loop sees of its last attempt. */
  function Concluded<T, E>(v: Verdict<T, E>): Result<T, CasError<E>> {
    match v
    case Committed(next) => Ok(next)
    case StoredLocally(next) => Ok(next)
    case Stopped(error) => Err(Refused(error))
    case Again(last) => Err(last)
  }

  /** The first `n` attempts all had to be repeated. */
  ghost predicate Retried<T, E>(net: nat -> Attempt<T>, n: nat, key: string, check: Checker<T, E>) {
    forall i: nat :: i < n ==> TryOnce(net(i), key, check).Again?
  }

  /** The values put by the first `n` attempts. */
  function Written<T, E>(net: nat -> Attempt<T>, n: nat, key: string, check: Checker<T, E>): seq<T> {
    if n == 0 then [] else Written(net, n - 1, key, check) + Asked(net(n - 1), key, check)
  }

  /**
   Against any environment, an attempt succeeds only with a value its check produced from what that
   attempt read, and only if the value went to the local store or was read back equal; a refused
   check asks for no write.
   */
  lemma SuccessWasChecked<T, E>(a: Attempt<T>, key: string, check: Checker<T, E>, next: T)
    ensures var read :=
              if a.read.Some? then a.read else if key in a.before then Some(a.before[key]) else None;
            var back :=
              if a.verify.Some? then a.verify else if key in a.after then Some(a.after[key]) else None;
            Concluded(TryOnce(a, key, check)) == Ok(next) <==>
              check(read, a.now) == Store(next) && (a.put.NoPeers? || (a.put.Put? && back == Some(next)))
    ensures TryOnce(a, key, check).Stopped? ==> Asked(a, key, check) == []
  {
  }

  /** And why an attempt that has to be repeated failed; the loop reports the reason of its last attempt. */
  lemma FailureExplained<T, E>(a: Attempt<T>, key: string, check: Checker<T, E>)
    ensures var c, after := check(Or(a.read, a.before, key), a.now), Or(a.verify, a.after, key);
            && (TryOnce(a, key, check) == Again(Conflict) <==>
                  c.NotNow? || (c.Store? && a.put.Put? && after.Some? && after.value != c.next))
            && (forall code :: TryOnce(a, key, check) == Again(Network(code)) <==>
                  && c.Store?
                  && (a.put == PutFailed(code) || (a.put.Put? && after.None? && code == a.readError)))
            && (forall error :: TryOnce(a, key, check) == Stopped(error) <==> c == Refuse(error))
  {
  }

  /** Five puts that fail exhaust the loop, which reports the error of the last one. */
  lemma FivePutsFail<T, E>(net: nat -> Attempt<T>, key: string, check: Checker<T, E>)
    requires forall k: nat :: k < 5 ==>
               net(k).put.PutFailed? && check(Or(net(k).read, net(k).before, key), net(k).now).Store?
    ensures Retried(net, 5, key, check)
    ensures Concluded(TryOnce(net(4), key, check)) == Err(Network(net(4).put.code))
  {
  }

  // ---------- backoff ----------

  function Shifted(i: nat): nat {
    if i == 0 then 1 else 2 * Shifted(i - 1)
  }

  /** Backoff before the next attempt, in milliseconds: 100 doubled each time, plus up to 199 of jitter. */
  function JitterBackoff(i: nat, jitter: nat): nat {
    100 * Shifted(i) + jitter % 200
  }

  /** Each attempt waits twice as long as the one before it, give or take the jitter. */
  lemma BackoffDoubles(jitter: nat)
    requires jitter < 200
    ensures JitterBackoff(0, jitter) == 100 + jitter
    ensures JitterBackoff(1, jitter) == 200 + jitter
    ensures JitterBackoff(2, jitter) == 400 + jitter
    ensures JitterBackoff(3, jitter) == 800 + jitter
    ensures JitterBackoff(4, jitter) == 1600 + jitter
  {
    assert Shifted(1) == 2 && Shifted(2) == 4 && Shifted(3) == 8 && Shifted(4) == 16;
  }

  /** Total backoff of the first `n` attempts when all of them have to be repeated. */
  function Backoff<T>(net: nat -> Attempt<T>, n: nat): nat {
    if n == 0 then 0 else Backoff(net, n - 1) + JitterBackoff(n - 1, net(n - 1).jitter)
  }

  lemma {:induction false} BackoffBounds<T>(net: nat -> Attempt<T>)
    ensures 3100 <= Backoff(net, ATTEMPTS) <= 4095
  {
    assert Shifted(1) == 2 && Shifted(2) == 4 && Shifted(3) == 8 && Shifted(4) == 16;
    assert Backoff(net, 1) == JitterBackoff(0, net(0).jitter);
    assert Backoff(net, 3) == Backoff(net, 2) + JitterBackoff(2, net(2).jitter);
    assert Backoff(net, 5) == Backoff(net, 4) + JitterBackoff(4, net(4).jitter);
  }

  // ---------- the loop ----------

  class Node<T(==)> {
    /** The process-wide fallback used when the network has no peers. */
    var localStore: map<string, T>

    constructor ()
      ensures localStore == map[]
    {
      localStore := map[];
    }

    /** One attempt: read, check, put, verify; the local store is what others made of it at each point. */
    method AttemptOnce<E>(key: string, check: Checker<T, E>, a: Attempt<T>) returns (v: Verdict<T, E>, put: seq<T>)
      modifies this
      ensures v == TryOnce(a, key, check)
      ensures put == Asked(a, key, check)
      ensures localStore == LocalAfter(a, key, v, put != [])
    {
      localStore := a.before;
      put := [];
      var prev := a.read;
      if prev.None? && key in localStore {
        prev := Some(localStore[key]);
      }
      var verdict := check(prev, a.now);
      if verdict.Refuse? {
        return Stopped(verdict.error), [];
      }
      if verdict.NotNow? {
        return Again(Conflict), [];
      }
      var next := verdict.next;
      put := [next];
      localStore := a.after;
      if a.put.NoPeers? {
        localStore := localStore[key := next];
        return StoredLocally(next), put;
      }
      if a.put.PutFailed? {
        return Again(Network(a.put.code)), put;
      }
      var after := a.verify;
      if after.None? && key in localStore {
        after := Some(localStore[key]);
      }
      if after.None? {
        return Again(Network(a.readError)), put;
      }
      v := if after.value != next then Again(Conflict) else Committed(next);
    }

    /**
     `writes` lists the values put, in order. Success means that the last attempt's value came from
     a check of the value read in that very attempt, and was stored locally or read back equal; a
     check error ends the loop without a write in its attempt; only exhaustion of all five
     attempts reports the error of the last one.
     */
    method PutJSONCAS<E>(key: string, check: Checker<T, E>, net: nat -> Attempt<T>)
      returns (r: Result<T, CasError<E>>, used: nat, writes: seq<T>, slept: nat)
      modifies this
      ensures 1 <= used <= 5
      ensures Retried(net, used - 1, key, check)
      ensures var a, last := net(used - 1), TryOnce(net(used - 1), key, check);
              && r == Concluded(last)
              && (last.Again? ==> used == 5)
              && slept == Backoff(net, if last.Again? then 5 else used - 1)
              && localStore == LocalAfter(a, key, last, Asked(a, key, check) != [])
      ensures writes == Written(net, used, key, check)
    {
      var v, put := AttemptOnce(key, check, net(0));
      used, writes, slept := 1, put, 0;
      while v.Again? && used < ATTEMPTS
        invariant 1 <= used <= ATTEMPTS
        invariant Retried(net, used - 1, key, check)
        invariant v == TryOnce(net(used - 1), key, check)
        invariant localStore == LocalAfter(net(used - 1), key, v, Asked(net(used - 1), key, check) != [])
        invariant writes == Written(net, used, key, check)
        invariant slept == Backoff(net, used - 1)
      {
        slept := slept + JitterBackoff(used - 1, net(used - 1).jitter);
        v, put := AttemptOnce(key, check, net(used));
        used, writes := used + 1, writes + put;
      }
      if v.Again? {
        slept := slept + JitterBackoff(used - 1, net(used - 1).jitter);
      }
      r := Concluded(v);
    }
  }
}
