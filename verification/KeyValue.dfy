/**
 The JSON key-value layer: a network store with a local fallback, where deletion writes a tombstone.
 Every call meets its own fate, whatever happened to the calls before it.
 */
module KeyValue {
  import opened Prelude

  /** A stored document; an empty object decodes to the zero value. */
  datatype Json<+V> = Tombstone | Document(value: V)

  /** How the network call behind an operation ends; a put that reports failure may still have stored its value. */
  datatype Fate = Done | NoPeers | Failed(stored: bool)

  datatype Op<+V> = Put(key: string, value: V, fate: Fate) | Del(key: string, fate: Fate) | Get(key: string, fate: Fate)

  /** The two places a document can be in, by namespaced key. */
  datatype Stores<V> = Stores(network: map<string, Json<V>>, local: map<string, Json<V>>)

  function NsKey(ns: string, key: string): string {
    if ns == "" then "/" + key else "/" + ns + "/" + key
  }

  lemma NsKeyInjective(ns: string, k1: string, k2: string)
    ensures NsKey(ns, k1) == NsKey(ns, k2) <==> k1 == k2
  {
    var n := if ns == "" then 1 else 2 + |ns|;
    assert NsKey(ns, k1)[n..] == k1 && NsKey(ns, k2)[n..] == k2;
  }

  /** A namespaced key begins with a namespace of this length: its second slash is right after it. */
  ghost predicate NamespaceOf(full: string, ns: string) {
    && |full| >= |ns| + 2 && full[1..|ns| + 1] == ns
    && full[|ns| + 1] == '/' && (forall i :: 1 <= i <= |ns| ==> full[i] != '/')
  }

  lemma NsKeyShows(ns: string, key: string)
    requires ns != "" && '/' !in ns
    ensures NamespaceOf(NsKey(ns, key), ns)
  {
    var full := NsKey(ns, key);
    forall i | 1 <= i <= |ns|
      ensures full[i] != '/'
    {
      assert full[i] == ns[i - 1];
    }
  }

  lemma OneNamespace(full: string, ns1: string, ns2: string)
    requires NamespaceOf(full, ns1) && NamespaceOf(full, ns2)
    ensures ns1 == ns2
  {
    assert |ns1| == |ns2|;
  }

  lemma SameNamespace(ns1: string, k1: string, ns2: string, k2: string)
    requires ns1 != "" && ns2 != "" && '/' !in ns1 && '/' !in ns2
    requires NsKey(ns1, k1) == NsKey(ns2, k2)
    ensures ns1 == ns2
  {
    NsKeyShows(ns1, k1);
    NsKeyShows(ns2, k2);
    OneNamespace(NsKey(ns1, k1), ns1, ns2);
  }

  /** Namespaces without a slash keep their keys apart. */
  lemma NamespacesApart(ns1: string, k1: string, ns2: string, k2: string)
    requires ns1 != "" && ns2 != "" && '/' !in ns1 && '/' !in ns2
    ensures NsKey(ns1, k1) == NsKey(ns2, k2) <==> ns1 == ns2 && k1 == k2
  {
    if NsKey(ns1, k1) == NsKey(ns2, k2) {
      SameNamespace(ns1, k1, ns2, k2);
      NsKeyInjective(ns1, k1, k2);
    }
  }

  /** The empty namespace shares its keys with all the others. */
  lemma EmptyNamespaceShares(ns: string, key: string)
    requires ns != ""
    ensures NsKey("", ns + "/" + key) == NsKey(ns, key)
  {
    assert "/" + (ns + "/" + key) == "/" + ns + "/" + key;
  }

  function Written<V>(s: Stores<V>, k: string, doc: Json<V>, fate: Fate): Stores<V> {
    match fate
    case Done => s.(network := s.network[k := doc])
    case NoPeers => s.(local := s.local[k := doc])
    case Failed(stored) => if stored then s.(network := s.network[k := doc]) else s
  }

  function After<V>(ns: string, s: Stores<V>, op: Op<V>): Stores<V> {
    var k := NsKey(ns, op.key);
    match op
    case Put(_, value, fate) => Written(s, k, Document(value), fate)
    case Del(_, fate) =>
      var w := Written(s, k, Tombstone, fate);
      if fate.Failed? then w else w.(local := w.local - {k})
    case Get(_, _) => s
  }

  /** What a read returns: the network's document, else the local one, else None for an error. */
  function Read<V>(ns: string, s: Stores<V>, key: string, fate: Fate): Option<Json<V>> {
    var k := NsKey(ns, key);
    if fate.Done? && k in s.network then Some(s.network[k])
    else if k in s.local then Some(s.local[k])
    else None
  }

  /** A reader that treats an error and a zero value alike. */
  function Seen<V>(answer: Option<Json<V>>): Option<V> {
    match answer
    case Some(Document(v)) => Some(v)
    case _ => None
  }

  /** What a reader sees of an operation; a write shows nothing. */
  function Shown<V>(ns: string, s: Stores<V>, op: Op<V>): Option<V> {
    if op.Get? then Seen(Read(ns, s, op.key, op.fate)) else None
  }

  class Node<V(==)> {
    const ns: string
    var network: map<string, Json<V>>
    var localStore: map<string, Json<V>>

    ghost function Contents(): Stores<V>
      reads this
    {
      Stores(network, localStore)
    }

    constructor (ns: string)
      ensures this.ns == ns && Contents() == Stores(map[], map[])
    {
      this.ns := ns;
      network, localStore := map[], map[];
    }

    method PutDocument(key: string, doc: Json<V>, fate: Fate) returns (ok: bool)
      modifies this
      ensures ok <==> !fate.Failed?
      ensures Contents() == Written(old(Contents()), NsKey(ns, key), doc, fate)
    {
      var k := NsKey(ns, key);
      ok := true;
      match fate {
        case Done => network := network[k := doc];
        case NoPeers => localStore := localStore[k := doc];
        case Failed(stored) =>
          ok := false;
          if stored {
            network := network[k := doc];
          }
      }
    }

    method PutJSON(key: string, value: V, fate: Fate) returns (ok: bool)
      modifies this
      ensures ok <==> !fate.Failed?
      ensures Contents() == After(ns, old(Contents()), Put(key, value, fate))
    {
      ok := PutDocument(key, Document(value), fate);
    }

    /** Write a tombstone, then forget the local fallback unless the write failed. */
    method DelJSON(key: string, fate: Fate) returns (ok: bool)
      modifies this
      ensures ok <==> !fate.Failed?
      ensures Contents() == After(ns, old(Contents()), Del(key, fate))
    {
      ok := PutDocument(key, Tombstone, fate);
      if ok {
        localStore := localStore - {NsKey(ns, key)};
      }
    }

    method GetJSON(key: string, fate: Fate) returns (answer: Option<Json<V>>)
      ensures answer == Read(ns, Contents(), key, fate)
    {
      var k := NsKey(ns, key);
      if fate.Done? && k in network {
        return Some(network[k]);
      }
      if k in localStore {
        return Some(localStore[k]);
      }
      return None;
    }

    /** Carry out one operation; `seen` is what its reader gets. */
    method Execute(op: Op<V>) returns (ok: bool, seen: Option<V>)
      modifies this
      ensures Contents() == After(ns, old(Contents()), op)
      ensures ok <==> if op.Get? then Read(ns, old(Contents()), op.key, op.fate).Some? else !op.fate.Failed?
      ensures seen == Shown(ns, old(Contents()), op)
    {
      seen := None;
      match op {
        case Put(key, value, fate) => ok := PutJSON(key, value, fate);
        case Del(key, fate) => ok := DelJSON(key, fate);
        case Get(key, fate) =>
          var answer := GetJSON(key, fate);
          ok, seen := answer.Some?, Seen(answer);
      }
    }
  }

  // ---------- runs ----------

  function StoresAt<V>(ns: string, ops: seq<Op<V>>, n: nat): Stores<V>
    requires n <= |ops|
  {
    if n == 0 then Stores(map[], map[]) else After(ns, StoresAt(ns, ops, n - 1), ops[n - 1])
  }

  predicate Applied<V>(op: Op<V>) {
    !op.Get? && op.fate != Failed(false)
  }

  /** A plain map from keys to values, changed by the operations that take effect. */
  function Reference<V>(m: map<string, V>, op: Op<V>): map<string, V> {
    if !Applied(op) then m else if op.Put? then m[op.key := op.value] else m - {op.key}
  }

  function ReferenceAt<V>(ops: seq<Op<V>>, n: nat): map<string, V>
    requires n <= |ops|
  {
    if n == 0 then map[] else Reference(ReferenceAt(ops, n - 1), ops[n - 1])
  }

  function Lookup<V>(m: map<string, V>, key: string): Option<V> {
    if key in m then Some(m[key]) else None
  }

  /** The run has peers throughout, where calls may still fail, or has none throughout. */
  ghost predicate Uniform<V>(ops: seq<Op<V>>, peers: bool) {
    forall op :: op in ops ==> (op.fate.NoPeers? <==> !peers)
  }

  /** One place is unused, and a read that reaches the other sees the plain map. */
  ghost predicate Agrees<V>(ns: string, s: Stores<V>, m: map<string, V>, peers: bool) {
    && (if peers then s.local == map[] else s.network == map[])
    && (forall key :: Seen(Read(ns, s, key, if peers then Done else NoPeers)) == Lookup(m, key))
  }

  lemma AgreesStep<V>(ns: string, s: Stores<V>, m: map<string, V>, op: Op<V>, peers: bool)
    requires Agrees(ns, s, m, peers) && (op.fate.NoPeers? <==> !peers)
    ensures Agrees(ns, After(ns, s, op), Reference(m, op), peers)
  {
    var fate := if peers then Done else NoPeers;
    forall key
      ensures Seen(Read(ns, After(ns, s, op), key, fate)) == Lookup(Reference(m, op), key)
    {
      NsKeyInjective(ns, op.key, key);
      assert Seen(Read(ns, s, key, fate)) == Lookup(m, key);
    }
  }

  /** Tombstone equivalence: in a uniform run the two stores together are one plain map. */
  lemma {:induction false} UniformAgrees<V>(ns: string, ops: seq<Op<V>>, peers: bool, n: nat)
    requires n <= |ops| && Uniform(ops, peers)
    ensures Agrees(ns, StoresAt(ns, ops, n), ReferenceAt(ops, n), peers)
  {
    if n > 0 {
      UniformAgrees(ns, ops, peers, n - 1);
      AgreesStep(ns, StoresAt(ns, ops, n - 1), ReferenceAt(ops, n - 1), ops[n - 1], peers);
    }
  }

  function ShownAt<V>(ns: string, ops: seq<Op<V>>, i: nat): Option<V>
    requires i < |ops|
  {
    Shown(ns, StoresAt(ns, ops, i), ops[i])
  }

  /** What readers of the plain map are shown, where a failed read shows nothing. */
  function PlainlyShown<V>(m: map<string, V>, op: Op<V>): Option<V> {
    if op.Get? && !op.fate.Failed? then Lookup(m, op.key) else None
  }

  function PlainlyShownAt<V>(ops: seq<Op<V>>, i: nat): Option<V>
    requires i < |ops|
  {
    PlainlyShown(ReferenceAt(ops, i), ops[i])
  }

  /** What the first `n` operations show their readers. */
  function ShownBy<V>(ns: string, ops: seq<Op<V>>, n: nat): seq<Option<V>>
    requires n <= |ops|
  {
    if n == 0 then [] else ShownBy(ns, ops, n - 1) + [ShownAt(ns, ops, n - 1)]
  }

  function PlainlyShownBy<V>(ops: seq<Op<V>>, n: nat): seq<Option<V>>
    requires n <= |ops|
  {
    if n == 0 then [] else PlainlyShownBy(ops, n - 1) + [PlainlyShownAt(ops, n - 1)]
  }

  lemma AgreesShown<V>(ns: string, s: Stores<V>, m: map<string, V>, op: Op<V>, peers: bool)
    requires Agrees(ns, s, m, peers) && (op.fate.NoPeers? <==> !peers)
    ensures Shown(ns, s, op) == PlainlyShown(m, op)
  {
    assert Seen(Read(ns, s, op.key, if peers then Done else NoPeers)) == Lookup(m, op.key);
  }

  lemma UniformShownAt<V>(ns: string, ops: seq<Op<V>>, peers: bool, i: nat)
    requires i < |ops| && Uniform(ops, peers)
    ensures ShownAt(ns, ops, i) == PlainlyShownAt(ops, i)
  {
    UniformAgrees(ns, ops, peers, i);
    AgreesShown(ns, StoresAt(ns, ops, i), ReferenceAt(ops, i), ops[i], peers);
  }

  lemma {:induction false} SameShown<V>(ns: string, ops: seq<Op<V>>, n: nat)
    requires n <= |ops|
    requires forall i: nat :: i < n ==> ShownAt(ns, ops, i) == PlainlyShownAt(ops, i)
    ensures ShownBy(ns, ops, n) == PlainlyShownBy(ops, n)
    decreases n
  {
    if n > 0 {
      SameShown(ns, ops, n - 1);
    }
  }

  /** Hence every reader of a uniform run is shown what the plain map shows. */
  lemma UniformShown<V>(ns: string, ops: seq<Op<V>>, peers: bool)
    requires Uniform(ops, peers)
    ensures ShownBy(ns, ops, |ops|) == PlainlyShownBy(ops, |ops|)
  {
    forall i: nat | i < |ops|
      ensures ShownAt(ns, ops, i) == PlainlyShownAt(ops, i)
    {
      UniformShownAt(ns, ops, peers, i);
    }
    SameShown(ns, ops, |ops|);
  }

  // ---------- runs that lose and regain their peers ----------

  /** What a write leaves for its readers. */
  function Payload<V>(write: Op<V>): Option<V> {
    if write.Put? then Some(write.value) else None
  }

  /** The last write to the key that took effect, wherever it went. */
  function LastWrite<V>(ops: seq<Op<V>>, n: nat, key: string): Option<Op<V>>
    requires n <= |ops|
    decreases n
  {
    if n == 0 then None
    else if Applied(ops[n - 1]) && ops[n - 1].key == key then Some(ops[n - 1])
    else LastWrite(ops, n - 1, key)
  }

  /** What the network last stored for the key, if it stored anything. */
  function NetworkSees<V>(ops: seq<Op<V>>, n: nat, key: string): Option<Option<V>>
    requires n <= |ops|
    decreases n
  {
    if n == 0 then None
    else
      var op := ops[n - 1];
      if Applied(op) && op.key == key && !op.fate.NoPeers? then Some(Payload(op)) else NetworkSees(ops, n - 1, key)
  }

  /** What the local store holds: put there without peers, and cleared by every delete that does not fail. */
  function LocalSees<V>(ops: seq<Op<V>>, n: nat, key: string): Option<V>
    requires n <= |ops|
    decreases n
  {
    if n == 0 then None
    else
      var op := ops[n - 1];
      if op.Put? && op.key == key && op.fate.NoPeers? then Some(op.value)
      else if op.Del? && op.key == key && !op.fate.Failed? then None
      else LocalSees(ops, n - 1, key)
  }

  /** The two places hold what the run put there for this key. */
  ghost predicate Holds<V>(ns: string, s: Stores<V>, key: string, network: Option<Option<V>>, local: Option<V>) {
    var k := NsKey(ns, key);
    && (if k in s.network then network == Some(Seen(Some(s.network[k]))) else network.None?)
    && local == Seen(if k in s.local then Some(s.local[k]) else None)
  }

  lemma {:induction false} StoresHold<V>(ns: string, ops: seq<Op<V>>, n: nat, key: string)
    requires n <= |ops|
    ensures Holds(ns, StoresAt(ns, ops, n), key, NetworkSees(ops, n, key), LocalSees(ops, n, key))
    decreases n
  {
    if n > 0 {
      StoresHold(ns, ops, n - 1, key);
      NsKeyInjective(ns, ops[n - 1].key, key);
    }
  }

  /** What a read sees in any run: the network's document if it is reached and has one, else the local one. */
  lemma ReadSees<V>(ns: string, ops: seq<Op<V>>, n: nat, key: string, fate: Fate)
    requires n <= |ops|
    ensures var network := NetworkSees(ops, n, key);
            Seen(Read(ns, StoresAt(ns, ops, n), key, fate)) ==
            if fate.Done? && network.Some? then network.value else LocalSees(ops, n, key)
  {
    StoresHold(ns, ops, n, key);
  }

  /** The plain map shows the last write, and so does the place that it went to. */
  lemma {:induction false} LastWriteKept<V>(ops: seq<Op<V>>, n: nat, key: string)
    requires n <= |ops|
    ensures Lookup(ReferenceAt(ops, n), key) ==
            match LastWrite(ops, n, key) case None => None case Some(w) => Payload(w)
    ensures match LastWrite(ops, n, key)
            case None => NetworkSees(ops, n, key).None? && LocalSees(ops, n, key).None?
            case Some(w) =>
              if w.fate.NoPeers? then LocalSees(ops, n, key) == Payload(w)
              else NetworkSees(ops, n, key) == Some(Payload(w))
    decreases n
  {
    if n > 0 {
      LastWriteKept(ops, n - 1, key);
    }
  }

  /**
   Exactly when a read sees the plain map, peers coming and going as they like: the key was never
   written, or its last write went where the read looks first, or what is found there instead is
   nothing (for a read that goes on to the local store) or says the same as the last write.
   */
  lemma ReadsLastWriteIff<V>(ns: string, ops: seq<Op<V>>, n: nat, key: string, fate: Fate)
    requires n <= |ops|
    ensures Seen(Read(ns, StoresAt(ns, ops, n), key, fate)) == Lookup(ReferenceAt(ops, n), key) <==>
            match LastWrite(ops, n, key)
            case None => true
            case Some(w) =>
              if fate.Done? then
                var network := NetworkSees(ops, n, key);
                !w.fate.NoPeers? || network.None? || network.value == Payload(w)
              else
                w.fate.NoPeers? || LocalSees(ops, n, key) == Payload(w)
  {
    ReadSees(ns, ops, n, key, fate);
    LastWriteKept(ops, n, key);
  }

  /** A run where it does not: a value stored without peers shadows a later one once the network fails. */
  lemma MixedModesDisagree(ns: string, key: string)
    ensures var ops := [Put(key, 1, NoPeers), Put(key, 2, Done), Get(key, NoPeers)];
            && Seen(Read(ns, StoresAt(ns, ops, 2), key, NoPeers)) == Some(1)
            && Lookup(ReferenceAt(ops, 2), key) == Some(2)
  {
    var ops := [Put(key, 1, NoPeers), Put(key, 2, Done), Get(key, NoPeers)];
    assert StoresAt(ns, ops, 1) == After(ns, StoresAt(ns, ops, 0), ops[0]);
    assert StoresAt(ns, ops, 2) == After(ns, StoresAt(ns, ops, 1), ops[1]);
    assert ReferenceAt(ops, 2) == Reference(ReferenceAt(ops, 1), ops[1]);
  }

  // ---------- the layer at work ----------

  lemma AnyUniformShown<V>(ns: string, ops: seq<Op<V>>)
    ensures (exists peers :: Uniform(ops, peers)) ==> ShownBy(ns, ops, |ops|) == PlainlyShownBy(ops, |ops|)
  {
    if peers :| Uniform(ops, peers) {
      UniformShown(ns, ops, peers);
    }
  }

  /** Operation `i` of a run. */
  method ExecuteAt<V(==)>(node: Node<V>, ops: seq<Op<V>>, i: nat) returns (seen: Option<V>)
    requires i < |ops| && node.Contents() == StoresAt(node.ns, ops, i)
    modifies node
    ensures node.Contents() == StoresAt(node.ns, ops, i + 1)
    ensures seen == ShownAt(node.ns, ops, i)
  {
    var ok;
    ok, seen := node.Execute(ops[i]);
  }

  /** Any operations on a new node, whatever their fates; in a uniform run its readers are shown a plain map. */
  method RunOps<V(==)>(ns: string, ops: seq<Op<V>>) returns (node: Node<V>, seen: seq<Option<V>>)
    ensures node.Contents() == StoresAt(ns, ops, |ops|)
    ensures seen == ShownBy(ns, ops, |ops|)
    ensures (exists peers :: Uniform(ops, peers)) ==> seen == PlainlyShownBy(ops, |ops|)
  {
    node := new Node<V>(ns);
    seen := [];
    var i := 0;
    while i < |ops|
      invariant i <= |ops| && fresh(node) && node.ns == ns
      invariant node.Contents() == StoresAt(ns, ops, i)
      invariant seen == ShownBy(ns, ops, i)
    {
      var answer := ExecuteAt(node, ops, i);
      seen := seen + [answer];
      i := i + 1;
    }
    AnyUniformShown(ns, ops);
  }
}
