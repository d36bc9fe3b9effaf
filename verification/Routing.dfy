/** Which node a key belongs to, and how a transaction's keys are grouped by node. */
module Routing {
  import opened Types

  /** `NodeID` is a 16-bit unsigned integer. */
  type NodeId = n: nat | n < 65536

  /**
   A peer name as `start` reads it: `n` and a number; `n` and something that is no `int`, on which the
   conversion throws; or a name that does not begin with `n` and is skipped.
   */
  datatype PeerName = Numbered(number: int) | Malformed | Skipped

  /** The node list, or the exception that leaves `start`. */
  datatype NodeList = Nodes(ids: seq<NodeId>) | Thrown

  /** The conversion of the parsed `int` to a node id keeps its low 16 bits. */
  function ToNodeId(number: int): NodeId {
    number % 65536
  }

  lemma LowBits(number: int, id: NodeId)
    ensures ToNodeId(number) == id <==> (number - id) % 65536 == 0
  {
  }

  predicate StrictlySorted(s: seq<NodeId>) {
    forall i, j :: 0 <= i < j < |s| ==> s[i] < s[j]
  }

  /** What sorting and removing adjacent duplicates leaves of a list after one more insertion. */
  function Insert(x: NodeId, s: seq<NodeId>): (r: seq<NodeId>)
    requires StrictlySorted(s)
    ensures StrictlySorted(r)
    ensures forall n :: n in r <==> n == x || n in s
  {
    if s == [] || x < s[0] then [x] + s
    else if x == s[0] then s
    else
      var r := Insert(x, s[1..]);
      assert forall n :: n in s <==> n == s[0] || n in s[1..];
      assert forall n :: n in r ==> s[0] < n;
      assert forall i :: 0 <= i < |r| ==> r[i] in r;
      [s[0]] + r
  }

  function SortedUnique(s: seq<NodeId>): (r: seq<NodeId>)
    ensures StrictlySorted(r)
    ensures forall n :: n in r <==> n in s
  {
    if s == [] then [] else
    assert forall n :: n in s <==> n == s[0] || n in s[1..];
    Insert(s[0], SortedUnique(s[1..]))
  }

  function PeerIds(peers: seq<PeerName>): set<NodeId> {
    set p | p in peers && p.Numbered? :: ToNodeId(p.number)
  }

  /** The ascending list of the own id and the ids the peers are named by. */
  ghost predicate ListOf(local: NodeId, peers: seq<PeerName>, ids: seq<NodeId>) {
    StrictlySorted(ids) && forall n :: n in ids <==> n == local || n in PeerIds(peers)
  }

  /** The node list `start` hands to the coordinator. */
  method BuildNodeList(local: NodeId, peers: seq<PeerName>) returns (r: NodeList)
    ensures r == Thrown <==> Malformed in peers
    ensures r.Nodes? ==> ListOf(local, peers, r.ids)
  {
    var ids := [local];
    for i := 0 to |peers|
      invariant Malformed !in peers[..i]
      invariant forall n :: n in ids <==> n == local || n in PeerIds(peers[..i])
    {
      assert forall p :: p in peers[..i + 1] <==> p in peers[..i] || p == peers[i];
      match peers[i] {
        case Numbered(number) => ids := ids + [ToNodeId(number)];
        case Malformed => return Thrown;
        case Skipped =>
      }
    }
    assert peers[..|peers|] == peers;
    return Nodes(SortedUnique(ids));
  }

  /** One set of ids has one list. */
  lemma {:induction false} ListIsCanonical(a: seq<NodeId>, b: seq<NodeId>)
    requires StrictlySorted(a) && StrictlySorted(b)
    requires forall n :: n in a <==> n in b
    ensures a == b
    decreases a
  {
    if a == [] {
      assert forall i :: 0 <= i < |b| ==> b[i] in b;
    } else {
      assert a[0] in b;
      assert b[0] in a;
      assert a[0] == b[0];
      forall n
        ensures n in a[1..] <==> n in b[1..]
      {
        assert n in a <==> n == a[0] || n in a[1..];
        assert n in b <==> n == b[0] || n in b[1..];
      }
      ListIsCanonical(a[1..], b[1..]);
    }
  }

  /** A node of a cluster is told the numbers of all other nodes, in any order and number, and of no others. */
  ghost predicate Knows(cluster: set<NodeId>, local: NodeId, peers: seq<PeerName>) {
    && local in cluster
    && (forall p :: p in peers && p.Numbered? ==> p.number in cluster)
    && (forall n :: n in cluster && n != local ==> Numbered(n) in peers)
  }

  /** Then it lists exactly the nodes of the cluster. */
  lemma ListsTheCluster(cluster: set<NodeId>, local: NodeId, peers: seq<PeerName>, ids: seq<NodeId>, n: NodeId)
    requires Knows(cluster, local, peers) && ListOf(local, peers, ids)
    ensures n in ids <==> n in cluster
  {
    if n in cluster && n != local {
      assert Numbered(n) in peers && ToNodeId(Numbered(n).number) == n;
    }
  }

  /** So any two nodes of a cluster build the same list. */
  lemma ClusterAgrees(cluster: set<NodeId>, a: NodeId, b: NodeId, peersOfA: seq<PeerName>, peersOfB: seq<PeerName>,
                      idsOfA: seq<NodeId>, idsOfB: seq<NodeId>)
    requires Knows(cluster, a, peersOfA) && ListOf(a, peersOfA, idsOfA)
    requires Knows(cluster, b, peersOfB) && ListOf(b, peersOfB, idsOfB)
    ensures idsOfA == idsOfB
  {
    forall n
      ensures n in idsOfA <==> n in idsOfB
    {
      if n in idsOfA || n in idsOfB {
        ListsTheCluster(cluster, a, peersOfA, idsOfA, n);
        ListsTheCluster(cluster, b, peersOfB, idsOfB, n);
      }
    }
    ListIsCanonical(idsOfA, idsOfB);
  }

  /** The primary is the hash modulo the number of nodes, used as a node id and not as an index. */
  function Primary(hash: Key -> nat, nodes: seq<NodeId>, key: Key): NodeId
    requires nodes != []
  {
    ToNodeId(hash(key) % |nodes|)
  }

  predicate IsLocal(hash: Key -> nat, nodes: seq<NodeId>, local: NodeId, key: Key)
    requires nodes != []
  {
    Primary(hash, nodes, key) == local
  }

  /** The home of a key is the node whose id is the remainder of its hash, and no other. */
  lemma IsLocalIff(hash: Key -> nat, nodes: seq<NodeId>, n: NodeId, key: Key)
    requires nodes != [] && StrictlySorted(nodes)
    ensures IsLocal(hash, nodes, n, key) <==> hash(key) % |nodes| == n
  {
    AtLeastIndex(nodes, |nodes| - 1);
  }

  /** Two keys have the same home exactly when their hashes are congruent. */
  lemma SameHomeIff(hash: Key -> nat, nodes: seq<NodeId>, j: Key, k: Key)
    requires nodes != [] && StrictlySorted(nodes)
    ensures Primary(hash, nodes, j) == Primary(hash, nodes, k) <==> hash(j) % |nodes| == hash(k) % |nodes|
  {
    AtLeastIndex(nodes, |nodes| - 1);
  }

  function Remainder(hash: Key -> nat, n: nat, key: Key): nat
    requires n > 0
  {
    hash(key) % n
  }

  /** Every remainder modulo n is the hash of some key. */
  ghost predicate Covers(hash: Key -> nat, n: nat)
    requires n > 0
  {
    forall r :: 0 <= r < n ==> Hit(hash, n, r)
  }

  ghost predicate Hit(hash: Key -> nat, n: nat, r: nat)
    requires n > 0
  {
    exists key :: Remainder(hash, n, key) == r
  }

  ghost predicate EveryKeyHasAHome(hash: Key -> nat, nodes: seq<NodeId>)
    requires nodes != []
  {
    forall key :: HasHome(hash, nodes, key)
  }

  ghost predicate HasHome(hash: Key -> nat, nodes: seq<NodeId>, key: Key)
    requires nodes != []
  {
    exists n :: n in nodes && IsLocal(hash, nodes, n, key)
  }

  lemma {:induction false} AtLeastIndex(nodes: seq<NodeId>, i: nat)
    requires StrictlySorted(nodes) && i < |nodes|
    ensures nodes[i] >= i
  {
    if i > 0 {
      AtLeastIndex(nodes, i - 1);
    }
  }

  /** A strictly sorted list of n ids that contains 0 .. n-1 is that list. */
  lemma {:induction false} DenseIsIdentity(nodes: seq<NodeId>, i: nat)
    requires StrictlySorted(nodes) && i < |nodes|
    requires forall r: nat :: r < |nodes| ==> r in nodes
    ensures nodes[i] == i
  {
    assert i in nodes;
    var j: nat :| j < |nodes| && nodes[j] == i;
    AtLeastIndex(nodes, j);
    if j < i {
      DenseIsIdentity(nodes, j);
    }
  }

  /** With ids 0 .. n-1 every key has a home, whatever the hash function. */
  lemma DenseIdsGiveHomes(hash: Key -> nat, nodes: seq<NodeId>)
    requires nodes != [] && nodes == seq(|nodes|, i => i)
    ensures EveryKeyHasAHome(hash, nodes)
  {
    assert nodes[|nodes| - 1] == |nodes| - 1;
    forall key
      ensures HasHome(hash, nodes, key)
    {
      var r := hash(key) % |nodes|;
      assert nodes[r] == r && IsLocal(hash, nodes, nodes[r], key);
    }
  }

  /**
   No key is ever local to two nodes. Every key is local to a node exactly when the remainders that
   the hash function reaches are ids; so with ids 0 .. n-1 always, and only then if it reaches them all.
   */
  lemma RoutingNeedsDenseIds(hash: Key -> nat, nodes: seq<NodeId>)
    requires nodes != [] && StrictlySorted(nodes)
    ensures EveryKeyHasAHome(hash, nodes) <==> forall r :: 0 <= r < |nodes| && Hit(hash, |nodes|, r) ==> r in nodes
    ensures nodes == seq(|nodes|, i => i) ==> EveryKeyHasAHome(hash, nodes)
    ensures Covers(hash, |nodes|) ==> (EveryKeyHasAHome(hash, nodes) ==> nodes == seq(|nodes|, i => i))
    ensures forall key, m, n :: IsLocal(hash, nodes, m, key) && IsLocal(hash, nodes, n, key) ==> m == n
  {
    AtLeastIndex(nodes, |nodes| - 1);
    HomesAreRemainders(hash, nodes);
    if nodes == seq(|nodes|, i => i) {
      DenseIdsGiveHomes(hash, nodes);
    }
    if Covers(hash, |nodes|) && EveryKeyHasAHome(hash, nodes) {
      HomesAreDense(hash, nodes);
    }
  }

  lemma HomeIsRemainder(hash: Key -> nat, nodes: seq<NodeId>, key: Key)
    requires 0 < |nodes| <= 65536
    ensures Remainder(hash, |nodes|, key) < |nodes|
    ensures HasHome(hash, nodes, key) <==> Remainder(hash, |nodes|, key) in nodes
  {
  }

  lemma HomesAreRemainders(hash: Key -> nat, nodes: seq<NodeId>)
    requires 0 < |nodes| <= 65536
    ensures EveryKeyHasAHome(hash, nodes) <==> forall r :: 0 <= r < |nodes| && Hit(hash, |nodes|, r) ==> r in nodes
  {
    hide HasHome, Remainder;
    if EveryKeyHasAHome(hash, nodes) {
      forall r | 0 <= r < |nodes| && Hit(hash, |nodes|, r)
        ensures r in nodes
      {
        var key :| Remainder(hash, |nodes|, key) == r;
        HomeIsRemainder(hash, nodes, key);
      }
    }
    if forall r :: 0 <= r < |nodes| && Hit(hash, |nodes|, r) ==> r in nodes {
      forall key
        ensures HasHome(hash, nodes, key)
      {
        HomeIsRemainder(hash, nodes, key);
        assert Hit(hash, |nodes|, Remainder(hash, |nodes|, key));
      }
    }
  }

  lemma HomesAreDense(hash: Key -> nat, nodes: seq<NodeId>)
    requires nodes != [] && StrictlySorted(nodes) && Covers(hash, |nodes|) && EveryKeyHasAHome(hash, nodes)
    requires |nodes| <= 65536
    ensures nodes == seq(|nodes|, i => i)
  {
    HomesAreRemainders(hash, nodes);
    forall i | 0 <= i < |nodes|
      ensures nodes[i] == i
    {
      DenseIsIdentity(nodes, i);
    }
  }

  /** In a cluster of nodes 0 .. n-1 every node routes every key to the same node, the remainder of its hash. */
  lemma DenseClusterRoutes(hash: Key -> nat, cluster: set<NodeId>, n: nat, local: NodeId, peers: seq<PeerName>,
                           ids: seq<NodeId>, key: Key)
    requires 0 < n <= 65536 && forall i :: i in cluster <==> 0 <= i < n
    requires Knows(cluster, local, peers) && ListOf(local, peers, ids)
    ensures ids == seq(n, i => i)
    ensures forall m: NodeId :: IsLocal(hash, ids, m, key) <==> m == hash(key) % n
  {
    var dense: seq<NodeId> := seq(n, i requires 0 <= i < n => i);
    forall i
      ensures i in ids <==> i in dense
    {
      if 0 <= i < 65536 {
        ListsTheCluster(cluster, local, peers, ids, i);
        assert 0 <= i < n ==> dense[i] == i;
      }
    }
    ListIsCanonical(ids, dense);
    forall m: NodeId
      ensures IsLocal(hash, ids, m, key) <==> m == hash(key) % n
    {
      IsLocalIff(hash, ids, m, key);
    }
  }

  /** The failure in the small: in a cluster of nodes 1 and 2 no node serves a key of even hash. */
  lemma GapLeavesKeysHomeless(hash: Key -> nat, key: Key, n: NodeId)
    requires hash(key) % 2 == 0 && n in [1, 2]
    ensures !IsLocal(hash, [1, 2], n, key)
  {
  }

  // ----- grouping a transaction's keys

  /** Without a coordinator everything is local. */
  datatype Routes = SingleNode | Cluster(hash: Key -> nat, nodes: seq<NodeId>)

  predicate IsLocalKey(routes: Routes, local: NodeId, key: Key)
    requires routes.Cluster? ==> routes.nodes != []
  {
    routes.Cluster? ==> IsLocal(routes.hash, routes.nodes, local, key)
  }

  function HomeOf(routes: Routes, local: NodeId, key: Key): NodeId
    requires routes.Cluster? ==> routes.nodes != []
  {
    if IsLocalKey(routes, local, key) then local else Primary(routes.hash, routes.nodes, key)
  }

  /** In a cluster the home is the one node that serves the key, seen from anywhere; alone, it is the node itself. */
  lemma HomeServes(routes: Routes, local: NodeId, key: Key)
    requires routes.Cluster? ==> routes.nodes != []
    ensures routes.SingleNode? ==> HomeOf(routes, local, key) == local && IsLocalKey(routes, local, key)
    ensures routes.Cluster? ==>
              forall n :: HomeOf(routes, local, key) == n <==> IsLocal(routes.hash, routes.nodes, n, key)
  {
  }

  function KeysAt(nodeToKeys: map<NodeId, set<Key>>, n: NodeId): set<Key> {
    if n in nodeToKeys then nodeToKeys[n] else {}
  }

  /** The keys under `n` are exactly the transaction's keys whose home is `n`. */
  ghost predicate Grouped(routes: Routes, local: NodeId, keys: set<Key>, nodeToKeys: map<NodeId, set<Key>>)
    requires routes.Cluster? ==> routes.nodes != []
  {
    && (forall n, k :: k in KeysAt(nodeToKeys, n) <==> k in keys && HomeOf(routes, local, k) == n)
    && (forall n :: n in nodeToKeys ==> nodeToKeys[n] != {})
  }

  /** Filing one more key under its home. */
  lemma GroupedInsert(routes: Routes, local: NodeId, keys: set<Key>, nodeToKeys: map<NodeId, set<Key>>, key: Key)
    requires routes.Cluster? ==> routes.nodes != []
    requires Grouped(routes, local, keys, nodeToKeys)
    ensures var home := HomeOf(routes, local, key);
            Grouped(routes, local, keys + {key}, nodeToKeys[home := KeysAt(nodeToKeys, home) + {key}])
  {
    var home := HomeOf(routes, local, key);
    var after := nodeToKeys[home := KeysAt(nodeToKeys, home) + {key}];
    forall n, k
      ensures k in KeysAt(after, n) <==> k in keys + {key} && HomeOf(routes, local, k) == n
    {
      assert k in KeysAt(nodeToKeys, n) <==> k in keys && HomeOf(routes, local, k) == n;
    }
  }

  method GroupKeys(routes: Routes, local: NodeId, ops: seq<Op>)
    returns (keyToNode: map<Key, NodeId>, nodeToKeys: map<NodeId, set<Key>>)
    requires routes.Cluster? ==> routes.nodes != []
    ensures keyToNode.Keys == Keys(ops)
    ensures forall k :: k in keyToNode ==>
              if routes.Cluster? then IsLocal(routes.hash, routes.nodes, keyToNode[k], k) else keyToNode[k] == local
    ensures Grouped(routes, local, Keys(ops), nodeToKeys)
  {
    keyToNode, nodeToKeys := map[], map[];
    for i := 0 to |ops|
      invariant keyToNode.Keys == Keys(ops[..i])
      invariant forall k :: k in keyToNode ==> keyToNode[k] == HomeOf(routes, local, k)
      invariant Grouped(routes, local, Keys(ops[..i]), nodeToKeys)
    {
      var key := ops[i].key;
      var home := HomeOf(routes, local, key);
      assert Keys(ops[..i + 1]) == Keys(ops[..i]) + {key} by {
        assert ops[..i + 1] == ops[..i] + [ops[i]];
      }
      GroupedInsert(routes, local, Keys(ops[..i]), nodeToKeys, key);
      keyToNode := keyToNode[key := home];
      nodeToKeys := nodeToKeys[home := KeysAt(nodeToKeys, home) + {key}];
    }
    assert ops[..|ops|] == ops;
  }

  /** The local keys and the remote groups of the locking phase. */
  method SplitLocal(local: NodeId, nodeToKeys: map<NodeId, set<Key>>)
    returns (localKeys: set<Key>, remoteKeys: map<NodeId, set<Key>>)
    ensures localKeys == KeysAt(nodeToKeys, local)
    ensures remoteKeys.Keys == nodeToKeys.Keys - {local}
    ensures forall n :: n in remoteKeys ==> remoteKeys[n] == nodeToKeys[n]
  {
    localKeys, remoteKeys := {}, map[];
    var left := nodeToKeys.Keys;
    while left != {}
      invariant left <= nodeToKeys.Keys
      invariant localKeys == if local in left then {} else KeysAt(nodeToKeys, local)
      invariant remoteKeys == map n | n in nodeToKeys && n !in left && n != local :: nodeToKeys[n]
      decreases |left|
    {
      var n :| n in left;
      if n == local {
        localKeys := localKeys + nodeToKeys[n];
      } else {
        remoteKeys := remoteKeys[n := nodeToKeys[n]];
      }
      left := left - {n};
    }
  }

  /**
   Grouping is a partition: every key is under its one home, nothing else is under any node, the local
   group is exactly the keys the node may lock itself, and in a cluster every group is exactly the keys
   its node serves.
   */
  lemma GroupingIsPartition(routes: Routes, local: NodeId, keys: set<Key>, nodeToKeys: map<NodeId, set<Key>>)
    requires routes.Cluster? ==> routes.nodes != []
    requires Grouped(routes, local, keys, nodeToKeys)
    ensures forall m: NodeId, n: NodeId :: m != n ==> KeysAt(nodeToKeys, m) !! KeysAt(nodeToKeys, n)
    ensures forall k :: k in keys <==> exists n :: n in nodeToKeys && k in nodeToKeys[n]
    ensures forall k :: k in KeysAt(nodeToKeys, local) <==> k in keys && IsLocalKey(routes, local, k)
    ensures routes.Cluster? ==>
              forall n, k :: k in KeysAt(nodeToKeys, n) <==> k in keys && IsLocal(routes.hash, routes.nodes, n, k)
  {
    forall k
      ensures k in keys <==> exists n :: n in nodeToKeys && k in nodeToKeys[n]
    {
      if k in keys {
        assert k in KeysAt(nodeToKeys, HomeOf(routes, local, k));
      }
      if n :| n in nodeToKeys && k in nodeToKeys[n] {
        assert k in KeysAt(nodeToKeys, n);
      }
    }
    if routes.Cluster? {
      forall n, k
        ensures k in KeysAt(nodeToKeys, n) <==> k in keys && IsLocal(routes.hash, routes.nodes, n, k)
      {
        assert k in KeysAt(nodeToKeys, n) <==> k in keys && HomeOf(routes, local, k) == n;
      }
    }
    forall m: NodeId, n: NodeId | m != n
      ensures KeysAt(nodeToKeys, m) !! KeysAt(nodeToKeys, n)
    {
      forall k | k in KeysAt(nodeToKeys, m)
        ensures k !in KeysAt(nodeToKeys, n)
      {
        assert HomeOf(routes, local, k) == m;
      }
    }
  }

  /** The lock-release messages of the release phase. */
  function ReleaseTargets(local: NodeId, nodeToKeys: map<NodeId, set<Key>>): set<(NodeId, Key)> {
    set n, k | n in nodeToKeys && n != local && k in nodeToKeys[n] :: (n, k)
  }

  /** The release phase addresses exactly the keys that were to be locked remotely, each at its home. */
  lemma ReleaseReachesRemoteKeys(routes: Routes, local: NodeId, keys: set<Key>, nodeToKeys: map<NodeId, set<Key>>,
                                 n: NodeId, k: Key)
    requires routes.Cluster? ==> routes.nodes != []
    requires Grouped(routes, local, keys, nodeToKeys)
    ensures (n, k) in ReleaseTargets(local, nodeToKeys) <==>
            k in keys && n != local && routes.Cluster? && IsLocal(routes.hash, routes.nodes, n, k)
  {
    assert k in KeysAt(nodeToKeys, n) <==> k in keys && HomeOf(routes, local, k) == n;
  }

  /** When every key is local, the grouping has at most the one local group, and it is all keys. */
  lemma AllLocal(routes: Routes, local: NodeId, keys: set<Key>, nodeToKeys: map<NodeId, set<Key>>)
    requires routes.Cluster? ==> routes.nodes != []
    requires Grouped(routes, local, keys, nodeToKeys)
    requires forall k :: k in keys ==> IsLocalKey(routes, local, k)
    ensures nodeToKeys.Keys <= {local} && KeysAt(nodeToKeys, local) == keys
  {
    forall n | n in nodeToKeys
      ensures n == local
    {
      var group := KeysAt(nodeToKeys, n);
      EmptyOrNot(group);
      var k :| k in group;
      assert HomeOf(routes, local, k) == n;
    }
    forall k
      ensures k in KeysAt(nodeToKeys, local) <==> k in keys
    {
    }
  }
}
