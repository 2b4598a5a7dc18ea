/** The selector's latency cache: the registry nodes it is offered, the two maps it keeps
    (measured nodes and blacklisted nodes, both keyed by node id), the upsert that records
    a probe's outcome, and the lookup that turns a list of services into candidates. */
module LatencyCache {

  /** A registry node as the selector sees it: its id and its `host:port` address. */
  datatype RegistryNode = RegistryNode(id: string, address: string)

  /** A service as the registry lists it. */
  datatype Service = Service(name: string, nodes: seq<RegistryNode>)

  /** A candidate together with its measured round-trip time in nanoseconds;
      0 stands for "not measured yet". */
  datatype Node = Node(n: RegistryNode, latency: int)

  /** The selector's two maps: nodes whose latency is known, and nodes that failed a probe. */
  datatype Cache = Cache(nodes: map<string, Node>, blacklist: map<string, Node>)

  const EmptyCache: Cache := Cache(map[], map[])

  /** Every entry is filed under its own node's id. */
  ghost predicate Keyed(m: map<string, Node>) {
    forall id :: id in m ==> m[id].n.id == id
  }

  ghost predicate Valid(c: Cache) {
    Keyed(c.nodes) && Keyed(c.blacklist)
  }

  /** `b` agrees with `a` on every key other than `k`. */
  ghost predicate SameExcept(a: map<string, Node>, b: map<string, Node>, k: string) {
    && (forall id :: id != k ==> (id in a <==> id in b))
    && (forall id :: id != k && id in a ==> a[id] == b[id])
  }

  /** Records a probe's outcome: a failed node goes to the blacklist, a measured node to
      the node map, replacing any earlier entry with the same id. */
  function AddNode(c: Cache, blacklist: bool, node: Node): (r: Cache)
    ensures blacklist ==> r.nodes == c.nodes
    ensures !blacklist ==> r.blacklist == c.blacklist
    ensures blacklist ==>
      node.n.id in r.blacklist && r.blacklist[node.n.id] == node && SameExcept(c.blacklist, r.blacklist, node.n.id)
    ensures !blacklist ==>
      node.n.id in r.nodes && r.nodes[node.n.id] == node && SameExcept(c.nodes, r.nodes, node.n.id)
  {
    if blacklist then c.(blacklist := c.blacklist[node.n.id := node])
    else c.(nodes := c.nodes[node.n.id := node])
  }

  lemma AddNodeKeepsValid(c: Cache, blacklist: bool, node: Node)
    requires Valid(c)
    ensures Valid(AddNode(c, blacklist, node))
  {
  }

  /** Recording the same outcome twice is recording it once. */
  lemma AddNodeIdempotent(c: Cache, blacklist: bool, node: Node)
    ensures AddNode(AddNode(c, blacklist, node), blacklist, node) == AddNode(c, blacklist, node)
  {
  }

  /** Outcomes for different ids, or for different maps, may be recorded in either order. */
  lemma AddNodeCommutes(c: Cache, b1: bool, n1: Node, b2: bool, n2: Node)
    requires b1 != b2 || n1.n.id != n2.n.id
    ensures AddNode(AddNode(c, b1, n1), b2, n2) == AddNode(AddNode(c, b2, n2), b1, n1)
  {
  }

  /** The nodes of all services, service by service, each in registry order. */
  function Flatten(services: seq<Service>): (r: seq<RegistryNode>)
    ensures forall n :: n in r <==> exists s :: s in services && n in s.nodes
  {
    if services == [] then []
    else services[0].nodes + Flatten(services[1..])
  }

  lemma {:induction false} FlattenAppend(a: seq<Service>, b: seq<Service>)
    ensures Flatten(a + b) == Flatten(a) + Flatten(b)
  {
    if a == [] {
      assert a + b == b;
    } else {
      assert (a + b)[1..] == a[1..] + b;
      FlattenAppend(a[1..], b);
    }
  }

  /** The registry nodes whose id is not blacklisted, in the order given. */
  function Admitted(ns: seq<RegistryNode>, blacklist: map<string, Node>): (r: seq<RegistryNode>)
    ensures |r| <= |ns|
    ensures forall n :: n in r <==> n in ns && n.id !in blacklist
  {
    if ns == [] then []
    else if ns[0].id in blacklist then Admitted(ns[1..], blacklist)
    else [ns[0]] + Admitted(ns[1..], blacklist)
  }

  /** Admission works node by node: together with the one-node case this pins down the
      order and the multiplicity of the admitted nodes. */
  lemma {:induction false} AdmittedAppend(a: seq<RegistryNode>, b: seq<RegistryNode>, blacklist: map<string, Node>)
    ensures Admitted(a + b, blacklist) == Admitted(a, blacklist) + Admitted(b, blacklist)
  {
    if a == [] {
      assert a + b == b;
    } else {
      assert (a + b)[1..] == a[1..] + b;
      AdmittedAppend(a[1..], b, blacklist);
    }
  }

  lemma AdmittedOne(n: RegistryNode, blacklist: map<string, Node>)
    ensures Admitted([n], blacklist) == if n.id in blacklist then [] else [n]
  {
  }

  /** The candidates of one selection: every non-blacklisted node of every service. */
  function Candidates(c: Cache, services: seq<Service>): (r: seq<RegistryNode>)
    ensures |r| <= |Flatten(services)|
    ensures forall n :: n in r <==> n.id !in c.blacklist && exists s :: s in services && n in s.nodes
  {
    Admitted(Flatten(services), c.blacklist)
  }

  /** The cached entry for a node, or a fresh unmeasured entry when it has none. */
  function Entry(c: Cache, n: RegistryNode): (r: Node)
    ensures n.id in c.nodes ==> r == c.nodes[n.id]
    ensures n.id !in c.nodes ==> r == Node(n, 0)
  {
    if n.id in c.nodes then c.nodes[n.id] else Node(n, 0)
  }

  /** An entry always belongs to the node it was asked for, and a node the cache has not
      measured is offered as unmeasured. */
  lemma EntryOf(c: Cache, n: RegistryNode)
    requires Keyed(c.nodes)
    ensures Entry(c, n).n.id == n.id
    ensures n.id !in c.nodes ==> Entry(c, n).latency == 0
    ensures n.id in c.nodes ==> Entry(c, n).latency == c.nodes[n.id].latency
  {
  }

  function Entries(c: Cache, ns: seq<RegistryNode>): (r: seq<Node>)
    ensures |r| == |ns| && forall i :: 0 <= i < |ns| ==> r[i] == Entry(c, ns[i])
  {
    if ns == [] then [] else [Entry(c, ns[0])] + Entries(c, ns[1..])
  }

  /** Some candidate has no cached entry. */
  predicate HasUnseen(c: Cache, ns: seq<RegistryNode>) {
    exists i :: 0 <= i < |ns| && ns[i].id !in c.nodes
  }

  /** A candidate list has an unseen node exactly when one of its nodes has no cached
      entry, so a list without one is answered from the cache alone. */
  lemma HasUnseenIff(c: Cache, ns: seq<RegistryNode>)
    ensures HasUnseen(c, ns) <==> exists n :: n in ns && n.id !in c.nodes
    ensures !HasUnseen(c, ns) ==> forall i :: 0 <= i < |ns| ==> Entries(c, ns)[i] == c.nodes[ns[i].id]
  {
    if !HasUnseen(c, ns) {
      forall n | n in ns
        ensures n.id in c.nodes
      {
        var i :| 0 <= i < |ns| && ns[i] == n;
      }
    }
  }

  /** The ordering of the candidate list: by ascending latency. */
  predicate Less(a: Node, b: Node) {
    a.latency < b.latency
  }

  /** The ordering is a strict weak order, as a sort requires: irreflexive, transitive,
      and nodes of equal latency are interchangeable. */
  lemma LessIsStrictWeakOrder(a: Node, b: Node, c: Node)
    ensures !Less(a, a)
    ensures Less(a, b) ==> !Less(b, a)
    ensures Less(a, b) && Less(b, c) ==> Less(a, c)
    ensures !Less(a, b) && !Less(b, a) ==> (Less(a, c) <==> Less(b, c)) && (Less(c, a) <==> Less(c, b))
  {
  }

  predicate Sorted(s: seq<Node>) {
    forall i, j :: 0 <= i < j < |s| ==> !Less(s[j], s[i])
  }

  function Insert(x: Node, s: seq<Node>): (r: seq<Node>)
    requires Sorted(s)
    ensures Sorted(r) && multiset(r) == multiset(s) + multiset{x}
    ensures forall k :: 0 <= k < |r| ==> r[k] == x || r[k] in s
  {
    if s == [] || !Less(s[0], x) then
      SortedCons(x, s);
      [x] + s
    else
      var t := Insert(x, s[1..]);
      assert s == [s[0]] + s[1..];
      SortedCons(s[0], t);
      [s[0]] + t
  }

  /** A node no slower than every node of a sorted list may go in front of it. */
  lemma SortedCons(h: Node, t: seq<Node>)
    requires Sorted(t) && forall k :: 0 <= k < |t| ==> !Less(t[k], h)
    ensures Sorted([h] + t)
  {
  }

  /** Orders the candidates by ascending latency. The source uses an unstable sort, so
      nothing is promised about the relative order of equal latencies. */
  function SortByLatency(s: seq<Node>): (r: seq<Node>)
    ensures Sorted(r) && multiset(r) == multiset(s)
  {
    if s == [] then []
    else
      assert s == [s[0]] + s[1..];
      Insert(s[0], SortByLatency(s[1..]))
  }

  /** The outcome of looking up the candidates: the list to scan and the cache afterwards. */
  datatype Fetch = Fetch(nodes: seq<Node>, cache: Cache)

  /** Looks up the candidates of a selection. When every candidate is cached, they come back
      as their cached entries sorted by latency and the cache is kept. When one is not, every
      candidate comes back unmeasured, in registry order, and both maps are emptied, so that
      the whole list is measured again. */
  function GetNodes(c: Cache, services: seq<Service>): (r: Fetch)
    ensures var ns := Candidates(c, services);
      && |r.nodes| == |ns|
      && (HasUnseen(c, ns) ==>
            && r.cache == EmptyCache
            && forall i :: 0 <= i < |ns| ==> r.nodes[i] == Node(Entry(c, ns[i]).n, 0))
      && (!HasUnseen(c, ns) ==>
            && r.cache == c
            && Sorted(r.nodes)
            && multiset(r.nodes) == multiset(Entries(c, ns)))
  {
    var ns := Candidates(c, services);
    var entries := Entries(c, ns);
    if HasUnseen(c, ns) then
      Fetch(seq(|entries|, i requires 0 <= i < |entries| => entries[i].(latency := 0)), EmptyCache)
    else
      var sorted := SortByLatency(entries);
      assert |sorted| == |multiset(sorted)| == |multiset(entries)| == |entries|;
      Fetch(sorted, c)
  }

  /** Every entry of a fully cached lookup is the cached entry of some candidate. */
  lemma {:induction false} CachedEntriesOf(c: Cache, ns: seq<RegistryNode>, x: Node)
    requires !HasUnseen(c, ns)
    requires x in multiset(Entries(c, ns))
    ensures exists i :: 0 <= i < |ns| && ns[i].id in c.nodes && x == c.nodes[ns[i].id]
  {
    var es := Entries(c, ns);
    var k :| 0 <= k < |es| && es[k] == x;
    assert ns[k].id in c.nodes;
  }

  /** No returned node belongs to a blacklisted id, and every returned node carries the id
      of one of the candidates. */
  lemma GetNodesAdmitsOnly(c: Cache, services: seq<Service>, k: nat)
    requires Valid(c)
    requires k < |GetNodes(c, services).nodes|
    ensures var n := GetNodes(c, services).nodes[k].n;
      && n.id !in c.blacklist
      && exists i :: 0 <= i < |Candidates(c, services)| && Candidates(c, services)[i].id == n.id
  {
    var ns := Candidates(c, services);
    var r := GetNodes(c, services);
    if HasUnseen(c, ns) {
      assert ns[k] in ns;
      assert Entry(c, ns[k]).n.id == ns[k].id;
    } else {
      var x := r.nodes[k];
      assert x in multiset(r.nodes);
      CachedEntriesOf(c, ns, x);
      var i :| 0 <= i < |ns| && ns[i].id in c.nodes && x == c.nodes[ns[i].id];
      assert ns[i] in ns;
    }
  }

  /** After a lookup that met an unseen node, every candidate is unseen again: a following
      lookup with the same services also resets. */
  lemma GetNodesResetForgets(c: Cache, services: seq<Service>)
    requires HasUnseen(c, Candidates(c, services))
    requires Flatten(services) != []
    ensures var c' := GetNodes(c, services).cache;
      c' == EmptyCache && HasUnseen(c', Candidates(c', services))
  {
    var c' := GetNodes(c, services).cache;
    var ns' := Candidates(c', services);
    assert Flatten(services)[0] in ns';
  }
}
