/** One probe of a candidate node: what the environment reports (whether the address splits
    into host and port, and the output of `ping -c 1 <host>` when the command succeeds), how
    that report is judged against the latency limit, the message the probe sends to the
    waiting selection and the cache entry it records. */
module Probe {
  import opened Wrappers
  import opened PingParser
  import opened LatencyCache

  /** The environment's report for one probe. `output` is `None` when the ping command
      could not be run or exited with an error. */
  datatype ProbeInput = ProbeInput(hostSplits: bool, output: Option<string>)

  /** Why a probe blacklists its node. */
  datatype ProbeFailure =
    | BadAddress
    | CommandFailed
    | Unparsable(error: PingError)
    | TooSlow(rtt: int)

  datatype Verdict = Reachable(rtt: int) | Unreachable(failure: ProbeFailure)

  /** The round-trip time a report carries, when it carries one. */
  function MeasuredRtt(input: ProbeInput): Option<int> {
    if input.hostSplits && input.output.Some? && ParsePing(input.output.value).Ok?
    then Some(ParsePing(input.output.value).value)
    else None
  }

  /** Judges a report: the first failing step (address, command, parse) decides the failure;
      a parsed time above the limit is too slow; anything else is reachable. */
  function Classify(maxLatency: int, input: ProbeInput): (v: Verdict)
    ensures v.Reachable? <==> MeasuredRtt(input).Some? && MeasuredRtt(input).value <= maxLatency
    ensures v.Reachable? ==> v.rtt == MeasuredRtt(input).value
    ensures v == Unreachable(BadAddress) <==> !input.hostSplits
    ensures v == Unreachable(CommandFailed) <==> input.hostSplits && input.output.None?
    ensures v.Unreachable? && v.failure.TooSlow? <==>
      MeasuredRtt(input).Some? && MeasuredRtt(input).value > maxLatency
  {
    if !input.hostSplits then Unreachable(BadAddress)
    else if input.output.None? then Unreachable(CommandFailed)
    else match ParsePing(input.output.value)
      case Err(e) => Unreachable(Unparsable(e))
      case Ok(rtt) => if rtt > maxLatency then Unreachable(TooSlow(rtt)) else Reachable(rtt)
  }

  /** The limit is inclusive: a time exactly at it is accepted. */
  lemma LimitIsInclusive(maxLatency: int, input: ProbeInput)
    requires MeasuredRtt(input) == Some(maxLatency)
    ensures Classify(maxLatency, input) == Reachable(maxLatency)
  {
  }

  /** Raising the limit never turns a reachable node away. */
  lemma ClassifyMonotone(lo: int, hi: int, input: ProbeInput)
    requires lo <= hi
    requires Classify(lo, input).Reachable?
    ensures Classify(hi, input) == Classify(lo, input)
  {
  }

  /** What a probe sends to the selection waiting for it: its node, or why it failed. */
  datatype Message = NodeMsg(node: RegistryNode) | ErrMsg(failure: ProbeFailure)

  datatype Probed = Probed(msg: Message, cache: Cache)

  /** Probes `node`: a reachable node is announced and filed in the node map with its new
      latency, which lies within the limit; an unreachable one has its failure announced and
      is filed, as it was, in the blacklist. Either way the other map, and every other id,
      keeps what it had. */
  function Ping(c: Cache, maxLatency: int, node: Node, input: ProbeInput): (r: Probed)
    ensures r.msg.NodeMsg? <==> Classify(maxLatency, input).Reachable?
    ensures r.msg.NodeMsg? ==> r.msg.node == node.n
    ensures r.msg.ErrMsg? ==> r.msg.failure == Classify(maxLatency, input).failure
    ensures var id := node.n.id; r.msg.NodeMsg? ==>
      && id in r.cache.nodes
      && r.cache.nodes[id] == Node(node.n, MeasuredRtt(input).value)
      && r.cache.nodes[id].latency <= maxLatency
      && SameExcept(c.nodes, r.cache.nodes, id)
      && r.cache.blacklist == c.blacklist
    ensures var id := node.n.id; r.msg.ErrMsg? ==>
      && id in r.cache.blacklist
      && r.cache.blacklist[id] == node
      && SameExcept(c.blacklist, r.cache.blacklist, id)
      && r.cache.nodes == c.nodes
  {
    match Classify(maxLatency, input)
    case Reachable(rtt) => Probed(NodeMsg(node.n), AddNode(c, false, node.(latency := rtt)))
    case Unreachable(f) => Probed(ErrMsg(f), AddNode(c, true, node))
  }

  datatype Probes = Probes(msgs: seq<Message>, cache: Cache)

  /** Every launched probe, recorded in launch order. `outcome` is the environment's report
      for each node. */
  function PingAll(c: Cache, maxLatency: int, launched: seq<Node>, outcome: RegistryNode -> ProbeInput): (r: Probes)
    ensures |r.msgs| == |launched|
    ensures forall i :: 0 <= i < |launched| ==>
      r.msgs[i] == Ping(c, maxLatency, launched[i], outcome(launched[i].n)).msg
    decreases |launched|
  {
    if launched == [] then Probes([], c)
    else
      var p := Ping(c, maxLatency, launched[0], outcome(launched[0].n));
      var rest := PingAll(p.cache, maxLatency, launched[1..], outcome);
      Probes([p.msg] + rest.msgs, rest.cache)
  }

  /** After all probes, every probed id is filed in one of the maps, every other key keeps
      the entry it had, and the cache stays keyed by node id. */
  lemma PingAllFiles(c: Cache, maxLatency: int, launched: seq<Node>, outcome: RegistryNode -> ProbeInput)
    requires Valid(c)
    ensures var r := PingAll(c, maxLatency, launched, outcome);
      && Valid(r.cache)
      && (forall i :: 0 <= i < |launched| ==>
            launched[i].n.id in r.cache.nodes || launched[i].n.id in r.cache.blacklist)
      && (forall id :: id !in Ids(launched) ==>
            && (id in r.cache.nodes <==> id in c.nodes)
            && (id in r.cache.nodes ==> r.cache.nodes[id] == c.nodes[id])
            && (id in r.cache.blacklist <==> id in c.blacklist)
            && (id in r.cache.blacklist ==> r.cache.blacklist[id] == c.blacklist[id]))
  {
    PingAllKeepsValid(c, maxLatency, launched, outcome);
    PingAllFilesLaunched(c, maxLatency, launched, outcome);
    forall id | id !in Ids(launched)
      ensures var r := PingAll(c, maxLatency, launched, outcome);
        && (id in r.cache.nodes <==> id in c.nodes)
        && (id in r.cache.nodes ==> r.cache.nodes[id] == c.nodes[id])
        && (id in r.cache.blacklist <==> id in c.blacklist)
        && (id in r.cache.blacklist ==> r.cache.blacklist[id] == c.blacklist[id])
    {
      PingAllKeepsOthers(c, maxLatency, launched, outcome, id);
    }
  }

  lemma {:induction false} PingAllKeepsValid(c: Cache, maxLatency: int, launched: seq<Node>, outcome: RegistryNode -> ProbeInput)
    requires Valid(c)
    ensures Valid(PingAll(c, maxLatency, launched, outcome).cache)
    decreases |launched|
  {
    if launched != [] {
      var p := Ping(c, maxLatency, launched[0], outcome(launched[0].n));
      PingAllKeepsValid(p.cache, maxLatency, launched[1..], outcome);
    }
  }

  lemma {:induction false} PingAllFilesLaunched(c: Cache, maxLatency: int, launched: seq<Node>, outcome: RegistryNode -> ProbeInput)
    ensures var r := PingAll(c, maxLatency, launched, outcome);
      forall i :: 0 <= i < |launched| ==>
        launched[i].n.id in r.cache.nodes || launched[i].n.id in r.cache.blacklist
    decreases |launched|
  {
    if launched != [] {
      var p := Ping(c, maxLatency, launched[0], outcome(launched[0].n));
      var r := PingAll(c, maxLatency, launched, outcome);
      PingAllFilesLaunched(p.cache, maxLatency, launched[1..], outcome);
      PingAllKeepsFiled(p.cache, maxLatency, launched[1..], outcome, launched[0].n.id);
      forall i | 0 < i < |launched|
        ensures launched[i].n.id in r.cache.nodes || launched[i].n.id in r.cache.blacklist
      {
        assert launched[1..][i - 1] == launched[i];
      }
    }
  }

  /** An id no probe touches keeps its entries in both maps. */
  lemma {:induction false} PingAllKeepsOthers(c: Cache, maxLatency: int, launched: seq<Node>, outcome: RegistryNode -> ProbeInput, id: string)
    requires id !in Ids(launched)
    ensures var r := PingAll(c, maxLatency, launched, outcome);
      && (id in r.cache.nodes <==> id in c.nodes)
      && (id in r.cache.nodes ==> r.cache.nodes[id] == c.nodes[id])
      && (id in r.cache.blacklist <==> id in c.blacklist)
      && (id in r.cache.blacklist ==> r.cache.blacklist[id] == c.blacklist[id])
    decreases |launched|
  {
    if launched != [] {
      IdsCons(launched);
      var p := Ping(c, maxLatency, launched[0], outcome(launched[0].n));
      PingAllKeepsOthers(p.cache, maxLatency, launched[1..], outcome, id);
    }
  }

  /** A filed id stays filed through later probes. */
  lemma {:induction false} PingAllKeepsFiled(c: Cache, maxLatency: int, launched: seq<Node>, outcome: RegistryNode -> ProbeInput, id: string)
    requires id in c.nodes || id in c.blacklist
    ensures var r := PingAll(c, maxLatency, launched, outcome);
      id in r.cache.nodes || id in r.cache.blacklist
    decreases |launched|
  {
    if launched != [] {
      var p := Ping(c, maxLatency, launched[0], outcome(launched[0].n));
      PingAllKeepsFiled(p.cache, maxLatency, launched[1..], outcome, id);
    }
  }

  /** The ids of a list of nodes. */
  function Ids(ns: seq<Node>): (r: set<string>)
    ensures forall i :: 0 <= i < |ns| ==> ns[i].n.id in r
    ensures forall id :: id in r ==> exists i :: 0 <= i < |ns| && ns[i].n.id == id
  {
    set i | 0 <= i < |ns| :: ns[i].n.id
  }

  lemma IdsCons(ns: seq<Node>)
    requires ns != []
    ensures Ids(ns) == {ns[0].n.id} + Ids(ns[1..])
  {
    forall id | id in Ids(ns) ensures id in {ns[0].n.id} + Ids(ns[1..]) {
      var i :| 0 <= i < |ns| && ns[i].n.id == id;
      if i > 0 {
        assert ns[1..][i - 1] == ns[i];
      }
    }
  }
}
