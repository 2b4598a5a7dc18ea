/** One selection round of the low-latency selector: look up the candidates, scan them in
    order (probing every unmeasured node until the first measured one, which becomes the
    provisional pick and whose latency becomes the wait), settle the race between the timer
    and the probes, and resolve the round's answer. The selector is built from the default
    latency limit and the options. */
module Selection {
  import opened Wrappers
  import opened LatencyCache
  import opened Probe
  import SelectOpts

  /** The selector's state: its latency limit (nanoseconds) and its cache. */
  datatype Selector = Selector(maxLatency: int, cache: Cache)

  /** Builds a selector: the options are applied in order to a record holding the default
      limit, and both maps start empty. */
  function NewSelector(defaultMaxLatency: int, opts: seq<SelectOpts.SelectOption>): (s: Selector)
    ensures s.cache == EmptyCache
    ensures SelectOpts.LastLatency(opts).Some? ==> s.maxLatency == SelectOpts.LastLatency(opts).value
    ensures SelectOpts.LastLatency(opts).None? ==> s.maxLatency == defaultMaxLatency
  {
    var o := SelectOpts.ApplyAll(SelectOpts.SelectOptions(defaultMaxLatency, false), opts);
    Selector(o.maxLatency, EmptyCache)
  }

  /** The outcome of the scan: the nodes probed, in order, the provisional pick, and how
      long to wait for a probe. */
  datatype Scan = Scan(launched: seq<Node>, provisional: Option<RegistryNode>, timeout: int)

  /** Probes every node up to the first one with a non-zero latency, which is taken
      provisionally and whose latency bounds the wait; with none, the wait is the limit. */
  function ScanNodes(nodes: seq<Node>, maxLatency: int): (r: Scan)
    ensures |r.launched| <= |nodes| && r.launched == nodes[..|r.launched|]
    ensures forall i :: 0 <= i < |r.launched| ==> r.launched[i].latency == 0
    ensures r.provisional.None? <==> |r.launched| == |nodes|
    ensures r.provisional.Some? ==>
      && nodes[|r.launched|].latency != 0
      && r.provisional.value == nodes[|r.launched|].n
      && r.timeout == nodes[|r.launched|].latency
    ensures r.provisional.None? ==> r.timeout == maxLatency
  {
    if nodes == [] then Scan([], None, maxLatency)
    else if nodes[0].latency != 0 then Scan([], Some(nodes[0].n), nodes[0].latency)
    else
      var rest := ScanNodes(nodes[1..], maxLatency);
      rest.(launched := [nodes[0]] + rest.launched)
  }

  /** How the wait for the probes ends: the timer fires first, or the message of the probe
      at the given launch position is the one taken. */
  datatype Race = TimedOut | Delivered(probe: nat)

  /** A delivered message comes from a launched probe. When nothing was launched there is
      no wait, and the race is not consulted. */
  predicate RaceFits(race: Race, launched: nat) {
    race.Delivered? ==> launched == 0 || race.probe < launched
  }

  /** The error a round records. */
  datatype Failure = Timeout(after: int) | ProbeFailed(failure: ProbeFailure)

  datatype Settled = Settled(result: Option<RegistryNode>, err: Option<Failure>)

  /** Settles the wait: with nothing launched the provisional pick stands; otherwise the
      timer records a timeout, a node message replaces the pick, and an error message is
      recorded next to the pick. */
  function Settle(scan: Scan, msgs: seq<Message>, race: Race): (r: Settled)
    requires |msgs| == |scan.launched| && RaceFits(race, |msgs|)
    ensures scan.launched == [] ==> r == Settled(scan.provisional, None)
    ensures r.result.None? ==> scan.provisional.None?
    ensures r.result.Some? && r.result != scan.provisional ==>
      race.Delivered? && msgs[race.probe] == NodeMsg(r.result.value)
    ensures scan.launched != [] && race.TimedOut? ==> r == Settled(scan.provisional, Some(Timeout(scan.timeout)))
    ensures scan.launched != [] && race.Delivered? && msgs[race.probe].NodeMsg? ==>
      r == Settled(Some(msgs[race.probe].node), None)
    ensures scan.launched != [] && race.Delivered? && msgs[race.probe].ErrMsg? ==>
      r == Settled(scan.provisional, Some(ProbeFailed(msgs[race.probe].failure)))
  {
    if scan.launched == [] then Settled(scan.provisional, None)
    else match race
      case TimedOut => Settled(scan.provisional, Some(Timeout(scan.timeout)))
      case Delivered(k) =>
        match msgs[k]
        case NodeMsg(n) => Settled(Some(n), None)
        case ErrMsg(f) => Settled(scan.provisional, Some(ProbeFailed(f)))
  }

  /** What the round's `Next` returns. */
  datatype Next = Picked(node: RegistryNode) | NoneAvailable | NoneResult | Failed(failure: Failure)

  /** The round's answer: no candidates means none available; a pick wins even when an
      error was recorded; otherwise the recorded error, or "none result" without one. */
  function Resolve(nodes: seq<Node>, s: Settled): (r: Next)
    ensures r == NoneAvailable <==> nodes == []
    ensures r.Picked? <==> nodes != [] && s.result.Some?
    ensures r.Picked? ==> r.node == s.result.value
    ensures r.Failed? ==> s.err == Some(r.failure)
  {
    if nodes == [] then NoneAvailable
    else if s.result.None? then
      if s.err.Some? then Failed(s.err.value) else NoneResult
    else Picked(s.result.value)
  }

  /** The scan of a round, before any probe runs. */
  function Plan(s: Selector, services: seq<Service>): Scan {
    ScanNodes(GetNodes(s.cache, services).nodes, s.maxLatency)
  }

  datatype Round = Round(next: Next, selector: Selector, launched: seq<Node>, timeout: int)

  /** One selection: `outcome` is the environment's report for each probed node and `race`
      says how the wait ended. The selector afterwards holds the cache once every launched
      probe has recorded its outcome, in launch order. */
  function LowLatency(s: Selector, services: seq<Service>, outcome: RegistryNode -> ProbeInput, race: Race): (r: Round)
    requires RaceFits(race, |Plan(s, services).launched|)
    ensures r.selector.maxLatency == s.maxLatency
    ensures r.next == NoneAvailable <==> Candidates(s.cache, services) == []
    ensures r.next != NoneResult
    ensures forall i :: 0 <= i < |r.launched| ==> r.launched[i].latency == 0
  {
    var fetch := GetNodes(s.cache, services);
    var scan := ScanNodes(fetch.nodes, s.maxLatency);
    var probes := PingAll(fetch.cache, s.maxLatency, scan.launched, outcome);
    var settled := Settle(scan, probes.msgs, race);
    Round(Resolve(fetch.nodes, settled), s.(cache := probes.cache), scan.launched, scan.timeout)
  }

  /** The race delivers a node message. */
  predicate DeliversNode(s: Selector, services: seq<Service>, outcome: RegistryNode -> ProbeInput, race: Race) {
    var launched := Plan(s, services).launched;
    launched != [] && race.Delivered? && race.probe < |launched|
    && Classify(s.maxLatency, outcome(launched[race.probe].n)).Reachable?
  }

  /** Without candidates the round answers "none available", probes nothing and keeps the
      selector as it was. */
  lemma NoCandidates(s: Selector, services: seq<Service>, outcome: RegistryNode -> ProbeInput, race: Race)
    requires Candidates(s.cache, services) == []
    ensures RaceFits(race, |Plan(s, services).launched|)
    ensures var r := LowLatency(s, services, outcome, race);
      r.next == NoneAvailable && r.launched == [] && r.selector == s
  {
  }

  /** A delivered node message decides the round, whatever was picked provisionally. */
  lemma DeliveredNodeWins(s: Selector, services: seq<Service>, outcome: RegistryNode -> ProbeInput, race: Race)
    requires RaceFits(race, |Plan(s, services).launched|)
    requires DeliversNode(s, services, outcome, race)
    ensures LowLatency(s, services, outcome, race).next == Picked(Plan(s, services).launched[race.probe].n)
  {
  }

  /** A delivered error message does not end the selection with an error when a node was
      picked provisionally; without one, the round fails with that probe's failure. */
  lemma DeliveredErrorKeepsProvisional(s: Selector, services: seq<Service>, outcome: RegistryNode -> ProbeInput, race: Race)
    requires RaceFits(race, |Plan(s, services).launched|)
    requires Plan(s, services).launched != [] && race.Delivered?
    requires Classify(s.maxLatency, outcome(Plan(s, services).launched[race.probe].n)).Unreachable?
    ensures var plan := Plan(s, services);
      var failure := Classify(s.maxLatency, outcome(plan.launched[race.probe].n)).failure;
      LowLatency(s, services, outcome, race).next ==
        if plan.provisional.Some? then Picked(plan.provisional.value) else Failed(ProbeFailed(failure))
  {
  }

  /** A provisional pick stands when no node message arrives, even though a timeout or a
      probe's failure is recorded. */
  lemma ProvisionalStands(s: Selector, services: seq<Service>, outcome: RegistryNode -> ProbeInput, race: Race)
    requires RaceFits(race, |Plan(s, services).launched|)
    requires Plan(s, services).provisional.Some?
    requires !DeliversNode(s, services, outcome, race)
    ensures LowLatency(s, services, outcome, race).next == Picked(Plan(s, services).provisional.value)
  {
  }

  /** When every node was probed and the timer fires, the round fails with a timeout after
      the selector's limit. */
  lemma AllProbedTimeout(s: Selector, services: seq<Service>, outcome: RegistryNode -> ProbeInput)
    requires Candidates(s.cache, services) != []
    requires Plan(s, services).provisional.None?
    ensures LowLatency(s, services, outcome, TimedOut).next == Failed(Timeout(s.maxLatency))
  {
  }

  /** A round in which every candidate is cached with a non-zero latency probes nothing,
      keeps the selector as it was, and picks a candidate of least latency. */
  lemma CachedRoundPicksFastest(s: Selector, services: seq<Service>, outcome: RegistryNode -> ProbeInput, race: Race)
    requires RaceFits(race, |Plan(s, services).launched|)
    requires Candidates(s.cache, services) != []
    requires !HasUnseen(s.cache, Candidates(s.cache, services))
    requires forall i :: 0 <= i < |Candidates(s.cache, services)| ==>
      s.cache.nodes[Candidates(s.cache, services)[i].id].latency != 0
    ensures var r := LowLatency(s, services, outcome, race);
      var ns := Candidates(s.cache, services);
      && r.launched == []
      && r.selector == s
      && r.next.Picked?
      && exists i :: 0 <= i < |ns| && r.next.node == s.cache.nodes[ns[i].id].n
          && forall j :: 0 <= j < |ns| ==> !Less(s.cache.nodes[ns[j].id], s.cache.nodes[ns[i].id])
  {
    var c := s.cache;
    var ns := Candidates(c, services);
    var nodes := GetNodes(c, services).nodes;
    var es := Entries(c, ns);
    assert nodes[0] in multiset(nodes);
    CachedEntriesOf(c, ns, nodes[0]);
    var i :| 0 <= i < |ns| && ns[i].id in c.nodes && nodes[0] == c.nodes[ns[i].id];
    forall j | 0 <= j < |ns|
      ensures !Less(c.nodes[ns[j].id], c.nodes[ns[i].id])
    {
      assert es[j] in multiset(nodes);
      var k :| 0 <= k < |nodes| && nodes[k] == es[j];
      assert k == 0 || !Less(nodes[k], nodes[0]);
    }
  }

  /** A fully measured round changes nothing, so the next round, whatever its probes would
      report, picks the same node again. */
  lemma CachedRoundRepeats(s: Selector, services: seq<Service>, outcome: RegistryNode -> ProbeInput, race: Race,
                           outcome': RegistryNode -> ProbeInput, race': Race)
    requires RaceFits(race, |Plan(s, services).launched|)
    requires Candidates(s.cache, services) != []
    requires !HasUnseen(s.cache, Candidates(s.cache, services))
    requires forall i :: 0 <= i < |Candidates(s.cache, services)| ==>
      s.cache.nodes[Candidates(s.cache, services)[i].id].latency != 0
    ensures RaceFits(race', |Plan(LowLatency(s, services, outcome, race).selector, services).launched|)
    ensures var r := LowLatency(s, services, outcome, race);
      LowLatency(r.selector, services, outcome', race') == r
  {
    CachedRoundPicksFastest(s, services, outcome, race);
  }

  /** A round that meets an unseen candidate probes every candidate, unmeasured and in
      registry order, waits the full limit, and starts from emptied maps: afterwards only
      the probed ids are filed, each in one of the maps. */
  lemma ResetRoundProbesAll(s: Selector, services: seq<Service>, outcome: RegistryNode -> ProbeInput, race: Race)
    requires RaceFits(race, |Plan(s, services).launched|)
    requires HasUnseen(s.cache, Candidates(s.cache, services))
    ensures var r := LowLatency(s, services, outcome, race);
      var ns := Candidates(s.cache, services);
      && |r.launched| == |ns|
      && (forall i :: 0 <= i < |ns| ==> r.launched[i] == Node(Entry(s.cache, ns[i]).n, 0))
      && r.timeout == s.maxLatency
      && (forall id :: id in r.selector.cache.nodes || id in r.selector.cache.blacklist ==> id in Ids(r.launched))
      && (forall i :: 0 <= i < |ns| ==>
            r.launched[i].n.id in r.selector.cache.nodes || r.launched[i].n.id in r.selector.cache.blacklist)
  {
    var ns := Candidates(s.cache, services);
    var nodes := GetNodes(s.cache, services).nodes;
    var scan := ScanNodes(nodes, s.maxLatency);
    PingAllFiles(EmptyCache, s.maxLatency, scan.launched, outcome);
  }

  /** Rounds keep the cache keyed by node id. */
  lemma RoundKeepsValid(s: Selector, services: seq<Service>, outcome: RegistryNode -> ProbeInput, race: Race)
    requires RaceFits(race, |Plan(s, services).launched|)
    requires Valid(s.cache)
    ensures Valid(LowLatency(s, services, outcome, race).selector.cache)
  {
    var fetch := GetNodes(s.cache, services);
    PingAllFiles(fetch.cache, s.maxLatency, ScanNodes(fetch.nodes, s.maxLatency).launched, outcome);
  }

  /** The picked node is never blacklisted at the start of the round, and it carries the
      id of one of the round's candidates. */
  lemma PickedIsAdmitted(s: Selector, services: seq<Service>, outcome: RegistryNode -> ProbeInput, race: Race)
    requires RaceFits(race, |Plan(s, services).launched|)
    requires Valid(s.cache)
    requires LowLatency(s, services, outcome, race).next.Picked?
    ensures var n := LowLatency(s, services, outcome, race).next.node;
      var ns := Candidates(s.cache, services);
      && n.id !in s.cache.blacklist
      && exists i :: 0 <= i < |ns| && ns[i].id == n.id
  {
    var fetch := GetNodes(s.cache, services);
    var scan := ScanNodes(fetch.nodes, s.maxLatency);
    var probes := PingAll(fetch.cache, s.maxLatency, scan.launched, outcome);
    var settled := Settle(scan, probes.msgs, race);
    var n := LowLatency(s, services, outcome, race).next.node;
    var k: nat;
    if settled.result == scan.provisional {
      k := |scan.launched|;
    } else {
      k := race.probe;
      assert probes.msgs[k] == NodeMsg(n);
      assert fetch.nodes[k] == scan.launched[k];
    }
    assert fetch.nodes[k].n == n;
    GetNodesAdmitsOnly(s.cache, services, k);
  }
}
