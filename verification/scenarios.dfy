/** A concrete run of the selector that shows how the two maps interact. */
module Scenarios {
  import opened Wrappers
  import opened PingParser
  import opened LatencyCache
  import opened Probe
  import opened Selection
  import PingVectors

  const A: RegistryNode := RegistryNode("a", "127.0.0.1:8080")
  const Services: seq<Service> := [Service("greeter", [A])]

  /** Every probe reports that the address splits and the command printed `output`. */
  function Reply(output: Option<string>): RegistryNode -> ProbeInput {
    n => ProbeInput(true, output)
  }

  /** `A` measured at zero latency. */
  const Measured: Cache := Cache(map["a" := Node(A, 0)], map[])
  /** `A` measured at zero latency and blacklisted. */
  const Both: Cache := Cache(map["a" := Node(A, 0)], map["a" := Node(A, 0)])

  lemma OnlyCandidate(c: Cache)
    requires "a" !in c.blacklist
    ensures Candidates(c, Services) == [A]
  {
    assert Flatten(Services) == [A];
  }

  /** First round: `A` is unseen, so it is probed, answers zero, and is picked. */
  lemma FirstRound(maxLatency: int, output: string)
    requires maxLatency >= 0 && ParsePing(output) == Ok(0)
    ensures LowLatency(Selector(maxLatency, EmptyCache), Services, Reply(Some(output)), Delivered(0))
      == Round(Picked(A), Selector(maxLatency, Measured), [Node(A, 0)], maxLatency)
  {
    FirstFetch();
    ScanUnmeasured(maxLatency);
    FirstProbe(maxLatency, output);
  }

  /** `A` unmeasured is probed, with nothing picked provisionally. */
  lemma ScanUnmeasured(maxLatency: int)
    ensures ScanNodes([Node(A, 0)], maxLatency) == Scan([Node(A, 0)], None, maxLatency)
  {
    assert [Node(A, 0)][1..] == [];
  }

  lemma FirstFetch()
    ensures GetNodes(EmptyCache, Services) == Fetch([Node(A, 0)], EmptyCache)
  {
    OnlyCandidate(EmptyCache);
    assert HasUnseen(EmptyCache, [A]);
  }

  lemma FirstProbe(maxLatency: int, output: string)
    requires maxLatency >= 0 && ParsePing(output) == Ok(0)
    ensures PingAll(EmptyCache, maxLatency, [Node(A, 0)], Reply(Some(output))) == Probes([NodeMsg(A)], Measured)
  {
    assert Classify(maxLatency, ProbeInput(true, Some(output))) == Reachable(0);
    assert Ping(EmptyCache, maxLatency, Node(A, 0), ProbeInput(true, Some(output))) == Probed(NodeMsg(A), Measured);
  }

  /** Second round: `A` is cached at zero, which reads as unmeasured, so it is probed again;
      the probe fails and `A` is blacklisted while its entry stays. */
  lemma SecondRound(maxLatency: int)
    ensures LowLatency(Selector(maxLatency, Measured), Services, Reply(None), TimedOut)
      == Round(Failed(Timeout(maxLatency)), Selector(maxLatency, Both), [Node(A, 0)], maxLatency)
  {
    SecondFetch();
    ScanUnmeasured(maxLatency);
    SecondProbe(maxLatency);
  }

  lemma SecondFetch()
    ensures GetNodes(Measured, Services) == Fetch([Node(A, 0)], Measured)
  {
    OnlyCandidate(Measured);
    assert !HasUnseen(Measured, [A]);
    assert Entries(Measured, [A]) == [Node(A, 0)];
  }

  lemma SecondProbe(maxLatency: int)
    ensures PingAll(Measured, maxLatency, [Node(A, 0)], Reply(None)) == Probes([ErrMsg(CommandFailed)], Both)
  {
    assert Ping(Measured, maxLatency, Node(A, 0), ProbeInput(true, None)) == Probed(ErrMsg(CommandFailed), Both);
  }

  /** Third round: the blacklist hides `A`, so no candidate is left. */
  lemma ThirdRound(maxLatency: int)
    ensures LowLatency(Selector(maxLatency, Both), Services, Reply(None), TimedOut)
      == Round(NoneAvailable, Selector(maxLatency, Both), [], maxLatency)
  {
    assert Flatten(Services) == [A];
    assert Candidates(Both, Services) == [];
  }

  /** A node measured at zero latency counts as unmeasured, so a later round probes it
      again; when that probe fails the node is blacklisted while its measured entry stays,
      so the same id is filed in both maps, and the round after that finds no candidate
      although the node map still holds one. */
  lemma FiledInBothMaps(maxLatency: int, output: string)
    requires maxLatency >= 0 && ParsePing(output) == Ok(0)
    ensures var r1 := LowLatency(Selector(maxLatency, EmptyCache), Services, Reply(Some(output)), Delivered(0));
      var r2 := LowLatency(r1.selector, Services, Reply(None), TimedOut);
      var r3 := LowLatency(r2.selector, Services, Reply(None), TimedOut);
      && r1.next == Picked(A)
      && "a" in r2.selector.cache.nodes && "a" in r2.selector.cache.blacklist
      && r3.next == NoneAvailable && r3.selector.cache.nodes != map[]
  {
    FirstRound(maxLatency, output);
    SecondRound(maxLatency);
    ThirdRound(maxLatency);
  }

  /** The same run with the zero reading of a loopback ping. */
  lemma FiledInBothMapsOnLoopback()
    ensures var r1 := LowLatency(Selector(0, EmptyCache), Services, Reply(Some(PingVectors.ZeroOutput)), Delivered(0));
      var r2 := LowLatency(r1.selector, Services, Reply(None), TimedOut);
      "a" in r2.selector.cache.nodes && "a" in r2.selector.cache.blacklist
  {
    PingVectors.ZeroAverage();
    FiledInBothMaps(0, PingVectors.ZeroOutput);
  }
}
