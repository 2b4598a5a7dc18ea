# Low-latency node selector, modelled in Dafny

This project models the selection logic of the `microtools` low-latency selector, a go-micro
client selector. It picks the registry node with the lowest measured ping round-trip time. The model covers:

- **Ping parsing** (`PingParser`, with `Strings` and `Durations`). `parsePing` finds the first
  `min/avg/max` label, trims the text from there to the end, and splits it on spaces. The last
  token is the unit and the token before it holds the `/`-separated figures. The second figure,
  followed by the unit, is read by Go's `time.ParseDuration`, modelled as integer nanoseconds.
- **The latency cache** (`LatencyCache`). It keeps two maps keyed by node id, `nodes` and
  `blacklist`, and offers:
  - `addNode`, which records a probe's outcome in exactly one of the two maps;
  - `getNodes`, which turns the registry's services into candidates. When every candidate is
    cached, it sorts their cached entries by latency. When one is unseen, it zeroes every latency
    and empties both maps.
- **Probes** (`Probe`). The outcome logic of `ping` judges one probe, given what the environment
  reported: the address split, the command's output and the parse result. A node is blacklisted
  on any failure or when its time is above the limit. Otherwise it is recorded with its new
  latency and announced.
- **One selection round** (`Selection`). The scan probes every unmeasured node up to the first
  measured one, which becomes the provisional pick; its latency is the wait. A race between the
  timer and the probes follows, modelled as an input. Then the resolver closure decides the
  round's answer. The selector constructor folds the options over the default limit.
- **The options** (`SelectOpts` for `select_options.go`, `SelectorOpts` for the alternate
  `selector_options.go`). Each option is a setter that overwrites one field.
- **Test outputs and a scenario**. `PingVectors` holds the three outputs of the parser test.
  `Scenarios` plays three rounds on one node, showing how the same id ends up in both maps.

Every operation is a pure function over immutable values. The shared `*node` pointers of the
source become values: a probe's update of `node.latency` is the latency of the entry it records.

## Model

| member | source | states |
|---|---|---|
| Strings.Find | microtools/selector_low_latency.go:250-255 | the leftmost match of the label: none exactly when the output does not contain it; otherwise the match is at the returned position and at no earlier one (the regex at line 23 is greedy and `[\s\S]*` reaches the end) |
| Strings.FindFrom | microtools/selector_low_latency.go:251-252 | the leftmost occurrence at or after a position, and no occurrence before it |
| Strings.TrimLeft | microtools/selector_low_latency.go:257 | the result is a suffix of the input, everything dropped is white space, and the result does not start with white space |
| Strings.TrimRight | microtools/selector_low_latency.go:257 | the result is a prefix of the input, everything dropped is white space, and the result does not end with white space |
| Strings.TrimSpace | microtools/selector_low_latency.go:257 | `strings.TrimSpace` keeps one infix with only white space around it, which neither starts nor ends with white space |
| Strings.TrimSpacePadded | microtools/selector_low_latency.go:257 | trimming a text that starts and ends with non-space characters, followed by white space, gives back that text |
| Strings.IndexOf | microtools/selector_low_latency.go:257-259 | none exactly when the character is absent; otherwise the position holds it and no earlier position does |
| Strings.IndexOfAt | microtools/selector_low_latency.go:257-259 | the first occurrence of a character is found where it is |
| Strings.Split | microtools/selector_low_latency.go:257-259 | `strings.Split` on one character returns at least one piece, and no piece holds the separator |
| Strings.SplitJoin | microtools/selector_low_latency.go:257-259 | splitting a join of separator-free pieces gives back the pieces |
| Strings.JoinHead | microtools/selector_low_latency.go:257-259 | a join of several pieces splits first after its first piece |
| Strings.JoinSplit | microtools/selector_low_latency.go:257-259 | joining the pieces of a split gives back the text |
| Strings.JoinAppend | microtools/selector_low_latency.go:257-259 | joining two lists of pieces is joining each and putting the separator between them |
| Strings.SplitAround | microtools/selector_low_latency.go:257-259 | a separator splits a text into the pieces of its two sides |
| Durations.UnitNanos | microtools/selector_low_latency.go:263 | the units `time.ParseDuration` accepts, each at least one nanosecond |
| Durations.NextComponent | microtools/selector_low_latency.go:263 | reading one `<digits>[.<digits>]<unit>` component consumes at least one character |
| Durations.Components | microtools/selector_low_latency.go:263 | the running total never decreases and never passes the largest duration |
| Durations.ParseDuration | microtools/selector_low_latency.go:263 | a parsed duration lies within plus or minus 2^63-1 nanoseconds |
| Durations.ComponentValue | microtools/selector_low_latency.go:263 | a component with a unit of at least one nanosecond is worth at least its integral part |
| Durations.ComponentBounds | microtools/selector_low_latency.go:263 | a component is worth its integral part in units plus less than one more unit: the scaled fraction is truncated |
| Durations.ParseDecimal | microtools/selector_low_latency.go:263 | `<ip>.<fp><unit>` reads back as `ip` units plus `fp` scaled to the unit and truncated, or as an overflow error above the largest duration |
| Durations.ParseIntegral | microtools/selector_low_latency.go:263 | `<ip><unit>` reads back as `ip` times the unit, or as an overflow error above the largest duration |
| Durations.DecimalComponent | microtools/selector_low_latency.go:263 | a decimal numeral with a known unit is one whole component, unless its integral part is too large |
| Durations.IntegralComponent | microtools/selector_low_latency.go:263 | an integral numeral with a known unit is one whole component, unless it is too large |
| Durations.ParseNegated | microtools/selector_low_latency.go:263 | a leading minus negates the value and keeps every error |
| PingParser.ParsePingAsWritten | microtools/selector_low_latency.go:250-263 | the no-statistics error is returned exactly when the output lacks `min/avg/max`; a parsed average lies within the duration range |
| PingParser.ParsePing | microtools/selector_low_latency.go:250-263 | agrees with the code as written on every input where that code does not panic, never panics itself, and reports no statistics exactly when the label is missing |
| PingParser.ReadAverage | microtools/selector_low_latency.go:257-263 | reading the tokens never reports a missing label, and an average lies within the duration range |
| PingParser.AverageOf | microtools/selector_low_latency.go:263 | the figure and unit parse as a duration within range; every failure is a duration error |
| PingParser.FirstLabel | microtools/selector_low_latency.go:251-252 | when the text before a statistics line cannot contain the label, the match starts at that line |
| PingParser.NoSlashPrefix | microtools/selector_low_latency.go:251-252 | text without `/` before the label cannot hold an earlier match, not even one that overlaps the label |
| PingParser.ParseFrom | microtools/selector_low_latency.go:250-259 | once the label is found, the parser reads the space-separated tokens of the trimmed text from the label on |
| PingParser.StatsLineTokens | microtools/selector_low_latency.go:257-259 | the last two tokens of a statistics line are its joined figures and its unit |
| PingParser.ReadFigures | microtools/selector_low_latency.go:259-263 | tokens ending in joined figures and a unit read as the second figure in that unit, or as too few fields with fewer than three figures |
| PingParser.ParseStatsLine | microtools/selector_low_latency.go:250-263 | formatting figures and a unit as a statistics line after label-free text and before white space, then parsing, gives back the second figure in that unit, or too few fields with fewer than three figures |
| PingParser.MillisecondAverage | microtools/selector_low_latency.go:250-263 | an output with a slash-free preamble and a millisecond statistics line whose average is `0.<3 digits>` reads back as that many microseconds |
| PingParser.PanicsWithoutSpace | microtools/selector_low_latency.go:257-259 | when the text from the label on holds no space before its trailing white space, the code as written indexes a missing token, and the corrected parser reports a missing unit |
| PingParser.LabelLinePanics | microtools/selector_low_latency.go:257-259 | the label followed only by white space, such as a newline, makes the code as written panic |
| PingParser.BareLabelPanics | microtools/selector_low_latency.go:257-259 | the output `min/avg/max` alone makes the code as written panic |
| PingVectors.MacAverage | microtools/selector_test.go:11-16 | the macOS output reads back as 36 microseconds, the `36µs` expected at line 38 |
| PingVectors.LinuxAverage | microtools/selector_test.go:18-23 | the Linux output reads back as 33 microseconds, the `33µs` expected at line 40 |
| PingVectors.DockerAverage | microtools/selector_test.go:25-30 | the BusyBox output reads back as 40 microseconds, the `40µs` expected at line 42 |
| PingVectors.ZeroAverage | microtools/selector_low_latency.go:250-263 | the statistics line `min/avg/max = 0.000/0.000/0.000 ms` reads back as zero nanoseconds |
| LatencyCache.AddNode | microtools/selector_low_latency.go:188-196 | a failure is filed under the node's id in the blacklist only, a measurement in the node map only; the other map and every other key are unchanged |
| LatencyCache.AddNodeKeepsValid | microtools/selector_low_latency.go:191-195 | recording an outcome keeps both maps keyed by node id |
| LatencyCache.AddNodeIdempotent | microtools/selector_low_latency.go:191-195 | recording the same outcome twice is recording it once |
| LatencyCache.AddNodeCommutes | microtools/selector_low_latency.go:191-195 | outcomes for different ids, or for different maps, may be recorded in either order |
| LatencyCache.Flatten | microtools/selector_low_latency.go:203-204 | a node is listed exactly when some service lists it |
| LatencyCache.FlattenAppend | microtools/selector_low_latency.go:203-204 | the walk goes service by service, in order |
| LatencyCache.Admitted | microtools/selector_low_latency.go:203-208 | a node is a candidate exactly when it is listed and its id is not blacklisted |
| LatencyCache.AdmittedAppend | microtools/selector_low_latency.go:203-208 | admission works node by node and keeps the registry order |
| LatencyCache.AdmittedOne | microtools/selector_low_latency.go:205-208 | one node is kept exactly when its id is not blacklisted |
| LatencyCache.Candidates | microtools/selector_low_latency.go:203-208 | a node is a candidate exactly when some service lists it and its id is not blacklisted |
| LatencyCache.EntryOf | microtools/selector_low_latency.go:210-215 | in a cache keyed by id, the entry for a node belongs to that node; an unseen node is offered unmeasured, a seen one with its cached latency |
| LatencyCache.HasUnseenIff | microtools/selector_low_latency.go:210-215 | the lookup resets exactly when some candidate's id has no cached entry; otherwise every entry is the cached one |
| LatencyCache.Entries | microtools/selector_low_latency.go:210-216 | one entry per candidate, position by position |
| LatencyCache.Insert | microtools/selector_low_latency.go:233 | inserting into a sorted list keeps it sorted and adds exactly that node |
| LatencyCache.LessIsStrictWeakOrder | microtools/selector_low_latency.go:246 | the latency ordering is irreflexive and transitive, and nodes of equal latency are interchangeable, as `sort.Sort` requires |
| LatencyCache.SortedCons | microtools/selector_low_latency.go:246 | a node no slower than every node of a sorted list may go in front of it |
| LatencyCache.SortByLatency | microtools/selector_low_latency.go:233 | the result is a permutation of the input in non-decreasing latency (`Less` at line 246) |
| LatencyCache.GetNodes | microtools/selector_low_latency.go:198-235 | one node per candidate. When one candidate is unseen, every latency is zeroed, registry order is kept and both maps are emptied. Otherwise the cached entries come back sorted by latency and the cache is kept |
| LatencyCache.CachedEntriesOf | microtools/selector_low_latency.go:210-216 | in a fully cached lookup, every entry is the cached entry of some candidate |
| LatencyCache.GetNodesAdmitsOnly | microtools/selector_low_latency.go:203-218 | no returned node has a blacklisted id, and each carries the id of a candidate |
| LatencyCache.GetNodesResetForgets | microtools/selector_low_latency.go:221-231 | after a lookup that reset the cache, a following lookup of the same services resets again |
| Probe.Classify | microtools/selector_low_latency.go:161-185 | a node is reachable exactly when the address splits, the command succeeds, the output parses and the time is at most the limit; each earlier failure has its own verdict, and a parsed time above the limit is too slow |
| Probe.LimitIsInclusive | microtools/selector_low_latency.go:180 | a time exactly at the limit is accepted |
| Probe.ClassifyMonotone | microtools/selector_low_latency.go:180-185 | raising the limit never turns a reachable node away |
| Probe.Ping | microtools/selector_low_latency.go:140-186 | a node message is sent exactly when the probe is reachable. A reachable node is filed in the node map with its measured latency, which is within the limit, and the blacklist is untouched. An unreachable one sends its failure and is filed as it was in the blacklist, and the node map is untouched. No other id changes |
| Probe.PingAll | microtools/selector_low_latency.go:97-109 | one message per launched probe, each the message of that node's own probe |
| Probe.PingAllFiles | microtools/selector_low_latency.go:158 | after all probes, every probed id is filed, every other id keeps its entries in both maps, and the maps stay keyed by id |
| Probe.PingAllKeepsOthers | microtools/selector_low_latency.go:188-196 | an id no probe touches keeps its entries |
| Probe.PingAllKeepsFiled | microtools/selector_low_latency.go:188-196 | a filed id stays filed through later probes |
| Selection.NewSelector | microtools/selector_low_latency.go:36-53 | the selector starts with both maps empty and the limit of the last `MaxLatency` option, or the default without one |
| Selection.ScanNodes | microtools/selector_low_latency.go:97-109 | the probed nodes are exactly the zero-latency prefix of the list. The first non-zero node, if any, is the provisional pick and its latency is the wait; without one the wait is the limit |
| Selection.Settle | microtools/selector_low_latency.go:110-122 | with nothing probed the provisional pick stands. Otherwise the timer keeps the pick and records a timeout after the wait; a delivered node message becomes the result with no error; a delivered error message keeps the pick and records the probe's failure |
| Selection.Resolve | microtools/selector_low_latency.go:124-137 | none available exactly when there are no candidates; a node exactly when there are candidates and a result, even if an error was recorded; otherwise the recorded error |
| Selection.LowLatency | microtools/selector_low_latency.go:88-137 | a round keeps the limit, answers none available exactly when there are no candidates, never answers "none result", and probes only zero-latency nodes |
| Selection.NoCandidates | microtools/selector_low_latency.go:124-127 | without candidates the round answers none available, probes nothing and leaves the selector as it was |
| Selection.DeliveredNodeWins | microtools/selector_low_latency.go:114-117 | a delivered node message decides the round |
| Selection.DeliveredErrorKeepsProvisional | microtools/selector_low_latency.go:114-135 | a delivered error message leaves the provisional pick as the answer, or fails the round with that probe's failure when there is no pick |
| Selection.ProvisionalStands | microtools/selector_low_latency.go:110-136 | a provisional pick stands when no node message arrives, even when a timeout or a failure is recorded |
| Selection.AllProbedTimeout | microtools/selector_low_latency.go:110-132 | when every candidate was probed and the timer fires, the round fails with a timeout after the limit |
| Selection.CachedRoundPicksFastest | microtools/selector_low_latency.go:97-101 | when every candidate is cached with a non-zero latency, nothing is probed, the selector is unchanged, and a candidate of least latency is picked |
| Selection.CachedRoundRepeats | microtools/selector_low_latency.go:97-101 | a fully measured round leaves the selector as it was, so the next round gives the same answer, whatever its probes would report |
| Selection.ResetRoundProbesAll | microtools/selector_low_latency.go:221-231 | a round that meets an unseen candidate probes every candidate, unmeasured and in registry order, and waits the full limit. Afterwards only probed ids are filed, each in one of the maps |
| Selection.RoundKeepsValid | microtools/selector_low_latency.go:188-196 | rounds keep both maps keyed by node id |
| Selection.PickedIsAdmitted | microtools/selector_low_latency.go:203-208 | the picked node was not blacklisted at the start of the round, and it carries a candidate's id |
| SelectOpts.Apply | microtools/select_options.go:16-27 | `MaxLatency(d)` sets the limit to exactly `d` and keeps the mode; `Privileged(b)` sets the mode to exactly `b` and keeps the limit |
| SelectOpts.ApplyAll | microtools/selector_low_latency.go:36-42 | applying the options left to right leaves each field as set by the last option that sets it, or as initialised |
| SelectOpts.ApplyAllAppend | microtools/selector_low_latency.go:40-42 | applying `a` and then `b` is applying `a + b` |
| SelectOpts.LastMaxLatencyWins | microtools/selector_low_latency.go:40-42 | a `MaxLatency` option followed only by `Privileged` options decides the limit |
| SelectOpts.PrivilegedOnlyKeepsLatency | microtools/select_options.go:23-27 | `Privileged` options never change the limit |
| SelectOpts.NoOptionsKeepDefaults | microtools/selector_low_latency.go:36-42 | with no options the initial record stands |
| SelectOpts.ApplyIdempotent | microtools/select_options.go:16-27 | a setter applied twice acts as once |
| SelectOpts.ApplyCommutes | microtools/select_options.go:16-27 | setters of different fields commute |
| SelectorOpts.Apply | microtools/selector_options.go:18-29 | `MaxLatency(d)` sets the limit to `d` and keeps the callback; `CallBack(f)` sets the callback to `f` and keeps the limit |
| SelectorOpts.ApplyIdempotent | microtools/selector_options.go:18-29 | a setter applied twice acts as once |
| SelectorOpts.ApplyOverrides | microtools/selector_options.go:18-29 | a second setter of the same field overrides the first |
| SelectorOpts.ApplyCommutes | microtools/selector_options.go:18-29 | `MaxLatency` and `CallBack` options commute |
| Scenarios.FirstRound | microtools/selector_low_latency.go:88-137 | an unseen node is probed, answers zero and is picked; it is cached at zero latency |
| Scenarios.SecondRound | microtools/selector_low_latency.go:88-137 | a node cached at zero still counts as unmeasured, so it is probed again; a failed probe blacklists it while its node entry stays |
| Scenarios.ThirdRound | microtools/selector_low_latency.go:203-208 | the blacklisted node leaves no candidate |
| Scenarios.FiledInBothMaps | microtools/selector_low_latency.go:191-195 | the same id can be filed in both maps, after which the node map still holds an entry but no candidate is left |
| Scenarios.FiledInBothMapsOnLoopback | microtools/selector_low_latency.go:191-195 | the same run, with the zero reading of a loopback ping |

## Left out

- Running `ping -c 1 <host>` and `net.SplitHostPort` are I/O and library calls. Their outcomes are
  inputs: `ProbeInput` says whether the address splits and gives the command's output, with none
  when the command failed.
- Concurrency is not modelled: the goroutines, the unbuffered channel with its non-blocking send,
  the `time.After` timer and the mutex. How the wait ends is an input (`Race`): the timer fires,
  or the message of one launched probe is taken.
- Selection.LowLatency: the cache afterwards is the one where every launched probe has recorded
  its outcome, in launch order. In the source, probes finish in any order and may still be
  running when the round returns, even into a later round. Because different probes write
  different ids, the order only matters when one id is listed twice.
- Pointer aliasing is replaced by values. In the source the returned nodes share pointers with
  the cache, so zeroing latencies also writes to the old entries. Those entries are dropped in
  the same step, so nothing observable is lost.
- The methods that forward to the wrapped go-micro selector (`Init`, `Options`, `Select`,
  `Mark`, `Reset`, `Close`, `String`) and the `client.Options` wiring are glue with no logic.
- `GetMaxLatency()` is not part of this model. The constructor takes the default limit as a
  parameter; `Durations.DefaultMaxLatency` is the visible one second.
- The text of the error messages is not modelled; errors are datatype values.
- `Duration.String` is not modelled. The test vectors are stated as nanosecond values (36 µs is
  36000 ns) instead of the printed `36µs`.
- Durations.ComponentValue: the fractional part is computed exactly and truncated toward zero.
  `time.ParseDuration` may stop reading fraction digits early, or round through floating point,
  depending on the Go version. The two agree on the short figures ping prints.
- Durations.ParseDuration: follows the `time.ParseDuration` of the Go releases that check every
  component against the largest positive duration before the sign is applied. So
  `-9223372036854775808ns`, the smallest duration, is rejected. Later releases accept it. Ping
  never prints a negative time, so the parser's results do not depend on this.
- Probe.Classify: judges the output with the corrected parser (`PingParser.ParsePing`, see
  Findings). On an output whose statistics text has no space, the source's probe goroutine
  panics at line 259. Its deferred closure still runs: the error is still nil, so it offers the
  node as reachable and files it in the node map unchanged. Then the panic ends the whole
  process, since nothing recovers it. No round result represents that, so the model gives the
  behaviour the code evidently intends: the output is unparsable and the node is blacklisted.
- Strings are sequences of Unicode characters, not bytes. `time.ParseDuration` works on bytes,
  which only matters for the two spellings of the micro sign, and both are accepted here.
- The `Privileged` and `CallBack` options are never read by the selector, so they are only
  record fields. The callback is an abstract value.
- The source builds its options record from `select_options.go`. `selector_options.go` declares
  the same names, so it is modelled as a separate variant that nothing else uses.
- `config_test.go` exercises a key-value store and an external ping library, which are network
  I/O.
- Behaviour of the code worth knowing:
  - a lookup that meets an unseen id empties both maps, not only the entries of absent ids;
  - a failed probe adds the id to the blacklist without removing it from the node map, so one
    id can be filed in both maps (`Scenarios.FiledInBothMaps`);
  - a provisional pick is returned even when the timer fires (`Selection.ProvisionalStands`);
  - a node cached at zero latency is probed again like an unseen one.

## Findings

| source | as written | input that shows it | evidently intended | confidence | as-written member | corrected member |
|---|---|---|---|---|---|---|
| microtools/selector_low_latency.go:257-259 | `parsePing` reads the token before the last without checking that the split produced two tokens | the output `min/avg/max`, the same followed by a newline, or any output whose text from the label on has no space before its trailing white space: `s[len(s)-2]` is `s[-1]` and the program panics | a parse error, like the other malformed inputs | high; not executed | PingParser.BareLabelPanics | PingParser.ParsePing |
