/** The selector's functional options: a record of settings and setters that each overwrite
    one field, applied left to right to the constructor's defaults. Each setter is a
    constructor of `SelectOption`; `Apply` is the closure it stands for. */
module SelectOpts {
  import opened Wrappers

  /** The settings: the latency above which a probed node is blacklisted (nanoseconds), and
      the ping mode. */
  datatype SelectOptions = SelectOptions(maxLatency: int, privileged: bool)

  datatype SelectOption = MaxLatency(latency: int) | Privileged(privileged: bool)

  function Apply(o: SelectOptions, opt: SelectOption): (r: SelectOptions)
    ensures opt.MaxLatency? ==> r.maxLatency == opt.latency && r.privileged == o.privileged
    ensures opt.Privileged? ==> r.privileged == opt.privileged && r.maxLatency == o.maxLatency
  {
    match opt
    case MaxLatency(d) => o.(maxLatency := d)
    case Privileged(b) => o.(privileged := b)
  }

  /** The latency set by the last `MaxLatency` option, if there is one. */
  function LastLatency(opts: seq<SelectOption>): Option<int> {
    if opts == [] then None
    else match opts[|opts| - 1]
      case MaxLatency(d) => Some(d)
      case Privileged(_) => LastLatency(opts[..|opts| - 1])
  }

  /** The mode set by the last `Privileged` option, if there is one. */
  function LastPrivileged(opts: seq<SelectOption>): Option<bool> {
    if opts == [] then None
    else match opts[|opts| - 1]
      case Privileged(b) => Some(b)
      case MaxLatency(_) => LastPrivileged(opts[..|opts| - 1])
  }

  /** Seen from the front: the last latency of `[x] + rest` is the last one in `rest`, or
      `x`'s own when `rest` sets none. */
  lemma {:induction false} LastLatencyCons(x: SelectOption, rest: seq<SelectOption>)
    ensures LastLatency([x] + rest) ==
      if LastLatency(rest).Some? then LastLatency(rest)
      else if x.MaxLatency? then Some(x.latency) else None
    decreases |rest|
  {
    var s := [x] + rest;
    if rest != [] {
      assert s[..|s| - 1] == [x] + rest[..|rest| - 1];
      assert s[|s| - 1] == rest[|rest| - 1];
      LastLatencyCons(x, rest[..|rest| - 1]);
    }
  }

  lemma {:induction false} LastPrivilegedCons(x: SelectOption, rest: seq<SelectOption>)
    ensures LastPrivileged([x] + rest) ==
      if LastPrivileged(rest).Some? then LastPrivileged(rest)
      else if x.Privileged? then Some(x.privileged) else None
    decreases |rest|
  {
    var s := [x] + rest;
    if rest != [] {
      assert s[..|s| - 1] == [x] + rest[..|rest| - 1];
      assert s[|s| - 1] == rest[|rest| - 1];
      LastPrivilegedCons(x, rest[..|rest| - 1]);
    }
  }

  /** Applies the options in order: each field ends up as the last option setting it
      chose, or as it was when no option sets it. */
  function ApplyAll(o: SelectOptions, opts: seq<SelectOption>): (r: SelectOptions)
    ensures r.maxLatency == if LastLatency(opts).Some? then LastLatency(opts).value else o.maxLatency
    ensures r.privileged == if LastPrivileged(opts).Some? then LastPrivileged(opts).value else o.privileged
    decreases |opts|
  {
    if opts == [] then o
    else
      assert opts == [opts[0]] + opts[1..];
      LastLatencyCons(opts[0], opts[1..]);
      LastPrivilegedCons(opts[0], opts[1..]);
      ApplyAll(Apply(o, opts[0]), opts[1..])
  }

  /** Applying `a` and then `b` is applying `a + b`. */
  lemma {:induction false} ApplyAllAppend(o: SelectOptions, a: seq<SelectOption>, b: seq<SelectOption>)
    ensures ApplyAll(o, a + b) == ApplyAll(ApplyAll(o, a), b)
    decreases |a|
  {
    if a == [] {
      assert a + b == b;
    } else {
      assert (a + b)[0] == a[0] && (a + b)[1..] == a[1..] + b;
      ApplyAllAppend(Apply(o, a[0]), a[1..], b);
    }
  }

  /** A `MaxLatency` option followed only by `Privileged` options decides the latency. */
  lemma LastMaxLatencyWins(o: SelectOptions, before: seq<SelectOption>, d: int, after: seq<SelectOption>)
    requires forall i :: 0 <= i < |after| ==> after[i].Privileged?
    ensures ApplyAll(o, before + [MaxLatency(d)] + after).maxLatency == d
  {
    ApplyAllAppend(o, before + [MaxLatency(d)], after);
    ApplyAllAppend(o, before, [MaxLatency(d)]);
    PrivilegedOnlyKeepsLatency(ApplyAll(o, before + [MaxLatency(d)]), after);
  }

  lemma {:induction false} PrivilegedOnlyKeepsLatency(o: SelectOptions, opts: seq<SelectOption>)
    requires forall i :: 0 <= i < |opts| ==> opts[i].Privileged?
    ensures ApplyAll(o, opts).maxLatency == o.maxLatency
    decreases |opts|
  {
    if opts != [] {
      PrivilegedOnlyKeepsLatency(Apply(o, opts[0]), opts[1..]);
    }
  }

  /** With no options the defaults stand. */
  lemma NoOptionsKeepDefaults(o: SelectOptions)
    ensures ApplyAll(o, []) == o
  {
  }

  /** A setter applied twice acts as once. */
  lemma ApplyIdempotent(o: SelectOptions, opt: SelectOption)
    ensures Apply(Apply(o, opt), opt) == Apply(o, opt)
  {
  }

  /** Setters of different fields commute. */
  lemma ApplyCommutes(o: SelectOptions, a: SelectOption, b: SelectOption)
    requires a.MaxLatency? != b.MaxLatency?
    ensures Apply(Apply(o, a), b) == Apply(Apply(o, b), a)
  {
  }
}
