/** The alternate variant of the selector's options, which carries a callback on node
    addresses instead of a ping mode. The callback is never invoked by the selector, so it is
    kept abstract as a value of type `CB`; `None` stands for a nil callback. */
module SelectorOpts {
  import opened Wrappers

  datatype SelectorOptions<CB> = SelectorOptions(maxLatency: int, callBack: Option<CB>)

  datatype SelectorOption<CB> = MaxLatency(latency: int) | CallBack(callBack: Option<CB>)

  function Apply<CB>(o: SelectorOptions<CB>, opt: SelectorOption<CB>): (r: SelectorOptions<CB>)
    ensures opt.MaxLatency? ==> r.maxLatency == opt.latency && r.callBack == o.callBack
    ensures opt.CallBack? ==> r.callBack == opt.callBack && r.maxLatency == o.maxLatency
  {
    match opt
    case MaxLatency(d) => o.(maxLatency := d)
    case CallBack(f) => o.(callBack := f)
  }

  /** A setter applied twice acts as once: each overwrites a single field. */
  lemma ApplyIdempotent<CB>(o: SelectorOptions<CB>, opt: SelectorOption<CB>)
    ensures Apply(Apply(o, opt), opt) == Apply(o, opt)
  {
  }

  /** A second setter of the same field overrides the first. */
  lemma ApplyOverrides<CB>(o: SelectorOptions<CB>, a: SelectorOption<CB>, b: SelectorOption<CB>)
    requires a.MaxLatency? == b.MaxLatency?
    ensures Apply(Apply(o, a), b) == Apply(o, b)
  {
  }

  /** `MaxLatency` and `CallBack` options commute: they write disjoint fields. */
  lemma ApplyCommutes<CB>(o: SelectorOptions<CB>, a: SelectorOption<CB>, b: SelectorOption<CB>)
    requires a.MaxLatency? != b.MaxLatency?
    ensures Apply(Apply(o, a), b) == Apply(Apply(o, b), a)
  {
  }
}
