/** Go's `time.Duration` as integer nanoseconds, and `time.ParseDuration`,
    the step that turns the average round-trip text of a ping into a latency. */
module Durations {
  import opened Wrappers
  import opened Strings

  const Nanosecond: int := 1
  const Microsecond: int := 1000 * Nanosecond
  const Millisecond: int := 1000 * Microsecond
  const Second: int := 1000 * Millisecond
  const Minute: int := 60 * Second
  const Hour: int := 60 * Minute

  /** The largest `time.Duration`, 1<<63 - 1 nanoseconds. */
  const MaxDuration: int := 0x7FFF_FFFF_FFFF_FFFF

  /** The selector's default latency ceiling. */
  const DefaultMaxLatency: int := Second

  datatype DurationError =
    | InvalidDuration        // bad syntax or overflow
    | MissingUnit            // a number not followed by a unit
    | UnknownUnit(unit: string)

  /** Nanoseconds per unit; both spellings of the micro sign are accepted. */
  function UnitNanos(u: string): (r: Option<nat>)
    ensures r.Some? ==> r.value >= Nanosecond
  {
    if u == "ns" then Some(Nanosecond)
    else if u == "us" || u == "\U{00B5}s" || u == "\U{03BC}s" then Some(Microsecond)
    else if u == "ms" then Some(Millisecond)
    else if u == "s" then Some(Second)
    else if u == "m" then Some(Minute)
    else if u == "h" then Some(Hour)
    else None
  }

  ghost predicate AllDigits(s: string) {
    forall i :: 0 <= i < |s| ==> IsDigit(s[i])
  }

  /** Characters a unit may contain: anything but a digit or a decimal point. */
  ghost predicate UnitChars(s: string) {
    forall i :: 0 <= i < |s| ==> s[i] != '.' && !IsDigit(s[i])
  }

  /** Length of the run of decimal digits that starts `s`. */
  function LeadingDigits(s: string): (k: nat)
    ensures k <= |s| && AllDigits(s[..k])
    ensures k < |s| ==> !IsDigit(s[k])
  {
    if |s| > 0 && IsDigit(s[0]) then
      var k := 1 + LeadingDigits(s[1..]);
      assert s[..k] == [s[0]] + s[1..][..k - 1];
      k
    else 0
  }

  /** Length of the unit that starts `s`: it runs up to the next digit or decimal point. */
  function LeadingUnit(s: string): (k: nat)
    ensures k <= |s| && UnitChars(s[..k])
    ensures k < |s| ==> s[k] == '.' || IsDigit(s[k])
  {
    if |s| > 0 && s[0] != '.' && !IsDigit(s[0]) then
      var k := 1 + LeadingUnit(s[1..]);
      assert s[..k] == [s[0]] + s[1..][..k - 1];
      k
    else 0
  }

  /** The value of a decimal numeral. */
  function DigitsValue(s: string): nat
    requires AllDigits(s)
  {
    if s == [] then 0 else 10 * DigitsValue(s[..|s| - 1]) + DigitValue(s[|s| - 1])
  }

  function DigitValue(c: char): int {
    c as int - '0' as int
  }

  lemma ThreeDigits(s: string)
    requires |s| == 3 && AllDigits(s)
    ensures DigitsValue(s) == 100 * DigitValue(s[0]) + 10 * DigitValue(s[1]) + DigitValue(s[2])
  {
    assert s[..2][..1] == s[..1];
    assert s[..1][..0] == [];
    assert DigitsValue(s[..1]) == DigitValue(s[0]);
    assert DigitsValue(s[..2]) == 10 * DigitsValue(s[..1]) + DigitValue(s[1]);
  }

  /** A numeral of n digits is below 10^n. */
  lemma {:induction false} DigitsBound(s: string)
    requires AllDigits(s)
    ensures DigitsValue(s) < Pow10(|s|)
  {
    if s != [] {
      DigitsBound(s[..|s| - 1]);
    }
  }

  function Pow10(n: nat): (p: nat)
    ensures p >= 1
  {
    if n == 0 then 1 else 10 * Pow10(n - 1)
  }

  /** The nanoseconds of one `<digits>[.<digits>]<unit>` component: the fractional part
      is scaled by the unit and truncated toward zero. */
  function ComponentValue(ip: string, fp: string, unit: nat): (v: nat)
    requires AllDigits(ip) && AllDigits(fp)
    ensures unit >= 1 ==> v >= DigitsValue(ip)
  {
    ScaledAtLeastWhenUnit(DigitsValue(ip), unit);
    var whole: nat := MulNat(DigitsValue(ip), unit);
    var fraction: nat := MulNat(DigitsValue(fp), unit) / Pow10(|fp|);
    whole + fraction
  }

  function MulNat(a: nat, b: nat): (p: nat)
    ensures p == a * b
  {
    a * b
  }

  /** The numeral `[0-9]*(\.[0-9]*)?` at the front of a text: its integral digits, its
      fractional digits and the text after it. */
  datatype Numeral = Numeral(integral: string, fraction: string, rest: string)

  function ReadNumeral(s: string): (n: Numeral)
    ensures AllDigits(n.integral) && AllDigits(n.fraction)
    ensures |n.integral| + |n.fraction| + |n.rest| <= |s|
  {
    var k := LeadingDigits(s);
    var rest := s[k..];
    if rest != [] && rest[0] == '.' then
      var m := LeadingDigits(rest[1..]);
      Numeral(s[..k], rest[1..][..m], rest[1 + m..])
    else Numeral(s[..k], [], rest)
  }

  /** One component `[0-9]*(\.[0-9]*)?<unit>` read off the front of the text: its value
      in nanoseconds and the text after it. */
  datatype Component = Component(value: nat, rest: string)

  /** Reads the component that starts `s`; an integral part beyond the largest duration,
      a component without digits, a missing unit and an unknown unit are errors. */
  function NextComponent(s: string): (r: Result<Component, DurationError>)
    requires s != []
    ensures r.Ok? ==> |r.value.rest| < |s|
  {
    if s[0] != '.' && !IsDigit(s[0]) then Err(InvalidDuration)
    else
      var num := ReadNumeral(s);
      if DigitsValue(num.integral) > MaxDuration then Err(InvalidDuration)
      else if |num.integral| == 0 && |num.fraction| == 0 then Err(InvalidDuration)
      else
        var n := LeadingUnit(num.rest);
        if n == 0 then Err(MissingUnit)
        else
          var u := num.rest[..n];
          match UnitNanos(u)
          case None => Err(UnknownUnit(u))
          case Some(unit) => Ok(Component(ComponentValue(num.integral, num.fraction, unit), num.rest[n..]))
  }

  /** Adds the components of `s` one after another to `acc`, which already holds the
      components to their left; a running total beyond the largest duration is an overflow. */
  function Components(s: string, acc: nat): (r: Result<nat, DurationError>)
    requires s != [] && acc <= MaxDuration
    ensures r.Ok? ==> acc <= r.value <= MaxDuration
    decreases |s|
  {
    match NextComponent(s)
    case Err(e) => Err(e)
    case Ok(c) =>
      var total := acc + c.value;
      if total > MaxDuration then Err(InvalidDuration)
      else if c.rest == [] then Ok(total)
      else Components(c.rest, total)
  }

  /** The unsigned part of a duration: the lone numeral "0", or one or more components. */
  function ParseUnsigned(body: string): (r: Result<nat, DurationError>)
    ensures r.Ok? ==> r.value <= MaxDuration
  {
    if body == "0" then Ok(0)
    else if body == [] then Err(InvalidDuration)
    else Components(body, 0)
  }

  /** Go's `time.ParseDuration`: an optional sign, then the lone numeral "0" or one or more
      components such as "1h30m" or "0.036ms". */
  function ParseDuration(s: string): (r: Result<int, DurationError>)
    ensures r.Ok? ==> -MaxDuration <= r.value <= MaxDuration
  {
    var signed := |s| > 0 && (s[0] == '-' || s[0] == '+');
    var negative := signed && s[0] == '-';
    var body := if signed then s[1..] else s;
    Signed(negative, ParseUnsigned(body))
  }

  /** An unsigned reading with its sign applied. */
  function Signed(negative: bool, u: Result<nat, DurationError>): Result<int, DurationError> {
    match u
    case Err(e) => Err(e)
    case Ok(d) => var v: int := d; Ok(if negative then -v else v)
  }

  /** Every known unit is a non-empty run of unit characters. */
  lemma UnitShape(u: string)
    requires UnitNanos(u).Some?
    ensures u != [] && UnitChars(u)
  {
  }

  lemma {:induction false} LeadingDigitsOfNumeral(ip: string, rest: string)
    requires AllDigits(ip)
    requires rest == [] || !IsDigit(rest[0])
    ensures LeadingDigits(ip + rest) == |ip|
    decreases |ip|
  {
    if ip != [] {
      assert (ip + rest)[1..] == ip[1..] + rest;
      LeadingDigitsOfNumeral(ip[1..], rest);
    } else {
      assert ip + rest == rest;
    }
  }

  lemma {:induction false} LeadingUnitOfUnit(u: string)
    requires UnitChars(u)
    ensures LeadingUnit(u) == |u|
    decreases |u|
  {
    if u != [] {
      LeadingUnitOfUnit(u[1..]);
    }
  }

  lemma DecimalNumeral(ip: string, fp: string, u: string)
    requires AllDigits(ip) && AllDigits(fp)
    requires u == [] || (u[0] != '.' && !IsDigit(u[0]))
    ensures ReadNumeral(ip + "." + fp + u) == Numeral(ip, fp, u)
  {
    var s := ip + "." + fp + u;
    LeadingDigitsOfNumeral(ip, "." + fp + u);
    assert s == ip + ("." + fp + u);
    assert s[..|ip|] == ip;
    var rest := s[|ip|..];
    assert rest == "." + fp + u;
    assert rest[1..] == fp + u;
    LeadingDigitsOfNumeral(fp, u);
    assert rest[1..][..|fp|] == fp;
    assert rest[1 + |fp|..] == u;
  }

  lemma IntegralNumeral(ip: string, u: string)
    requires AllDigits(ip)
    requires u == [] || (u[0] != '.' && !IsDigit(u[0]))
    ensures ReadNumeral(ip + u) == Numeral(ip, [], u)
  {
    var s := ip + u;
    LeadingDigitsOfNumeral(ip, u);
    assert s[..|ip|] == ip && s[|ip|..] == u;
  }

  /** A component is worth its integral part in units plus less than one more unit: the
      fraction is scaled to the unit and then truncated. */
  lemma ComponentBounds(ip: string, fp: string, unit: nat)
    requires AllDigits(ip) && AllDigits(fp) && unit >= 1
    ensures DigitsValue(ip) * unit <= ComponentValue(ip, fp, unit) < DigitsValue(ip) * unit + unit
  {
    DigitsBound(fp);
    FractionBelowUnit(DigitsValue(fp), Pow10(|fp|), unit);
  }

  lemma FractionBelowUnit(d: nat, p: nat, unit: nat)
    requires d < p && unit >= 1
    ensures d * unit / p < unit
  {
    var q := d * unit / p;
    assert q * p <= d * unit;
    assert unit * (p - d) >= 1;
  }

  lemma ScaledAtLeastWhenUnit(a: nat, unit: nat)
    ensures unit >= 1 ==> a * unit >= a
  {
  }

  /** A text that is one numeral followed by a known unit is read as one component worth
      its value in nanoseconds, or as an overflow when its integral part is too large. */
  lemma NumeralComponent(s: string, ip: string, fp: string, u: string, unit: nat)
    requires s != [] && (s[0] == '.' || IsDigit(s[0]))
    requires AllDigits(ip) && AllDigits(fp) && |ip| + |fp| > 0
    requires ReadNumeral(s) == Numeral(ip, fp, u)
    requires UnitNanos(u) == Some(unit)
    ensures NextComponent(s) ==
      if DigitsValue(ip) > MaxDuration then Err(InvalidDuration)
      else Ok(Component(ComponentValue(ip, fp, unit), []))
  {
    UnitShape(u);
    LeadingUnitOfUnit(u);
    assert u[..|u|] == u;
  }

  /** A decimal `<ip>.<fp><unit>` is read as one component worth its value in nanoseconds. */
  lemma DecimalComponent(ip: string, fp: string, u: string, unit: nat)
    requires AllDigits(ip) && AllDigits(fp) && |ip| + |fp| > 0
    requires UnitNanos(u) == Some(unit)
    ensures NextComponent(ip + "." + fp + u) ==
      if DigitsValue(ip) > MaxDuration then Err(InvalidDuration)
      else Ok(Component(ComponentValue(ip, fp, unit), []))
  {
    var s := ip + "." + fp + u;
    assert s[0] == '.' || IsDigit(s[0]);
    UnitShape(u);
    DecimalNumeral(ip, fp, u);
    NumeralComponent(s, ip, fp, u, unit);
  }

  /** Reading back a decimal `<ip>.<fp><unit>` yields its value in nanoseconds, or an
      overflow error when that value exceeds the largest duration. */
  lemma ParseDecimal(ip: string, fp: string, u: string, unit: nat)
    requires AllDigits(ip) && AllDigits(fp) && |ip| + |fp| > 0
    requires UnitNanos(u) == Some(unit)
    ensures var v := ComponentValue(ip, fp, unit);
      ParseDuration(ip + "." + fp + u) == if v <= MaxDuration then Ok(v) else Err(InvalidDuration)
  {
    var s := ip + "." + fp + u;
    assert s[|ip|] == '.';
    assert s[0] != '-' && s[0] != '+';
    assert s != "0";
    DecimalComponent(ip, fp, u, unit);
    var v := ComponentValue(ip, fp, unit);
    assert Components(s, 0) == if v <= MaxDuration then Ok(v) else Err(InvalidDuration);
  }

  /** An integral `<ip><unit>` is read as one component worth its value in nanoseconds. */
  lemma IntegralComponent(ip: string, u: string, unit: nat)
    requires AllDigits(ip) && |ip| > 0
    requires UnitNanos(u) == Some(unit)
    ensures NextComponent(ip + u) ==
      if DigitsValue(ip) > MaxDuration then Err(InvalidDuration)
      else Ok(Component(DigitsValue(ip) * unit, []))
  {
    var s := ip + u;
    UnitShape(u);
    assert IsDigit(s[0]);
    IntegralNumeral(ip, u);
    NumeralComponent(s, ip, [], u, unit);
    assert ComponentValue(ip, [], unit) == DigitsValue(ip) * unit;
  }

  /** Reading back an integral `<ip><unit>` yields its value in nanoseconds, or an
      overflow error when that value exceeds the largest duration. */
  lemma ParseIntegral(ip: string, u: string, unit: nat)
    requires AllDigits(ip) && |ip| > 0
    requires UnitNanos(u) == Some(unit)
    ensures var v := DigitsValue(ip) * unit;
      ParseDuration(ip + u) == if v <= MaxDuration then Ok(v) else Err(InvalidDuration)
  {
    var s := ip + u;
    UnitShape(u);
    assert s[0] == ip[0] && IsDigit(s[0]);
    assert |s| >= 2;
    UnsignedParse(s);
    IntegralComponent(ip, u, unit);
    var v := DigitsValue(ip) * unit;
    if DigitsValue(ip) > MaxDuration {
      ScaledAtLeastWhenUnit(DigitsValue(ip), unit);
      assert Components(s, 0) == Err(InvalidDuration);
    } else {
      SingleComponent(s, v);
    }
  }

  /** An unsigned body other than the lone "0" is read as a sequence of components. */
  lemma UnsignedParse(s: string)
    requires s != [] && s[0] != '-' && s[0] != '+' && s != "0"
    ensures ParseDuration(s) == Signed(false, Components(s, 0))
  {
  }

  /** A body of one component totals that component's value, unless it overflows. */
  lemma SingleComponent(s: string, v: nat)
    requires s != [] && NextComponent(s) == Ok(Component(v, []))
    ensures Components(s, 0) == if v <= MaxDuration then Ok(v) else Err(InvalidDuration)
  {
  }

  /** A reading with its value negated and its error kept. */
  function Negate(r: Result<int, DurationError>): Result<int, DurationError> {
    match r
    case Ok(d) => Ok(-d)
    case Err(e) => Err(e)
  }

  /** A leading minus sign negates the value and keeps every error. */
  lemma ParseNegated(s: string)
    requires s != [] && s[0] != '-' && s[0] != '+'
    ensures ParseDuration("-" + s) == Negate(ParseDuration(s))
  {
    NegativeParse(s);
    PlainParse(s);
    SignedNegates(ParseUnsigned(s));
  }

  lemma SignedNegates(u: Result<nat, DurationError>)
    ensures Signed(true, u) == Negate(Signed(false, u))
  {
  }

  lemma NegativeParse(s: string)
    ensures ParseDuration("-" + s) == Signed(true, ParseUnsigned(s))
  {
    var t := "-" + s;
    assert t[0] == '-' && t[1..] == s;
  }

  lemma PlainParse(s: string)
    requires s == [] || (s[0] != '-' && s[0] != '+')
    ensures ParseDuration(s) == Signed(false, ParseUnsigned(s))
  {
  }
}
