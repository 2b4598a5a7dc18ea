/** `parsePing`: extracts the average round-trip time from the text a one-shot `ping`
    command prints. The statistics line looks like
    `round-trip min/avg/max/stddev = 0.036/0.036/0.036/0.000 ms`. */
module PingParser {
  import opened Wrappers
  import opened Strings
  import opened Durations

  /** The label the statistics line starts with; the text from its first occurrence
      to the end of the output is what the parser reads. */
  const Statistics: string := "min/avg/max"

  datatype PingError =
    | NoStatistics               // no `min/avg/max` anywhere in the output
    | IndexPanic                 // the statistics text has no space: the source indexes out of range
    | NoUnit                     // the same input, reported as an error instead of a panic
    | TooFewFields(count: nat)   // the figures token has fewer than three `/`-separated fields
    | BadDuration(error: DurationError)

  /** Reads the average from the space-separated tokens of the statistics text: the last
      token is the unit and the one before it holds the `/`-separated figures, the second
      of which is the average. Like the source, it looks up the unit before checking that
      a second-to-last token exists. */
  function ReadAverage(tokens: seq<string>): (r: Result<int, PingError>)
    requires |tokens| >= 1
    ensures r != Err(NoStatistics)
    ensures r.Ok? ==> -MaxDuration <= r.value <= MaxDuration
  {
    var unit := tokens[|tokens| - 1];
    if |tokens| < 2 then Err(IndexPanic)
    else
      var fields := Split(tokens[|tokens| - 2], '/');
      if |fields| < 3 then Err(TooFewFields(|fields|))
      else AverageOf(fields[1], unit)
  }

  /** The average figure read as a duration in the given unit. */
  function AverageOf(figure: string, unit: string): (r: Result<int, PingError>)
    ensures r.Ok? ==> -MaxDuration <= r.value <= MaxDuration
    ensures r.Err? ==> r.error.BadDuration?
  {
    match ParseDuration(figure + unit)
    case Ok(d) => Ok(d)
    case Err(e) => Err(BadDuration(e))
  }

  /** `parsePing` exactly as the source writes it, with its out-of-range index
      surfaced as `IndexPanic`. */
  function ParsePingAsWritten(output: string): (r: Result<int, PingError>)
    ensures r == Err(NoStatistics) <==> !Contains(output, Statistics)
    ensures r.Ok? ==> -MaxDuration <= r.value <= MaxDuration
  {
    match Find(output, Statistics)
    case None => Err(NoStatistics)
    case Some(i) => ReadAverage(Split(TrimSpace(output[i..]), ' '))
  }

  /** `parsePing` with the missing bounds check added: a statistics text without a space
      is a parse error, and every other input is treated as the source treats it. */
  function ParsePing(output: string): (r: Result<int, PingError>)
    ensures r != Err(IndexPanic)
    ensures r == Err(NoStatistics) <==> !Contains(output, Statistics)
    ensures r.Ok? ==> -MaxDuration <= r.value <= MaxDuration
    ensures ParsePingAsWritten(output) != Err(IndexPanic) ==> r == ParsePingAsWritten(output)
  {
    match ParsePingAsWritten(output)
    case Err(IndexPanic) => Err(NoUnit)
    case other => other
  }

  /** A statistics line as ping prints it: the label, a platform-specific tail of the label
      (`/stddev =`, `/mdev =`, ` =`), the `/`-separated figures and the unit. */
  function StatsLine(labelTail: string, figures: seq<string>, unit: string): string
    requires |figures| >= 1
  {
    Statistics + labelTail + " " + Join(figures, '/') + " " + unit
  }

  /** The statistics line is the first place the label occurs. */
  ghost predicate LabelFirstAfter(prefix: string) {
    forall i :: 0 <= i < |prefix| ==> !MatchesAt(prefix + Statistics, Statistics, i)
  }

  /** Output preceding the statistics line that holds no `/` cannot hold the label,
      not even partly overlapping it. */
  lemma NoSlashPrefix(prefix: string)
    requires '/' !in prefix
    ensures LabelFirstAfter(prefix)
  {
    var s := prefix + Statistics;
    forall i | 0 <= i < |prefix|
      ensures !MatchesAt(s, Statistics, i)
    {
      if i + |Statistics| <= |s| {
        var window := s[i..i + |Statistics|];
        if i + 3 < |prefix| {
          assert window[3] == prefix[i + 3] != Statistics[3];
        } else {
          var j := |prefix| - i;
          assert window[j] == Statistics[0] != Statistics[j];
        }
      }
    }
  }

  /** The parser reads from the first label on. */
  lemma FirstLabel(prefix: string, text: string)
    requires LabelFirstAfter(prefix)
    requires Statistics <= text
    ensures Find(prefix + text, Statistics) == Some(|prefix|)
  {
    var output := prefix + text;
    var p := |prefix|;
    assert output[p..p + |Statistics|] == Statistics;
    assert MatchesAt(output, Statistics, p);
    assert output[..p + |Statistics|] == prefix + Statistics;
    forall i | 0 <= i < p
      ensures !MatchesAt(output, Statistics, i)
    {
      assert !MatchesAt(prefix + Statistics, Statistics, i);
      assert output[i..i + |Statistics|] == (prefix + Statistics)[i..i + |Statistics|];
    }
  }

  /** What the parser does once it has found the label: it reads the tokens of the
      trimmed statistics text. */
  lemma ParseFrom(prefix: string, text: string)
    requires LabelFirstAfter(prefix)
    requires Statistics <= text
    ensures ParsePingAsWritten(prefix + text) == ReadAverage(Split(TrimSpace(text), ' '))
  {
    FirstLabel(prefix, text);
    assert (prefix + text)[|prefix|..] == text;
  }

  lemma LabelEnds(tail: string)
    requires tail == [] || !IsSpace(tail[|tail| - 1])
    ensures Statistics <= Statistics + tail
    ensures !IsSpace((Statistics + tail)[0])
    ensures !IsSpace((Statistics + tail)[|Statistics + tail| - 1])
  {
  }

  lemma LabelLacksSpace(tail: string)
    requires ' ' !in tail
    ensures ' ' !in Statistics + tail
  {
    var text := Statistics + tail;
    forall i | 0 <= i < |text|
      ensures text[i] != ' '
    {
      if i >= |Statistics| {
        assert text[i] == tail[i - |Statistics|];
      }
    }
  }

  lemma TrimSpaceKeeps(text: string)
    requires text != [] && !IsSpace(text[0]) && !IsSpace(text[|text| - 1])
    ensures TrimSpace(text) == text
  {
    TrimSpacePadded(text, []);
    assert text + [] == text;
  }

  lemma SplitWhole(s: string, c: char)
    requires c !in s
    ensures Split(s, c) == [s]
  {
  }

  /** The source panics whenever the text from the label on holds no space before its
      trailing white space, for instance on the bare label `min/avg/max` or on that label
      followed by a newline: it indexes the token before the last, which is missing. */
  lemma PanicsWithoutSpace(prefix: string, tail: string, w: string)
    requires LabelFirstAfter(prefix)
    requires ' ' !in tail && (tail == [] || !IsSpace(tail[|tail| - 1]))
    requires AllSpace(w)
    ensures ParsePingAsWritten(prefix + Statistics + tail + w) == Err(IndexPanic)
    ensures ParsePing(prefix + Statistics + tail + w) == Err(NoUnit)
  {
    var line := Statistics + tail;
    assert prefix + line + w == prefix + Statistics + tail + w;
    LabelEnds(tail);
    LabelLacksSpace(tail);
    ReadStatsText(prefix, line, w);
    SplitWhole(line, ' ');
  }

  /** The label followed by nothing but white space, as in a report cut off after its
      last line's label and newline, panics too. */
  lemma LabelLinePanics(w: string)
    requires AllSpace(w)
    ensures ParsePingAsWritten(Statistics + w) == Err(IndexPanic)
  {
    var e: string := [];
    assert e + Statistics + e + w == Statistics + w;
    PanicsWithoutSpace(e, e, w);
  }

  lemma BareLabelPanics()
    ensures ParsePingAsWritten(Statistics) == Err(IndexPanic)
    ensures ParsePing(Statistics) == Err(NoUnit)
  {
    PanicsWithoutSpace([], [], []);
    assert [] + Statistics + [] + [] == Statistics;
  }

  lemma LacksAfterJoin(parts: seq<string>, c: char, d: char)
    requires |parts| >= 1 && c != d
    requires forall i :: 0 <= i < |parts| ==> d !in parts[i]
    ensures d !in Join(parts, c)
  {
    if |parts| > 1 {
      LacksAfterJoin(parts[1..], c, d);
    }
  }

  lemma StatsLineEnds(labelTail: string, figures: seq<string>, unit: string)
    requires |figures| >= 1
    requires unit != [] && !IsSpace(unit[|unit| - 1])
    ensures var line := StatsLine(labelTail, figures, unit);
      Statistics <= line && !IsSpace(line[0]) && !IsSpace(line[|line| - 1])
  {
    var line := StatsLine(labelTail, figures, unit);
    assert line == Statistics + (labelTail + " " + Join(figures, '/') + " " + unit);
    assert line[|line| - 1] == unit[|unit| - 1];
  }

  /** The last two space-separated tokens of a statistics line are its figures and its unit. */
  lemma StatsLineTokens(labelTail: string, figures: seq<string>, unit: string)
    requires |figures| >= 1
    requires forall i :: 0 <= i < |figures| ==> ' ' !in figures[i]
    requires ' ' !in unit
    ensures var tokens := Split(StatsLine(labelTail, figures, unit), ' ');
      |tokens| >= 2 && tokens[|tokens| - 1] == unit && tokens[|tokens| - 2] == Join(figures, '/')
  {
    var joined := Join(figures, '/');
    LacksAfterJoin(figures, '/', ' ');
    var head := Statistics + labelTail;
    assert StatsLine(labelTail, figures, unit) == head + [' '] + (joined + [' '] + unit);
    SplitAround(head, joined + [' '] + unit, ' ');
    SplitAround(joined, unit, ' ');
    SplitWhole(joined, ' ');
    SplitWhole(unit, ' ');
  }

  lemma ReadFigures(tokens: seq<string>, figures: seq<string>, unit: string)
    requires |figures| >= 1
    requires forall i :: 0 <= i < |figures| ==> '/' !in figures[i]
    requires |tokens| >= 2 && tokens[|tokens| - 1] == unit && tokens[|tokens| - 2] == Join(figures, '/')
    ensures ReadAverage(tokens) ==
      if |figures| >= 3 then AverageOf(figures[1], unit) else Err(TooFewFields(|figures|))
  {
    SplitJoin(figures, '/');
  }

  /** Once the label is found, an output ending in a statistics line and white space is
      read from the tokens of that line. */
  lemma ReadStatsText(prefix: string, line: string, trailing: string)
    requires LabelFirstAfter(prefix)
    requires Statistics <= line && !IsSpace(line[0]) && !IsSpace(line[|line| - 1])
    requires AllSpace(trailing)
    ensures ParsePingAsWritten(prefix + line + trailing) == ReadAverage(Split(line, ' '))
  {
    PaddedLine(line, trailing);
    TrimSpacePadded(line, trailing);
    ReadTrimmed(prefix, line + trailing, line);
    AppendAssoc(prefix, line, trailing);
  }

  lemma PaddedLine(line: string, trailing: string)
    requires Statistics <= line
    ensures Statistics <= line + trailing
  {
    assert (line + trailing)[..|Statistics|] == line[..|Statistics|];
  }

  /** Regrouping the three pieces, stated on its own so that the lemma using it does not
      have to search for it among the parser's definitions. */
  lemma AppendAssoc(a: string, b: string, c: string)
    ensures a + b + c == a + (b + c)
  {
  }

  lemma ReadTrimmed(prefix: string, text: string, line: string)
    requires LabelFirstAfter(prefix)
    requires Statistics <= text && TrimSpace(text) == line
    ensures ParsePingAsWritten(prefix + text) == ReadAverage(Split(line, ' '))
  {
    ParseFrom(prefix, text);
  }

  /** The tokens of a statistics line read back as its second figure in its unit, or as
      too few fields when it has fewer than three figures. */
  lemma ReadStatsLine(labelTail: string, figures: seq<string>, unit: string)
    requires |figures| >= 1
    requires forall i :: 0 <= i < |figures| ==> '/' !in figures[i] && ' ' !in figures[i]
    requires ' ' !in unit
    ensures ReadAverage(Split(StatsLine(labelTail, figures, unit), ' ')) ==
      if |figures| >= 3 then AverageOf(figures[1], unit) else Err(TooFewFields(|figures|))
  {
    StatsLineTokens(labelTail, figures, unit);
    ReadFigures(Split(StatsLine(labelTail, figures, unit), ' '), figures, unit);
  }

  /** Parsing an output whose first statistics line carries figures `f0/f1/f2[/...]` and
      a unit, followed only by white space, reads the average `f1` in that unit; with fewer
      than three figures it reports too few fields. */
  lemma ParseStatsLine(prefix: string, labelTail: string, figures: seq<string>, unit: string, trailing: string)
    requires LabelFirstAfter(prefix)
    requires |figures| >= 1
    requires forall i :: 0 <= i < |figures| ==> '/' !in figures[i] && ' ' !in figures[i]
    requires unit != [] && ' ' !in unit && !IsSpace(unit[|unit| - 1])
    requires AllSpace(trailing)
    ensures ParsePing(prefix + StatsLine(labelTail, figures, unit) + trailing) ==
      if |figures| >= 3 then AverageOf(figures[1], unit) else Err(TooFewFields(|figures|))
  {
    StatsLineEnds(labelTail, figures, unit);
    ReadStatsText(prefix, StatsLine(labelTail, figures, unit), trailing);
    ReadStatsLine(labelTail, figures, unit);
  }

  /** The milliseconds figure `0.<fp>` read back in nanoseconds. */
  lemma MillisecondFigure(fp: string, value: nat)
    requires |fp| == 3 && AllDigits(fp) && DigitsValue(fp) == value
    ensures ParseDuration("0." + fp + "ms") == Ok(value * Microsecond)
  {
    assert Pow10(3) == 1000;
    assert DigitsValue("0") == 0;
    assert ComponentValue("0", fp, Millisecond) == value * Microsecond;
    assert value * Microsecond <= MaxDuration by {
      assert value <= 999 by { DigitsBound(fp); }
    }
    assert "0." + fp + "ms" == "0" + "." + fp + "ms";
    assert UnitNanos("ms") == Some(Millisecond);
    assert AllDigits("0");
    ParseDecimal("0", fp, "ms", Millisecond);
  }

  /** An output of the shape the test uses, a slash-free preamble followed by a statistics
      line in milliseconds, reads back the average figure `0.<fp>` ms. */
  lemma MillisecondAverage(preamble: seq<string>, labelTail: string, figures: seq<string>, fp: string, value: nat)
    requires forall i :: 0 <= i < |preamble| ==> '/' !in preamble[i]
    requires |figures| >= 3
    requires forall i :: 0 <= i < |figures| ==> '/' !in figures[i] && ' ' !in figures[i]
    requires figures[1] == "0." + fp && |fp| == 3 && AllDigits(fp) && DigitsValue(fp) == value
    ensures ParsePing(Concat(preamble) + StatsLine(labelTail, figures, "ms")) == Ok(value * Microsecond)
  {
    var prefix := Concat(preamble);
    ConcatLacks(preamble, '/');
    NoSlashPrefix(prefix);
    assert AllSpace([]);
    ParseStatsLine(prefix, labelTail, figures, "ms", []);
    assert prefix + StatsLine(labelTail, figures, "ms") + [] == prefix + StatsLine(labelTail, figures, "ms");
    MillisecondFigure(fp, value);
  }
}
