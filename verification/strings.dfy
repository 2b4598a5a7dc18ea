/** The parts of Go's `strings` package that the ping-output parser relies on,
    over `string` (a sequence of Unicode scalar values). */
module Strings {
  import opened Wrappers

  predicate IsDigit(c: char) {
    '0' <= c <= '9'
  }

  /** White space as Go's `unicode.IsSpace` defines it. */
  predicate IsSpace(c: char) {
    || c == '\t' || c == '\n' || c == '\U{000B}' || c == '\U{000C}' || c == '\r' || c == ' '
    || c == '\U{0085}' || c == '\U{00A0}' || c == '\U{1680}'
    || ('\U{2000}' <= c <= '\U{200A}')
    || c == '\U{2028}' || c == '\U{2029}' || c == '\U{202F}' || c == '\U{205F}' || c == '\U{3000}'
  }

  ghost predicate AllSpace(s: string) {
    forall i :: 0 <= i < |s| ==> IsSpace(s[i])
  }

  /** The end of the run of white space that starts at `i`. */
  function SpaceEnd(s: string, i: nat): (k: nat)
    requires i <= |s|
    ensures i <= k <= |s|
    ensures forall j :: i <= j < k ==> IsSpace(s[j])
    ensures k == |s| || !IsSpace(s[k])
    decreases |s| - i
  {
    if i < |s| && IsSpace(s[i]) then SpaceEnd(s, i + 1) else i
  }

  /** The start of the run of white space that ends at `j`. */
  function SpaceStart(s: string, j: nat): (k: nat)
    requires j <= |s|
    ensures k <= j
    ensures forall m :: k <= m < j ==> IsSpace(s[m])
    ensures k == 0 || !IsSpace(s[k - 1])
  {
    if j > 0 && IsSpace(s[j - 1]) then SpaceStart(s, j - 1) else j
  }

  /** A run of white space reaching back from `j` to a non-space character (or the start)
      begins where that character ends. */
  lemma {:induction false} SpaceStartAt(s: string, j: nat, k: nat)
    requires k <= j <= |s|
    requires forall m :: k <= m < j ==> IsSpace(s[m])
    requires k == 0 || !IsSpace(s[k - 1])
    ensures SpaceStart(s, j) == k
    decreases j - k
  {
    if j > k {
      SpaceStartAt(s, j - 1, k);
    }
  }

  /** Drops leading white space. */
  function TrimLeft(s: string): (r: string)
    ensures |r| <= |s| && r == s[|s| - |r|..]
    ensures AllSpace(s[..|s| - |r|])
    ensures r == [] || !IsSpace(r[0])
  {
    var k := SpaceEnd(s, 0);
    assert forall j :: 0 <= j < k ==> s[..k][j] == s[j];
    s[k..]
  }

  /** Drops trailing white space. */
  function TrimRight(s: string): (r: string)
    ensures |r| <= |s| && r == s[..|r|]
    ensures AllSpace(s[|r|..])
    ensures r == [] || !IsSpace(r[|r| - 1])
  {
    var k := SpaceStart(s, |s|);
    assert forall j :: 0 <= j < |s| - k ==> s[k..][j] == s[k + j];
    s[..k]
  }

  /** Go's `strings.TrimSpace`: keeps the longest infix that neither starts nor ends with
      white space, and removes nothing but white space. */
  function TrimSpace(s: string): (r: string)
    ensures exists i :: 0 <= i <= |s| - |r| && r == s[i..i + |r|] && AllSpace(s[..i]) && AllSpace(s[i + |r|..])
    ensures r == [] || (!IsSpace(r[0]) && !IsSpace(r[|r| - 1]))
  {
    var l := TrimLeft(s);
    var r := TrimRight(l);
    var i := |s| - |l|;
    assert r == s[i..i + |r|] && s[i + |r|..] == l[|r|..];
    r
  }

  /** Trimming text that already starts and ends with a non-space character only removes
      the white space appended to it. */
  lemma TrimSpacePadded(x: string, w: string)
    requires x != [] && !IsSpace(x[0]) && !IsSpace(x[|x| - 1])
    requires AllSpace(w)
    ensures TrimSpace(x + w) == x
  {
    var s := x + w;
    assert SpaceEnd(s, 0) == 0;
    assert s[0..] == s;
    assert forall m :: |x| <= m < |s| ==> s[m] == w[m - |x|];
    SpaceStartAt(s, |s|, |x|);
    assert s[..|x|] == x;
  }

  /** Position of the first `c` in `s`. */
  function IndexOf(s: string, c: char): (r: Option<nat>)
    ensures r.None? <==> c !in s
    ensures r.Some? ==> r.value < |s| && s[r.value] == c && c !in s[..r.value]
  {
    if |s| == 0 then None
    else if s[0] == c then Some(0)
    else match IndexOf(s[1..], c)
      case None => None
      case Some(i) => assert s[..i + 1] == [s[0]] + s[1..][..i]; Some(i + 1)
  }

  /** Go's `strings.Split(s, string(c))`: the pieces between the separators, never empty. */
  function Split(s: string, c: char): (parts: seq<string>)
    ensures |parts| >= 1
    ensures forall i :: 0 <= i < |parts| ==> c !in parts[i]
    decreases |s|
  {
    match IndexOf(s, c)
    case None => [s]
    case Some(i) => [s[..i]] + Split(s[i + 1..], c)
  }

  /** Go's `strings.Join(parts, string(c))`. */
  function Join(parts: seq<string>, c: char): string
    requires |parts| >= 1
  {
    if |parts| == 1 then parts[0] else parts[0] + [c] + Join(parts[1..], c)
  }

  /** Splitting undoes joining, as long as no piece holds the separator. */
  lemma {:induction false} SplitJoin(parts: seq<string>, c: char)
    requires |parts| >= 1
    requires forall i :: 0 <= i < |parts| ==> c !in parts[i]
    ensures Split(Join(parts, c), c) == parts
  {
    if |parts| > 1 {
      JoinHead(parts, c);
      SplitJoin(parts[1..], c);
    }
  }

  /** A join of several pieces splits first after its first piece. */
  lemma JoinHead(parts: seq<string>, c: char)
    requires |parts| > 1 && c !in parts[0]
    ensures var s := Join(parts, c);
      Split(s, c) == [parts[0]] + Split(Join(parts[1..], c), c)
  {
    var s := Join(parts, c);
    var k := |parts[0]|;
    assert s == parts[0] + [c] + Join(parts[1..], c);
    assert s[..k] == parts[0];
    assert s[k + 1..] == Join(parts[1..], c);
    IndexOfAt(s, c, k);
  }

  /** The first `c` is found where it is. */
  lemma IndexOfAt(s: string, c: char, k: nat)
    requires k < |s| && s[k] == c && c !in s[..k]
    ensures IndexOf(s, c) == Some(k)
  {
    assert c in s;
  }

  /** Joining undoes splitting. */
  lemma {:induction false} JoinSplit(s: string, c: char)
    ensures Join(Split(s, c), c) == s
    decreases |s|
  {
    match IndexOf(s, c)
    case None =>
    case Some(i) =>
      var rest := s[i + 1..];
      var tail := Split(rest, c);
      assert Split(s, c) == [s[..i]] + tail;
      JoinSplit(rest, c);
      assert Join([s[..i]] + tail, c) == s[..i] + [c] + Join(tail, c);
      assert s == s[..i] + [c] + rest;
  }

  lemma {:induction false} JoinAppend(a: seq<string>, b: seq<string>, c: char)
    requires |a| >= 1 && |b| >= 1
    ensures Join(a + b, c) == Join(a, c) + [c] + Join(b, c)
  {
    if |a| == 1 {
      assert (a + b)[1..] == b;
    } else {
      assert (a + b)[1..] == a[1..] + b;
      JoinAppend(a[1..], b, c);
    }
  }

  /** A separator splits the text into the pieces of its two sides. */
  lemma SplitAround(x: string, y: string, c: char)
    ensures Split(x + [c] + y, c) == Split(x, c) + Split(y, c)
  {
    var px, py := Split(x, c), Split(y, c);
    JoinSplit(x, c);
    JoinSplit(y, c);
    JoinAppend(px, py, c);
    PiecesLackAppend(px, py, c);
    SplitJoin(px + py, c);
  }

  lemma PiecesLackAppend(a: seq<string>, b: seq<string>, c: char)
    requires forall i :: 0 <= i < |a| ==> c !in a[i]
    requires forall i :: 0 <= i < |b| ==> c !in b[i]
    ensures forall i :: 0 <= i < |a + b| ==> c !in (a + b)[i]
  {
    forall i | 0 <= i < |a + b|
      ensures c !in (a + b)[i]
    {
      if i >= |a| {
        assert (a + b)[i] == b[i - |a|];
      }
    }
  }

  ghost predicate MatchesAt(s: string, pat: string, i: int) {
    0 <= i && i + |pat| <= |s| && s[i..i + |pat|] == pat
  }

  ghost predicate Contains(s: string, pat: string) {
    exists i :: MatchesAt(s, pat, i)
  }

  /** The leftmost occurrence of `pat` in `s` at or after position `from`. */
  function FindFrom(s: string, pat: string, from: nat): (r: Option<nat>)
    requires from <= |s|
    ensures r.Some? ==> from <= r.value && MatchesAt(s, pat, r.value)
    ensures forall i :: from <= i && (r.None? || i < r.value) ==> !MatchesAt(s, pat, i)
    decreases |s| - from
  {
    if from + |pat| > |s| then None
    else if s[from..from + |pat|] == pat then Some(from)
    else if from == |s| then None
    else FindFrom(s, pat, from + 1)
  }

  /** The leftmost occurrence of `pat` in `s`, as a leftmost regular-expression match finds it. */
  function Find(s: string, pat: string): (r: Option<nat>)
    ensures r.None? <==> !Contains(s, pat)
    ensures r.Some? ==> MatchesAt(s, pat, r.value) && forall i :: 0 <= i < r.value ==> !MatchesAt(s, pat, i)
  {
    FindFrom(s, pat, 0)
  }

  /** The pieces joined end to end. */
  function Concat(pieces: seq<string>): string {
    if pieces == [] then [] else pieces[0] + Concat(pieces[1..])
  }

  lemma {:induction false} ConcatLacks(pieces: seq<string>, c: char)
    requires forall i :: 0 <= i < |pieces| ==> c !in pieces[i]
    ensures c !in Concat(pieces)
  {
    if pieces != [] {
      ConcatLacks(pieces[1..], c);
    }
  }
}
