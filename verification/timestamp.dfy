/**
 * The `Timestamp` slash-command argument: a bare count of seconds or a
 * Discord timestamp `<t:N:style>`, parsed by taking "anything between two
 * colons", and displayed back as `<t:N:f>`.
 */
module Timestamp {
  import opened Base
  import opened Decimal
  import opened Enums

  /** The seconds `chrono` can turn into a `DateTime<Utc>` (its `MIN_UTC` and `MAX_UTC`). */
  const MinSeconds: int := -8_334_632_851_200
  const MaxSeconds: int := 8_210_298_412_799

  /** A `DateTime<Utc>` with zero nanoseconds, by its seconds since the Unix epoch. */
  datatype Timestamp = Timestamp(seconds: int)

  /** How many times `c` occurs in `s`. */
  function Count(s: string, c: char): nat {
    if |s| == 0 then 0 else (if s[0] == c then 1 else 0) + Count(s[1..], c)
  }

  lemma {:induction false} CountConcat(a: string, b: string, c: char)
    ensures Count(a + b, c) == Count(a, c) + Count(b, c)
    decreases |a|
  {
    if |a| > 0 {
      assert (a + b)[1..] == a[1..] + b;
      CountConcat(a[1..], b, c);
    } else {
      assert a + b == b;
    }
  }

  lemma {:induction false} CountAbsent(s: string, c: char)
    requires c !in s
    ensures Count(s, c) == 0
    decreases |s|
  {
    if |s| > 0 {
      CountAbsent(s[1..], c);
    }
  }

  /** The pieces joined back with `sep` between them. */
  function Join(parts: seq<string>, sep: char): string
    requires |parts| > 0
  {
    if |parts| == 1 then parts[0] else parts[0] + [sep] + Join(parts[1..], sep)
  }

  /** `str::split(sep)`, collected: the pieces between the separators. */
  function Split(s: string, sep: char): (parts: seq<string>)
    ensures |parts| == Count(s, sep) + 1
    ensures forall i | 0 <= i < |parts| :: sep !in parts[i]
    ensures Join(parts, sep) == s
  {
    if |s| == 0 then [""]
    else if s[0] == sep then [""] + Split(s[1..], sep)
    else
      var rest := Split(s[1..], sep);
      assert s == [s[0]] + s[1..];
      [[s[0]] + rest[0]] + rest[1..]
  }

  /** The text of Rust's `ParseIntError`. */
  function IntErrorText(e: IntError): string {
    match e
    case Empty => "cannot parse integer from empty string"
    case InvalidDigit => "invalid digit found in string"
    case PosOverflow => "number too large to fit in target type"
    case NegOverflow => "number too small to fit in target type"
  }

  /** The selected segment as seconds: an `i64`, then `Utc.timestamp_opt(secs, 0)`. */
  function ParseSeconds(segment: string, input: string): (r: Result<Timestamp, SlashArgError>)
    ensures r.Ok? <==> ParseI64(segment).Ok? && MinSeconds <= ParseI64(segment).value <= MaxSeconds
    ensures r.Ok? ==> r.value.seconds == ParseI64(segment).value
    ensures ParseI64(segment).Ok? && !r.Ok? ==> r == Err(ParseError(input, "timestamp out of range"))
  {
    match ParseI64(segment)
    case Err(e) => Err(ParseError(input, IntErrorText(e)))
    case Ok(n) =>
      if MinSeconds <= n <= MaxSeconds then Ok(Timestamp(n))
      else Err(ParseError(input, "timestamp out of range"))
  }

  /** `Timestamp::extract`. */
  function Extract(j: Json): (r: Result<Timestamp, SlashArgError>)
    ensures !j.JString? ==> r == Err(CommandStructureMismatch("expected string"))
    ensures j.JString? && Count(j.s, ':') == 0 ==> r == ParseSeconds(j.s, j.s)
    ensures j.JString? && Count(j.s, ':') !in {0, 2} ==>
      r == Err(ParseError(j.s, "expected Discord timestamp"))
  {
    if !j.JString? then Err(CommandStructureMismatch("expected string"))
    else
      var parts := Split(j.s, ':');
      if |parts| == 1 then ParseSeconds(parts[0], j.s)
      else if |parts| == 3 then ParseSeconds(parts[1], j.s)
      else Err(ParseError(j.s, "expected Discord timestamp"))
  }

  /** With exactly two colons, the text strictly between them is what gets parsed. */
  lemma ExtractTwoColons(s: string, i: nat, k: nat)
    requires i < k < |s| && s[i] == ':' && s[k] == ':'
    requires Count(s, ':') == 2
    ensures Extract(JString(s)) == ParseSeconds(s[i + 1..k], s)
  {
    var parts := Split(s, ':');
    SplitIntoThree(s);
    var p0, p1, p2 := parts[0], parts[1], parts[2];
    ColonPositions(p0, p1, p2, i);
    ColonPositions(p0, p1, p2, k);
    assert s[i + 1..k] == p1;
  }

  /** A string with two colons is its three colon-free pieces joined by them. */
  lemma SplitIntoThree(s: string)
    requires Count(s, ':') == 2
    ensures var parts := Split(s, ':');
      && |parts| == 3 && ':' !in parts[0] && ':' !in parts[1] && ':' !in parts[2]
      && s == parts[0] + [':'] + parts[1] + [':'] + parts[2]
  {
    JoinThree(Split(s, ':'), ':');
  }

  /** Three pieces joined are the pieces with a separator between each pair. */
  lemma JoinThree(parts: seq<string>, sep: char)
    requires |parts| == 3
    ensures Join(parts, sep) == parts[0] + [sep] + parts[1] + [sep] + parts[2]
  {
    assert parts[1..][1..] == [parts[2]];
    assert Join(parts[1..], sep) == parts[1] + [sep] + parts[2];
  }

  /** In `p0:p1:p2` with colon-free pieces, the colons sit right after `p0` and after `p1`. */
  lemma ColonPositions(p0: string, p1: string, p2: string, x: nat)
    requires ':' !in p0 && ':' !in p1 && ':' !in p2
    requires x < |p0 + [':'] + p1 + [':'] + p2| && (p0 + [':'] + p1 + [':'] + p2)[x] == ':'
    ensures x == |p0| || x == |p0| + 1 + |p1|
  {
  }

  /** `impl Display for Timestamp`: `<t:N:f>`. */
  function Display(t: Timestamp): string {
    "<t:" + IntToString(t.seconds) + ":f>"
  }

  /** Extracting the displayed form of any representable instant gives it back. */
  lemma DisplayRoundTrip(t: Timestamp)
    requires MinSeconds <= t.seconds <= MaxSeconds
    ensures Extract(JString(Display(t))) == Ok(t)
  {
    var d := IntToString(t.seconds);
    var s := Display(t);
    assert ':' !in d by {
      if t.seconds < 0 {
        assert d == [d[0]] + d[1..];
      }
    }
    CountAbsent(d, ':');
    CountAbsent("<t", ':');
    CountAbsent("f>", ':');
    assert s == "<t" + [':'] + d + [':'] + "f>";
    CountConcat("<t" + [':'] + d + [':'], "f>", ':');
    CountConcat("<t" + [':'] + d, [':'], ':');
    CountConcat("<t" + [':'], d, ':');
    CountConcat("<t", [':'], ':');
    ExtractTwoColons(s, 2, 3 + |d|);
    assert s[3..3 + |d|] == d;
    ParseI64OfIntToString(t.seconds);
  }
}
