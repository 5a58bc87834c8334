/**
 * A duration in seconds as readable text: greedy whole numbers of months
 * (2628000 s), days, hours, minutes and seconds, zero amounts left out, at
 * most `granularity` parts, joined by ", ".
 */
module Formatter {
  import opened Common

  datatype Interval = Interval(name: string, count: nat)

  const Intervals: seq<Interval> := [
    Interval("months", 2628000), Interval("days", 86400), Interval("hours", 3600),
    Interval("minutes", 60), Interval("seconds", 1)]

  const DefaultGranularity: int := 2

  predicate PositiveCounts(intervals: seq<Interval>) {
    forall i :: 0 <= i < |intervals| ==> intervals[i].count > 0
  }

  /** One part of the text: an amount of one interval. */
  datatype Part = Part(value: int, interval: Interval)

  /**
   * The greedy decomposition: for each interval in turn, the floor quotient
   * of what is left; a non-zero quotient becomes a part and is taken off.
   */
  function Parts(seconds: int, intervals: seq<Interval>): (r: seq<Part>)
    requires PositiveCounts(intervals)
    ensures forall i :: 0 <= i < |r| ==> r[i].value != 0
    ensures |r| <= |intervals|
    decreases |intervals|
  {
    if intervals == [] then []
    else
      var v := seconds / intervals[0].count;
      var rest := Parts(seconds - v * intervals[0].count, intervals[1..]);
      if v != 0 then [Part(v, intervals[0])] + rest else rest
  }

  /** `s.rstrip(c)`. */
  function RStrip(s: string, c: char): (r: string)
    ensures |r| <= |s| && r == s[..|r|]
    ensures r == [] || r[|r| - 1] != c
  {
    if s != [] && s[|s| - 1] == c then RStrip(s[..|s| - 1], c) else s
  }

  /** The final `s` of a plural name is stripped once when the singular does not end in `s`. */
  lemma RStripPlural(w: string)
    requires w != [] && w[|w| - 1] != 's'
    ensures RStrip(w + "s", 's') == w
  {
    assert (w + "s")[..|w|] == w;
  }

  /** `"<value> <name>"`, the name without its final `s` when the value is 1. */
  function PartText(p: Part): string {
    IntToString(p.value) + " " + (if p.value == 1 then RStrip(p.interval.name, 's') else p.interval.name)
  }

  function Texts(parts: seq<Part>): (r: seq<string>)
    ensures |r| == |parts|
    ensures forall i :: 0 <= i < |parts| ==> r[i] == PartText(parts[i])
  {
    if parts == [] then [] else [PartText(parts[0])] + Texts(parts[1..])
  }

  /** The readable text: the first `granularity` parts joined by ", ". */
  function ReadableTime(seconds: int, granularity: int): string {
    Join(PyPrefix(Texts(Parts(seconds, Intervals)), granularity), ", ")
  }

  /** `get_readable_time_from_seconds`: the loop over the intervals that takes each quotient off `seconds`. */
  method GetReadableTimeFromSeconds(seconds: int, granularity: int) returns (text: string)
    ensures text == ReadableTime(seconds, granularity)
  {
    var result := ReadableParts(seconds, Intervals);
    text := Join(PyPrefix(result, granularity), ", ");
  }

  /** The loop itself, over the interval table it is given. */
  method ReadableParts(seconds: int, intervals: seq<Interval>) returns (result: seq<string>)
    requires PositiveCounts(intervals)
    ensures result == Texts(Parts(seconds, intervals))
  {
    var left := seconds;
    result := [];
    assert intervals[0..] == intervals;
    for i := 0 to |intervals|
      invariant result + Texts(Parts(left, intervals[i..])) == Texts(Parts(seconds, intervals))
    {
      var name, count := intervals[i].name, intervals[i].count;
      var value := left / count;
      if value != 0 {
        var rest := left - value * count;
        if value == 1 {
          name := RStrip(name, 's');
        }
        var text := IntToString(value) + " " + name;
        assert result + [text] + Texts(Parts(rest, intervals[i + 1..])) == Texts(Parts(seconds, intervals)) by {
          assert text == PartText(Part(value, intervals[i]));
          TakenAt(left, intervals, i, value, rest);
          AppendAssociates(result, [text], Texts(Parts(rest, intervals[i + 1..])));
        }
        left := rest;
        result := result + [text];
      } else {
        assert Texts(Parts(left, intervals[i..])) == Texts(Parts(left, intervals[i + 1..])) by {
          SkippedAt(left, intervals, i);
        }
      }
    }
    assert Parts(left, intervals[|intervals|..]) == [];
  }

  /** The step of the loop at interval `i`, when its quotient is taken. */
  lemma TakenAt(left: int, intervals: seq<Interval>, i: nat, value: int, rest: int)
    requires i < |intervals| && PositiveCounts(intervals)
    requires value == left / intervals[i].count && value != 0
    requires rest == left - value * intervals[i].count
    ensures Texts(Parts(left, intervals[i..])) == [PartText(Part(value, intervals[i]))] + Texts(Parts(rest, intervals[i + 1..]))
  {
    assert intervals[i..][0] == intervals[i] && intervals[i..][1..] == intervals[i + 1..];
    TakenStep(left, intervals[i..], value, rest);
  }

  /** The step of the loop at interval `i`, when its quotient is zero. */
  lemma SkippedAt(left: int, intervals: seq<Interval>, i: nat)
    requires i < |intervals| && PositiveCounts(intervals)
    requires left / intervals[i].count == 0
    ensures Texts(Parts(left, intervals[i..])) == Texts(Parts(left, intervals[i + 1..]))
  {
    assert intervals[i..][0] == intervals[i] && intervals[i..][1..] == intervals[i + 1..];
    SkippedStep(left, intervals[i..]);
  }

  /** A non-zero quotient becomes the first part, and is taken off for the rest. */
  lemma TakenStep(left: int, intervals: seq<Interval>, value: int, rest: int)
    requires intervals != [] && PositiveCounts(intervals)
    requires value == left / intervals[0].count && value != 0
    requires rest == left - value * intervals[0].count
    ensures Texts(Parts(left, intervals)) == [PartText(Part(value, intervals[0]))] + Texts(Parts(rest, intervals[1..]))
  {
    var tail := Parts(rest, intervals[1..]);
    var p := Parts(left, intervals);
    assert p == [Part(value, intervals[0])] + tail;
    assert p[1..] == tail;
  }

  lemma AppendAssociates(a: seq<string>, b: seq<string>, c: seq<string>)
    ensures (a + b) + c == a + (b + c)
  {
  }

  /** A zero quotient contributes nothing. */
  lemma SkippedStep(left: int, intervals: seq<Interval>)
    requires intervals != [] && PositiveCounts(intervals)
    requires left / intervals[0].count == 0
    ensures Texts(Parts(left, intervals)) == Texts(Parts(left, intervals[1..]))
  {
    assert left - (left / intervals[0].count) * intervals[0].count == left;
  }

  function Total(parts: seq<Part>): int {
    if parts == [] then 0 else parts[0].value * parts[0].interval.count + Total(parts[1..])
  }

  /** The parts add back up to the duration, since the last interval is one second. */
  lemma {:induction false} PartsAddUp(seconds: int, intervals: seq<Interval>)
    requires PositiveCounts(intervals)
    requires intervals != [] && intervals[|intervals| - 1].count == 1
    ensures Total(Parts(seconds, intervals)) == seconds
    decreases |intervals|
  {
    var c := intervals[0].count;
    var v := seconds / c;
    var rest := intervals[1..];
    if rest == [] {
      assert Parts(seconds - v * c, rest) == [];
    } else {
      assert rest[|rest| - 1] == intervals[|intervals| - 1];
      PartsAddUp(seconds - v * c, rest);
    }
  }

  /** The readable text of any duration accounts for every second of it. */
  lemma ReadableTimeIsExact(seconds: int)
    ensures Total(Parts(seconds, Intervals)) == seconds
  {
    PartsAddUp(seconds, Intervals);
  }

  /** Zero seconds reads as the empty text. */
  lemma ZeroIsEmpty(granularity: int)
    ensures ReadableTime(0, granularity) == ""
  {
    assert Parts(0, Intervals) == [];
  }

  /** One day, one hour, one minute and one second read, by default, as the day and the hour. */
  lemma OneOfEachUnit()
    ensures ReadableTime(90061, DefaultGranularity) == "1 day, 1 hour"
  {
    DayAndHour(90061, DefaultGranularity);
  }

  lemma DayAndHour(seconds: int, granularity: int)
    requires seconds == 90061 && granularity == 2
    ensures ReadableTime(seconds, granularity) == "1 day, 1 hour"
  {
    var texts := Texts(Parts(seconds, Intervals));
    assert PyPrefix(texts, granularity) == ["1 day", "1 hour"] by {
      FirstTwoOfDayHourMinuteSecond(seconds, Intervals);
      SingularTexts();
      assert texts[..2] == [texts[0], texts[1]];
    }
    DayAndHourJoined();
  }

  lemma DayAndHourJoined()
    ensures Join(["1 day", "1 hour"], ", ") == "1 day, 1 hour"
  {
    assert ["1 day", "1 hour"][1..] == ["1 hour"];
  }

  /** The first two parts of 90061 seconds are one day and one hour (taken with the values named, to keep them symbolic). */
  lemma FirstTwoOfDayHourMinuteSecond(seconds: int, iv: seq<Interval>)
    requires seconds == 90061 && iv == Intervals
    ensures var texts := Texts(Parts(seconds, iv));
      |texts| >= 2 && texts[0] == PartText(Part(1, iv[1])) && texts[1] == PartText(Part(1, iv[2]))
  {
    NoMonthIn(seconds, iv);
    OneDayIn(seconds, iv);
    OneHourIn(iv);
  }

  lemma NoMonthIn(seconds: int, iv: seq<Interval>)
    requires seconds == 90061 && iv == Intervals
    ensures Texts(Parts(seconds, iv)) == Texts(Parts(seconds, iv[1..]))
  {
    SkippedAt(seconds, iv, 0);
    assert iv[0..] == iv;
  }

  lemma OneDayIn(seconds: int, iv: seq<Interval>)
    requires seconds == 90061 && iv == Intervals
    ensures Texts(Parts(seconds, iv[1..])) == [PartText(Part(1, iv[1]))] + Texts(Parts(3661, iv[2..]))
  {
    TakenAt(seconds, iv, 1, 1, 3661);
  }

  lemma OneHourIn(iv: seq<Interval>)
    requires iv == Intervals
    ensures Texts(Parts(3661, iv[2..])) == [PartText(Part(1, iv[2]))] + Texts(Parts(61, iv[3..]))
  {
    TakenAt(3661, iv, 2, 1, 61);
  }

  lemma SingularTexts()
    ensures PartText(Part(1, Interval("days", 86400))) == "1 day"
    ensures PartText(Part(1, Interval("hours", 3600))) == "1 hour"
  {
    RStripPlural("day");
    RStripPlural("hour");
    assert IntToString(1) == "1";
  }
}
