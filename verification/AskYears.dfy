/** Year lists in answers: consecutive years are printed as ranges, and years without data are named. */
module AskYears {
  import opened Options
  import FiniteSums

  datatype Range = Range(lo: nat, hi: nat)

  function Span(lo: nat, hi: nat): seq<nat>
    decreases hi - lo
  {
    if lo > hi then [] else [lo] + Span(lo + 1, hi)
  }

  /** The years a list of ranges stands for, in order. */
  function Expand(ranges: seq<Range>): seq<nat> {
    if ranges == [] then [] else Expand(ranges[..|ranges| - 1]) + Span(ranges[|ranges| - 1].lo, ranges[|ranges| - 1].hi)
  }

  ghost predicate Increasing(years: seq<nat>) {
    forall i, j | 0 <= i < j < |years| :: years[i] < years[j]
  }

  /** No range could have been joined with the next. */
  predicate Maximal(ranges: seq<Range>) {
    (forall k | 0 <= k < |ranges| :: ranges[k].lo <= ranges[k].hi) &&
    forall k | 0 <= k < |ranges| - 1 :: ranges[k + 1].lo != ranges[k].hi + 1
  }

  lemma {:induction false} SpanAt(lo: nat, hi: nat, i: nat)
    requires lo <= hi + 1 && i <= hi - lo
    ensures |Span(lo, hi)| == hi - lo + 1 && Span(lo, hi)[i] == lo + i
    decreases hi - lo
  {
    if lo < hi {
      SpanAt(lo + 1, hi, if i == 0 then 0 else i - 1);
    }
  }

  /** Consecutive years are a span. */
  lemma {:induction false} SpanIs(years: seq<nat>, i: nat, j: nat)
    requires i <= j < |years| && forall k | i <= k <= j :: years[k] == years[i] + (k - i)
    ensures years[i..j + 1] == Span(years[i], years[j])
  {
    forall k | 0 <= k <= j - i ensures |Span(years[i], years[j])| == j - i + 1 && years[i..j + 1][k] == Span(years[i], years[j])[k] {
      SpanAt(years[i], years[j], k);
    }
    SpanAt(years[i], years[j], 0);
  }

  lemma ExpandOneMore(out: seq<Range>, r: Range)
    ensures Expand(out + [r]) == Expand(out) + Span(r.lo, r.hi)
  {
    hide Span;
    assert (out + [r])[..|out|] == out;
  }

  lemma MaximalOneMore(out: seq<Range>, r: Range)
    requires Maximal(out) && r.lo <= r.hi && (out != [] ==> r.lo != out[|out| - 1].hi + 1)
    ensures Maximal(out + [r])
  {
  }

  /** One more range, for a run of consecutive years that cannot join the range before. */
  lemma {:induction false} AppendRange(out: seq<Range>, years: seq<nat>, i: nat, j: nat)
    requires i <= j < |years| && forall k | i <= k <= j :: years[k] == years[i] + (k - i)
    requires Expand(out) == years[..i] && Maximal(out)
    requires out != [] ==> years[i] != out[|out| - 1].hi + 1
    ensures var more := out + [Range(years[i], years[j])];
            Expand(more) == years[..j + 1] && Maximal(more)
  {
    SpanIs(years, i, j);
    hide *;
    MaximalOneMore(out, Range(years[i], years[j]));
    ExpandOneMore(out, Range(years[i], years[j]));
    assert years[..j + 1] == years[..i] + years[i..j + 1];
  }

  lemma NoYears(years: seq<nat>)
    ensures Expand([]) == years[..0] && Maximal([])
  {
  }

  method CompressYears(years: seq<nat>) returns (out: seq<Range>)
    ensures Expand(out) == years && Maximal(out)
  {
    hide *;
    out := [];
    var i := 0;
    NoYears(years);
    while i < |years|
      invariant 0 <= i <= |years|
      invariant Expand(out) == years[..i] && Maximal(out)
      invariant i == 0 <==> out == []
      invariant 0 < i < |years| ==> out[|out| - 1].hi == years[i - 1] && years[i] != years[i - 1] + 1
    {
      var j := i;
      while j + 1 < |years| && years[j + 1] == years[j] + 1
        invariant i <= j < |years|
        invariant forall k | i <= k <= j :: years[k] == years[i] + (k - i)
      {
        j := j + 1;
      }
      AppendRange(out, years, i, j);
      out := out + [Range(years[i], years[j])];
      i := j + 1;
    }
    assert years[..i] == years;
  }

  // ----- no shorter list

  ghost predicate Covers(ranges: seq<Range>, y: nat) {
    exists k :: 0 <= k < |ranges| && ranges[k].lo <= y <= ranges[k].hi
  }

  lemma {:induction false} ExpandMembers(ranges: seq<Range>, y: nat)
    ensures y in Expand(ranges) <==> Covers(ranges, y)
  {
    if ranges != [] {
      var n := |ranges| - 1;
      var r := ranges[n];
      ExpandMembers(ranges[..n], y);
      SpanMembers(r.lo, r.hi, y);
      if Covers(ranges[..n], y) {
        var k :| 0 <= k < n && ranges[..n][k].lo <= y <= ranges[..n][k].hi;
        assert ranges[k].lo <= y <= ranges[k].hi;
      }
      if Covers(ranges, y) && !(r.lo <= y <= r.hi) {
        var k :| 0 <= k < |ranges| && ranges[k].lo <= y <= ranges[k].hi;
        assert ranges[..n][k] == ranges[k];
      }
    }
  }

  lemma {:induction false} SpanMembers(lo: nat, hi: nat, y: nat)
    ensures y in Span(lo, hi) <==> lo <= y <= hi
    decreases hi - lo
  {
    if lo <= hi {
      SpanMembers(lo + 1, hi, y);
    }
  }

  ghost function Starts(ranges: seq<Range>): set<nat> {
    set k | 0 <= k < |ranges| :: ranges[k].lo
  }

  lemma {:induction false} StartsCount(ranges: seq<Range>)
    ensures |Starts(ranges)| <= |ranges|
    ensures (forall i, j | 0 <= i < j < |ranges| :: ranges[i].lo < ranges[j].lo) ==> |Starts(ranges)| == |ranges|
  {
    if ranges != [] {
      var n := |ranges| - 1;
      StartsCount(ranges[..n]);
      assert Starts(ranges) == Starts(ranges[..n]) + {ranges[n].lo};
    }
  }

  /** The ranges of an increasing list lie apart, in order. */
  lemma {:induction false} RangesApart(ranges: seq<Range>)
    requires Maximal(ranges) && Increasing(Expand(ranges))
    ensures forall i, j | 0 <= i < j < |ranges| :: ranges[i].hi + 1 < ranges[j].lo
  {
    if ranges != [] {
      var n := |ranges| - 1;
      var shorter := ranges[..n];
      assert Maximal(shorter);
      assert Expand(ranges)[..|Expand(shorter)|] == Expand(shorter);
      RangesApart(shorter);
      forall i | 0 <= i < n ensures ranges[i].hi + 1 < ranges[n].lo {
        assert shorter[i] == ranges[i];
        var last := shorter[n - 1];
        ExpandMembers(shorter, last.hi);
        assert Covers(shorter, last.hi);
        var at :| 0 <= at < |Expand(shorter)| && Expand(shorter)[at] == last.hi;
        SpanAt(ranges[n].lo, ranges[n].hi, 0);
        assert Expand(ranges)[at] == last.hi && Expand(ranges)[|Expand(shorter)|] == ranges[n].lo;
      }
    }
  }

  /** The year before a range is not covered. */
  lemma {:induction false} StartsAreEdges(out: seq<Range>, k: nat)
    requires forall i, j | 0 <= i < j < |out| :: out[i].hi + 1 < out[j].lo
    requires forall i | 0 <= i < |out| :: out[i].lo <= out[i].hi
    requires k < |out| && out[k].lo > 0
    ensures !Covers(out, out[k].lo - 1)
  {
    forall n | 0 <= n < |out| ensures !(out[n].lo <= out[k].lo - 1 <= out[n].hi) {
      if n < k {
        assert out[n].hi + 1 < out[k].lo;
      } else if k < n {
        assert out[k].hi + 1 < out[n].lo;
      }
    }
  }

  /** No list of ranges that stands for the same years, in any order or overlapping, is shorter. */
  lemma {:induction false} NoShorterList(out: seq<Range>, other: seq<Range>)
    requires Maximal(out) && Increasing(Expand(out))
    requires forall y :: Covers(other, y) <==> Covers(out, y)
    ensures |out| <= |other|
  {
    RangesApart(out);
    StartsCount(out);
    StartsCount(other);
    forall k | 0 <= k < |out| ensures out[k].lo in Starts(other) {
      StartIsShared(out, other, k);
    }
    FiniteSums.SubsetSize(Starts(out), Starts(other));
  }

  lemma {:induction false} StartIsShared(out: seq<Range>, other: seq<Range>, k: nat)
    requires forall i, j | 0 <= i < j < |out| :: out[i].hi + 1 < out[j].lo
    requires forall i | 0 <= i < |out| :: out[i].lo <= out[i].hi
    requires k < |out|
    requires forall y :: Covers(other, y) <==> Covers(out, y)
    ensures out[k].lo in Starts(other)
  {
    var s := out[k].lo;
    assert Covers(out, s);
    var m :| 0 <= m < |other| && other[m].lo <= s <= other[m].hi;
    if s > 0 {
      StartsAreEdges(out, k);
      assert !Covers(other, s - 1);
    }
    assert other[m].lo == s;
  }

  // ----- the printed text

  function Digit(d: nat): char
    requires d < 10
  {
    '0' + d as char
  }

  function Decimal(n: nat): string {
    if n < 10 then [Digit(n)] else Decimal(n / 10) + [Digit(n % 10)]
  }

  const DASH: char := '\U{2013}'

  function Print(r: Range): string {
    if r.lo == r.hi then Decimal(r.lo) else Decimal(r.lo) + [DASH] + Decimal(r.hi)
  }

  /** `", ".join(...)`. */
  function PrintAll(ranges: seq<Range>): string {
    if ranges == [] then ""
    else if |ranges| == 1 then Print(ranges[0])
    else Print(ranges[0]) + ", " + PrintAll(ranges[1..])
  }

  predicate IsDigit(c: char) {
    '0' <= c <= '9'
  }

  datatype Read<T> = Read(value: T, rest: string)

  function ReadNat(s: string, acc: nat): (r: Read<nat>)
    ensures |r.rest| <= |s|
  {
    if s == [] || !IsDigit(s[0]) then Read(acc, s)
    else ReadNat(s[1..], 10 * acc + (s[0] as int - '0' as int))
  }

  function ReadRange(s: string): (r: Read<Range>)
    ensures |r.rest| <= |s|
  {
    var lo := ReadNat(s, 0);
    if lo.rest != [] && lo.rest[0] == DASH then
      var hi := ReadNat(lo.rest[1..], 0);
      Read(Range(lo.value, hi.value), hi.rest)
    else Read(Range(lo.value, lo.value), lo.rest)
  }

  function ReadAll(s: string): seq<Range>
    decreases |s|
  {
    if s == "" then []
    else
      var r := ReadRange(s);
      if |r.rest| >= 2 && r.rest[..2] == ", " then [r.value] + ReadAll(r.rest[2..]) else [r.value]
  }

  lemma ReadDigit(d: nat, rest: string, acc: nat)
    requires d < 10
    ensures ReadNat([Digit(d)] + rest, acc) == ReadNat(rest, 10 * acc + d)
  {
    assert ([Digit(d)] + rest)[1..] == rest;
  }

  lemma ReadStop(rest: string, acc: nat)
    requires rest == [] || !IsDigit(rest[0])
    ensures ReadNat(rest, acc) == Read(acc, rest)
  {
  }

  lemma {:induction false} ReadDecimal(n: nat, rest: string)
    ensures ReadNat(Decimal(n) + rest, 0) == ReadNat(rest, n)
    ensures Decimal(n) != []
  {
    hide ReadNat, Digit;
    if n < 10 {
      ReadDigit(n, rest, 0);
    } else {
      var more := [Digit(n % 10)] + rest;
      ReadDecimal(n / 10, more);
      ReadDigit(n % 10, rest, n / 10);
      assert Decimal(n) + rest == Decimal(n / 10) + more;
    }
  }

  /** Reading back a number that something else follows. */
  lemma ReadNumber(n: nat, rest: string)
    requires rest == [] || !IsDigit(rest[0])
    ensures ReadNat(Decimal(n) + rest, 0) == Read(n, rest)
    ensures Decimal(n) != []
  {
    hide *;
    ReadDecimal(n, rest);
    ReadStop(rest, n);
  }

  lemma ReadPrinted(r: Range, rest: string)
    requires rest == [] || rest[0] == ','
    ensures ReadRange(Print(r) + rest) == Read(r, rest)
    ensures Print(r) != []
  {
    hide ReadNat, Decimal;
    ReadNumber(r.lo, rest);
    ReadNumber(r.hi, rest);
    if r.lo != r.hi {
      var tail := [DASH] + (Decimal(r.hi) + rest);
      ReadNumber(r.lo, tail);
      Regroup(Decimal(r.lo), Decimal(r.hi), rest);
      assert tail[1..] == Decimal(r.hi) + rest;
    }
  }

  lemma Regroup(a: string, b: string, rest: string)
    ensures a + [DASH] + b + rest == a + ([DASH] + (b + rest))
  {
  }

  lemma {:induction false} ReadAllPrinted(ranges: seq<Range>)
    ensures ReadAll(PrintAll(ranges)) == ranges
  {
    if |ranges| == 1 {
      ReadPrinted(ranges[0], "");
      assert Print(ranges[0]) + "" == Print(ranges[0]);
    } else if |ranges| > 1 {
      var rest := ", " + PrintAll(ranges[1..]);
      ReadPrinted(ranges[0], rest);
      assert PrintAll(ranges) == Print(ranges[0]) + rest;
      assert rest[..2] == ", " && rest[2..] == PrintAll(ranges[1..]);
      ReadAllPrinted(ranges[1..]);
    }
  }

  /** Reading the printed text back and expanding it gives the years that were printed. */
  lemma PrintedYearsComeBack(years: seq<nat>, ranges: seq<Range>)
    requires Expand(ranges) == years
    ensures Expand(ReadAll(PrintAll(ranges))) == years
  {
    ReadAllPrinted(ranges);
  }

  // ----- gaps

  /** The years of [lo, hi] that are not present, in order. */
  function Gaps(present: set<nat>, lo: nat, hi: nat): seq<nat>
    decreases hi + 1 - lo
  {
    if lo > hi then [] else (if lo in present then [] else [lo]) + Gaps(present, lo + 1, hi)
  }

  lemma {:induction false} GapsAre(present: set<nat>, lo: nat, hi: nat)
    ensures forall y :: y in Gaps(present, lo, hi) <==> lo <= y <= hi && y !in present
    ensures Increasing(Gaps(present, lo, hi))
    decreases hi + 1 - lo
  {
    hide Increasing;
    if lo <= hi {
      GapsAre(present, lo + 1, hi);
      var rest := Gaps(present, lo + 1, hi);
      forall i | 0 <= i < |rest| ensures rest[i] > lo {
        assert rest[i] in rest;
      }
      LowerFirst(lo, rest);
      assert [] + rest == rest;
    } else {
      NoneIncrease();
    }
  }

  lemma NoneIncrease()
    ensures Increasing([])
  {
  }

  lemma {:induction false} LowerFirst(y: nat, years: seq<nat>)
    requires Increasing(years) && forall i | 0 <= i < |years| :: years[i] > y
    ensures Increasing([y] + years)
  {
    var more := [y] + years;
    forall i, j | 0 <= i < j < |more|
      ensures more[i] < more[j]
    {
      assert more[j] == years[j - 1];
      assert i > 0 ==> more[i] == years[i - 1];
    }
  }

  /** What `_gap_note` says, if anything: the text between its fixed words. */
  method GapNote(present: set<nat>, firstYear: nat, yearFrom: Option<nat>, yearTo: nat) returns (note: Option<string>)
    ensures var lo := if yearFrom.Some? && yearFrom.value > firstYear then yearFrom.value else firstYear;
            && (note.None? <==> forall y | lo <= y <= yearTo :: y in present)
            && (note.Some? ==> forall y :: y in Expand(ReadAll(note.value)) <==> lo <= y <= yearTo && y !in present)
  {
    var lo := if yearFrom.Some? && yearFrom.value > firstYear then yearFrom.value else firstYear;
    var gaps := Gaps(present, lo, yearTo);
    GapsAre(present, lo, yearTo);
    if gaps == [] {
      forall y | lo <= y <= yearTo ensures y in present {
        assert y !in gaps;
      }
      return None;
    }
    assert gaps[0] in gaps;
    var ranges := CompressYears(gaps);
    PrintedYearsComeBack(gaps, ranges);
    return Some(PrintAll(ranges));
  }
}
