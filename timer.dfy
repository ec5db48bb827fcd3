/**
 * The tick/tock timer of the tight-binding utilities.
 *
 * `Tick` pushes a timestamp and a tag onto two parallel stacks; `Tock` pops
 * the most recent pair and prints the elapsed time broken into hours,
 * minutes, seconds, milli-, micro- and nanoseconds, or prints an error when
 * there is nothing to pop.  The clock is a nanosecond count passed in by the
 * caller and standard output is a sequence of printed lines.
 */
module Timer {

  // ---------------------------------------------------------------------
  // Integer arithmetic as C++ does it: division truncates toward zero and
  // the remainder takes the sign of the dividend.
  // ---------------------------------------------------------------------

  /** C++ integer division by a positive divisor (truncates toward zero). */
  function TDiv(a: int, b: int): (q: int)
    requires b > 0
    ensures a >= 0 ==> q >= 0
    ensures a <= 0 ==> q <= 0
  {
    if a >= 0 then a / b else -((-a) / b)
  }

  /** C++ remainder by a positive divisor: `a == TDiv(a, b) * b + TMod(a, b)`. */
  function TMod(a: int, b: int): (r: int)
    requires b > 0
    ensures TDiv(a, b) * b + r == a
    ensures -b < r < b
    ensures a >= 0 ==> r >= 0
    ensures a <= 0 ==> r <= 0
  {
    a - TDiv(a, b) * b
  }

  lemma MulMonotone(d: nat, x: nat, y: nat)
    requires x <= y
    ensures d * x <= d * y
  {
  }

  /** Regrouping `b * (c * q + r2) + r` around the product `b * c`. */
  lemma RegroupProduct(b: nat, c: nat, q: nat, r2: nat, r: nat)
    requires r < b && r2 < c
    ensures b * (c * q + r2) + r == (b * c) * q + (b * r2 + r)
    ensures b * r2 + r < b * c
  {
    MulMonotone(b, r2, c - 1);
  }

  /** The quotient is determined by any decomposition with an in-range remainder. */
  lemma DivUnique(a: nat, d: nat, q: nat, r: nat)
    requires d > 0 && r < d && a == d * q + r
    ensures a / d == q
  {
    var q' := a / d;
    if q' < q {
      MulMonotone(d, q' + 1, q);
    } else if q' > q {
      MulMonotone(d, q + 1, q');
    }
  }

  /** Dividing twice is dividing by the product (non-negative dividends). */
  lemma NatDivDiv(a: nat, b: nat, c: nat)
    requires b > 0 && c > 0
    ensures a / (b * c) == (a / b) / c
  {
    var q, r := a / b, a % b;
    var q2, r2 := q / c, q % c;
    assert a == b * q + r;
    assert q == c * q2 + r2;
    assert a == b * (c * q2 + r2) + r;
    RegroupProduct(b, c, q2, r2, r);
    DivUnique(a, b * c, q2, b * r2 + r);
  }

  /** Truncating divisions compose like exact ones: `TDiv(TDiv(a, b), c) == TDiv(a, b * c)`. */
  lemma TDivTDiv(a: int, b: int, c: int)
    requires b > 0 && c > 0
    ensures TDiv(TDiv(a, b), c) == TDiv(a, b * c)
  {
    if a >= 0 {
      NatDivDiv(a, b, c);
    } else {
      NatDivDiv(-a, b, c);
    }
  }

  // ---------------------------------------------------------------------
  // Decomposition of an elapsed duration.
  // ---------------------------------------------------------------------

  const NanosPerMicro: int := 1000
  const NanosPerMilli: int := 1000 * 1000
  const NanosPerSecond: int := 1000 * 1000 * 1000
  const NanosPerMinute: int := 60 * NanosPerSecond
  const NanosPerHour: int := 60 * NanosPerMinute

  /** The six numbers `tock` prints for one elapsed duration. */
  datatype Duration = Duration(hours: int, minutes: int, seconds: int,
                               milliseconds: int, microseconds: int, nanoseconds: int)
  {
    /** The parts from the largest unit to the smallest. */
    function Parts(): (p: seq<int>)
      ensures |p| == 6
    {
      [hours, minutes, seconds, milliseconds, microseconds, nanoseconds]
    }

    /** The nanosecond count the parts stand for. */
    function Total(): int {
      ((((hours * 60 + minutes) * 60 + seconds) * 1000 + milliseconds) * 1000
        + microseconds) * 1000 + nanoseconds
    }
  }

  /**
   * Each part is the elapsed time cast to its unit (truncating), reduced
   * modulo the size of the next larger unit; hours are not reduced.
   */
  function Decompose(elapsed: int): (d: Duration)
    ensures -60 < d.minutes < 60 && -60 < d.seconds < 60
    ensures -1000 < d.milliseconds < 1000 && -1000 < d.microseconds < 1000
    ensures -1000 < d.nanoseconds < 1000
    ensures elapsed >= 0 ==> forall i :: 0 <= i < 6 ==> d.Parts()[i] >= 0
    ensures elapsed <= 0 ==> forall i :: 0 <= i < 6 ==> d.Parts()[i] <= 0
  {
    Duration(
      TDiv(elapsed, NanosPerHour),
      TMod(TDiv(elapsed, NanosPerMinute), 60),
      TMod(TDiv(elapsed, NanosPerSecond), 60),
      TMod(TDiv(elapsed, NanosPerMilli), 1000),
      TMod(TDiv(elapsed, NanosPerMicro), 1000),
      TMod(elapsed, 1000))
  }

  /** The printed parts recombine to the elapsed nanosecond count, whatever its sign. */
  lemma DecomposeRecombines(elapsed: int)
    ensures Decompose(elapsed).Total() == elapsed
  {
    var d := Decompose(elapsed);
    var us := TDiv(elapsed, 1000);
    var ms := TDiv(us, 1000);
    var s := TDiv(ms, 1000);
    var m := TDiv(s, 60);
    TDivTDiv(elapsed, 1000, 1000);
    TDivTDiv(elapsed, 1000 * 1000, 1000);
    TDivTDiv(elapsed, NanosPerSecond, 60);
    TDivTDiv(elapsed, NanosPerMinute, 60);
    assert ms == TDiv(elapsed, NanosPerMilli);
    assert s == TDiv(elapsed, NanosPerSecond);
    assert m == TDiv(elapsed, NanosPerMinute);
    assert d.hours == TDiv(m, 60);
    assert m == d.hours * 60 + d.minutes;
    assert s == m * 60 + d.seconds;
    assert ms == s * 1000 + d.milliseconds;
    assert us == ms * 1000 + d.microseconds;
    assert elapsed == us * 1000 + d.nanoseconds;
  }

  // ---------------------------------------------------------------------
  // The display cascade.
  // ---------------------------------------------------------------------

  /** Unit suffixes in the order the parts are printed. */
  const UnitNames: seq<string> := ["h", "m", "s", "ms", "us", "ns"]

  /** One printed part: its value and its unit suffix. */
  datatype Shown = Shown(value: int, unit: string)

  /**
   * The parts `tock` prints: a unit appears when it or some larger unit is
   * positive, tested left to right exactly as the six output conditions do.
   */
  function ShownParts(d: Duration): seq<Shown> {
    var h := d.hours > 0;
    var m := h || d.minutes > 0;
    var s := m || d.seconds > 0;
    var ms := s || d.milliseconds > 0;
    var us := ms || d.microseconds > 0;
    var ns := us || d.nanoseconds > 0;
    (if h then [Shown(d.hours, "h")] else [])
    + (if m then [Shown(d.minutes, "m")] else [])
    + (if s then [Shown(d.seconds, "s")] else [])
    + (if ms then [Shown(d.milliseconds, "ms")] else [])
    + (if us then [Shown(d.microseconds, "us")] else [])
    + (if ns then [Shown(d.nanoseconds, "ns")] else [])
  }

  /** Whether part `i` (0 = hours … 5 = nanoseconds) or a larger one is positive. */
  ghost predicate SomeLargerPositive(d: Duration, i: nat)
    requires i < 6
  {
    exists j :: 0 <= j <= i && d.Parts()[j] > 0
  }

  /** The index of the largest positive part, or 6 when none is positive. */
  function FirstPositive(d: Duration): (k: nat)
    ensures k <= 6
    ensures forall j :: 0 <= j < k ==> d.Parts()[j] <= 0
    ensures k < 6 ==> d.Parts()[k] > 0
  {
    FirstPositiveFrom(d.Parts(), 0)
  }

  function FirstPositiveFrom(p: seq<int>, i: nat): (k: nat)
    requires i <= |p|
    ensures i <= k <= |p|
    ensures forall j :: i <= j < k ==> p[j] <= 0
    ensures k < |p| ==> p[k] > 0
    decreases |p| - i
  {
    if i == |p| then i else if p[i] > 0 then i else FirstPositiveFrom(p, i + 1)
  }

  /** Every part paired with its unit, largest first. */
  function AllShown(d: Duration): (r: seq<Shown>)
    ensures |r| == 6
    ensures forall i :: 0 <= i < 6 ==> r[i] == Shown(d.Parts()[i], UnitNames[i])
  {
    seq(6, i requires 0 <= i < 6 => Shown(d.Parts()[i], UnitNames[i]))
  }

  /**
   * The printed parts are exactly the units from the largest positive one
   * down to nanoseconds.
   */
  lemma ShownPartsSuffix(d: Duration)
    ensures ShownParts(d) == AllShown(d)[FirstPositive(d)..]
  {
    var k := FirstPositive(d);
    var all := AllShown(d);
    var p := d.Parts();
    assert k > 0 ==> p[0] <= 0;
    assert k > 1 ==> p[1] <= 0;
    assert k > 2 ==> p[2] <= 0;
    assert k > 3 ==> p[3] <= 0;
    assert k > 4 ==> p[4] <= 0;
    assert k > 5 ==> p[5] <= 0;
    if k == 0 {
      assert ShownParts(d) == all;
    } else if k == 1 {
      assert ShownParts(d) == [all[1], all[2], all[3], all[4], all[5]];
    } else if k == 2 {
      assert ShownParts(d) == [all[2], all[3], all[4], all[5]];
    } else if k == 3 {
      assert ShownParts(d) == [all[3], all[4], all[5]];
    } else if k == 4 {
      assert ShownParts(d) == [all[4], all[5]];
    } else if k == 5 {
      assert ShownParts(d) == [all[5]];
    } else {
      assert ShownParts(d) == [];
    }
  }

  /** No two units share a suffix. */
  lemma UnitNamesDistinct(a: nat, b: nat)
    requires a < b < 6
    ensures UnitNames[a] != UnitNames[b]
  {
    assert UnitNames[a][|UnitNames[a]| - 1] != UnitNames[b][|UnitNames[b]| - 1] || |UnitNames[a]| != |UnitNames[b]|
      || UnitNames[a][0] != UnitNames[b][0];
  }

  /** Among parts with distinct units, part `i` is in the suffix from `k` iff `k <= i`. */
  lemma InSuffix(all: seq<Shown>, k: nat, i: nat)
    requires |all| == 6 && k <= 6 && i < 6
    requires forall t :: 0 <= t < 6 ==> all[t].unit == UnitNames[t]
    ensures all[i] in all[k..] <==> k <= i
  {
    if k <= i {
      assert all[k..][i - k] == all[i];
    } else {
      forall t | 0 <= t < |all[k..]| ensures all[k..][t].unit != UnitNames[i] {
        assert all[k..][t] == all[k + t];
        UnitNamesDistinct(i, k + t);
      }
    }
  }

  /** Unit `i` is printed iff it or some larger unit is positive. */
  lemma ShownPartAt(d: Duration, i: nat)
    requires i < 6
    ensures Shown(d.Parts()[i], UnitNames[i]) in ShownParts(d) <==> SomeLargerPositive(d, i)
  {
    var k := FirstPositive(d);
    var all := AllShown(d);
    ShownPartsSuffix(d);
    InSuffix(all, k, i);
    assert SomeLargerPositive(d, i) <==> k <= i by {
      if SomeLargerPositive(d, i) {
        var j :| 0 <= j <= i && d.Parts()[j] > 0;
        assert k <= j;
      }
    }
  }

  /** A unit is printed iff it or some larger unit is positive. */
  lemma ShownPartsCascade(d: Duration)
    ensures forall i :: 0 <= i < 6 ==>
      (Shown(d.Parts()[i], UnitNames[i]) in ShownParts(d) <==> SomeLargerPositive(d, i))
  {
    forall i | 0 <= i < 6 {
      ShownPartAt(d, i);
    }
  }

  /** Nothing is printed for a duration that is zero or negative. */
  lemma NothingShownWhenNotPositive(elapsed: int)
    requires elapsed <= 0
    ensures ShownParts(Decompose(elapsed)) == []
  {
  }

  // ---------------------------------------------------------------------
  // Decimal rendering, as the output stream prints an int.
  // ---------------------------------------------------------------------

  /** The decimal digits of a natural number, most significant first. */
  function NatToString(n: nat): (s: string)
    ensures |s| >= 1
    ensures forall i :: 0 <= i < |s| ==> '0' <= s[i] <= '9'
    ensures s[0] == '0' ==> n == 0
    decreases n
  {
    if n < 10 then [DigitChar(n)] else NatToString(n / 10) + [DigitChar(n % 10)]
  }

  function DigitChar(d: nat): (c: char)
    requires d < 10
    ensures '0' <= c <= '9'
  {
    (('0' as int) + d) as char
  }

  /** The number a string of decimal digits denotes. */
  function DecimalValue(s: string): nat
    requires forall i :: 0 <= i < |s| ==> '0' <= s[i] <= '9'
  {
    if s == [] then 0
    else DecimalValue(s[..|s| - 1]) * 10 + ((s[|s| - 1] as int) - ('0' as int))
  }

  /** Reading the printed digits back gives the number printed. */
  lemma {:induction false} NatToStringRoundTrip(n: nat)
    ensures DecimalValue(NatToString(n)) == n
    decreases n
  {
    var s := NatToString(n);
    if n >= 10 {
      var prefix := NatToString(n / 10);
      NatToStringRoundTrip(n / 10);
      assert s == prefix + [DigitChar(n % 10)];
      assert s[..|s| - 1] == prefix;
    }
  }

  /** An int as the output stream prints it: a minus sign, then the digits. */
  function IntToString(n: int): string {
    if n < 0 then "-" + NatToString(-n) else NatToString(n)
  }

  /** The text of one printed part: the value, its unit, then a space. */
  function RenderShown(p: Shown): string {
    IntToString(p.value) + p.unit + " "
  }

  /** A negative int prints as a minus sign followed by the digits of its magnitude, which read back. */
  lemma NegativeIntReadsBack(n: int)
    requires n < 0
    ensures |IntToString(n)| >= 2 && IntToString(n)[0] == '-'
    ensures IntToString(n)[1..] == NatToString(-n) && DecimalValue(NatToString(-n)) == -n
  {
    var magnitude: nat := -n;
    var digits := NatToString(magnitude);
    NatToStringRoundTrip(magnitude);
    Prefixed('-', digits);
    assert IntToString(n) == ['-'] + digits;
  }

  /** A sequence with one element put in front starts with it and continues with the rest. */
  lemma Prefixed<T>(x: T, rest: seq<T>)
    ensures ([x] + rest)[0] == x && ([x] + rest)[1..] == rest
  {
    assert ([x] + rest)[1..] == rest;
  }

  /** Any other int prints as its digits alone, which read back. */
  lemma NonNegativeIntReadsBack(n: int)
    requires n >= 0
    ensures IntToString(n) == NatToString(n) && DecimalValue(IntToString(n)) == n
  {
    NatToStringRoundTrip(n);
  }

  /** A printed part starts with its value and ends with its unit and a space. */
  lemma RenderShownFrame(p: Shown)
    ensures var s, v := RenderShown(p), IntToString(p.value);
      |s| == |v| + |p.unit| + 1 &&
      s[..|v|] == v && s[|s| - |p.unit| - 1..] == p.unit + " "
  {
    Framed(IntToString(p.value), p.unit, " ");
  }

  /** The printed parts, one after another. */
  function RenderAll(parts: seq<Shown>): string {
    if parts == [] then "" else RenderShown(parts[0]) + RenderAll(parts[1..])
  }

  /** The line `tock` prints after popping: depth, parts, a tab, the tag. */
  function TockLine(depth: nat, d: Duration, tag: string): string {
    TockHead(depth) + RenderAll(ShownParts(d)) + TockTail(tag)
  }

  /** The stack depth in parentheses, then a space. */
  function TockHead(depth: nat): string {
    "(" + NatToString(depth) + ") "
  }

  /** A tab, the tag and a newline. */
  function TockTail(tag: string): string {
    "\t" + tag + "\n"
  }

  /**
   * A `tock` line starts with the stack depth in parentheses and a space,
   * and ends with a tab, the tag and a newline.
   */
  lemma TockLineFrame(depth: nat, d: Duration, tag: string)
    ensures var line := TockLine(depth, d, tag);
      |line| >= |TockHead(depth)| + |TockTail(tag)| &&
      line[..|TockHead(depth)|] == "(" + NatToString(depth) + ") " &&
      line[|line| - |TockTail(tag)|..] == "\t" + tag + "\n"
  {
    Framed(TockHead(depth), RenderAll(ShownParts(d)), TockTail(tag));
  }

  /** The first and last pieces of a three-piece concatenation are its prefix and suffix. */
  lemma Framed<T>(head: seq<T>, middle: seq<T>, tail: seq<T>)
    ensures var line := head + middle + tail;
      line[..|head|] == head && line[|line| - |tail|..] == tail
  {
    var line := head + middle + tail;
    assert line[..|head|] == head;
    assert line[|line| - |tail|..] == tail;
  }

  /** A zero or negative elapsed time prints only the depth and the tag. */
  lemma SilentTock(depth: nat, elapsed: int, tag: string)
    requires elapsed <= 0
    ensures TockLine(depth, Decompose(elapsed), tag) == "(" + NatToString(depth) + ") " + "\t" + tag + "\n"
  {
    NothingShownWhenNotPositive(elapsed);
  }

  const TockError: string := "Error in Time::tock(): No corresponding tick call made.\n"

  /** One line printed by `tock`, recorded by what it reports. */
  datatype Printed =
    | Report(depth: nat, elapsed: Duration, tag: string)
    | NoTick

  /** The text of a printed line. */
  function Text(p: Printed): string {
    match p
    case Report(depth, elapsed, tag) => TockLine(depth, elapsed, tag)
    case NoTick => TockError
  }

  // ---------------------------------------------------------------------
  // The timer: two parallel stacks and the output it has printed.
  // ---------------------------------------------------------------------

  class Timer {
    /** Timestamp stack, in nanoseconds of the caller's clock; the top is last. */
    var timestamps: seq<int>
    /** Tag stack, parallel to `timestamps`. */
    var tags: seq<string>
    /** Everything printed so far, one entry per printed line; its text is `Text`. */
    var output: seq<Printed>

    /** The two stacks always have the same height. */
    ghost predicate Valid()
      reads this
    {
      |timestamps| == |tags|
    }

    constructor ()
      ensures Valid()
      ensures timestamps == [] && tags == [] && output == []
    {
      timestamps, tags, output := [], [], [];
    }

    /** Push the current time and a tag. */
    method Tick(tag: string, now: int)
      requires Valid()
      modifies this
      ensures Valid()
      ensures timestamps == old(timestamps) + [now]
      ensures tags == old(tags) + [tag]
      ensures output == old(output)
    {
      timestamps := timestamps + [now];
      tags := tags + [tag];
    }

    /**
     * Pop the most recent timestamp and tag and print the time elapsed since
     * it; with empty stacks print an error and change nothing else.
     */
    method Tock(now: int)
      requires Valid()
      modifies this
      ensures Valid()
      ensures old(|timestamps|) > 0 ==>
        && timestamps == old(timestamps[..|timestamps| - 1])
        && tags == old(tags[..|tags| - 1])
        && output == old(output) + [Report(|timestamps|,
             Decompose(now - old(timestamps[|timestamps| - 1])), old(tags[|tags| - 1]))]
      ensures old(|timestamps|) == 0 ==>
        && timestamps == old(timestamps)
        && tags == old(tags)
        && output == old(output) + [NoTick]
    {
      var stop := now;
      if |timestamps| > 0 {
        var start := timestamps[|timestamps| - 1];
        timestamps := timestamps[..|timestamps| - 1];
        var tag := tags[|tags| - 1];
        tags := tags[..|tags| - 1];
        var d := Decompose(stop - start);
        output := output + [Report(|timestamps|, d, tag)];
      } else {
        output := output + [NoTick];
      }
    }
  }

  /** Matched ticks and tocks restore the stacks they started from (LIFO). */
  method TickTockRestores(t: Timer, tag: string, start: int, stop: int)
    requires t.Valid()
    modifies t
    ensures t.Valid()
    ensures t.timestamps == old(t.timestamps) && t.tags == old(t.tags)
    ensures t.output == old(t.output) + [Report(|t.timestamps|, Decompose(stop - start), tag)]
  {
    ghost var before := t.timestamps;
    ghost var beforeTags := t.tags;
    t.Tick(tag, start);
    assert t.timestamps[|t.timestamps| - 1] == start;
    assert t.tags[|t.tags| - 1] == tag;
    assert t.timestamps[..|t.timestamps| - 1] == before;
    assert t.tags[..|t.tags| - 1] == beforeTags;
    t.Tock(stop);
  }
}
