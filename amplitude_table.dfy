/**
 * Tabulation of a hopping-amplitude set into a flat integer table.
 *
 * Each amplitude becomes one row of the table.  The left half of the row
 * holds its from-index and the right half its to-index; unused cells hold -1.
 * The row width is twice the length of the longest from-index.  The
 * amplitude set's iterator is the sequence of amplitudes it visits, and
 * resetting the iterator restarts that sequence.
 */
module AmplitudeTable {

  /** The part of a hopping amplitude that tabulation reads: its two indices. */
  datatype HoppingAmplitude = HoppingAmplitude(fromIndex: seq<int>, toIndex: seq<int>)

  /** The length of the longest from-index, 0 for no amplitudes. */
  function MaxFromSize(amps: seq<HoppingAmplitude>): (m: nat)
    ensures forall i :: 0 <= i < |amps| ==> |amps[i].fromIndex| <= m
    ensures amps == [] ==> m == 0
    ensures amps != [] ==> exists i :: 0 <= i < |amps| && m == |amps[i].fromIndex|
  {
    if amps == [] then 0
    else
      var m := MaxFromSize(amps[..|amps| - 1]);
      var last := |amps[|amps| - 1].fromIndex|;
      if last > m then last else m
  }

  /**
   * The table's rows stay inside their bounds only if no to-index is longer
   * than the longest from-index: the width is derived from from-indices only.
   */
  predicate ToIndicesFit(amps: seq<HoppingAmplitude>) {
    forall i :: 0 <= i < |amps| ==> |amps[i].toIndex| <= MaxFromSize(amps)
  }

  /** `n` cells of -1. */
  function Fill(n: nat): (r: seq<int>)
    ensures |r| == n
  {
    seq(n, _ => -1)
  }

  /** `s` padded with -1 to length `n`. */
  function Pad(s: seq<int>, n: nat): (r: seq<int>)
    requires |s| <= n
  {
    s + Fill(n - |s|)
  }

  /** One row: the from-index in the left half, the to-index in the right half. */
  function Row(a: HoppingAmplitude, half: nat): (r: seq<int>)
    requires |a.fromIndex| <= half && |a.toIndex| <= half
  {
    Pad(a.fromIndex, half) + Pad(a.toIndex, half)
  }

  /** All rows, in iteration order. */
  function Rows(amps: seq<HoppingAmplitude>, half: nat): (r: seq<int>)
    requires forall i :: 0 <= i < |amps| ==> |amps[i].fromIndex| <= half && |amps[i].toIndex| <= half
  {
    if amps == [] then []
    else Rows(amps[..|amps| - 1], half) + Row(amps[|amps| - 1], half)
  }

  /** The table `tabulate` produces. */
  function Table(amps: seq<HoppingAmplitude>): seq<int>
    requires ToIndicesFit(amps)
  {
    Rows(amps, MaxFromSize(amps))
  }

  /** The cell in column `c` of the row for `a`, read off the index arithmetic of the writes. */
  function Cell(a: HoppingAmplitude, half: nat, c: nat): int {
    if c < half then (if c < |a.fromIndex| then a.fromIndex[c] else -1)
    else if c - half < |a.toIndex| then a.toIndex[c - half] else -1
  }

  lemma {:induction false} RowsLength(amps: seq<HoppingAmplitude>, half: nat)
    requires forall i :: 0 <= i < |amps| ==> |amps[i].fromIndex| <= half && |amps[i].toIndex| <= half
    ensures |Rows(amps, half)| == 2 * half * |amps|
    decreases |amps|
  {
    if amps != [] {
      RowsLength(amps[..|amps| - 1], half);
      MulSucc(2 * half, |amps| - 1);
    }
  }

  /**
   * Cell `c` of row `r` sits at `2 * half * r + c` and holds `Cell(amps[r], half, c)`:
   * from-index entries at `n`, to-index entries at `half + n`, -1 elsewhere.
   */
  lemma {:induction false} RowsAt(amps: seq<HoppingAmplitude>, half: nat, r: nat, c: nat)
    requires forall i :: 0 <= i < |amps| ==> |amps[i].fromIndex| <= half && |amps[i].toIndex| <= half
    requires r < |amps| && c < 2 * half
    ensures 2 * half * r + c < |Rows(amps, half)|
    ensures Rows(amps, half)[2 * half * r + c] == Cell(amps[r], half, c)
    decreases |amps|
  {
    var init := amps[..|amps| - 1];
    RowsLength(init, half);
    RowsLength(amps, half);
    if r < |amps| - 1 {
      RowsAt(init, half, r, c);
      assert 2 * half * r + c < |Rows(init, half)|;
    } else {
      assert 2 * half * r == |Rows(init, half)|;
    }
  }

  /** The shape of the table: one row per amplitude, each twice the longest from-index wide. */
  lemma TableShape(amps: seq<HoppingAmplitude>)
    requires ToIndicesFit(amps)
    ensures |Table(amps)| == |amps| * (2 * MaxFromSize(amps))
    ensures amps == [] ==> Table(amps) == []
  {
    var m := MaxFromSize(amps);
    RowsLength(amps, m);
    assert 2 * m * |amps| == |amps| * (2 * m);
  }

  /**
   * Reading the table: in row `r`, column `n` of the left half holds
   * subindex `n` of the from-index, column `n` of the right half holds
   * subindex `n` of the to-index, and every other cell holds -1.
   */
  lemma TableAt(amps: seq<HoppingAmplitude>, r: nat, c: nat)
    requires ToIndicesFit(amps)
    requires r < |amps| && c < 2 * MaxFromSize(amps)
    ensures var w := 2 * MaxFromSize(amps); w * r + c < |Table(amps)|
    ensures var half, a := MaxFromSize(amps), amps[r];
      c < |a.fromIndex| ==> Table(amps)[2 * half * r + c] == a.fromIndex[c]
    ensures var half, a := MaxFromSize(amps), amps[r];
      |a.fromIndex| <= c < half ==> Table(amps)[2 * half * r + c] == -1
    ensures var half, a := MaxFromSize(amps), amps[r];
      half <= c < half + |a.toIndex| ==> Table(amps)[2 * half * r + c] == a.toIndex[c - half]
    ensures var half, a := MaxFromSize(amps), amps[r];
      half + |a.toIndex| <= c ==> Table(amps)[2 * half * r + c] == -1
  {
    RowsAt(amps, MaxFromSize(amps), r, c);
  }

  lemma MulSucc(w: nat, k: nat)
    ensures w * (k + 1) == w * k + w
  {
  }

  lemma MulNat(a: nat, b: nat)
    ensures a * b >= 0
  {
  }

  lemma MulCommute(a: nat, b: nat)
    ensures a * b == b * a
  {
  }

  /** `k` rows of -1, each `2 * half` wide: what the table holds before the second pass. */
  function Blank(k: nat, half: nat): (r: seq<int>)
  {
    if k == 0 then [] else Fill(2 * half) + Blank(k - 1, half)
  }

  lemma {:induction false} BlankIsFill(k: nat, half: nat)
    ensures Blank(k, half) == Fill(2 * half * k)
  {
    if k > 0 {
      BlankIsFill(k - 1, half);
      assert 2 * half * k == 2 * half + 2 * half * (k - 1);
    }
  }

  /** A row read cell by cell. */
  lemma RowCells(a: HoppingAmplitude, half: nat, c: nat)
    requires |a.fromIndex| <= half && |a.toIndex| <= half
    requires c < 2 * half
    ensures |Row(a, half)| == 2 * half
    ensures Row(a, half)[c] == Cell(a, half, c)
  {
  }

  /**
   * A table whose blank row at `|prefix|` was overwritten cell by cell with
   * `Cell(a, half, ·)` now holds `Row(a, half)` there.
   */
  lemma SpliceRow(before: seq<int>, after: seq<int>, prefix: seq<int>, suffix: seq<int>,
                  a: HoppingAmplitude, half: nat)
    requires |a.fromIndex| <= half && |a.toIndex| <= half
    requires before == prefix + Fill(2 * half) + suffix
    requires |after| == |before|
    requires forall j :: 0 <= j < |after| ==>
      after[j] == if |prefix| <= j < |prefix| + 2 * half then Cell(a, half, j - |prefix|) else before[j]
    ensures after == prefix + Row(a, half) + suffix
  {
    var target := prefix + Row(a, half) + suffix;
    forall j | 0 <= j < |after| ensures after[j] == target[j] {
      if |prefix| <= j < |prefix| + 2 * half {
        RowCells(a, half, j - |prefix|);
      }
    }
  }

  /**
   * First pass over the amplitudes: how many there are and how long the
   * longest from-index is.
   */
  method CountAndMeasure(amps: seq<HoppingAmplitude>) returns (numHA: nat, maxIndexSize: nat)
    ensures numHA == |amps|
    ensures maxIndexSize == MaxFromSize(amps)
  {
    numHA := 0;
    maxIndexSize := 0;
    while numHA < |amps|
      invariant 0 <= numHA <= |amps|
      invariant maxIndexSize == MaxFromSize(amps[..numHA])
    {
      assert amps[..numHA + 1][..numHA] == amps[..numHA];
      var indexSize := |amps[numHA].fromIndex|;
      if indexSize > maxIndexSize {
        maxIndexSize := indexSize;
      }
      numHA := numHA + 1;
    }
    assert amps[..numHA] == amps;
  }

  /**
   * Second-pass body for one amplitude: write its from-index at
   * `base + n` and its to-index at `base + n + width / 2` over a row of -1.
   */
  method WriteRow(table: array<int>, base: nat, width: nat, ha: HoppingAmplitude,
                  ghost prefix: seq<int>, ghost suffix: seq<int>)
    requires width % 2 == 0 && |prefix| == base
    requires |ha.fromIndex| <= width / 2 && |ha.toIndex| <= width / 2
    requires table[..] == prefix + Fill(width) + suffix
    modifies table
    ensures table[..] == prefix + Row(ha, width / 2) + suffix
  {
    var half := width / 2;
    ghost var before := table[..];
    var n := 0;
    while n < |ha.fromIndex|
      invariant 0 <= n <= |ha.fromIndex|
      invariant forall j :: 0 <= j < table.Length ==>
        table[j] == if base <= j < base + n then ha.fromIndex[j - base] else before[j]
    {
      table[base + n] := ha.fromIndex[n];
      n := n + 1;
    }
    n := 0;
    while n < |ha.toIndex|
      invariant 0 <= n <= |ha.toIndex|
      invariant forall j :: 0 <= j < table.Length ==>
        table[j] == if base <= j < base + |ha.fromIndex| then ha.fromIndex[j - base]
                    else if base + half <= j < base + half + n then ha.toIndex[j - base - half]
                    else before[j]
    {
      table[base + n + width / 2] := ha.toIndex[n];
      n := n + 1;
    }
    SpliceRow(before, table[..], prefix, suffix, ha, half);
  }

  /**
   * Tabulate the amplitudes: count them and find the longest from-index,
   * allocate `dims[0] * dims[1]` cells of -1, then write each amplitude's
   * from-index and to-index into its row.
   */
  method Tabulate(amps: seq<HoppingAmplitude>, dims: array<int>) returns (table: array<int>)
    requires dims.Length >= 2
    requires ToIndicesFit(amps)
    modifies dims
    ensures fresh(table)
    ensures dims[0] == |amps| && dims[1] == 2 * MaxFromSize(amps)
    ensures forall i :: 2 <= i < dims.Length ==> dims[i] == old(dims[i])
    ensures table[..] == Table(amps)
  {
    var numHA, maxIndexSize := CountAndMeasure(amps);

    dims[0] := numHA;
    dims[1] := 2 * maxIndexSize;
    assert dims[0] == numHA && dims[1] == 2 * maxIndexSize;
    MulNat(numHA, 2 * maxIndexSize);
    var size := dims[0] * dims[1];
    table := new int[size];
    var n := 0;
    while n < size
      modifies table
      invariant 0 <= n <= size
      invariant forall j :: 0 <= j < n ==> table[j] == -1
    {
      table[n] := -1;
      n := n + 1;
    }
    var half := maxIndexSize;
    assert table[..] == Blank(numHA, half) by {
      assert table[..] == Fill(size);
      BlankIsFill(numHA, half);
      MulCommute(numHA, 2 * half);
    }

    // The iterator is reset and the amplitudes are visited again.
    WriteRows(amps, table, dims, half);
  }

  /**
   * Before row `counter` is written, the table is the rows so far, a blank
   * row at `2 * half * counter` and the remaining blank rows; after it, the
   * rows so far extended by the new row.
   */
  lemma NextRow(amps: seq<HoppingAmplitude>, half: nat, counter: nat)
    requires forall i :: 0 <= i < |amps| ==> |amps[i].fromIndex| <= half && |amps[i].toIndex| <= half
    requires counter < |amps|
    ensures |Rows(amps[..counter], half)| == 2 * half * counter
    ensures Blank(|amps| - counter, half) == Fill(2 * half) + Blank(|amps| - counter - 1, half)
    ensures Rows(amps[..counter + 1], half) == Rows(amps[..counter], half) + Row(amps[counter], half)
  {
    RowsLength(amps[..counter], half);
    assert amps[..counter + 1][..counter] == amps[..counter];
  }

  /** The second pass: write every amplitude into its row of the blank table. */
  method WriteRows(amps: seq<HoppingAmplitude>, table: array<int>, dims: array<int>, half: nat)
    requires dims.Length >= 2 && dims != table
    requires dims[0] == |amps| && dims[1] == 2 * half
    requires forall i :: 0 <= i < |amps| ==> |amps[i].fromIndex| <= half && |amps[i].toIndex| <= half
    requires table[..] == Blank(|amps|, half)
    modifies table
    ensures table[..] == Rows(amps, half)
  {
    var numHA := dims[0];
    var counter := 0;
    while counter < numHA
      modifies table
      invariant 0 <= counter <= numHA
      invariant dims[0] == numHA && dims[1] == 2 * half
      invariant table[..] == Rows(amps[..counter], half) + Blank(numHA - counter, half)
    {
      var ha := amps[counter];
      ghost var prefix := Rows(amps[..counter], half);
      ghost var suffix := Blank(numHA - counter - 1, half);
      NextRow(amps, half, counter);
      var width := dims[1];
      assert width / 2 == half && width * counter == |prefix|;
      assert table[..] == prefix + Fill(width) + suffix;
      WriteRow(table, width * counter, width, ha, prefix, suffix);
      counter := counter + 1;
    }
    assert amps[..counter] == amps;
  }
}
