/**
 * The electron-fluctuation-vertex property extractor.
 *
 * A request is a list of compound patterns.  Each pattern splits into five
 * components: a momentum pattern followed by four intra-block patterns.  For
 * every momentum index the model stores that matches the momentum pattern,
 * the extractor enumerates the four intra-block patterns under it and records
 * every combination as a five-component compound index.  This is done twice:
 * once without and once with summation wildcards kept, giving the indices to
 * compute and the memory layout of the result.  The result's energy axis is
 * taken from the solver's charge susceptibility.
 */
module FluctuationVertex {
  import opened Wrappers
  import opened IndexTrees

  /** An interaction-vertex amplitude; only its addition is used. */
  datatype Complex = Complex(re: real, im: real) {
    function Plus(that: Complex): Complex {
      Complex(re + that.re, im + that.im)
    }
  }

  /** Why a pattern was refused. */
  datatype PatternError =
    | ComponentCount(count: nat)      // split did not give five components
    | SubindexClash(component: nat)   // a later intra-block component differs in size from component 1

  datatype VertexError =
    | InvalidPattern(pattern: nat, reason: PatternError)
    | Unsupported                     // the energy window cannot be set on this extractor
    | UnknownEnergyType

  datatype EnergyType = Real | FermionicMatsubara | BosonicMatsubara

  /** The parts of the solver's charge susceptibility that fix the vertex's energy axis. */
  datatype Susceptibility = Susceptibility(
    energyType: EnergyType,
    lowerBound: real, upperBound: real, resolution: int,
    lowerMatsubaraEnergyIndex: int, upperMatsubaraEnergyIndex: int,
    fundamentalMatsubaraEnergy: real)

  datatype EnergyWindow =
    | RealWindow(lowerBound: real, upperBound: real, resolution: int)
    | MatsubaraWindow(lowerIndex: int, upperIndex: int, fundamentalEnergy: real)

  /**
   * What the extractor asks of the solver: the enumeration of the model's
   * indices matching a pattern (with or without summation wildcards kept),
   * its charge susceptibility and the self-energy vertex at an index.
   */
  datatype Solver = Solver(
    enumerate: Enumeration,
    chargeSusceptibility: Susceptibility,
    selfEnergyVertex: CompoundIndex -> seq<Complex>)

  /** The interaction vertex: its memory layout and its energy axis. */
  datatype InteractionVertex = InteractionVertex(memoryLayout: set<CompoundIndex>, window: EnergyWindow)

  /** A prepared calculation: the indices to compute and the vertex they are stored in. */
  datatype Calculation = Calculation(allIndices: set<CompoundIndex>, vertex: InteractionVertex)

  // ---------------------------------------------------------------------
  // Pattern validation

  /** Five components, and components 2, 3 and 4 as long as component 1. */
  ghost predicate WellFormed(indices: seq<Index>) {
    |indices| == 5 && forall n :: 2 <= n < 5 ==> |indices[n]| == |indices[1]|
  }

  /** The first component from `n` on whose size differs from component 1's. */
  function FirstClash(indices: seq<Index>, n: nat): (r: Outcome<PatternError>)
    requires |indices| == 5 && 2 <= n <= 5
    ensures r.Pass? <==> forall m :: n <= m < 5 ==> |indices[m]| == |indices[1]|
    ensures r.Fail? ==> r.error.SubindexClash? && n <= r.error.component < 5
    ensures r.Fail? ==> |indices[r.error.component]| != |indices[1]|
    ensures r.Fail? ==> forall m :: n <= m < r.error.component ==> |indices[m]| == |indices[1]|
    decreases 5 - n
  {
    if n == 5 then Pass
    else if |indices[n]| != |indices[1]| then Fail(SubindexClash(n))
    else FirstClash(indices, n + 1)
  }

  /** The verdict on a split pattern: first the component count, then the first size clash. */
  function Validate(indices: seq<Index>): (r: Outcome<PatternError>)
    ensures r.Pass? <==> WellFormed(indices)
    ensures r == Fail(ComponentCount(|indices|)) <==> |indices| != 5
    ensures |indices| == 5 && r.Fail? ==> r.error.SubindexClash?
    ensures r.Fail? && r.error.SubindexClash? ==>
      |indices| == 5 && 2 <= r.error.component < 5 &&
      |indices[r.error.component]| != |indices[1]| &&
      forall m :: 2 <= m < r.error.component ==> |indices[m]| == |indices[1]|
  {
    if |indices| != 5 then Fail(ComponentCount(|indices|)) else FirstClash(indices, 2)
  }

  // ---------------------------------------------------------------------
  // The momentum pattern and the slicing of enumerated indices

  /** The momentum pattern followed by `count` wildcards. */
  function ExtendedKPattern(kPattern: Index, count: nat): (r: Index)
    ensures |r| == |kPattern| + count
    ensures r[..|kPattern|] == kPattern
    ensures forall i :: |kPattern| <= i < |r| ==> r[i] == IDX_ALL
  {
    kPattern + seq(count, _ => IDX_ALL)
  }

  /** The momentum indices: the first `kSize` subindices of each enumerated index. */
  function KIndices(ks: seq<Index>, kSize: nat): (r: seq<Index>)
    requires forall i :: 0 <= i < |ks| ==> |ks[i]| >= kSize
    ensures |r| == |ks|
    ensures forall i :: 0 <= i < |ks| ==> |r[i]| == kSize && r[i] == ks[i][..kSize]
  {
    seq(|ks|, i requires 0 <= i < |ks| => GetSubIndex(ks[i], 0, kSize - 1))
  }

  /** The intra-block indices: each enumerated index with its first `kSize` subindices dropped. */
  function Suffixes(es: seq<Index>, kSize: nat): (r: seq<Index>)
    requires forall i :: 0 <= i < |es| ==> |es[i]| >= kSize
    ensures |r| == |es|
    ensures forall i :: 0 <= i < |es| ==> es[i][..kSize] + r[i] == es[i]
    ensures forall i :: 0 <= i < |es| ==> r[i] == es[i][kSize..]
  {
    seq(|es|, i requires 0 <= i < |es| => GetSubIndex(es[i], kSize, |es[i]| - 1))
  }

  // ---------------------------------------------------------------------
  // The compound indices a pattern stands for

  /** Every five-component compound index `[k, a, b, c, d]` with `a, b, c, d` drawn from the four lists. */
  function Product(k: Index, l0: seq<Index>, l1: seq<Index>, l2: seq<Index>, l3: seq<Index>)
    : set<CompoundIndex>
  {
    set a, b, c, d | a in l0 && b in l1 && c in l2 && d in l3 :: [k, a, b, c, d]
  }

  /** The intra-block enumeration `j` (1 to 4) under momentum index `k`. */
  function Block(k: Index, indices: seq<Index>, j: nat, enumerate: Enumeration, keep: bool): (r: seq<Index>)
    requires |indices| == 5 && 1 <= j < 5 && KeepsPatternLength(enumerate)
    ensures forall i :: 0 <= i < |r| ==> |r[i]| >= |k|
  {
    var r := enumerate(k + indices[j], keep);
    assert forall i :: 0 <= i < |r| ==> |r[i]| >= |k + indices[j]|;
    r
  }

  /** The compound indices recorded for one momentum index. */
  function BlockIndices(k: Index, indices: seq<Index>, enumerate: Enumeration, keep: bool): set<CompoundIndex>
    requires |indices| == 5 && KeepsPatternLength(enumerate)
  {
    Product(k,
      Suffixes(Block(k, indices, 1, enumerate, keep), |k|),
      Suffixes(Block(k, indices, 2, enumerate, keep), |k|),
      Suffixes(Block(k, indices, 3, enumerate, keep), |k|),
      Suffixes(Block(k, indices, 4, enumerate, keep), |k|))
  }

  /** The compound indices recorded for a list of momentum indices. */
  function KBlocks(ks: seq<Index>, indices: seq<Index>, enumerate: Enumeration, keep: bool): set<CompoundIndex>
    requires |indices| == 5 && KeepsPatternLength(enumerate)
  {
    if ks == [] then {}
    else KBlocks(ks[..|ks| - 1], indices, enumerate, keep) + BlockIndices(ks[|ks| - 1], indices, enumerate, keep)
  }

  /** The momentum indices a well-formed split pattern enumerates. */
  function PatternKIndices(indices: seq<Index>, enumerate: Enumeration, keep: bool): (r: seq<Index>)
    requires |indices| == 5 && KeepsPatternLength(enumerate)
    ensures forall i :: 0 <= i < |r| ==> |r[i]| == |indices[0]|
  {
    var ks := enumerate(ExtendedKPattern(indices[0], |indices[1]|), keep);
    assert forall i :: 0 <= i < |ks| ==> |ks[i]| >= |ExtendedKPattern(indices[0], |indices[1]|)|;
    KIndices(ks, |indices[0]|)
  }

  /** The momentum index at position `i` is cut from the `i`-th match of the extended pattern. */
  lemma KIndexAt(indices: seq<Index>, enumerate: Enumeration, keep: bool, i: nat)
    requires |indices| == 5 && KeepsPatternLength(enumerate)
    requires i < |enumerate(ExtendedKPattern(indices[0], |indices[1]|), keep)|
    ensures var e := enumerate(ExtendedKPattern(indices[0], |indices[1]|), keep)[i];
      |e| >= |indices[0]| && i < |PatternKIndices(indices, enumerate, keep)| &&
      GetSubIndex(e, 0, |indices[0]| - 1) == PatternKIndices(indices, enumerate, keep)[i]
  {
    var ext := ExtendedKPattern(indices[0], |indices[1]|);
    assert |enumerate(ext, keep)[i]| >= |ext|;
  }

  /** The compound indices a well-formed split pattern stands for. */
  function PatternIndices(indices: seq<Index>, enumerate: Enumeration, keep: bool): set<CompoundIndex>
    requires |indices| == 5 && KeepsPatternLength(enumerate)
  {
    KBlocks(PatternKIndices(indices, enumerate, keep), indices, enumerate, keep)
  }

  /**
   * The verdict on a list of patterns: the first pattern whose split fails
   * validation, with its position and reason.  It does not depend on whether
   * summation wildcards are kept, so both passes refuse the same patterns.
   */
  function Refusal(patterns: seq<Index>, split: Index -> seq<Index>): Outcome<VertexError> {
    if patterns == [] then Pass
    else
      var previous := Refusal(patterns[..|patterns| - 1], split);
      if previous.Fail? then previous
      else
        match Validate(split(patterns[|patterns| - 1]))
        case Fail(e) => Fail(InvalidPattern(|patterns| - 1, e))
        case Pass => Pass
  }

  /** Every pattern splits into five components. */
  ghost predicate AllFive(patterns: seq<Index>, split: Index -> seq<Index>) {
    forall n :: 0 <= n < |patterns| ==> |split(patterns[n])| == 5
  }

  /** The compound indices a list of accepted patterns stands for. */
  function Union(patterns: seq<Index>, split: Index -> seq<Index>, enumerate: Enumeration, keep: bool)
    : set<CompoundIndex>
    requires AllFive(patterns, split) && KeepsPatternLength(enumerate)
  {
    set n, c | 0 <= n < |patterns| && c in PatternIndices(split(patterns[n]), enumerate, keep) :: c
  }

  // ---------------------------------------------------------------------
  // Properties of the enumeration

  lemma ProductMember(k: Index, l0: seq<Index>, l1: seq<Index>, l2: seq<Index>, l3: seq<Index>, c: CompoundIndex)
    ensures c in Product(k, l0, l1, l2, l3) <==>
      |c| == 5 && c[0] == k && c[1] in l0 && c[2] in l1 && c[3] in l2 && c[4] in l3
  {
    if |c| == 5 && c[0] == k && c[1] in l0 && c[2] in l1 && c[3] in l2 && c[4] in l3 {
      assert c == [k, c[1], c[2], c[3], c[4]];
    }
  }

  lemma {:induction false} KBlocksMember(ks: seq<Index>, indices: seq<Index>, enumerate: Enumeration, keep: bool,
                                         c: CompoundIndex)
    requires |indices| == 5 && KeepsPatternLength(enumerate)
    ensures c in KBlocks(ks, indices, enumerate, keep) <==>
      exists i :: 0 <= i < |ks| && c in BlockIndices(ks[i], indices, enumerate, keep)
    decreases |ks|
  {
    if ks != [] {
      var init := ks[..|ks| - 1];
      KBlocksMember(init, indices, enumerate, keep, c);
      if c in KBlocks(init, indices, enumerate, keep) {
        var i :| 0 <= i < |init| && c in BlockIndices(init[i], indices, enumerate, keep);
        assert ks[i] == init[i];
      }
      if exists i :: 0 <= i < |ks| && c in BlockIndices(ks[i], indices, enumerate, keep) {
        var i :| 0 <= i < |ks| && c in BlockIndices(ks[i], indices, enumerate, keep);
        if i < |ks| - 1 {
          assert init[i] == ks[i];
        }
      }
    }
  }

  /**
   * Each of the components 1 to 4 of `c` is an index matching `c[0]`
   * followed by that component's pattern, with the first `|c[0]|`
   * subindices cut off.
   */
  ghost predicate IntraBlocksEnumerated(c: CompoundIndex, indices: seq<Index>, enumerate: Enumeration, keep: bool)
    requires |c| == 5 && |indices| == 5
  {
    forall j :: 1 <= j < 5 ==>
      exists e :: e in enumerate(c[0] + indices[j], keep) && |e| >= |c[0]| && e[|c[0]|..] == c[j]
  }

  /**
   * Every recorded compound index has five components.  The first is the
   * momentum part of an index matching the extended momentum pattern; each
   * of the other four is an index matching the momentum index followed by
   * that component's pattern, with the momentum part cut off.
   */
  lemma PatternIndicesSound(indices: seq<Index>, enumerate: Enumeration, keep: bool, c: CompoundIndex)
    requires |indices| == 5 && KeepsPatternLength(enumerate)
    requires c in PatternIndices(indices, enumerate, keep)
    ensures |c| == 5 && |c[0]| == |indices[0]|
    ensures exists e :: e in enumerate(ExtendedKPattern(indices[0], |indices[1]|), keep) && c[0] == e[..|indices[0]|]
    ensures IntraBlocksEnumerated(c, indices, enumerate, keep)
  {
    var ks := PatternKIndices(indices, enumerate, keep);
    KBlocksMember(ks, indices, enumerate, keep, c);
    var i :| 0 <= i < |ks| && c in BlockIndices(ks[i], indices, enumerate, keep);
    var es := enumerate(ExtendedKPattern(indices[0], |indices[1]|), keep);
    assert es[i] in es && ks[i] == es[i][..|indices[0]|];
    BlockMember(ks[i], indices, enumerate, keep, c);
  }

  /** What a compound index recorded for one momentum index is made of. */
  lemma BlockMember(k: Index, indices: seq<Index>, enumerate: Enumeration, keep: bool, c: CompoundIndex)
    requires |indices| == 5 && KeepsPatternLength(enumerate)
    requires c in BlockIndices(k, indices, enumerate, keep)
    ensures |c| == 5 && c[0] == k
    ensures IntraBlocksEnumerated(c, indices, enumerate, keep)
  {
    var b1 := Block(k, indices, 1, enumerate, keep);
    var b2 := Block(k, indices, 2, enumerate, keep);
    var b3 := Block(k, indices, 3, enumerate, keep);
    var b4 := Block(k, indices, 4, enumerate, keep);
    ProductMember(k, Suffixes(b1, |k|), Suffixes(b2, |k|), Suffixes(b3, |k|), Suffixes(b4, |k|), c);
    forall j | 1 <= j < 5
      ensures exists e :: e in enumerate(c[0] + indices[j], keep) && |e| >= |c[0]| && e[|c[0]|..] == c[j]
    {
      var b := Block(k, indices, j, enumerate, keep);
      assert c[j] in Suffixes(b, |k|) by {
        if j == 1 { assert b == b1; }
        else if j == 2 { assert b == b2; }
        else if j == 3 { assert b == b3; }
        else { assert b == b4; }
      }
      SuffixSource(b, |k|, c[j]);
    }
  }

  /** An intra-block index is an enumerated index with the momentum part cut off. */
  lemma SuffixSource(es: seq<Index>, kSize: nat, x: Index)
    requires forall i :: 0 <= i < |es| ==> |es[i]| >= kSize
    requires x in Suffixes(es, kSize)
    ensures exists e :: e in es && |e| >= kSize && e[kSize..] == x
  {
    var i :| 0 <= i < |es| && Suffixes(es, kSize)[i] == x;
    assert es[i] in es;
  }

  /**
   * Conversely, every choice of a momentum index and of one enumerated index
   * per intra-block component is recorded, cut after the momentum part.
   */
  lemma PatternIndicesComplete(indices: seq<Index>, enumerate: Enumeration, keep: bool, i: nat,
                               e1: Index, e2: Index, e3: Index, e4: Index)
    requires |indices| == 5 && KeepsPatternLength(enumerate)
    requires i < |PatternKIndices(indices, enumerate, keep)|
    requires var k := PatternKIndices(indices, enumerate, keep)[i];
      e1 in enumerate(k + indices[1], keep) && e2 in enumerate(k + indices[2], keep) &&
      e3 in enumerate(k + indices[3], keep) && e4 in enumerate(k + indices[4], keep)
    ensures var k := PatternKIndices(indices, enumerate, keep)[i];
      [k, e1[|k|..], e2[|k|..], e3[|k|..], e4[|k|..]] in PatternIndices(indices, enumerate, keep)
  {
    var ks := PatternKIndices(indices, enumerate, keep);
    var k := ks[i];
    var c := [k, e1[|k|..], e2[|k|..], e3[|k|..], e4[|k|..]];
    var s1 := Suffixes(Block(k, indices, 1, enumerate, keep), |k|);
    var s2 := Suffixes(Block(k, indices, 2, enumerate, keep), |k|);
    var s3 := Suffixes(Block(k, indices, 3, enumerate, keep), |k|);
    var s4 := Suffixes(Block(k, indices, 4, enumerate, keep), |k|);
    SuffixMember(Block(k, indices, 1, enumerate, keep), |k|, e1);
    SuffixMember(Block(k, indices, 2, enumerate, keep), |k|, e2);
    SuffixMember(Block(k, indices, 3, enumerate, keep), |k|, e3);
    SuffixMember(Block(k, indices, 4, enumerate, keep), |k|, e4);
    ProductMember(k, s1, s2, s3, s4, c);
    KBlocksMember(ks, indices, enumerate, keep, c);
  }

  lemma SuffixMember(es: seq<Index>, kSize: nat, e: Index)
    requires forall i :: 0 <= i < |es| ==> |es[i]| >= kSize
    requires e in es
    ensures |e| >= kSize && e[kSize..] in Suffixes(es, kSize)
  {
    var i :| 0 <= i < |es| && es[i] == e;
    assert Suffixes(es, kSize)[i] == e[kSize..];
  }

  /** A list of patterns is accepted exactly when every one of its patterns validates. */
  lemma RefusalPass(patterns: seq<Index>, split: Index -> seq<Index>)
    ensures Refusal(patterns, split).Pass? <==>
      forall n :: 0 <= n < |patterns| ==> Validate(split(patterns[n])).Pass?
    ensures Refusal(patterns, split).Pass? ==> AllFive(patterns, split)
  {
    if Refusal(patterns, split).Pass? {
      AcceptedAreValid(patterns, split);
    } else {
      RefusalNamesFirst(patterns, split);
    }
  }

  lemma {:induction false} AcceptedAreValid(patterns: seq<Index>, split: Index -> seq<Index>)
    requires Refusal(patterns, split).Pass?
    ensures forall n :: 0 <= n < |patterns| ==> Validate(split(patterns[n])).Pass?
    decreases |patterns|
  {
    if patterns != [] {
      var init := patterns[..|patterns| - 1];
      AcceptedAreValid(init, split);
      assert forall n :: 0 <= n < |init| ==> init[n] == patterns[n];
    }
  }

  /** A refusal names the first pattern that fails validation, with its reason. */
  lemma {:induction false} RefusalNamesFirst(patterns: seq<Index>, split: Index -> seq<Index>)
    requires Refusal(patterns, split).Fail?
    ensures var err := Refusal(patterns, split).error;
      err.InvalidPattern? && err.pattern < |patterns| &&
      Validate(split(patterns[err.pattern])) == Fail(err.reason) &&
      forall m :: 0 <= m < err.pattern ==> Validate(split(patterns[m])).Pass?
    decreases |patterns|
  {
    var init := patterns[..|patterns| - 1];
    assert forall n :: 0 <= n < |init| ==> init[n] == patterns[n];
    if Refusal(init, split).Fail? {
      RefusalNamesFirst(init, split);
    } else {
      AcceptedAreValid(init, split);
    }
  }

  /** A prefix that is refused already decides the verdict on the whole list. */
  lemma {:induction false} RefusalKeepsFirst(patterns: seq<Index>, split: Index -> seq<Index>, m: nat)
    requires m <= |patterns| && Refusal(patterns[..m], split).Fail?
    ensures Refusal(patterns, split) == Refusal(patterns[..m], split)
    decreases |patterns| - m
  {
    if m < |patterns| {
      assert patterns[..m + 1][..m] == patterns[..m];
      RefusalKeepsFirst(patterns, split, m + 1);
    } else {
      assert patterns[..m] == patterns;
    }
  }

  /** Accepting the patterns before `n` and then pattern `n` accepts the patterns up to `n`. */
  lemma AcceptNext(patterns: seq<Index>, split: Index -> seq<Index>, n: nat)
    requires n < |patterns| && Refusal(patterns[..n], split) == Pass && AllFive(patterns[..n], split)
    requires Validate(split(patterns[n])).Pass?
    ensures Refusal(patterns[..n + 1], split) == Pass && AllFive(patterns[..n + 1], split)
  {
    var next := patterns[..n + 1];
    assert next[..n] == patterns[..n];
    assert forall m :: 0 <= m < n ==> next[m] == patterns[..n][m];
  }

  /** Accepting the patterns before `n` and refusing pattern `n` refuses the list for pattern `n`. */
  lemma RefuseNext(patterns: seq<Index>, split: Index -> seq<Index>, n: nat)
    requires n < |patterns| && Refusal(patterns[..n], split) == Pass
    requires Validate(split(patterns[n])).Fail?
    ensures Refusal(patterns, split) == Fail(InvalidPattern(n, Validate(split(patterns[n])).error))
  {
    assert patterns[..n + 1][..n] == patterns[..n];
    RefusalKeepsFirst(patterns, split, n + 1);
  }

  /** One more accepted pattern adds what it stands for. */
  lemma UnionSnoc(patterns: seq<Index>, split: Index -> seq<Index>, enumerate: Enumeration, keep: bool, n: nat)
    requires n < |patterns| && AllFive(patterns[..n + 1], split) && KeepsPatternLength(enumerate)
    ensures AllFive(patterns[..n], split)
    ensures Union(patterns[..n + 1], split, enumerate, keep) ==
      Union(patterns[..n], split, enumerate, keep) + PatternIndices(split(patterns[n]), enumerate, keep)
  {
    var init := patterns[..n];
    var next := patterns[..n + 1];
    assert forall m :: 0 <= m < n ==> init[m] == next[m];
    var extended := Union(next, split, enumerate, keep);
    var earlier := Union(init, split, enumerate, keep);
    var added := PatternIndices(split(patterns[n]), enumerate, keep);
    forall c ensures c in extended <==> c in earlier || c in added {
      if c in extended {
        var m :| 0 <= m < n + 1 && c in PatternIndices(split(next[m]), enumerate, keep);
        if m < n {
          assert c in earlier;
        }
      }
      if c in earlier {
        var m :| 0 <= m < n && c in PatternIndices(split(init[m]), enumerate, keep);
        assert c in PatternIndices(split(next[m]), enumerate, keep);
      }
      if c in added {
        assert c in PatternIndices(split(next[n]), enumerate, keep);
      }
    }
  }

  /** One more momentum index adds the compound indices recorded for it. */
  lemma KBlocksSnoc(ks: seq<Index>, indices: seq<Index>, enumerate: Enumeration, keep: bool, i: nat)
    requires i < |ks| && |indices| == 5 && KeepsPatternLength(enumerate)
    ensures KBlocks(ks[..i + 1], indices, enumerate, keep) ==
      KBlocks(ks[..i], indices, enumerate, keep) + BlockIndices(ks[i], indices, enumerate, keep)
  {
    assert ks[..i + 1][..i] == ks[..i];
  }

  lemma ProductEmpty(k: Index, l0: seq<Index>, l1: seq<Index>, l2: seq<Index>, l3: seq<Index>)
    requires l0 == [] || l1 == [] || l2 == [] || l3 == []
    ensures Product(k, l0, l1, l2, l3) == {}
  {
    forall c | c in Product(k, l0, l1, l2, l3) ensures false {
      ProductMember(k, l0, l1, l2, l3, c);
    }
  }

  /** One more element of the first list adds the products through it. */
  lemma ProductExtend0(k: Index, l0: seq<Index>, l1: seq<Index>, l2: seq<Index>, l3: seq<Index>, i: nat)
    requires i < |l0|
    ensures Product(k, l0[..i + 1], l1, l2, l3) == Product(k, l0[..i], l1, l2, l3) + Product(k, [l0[i]], l1, l2, l3)
  {
    assert l0[..i + 1] == l0[..i] + [l0[i]];
    forall c ensures c in Product(k, l0[..i + 1], l1, l2, l3) <==>
                     c in Product(k, l0[..i], l1, l2, l3) || c in Product(k, [l0[i]], l1, l2, l3) {
      ProductMember(k, l0[..i + 1], l1, l2, l3, c);
      ProductMember(k, l0[..i], l1, l2, l3, c);
      ProductMember(k, [l0[i]], l1, l2, l3, c);
    }
  }

  /** One more element of the second list adds the products through it. */
  lemma ProductExtend1(k: Index, l0: seq<Index>, l1: seq<Index>, l2: seq<Index>, l3: seq<Index>, i: nat)
    requires i < |l1|
    ensures Product(k, l0, l1[..i + 1], l2, l3) == Product(k, l0, l1[..i], l2, l3) + Product(k, l0, [l1[i]], l2, l3)
  {
    assert l1[..i + 1] == l1[..i] + [l1[i]];
    forall c ensures c in Product(k, l0, l1[..i + 1], l2, l3) <==>
                     c in Product(k, l0, l1[..i], l2, l3) || c in Product(k, l0, [l1[i]], l2, l3) {
      ProductMember(k, l0, l1[..i + 1], l2, l3, c);
      ProductMember(k, l0, l1[..i], l2, l3, c);
      ProductMember(k, l0, [l1[i]], l2, l3, c);
    }
  }

  /** One more element of the third list adds the products through it. */
  lemma ProductExtend2(k: Index, l0: seq<Index>, l1: seq<Index>, l2: seq<Index>, l3: seq<Index>, i: nat)
    requires i < |l2|
    ensures Product(k, l0, l1, l2[..i + 1], l3) == Product(k, l0, l1, l2[..i], l3) + Product(k, l0, l1, [l2[i]], l3)
  {
    assert l2[..i + 1] == l2[..i] + [l2[i]];
    forall c ensures c in Product(k, l0, l1, l2[..i + 1], l3) <==>
                     c in Product(k, l0, l1, l2[..i], l3) || c in Product(k, l0, l1, [l2[i]], l3) {
      ProductMember(k, l0, l1, l2[..i + 1], l3, c);
      ProductMember(k, l0, l1, l2[..i], l3, c);
      ProductMember(k, l0, l1, [l2[i]], l3, c);
    }
  }

  /** One more element of the fourth list adds the product through it. */
  lemma ProductExtend3(k: Index, a: Index, b: Index, c: Index, l3: seq<Index>, i: nat)
    requires i < |l3|
    ensures Product(k, [a], [b], [c], l3[..i + 1]) == Product(k, [a], [b], [c], l3[..i]) + {[k, a, b, c, l3[i]]}
  {
    assert l3[..i + 1] == l3[..i] + [l3[i]];
    forall x ensures x in Product(k, [a], [b], [c], l3[..i + 1]) <==>
                     x in Product(k, [a], [b], [c], l3[..i]) || x == [k, a, b, c, l3[i]] {
      ProductMember(k, [a], [b], [c], l3[..i + 1], x);
      ProductMember(k, [a], [b], [c], l3[..i], x);
    }
  }

  // ---------------------------------------------------------------------
  // Accumulating a self-energy vertex into the result buffer

  /** `buffer` with `iv[e]` added to the element at `offset + e`, for every `e`. */
  function Accumulated(buffer: seq<Complex>, offset: int, iv: seq<Complex>): (r: seq<Complex>)
    requires 0 <= offset && offset + |iv| <= |buffer|
    ensures |r| == |buffer|
    ensures forall e :: 0 <= e < |iv| ==> r[offset + e] == buffer[offset + e].Plus(iv[e])
    ensures forall j :: 0 <= j < |buffer| && !(offset <= j < offset + |iv|) ==> r[j] == buffer[j]
    decreases |iv|
  {
    if iv == [] then buffer
    else
      var last := offset + |iv| - 1;
      Accumulated(buffer, offset, iv[..|iv| - 1])[last := buffer[last].Plus(iv[|iv| - 1])]
  }

  /**
   * Accumulating two vertices gives the same buffer in either order, so the
   * order in which the indices are visited does not change the result.
   */
  lemma AccumulationCommutes(buffer: seq<Complex>, o1: int, iv1: seq<Complex>, o2: int, iv2: seq<Complex>)
    requires 0 <= o1 && o1 + |iv1| <= |buffer|
    requires 0 <= o2 && o2 + |iv2| <= |buffer|
    ensures Accumulated(Accumulated(buffer, o1, iv1), o2, iv2) ==
            Accumulated(Accumulated(buffer, o2, iv2), o1, iv1)
  {
    var left := Accumulated(Accumulated(buffer, o1, iv1), o2, iv2);
    var right := Accumulated(Accumulated(buffer, o2, iv2), o1, iv1);
    forall j | 0 <= j < |buffer| ensures left[j] == right[j] {
      var in1 := o1 <= j < o1 + |iv1|;
      var in2 := o2 <= j < o2 + |iv2|;
      if in1 && in2 {
        assert left[j] == buffer[j].Plus(iv1[j - o1]).Plus(iv2[j - o2]);
        assert right[j] == buffer[j].Plus(iv2[j - o2]).Plus(iv1[j - o1]);
      } else if in1 {
        assert left[j] == buffer[j].Plus(iv1[j - o1]);
      } else if in2 {
        assert right[j] == buffer[j].Plus(iv2[j - o2]);
      }
    }
  }

  // ---------------------------------------------------------------------
  // The prepared calculation

  /**
   * What preparing the interaction vertex gives: the first refused pattern,
   * or the indices enumerated without summation wildcards, the memory layout
   * enumerated with them, and the energy axis of the charge susceptibility.
   * Only a real or a bosonic Matsubara axis is supported.
   */
  function Prepared(patterns: seq<Index>, split: Index -> seq<Index>, solver: Solver)
    : (r: Result<Calculation, VertexError>)
    requires KeepsPatternLength(solver.enumerate)
    ensures r.Success? <==>
      (forall n :: 0 <= n < |patterns| ==> Validate(split(patterns[n])).Pass?) &&
      solver.chargeSusceptibility.energyType != FermionicMatsubara
    ensures Refusal(patterns, split).Fail? ==> r == Failure(Refusal(patterns, split).error)
  {
    RefusalPass(patterns, split);
    match Refusal(patterns, split)
    case Fail(e) => Failure(e)
    case Pass =>
      var allIndices := Union(patterns, split, solver.enumerate, false);
      var memoryLayout := Union(patterns, split, solver.enumerate, true);
      var cs := solver.chargeSusceptibility;
      match cs.energyType
      case Real =>
        Success(Calculation(allIndices, InteractionVertex(memoryLayout,
          RealWindow(cs.lowerBound, cs.upperBound, cs.resolution))))
      case BosonicMatsubara =>
        Success(Calculation(allIndices, InteractionVertex(memoryLayout,
          MatsubaraWindow(cs.lowerMatsubaraEnergyIndex, cs.upperMatsubaraEnergyIndex,
                          cs.fundamentalMatsubaraEnergy))))
      case FermionicMatsubara => Failure(UnknownEnergyType)
  }

  /**
   * A prepared calculation holds, without and with summation wildcards
   * kept, exactly the compound indices some pattern stands for.
   */
  lemma PreparedIndices(patterns: seq<Index>, split: Index -> seq<Index>, solver: Solver, c: CompoundIndex)
    requires KeepsPatternLength(solver.enumerate)
    requires Prepared(patterns, split, solver).Success?
    ensures AllFive(patterns, split)
    ensures c in Prepared(patterns, split, solver).value.allIndices <==>
      exists n :: 0 <= n < |patterns| && c in PatternIndices(split(patterns[n]), solver.enumerate, false)
    ensures c in Prepared(patterns, split, solver).value.vertex.memoryLayout <==>
      exists n :: 0 <= n < |patterns| && c in PatternIndices(split(patterns[n]), solver.enumerate, true)
  {
    RefusalPass(patterns, split);
  }

  /**
   * The vertex's energy axis is the charge susceptibility's: its bounds and
   * resolution on a real axis, its Matsubara index range and fundamental
   * energy on a bosonic Matsubara axis.  Any other axis is refused once
   * every pattern is accepted.
   */
  lemma PreparedWindow(patterns: seq<Index>, split: Index -> seq<Index>, solver: Solver)
    requires KeepsPatternLength(solver.enumerate)
    requires Refusal(patterns, split).Pass?
    ensures var cs := solver.chargeSusceptibility;
      cs.energyType == Real ==>
        Prepared(patterns, split, solver).Success? &&
        Prepared(patterns, split, solver).value.vertex.window ==
          RealWindow(cs.lowerBound, cs.upperBound, cs.resolution)
    ensures var cs := solver.chargeSusceptibility;
      cs.energyType == BosonicMatsubara ==>
        Prepared(patterns, split, solver).Success? &&
        Prepared(patterns, split, solver).value.vertex.window ==
          MatsubaraWindow(cs.lowerMatsubaraEnergyIndex, cs.upperMatsubaraEnergyIndex,
                          cs.fundamentalMatsubaraEnergy)
    ensures solver.chargeSusceptibility.energyType == FermionicMatsubara ==>
      Prepared(patterns, split, solver) == Failure(UnknownEnergyType)
  {
  }
}
