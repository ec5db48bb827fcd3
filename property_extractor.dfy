/**
 * The electron-fluctuation-vertex property extractor as the program runs
 * it: the checks on each pattern, the extension of the momentum pattern,
 * the nested enumeration loops that fill the two index trees, the energy
 * dispatch, and the callback that accumulates a self-energy vertex into the
 * result buffer.  Each step is proved against the definitions of
 * FluctuationVertex.
 */
module PropertyExtractor {
  import opened Wrappers
  import opened IndexTrees
  import opened FluctuationVertex

  /** The two checks the extractor makes on a split pattern before using it. */
  method CheckPattern(indices: seq<Index>) returns (r: Outcome<PatternError>)
    ensures r == Validate(indices)
  {
    if |indices| != 5 {
      return Fail(ComponentCount(|indices|));
    }
    var n := 2;
    while n < |indices|
      invariant 2 <= n <= 5
      invariant FirstClash(indices, n) == FirstClash(indices, 2)
    {
      if |indices[n]| != |indices[1]| {
        return Fail(SubindexClash(n));
      }
      n := n + 1;
    }
    return Pass;
  }

  /** Append one wildcard per subindex of the first intra-block component. */
  method ExtendKPattern(kPattern: Index, count: nat) returns (extended: Index)
    ensures extended == ExtendedKPattern(kPattern, count)
  {
    extended := kPattern;
    var n := 0;
    while n < count
      invariant 0 <= n <= count
      invariant extended == ExtendedKPattern(kPattern, n)
    {
      extended := extended + [IDX_ALL];
      n := n + 1;
    }
  }

  /** Adding two sets in turn adds their union. */
  lemma Regroup<T>(start: set<T>, a: set<T>, b: set<T>, middle: set<T>, final: set<T>)
    requires middle == start + a && final == middle + b
    ensures final == start + (a + b)
  {
  }

  lemma SliceAll<T>(s: seq<T>, i: nat)
    requires i == |s|
    ensures s[..i] == s
  {
  }

  /**
   * Record `[k, i0, i1, i2, i3]` for every choice of one index from each of
   * the four intra-block enumerations, each cut after the momentum part.
   * The four nested loops of the enumeration are written one per method,
   * outermost first.
   */
  method AddProduct(tree: IndexTree, k: Index, b0: seq<Index>, b1: seq<Index>, b2: seq<Index>, b3: seq<Index>)
    requires forall i :: 0 <= i < |b0| ==> |b0[i]| >= |k|
    requires forall i :: 0 <= i < |b1| ==> |b1[i]| >= |k|
    requires forall i :: 0 <= i < |b2| ==> |b2[i]| >= |k|
    requires forall i :: 0 <= i < |b3| ==> |b3[i]| >= |k|
    modifies tree
    ensures tree.indices == old(tree.indices) +
      Product(k, Suffixes(b0, |k|), Suffixes(b1, |k|), Suffixes(b2, |k|), Suffixes(b3, |k|))
    ensures tree.linearMapGenerated == old(tree.linearMapGenerated)
  {
    ghost var s0, s1, s2, s3 := Suffixes(b0, |k|), Suffixes(b1, |k|), Suffixes(b2, |k|), Suffixes(b3, |k|);
    ProductEmpty(k, s0[..0], s1, s2, s3);
    var i0 := 0;
    while i0 < |b0|
      invariant 0 <= i0 <= |b0|
      invariant tree.indices == old(tree.indices) + Product(k, s0[..i0], s1, s2, s3)
      invariant tree.linearMapGenerated == old(tree.linearMapGenerated)
    {
      var index0 := GetSubIndex(b0[i0], |k|, |b0[i0]| - 1);
      assert index0 == s0[i0];
      ghost var before := tree.indices;
      AddProduct1(tree, k, index0, b1, b2, b3);
      ProductExtend0(k, s0, s1, s2, s3, i0);
      Regroup(old(tree.indices), Product(k, s0[..i0], s1, s2, s3), Product(k, [index0], s1, s2, s3),
              before, tree.indices);
      i0 := i0 + 1;
    }
    SliceAll(s0, i0);
  }

  method AddProduct1(tree: IndexTree, k: Index, index0: Index, b1: seq<Index>, b2: seq<Index>, b3: seq<Index>)
    requires forall i :: 0 <= i < |b1| ==> |b1[i]| >= |k|
    requires forall i :: 0 <= i < |b2| ==> |b2[i]| >= |k|
    requires forall i :: 0 <= i < |b3| ==> |b3[i]| >= |k|
    modifies tree
    ensures tree.indices == old(tree.indices) +
      Product(k, [index0], Suffixes(b1, |k|), Suffixes(b2, |k|), Suffixes(b3, |k|))
    ensures tree.linearMapGenerated == old(tree.linearMapGenerated)
  {
    ghost var s1, s2, s3 := Suffixes(b1, |k|), Suffixes(b2, |k|), Suffixes(b3, |k|);
    ProductEmpty(k, [index0], s1[..0], s2, s3);
    var i1 := 0;
    while i1 < |b1|
      invariant 0 <= i1 <= |b1|
      invariant tree.indices == old(tree.indices) + Product(k, [index0], s1[..i1], s2, s3)
      invariant tree.linearMapGenerated == old(tree.linearMapGenerated)
    {
      var index1 := GetSubIndex(b1[i1], |k|, |b1[i1]| - 1);
      assert index1 == s1[i1];
      ghost var before := tree.indices;
      AddProduct2(tree, k, index0, index1, b2, b3);
      ProductExtend1(k, [index0], s1, s2, s3, i1);
      Regroup(old(tree.indices), Product(k, [index0], s1[..i1], s2, s3), Product(k, [index0], [index1], s2, s3),
              before, tree.indices);
      i1 := i1 + 1;
    }
    SliceAll(s1, i1);
  }

  method AddProduct2(tree: IndexTree, k: Index, index0: Index, index1: Index, b2: seq<Index>, b3: seq<Index>)
    requires forall i :: 0 <= i < |b2| ==> |b2[i]| >= |k|
    requires forall i :: 0 <= i < |b3| ==> |b3[i]| >= |k|
    modifies tree
    ensures tree.indices == old(tree.indices) +
      Product(k, [index0], [index1], Suffixes(b2, |k|), Suffixes(b3, |k|))
    ensures tree.linearMapGenerated == old(tree.linearMapGenerated)
  {
    ghost var s2, s3 := Suffixes(b2, |k|), Suffixes(b3, |k|);
    ProductEmpty(k, [index0], [index1], s2[..0], s3);
    var i2 := 0;
    while i2 < |b2|
      invariant 0 <= i2 <= |b2|
      invariant tree.indices == old(tree.indices) + Product(k, [index0], [index1], s2[..i2], s3)
      invariant tree.linearMapGenerated == old(tree.linearMapGenerated)
    {
      var index2 := GetSubIndex(b2[i2], |k|, |b2[i2]| - 1);
      assert index2 == s2[i2];
      ghost var before := tree.indices;
      AddProduct3(tree, k, index0, index1, index2, b3);
      ProductExtend2(k, [index0], [index1], s2, s3, i2);
      Regroup(old(tree.indices), Product(k, [index0], [index1], s2[..i2], s3),
              Product(k, [index0], [index1], [index2], s3), before, tree.indices);
      i2 := i2 + 1;
    }
    SliceAll(s2, i2);
  }

  method AddProduct3(tree: IndexTree, k: Index, index0: Index, index1: Index, index2: Index, b3: seq<Index>)
    requires forall i :: 0 <= i < |b3| ==> |b3[i]| >= |k|
    modifies tree
    ensures tree.indices == old(tree.indices) + Product(k, [index0], [index1], [index2], Suffixes(b3, |k|))
    ensures tree.linearMapGenerated == old(tree.linearMapGenerated)
  {
    ghost var s3 := Suffixes(b3, |k|);
    ProductEmpty(k, [index0], [index1], [index2], s3[..0]);
    var i3 := 0;
    while i3 < |b3|
      invariant 0 <= i3 <= |b3|
      invariant tree.indices == old(tree.indices) + Product(k, [index0], [index1], [index2], s3[..i3])
      invariant tree.linearMapGenerated == old(tree.linearMapGenerated)
    {
      var index3 := GetSubIndex(b3[i3], |k|, |b3[i3]| - 1);
      assert index3 == s3[i3];
      ghost var before := tree.indices;
      tree.Add([k, index0, index1, index2, index3]);
      ProductExtend3(k, index0, index1, index2, s3, i3);
      Regroup(old(tree.indices), Product(k, [index0], [index1], [index2], s3[..i3]),
              {[k, index0, index1, index2, index3]}, before, tree.indices);
      i3 := i3 + 1;
    }
    SliceAll(s3, i3);
  }

  /**
   * The body of the loop over momentum indices: complete the momentum index
   * with each intra-block pattern, enumerate the four results and record
   * their product.
   */
  method AddBlock(tree: IndexTree, kIndex: Index, indices: seq<Index>, enumerate: Enumeration, keep: bool)
    requires |indices| == 5 && KeepsPatternLength(enumerate)
    modifies tree
    ensures tree.indices == old(tree.indices) + BlockIndices(kIndex, indices, enumerate, keep)
    ensures tree.linearMapGenerated == old(tree.linearMapGenerated)
  {
    var intraBlockIndices := seq(4, n requires 0 <= n < 4 => kIndex + indices[n + 1]);
    var intraBlockIndicesTree := seq(4, n requires 0 <= n < 4 => enumerate(intraBlockIndices[n], keep));
    assert intraBlockIndicesTree[0] == Block(kIndex, indices, 1, enumerate, keep);
    assert intraBlockIndicesTree[1] == Block(kIndex, indices, 2, enumerate, keep);
    assert intraBlockIndicesTree[2] == Block(kIndex, indices, 3, enumerate, keep);
    assert intraBlockIndicesTree[3] == Block(kIndex, indices, 4, enumerate, keep);
    AddProduct(tree, kIndex, intraBlockIndicesTree[0], intraBlockIndicesTree[1],
               intraBlockIndicesTree[2], intraBlockIndicesTree[3]);
  }

  /**
   * Record the compound indices of one validated pattern: enumerate the
   * extended momentum pattern, and for each match take its momentum part and
   * record the product of the four intra-block enumerations under it.
   */
  method AddPattern(tree: IndexTree, indices: seq<Index>, enumerate: Enumeration, keep: bool)
    requires WellFormed(indices) && KeepsPatternLength(enumerate)
    modifies tree
    ensures tree.indices == old(tree.indices) + PatternIndices(indices, enumerate, keep)
    ensures tree.linearMapGenerated == old(tree.linearMapGenerated)
  {
    var kIndexPattern := indices[0];
    var kIndexPatternExtended := ExtendKPattern(kIndexPattern, |indices[1]|);
    var kIndexTree := enumerate(kIndexPatternExtended, keep);
    ghost var ks := PatternKIndices(indices, enumerate, keep);
    var i := 0;
    while i < |kIndexTree|
      invariant 0 <= i <= |kIndexTree|
      invariant tree.indices == old(tree.indices) + KBlocks(ks[..i], indices, enumerate, keep)
      invariant tree.linearMapGenerated == old(tree.linearMapGenerated)
    {
      KIndexAt(indices, enumerate, keep, i);
      var kIndex := GetSubIndex(kIndexTree[i], 0, |kIndexPattern| - 1);
      ghost var before := tree.indices;
      AddBlock(tree, kIndex, indices, enumerate, keep);
      KBlocksSnoc(ks, indices, enumerate, keep, i);
      Regroup(old(tree.indices), KBlocks(ks[..i], indices, enumerate, keep),
              BlockIndices(ks[i], indices, enumerate, keep), before, tree.indices);
      i := i + 1;
    }
    SliceAll(ks, i);
  }

  /**
   * One pass over the patterns: split and check each in turn, stopping at
   * the first that is refused, and record the compound indices of the others.
   */
  method AddPatterns(tree: IndexTree, patterns: seq<Index>, split: Index -> seq<Index>,
                     enumerate: Enumeration, keep: bool)
    returns (r: Outcome<VertexError>)
    requires KeepsPatternLength(enumerate)
    modifies tree
    ensures r == Refusal(patterns, split)
    ensures r.Pass? ==> AllFive(patterns, split)
    ensures r.Pass? ==> tree.indices == old(tree.indices) + Union(patterns, split, enumerate, keep)
    ensures tree.linearMapGenerated == old(tree.linearMapGenerated)
  {
    ghost var base, flag := tree.indices, tree.linearMapGenerated;
    var n := 0;
    while n < |patterns|
      invariant 0 <= n <= |patterns|
      invariant Refusal(patterns[..n], split) == Pass
      invariant AllFive(patterns[..n], split)
      invariant tree.indices == base + Union(patterns[..n], split, enumerate, keep)
      invariant tree.linearMapGenerated == flag
    {
      var v := AddNextPattern(tree, patterns, split, enumerate, keep, n, base);
      if v.Fail? {
        return Fail(InvalidPattern(n, v.error));
      }
      n := n + 1;
    }
    assert patterns[..n] == patterns;
    return Pass;
  }

  /**
   * One pass of the pattern loop: check pattern `n` and, when it is valid,
   * add the compound indices it stands for.
   */
  method AddNextPattern(tree: IndexTree, patterns: seq<Index>, split: Index -> seq<Index>,
                        enumerate: Enumeration, keep: bool, n: nat, ghost base: set<CompoundIndex>)
    returns (v: Outcome<PatternError>)
    requires n < |patterns| && KeepsPatternLength(enumerate)
    requires Refusal(patterns[..n], split) == Pass && AllFive(patterns[..n], split)
    requires tree.indices == base + Union(patterns[..n], split, enumerate, keep)
    modifies tree
    ensures v == Validate(split(patterns[n]))
    ensures v.Fail? ==> Refusal(patterns, split) == Fail(InvalidPattern(n, v.error))
    ensures v.Pass? ==> Refusal(patterns[..n + 1], split) == Pass && AllFive(patterns[..n + 1], split)
    ensures v.Pass? ==> tree.indices == base + Union(patterns[..n + 1], split, enumerate, keep)
    ensures tree.linearMapGenerated == old(tree.linearMapGenerated)
  {
    var indices := split(patterns[n]);
    v := CheckPattern(indices);
    if v.Fail? {
      RefuseNext(patterns, split, n);
      return;
    }
    ghost var before := tree.indices;
    AddPattern(tree, indices, enumerate, keep);
    AcceptNext(patterns, split, n);
    UnionSnoc(patterns, split, enumerate, keep, n);
    Regroup(base, Union(patterns[..n], split, enumerate, keep),
            PatternIndices(indices, enumerate, keep), before, tree.indices);
  }

  /** The property extractor for the electron-fluctuation vertex of a solver. */
  class ElectronFluctuationVertex {
    const solver: Solver

    constructor (solver: Solver)
      ensures this.solver == solver
    {
      this.solver := solver;
    }

    /** Setting a real energy window is not supported; the extractor fails for every argument. */
    method SetEnergyWindow(lowerBound: real, upperBound: real, resolution: int)
      returns (r: Outcome<VertexError>)
      ensures r == Fail(Unsupported)
    {
      return Fail(Unsupported);
    }

    /** Setting a Matsubara energy window is not supported either. */
    method SetMatsubaraEnergyWindow(lowerFermionicMatsubaraEnergyIndex: int,
                                    upperFermionicMatsubaraEnergyIndex: int,
                                    lowerBosonicMatsubaraEnergyIndex: int,
                                    upperBosonicMatsubaraEnergyIndex: int)
      returns (r: Outcome<VertexError>)
      ensures r == Fail(Unsupported)
    {
      return Fail(Unsupported);
    }

    /**
     * Build the tree of indices to compute and the memory-layout tree, then
     * give the vertex the energy axis of the solver's charge susceptibility.
     */
    method CalculateInteractionVertex(patterns: seq<Index>, split: Index -> seq<Index>)
      returns (r: Result<Calculation, VertexError>)
      requires KeepsPatternLength(solver.enumerate)
      ensures r == Prepared(patterns, split, solver)
    {
      var allIndices := new IndexTree();
      var checked := AddPatterns(allIndices, patterns, split, solver.enumerate, false);
      if checked.Fail? {
        return Failure(checked.error);
      }
      allIndices.GenerateLinearMap();
      ghost var computed := Union(patterns, split, solver.enumerate, false);
      assert allIndices.indices == computed;

      // The same checks are repeated; they passed on the first pass, so they pass again.
      var memoryLayout := new IndexTree();
      var rechecked := AddPatterns(memoryLayout, patterns, split, solver.enumerate, true);
      assert rechecked == checked;
      memoryLayout.GenerateLinearMap();
      assert memoryLayout.indices == Union(patterns, split, solver.enumerate, true);
      assert allIndices.indices == computed;

      var chargeSusceptibility := solver.chargeSusceptibility;
      match chargeSusceptibility.energyType {
        case Real =>
          var window := RealWindow(chargeSusceptibility.lowerBound, chargeSusceptibility.upperBound,
                                   chargeSusceptibility.resolution);
          r := Success(Calculation(allIndices.indices, InteractionVertex(memoryLayout.indices, window)));
        case BosonicMatsubara =>
          var window := MatsubaraWindow(chargeSusceptibility.lowerMatsubaraEnergyIndex,
                                        chargeSusceptibility.upperMatsubaraEnergyIndex,
                                        chargeSusceptibility.fundamentalMatsubaraEnergy);
          r := Success(Calculation(allIndices.indices, InteractionVertex(memoryLayout.indices, window)));
        case FermionicMatsubara =>
          r := Failure(UnknownEnergyType);
      }
    }

    /** Add the self-energy vertex at `index` to the buffer, starting at `offset`. */
    method CalculateInteractionVertexCallback(interactionVertex: array<Complex>, index: CompoundIndex, offset: int)
      requires 0 <= offset && offset + |solver.selfEnergyVertex(index)| <= interactionVertex.Length
      modifies interactionVertex
      ensures interactionVertex[..] == Accumulated(old(interactionVertex[..]), offset, solver.selfEnergyVertex(index))
    {
      var iv := solver.selfEnergyVertex(index);
      var e := 0;
      while e < |iv|
        invariant 0 <= e <= |iv|
        invariant interactionVertex[..] == Accumulated(old(interactionVertex[..]), offset, iv[..e])
      {
        assert iv[..e + 1][..e] == iv[..e];
        interactionVertex[offset + e] := interactionVertex[offset + e].Plus(iv[e]);
        e := e + 1;
      }
      assert iv[..e] == iv;
    }
  }
}
