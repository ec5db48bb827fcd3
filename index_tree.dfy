/**
 * The parts of the index machinery that the property extractor relies on.
 *
 * An index is a sequence of integer subindices.  Its internal tree, the
 * splitting of a compound index and the enumeration of the indices that
 * match a pattern are not part of this model. Here they are represented by
 * what the extractor needs of them: an index tree is the set of compound
 * indices added to it, and enumeration is a function parameter.
 */
module IndexTrees {

  /** An index: an ordered sequence of subindices. */
  type Index = seq<int>

  /** A compound index: its component indices, in order. */
  type CompoundIndex = seq<Index>

  /** The wildcard subindex that matches any value at its position. */
  const IDX_ALL: int := -1

  /** The enumeration of the stored indices matching a pattern, in tree order. */
  type Enumeration = (Index, bool) -> seq<Index>

  /**
   * The indices an enumeration yields are at least as long as the pattern
   * they match, which is what taking a sub-index of them relies on.
   */
  ghost predicate KeepsPatternLength(expand: Enumeration) {
    forall p: Index, keep: bool, i: nat :: i < |expand(p, keep)| ==> |expand(p, keep)[i]| >= |p|
  }

  /** The subindices from position `first` to position `last`, both included. */
  function GetSubIndex(i: Index, first: int, last: int): (r: Index)
    requires 0 <= first <= last + 1 <= |i|
    ensures |r| == last - first + 1
    ensures forall n :: 0 <= n < |r| ==> r[n] == i[first + n]
  {
    i[first..last + 1]
  }

  /** Cutting an index at `k` and joining the two sub-indices gives the index back. */
  lemma SubIndexSplit(i: Index, k: nat)
    requires k <= |i|
    ensures GetSubIndex(i, 0, k - 1) + GetSubIndex(i, k, |i| - 1) == i
  {
    assert i[0..k] + i[k..|i|] == i;
  }

  /** An index tree as the extractor uses it: the compound indices added to it. */
  class IndexTree {
    var indices: set<CompoundIndex>
    var linearMapGenerated: bool

    constructor ()
      ensures indices == {} && !linearMapGenerated
    {
      indices := {};
      linearMapGenerated := false;
    }

    /** Add a compound index; adding one already present changes nothing. */
    method Add(c: CompoundIndex)
      modifies this
      ensures indices == old(indices) + {c}
      ensures linearMapGenerated == old(linearMapGenerated)
    {
      indices := indices + {c};
    }

    /** Finalise the tree; the linear offsets themselves are not part of this model. */
    method GenerateLinearMap()
      modifies this
      ensures indices == old(indices) && linearMapGenerated
    {
      linearMapGenerated := true;
    }
  }
}
