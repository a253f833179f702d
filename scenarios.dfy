/**
 * Concrete end-to-end cases of the vector kernel, derived from the general
 * contracts in `VecOps`.
 */
module Scenarios {
  import opened Wrappers
  import opened VecOps

  /**
   * Items [1, 0], [0, 1] and [1, 1] queried with [1, 0] for the best two:
   * items 0 and 2 tie at 1.0 and come out in index order; item 1 never does.
   */
  lemma TopTwoOfThree(top: seq<Scored>)
    requires IsTopK(Scores([1.0, 0.0], [[1.0, 0.0], [0.0, 1.0], [1.0, 1.0]]), 2, top)
    ensures top == [(0, 1.0), (2, 1.0)]
  {
    var scores := Scores([1.0, 0.0], [[1.0, 0.0], [0.0, 1.0], [1.0, 1.0]]);
    assert scores[0] == Dot([1.0, 0.0], [1.0, 0.0]) == 1.0;
    assert scores[1] == Dot([1.0, 0.0], [0.0, 1.0]) == 0.0;
    assert scores[2] == Dot([1.0, 0.0], [1.0, 1.0]) == 1.0;
    assert scores == [1.0, 0.0, 1.0];
    var expected: seq<Scored> := [(0, 1.0), (2, 1.0)];
    assert Indices(expected) == [0, 2];
    assert IsTopK([1.0, 0.0, 1.0], 2, expected);
    TopKUnique(scores, 2, top, expected);
  }

  /** The centroid of one pair with a positive weight is its embedding, when already in range. */
  lemma {:induction false} SinglePairCentroid(v: seq<real>, w: real)
    requires 0.0 < w
    requires forall j :: 0 <= j < |v| ==> -10.0 <= v[j] <= 10.0
    ensures Centroid([(v, w)]) == Some(v)
  {
    var pairs := [(v, w)];
    assert pairs[..0] == [];
    WeightSumLast(pairs, |v|);
    WeightSumEmpty(|v|);
    assert WeightOf(pairs[0], |v|) == w;
    assert WeightSum(pairs, |v|) == w;
    var mean := seq(|v|, j requires 0 <= j < |v| => WeightedSum(pairs, |v|, j) / w);
    forall j | 0 <= j < |v|
      ensures mean[j] == v[j]
    {
      assert TermOf(pairs[0], |v|, j) == v[j] * w;
      assert WeightedSum(pairs, |v|, j) == v[j] * w;
    }
    assert mean == v;
    ClippedInRange(v, 10.0);
  }

  /**
   * One liked item [1, 0] with weight 2 and one disliked item [0, 1] with
   * weight 1 give the taste query [1, -1].
   */
  lemma OneLikedOneDisliked()
    ensures Centroid([([1.0, 0.0], 2.0)]) == Some([1.0, 0.0])
    ensures Centroid([([0.0, 1.0], 1.0)]) == Some([0.0, 1.0])
    ensures TasteQuery(Some([1.0, 0.0]), Some([0.0, 1.0])) == Some([1.0, -1.0])
  {
    SinglePairCentroid([1.0, 0.0], 2.0);
    SinglePairCentroid([0.0, 1.0], 1.0);
    var combined := Combined([1.0, 0.0], [0.0, 1.0]);
    assert combined == [1.0, -1.0];
    ClippedInRange(combined, CLIP_VALUE);
  }

  /**
   * The dimension comes from the first pair even when its weight is 0: a
   * well-formed pair of another length is then skipped, and nothing is left.
   */
  lemma FirstPairFixesDimension()
    ensures Centroid([([1.0, 2.0, 3.0], 0.0), ([4.0, 5.0], 1.0)]).None?
  {
    var pairs := [([1.0, 2.0, 3.0], 0.0), ([4.0, 5.0], 1.0)];
    assert !Kept(pairs[0], 3) && !Kept(pairs[1], 3);
    CentroidNoneIff(pairs);
  }
}
