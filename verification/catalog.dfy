/** The fixed catalogue of the nine poses the classifier is trained on, in the
    order the drawing code and the training table list them. */
module Catalog {

  const Poses: seq<string> := [
    "Hands & legs separated",
    "Half squat - upper body flex",
    "Stretch Hands straight up",
    "Candle Pose",
    "Huddle Pose",
    "Left-leg & right-arm triangles",
    "Halo around your head",
    "Stretch back (right side)",
    "Stretch back (left side)"
  ]

  /** No two entries of a sequence are equal. */
  predicate Distinct<T(==)>(s: seq<T>) {
    forall i, j :: 0 <= i < |s| && 0 <= j < |s| && i != j ==> s[i] != s[j]
  }

  /** The catalogue has nine entries, all non-empty and pairwise distinct. */
  lemma PosesWellFormed()
    ensures |Poses| == 9
    ensures Distinct(Poses)
    ensures forall i :: 0 <= i < |Poses| ==> Poses[i] != ""
  {
    // The names already differ in their first or second character or in length.
    assert forall i :: 0 <= i < |Poses| ==> |Poses[i]| >= 11;
  }
}
