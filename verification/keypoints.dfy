/** The feature vector the classifier sees: the keypoints of one detected
    pose, flattened to x0, y0, x1, y1, ... in keypoint order. The drawing
    side builds it to classify a pose and the training side builds it to
    record a sample, with the same loop. */
module Keypoints {

  /** The position of one body keypoint, in pixels. */
  datatype Keypoint = Keypoint(x: real, y: real)

  /** One pose as the detector reports it: its keypoints in detector order. */
  datatype Pose = Pose(keypoints: seq<Keypoint>)

  /** The reference encoding: two coordinates per keypoint, x before y, in
      keypoint order. */
  function Flatten(kps: seq<Keypoint>): (r: seq<real>)
    ensures |r| == 2 * |kps|
    ensures forall i :: 0 <= i < |kps| ==> r[2 * i] == kps[i].x && r[2 * i + 1] == kps[i].y
  {
    if kps == [] then [] else [kps[0].x, kps[0].y] + Flatten(kps[1..])
  }

  /** Flattening distributes over concatenation. */
  lemma {:induction false} FlattenAppend(a: seq<Keypoint>, b: seq<Keypoint>)
    ensures Flatten(a + b) == Flatten(a) + Flatten(b)
  {
    if a == [] {
      assert a + b == b;
    } else {
      assert (a + b)[1..] == a[1..] + b;
      FlattenAppend(a[1..], b);
    }
  }

  /** Reads a vector of even length back as keypoints, pair by pair. */
  function Unflatten(v: seq<real>): (kps: seq<Keypoint>)
    requires |v| % 2 == 0
    ensures |kps| == |v| / 2
    ensures forall i :: 0 <= i < |kps| ==> kps[i] == Keypoint(v[2 * i], v[2 * i + 1])
  {
    if v == [] then [] else [Keypoint(v[0], v[1])] + Unflatten(v[2..])
  }

  /** The encoding loses nothing: the keypoints can be read back from the
      vector. */
  lemma FlattenUnflatten(kps: seq<Keypoint>)
    ensures Unflatten(Flatten(kps)) == kps
  {
    var r := Unflatten(Flatten(kps));
    assert |r| == |kps|;
    assert forall i :: 0 <= i < |kps| ==> r[i] == kps[i];
  }

  /** Every vector of even length is the encoding of exactly one keypoint
      sequence. */
  lemma {:induction false} UnflattenFlatten(v: seq<real>)
    requires |v| % 2 == 0
    ensures Flatten(Unflatten(v)) == v
    decreases |v|
  {
    if v != [] {
      var kps := Unflatten(v);
      UnflattenFlatten(v[2..]);
      assert kps[1..] == Unflatten(v[2..]);
      assert v == [v[0], v[1]] + v[2..];
    }
  }

  /** Two poses give the same vector only when their keypoints agree. */
  lemma FlattenInjective(a: seq<Keypoint>, b: seq<Keypoint>)
    requires Flatten(a) == Flatten(b)
    ensures a == b
  {
    FlattenUnflatten(a);
    FlattenUnflatten(b);
  }

  /** The loop that builds the classifier inputs: push x, then y, for every
      keypoint in order. */
  method KeypointInputs(pose: Pose) returns (inputs: seq<real>)
    ensures inputs == Flatten(pose.keypoints)
    ensures |inputs| == 2 * |pose.keypoints|
  {
    inputs := [];
    var i := 0;
    while i < |pose.keypoints|
      invariant 0 <= i <= |pose.keypoints|
      invariant inputs == Flatten(pose.keypoints[..i])
    {
      var x := pose.keypoints[i].x;
      var y := pose.keypoints[i].y;
      inputs := inputs + [x];
      inputs := inputs + [y];
      assert pose.keypoints[..i + 1] == pose.keypoints[..i] + [pose.keypoints[i]];
      FlattenAppend(pose.keypoints[..i], [pose.keypoints[i]]);
      i := i + 1;
    }
    assert pose.keypoints[..i] == pose.keypoints;
  }
}
