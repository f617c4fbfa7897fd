/**
 * The match rule of FaceAuthenticator.verify_face: a frame matches when some face
 * detected in it is within the tolerance of some enrolled encoding. The embedding
 * model's Euclidean distance is an opaque function into the reals.
 */
module FaceMatch {

  /** A face embedding (face_recognition's 128-dimensional vector). */
  type Encoding = seq<real>

  /** The tolerance a FaceAuthenticator starts with. */
  const DefaultTolerance: real := 0.6

  /** face_distance: the distance from each enrolled encoding to one detected encoding. */
  function Distances(known: seq<Encoding>, face: Encoding, distance: (Encoding, Encoding) -> real): (ds: seq<real>)
    ensures |ds| == |known|
    ensures forall i :: 0 <= i < |known| ==> ds[i] == distance(known[i], face)
  {
    seq(|known|, i requires 0 <= i < |known| => distance(known[i], face))
  }

  /** any(face_distances <= tolerance) */
  predicate AnyWithin(ds: seq<real>, tolerance: real) {
    exists i :: 0 <= i < |ds| && ds[i] <= tolerance
  }

  /** Some detected face is within the tolerance of some enrolled encoding. */
  predicate IsMatch(known: seq<Encoding>, detected: seq<Encoding>, distance: (Encoding, Encoding) -> real, tolerance: real) {
    exists j, i :: 0 <= j < |detected| && 0 <= i < |known| && distance(known[i], detected[j]) <= tolerance
  }

  /** Nothing enrolled, or nothing detected: never a match. */
  lemma NothingToCompareNeverMatches(known: seq<Encoding>, detected: seq<Encoding>, distance: (Encoding, Encoding) -> real, tolerance: real)
    requires known == [] || detected == []
    ensures !IsMatch(known, detected, distance, tolerance)
  {
  }

  /** A distance exactly equal to the tolerance is a match; one above it alone is not. */
  lemma ToleranceIsInclusive(known: Encoding, face: Encoding, distance: (Encoding, Encoding) -> real, tolerance: real)
    ensures distance(known, face) == tolerance ==> IsMatch([known], [face], distance, tolerance)
    ensures distance(known, face) > tolerance ==> !IsMatch([known], [face], distance, tolerance)
  {
    if distance(known, face) == tolerance {
      assert [known][0] == known && [face][0] == face;
    }
  }

  /** Loosening the tolerance never turns a match into a mismatch. */
  lemma LooserToleranceKeepsMatches(known: seq<Encoding>, detected: seq<Encoding>, distance: (Encoding, Encoding) -> real, strict: real, loose: real)
    requires strict <= loose
    ensures IsMatch(known, detected, distance, strict) ==> IsMatch(known, detected, distance, loose)
  {
  }
}
