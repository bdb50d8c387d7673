/** The fall rule of the pipeline: two fixed keypoints of the pose output, each compared
    strictly against a constant vertical level. */
module FallClassifier {

  /** One keypoint set: a sequence of points, each a sequence of coordinates (x, y, ...). */
  type Keypoints = seq<seq<real>>

  /** The pose estimator's output; its first entry holds the keypoints. */
  type PoseOutput = seq<Keypoints>

  /** Normalised vertical level below which a point counts as "near the ground". */
  const FallLevel: real := 0.8

  const HeadIndex: nat := 0
  const TorsoIndex: nat := 1

  /** What the rule indexes without checking: an entry 0 holding keypoints 0 and 1,
      each with a y coordinate at position 1. */
  predicate HasHeadAndTorso(p: PoseOutput)
  {
    |p| > 0 && |p[0]| > TorsoIndex && |p[0][HeadIndex]| > 1 && |p[0][TorsoIndex]| > 1
  }

  function HeadY(p: PoseOutput): real
    requires HasHeadAndTorso(p)
  {
    p[0][HeadIndex][1]
  }

  function TorsoY(p: PoseOutput): real
    requires HasHeadAndTorso(p)
  {
    p[0][TorsoIndex][1]
  }

  /** A fall: head and torso both strictly below the fall level, that is the y coordinates
      of keypoints 0 and 1 of entry 0 both strictly above 0.8. */
  predicate IsFall(p: PoseOutput): (fall: bool)
    requires HasHeadAndTorso(p)
    ensures fall <==> p[0][0][1] > 0.8 && p[0][1][1] > 0.8
  {
    HeadY(p) > FallLevel && TorsoY(p) > FallLevel
  }

  /** Stated on the raw shape of the output: only the y coordinates of the first two
      keypoints of entry 0 decide, both must exceed 0.8, and nothing else is looked at. */
  lemma ClassifyPose(head: seq<real>, torso: seq<real>, others: Keypoints, rest: seq<Keypoints>)
    requires |head| > 1 && |torso| > 1
    ensures HasHeadAndTorso([[head, torso] + others] + rest)
    ensures IsFall([[head, torso] + others] + rest) <==> head[1] > 0.8 && torso[1] > 0.8
  {
  }

  /** The comparisons are strict: a head or torso exactly at the fall level is not a fall. */
  lemma LevelIsNotBelow(p: PoseOutput)
    requires HasHeadAndTorso(p)
    requires HeadY(p) <= FallLevel || TorsoY(p) <= FallLevel
    ensures !IsFall(p)
  {
  }

  /** Lowering both points further never undoes a fall. */
  lemma FallIsMonotone(p: PoseOutput, p': PoseOutput)
    requires HasHeadAndTorso(p) && HasHeadAndTorso(p')
    requires HeadY(p) <= HeadY(p') && TorsoY(p) <= TorsoY(p')
    ensures IsFall(p) ==> IsFall(p')
  {
  }

  /** Head and torso y values (0.9, 0.85) and (0.85, 0.82) are falls; (0.5, 0.9), (0.3, 0.82)
      and (0.8, 0.9) are not, the last because 0.8 itself is not above the level. */
  lemma ClassifierExamples()
    ensures IsFall([[[0.0, 0.9], [0.0, 0.85]]])
    ensures IsFall([[[0.0, 0.85], [0.0, 0.82]]])
    ensures !IsFall([[[0.0, 0.5], [0.0, 0.9]]])
    ensures !IsFall([[[0.0, 0.3], [0.0, 0.82]]])
    ensures !IsFall([[[0.0, 0.8], [0.0, 0.9]]])
  {
  }
}
