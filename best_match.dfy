/** The running best-match records of `Posture.imageflow` in posture.py:
    for each of the three reference postures, the frame whose skeleton is
    closest to it, kept as a minimum with strict replacement that starts from
    a 1000.0 sentinel. */
module BestMatch {
  import opened Base
  import opened Skeleton

  /** The three reference postures, each with its own `.txt` skeleton. */
  datatype Posture = TakeOff | HipExtension | AbdominalContraction

  /** The initial `'d'` of every record. */
  const Sentinel: real := 1000.0

  /** `self.weight` and `self.threshold`. */
  const Weights: seq<real> := [0.3, 0.5, 0.2]
  const Threshold: real := 1.0

  /** One record `{'d', 'points', 'frame_id', 'angles'}`; `frameId` is `None`
      while the record still holds the initial `[]`. */
  datatype Match = Match(d: real, points: seq<Point>, frameId: Option<nat>, angles: seq<real>)

  /** A record as it is initialised. */
  function NoMatch(): Match
  {
    Match(Sentinel, [], None, [])
  }

  /** A frame read from the video: the pose landmarks when a pose was found,
      and whether 'q' was pressed after it. */
  type PoseFrame = Read<Option<seq<Landmark>>>

  /** What the scan is given besides the frames: the reference skeleton read
      from each posture's `.txt` file, and the uninterpreted numerics. */
  datatype Setup = Setup(standards: Posture -> seq<Point>, num: Numerics)

  /** Every reference skeleton has the joints the angles read. */
  predicate WellFormed(setup: Setup)
  {
    forall t :: |setup.standards(t)| > 14
  }

  /** A detected pose has all 33 landmarks. */
  predicate FullPoses(frames: seq<PoseFrame>)
  {
    forall i :: 0 <= i < |frames| && frames[i].content.Some? ==> |frames[i].content.value| > 32
  }

  /** The distance of one detected pose to posture `t`. */
  function Candidate(landmarks: seq<Landmark>, t: Posture, setup: Setup): Scored
    requires |landmarks| > 32 && WellFormed(setup)
  {
    CalculateDistance(SkeletonOf(landmarks), setup.standards(t), Weights, Threshold, setup.num)
  }

  /** The record frame `index` with the given landmarks makes for posture `t`. */
  function Record(landmarks: seq<Landmark>, index: nat, t: Posture, setup: Setup): Match
    requires |landmarks| > 32 && WellFormed(setup)
  {
    var c := Candidate(landmarks, t, setup);
    Match(c.distance, SkeletonOf(landmarks), Some(index), c.angles)
  }

  /** The frame brings a pose that beats the record `m` strictly. */
  predicate Beats(frame: PoseFrame, m: Match, t: Posture, setup: Setup)
    requires WellFormed(setup)
    requires frame.content.Some? ==> |frame.content.value| > 32
  {
    frame.content.Some? && m.d > Candidate(frame.content.value, t, setup).distance
  }

  /** The record after one more frame: replaced only on a strictly smaller distance. */
  function Step(m: Match, frame: PoseFrame, index: nat, t: Posture, setup: Setup): Match
    requires WellFormed(setup)
    requires frame.content.Some? ==> |frame.content.value| > 32
  {
    if Beats(frame, m, t, setup) then Record(frame.content.value, index, t, setup) else m
  }

  /** The record for posture `t` after the given frames, frame `i` having id `i`. */
  function Best(frames: seq<PoseFrame>, t: Posture, setup: Setup): Match
    requires WellFormed(setup) && FullPoses(frames)
  {
    if frames == [] then NoMatch()
    else
      var n := |frames| - 1;
      Step(Best(frames[..n], t, setup), frames[n], n, t, setup)
  }

  /** A prefix of the frames has full poses too. */
  lemma FullPosesPrefix(frames: seq<PoseFrame>, i: nat)
    requires FullPoses(frames) && i <= |frames|
    ensures FullPoses(frames[..i])
  {
    forall j | 0 <= j < i && frames[..i][j].content.Some? ensures |frames[..i][j].content.value| > 32 {
      assert frames[..i][j] == frames[j];
    }
  }

  /** The fold over one more frame is one more step. */
  lemma BestSnoc(frames: seq<PoseFrame>, i: nat, t: Posture, setup: Setup)
    requires WellFormed(setup) && FullPoses(frames) && i < |frames|
    ensures FullPoses(frames[..i]) && FullPoses(frames[..i + 1])
    ensures Best(frames[..i + 1], t, setup) == Step(Best(frames[..i], t, setup), frames[i], i, t, setup)
  {
    FullPosesPrefix(frames, i);
    FullPosesPrefix(frames, i + 1);
    assert frames[..i + 1][..i] == frames[..i];
  }

  /** The distance to `t` of the pose in a frame, `None` when it has none. */
  function DistanceOf(frame: PoseFrame, t: Posture, setup: Setup): Option<real>
    requires WellFormed(setup)
    requires frame.content.Some? ==> |frame.content.value| > 32
  {
    if frame.content.Some? then Some(Candidate(frame.content.value, t, setup).distance) else None
  }

  /** The distances of all frames to `t`, in frame order. */
  function Distances(frames: seq<PoseFrame>, t: Posture, setup: Setup): (ds: seq<Option<real>>)
    requires WellFormed(setup) && FullPoses(frames)
    ensures |ds| == |frames|
  {
    if frames == [] then []
    else
      var n := |frames| - 1;
      Distances(frames[..n], t, setup) + [DistanceOf(frames[n], t, setup)]
  }

  /** Entry `i` of the distances is the distance of frame `i`. */
  lemma {:induction false} DistancesAt(frames: seq<PoseFrame>, t: Posture, setup: Setup)
    requires WellFormed(setup) && FullPoses(frames)
    ensures forall i :: 0 <= i < |frames| ==> Distances(frames, t, setup)[i] == DistanceOf(frames[i], t, setup)
  {
    if frames != [] {
      var n := |frames| - 1;
      FullPosesPrefix(frames, n);
      DistancesAt(frames[..n], t, setup);
      assert forall i :: 0 <= i < n ==> frames[..n][i] == frames[i];
    }
  }

  /** A smallest distance and the index it was seen at, `None` for the sentinel. */
  datatype Least = Least(d: real, at: Option<nat>)

  /** One strict-replacement step of a running minimum. */
  function LeastStep(l: Least, x: Option<real>, index: nat): Least
  {
    if x.Some? && l.d > x.value then Least(x.value, Some(index)) else l
  }

  /** The running minimum over a sequence of optional distances, from the sentinel. */
  function RunningLeast(ds: seq<Option<real>>): Least
  {
    if ds == [] then Least(Sentinel, None)
    else
      var n := |ds| - 1;
      LeastStep(RunningLeast(ds[..n]), ds[n], n)
  }

  predicate AtLeast(x: Option<real>, bound: real)
  {
    x.Some? ==> x.value >= bound
  }

  predicate Exceeds(x: Option<real>, bound: real)
  {
    x.Some? ==> x.value > bound
  }

  /** `l` is the first minimum of `ds`: the sentinel when nothing lies below
      it, otherwise the smallest value, at the first index holding it. */
  ghost predicate IsFirstLeast(l: Least, ds: seq<Option<real>>)
  {
    if forall i :: 0 <= i < |ds| ==> AtLeast(ds[i], Sentinel) then l == Least(Sentinel, None)
    else
      && l.at.Some?
      && l.at.value < |ds|
      && ds[l.at.value] == Some(l.d)
      && l.d < Sentinel
      && (forall j :: 0 <= j < |ds| ==> AtLeast(ds[j], l.d))
      && (forall j :: 0 <= j < l.at.value ==> Exceeds(ds[j], l.d))
  }

  /** The running minimum with strict replacement is the first minimum. */
  lemma {:induction false} RunningLeastIsFirstLeast(ds: seq<Option<real>>)
    ensures IsFirstLeast(RunningLeast(ds), ds)
  {
    if ds != [] {
      var n := |ds| - 1;
      var front := ds[..n];
      RunningLeastIsFirstLeast(front);
      var l := RunningLeast(front);
      assert l.d <= Sentinel;
      assert forall j :: 0 <= j < n ==> AtLeast(front[j], l.d);
      assert forall j :: 0 <= j < n ==> front[j] == ds[j];
      if ds[n].Some? && l.d > ds[n].value {
        assert !AtLeast(ds[n], Sentinel);
        assert forall j :: 0 <= j < n ==> Exceeds(ds[j], ds[n].value);
      } else if forall i :: 0 <= i < n ==> AtLeast(front[i], Sentinel) {
        assert AtLeast(ds[n], Sentinel);
      } else {
        var i :| 0 <= i < n && !AtLeast(front[i], Sentinel);
        assert !AtLeast(ds[i], Sentinel);
      }
    }
  }

  /** The first minimum of a sequence is unique. */
  lemma FirstLeastUnique(l1: Least, l2: Least, ds: seq<Option<real>>)
    requires IsFirstLeast(l1, ds) && IsFirstLeast(l2, ds)
    ensures l1 == l2
  {
    if !forall i :: 0 <= i < |ds| ==> AtLeast(ds[i], Sentinel) {
      var i1, i2 := l1.at.value, l2.at.value;
      assert AtLeast(ds[i2], l1.d) && AtLeast(ds[i1], l2.d);
      assert l1.d == l2.d;
      assert !Exceeds(ds[i1], l2.d) && !Exceeds(ds[i2], l1.d);
      assert i1 == i2;
    }
  }

  /** The records agree with the running minimum of the distances, and a
      record that was replaced holds the skeleton, id and angles of the frame
      it points at. */
  ghost predicate RecordOf(m: Match, frames: seq<PoseFrame>, t: Posture, setup: Setup)
    requires WellFormed(setup) && FullPoses(frames)
  {
    match m.frameId
    case None => m == NoMatch()
    case Some(i) => i < |frames| && frames[i].content.Some? && m == Record(frames[i].content.value, i, t, setup)
  }

  /** `m` is the record `imageflow` keeps: the initial one when no pose came
      below the sentinel, otherwise the record of the first frame of smallest
      distance. */
  ghost predicate FirstMinimum(m: Match, frames: seq<PoseFrame>, t: Posture, setup: Setup)
    requires WellFormed(setup) && FullPoses(frames)
  {
    IsFirstLeast(Least(m.d, m.frameId), Distances(frames, t, setup)) && RecordOf(m, frames, t, setup)
  }

  /** The record fold follows the running minimum of the distances. */
  lemma {:induction false} BestFollowsLeast(frames: seq<PoseFrame>, t: Posture, setup: Setup)
    requires WellFormed(setup) && FullPoses(frames)
    ensures Least(Best(frames, t, setup).d, Best(frames, t, setup).frameId) == RunningLeast(Distances(frames, t, setup))
  {
    if frames != [] {
      var n := |frames| - 1;
      FullPosesPrefix(frames, n);
      BestFollowsLeast(frames[..n], t, setup);
      var ds := Distances(frames, t, setup);
      assert ds[..n] == Distances(frames[..n], t, setup);
    }
  }

  /** Every record the fold produces is the initial one or that of a scanned frame. */
  lemma {:induction false} BestIsRecord(frames: seq<PoseFrame>, t: Posture, setup: Setup)
    requires WellFormed(setup) && FullPoses(frames)
    ensures RecordOf(Best(frames, t, setup), frames, t, setup)
  {
    if frames != [] {
      var n := |frames| - 1;
      FullPosesPrefix(frames, n);
      BestIsRecord(frames[..n], t, setup);
      var m := Best(frames[..n], t, setup);
      if m.frameId.Some? {
        assert frames[..n][m.frameId.value] == frames[m.frameId.value];
      }
    }
  }

  /** The fold computes the first minimum. */
  lemma BestIsFirstMinimum(frames: seq<PoseFrame>, t: Posture, setup: Setup)
    requires WellFormed(setup) && FullPoses(frames)
    ensures FirstMinimum(Best(frames, t, setup), frames, t, setup)
  {
    BestFollowsLeast(frames, t, setup);
    BestIsRecord(frames, t, setup);
    RunningLeastIsFirstLeast(Distances(frames, t, setup));
  }

  /** The characterisation pins the record down: two records that are both
      the first minimum of the same frames are equal. */
  lemma FirstMinimumUnique(m1: Match, m2: Match, frames: seq<PoseFrame>, t: Posture, setup: Setup)
    requires WellFormed(setup) && FullPoses(frames)
    requires FirstMinimum(m1, frames, t, setup) && FirstMinimum(m2, frames, t, setup)
    ensures m1 == m2
  {
    FirstLeastUnique(Least(m1.d, m1.frameId), Least(m2.d, m2.frameId), Distances(frames, t, setup));
  }

  /** The stored distance is non-increasing over the scan. */
  lemma {:induction false} BestNonIncreasing(frames: seq<PoseFrame>, i: nat, t: Posture, setup: Setup)
    requires WellFormed(setup) && FullPoses(frames) && i <= |frames|
    ensures FullPoses(frames[..i])
    ensures Best(frames, t, setup).d <= Best(frames[..i], t, setup).d
  {
    FullPosesPrefix(frames, i);
    if i < |frames| {
      var n := |frames| - 1;
      FullPosesPrefix(frames, n);
      assert frames[..n][..i] == frames[..i];
      BestNonIncreasing(frames[..n], i, t, setup);
    } else {
      assert frames[..i] == frames;
    }
  }

  /** A frame is never replaced by a later one at equal distance: on a tie the
      earlier frame is kept. */
  lemma TieKeepsEarlier(m: Match, frame: PoseFrame, index: nat, t: Posture, setup: Setup)
    requires WellFormed(setup) && frame.content.Some? && |frame.content.value| > 32
    requires Candidate(frame.content.value, t, setup).distance == m.d
    ensures Step(m, frame, index, t, setup) == m
  {
  }

  /** The number of frames the scan processes: up to and including the one
      after which 'q' was pressed, else all of them. */
  function Scanned(frames: seq<PoseFrame>): (n: nat)
    ensures n <= |frames|
    ensures n == |frames| || (n == QuitIndex(frames) + 1 && frames[n - 1].quit)
    ensures QuitIndex(frames) < |frames| ==> n == QuitIndex(frames) + 1
  {
    var q := QuitIndex(frames);
    if q < |frames| then q + 1 else |frames|
  }

  /** The frame loop of `imageflow` as far as the three records and `frame_id`
      go. `frames` are the successful reads; the read after the last fails. */
  method ScanVideo(frames: seq<PoseFrame>, setup: Setup)
    returns (takeOff: Match, hipExtension: Match, abdominalContraction: Match, frameId: nat)
    requires WellFormed(setup) && FullPoses(frames)
    ensures frameId == QuitIndex(frames)
    ensures FullPoses(frames[..Scanned(frames)])
    ensures takeOff == Best(frames[..Scanned(frames)], TakeOff, setup)
    ensures hipExtension == Best(frames[..Scanned(frames)], HipExtension, setup)
    ensures abdominalContraction == Best(frames[..Scanned(frames)], AbdominalContraction, setup)
  {
    frameId := 0;
    takeOff := Match(1000.0, [], None, []);
    hipExtension := Match(1000.0, [], None, []);
    abdominalContraction := Match(1000.0, [], None, []);
    while true
      invariant frameId <= QuitIndex(frames)
      invariant FullPoses(frames[..frameId])
      invariant takeOff == Best(frames[..frameId], TakeOff, setup)
      invariant hipExtension == Best(frames[..frameId], HipExtension, setup)
      invariant abdominalContraction == Best(frames[..frameId], AbdominalContraction, setup)
      decreases |frames| - frameId
    {
      if frameId == |frames| {
        assert frames[..Scanned(frames)] == frames[..frameId];
        break;
      }
      var frame := frames[frameId];
      BestSnoc(frames, frameId, TakeOff, setup);
      BestSnoc(frames, frameId, HipExtension, setup);
      BestSnoc(frames, frameId, AbdominalContraction, setup);
      if frame.content.Some? {
        var landmarks := frame.content.value;
        var normalizedPoints := ConstructPoint(landmarks);
        var r1 := CalculateDistance(normalizedPoints, setup.standards(TakeOff), Weights, Threshold, setup.num);
        var r2 := CalculateDistance(normalizedPoints, setup.standards(HipExtension), Weights, Threshold, setup.num);
        var r3 := CalculateDistance(normalizedPoints, setup.standards(AbdominalContraction), Weights, Threshold, setup.num);
        if takeOff.d > r1.distance {
          takeOff := takeOff.(d := r1.distance, points := normalizedPoints, frameId := Some(frameId), angles := r1.angles);
        }
        if hipExtension.d > r2.distance {
          hipExtension := hipExtension.(d := r2.distance, points := normalizedPoints, frameId := Some(frameId), angles := r2.angles);
        }
        if abdominalContraction.d > r3.distance {
          abdominalContraction := abdominalContraction.(d := r3.distance, points := normalizedPoints, frameId := Some(frameId), angles := r3.angles);
        }
      }
      if frame.quit {
        assert Scanned(frames) == frameId + 1;
        break;
      }
      frameId := frameId + 1;
    }
  }
}
