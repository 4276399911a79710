/** The speed measurement of `VideoThread.run` (video_thread.py): per frame,
    every tracked box is probed against the zone mask at one point, track ids
    are recorded the first time they reach the blue (entry) or yellow (exit)
    zone, and the frame gap between the latest new entry and the latest new
    exit gives the speed over the fixed 4 m between the zones.

    The loop's locals are gathered in `State`; `Run` is the loop as a pure
    function of its inputs and `MeasureSpeed` is the loop itself. */
module Crossing {
  import opened Base
  import opened TrackerAdapter
  import opened ZoneMask

  /** Metres between the two zones. */
  const Distance: real := 4.0

  /** The locals of the loop. */
  datatype State = State(
    blue: seq<int>,     // list_overlapping_blue_polygon
    yellow: seq<int>,   // list_overlapping_yellow_polygon
    count: int,
    k: int,
    speed: real,
    start: int,
    ending: int,
    frameNumber: int)

  /** The values the loop starts from. */
  function Initial(): State
  {
    State([], [], 0, 0, 0.0, 0, 0, 0)
  }

  /** A frame that was read: the tracked boxes the detector and tracker
      yield for it, and whether 'q' was pressed. */
  type Frame = Read<seq<TrackedBox>>

  /** The zone code under a box's single probe point: column x1, row y2. */
  function ProbeCode(mask: Mask, b: TrackedBox): int
  {
    mask(b.y2, b.x1)
  }

  /** The speed for an interval of `k` frames. */
  function SpeedFor(fps: real, k: int): real
    requires k > 0
  {
    Distance * fps / (k as real)
  }

  /** The body of the inner `for item_bbox in list_bboxs` loop. */
  function ObserveBox(s: State, b: TrackedBox, mask: Mask): State
  {
    var code := ProbeCode(mask, b);
    if code == EntryZone then
      if b.trackId !in s.blue
      then s.(count := s.count + 1, blue := s.blue + [b.trackId], start := s.frameNumber)
      else s
    else if code == ExitZone then
      if b.trackId !in s.yellow
      then s.(count := s.count + 1, ending := s.frameNumber, yellow := s.yellow + [b.trackId])
      else s
    else s
  }

  /** The inner loop over a frame's boxes, in order. */
  function ObserveBoxes(s: State, boxes: seq<TrackedBox>, mask: Mask): State
    decreases |boxes|
  {
    if boxes == [] then s
    else ObserveBox(ObserveBoxes(s, boxes[..|boxes| - 1], mask), boxes[|boxes| - 1], mask)
  }

  /** `k = ending - start`, and a new speed only for a positive interval. */
  function UpdateSpeed(s: State, fps: real): State
  {
    var k := s.ending - s.start;
    if k > 0 then s.(k := k, speed := SpeedFor(fps, k)) else s.(k := k)
  }

  /** One pass of the loop over a frame that was read: `frame_number` is
      incremented before the read, then the boxes are observed and the
      interval recomputed. */
  function ProcessFrame(s: State, boxes: seq<TrackedBox>, mask: Mask, fps: real): State
  {
    UpdateSpeed(ObserveBoxes(s.(frameNumber := s.frameNumber + 1), boxes, mask), fps)
  }

  /** Passes over a run of frames that were all read. */
  function ProcessFrames(s: State, frames: seq<Frame>, mask: Mask, fps: real): State
    decreases |frames|
  {
    if frames == [] then s
    else ProcessFrame(ProcessFrames(s, frames[..|frames| - 1], mask, fps), frames[|frames| - 1].content, mask, fps)
  }

  /** The whole loop: it stops after the frame where 'q' is pressed, or on the
      failed read that follows the last frame, which still increments
      `frame_number`. */
  function Run(frames: seq<Frame>, mask: Mask, fps: real): State
  {
    var q := QuitIndex(frames);
    if q < |frames| then ProcessFrames(Initial(), frames[..q + 1], mask, fps)
    else
      var s := ProcessFrames(Initial(), frames, mask, fps);
      s.(frameNumber := s.frameNumber + 1)
  }

  // ---------------------------------------------------------------------
  // Invariants of the crossing state

  /** `speed` holds a value computed from some positive interval. */
  predicate SpeedFrom(speed: real, fps: real, k: int)
  {
    k > 0 && speed == SpeedFor(fps, k)
  }

  /** What holds of the zone lists and marks at every point of the loop. */
  ghost predicate Bookkeeping(s: State)
  {
    && NoDuplicates(s.blue) && NoDuplicates(s.yellow)
    && s.count == |s.blue| + |s.yellow|
    && 0 <= s.start <= s.frameNumber && 0 <= s.ending <= s.frameNumber
    && (s.blue == [] ==> s.start == 0)
    && (s.yellow == [] ==> s.ending == 0)
  }

  /** What holds between two frames: the bookkeeping, `k` is the current
      interval, a positive interval has its speed, and the speed is 0 or was
      computed from some positive interval. */
  ghost predicate Valid(s: State, fps: real)
  {
    && Bookkeeping(s)
    && s.k == s.ending - s.start
    && (s.k > 0 ==> s.speed == SpeedFor(fps, s.k))
    && (s.speed == 0.0 || exists k :: SpeedFrom(s.speed, fps, k))
  }

  /** Some box of the frame hits zone `code` with an id not in `seen`. */
  ghost predicate HasNewId(seen: seq<int>, boxes: seq<TrackedBox>, mask: Mask, code: int)
  {
    exists b :: b in boxes && ProbeCode(mask, b) == code && b.trackId !in seen
  }

  /** Some box of the frame hits zone `code` with id `id`. */
  ghost predicate HitBy(id: int, boxes: seq<TrackedBox>, mask: Mask, code: int)
  {
    exists b :: b in boxes && ProbeCode(mask, b) == code && b.trackId == id
  }

  // ---------------------------------------------------------------------
  // One box

  /** The zone rules for one box: a recorded id in its zone changes nothing,
      a box in the blue zone never touches the yellow record, a box outside
      both zones changes nothing, and observing the same box twice is the
      same as observing it once. */
  lemma ObserveBoxRules(s: State, b: TrackedBox, mask: Mask)
    ensures ProbeCode(mask, b) == EntryZone && b.trackId in s.blue ==> ObserveBox(s, b, mask) == s
    ensures ProbeCode(mask, b) == ExitZone && b.trackId in s.yellow ==> ObserveBox(s, b, mask) == s
    ensures ProbeCode(mask, b) == EntryZone ==>
      ObserveBox(s, b, mask).yellow == s.yellow && ObserveBox(s, b, mask).ending == s.ending
    ensures ProbeCode(mask, b) == ExitZone ==>
      ObserveBox(s, b, mask).blue == s.blue && ObserveBox(s, b, mask).start == s.start
    ensures ProbeCode(mask, b) != EntryZone && ProbeCode(mask, b) != ExitZone ==> ObserveBox(s, b, mask) == s
    ensures ObserveBox(ObserveBox(s, b, mask), b, mask) == ObserveBox(s, b, mask)
  {
  }

  /** One box keeps the bookkeeping and adds at most one id to one list. */
  lemma ObserveBoxKeeps(s: State, b: TrackedBox, mask: Mask)
    requires Bookkeeping(s)
    ensures var t := ObserveBox(s, b, mask);
      && Bookkeeping(t)
      && t.frameNumber == s.frameNumber && t.k == s.k && t.speed == s.speed
      && s.blue <= t.blue && s.yellow <= t.yellow
      && |t.blue| + |t.yellow| <= |s.blue| + |s.yellow| + 1
  {
    var t := ObserveBox(s, b, mask);
    if ProbeCode(mask, b) == EntryZone && b.trackId !in s.blue {
      assert forall i :: 0 <= i < |s.blue| ==> t.blue[i] == s.blue[i];
    } else if ProbeCode(mask, b) == ExitZone && b.trackId !in s.yellow {
      assert forall i :: 0 <= i < |s.yellow| ==> t.yellow[i] == s.yellow[i];
    }
  }

  // ---------------------------------------------------------------------
  // One frame's boxes

  /** The inner loop keeps the bookkeeping, only extends the two lists, and
      ends with exactly the ids recorded before plus those of the frame's
      boxes that hit each zone. */
  lemma {:induction false} ObserveBoxesMembers(s: State, boxes: seq<TrackedBox>, mask: Mask)
    requires Bookkeeping(s)
    ensures var t := ObserveBoxes(s, boxes, mask);
      && Bookkeeping(t)
      && t.frameNumber == s.frameNumber && t.k == s.k && t.speed == s.speed
      && s.blue <= t.blue && s.yellow <= t.yellow
      && (forall id :: id in t.blue <==> id in s.blue || HitBy(id, boxes, mask, EntryZone))
      && (forall id :: id in t.yellow <==> id in s.yellow || HitBy(id, boxes, mask, ExitZone))
  {
    if boxes != [] {
      var front := boxes[..|boxes| - 1];
      var b := boxes[|boxes| - 1];
      assert boxes == front + [b];
      ObserveBoxesMembers(s, front, mask);
      var u := ObserveBoxes(s, front, mask);
      ObserveBoxKeeps(u, b, mask);
      var t := ObserveBox(u, b, mask);
      forall id ensures id in t.blue <==> id in s.blue || HitBy(id, boxes, mask, EntryZone) {
        if HitBy(id, front, mask, EntryZone) {
          var w :| w in front && ProbeCode(mask, w) == EntryZone && w.trackId == id;
          assert w in boxes;
        }
        if HitBy(id, boxes, mask, EntryZone) && !HitBy(id, front, mask, EntryZone) {
          var w :| w in boxes && ProbeCode(mask, w) == EntryZone && w.trackId == id;
          assert w == b;
        }
      }
      forall id ensures id in t.yellow <==> id in s.yellow || HitBy(id, boxes, mask, ExitZone) {
        if HitBy(id, front, mask, ExitZone) {
          var w :| w in front && ProbeCode(mask, w) == ExitZone && w.trackId == id;
          assert w in boxes;
        }
        if HitBy(id, boxes, mask, ExitZone) && !HitBy(id, front, mask, ExitZone) {
          var w :| w in boxes && ProbeCode(mask, w) == ExitZone && w.trackId == id;
          assert w == b;
        }
      }
    }
  }

  /** After the inner loop, `start` is the current frame number exactly when
      some box of the frame brought a blue id not recorded before the frame,
      and is unchanged otherwise. */
  lemma {:induction false} ObserveBoxesStart(s: State, boxes: seq<TrackedBox>, mask: Mask)
    requires Bookkeeping(s)
    ensures ObserveBoxes(s, boxes, mask).start ==
      if HasNewId(s.blue, boxes, mask, EntryZone) then s.frameNumber else s.start
  {
    if boxes != [] {
      var front := boxes[..|boxes| - 1];
      var b := boxes[|boxes| - 1];
      assert boxes == front + [b];
      ObserveBoxesStart(s, front, mask);
      ObserveBoxesMembers(s, front, mask);
      var u := ObserveBoxes(s, front, mask);
      assert forall w :: w in front ==> w in boxes;
      if HasNewId(s.blue, boxes, mask, EntryZone) && !HasNewId(s.blue, front, mask, EntryZone) {
        var w :| w in boxes && ProbeCode(mask, w) == EntryZone && w.trackId !in s.blue;
        assert w == b;
        assert !HitBy(b.trackId, front, mask, EntryZone);
        assert b.trackId !in u.blue;
      }
    }
  }

  /** After the inner loop, `ending` is the current frame number exactly when
      some box of the frame brought a yellow id not recorded before the frame,
      and is unchanged otherwise. */
  lemma {:induction false} ObserveBoxesEnding(s: State, boxes: seq<TrackedBox>, mask: Mask)
    requires Bookkeeping(s)
    ensures ObserveBoxes(s, boxes, mask).ending ==
      if HasNewId(s.yellow, boxes, mask, ExitZone) then s.frameNumber else s.ending
  {
    if boxes != [] {
      var front := boxes[..|boxes| - 1];
      var b := boxes[|boxes| - 1];
      assert boxes == front + [b];
      ObserveBoxesEnding(s, front, mask);
      ObserveBoxesMembers(s, front, mask);
      var u := ObserveBoxes(s, front, mask);
      assert forall w :: w in front ==> w in boxes;
      if HasNewId(s.yellow, boxes, mask, ExitZone) && !HasNewId(s.yellow, front, mask, ExitZone) {
        var w :| w in boxes && ProbeCode(mask, w) == ExitZone && w.trackId !in s.yellow;
        assert w == b;
        assert !HitBy(b.trackId, front, mask, ExitZone);
        assert b.trackId !in u.yellow;
      }
    }
  }

  // ---------------------------------------------------------------------
  // One frame, and the whole loop

  /** One pass keeps `Valid`; it increments `frame_number` by one; `start`
      and `ending` move to the new frame number exactly when a new id reached
      their zone; and `speed` is replaced only for a positive interval. */
  lemma ProcessFrameSpec(s: State, boxes: seq<TrackedBox>, mask: Mask, fps: real)
    requires Valid(s, fps)
    ensures var t := ProcessFrame(s, boxes, mask, fps);
      && Valid(t, fps)
      && t.frameNumber == s.frameNumber + 1
      && s.blue <= t.blue && s.yellow <= t.yellow
      && t.start == (if HasNewId(s.blue, boxes, mask, EntryZone) then s.frameNumber + 1 else s.start)
      && t.ending == (if HasNewId(s.yellow, boxes, mask, ExitZone) then s.frameNumber + 1 else s.ending)
      && t.k == t.ending - t.start
      && t.speed == (if t.k > 0 then SpeedFor(fps, t.k) else s.speed)
  {
    var s1 := s.(frameNumber := s.frameNumber + 1);
    ObserveBoxesMembers(s1, boxes, mask);
    ObserveBoxesStart(s1, boxes, mask);
    ObserveBoxesEnding(s1, boxes, mask);
    var u := ObserveBoxes(s1, boxes, mask);
    var t := UpdateSpeed(u, fps);
    if t.k > 0 {
      assert SpeedFrom(t.speed, fps, t.k);
    }
  }

  /** A frame without detections changes nothing but `frame_number`. */
  lemma EmptyFrame(s: State, mask: Mask, fps: real)
    requires Valid(s, fps)
    ensures ProcessFrame(s, [], mask, fps) == s.(frameNumber := s.frameNumber + 1)
  {
  }

  /** Every pass over read frames keeps `Valid` and adds one to `frame_number`. */
  lemma {:induction false} ProcessFramesValid(s: State, frames: seq<Frame>, mask: Mask, fps: real)
    requires Valid(s, fps)
    ensures Valid(ProcessFrames(s, frames, mask, fps), fps)
    ensures ProcessFrames(s, frames, mask, fps).frameNumber == s.frameNumber + |frames|
  {
    if frames != [] {
      ProcessFramesValid(s, frames[..|frames| - 1], mask, fps);
      ProcessFrameSpec(ProcessFrames(s, frames[..|frames| - 1], mask, fps), frames[|frames| - 1].content, mask, fps);
    }
  }

  /** When the loop ends, no id is recorded twice in a zone, `count` is the
      total of both lists, `k` is `ending - start`, and `frame_number` counts
      every pass, the final failed read included. */
  lemma RunValid(frames: seq<Frame>, mask: Mask, fps: real)
    ensures var r := Run(frames, mask, fps);
      && Valid(r, fps)
      && NoDuplicates(r.blue) && NoDuplicates(r.yellow)
      && r.count == |r.blue| + |r.yellow|
      && r.frameNumber == (if QuitIndex(frames) < |frames| then QuitIndex(frames) + 1 else |frames| + 1)
  {
    var q := QuitIndex(frames);
    assert Valid(Initial(), fps);
    if q < |frames| {
      ProcessFramesValid(Initial(), frames[..q + 1], mask, fps);
    } else {
      ProcessFramesValid(Initial(), frames, mask, fps);
    }
  }

  /** As long as no pass has produced a positive interval, the speed is the
      one the passes started with; from the start of the loop, that is 0. */
  lemma {:induction false} SpeedWaitsForPositiveInterval(s: State, frames: seq<Frame>, mask: Mask, fps: real)
    requires Valid(s, fps)
    requires forall j :: 0 < j <= |frames| ==> ProcessFrames(s, frames[..j], mask, fps).k <= 0
    ensures ProcessFrames(s, frames, mask, fps).speed == s.speed
  {
    if frames != [] {
      var front := frames[..|frames| - 1];
      forall j | 0 < j <= |front| ensures ProcessFrames(s, front[..j], mask, fps).k <= 0 {
        assert front[..j] == frames[..j];
      }
      SpeedWaitsForPositiveInterval(s, front, mask, fps);
      ProcessFramesValid(s, front, mask, fps);
      assert frames[..|frames|] == frames;
      ProcessFrameSpec(ProcessFrames(s, front, mask, fps), frames[|frames| - 1].content, mask, fps);
    }
  }

  // ---------------------------------------------------------------------
  // The loop itself

  /** The passes over one more frame are one more pass. */
  lemma ProcessFramesSnoc(s: State, frames: seq<Frame>, n: nat, mask: Mask, fps: real)
    requires n < |frames|
    ensures ProcessFrames(s, frames[..n + 1], mask, fps) == ProcessFrame(ProcessFrames(s, frames[..n], mask, fps), frames[n].content, mask, fps)
  {
    assert frames[..n + 1][..n] == frames[..n];
  }

  /** The loop after the frame where 'q' is pressed. */
  lemma RunStopsAtQuit(frames: seq<Frame>, n: nat, mask: Mask, fps: real)
    requires n < |frames| && frames[n].quit
    requires n <= QuitIndex(frames)
    ensures Run(frames, mask, fps) == ProcessFrames(Initial(), frames[..n + 1], mask, fps)
    ensures QuitIndex(frames) == n
  {
  }

  /** The loop when 'q' is never pressed: every frame, then the failed read. */
  lemma RunReadsAll(frames: seq<Frame>, mask: Mask, fps: real)
    requires QuitIndex(frames) == |frames|
    ensures Run(frames, mask, fps) == ProcessFrames(Initial(), frames[..|frames|], mask, fps).(frameNumber := |frames| + 1)
  {
    assert frames[..|frames|] == frames;
    ProcessFramesValid(Initial(), frames, mask, fps);
  }

  /** The inner loop over one more box is one more box. */
  lemma ObserveBoxesSnoc(s: State, boxes: seq<TrackedBox>, i: nat, mask: Mask)
    requires i < |boxes|
    ensures ObserveBoxes(s, boxes[..i + 1], mask) == ObserveBox(ObserveBoxes(s, boxes[..i], mask), boxes[i], mask)
  {
    assert boxes[..i + 1][..i] == boxes[..i];
  }

  /** The inner `for item_bbox in list_bboxs` loop of one pass, on the loop
      locals it changes; `k` and `speed` stay as they are. */
  method ObserveFrame(blue0: seq<int>, yellow0: seq<int>, count0: int, start0: int, ending0: int,
                      frameNumber: int, listBboxs: seq<TrackedBox>, mask: Mask, ghost k: int, ghost speed: real)
    returns (blue: seq<int>, yellow: seq<int>, count: int, start: int, ending: int)
    ensures State(blue, yellow, count, k, speed, start, ending, frameNumber)
         == ObserveBoxes(State(blue0, yellow0, count0, k, speed, start0, ending0, frameNumber), listBboxs, mask)
  {
    ghost var entered := State(blue0, yellow0, count0, k, speed, start0, ending0, frameNumber);
    blue, yellow, count, start, ending := blue0, yellow0, count0, start0, ending0;
    for i := 0 to |listBboxs|
      invariant State(blue, yellow, count, k, speed, start, ending, frameNumber)
             == ObserveBoxes(entered, listBboxs[..i], mask)
    {
      var item := listBboxs[i];
      var x := item.x1;
      var y := item.y2;
      ObserveBoxesSnoc(entered, listBboxs, i, mask);
      if mask(y, x) == EntryZone {
        if item.trackId !in blue {
          count := count + 1;
          blue := blue + [item.trackId];
          start := frameNumber;
        }
      } else if mask(y, x) == ExitZone {
        if item.trackId !in yellow {
          count := count + 1;
          ending := frameNumber;
          yellow := yellow + [item.trackId];
        }
      }
    }
    assert listBboxs[..|listBboxs|] == listBboxs;
  }

  /** `VideoThread.run`, lines 82-144, with video reading replaced by the
      sequence of frames that are read successfully. */
  method MeasureSpeed(frames: seq<Frame>, mask: Mask, fps: real) returns (r: State)
    ensures r == Run(frames, mask, fps)
  {
    var blue: seq<int> := [];
    var yellow: seq<int> := [];
    var k := 0;
    var count := 0;
    var speed: real := 0.0;
    var start := 0;
    var ending := 0;
    var frameNumber := 0;

    while true
      invariant 0 <= frameNumber <= |frames|
      invariant frameNumber <= QuitIndex(frames)
      invariant State(blue, yellow, count, k, speed, start, ending, frameNumber)
             == ProcessFrames(Initial(), frames[..frameNumber], mask, fps)
      decreases |frames| - frameNumber
    {
      ghost var before := State(blue, yellow, count, k, speed, start, ending, frameNumber);
      frameNumber := frameNumber + 1;
      if frameNumber <= |frames| {
        var frame := frames[frameNumber - 1];
        var listBboxs := frame.content;
        ghost var observed := ObserveBoxes(before.(frameNumber := frameNumber), listBboxs, mask);
        if |listBboxs| > 0 {
          blue, yellow, count, start, ending := ObserveFrame(blue, yellow, count, start, ending, frameNumber, listBboxs, mask, k, speed);
        }
        assert State(blue, yellow, count, k, speed, start, ending, frameNumber) == observed;
        k := ending - start;
        if k > 0 {
          speed := Distance * fps / (k as real);
        }
        assert State(blue, yellow, count, k, speed, start, ending, frameNumber) == UpdateSpeed(observed, fps);
        ProcessFramesSnoc(Initial(), frames, frameNumber - 1, mask, fps);
        if frame.quit {
          RunStopsAtQuit(frames, frameNumber - 1, mask, fps);
          break;
        }
      } else {
        RunReadsAll(frames, mask, fps);
        break;
      }
    }
    r := State(blue, yellow, count, k, speed, start, ending, frameNumber);
  }

  // ---------------------------------------------------------------------
  // A concrete run

  /** A mask whose column 0 is blue and column 1 is yellow. */
  function TwoColumnMask(): Mask
  {
    (row: int, col: int) => if col == 0 then EntryZone else if col == 1 then ExitZone else NoZone
  }

  /** Id 1 enters the blue zone in frame 1; in frame 2 id 2 reaches the yellow
      zone while id 3 enters the blue zone. The entry strictly precedes the
      exit, yet `start` is overwritten, `k` stays 0, and no speed is measured. */
  lemma LateEntryMasksCrossing(fps: real)
    ensures var frames := [
        Read([TrackedBox(0, 0, 5, 9, "person", 1)], false),
        Read([TrackedBox(1, 0, 5, 9, "person", 2), TrackedBox(0, 0, 5, 9, "person", 3)], false)];
      var r := Run(frames, TwoColumnMask(), fps);
      r.blue == [1, 3] && r.yellow == [2] && r.start == 2 && r.ending == 2 && r.k == 0 && r.speed == 0.0
  {
    var mask := TwoColumnMask();
    var b1 := TrackedBox(0, 0, 5, 9, "person", 1);
    var b2 := TrackedBox(1, 0, 5, 9, "person", 2);
    var b3 := TrackedBox(0, 0, 5, 9, "person", 3);
    var f1 := Read([b1], false);
    var f2 := Read([b2, b3], false);
    var frames := [f1, f2];
    assert QuitIndex(frames) == 2;
    assert frames[..1] == [f1];
    assert [f1][..0] == [];
    assert [b1][..0] == [];
    assert ObserveBoxes(Initial().(frameNumber := 1), [b1], mask) == State([1], [], 1, 0, 0.0, 1, 0, 1);
    var s1 := ProcessFrame(Initial(), [b1], mask, fps);
    assert s1 == State([1], [], 1, -1, 0.0, 1, 0, 1);
    assert ProcessFrames(Initial(), [f1], mask, fps) == s1;
    assert [b2, b3][..1] == [b2];
    var s2 := ProcessFrame(s1, [b2, b3], mask, fps);
    assert ObserveBoxes(s1.(frameNumber := 2), [b2], mask) == State([1], [2], 2, -1, 0.0, 1, 2, 2);
    assert s2 == State([1, 3], [2], 3, 0, 0.0, 2, 2, 2);
    assert ProcessFrames(Initial(), frames, mask, fps) == s2;
  }

  /** A box that reaches the yellow zone in frame 1 with no blue entry ever
      seen: `start` keeps its initial 0, so `k = ending - start` is 1 and a
      speed is computed although nothing entered. */
  lemma ExitAloneGivesSpeed(fps: real)
    ensures var r := Run([Read([TrackedBox(1, 0, 5, 9, "person", 7)], false)], TwoColumnMask(), fps);
      r.blue == [] && r.yellow == [7] && r.start == 0 && r.ending == 1 && r.k == 1 && r.speed == SpeedFor(fps, 1)
  {
    var mask := TwoColumnMask();
    var b := TrackedBox(1, 0, 5, 9, "person", 7);
    var f := Read([b], false);
    assert QuitIndex([f]) == 1;
    assert [f][..0] == [];
    assert [b][..0] == [];
    assert ObserveBoxes(Initial().(frameNumber := 1), [b], mask) == State([], [7], 1, 0, 0.0, 0, 1, 1);
    assert ProcessFrames(Initial(), [f], mask, fps) == State([], [7], 1, 1, SpeedFor(fps, 1), 0, 1, 1);
  }
}
