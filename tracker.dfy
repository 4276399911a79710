/** The tracker adapter `update` of tracker.py: detector boxes are turned
    into centre/size form, handed to DeepSort, and DeepSort's rows get a
    label put back on. DeepSort itself is a parameter. */
module TrackerAdapter {
  import opened Base

  /** A detector box: corners, class label and confidence. */
  datatype Detection = Detection(x1: int, y1: int, x2: int, y2: int, lbl: string, conf: real)

  /** A box in the centre-x, centre-y, width, height form DeepSort consumes. */
  datatype Xywh = Xywh(cx: int, cy: int, w: int, h: int)

  /** One row of DeepSort's output: corners and the track id. */
  datatype TrackOutput = TrackOutput(x1: int, y1: int, x2: int, y2: int, trackId: int)

  /** A tracked box as the adapter hands it on: `(x1, y1, x2, y2, label, track_id)`. */
  datatype TrackedBox = TrackedBox(x1: int, y1: int, x2: int, y2: int, lbl: string, trackId: int)

  /** The two tensors of one `deepsort.update(xywhs, confss, image)` call. */
  datatype TrackerCall = TrackerCall(xywhs: seq<Xywh>, confs: seq<real>)

  /** DeepSort's answer to one call, in its current state. */
  type DeepSort = TrackerCall -> seq<TrackOutput>

  /** `int(n * 0.5)`: halving, truncated toward zero. */
  function TruncHalf(n: int): (r: int)
    ensures n >= 0 ==> 0 <= r && 2 * r <= n <= 2 * r + 1
    ensures n < 0 ==> r <= 0 && 2 * r - 1 <= n <= 2 * r
  {
    if n >= 0 then n / 2 else -((-n) / 2)
  }

  /** The centre/size entry the adapter builds for one detection. */
  function ToXywh(d: Detection): Xywh
  {
    Xywh(TruncHalf(d.x1 + d.x2), TruncHalf(d.y1 + d.y2), d.x2 - d.x1, d.y2 - d.y1)
  }

  /** For a well-formed box the truncated centre lies inside the box. */
  lemma CentreInsideBox(d: Detection)
    requires d.x1 <= d.x2 && d.y1 <= d.y2
    ensures var e := ToXywh(d);
      d.x1 <= e.cx <= d.x2 && d.y1 <= e.cy <= d.y2 && e.w >= 0 && e.h >= 0
  {
    var e := ToXywh(d);
    assert 2 * e.cx <= d.x1 + d.x2 + 1 && d.x1 + d.x2 - 1 <= 2 * e.cx;
    assert 2 * e.cy <= d.y1 + d.y2 + 1 && d.y1 + d.y2 - 1 <= 2 * e.cy;
  }

  /** Corners recovered from centre/size form: `x1 = cx - w // 2`, `x2 = x1 + w`. */
  function FromXywh(e: Xywh): (int, int, int, int)
  {
    (e.cx - e.w / 2, e.cy - e.h / 2, e.cx - e.w / 2 + e.w, e.cy - e.h / 2 + e.h)
  }

  /** The truncation loses nothing for boxes in frame coordinates:
      the corners are recovered exactly from the centre/size entry. */
  lemma {:induction false} XywhRoundTrip(d: Detection)
    requires 0 <= d.x1 && 0 <= d.x2 && 0 <= d.y1 && 0 <= d.y2
    ensures FromXywh(ToXywh(d)) == (d.x1, d.y1, d.x2, d.y2)
  {
    var e := ToXywh(d);
    HalfOfOffset(d.x1, d.x2 - d.x1);
    HalfOfOffset(d.y1, d.y2 - d.y1);
    assert e.cx == d.x1 + e.w / 2;
    assert e.cy == d.y1 + e.h / 2;
  }

  /** `(2a + w) // 2 == a + w // 2` for a non-negative sum. */
  lemma HalfOfOffset(a: int, w: int)
    requires 2 * a + w >= 0
    ensures TruncHalf(2 * a + w) == a + w / 2
  {
    var n := 2 * a + w;
    assert n / 2 * 2 + n % 2 == n;
    assert w / 2 * 2 + w % 2 == w;
    assert n % 2 == w % 2;
  }

  /** The label-carrying tuple built from one DeepSort row. */
  function Labelled(o: TrackOutput, lbl: string): TrackedBox
  {
    TrackedBox(o.x1, o.y1, o.x2, o.y2, lbl, o.trackId)
  }

  /** tracker.py `update`. `call` is the DeepSort call the adapter made, or
      `None` when it made none. */
  method Update(bboxes: seq<Detection>, deepsort: DeepSort)
    returns (bboxes2draw: seq<TrackedBox>, call: Option<TrackerCall>)
    ensures call == None <==> bboxes == []
    ensures bboxes == [] ==> bboxes2draw == []
    ensures call.Some? ==>
      && |call.value.xywhs| == |bboxes| && |call.value.confs| == |bboxes|
      && (forall i :: 0 <= i < |bboxes| ==>
            call.value.xywhs[i] == ToXywh(bboxes[i]) && call.value.confs[i] == bboxes[i].conf)
    ensures call.Some? ==>
      var outputs := deepsort(call.value);
      && |bboxes2draw| == |outputs|
      && forall j :: 0 <= j < |outputs| ==>
           bboxes2draw[j] == Labelled(outputs[j], bboxes[|bboxes| - 1].lbl)
  {
    var bboxXywh: seq<Xywh> := [];
    var confs: seq<real> := [];
    bboxes2draw := [];
    call := None;
    if |bboxes| > 0 {
      var lastLbl := "";
      for i := 0 to |bboxes|
        invariant |bboxXywh| == i && |confs| == i
        invariant forall m :: 0 <= m < i ==> bboxXywh[m] == ToXywh(bboxes[m]) && confs[m] == bboxes[m].conf
        invariant i > 0 ==> lastLbl == bboxes[i - 1].lbl
      {
        var d := bboxes[i];
        var obj := Xywh(TruncHalf(d.x1 + d.x2), TruncHalf(d.y1 + d.y2), d.x2 - d.x1, d.y2 - d.y1);
        bboxXywh := bboxXywh + [obj];
        confs := confs + [d.conf];
        lastLbl := d.lbl;
      }
      call := Some(TrackerCall(bboxXywh, confs));
      var outputs := deepsort(call.value);
      for j := 0 to |outputs|
        invariant |bboxes2draw| == j
        invariant forall m :: 0 <= m < j ==> bboxes2draw[m] == Labelled(outputs[m], lastLbl)
      {
        var o := outputs[j];
        bboxes2draw := bboxes2draw + [TrackedBox(o.x1, o.y1, o.x2, o.y2, lastLbl, o.trackId)];
      }
    }
  }
}
