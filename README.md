# Long-jump scoring core in Dafny

This project models the computational core of a desktop tool that scores
standing-long-jump technique from video. The tool has two pipelines.

- **Speed measurement** (`VideoThread.run`, video_thread.py). A detector
  and a DeepSort tracker give tracked person boxes for each frame. Each box
  is probed once against a mask that holds two fixed polygons: blue (entry)
  and yellow (exit). A track id is recorded the first time it reaches each
  zone. The frame gap between the latest new entry and the latest new exit
  is turned into a speed over the 4 m between the zones.
- **Posture best match** (`Posture.imageflow`, posture.py). Each frame's
  33 pose landmarks are reduced to a 19-point skeleton. The skeleton's three
  joint angles are compared with three reference skeletons read from text
  files. For each reference posture the scan keeps the earliest frame with
  the smallest weighted angle distance. Alongside this the model covers how
  the output names are derived from the video path, and how
  `get_video_files` orders the videos by the first number in their path.

Modules, one file each:

- `Base`: `Option`, `Result`, points, and frames that were read with their
  'q' flag.
- `PyStrings`: Python's `str.split`, `str.strip` and the `[-1]` and `[1]` indexing of the lists `split` returns.
- `ZoneMask`: the mask.
- `TrackerAdapter`: tracker.py `update`.
- `Crossing`: the speed loop.
- `Skeleton`: `construct_point`, `back_to_origin`, `calculate_take_off_angles`
  and `calculate_distance`.
- `PointFile`: the parsing in `read_points_from_file`.
- `BestMatch`: the three running records of `imageflow`.
- `OutputNames`: the names derived in `imageflow`.
- `VideoFiles`: `get_video_files`.

Code that updates locals in a loop is modelled as a method with that loop:
`MeasureSpeed`, `ObserveFrame`, `ScanVideo`, `ConstructPoint`,
`BackToOrigin`, `ReadPoints` and `Update`. `MeasureSpeed`, `ObserveFrame`,
`ScanVideo` and `ConstructPoint` are proved equal to a pure function of
their inputs (`Run`, `ObserveBoxes`, `Best`, `SkeletonOf`), and what the
Python code does is proved as lemmas about those functions. `ReadPoints`,
`BackToOrigin` and `Update` are proved against element-wise contracts: what
each output element is, in terms of the input element at the same position
(for `ReadPoints`, through `ParseLine`).

Parameters stand in for the parts that are not modelled:

- the frames that were read successfully, where a failed read ends the
  sequence and each frame carries the 'q' flag;
- the zone mask;
- DeepSort's answer to one call;
- Python's `float()`;
- the regular-expression class `\w`;
- the angle function, `math.sqrt` and the cosine similarity;
- the reference skeletons.

### Behaviour of the code worth knowing

- **One probe point.** Each box is probed once, at column `x1` and row `y2`.
  The code has no corner or centre probes and no tolerance neighbourhood
  (`Crossing.ProbeCode`).
- **No early stop, no frame skipping.** The loop runs until 'q' is pressed
  or a read fails (`Crossing.Run`, `Crossing.RunValid`), and `k` counts
  every frame.
- **A speed can appear without an entry.** `start` starts at 0, so an exit
  on its own gives `k = ending > 0` and a speed
  (`Crossing.ExitAloneGivesSpeed`).
- **A later entry overwrites `start`.** A new blue id seen after an exit
  sets `start` again, so a crossing that was completed can end with
  `k <= 0` and no new speed (`Crossing.LateEntryMasksCrossing`).
- **Entries and exits are not matched by id** (`Crossing.ObserveBoxesMembers`).
- **Video order uses the first number anywhere in the path.** The comment at
  posture.py:382 says the number is taken from the file name, but the search
  at posture.py:383 reads the whole path. So a digit in the folder name
  decides the key for every file, and the videos keep glob order
  (`VideoFiles.FolderNumberKeepsGlobOrder`).
- **The extension is the second dot-piece of the file name, not the last.**
  For `jump.day1.mp4` it is `.day1` (`OutputNames.SecondDotDecidesExtension`).

## Model

| member | source | states |
|---|---|---|
| Base.QuitIndex | video_thread.py:141-144 | the first frame where 'q' is pressed, or the number of frames; no earlier frame has 'q' pressed |
| ZoneMask.Combine | video_thread.py:69 | the combined mask: the blue fill contributes 1 and the yellow fill 2 at each pixel, added |
| ZoneMask.HullsDisjoint | video_thread.py:57-63 | the bounding boxes of the blue and yellow polygons share no pixel |
| ZoneMask.CombinedCodes | video_thread.py:56-70 | fills confined to their polygons add up to a mask that reads 1 exactly on blue pixels, 2 exactly on yellow pixels, 0 elsewhere, and is non-zero only inside the 720 x 1280 grid |
| TrackerAdapter.ToXywh | tracker.py:62-65 | the centre/size row built for one detection: truncated centre, then width and height |
| TrackerAdapter.TruncHalf | tracker.py:63 | `int(n * 0.5)` truncates toward zero: the result is within one half of n/2, rounded toward 0 for both signs |
| TrackerAdapter.CentreInsideBox | tracker.py:62-65 | for a box with ordered corners, the centre lies between the corners and width and height are non-negative |
| TrackerAdapter.XywhRoundTrip | tracker.py:62-65 | for non-negative coordinates the corners can be recovered exactly from centre, width and height |
| TrackerAdapter.HalfOfOffset | tracker.py:63 | truncated halving of `2a + w` is `a + w / 2` when the sum is non-negative |
| TrackerAdapter.Update | tracker.py:46-79 | DeepSort is called exactly when there are detections, with one centre/size row and one confidence per detection, in order; every output row comes back with the last detection's label; no detections give no boxes |
| TrackerAdapter.Labelled | tracker.py:77 | one output tuple: the DeepSort row's corners and track id, with the label put before the id |
| PointFile.ReadPoint | posture.py:27-28 | the loop body for one line, with an early return at each failing step, proved to equal `ParseLine` |
| Crossing.Initial | video_thread.py:85-90 | the locals before the loop: both id lists empty, and `k`, `count`, `speed`, `start`, `ending` and `frame_number` all 0 |
| Crossing.ProbeCode | video_thread.py:111-115 | the mask value at row `y2`, column `x1` of the box, the one point a box is tested at |
| Crossing.SpeedFor | video_thread.py:129 | `4.0 * fps / k` over the 4 m between the zones, for a positive interval (rounding is under "Left out") |
| Crossing.UpdateSpeed | video_thread.py:127-129 | `k = ending - start` on every pass; a new speed only when `k > 0`, otherwise the old speed stays |
| Crossing.ObserveBoxes | video_thread.py:108-125 | the inner `for` loop: the boxes of one frame observed one after the other, in list order |
| Crossing.ProcessFrames | video_thread.py:92-144 | the passes of the loop over a run of frames that were all read, one pass per frame in order |
| Crossing.ObserveBox | video_thread.py:110-125 | the body of the inner loop for one box: probe at `(y2, x1)`; a new id in the blue zone is appended, counted and sets `start`; else a new id in the yellow zone is appended, counted and sets `ending` |
| Crossing.ProcessFrame | video_thread.py:93-129 | one pass over a frame that was read: increment `frame_number`, observe the boxes in order, set `k = ending - start` and, for `k > 0`, the speed |
| Crossing.Run | video_thread.py:82-144 | the whole loop from its initial locals: passes up to and including the frame where 'q' is pressed, or over every frame and then one more increment for the failed read |
| Crossing.ObserveBoxRules | video_thread.py:115-125 | a recorded id changes nothing in its zone; a blue hit leaves the yellow record alone and a yellow hit the blue one; a box outside both zones changes nothing; a box observed twice counts once |
| Crossing.ObserveBoxKeeps | video_thread.py:115-125 | one box keeps both lists free of duplicates, keeps `count` equal to their total, only extends the lists, and adds at most one id |
| Crossing.ObserveBoxesMembers | video_thread.py:108-125 | after the inner loop each list holds exactly the ids recorded before plus the ids of the frame's boxes that hit its zone, with no duplicates, and `count` is their total |
| Crossing.ObserveBoxesStart | video_thread.py:115-119 | `start` becomes the current frame number exactly when some box brings a blue id not recorded before, and keeps its value otherwise |
| Crossing.ObserveBoxesEnding | video_thread.py:121-125 | `ending` becomes the current frame number exactly when some box brings a yellow id not recorded before, and keeps its value otherwise |
| Crossing.ProcessFrameSpec | video_thread.py:92-129 | one pass keeps the loop invariant, increments `frame_number`, moves `start`/`ending` only on new ids, sets `k = ending - start`, and replaces the speed only for `k > 0` |
| Crossing.EmptyFrame | video_thread.py:98-129 | a frame without tracked boxes changes only `frame_number` |
| Crossing.ProcessFramesValid | video_thread.py:92-144 | any run of passes keeps the invariant and adds one to `frame_number` per frame |
| Crossing.RunValid | video_thread.py:82-144 | when the loop ends, no id appears twice in a zone, `count` is the total of both lists, `k = ending - start`, a positive `k` has its speed, and `frame_number` counts every pass including the failed read |
| Crossing.SpeedWaitsForPositiveInterval | video_thread.py:127-129 | as long as no pass gives a positive interval, the speed stays at the value it started with |
| Crossing.ObserveFrame | video_thread.py:108-125 | the inner loop over a frame's boxes computes the specification fold over those boxes |
| Crossing.MeasureSpeed | video_thread.py:82-144 | the loop over its locals computes `Run`: every frame up to and including the one where 'q' is pressed, or every frame and then the failed read |
| Crossing.LateEntryMasksCrossing | video_thread.py:115-129 | a concrete run: an entry in frame 1, then an exit and a new entry in frame 2, leaves `start = ending = 2`, `k = 0` and speed 0 |
| Crossing.ExitAloneGivesSpeed | video_thread.py:85-129 | a concrete run: one exit in frame 1 with no entry gives `k = 1` and the speed `4 * fps` |
| Skeleton.ConstructNumInRange | posture.py:173 | the 16 selected landmark indices are all at most 32 |
| Skeleton.SkeletonOf | posture.py:164-191 | the rebuilt skeleton: the nose, the midpoint of landmarks 11 and 12, the midpoint of 23 and 24, then the `construct_num` landmarks in order |
| Skeleton.ConstructPoint | posture.py:164-191 | 19 points: the nose, the shoulder midpoint, the hip midpoint, then landmarks 11-16 and 23-32 in order |
| Skeleton.BackToOrigin | posture.py:14-19 | one point per input point, x scaled by the width and y by the height |
| Skeleton.TakeOffAngles | posture.py:77-87 | the three angles at points (9, 11, 3), (12, 10, one unit right of 10) and (10, 12, 14) |
| Skeleton.TakeOffAnglesReadJoints | posture.py:77-87 | three angles, which depend only on skeleton points 3, 9, 10, 11, 12 and 14 |
| Skeleton.TakeOffAnglesOfLandmarks | posture.py:77-87 | on a rebuilt skeleton the angles are taken at landmarks (23, 25, 11), (26, 24, horizontal through 24) and (24, 26, 28) |
| Skeleton.WeightedSquares | posture.py:99 | the sum under `math.sqrt`: squared difference times weight, over `zip`'s shortest length |
| Skeleton.WeightedSquaresNonNegative | posture.py:99 | with non-negative weights the weighted sum of squared angle differences is non-negative |
| Skeleton.WeightedSquaresSame | posture.py:99 | identical angle vectors have weighted squared difference 0 |
| Skeleton.CalculateDistance | posture.py:90-111 | the returned angles are the test skeleton's; the distance is the weighted Euclidean distance when it is at least the threshold, and `0.7 d + 0.3 (1 - cosine)` below it |
| Skeleton.AnglesIgnoreReference | posture.py:95-111 | the returned angles do not depend on the reference skeleton, the weights or the threshold |
| BestMatch.Step | posture.py:264-285 | one record update: a frame with a pose whose distance is strictly below the record's replaces distance, points, frame id and angles; any other frame leaves the record |
| BestMatch.Best | posture.py:243-285 | the record for one posture after a run of frames, from the initial record with distance 1000 |
| BestMatch.BestSnoc | posture.py:247-309 | the records after one more frame are one more update step |
| BestMatch.Distances | posture.py:254-262 | one optional distance per frame (the entries are stated by DistancesAt) |
| BestMatch.DistancesAt | posture.py:254-262 | entry i of the distances is the distance of frame i's pose, or none when frame i has no pose |
| BestMatch.RunningLeastIsFirstLeast | posture.py:264-285 | a running minimum with strict replacement, starting from the sentinel 1000, ends at the first index of the smallest distance below the sentinel, or at the sentinel if there is none |
| BestMatch.FirstLeastUnique | posture.py:264-285 | the first minimum of a sequence of distances is unique |
| BestMatch.BestFollowsLeast | posture.py:243-285 | each record's distance and frame id are the running minimum of that posture's distances |
| BestMatch.BestIsRecord | posture.py:243-285 | each record is the initial one or is built from one scanned frame's skeleton, distance and angles |
| BestMatch.BestIsFirstMinimum | posture.py:243-309 | each record holds the earliest frame with the smallest distance to its posture, or the initial record when no distance is below 1000 |
| BestMatch.FirstMinimumUnique | posture.py:243-309 | two records that both meet that description are equal |
| BestMatch.BestNonIncreasing | posture.py:264-285 | the stored distance never increases as more frames are scanned |
| BestMatch.TieKeepsEarlier | posture.py:265 | a later frame at equal distance does not replace the record |
| BestMatch.Scanned | posture.py:247-306 | the scan covers the frames up to and including the one where 'q' is pressed, or all frames: exactly QuitIndex + 1 frames when 'q' is pressed |
| BestMatch.ScanVideo | posture.py:240-309 | the frame loop leaves `frame_id` at the index of the 'q' frame (or the number of frames) and each of the three records equal to the fold over the scanned frames |
| PointFile.ParseLine | posture.py:27-28 | one line: strip, split at commas, unpack exactly two fields, convert both with `float()`; each step's failure is its own error |
| PointFile.FieldCountRule | posture.py:27 | the unpacking into `x, y` fails exactly when the stripped line does not hold exactly one comma |
| PointFile.ParsedLineShape | posture.py:27-28 | a parsed line strips to `x + "," + y` with comma-free fields that `float()` reads as the two coordinates |
| PointFile.ParseRendered | posture.py:27-28 | the inverse: `x,y` written without surrounding whitespace reads back as the two values |
| PointFile.ReadPoints | posture.py:22-29 | success exactly when every line parses, with one point per line in file order; otherwise the error of the first line that fails |
| PyStrings.Split | posture.py:219-223 | `str.split(c)`, used at posture.py:27 and 219-223: the maximal pieces between occurrences of `c`, at least one |
| PyStrings.JoinSplit | posture.py:27 | joining the pieces of `split(c)` with `c` gives the string back |
| PyStrings.SplitCount | posture.py:27 | `split(c)` gives one more piece than there are occurrences of `c` |
| PyStrings.SplitPiecesFree | posture.py:27 | no piece of `split(c)` contains `c` |
| PyStrings.Strip | posture.py:27 | the result of `strip()` neither starts nor ends with whitespace |
| PyStrings.StripSpec | posture.py:27 | `strip()` removes only whitespace at the two ends: the result is a slice of the line, and everything before and after it is whitespace |
| PyStrings.AfterLastSpec | posture.py:219-221 | `split(c)[-1]` is the suffix after the last `c`, or the whole string when there is no `c` |
| PyStrings.SecondPieceSpec | posture.py:223 | `split(c)[1]` is the text between the first and the second `c` (or the end) |
| OutputNames.DeriveNames | posture.py:219-233 | the names of a video path: `SplitName` applied to its base name |
| OutputNames.BaseName | posture.py:219-221 | the piece after the last `/`, replaced by the piece after the last backslash when the path holds one |
| OutputNames.SplitName | posture.py:222-233 | from the file part: the first dot-piece as stem, a dot plus the second piece as extension, the sanitised stem, and stem + `_jump` + extension; no second piece is an error |
| OutputNames.BaseNameSpec | posture.py:219-221 | the file part is the path's tail after the last backslash when there is one, otherwise after the last slash |
| OutputNames.Sanitize | posture.py:229 | the same length, and each character is kept when it is in `[\w\-_]` and becomes `_` otherwise |
| OutputNames.SanitizeSafe | posture.py:229 | every character of the safe name is a word character or `-` |
| OutputNames.SanitizeKeepsSafe | posture.py:229 | a name that is already safe is left as it is |
| OutputNames.SanitizeIdempotent | posture.py:229 | sanitising twice is the same as sanitising once |
| OutputNames.SplitNameError | posture.py:222-223 | deriving the names fails exactly when the file name has no dot |
| OutputNames.SplitNameSpec | posture.py:222-233 | the stem is the text before the first dot; the extension is a dot plus the text up to the second dot; the save name is the safe stem + `_jump` + extension |
| OutputNames.SecondDotDecidesExtension | posture.py:219-233 | `jump.day1.mp4` gives stem `jump`, extension `.day1` and save name `jump_jump.day1` |
| VideoFiles.FirstNumber | posture.py:383 | `int(re.search(r'\d+', x).group())`: the value of the first run of digits, or none for a path without a digit |
| VideoFiles.SortByKey | posture.py:383 | `sort(key=...)` by that number as an insertion sort; Python's sort is stable, so paths with the same key keep their order |
| VideoFiles.GetVideoFiles | posture.py:372-385 | the `.mp4` then the `.avi` paths, sorted by their number; an error naming a path without a digit |
| VideoFiles.FirstDigitIndex | posture.py:383 | the position of the first digit, with no digit before it |
| VideoFiles.LeadingDigits | posture.py:383 | the longest run of digits at the front |
| VideoFiles.DecimalRoundTrip | posture.py:383 | `int()` of a number's decimal digits is that number |
| VideoFiles.NumberedPath | posture.py:383 | a path whose first digits are the decimal form of n has sort key n |
| VideoFiles.FolderNumberDecides | posture.py:383 | when the folder part holds a digit and does not end in one, the folder's number is the key of every path below it |
| VideoFiles.SortByKeySpec | posture.py:383 | the sort orders by key, is a permutation, and is stable: equal keys keep their order |
| VideoFiles.SortOneKey | posture.py:383 | when all keys are equal the sort keeps the original order |
| VideoFiles.FirstUnnumbered | posture.py:383 | finds a path without a digit, exactly when there is one |
| VideoFiles.FirstUnnumberedAt | posture.py:383 | the path found is the first one in list order without a digit, every path before it having one: the key that raises first in `sort` |
| VideoFiles.GetVideoFilesSpec | posture.py:372-385 | fails exactly when some path has no digit; otherwise the `.mp4` and then `.avi` paths, sorted by key, as a permutation, with equal keys in glob order |
| VideoFiles.FolderNumberKeepsGlobOrder | posture.py:372-385 | with a numbered folder the result is the glob order itself |

## Left out

- Video capture, detection, pose estimation, drawing, video writing, Qt
  signals and threads are not modelled. The frames that were read arrive as
  a sequence, and a failed read is its end.
- Python floats are modelled as exact reals: the midpoints (posture.py:181-184),
  the scaling to pixels (posture.py:14-19), the blend of the two distances
  (posture.py:109) and `4.0 * fps / k` are exact here. Float rounding errors,
  overflow, infinities and NaN are not modelled.
- Crossing.MeasureSpeed: the speed is the exact quotient `4 * fps / k`.
  Rounding to two decimals (`round(..., 2)`) is not modelled, because real
  rounding of a float has no exact counterpart here.
- Crossing.MeasureSpeed: the progress value `int((frame_number / frame_count) * 100)`
  at video_thread.py:138 has no guard. When `CAP_PROP_FRAME_COUNT` reads 0
  (video_thread.py:53) it raises `ZeroDivisionError` after the first frame's
  pass, and the thread ends there. The model has no frame count and goes on
  over every frame. `Run` and `MeasureSpeed` describe the loop only when
  the frame count is non-zero.
- Crossing.ProbeCode: the mask is a total function. NumPy's wrap-around for
  negative indices and its `IndexError` outside the grid are not modelled,
  so a probe point outside the 720 x 1280 frame reads whatever the mask
  gives there.
- ZoneMask: `cv2.fillPoly` rasterisation is not modelled. A fill is a
  parameter known only to stay inside its polygon's bounding box, which is
  enough for the codes to stay 0, 1 and 2.
- TrackerAdapter.Update: DeepSort's association and its internal state are
  not modelled. DeepSort is a function from one call to its output rows.
  `torch.Tensor` conversion to float32 is not modelled either.
- Skeleton.CalculateDistance: `math.acos`, `math.sqrt`, the cosine
  similarity and `calculate_angle` are parameters, because floating-point
  trigonometry is not modelled. These are total functions here, so the model
  loses the error cases. `calculate_angle` raises `ZeroDivisionError` for a
  zero-length vector, or `ValueError` when rounding takes the cosine out of
  [-1, 1] (posture.py:56-59). The cosine term is NaN when an angle vector has
  norm 0 (posture.py:106). A NaN distance never satisfies `>`, so it never
  replaces a record. The branch where `posture_type` is empty and
  the function returns `None` is not modelled, because the only callers pass
  fixed non-empty names.
- BestMatch.ScanVideo: the reference skeletons are given per posture rather
  than re-read from `take_off.txt`, `hip_extension.txt` and
  `abdominal_contraction.txt` on every call. The post-loop scoring
  (`get_Scoring`, a joblib model), the canvases and the saved images are
  left out. So are `calculate_take_off_angle` (atan2, used only for the
  on-screen text) and the progress percentage, which is guarded by
  `total_frames > 0` at posture.py:310.
- BestMatch.ScanVideo: `WellFormed` requires every reference skeleton to have
  more than 14 points. A reference file with fewer lines makes
  `calculate_take_off_angles` raise `IndexError` (posture.py:78-87), and that
  error path is not modelled.
- PointFile.ReadPoints: opening the file and `os.path.join('./', ...)` are
  left out. `float()` is a parameter, so its accepted syntax is not
  modelled.
- OutputNames.Sanitize: `\w` is a parameter, and is pinned down only on
  ASCII (`PythonWordClass`). `os.getcwd`, `os.makedirs` and
  `os.path.join` are left out; the names are modelled, not the folder layout.
- VideoFiles.GetVideoFiles: `glob` is left out; its two result lists are
  parameters. `\d` is ASCII digits only, because Python's Unicode digit class
  is not modelled. A path without a digit is an error result where Python
  raises `AttributeError`.
- `select_video`, `process_video_folder`, `plot_construct_point`, the
  `AutoScoreThread` and the user interface are not part of this model.
