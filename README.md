# Tennis analysis: mini-court layout and player selection

This project models three small pieces of a tennis video-analysis system and
proves properties of them in Dafny.

- **Bounding-box helpers** (`bbox_utils.dfy`, module `BboxUtils`). A box centre
  is its midpoint with each coordinate truncated toward zero, as Python's
  `int()` truncates. The distance between two points is modelled as the squared
  Euclidean distance.
- **Player selection** (`player_tracker.dfy`, module `PlayerTracking`).
  `choose_players` scores every detection of the first frame by the distance
  from its box centre to the nearest court keypoint. It sorts the candidates by
  score and keeps the first two track ids. `choose_and_filter_players` then
  restricts every frame's `{track_id: bbox}` dictionary to those ids.
  - A frame is a sequence of `(track id, box)` entries in dictionary insertion
    order, with distinct ids.
  - `float('inf')` is the `Infinite` score.
  - The two `IndexError`s the code can raise are `Failure` results: an empty
    list of frames, and an odd-length keypoint list. The second arises only when
    the first frame has a detection, because only then does the keypoint loop
    run.
  - Python's `list.sort` is stable. It is modelled by a stable insertion sort on
    the score, `SortByScore`. Lemmas prove that this sort orders by score, keeps
    the candidates, and keeps detection order among equal scores.
  - `IsSelection` states independently of the sort what the returned ids are:
    the first `min(2, n)` candidates in (score, detection index) order.
- **Mini-court layout** (`mini_court.dfy`, module `MiniCourts`). `MiniCourt`
  is a class whose constructor runs the four setters in the source's order.
  - The canvas is 250 by 450 pixels. Its right edge is 50 pixels in from the
    frame's right edge, and its top is 50 pixels from the frame's top.
  - The court is inset 20 pixels on every side, so its drawing width is always
    210.
  - The canvas size, the buffer and the court padding are set once by
    `__init__` and never reassigned, so they are `const` fields.
  - `convert_meters_to_pixels` calls the conversion helper at every use. The
    model takes that helper, applied to the drawing width, as the constructor
    parameter `convertWidth` and keeps it in a `const` field, since it is a
    fixed function.
  - The 28 keypoint coordinates go into a freshly allocated array by indexed
    assignment. The filled list is then stored on the object as a sequence,
    since nothing changes it afterwards.
  - `LaidOut` ties each entry to the entries it is computed from. Lemmas give
    each point's position in closed form and show that the layout is
    determined by its inputs.

The metre-to-pixel conversion helper and the court constants are not part of
this model. The source calls the helper with the same arguments every time: the
`meters` argument of `convert_meters_to_pixels` is not used. So every offset in
the layout is one value, `convertWidth(210)`. The model keeps this behaviour as
written.

Two consequences of the code as written:

- **Court proportions.** The layout does not keep a real court's proportions,
  because every offset is the same value. `LayoutPoints` shows the effects:
  point 8 coincides with point 5, point 10 with point 4, and both centre-line
  points lie on `x = trunc(sx + 1.5c)`.
- **Number of players.** `choose_players` returns `min(2, n)` ids for `n`
  first-frame detections, so fewer than two survive when the first frame has
  fewer than two detections. A later frame keeps only the chosen ids it
  contains, so a filtered frame holds at most two entries
  (`FilteredFramesHoldChosenPlayers`).

## Model

| member | source | states |
|---|---|---|
| BboxUtils.Trunc | utils/bbox_utils.py:3-4 | `int()` on a float rounds toward zero: the result lies within one unit of the argument, on the side of zero |
| BboxUtils.Center | utils/bbox_utils.py:1-5 | each centre coordinate is the box's midpoint truncated toward zero |
| BboxUtils.CenterInsideIntegerBox | utils/bbox_utils.py:1-5 | for an ordered box with integer corners, the centre lies inside the box |
| BboxUtils.DegenerateBoxCenter | utils/bbox_utils.py:1-5 | a single-point box has that point as its centre |
| BboxUtils.SquaredDistance | utils/bbox_utils.py:6-7 | the (squared) distance is never negative, and is zero exactly when the two points coincide |
| BboxUtils.SquaredDistanceSymmetric | utils/bbox_utils.py:6-7 | the distance does not depend on the order of the points |
| PlayerTracking.NearestKeypointScore | trackers/player_tracker.py:24-29 | the score stays `float('inf')` exactly when there are no keypoints, and a finite score is never negative; `NearestKeypointScoreIsMinimum` shows it is the smallest keypoint distance |
| PlayerTracking.NearestKeypointScoreIsMinimum | trackers/player_tracker.py:24-29 | a player's score is at most the distance to every keypoint, equals the distance to one of them, and stays infinite exactly when there are no keypoints |
| PlayerTracking.Candidates | trackers/player_tracker.py:20-30 | one candidate per detection, in detection order, carrying the detection's track id; each score is infinite exactly when there are no keypoints |
| PlayerTracking.BelowIsStrictOrder | trackers/player_tracker.py:28 | `<` on scores, with infinity above every number, is irreflexive, asymmetric, total and transitive |
| PlayerTracking.Insert | trackers/player_tracker.py:32 | inserting a candidate into the sorted list adds exactly that candidate |
| PlayerTracking.SortByScore | trackers/player_tracker.py:32 | sorting keeps exactly the same candidates (same length, same multiset) |
| PlayerTracking.InsertKeepsSorted | trackers/player_tracker.py:32 | inserting into a score-sorted list keeps it sorted |
| PlayerTracking.InsertKeepsStable | trackers/player_tracker.py:32 | inserting the first candidate into a stable sort of the rest gives a stable sort of all candidates |
| PlayerTracking.SortByScoreIsStable | trackers/player_tracker.py:32 | the sort result is in non-decreasing score order, and candidates with equal scores keep their detection order |
| PlayerTracking.Ids | trackers/player_tracker.py:33 | the returned list holds the track id of each kept candidate, in order |
| PlayerTracking.FirstTwo | trackers/player_tracker.py:33 | the slice `[:2]` is the prefix of length `min(2, n)` |
| PlayerTracking.FirstTwoIsSelection | trackers/player_tracker.py:32-33 | the first two ids of any stable sort by score are the selection: `min(2, n)` distinct ids of candidates, ordered by (score, detection index), and none of them ranks after an unchosen candidate |
| PlayerTracking.FirstTwoOfSortIsSelection | trackers/player_tracker.py:32-33 | taking the first two ids of the sort model yields the selection |
| PlayerTracking.SelectionUnique | trackers/player_tracker.py:32-33 | at most one id list meets the selection's conditions, so they fix the returned ids exactly, order included |
| PlayerTracking.ChosenPlayers | trackers/player_tracker.py:19-33 | `choose_players` returns `min(2, n)` ids for `n` detections; `ChosenPlayersIsSelection` says which ones |
| PlayerTracking.ChosenPlayersIsSelection | trackers/player_tracker.py:19-33 | for a frame with distinct ids, `choose_players` returns `min(2, n)` distinct detected ids, lowest score first, ties in detection order, and no unchosen detection ranks before a chosen one |
| PlayerTracking.RankedScoresAscend | trackers/player_tracker.py:32-33 | a candidate ranked before another never has a strictly larger score, so no unchosen candidate has a strictly smaller score than a chosen one |
| PlayerTracking.ChoosePlayers | trackers/player_tracker.py:19-33 | the nested loops fail exactly when the frame has a detection and the keypoint list has odd length; otherwise they return the chosen ids, and these form the selection |
| PlayerTracking.Restrict | trackers/player_tracker.py:15 | the filtered dictionary is no larger than the frame and every key it keeps is a chosen id |
| PlayerTracking.RestrictKeepsOrder | trackers/player_tracker.py:15 | the comprehension keeps insertion order: filtering a frame is filtering its entries one by one and concatenating, keeping an entry exactly when its id was chosen |
| PlayerTracking.RestrictMembers | trackers/player_tracker.py:15 | a filtered frame holds exactly the entries of the frame whose id was chosen, with their boxes unchanged |
| PlayerTracking.RestrictIdempotent | trackers/player_tracker.py:15 | filtering a filtered frame again with the same ids changes nothing |
| PlayerTracking.RestrictKeepsDistinctIds | trackers/player_tracker.py:15 | a filtered dictionary still has unique keys |
| PlayerTracking.RestrictSize | trackers/player_tracker.py:15 | a filtered frame has no more entries than there are chosen ids |
| PlayerTracking.ChooseAndFilterPlayers | trackers/player_tracker.py:10-17 | fails on an empty frame list, and fails when `choose_players` fails; otherwise returns one frame per input frame, each restricted to the ids chosen from the first frame |
| PlayerTracking.FilteredFramesHoldChosenPlayers | trackers/player_tracker.py:10-17 | every filtered frame holds at most two entries, all with chosen ids |
| MiniCourts.LayoutPoints | mini_court/mini_court.py:26-55 | position of each of the 14 points in terms of the court corner, the width and the one conversion value; point 1 repeats point 0, point 8 repeats point 5, point 10 repeats point 4, and both centre-line points share one truncated x |
| MiniCourts.LayoutDetermined | mini_court/mini_court.py:26-55 | the 28 coordinates are determined by the court corner, the width and the conversion value |
| MiniCourts.CourtLinesShape | mini_court/mini_court.py:59-71 | there are 9 lines, each joining two of the 14 points, and `(10, 11)` appears twice |
| MiniCourts.MiniCourt.ConvertMetersToPixels | mini_court/mini_court.py:21-24 | the conversion of the court's drawing width, whatever the measure; `ConversionIgnoresMeasure` states the independence from `meters` |
| MiniCourts.MiniCourt.constructor | mini_court/mini_court.py:10-19 | the built court is consistent (`Valid`); the canvas spans `x` from `w - 300` to `w - 50` and `y` from 50 to 500; the court spans `x` from `w - 280` to `w - 70` and `y` from 70 to 480; the drawing width is 210; every conversion is `convertWidth(210)` |
| MiniCourts.MiniCourt.SetCanvasBackgroundBoxPosition | mini_court/mini_court.py:81-87 | the canvas's right edge is `buffer` pixels in from the frame width, its bottom is `buffer + height`, and it is `width` by `height` in size |
| MiniCourts.MiniCourt.SetMiniCourtPosition | mini_court/mini_court.py:73-79 | the court is the canvas shrunk by `padding_court` on every side, and the drawing width is its width |
| MiniCourts.MiniCourt.SetCourtDrawingKeypoints | mini_court/mini_court.py:26-57 | the stored 28-entry list is laid out from the court corner, the drawing width and the conversion value |
| MiniCourts.MiniCourt.FillOuterPoints | mini_court/mini_court.py:30-43 | entries 0 to 15 are the court corner and the corner shifted by the width or the conversion value, and entries 16 to 27 are left unchanged |
| MiniCourts.MiniCourt.FillInnerPoints | mini_court/mini_court.py:44-55 | entries 16 to 27 are derived from entries 8 to 11, and entries 0 to 15 are left unchanged |
| MiniCourts.MiniCourt.SetCourtLines | mini_court/mini_court.py:59-71 | the line list is the fixed list of nine index pairs |
| MiniCourts.CanvasGeometry | mini_court/mini_court.py:81-87 | the canvas is 250 by 450 pixels, from `y = 50` to `y = 500` |
| MiniCourts.CourtGeometry | mini_court/mini_court.py:73-79 | the court is inset 20 pixels on every side and is 210 pixels wide, whatever the frame width |
| MiniCourts.ConversionIgnoresMeasure | mini_court/mini_court.py:21-24 | `convert_meters_to_pixels` returns the same value whatever measure it is given |
| MiniCourts.LinesIndexDrawnPoints | mini_court/mini_court.py:59-71 | both ends of every line of a built court index coordinates inside the 28-entry keypoint list |

## Left out

- BboxUtils.SquaredDistance: the model returns the square of `measure_distance`. The square root is floating point and is left out. It is monotone, so every `<` comparison in `choose_players` has the same outcome on squared distances.
- Floating point: every float is an exact real number. The model does not capture rounding, NaN, or Python's mixing of `int` and `float` list entries.
- `convert_meters_to_pixel_distance`, `convert_pixel_distance_to_meters` and the `constants` values are not part of this model. The conversion is the parameter `convertWidth`, a function of the court's drawing width. The measures are the names in `Measure`, without their metre values.
- MiniCourts.MiniCourt.constructor takes the frame's width instead of the frame. `__init__` passes the frame to `set_canvas_background_box_position`, which copies it and reads only its width.
- MiniCourts.MiniCourt.SetCourtDrawingKeypoints reads each conversion once, before it fills the array. The source calls `convert_meters_to_pixels` at each use. Each call returns the same value, so the two are equivalent.
- MiniCourts.MiniCourt.SetCourtDrawingKeypoints fills entries 0 to 15 and then 16 to 27 through two helper methods. The assignments and their order are the source's.
- `draw_background_rectangle` and `draw_mini_court` are left out: they are image rendering with cv2 and numpy.
- `PlayerTracker.__init__`, `detect_frames`, `detect_frame` and `draw_bboxes` are left out: they are YOLO inference, pickle file I/O and rendering.
- The program's entry point is left out: it only reads and writes video and wires the components together.
- PlayerTracking.ChoosePlayers sorts with the function `SortByScore` rather than in place. The model does not reproduce the library's sort algorithm, only its contract: a stable sort by score.
- Dictionaries are sequences of entries with distinct keys in insertion order. The filter builds a new sequence with the function `Restrict`, in the same order.
- Ball tracking, the court keypoint detector, shot detection, speed statistics and coordinate projection are not part of this model.
