/**
 * The mini-court overlay's geometry: a fixed-size canvas in the top-right corner
 * of the video frame, a court inset in it, the 14 court points drawn on it and
 * the lines joining them.
 */
module MiniCourts {
  import opened BboxUtils

  /**
   * The court measures `convert_meters_to_pixels` is asked to convert. Their
   * metre values live in the constants module, which is not part of this model.
   */
  datatype Measure = DoubleCourtLength | DoubleAlleyDifference | NoMansLandHeight | SinglesLineWidth

  /** The pairs of point indices `set_court_lines` joins, `(10, 11)` listed twice as in the source. */
  const CourtLines: seq<(int, int)> :=
    [(0, 2), (4, 5), (6, 7), (1, 3), (0, 1), (8, 9), (10, 11), (10, 11), (2, 3)]

  /**
   * `kp` is the keypoint list `set_court_drawing_keypoints` fills for a court whose
   * top-left corner is `(sx, sy)`, whose drawing width is `w`, and where every
   * metre conversion yields `c`. Each entry is tied to the entries it is computed
   * from, in the source's order.
   */
  ghost predicate LaidOut(kp: seq<real>, sx: int, sy: int, w: int, c: real)
  {
    |kp| == 28 &&
    kp[0] == sx as real && kp[1] == sy as real &&
    kp[2] == sx as real && kp[3] == sy as real &&
    kp[4] == sx as real && kp[5] == sy as real + c &&
    kp[6] == kp[0] + w as real && kp[7] == kp[5] &&
    kp[8] == kp[0] + c && kp[9] == kp[1] &&
    kp[10] == kp[4] + c && kp[11] == kp[5] &&
    kp[12] == kp[2] - c && kp[13] == kp[3] &&
    kp[14] == kp[6] - c && kp[15] == kp[7] &&
    kp[16] == kp[8] && kp[17] == kp[9] + c &&
    kp[18] == kp[16] + c && kp[19] == kp[17] &&
    kp[20] == kp[10] && kp[21] == kp[11] - c &&
    kp[22] == kp[20] + c && kp[23] == kp[21] &&
    kp[24] == Trunc((kp[16] + kp[18]) / 2.0) as real && kp[25] == kp[17] &&
    kp[26] == Trunc((kp[20] + kp[22]) / 2.0) as real && kp[27] == kp[21]
  }

  /** Point `i` of a keypoint list, `(kp[2i], kp[2i+1])`. */
  function PointAt(kp: seq<real>, i: int): (real, real)
    requires 0 <= i < |kp| / 2
  {
    (kp[2 * i], kp[2 * i + 1])
  }

  /**
   * Where each point lands, in terms of the corner, the width and `c`. Because one
   * conversion value serves every measure, point 1 repeats point 0, the far
   * service-line point 8 repeats point 5, point 10 repeats point 4, and both
   * centre-line points share the x coordinate `trunc(sx + 3c/2)`.
   */
  lemma LayoutPoints(kp: seq<real>, sx: int, sy: int, w: int, c: real)
    requires LaidOut(kp, sx, sy, w, c)
    ensures PointAt(kp, 0) == PointAt(kp, 1) == (sx as real, sy as real)
    ensures PointAt(kp, 2) == (sx as real, sy as real + c)
    ensures PointAt(kp, 3) == (sx as real + w as real, sy as real + c)
    ensures PointAt(kp, 4) == (sx as real + c, sy as real)
    ensures PointAt(kp, 5) == (sx as real + c, sy as real + c)
    ensures PointAt(kp, 6) == (sx as real - c, sy as real)
    ensures PointAt(kp, 7) == (sx as real + w as real - c, sy as real + c)
    ensures PointAt(kp, 8) == PointAt(kp, 5)
    ensures PointAt(kp, 9) == (sx as real + 2.0 * c, sy as real + c)
    ensures PointAt(kp, 10) == PointAt(kp, 4)
    ensures PointAt(kp, 11) == (sx as real + 2.0 * c, sy as real)
    ensures PointAt(kp, 12) == (Trunc(sx as real + 1.5 * c) as real, sy as real + c)
    ensures PointAt(kp, 13) == (Trunc(sx as real + 1.5 * c) as real, sy as real)
  {
    assert (kp[16] + kp[18]) / 2.0 == sx as real + 1.5 * c;
    assert (kp[20] + kp[22]) / 2.0 == sx as real + 1.5 * c;
  }

  /** The keypoint list is determined by the corner, the width and `c`. */
  lemma LayoutDetermined(kp: seq<real>, kp': seq<real>, sx: int, sy: int, w: int, c: real)
    requires LaidOut(kp, sx, sy, w, c) && LaidOut(kp', sx, sy, w, c)
    ensures kp == kp'
  {
    forall i | 0 <= i < 28
      ensures kp[i] == kp'[i]
    {
      if i == 24 || i == 26 {
        assert (kp[16] + kp[18]) / 2.0 == (kp'[16] + kp'[18]) / 2.0;
        assert (kp[20] + kp[22]) / 2.0 == (kp'[20] + kp'[22]) / 2.0;
      }
    }
  }

  /** Every line joins two of the 14 drawn points, and the list holds `(10, 11)` twice. */
  lemma CourtLinesShape()
    ensures |CourtLines| == 9
    ensures forall l :: l in CourtLines ==> 0 <= l.0 < 14 && 0 <= l.1 < 14
    ensures multiset(CourtLines)[(10, 11)] == 2
  {
  }

  /** The mini-court as `MiniCourt.__init__` leaves it. */
  class MiniCourt {
    // Set once by `__init__` and never reassigned.
    const drawingRectangleWidth: int := 250
    const drawingRectangleHeight: int := 450
    const buffer: int := 50
    const paddingCourt: int := 20

    var startX: int
    var startY: int
    var endX: int
    var endY: int

    var courtStartX: int
    var courtStartY: int
    var courtEndX: int
    var courtEndY: int
    var courtDrawingWidth: int

    /**
     * `convert_meters_to_pixel_distance` with the constant arguments the source
     * passes it, as a function of the court's drawing width. It is a fixed
     * function, so it is a constant of the object.
     */
    const convertWidth: int -> real

    var drawingKeypoints: seq<real>
    var lines: seq<(int, int)>

    /** The canvas box relative to its right edge, as `set_canvas_background_box_position` places it. */
    ghost predicate CanvasPlaced()
      reads this`startX, this`startY, this`endX, this`endY
    {
      endY == buffer + drawingRectangleHeight &&
      startX == endX - drawingRectangleWidth &&
      startY == endY - drawingRectangleHeight
    }

    /** The court inside the canvas, as `set_mini_court_position` places it. */
    ghost predicate CourtInset()
      reads this`startX, this`startY, this`endX, this`endY
      reads this`courtStartX, this`courtStartY, this`courtEndX, this`courtEndY, this`courtDrawingWidth
    {
      courtStartX == startX + paddingCourt &&
      courtStartY == startY + paddingCourt &&
      courtEndX == endX - paddingCourt &&
      courtEndY == endY - paddingCourt &&
      courtDrawingWidth == courtEndX - courtStartX
    }

    /** The keypoint list, as `set_court_drawing_keypoints` fills it. */
    ghost predicate KeypointsLaidOut()
      reads this`drawingKeypoints
      reads this`courtStartX, this`courtStartY, this`courtDrawingWidth
    {
      LaidOut(drawingKeypoints, courtStartX, courtStartY, courtDrawingWidth,
              ConvertMetersToPixels(DoubleCourtLength))
    }

    ghost predicate Valid()
      reads this
    {
      CanvasPlaced() && CourtInset() && KeypointsLaidOut() &&
      lines == CourtLines
    }

    /** `convert_meters_to_pixels`: the conversion of the court width; `meters` is not used. */
    function ConvertMetersToPixels(meters: Measure): real
      reads this`courtDrawingWidth
    {
      convertWidth(courtDrawingWidth)
    }

    /** `__init__`: only the frame's width is read from the frame. */
    constructor (frameWidth: int, convertWidth: int -> real)
      ensures Valid()
      ensures this.convertWidth == convertWidth
      ensures startX == frameWidth - 300 && endX == frameWidth - 50 && startY == 50 && endY == 500
      ensures courtStartX == frameWidth - 280 && courtEndX == frameWidth - 70
      ensures courtStartY == 70 && courtEndY == 480 && courtDrawingWidth == 210
      ensures forall m :: ConvertMetersToPixels(m) == convertWidth(210)
    {
      this.convertWidth := convertWidth;
      drawingKeypoints := [];
      lines := [];
      new;
      SetCanvasBackgroundBoxPosition(frameWidth);
      SetMiniCourtPosition();
      SetCourtDrawingKeypoints();
      SetCourtLines();
    }

    /** `set_canvas_background_box_position`: a canvas `buffer` pixels in from the top-right corner. */
    method SetCanvasBackgroundBoxPosition(frameWidth: int)
      modifies this`endX, this`endY, this`startX, this`startY
      ensures CanvasPlaced()
      ensures endX == frameWidth - buffer
    {
      endX := frameWidth - buffer;
      endY := buffer + drawingRectangleHeight;
      startX := endX - drawingRectangleWidth;
      startY := endY - drawingRectangleHeight;
    }

    /** `set_mini_court_position`: the court inset by `padding_court` on every side. */
    method SetMiniCourtPosition()
      modifies this`courtStartX, this`courtStartY, this`courtEndX, this`courtEndY, this`courtDrawingWidth
      ensures CourtInset()
    {
      courtStartX := startX + paddingCourt;
      courtStartY := startY + paddingCourt;
      courtEndX := endX - paddingCourt;
      courtEndY := endY - paddingCourt;
      courtDrawingWidth := courtEndX - courtStartX;
    }

    /**
     * `set_court_drawing_keypoints`: a fresh 28-slot list filled entry by entry, then
     * stored on the object; nothing changes it afterwards, so the field holds its contents.
     * The corner coordinates are already integers, so `int()` leaves them unchanged.
     * Each conversion is read once before the list is filled; none depends on it.
     */
    method SetCourtDrawingKeypoints()
      modifies this`drawingKeypoints
      ensures KeypointsLaidOut()
    {
      var courtLength := ConvertMetersToPixels(DoubleCourtLength);
      var alleyDifference := ConvertMetersToPixels(DoubleAlleyDifference);
      var noMansLand := ConvertMetersToPixels(NoMansLandHeight);
      var singlesWidth := ConvertMetersToPixels(SinglesLineWidth);
      var kp := new real[28](_ => 0.0);
      FillOuterPoints(kp, courtStartX as real, courtStartY as real, courtDrawingWidth as real, courtLength, alleyDifference);
      FillInnerPoints(kp, noMansLand, singlesWidth);
      drawingKeypoints := kp[..];
    }

    /** Entries 0 to 15 of `set_court_drawing_keypoints`: the ends of the baselines and sidelines. */
    static method FillOuterPoints(kp: array<real>, sx: real, sy: real, w: real, courtLength: real, alleyDifference: real)
      requires kp.Length == 28
      modifies kp
      ensures kp[0] == sx && kp[1] == sy && kp[2] == sx && kp[3] == sy
      ensures kp[4] == sx && kp[5] == sy + courtLength && kp[6] == kp[0] + w && kp[7] == kp[5]
      ensures kp[8] == kp[0] + alleyDifference && kp[9] == kp[1]
      ensures kp[10] == kp[4] + alleyDifference && kp[11] == kp[5]
      ensures kp[12] == kp[2] - alleyDifference && kp[13] == kp[3]
      ensures kp[14] == kp[6] - alleyDifference && kp[15] == kp[7]
      ensures forall i :: 16 <= i < 28 ==> kp[i] == old(kp[i])
    {
      kp[0], kp[1] := sx, sy;
      kp[2], kp[3] := sx, sy;
      kp[4] := sx;
      kp[5] := sy + courtLength;
      kp[6] := kp[0] + w;
      kp[7] := kp[5];
      kp[8] := kp[0] + alleyDifference;
      kp[9] := kp[1];
      kp[10] := kp[4] + alleyDifference;
      kp[11] := kp[5];
      kp[12] := kp[2] - alleyDifference;
      kp[13] := kp[3];
      kp[14] := kp[6] - alleyDifference;
      kp[15] := kp[7];
    }

    /** Entries 16 to 27 of `set_court_drawing_keypoints`: the service lines and the centre line. */
    static method FillInnerPoints(kp: array<real>, noMansLand: real, singlesWidth: real)
      requires kp.Length == 28
      modifies kp
      ensures forall i :: 0 <= i < 16 ==> kp[i] == old(kp[i])
      ensures kp[16] == kp[8] && kp[17] == kp[9] + noMansLand
      ensures kp[18] == kp[16] + singlesWidth && kp[19] == kp[17]
      ensures kp[20] == kp[10] && kp[21] == kp[11] - noMansLand
      ensures kp[22] == kp[20] + singlesWidth && kp[23] == kp[21]
      ensures kp[24] == Trunc((kp[16] + kp[18]) / 2.0) as real && kp[25] == kp[17]
      ensures kp[26] == Trunc((kp[20] + kp[22]) / 2.0) as real && kp[27] == kp[21]
    {
      kp[16] := kp[8];
      kp[17] := kp[9] + noMansLand;
      kp[18] := kp[16] + singlesWidth;
      kp[19] := kp[17];
      kp[20] := kp[10];
      kp[21] := kp[11] - noMansLand;
      kp[22] := kp[20] + singlesWidth;
      kp[23] := kp[21];
      kp[24] := Trunc((kp[16] + kp[18]) / 2.0) as real;
      kp[25] := kp[17];
      kp[26] := Trunc((kp[20] + kp[22]) / 2.0) as real;
      kp[27] := kp[21];
    }

    /** `set_court_lines`. */
    method SetCourtLines()
      modifies this`lines
      ensures lines == CourtLines
    {
      lines := CourtLines;
    }
  }

  /** The canvas is 250 by 450 pixels, 50 pixels below the top edge of the frame. */
  lemma CanvasGeometry(m: MiniCourt)
    requires m.Valid()
    ensures m.endX - m.startX == 250 && m.endY - m.startY == 450
    ensures m.startY == 50 && m.endY == 500
  {
  }

  /** The court is inset 20 pixels on every side, so its drawing width is 210 whatever the frame. */
  lemma CourtGeometry(m: MiniCourt)
    requires m.Valid()
    ensures m.courtStartX - m.startX == 20 && m.courtStartY - m.startY == 20
    ensures m.endX - m.courtEndX == 20 && m.endY - m.courtEndY == 20
    ensures m.courtDrawingWidth == 210
  {
  }

  /** `convert_meters_to_pixels` gives one value whatever measure it is asked for. */
  lemma ConversionIgnoresMeasure(m: MiniCourt, a: Measure, b: Measure)
    ensures m.ConvertMetersToPixels(a) == m.ConvertMetersToPixels(b)
  {
  }

  /** The lines of a built mini-court index points that exist among its 28 coordinates. */
  lemma LinesIndexDrawnPoints(m: MiniCourt)
    requires m.Valid()
    ensures forall l :: l in m.lines ==>
              0 <= 2 * l.0 + 1 < |m.drawingKeypoints| && 0 <= 2 * l.1 + 1 < |m.drawingKeypoints|
  {
    CourtLinesShape();
  }
}
