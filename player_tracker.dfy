/**
 * Player selection (`PlayerTracker.choose_players`) and per-frame filtering
 * (`PlayerTracker.choose_and_filter_players`).
 *
 * A frame's `{track_id: bbox}` dictionary is a sequence of entries in insertion
 * order whose track ids are distinct.
 */
module PlayerTracking {
  import opened BboxUtils

  type TrackId = int

  /** One entry `track_id: bbox` of a frame's dictionary. */
  type Detection = (TrackId, BBox)

  /** A frame's detections, in dictionary insertion order. */
  type Frame = seq<Detection>

  /** Dictionary keys are unique. */
  predicate DistinctIds(frame: Frame)
  {
    forall i, j :: 0 <= i < j < |frame| ==> frame[i].0 != frame[j].0
  }

  /** The two ways the source raises `IndexError`. */
  datatype TrackerError =
    | NoFrames                 // `player_detections[0]` on an empty list
    | KeypointIndexOutOfRange  // `court_keypoints[i+1]` on an odd-length list

  datatype Result<T> = Success(value: T) | Failure(error: TrackerError)

  /** `min_distance`: `float('inf')` until some keypoint has been measured. */
  datatype Score = Infinite | Finite(value: real)

  /** Python's `<` between two scores. */
  predicate Below(a: Score, b: Score)
  {
    match (a, b)
    case (Finite(x), Finite(y)) => x < y
    case (Finite(_), Infinite) => true
    case (Infinite, _) => false
  }

  /** The `i`-th court keypoint `(court_keypoints[2i], court_keypoints[2i+1])`. */
  function Keypoint(kps: seq<real>, i: int): Point
    requires 0 <= i < |kps| / 2
  {
    (kps[2 * i], kps[2 * i + 1])
  }

  /**
   * The score `choose_players` computes for a player centre: the smallest (squared)
   * distance to any court keypoint, built pair by pair as the inner loop does.
   */
  function NearestKeypointScore(center: Point, kps: seq<real>): (r: Score)
    requires |kps| % 2 == 0
    ensures r.Infinite? <==> kps == []
    ensures r.Finite? ==> 0.0 <= r.value
    decreases |kps|
  {
    if kps == [] then Infinite
    else
      var rest := NearestKeypointScore(center, kps[..|kps| - 2]);
      var d := Finite(SquaredDistance(center, (kps[|kps| - 2], kps[|kps| - 1])));
      if Below(d, rest) then d else rest
  }

  /**
   * The score is a minimum over all keypoints: no keypoint is strictly nearer,
   * some keypoint attains it, and it is infinite exactly when there are no keypoints.
   */
  lemma {:induction false} NearestKeypointScoreIsMinimum(center: Point, kps: seq<real>)
    requires |kps| % 2 == 0
    ensures NearestKeypointScore(center, kps) == Infinite <==> kps == []
    ensures forall i :: 0 <= i < |kps| / 2 ==>
              !Below(Finite(SquaredDistance(center, Keypoint(kps, i))), NearestKeypointScore(center, kps))
    ensures kps != [] ==>
              exists i :: 0 <= i < |kps| / 2 &&
                NearestKeypointScore(center, kps) == Finite(SquaredDistance(center, Keypoint(kps, i)))
    decreases |kps|
  {
    if kps != [] {
      var front := kps[..|kps| - 2];
      var last := |kps| / 2 - 1;
      NearestKeypointScoreIsMinimum(center, front);
      assert Keypoint(kps, last) == (kps[|kps| - 2], kps[|kps| - 1]);
      forall i | 0 <= i < last
        ensures Keypoint(kps, i) == Keypoint(front, i)
      {
      }
      if front != [] {
        var w :| 0 <= w < |front| / 2 &&
          NearestKeypointScore(center, front) == Finite(SquaredDistance(center, Keypoint(front, w)));
        assert Keypoint(kps, w) == Keypoint(front, w);
      }
    }
  }

  /** An entry of `chosen_players`: a track id with its score. */
  datatype Candidate = Candidate(id: TrackId, score: Score)

  /** The `chosen_players` list before sorting: one candidate per detection, in order. */
  function Candidates(kps: seq<real>, frame: Frame): (r: seq<Candidate>)
    requires |frame| == 0 || |kps| % 2 == 0
    ensures |r| == |frame|
    ensures forall i :: 0 <= i < |r| ==> r[i].id == frame[i].0
    ensures forall i :: 0 <= i < |r| ==> (r[i].score.Infinite? <==> kps == [])
  {
    seq(|frame|, i requires 0 <= i < |frame| =>
      Candidate(frame[i].0, NearestKeypointScore(CenterPoint(frame[i].1), kps)))
  }

  // ---------------------------------------------------------------------------
  // `chosen_players.sort(key=lambda x: x[1])`: Python's sort is stable, so the
  // library call is modelled by a stable insertion sort on the score.
  // ---------------------------------------------------------------------------

  /** Puts `x` before the first element whose score is not below its own. */
  function Insert(x: Candidate, s: seq<Candidate>): (r: seq<Candidate>)
    ensures |r| == |s| + 1
    ensures multiset(r) == multiset(s) + multiset{x}
  {
    if s == [] || !Below(s[0].score, x.score) then [x] + s
    else
      assert s == [s[0]] + s[1..];
      [s[0]] + Insert(x, s[1..])
  }

  function SortByScore(s: seq<Candidate>): (r: seq<Candidate>)
    ensures |r| == |s|
    ensures multiset(r) == multiset(s)
  {
    if s == [] then []
    else
      assert s == [s[0]] + s[1..];
      Insert(s[0], SortByScore(s[1..]))
  }

  predicate SortedByScore(s: seq<Candidate>)
  {
    forall p, q :: 0 <= p < q < |s| ==> !Below(s[q].score, s[p].score)
  }

  predicate Distinct(s: seq<Candidate>)
  {
    forall i, j :: 0 <= i < j < |s| ==> s[i] != s[j]
  }

  /**
   * Candidate `i` comes strictly before candidate `j` in a stable sort by score:
   * its score is lower, or the scores tie and it was detected first.
   */
  predicate Ranked(c: seq<Candidate>, i: int, j: int)
    requires 0 <= i < |c| && 0 <= j < |c|
  {
    Below(c[i].score, c[j].score) || (c[i].score == c[j].score && i < j)
  }

  /** Every pair of `out` appears in the order `Ranked` gives to their positions in `s`. */
  ghost predicate StablyOrdered(out: seq<Candidate>, s: seq<Candidate>)
  {
    forall p, q, i, j ::
      0 <= p < q < |out| && 0 <= i < |s| && 0 <= j < |s| && out[p] == s[i] && out[q] == s[j] ==>
        Ranked(s, i, j)
  }

  /** How many leading elements of `s` have a score below that of `x`. */
  function InsertPosition(x: Candidate, s: seq<Candidate>): (k: nat)
    ensures k <= |s|
  {
    if s == [] || !Below(s[0].score, x.score) then 0 else 1 + InsertPosition(x, s[1..])
  }

  /** Inserting puts `x` at its insertion position and keeps the rest in order around it. */
  lemma {:induction false} InsertShape(x: Candidate, s: seq<Candidate>)
    ensures Insert(x, s) == s[..InsertPosition(x, s)] + [x] + s[InsertPosition(x, s)..]
  {
    if s != [] && Below(s[0].score, x.score) {
      var t, k := s[1..], InsertPosition(x, s[1..]);
      calc {
        Insert(x, s);
        [s[0]] + Insert(x, t);
        { InsertShape(x, t); }
        [s[0]] + (t[..k] + [x] + t[k..]);
        { assert [s[0]] + t[..k] == s[..k + 1]; assert t[k..] == s[k + 1..]; }
        s[..k + 1] + [x] + s[k + 1..];
      }
    }
  }

  /** Everything before the insertion position has a score below that of `x`. */
  lemma {:induction false} InsertPositionBelow(x: Candidate, s: seq<Candidate>)
    ensures forall m :: 0 <= m < InsertPosition(x, s) ==> Below(s[m].score, x.score)
  {
    if s != [] && Below(s[0].score, x.score) {
      InsertPositionBelow(x, s[1..]);
      forall m | 1 <= m < InsertPosition(x, s)
        ensures Below(s[m].score, x.score)
      {
        assert s[m] == s[1..][m - 1];
      }
    }
  }

  lemma InsertSplits(x: Candidate, s: seq<Candidate>)
    ensures var k := InsertPosition(x, s);
            Insert(x, s) == s[..k] + [x] + s[k..] &&
            (forall m :: 0 <= m < k ==> Below(s[m].score, x.score))
  {
    InsertShape(x, s);
    InsertPositionBelow(x, s);
  }

  lemma BelowIsStrictOrder(a: Score, b: Score, c: Score)
    ensures !Below(a, a)
    ensures Below(a, b) ==> !Below(b, a)
    ensures a != b ==> Below(a, b) || Below(b, a)
    ensures Below(a, b) && Below(b, c) ==> Below(a, c)
    ensures !Below(b, a) && !Below(c, b) ==> !Below(c, a)
  {
  }

  /** In a sorted sequence, nothing from the insertion point on is below `x`. */
  lemma InsertPositionBound(x: Candidate, s: seq<Candidate>)
    requires SortedByScore(s)
    ensures forall m :: InsertPosition(x, s) <= m < |s| ==> !Below(s[m].score, x.score)
  {
    var k := InsertPosition(x, s);
    InsertSplits(x, s);
    if k < |s| {
      assert !Below(s[k].score, x.score) by {
        InsertPositionStops(x, s);
      }
      forall m | k <= m < |s|
        ensures !Below(s[m].score, x.score)
      {
        BelowIsStrictOrder(x.score, s[k].score, s[m].score);
      }
    }
  }

  lemma {:induction false} InsertPositionStops(x: Candidate, s: seq<Candidate>)
    requires InsertPosition(x, s) < |s|
    ensures !Below(s[InsertPosition(x, s)].score, x.score)
  {
    if s != [] && Below(s[0].score, x.score) {
      InsertPositionStops(x, s[1..]);
    }
  }

  /** Where each element of `Insert(x, s)` comes from: `x` at the insertion point, `s` around it. */
  lemma InsertLayout(x: Candidate, s: seq<Candidate>)
    ensures var k, out := InsertPosition(x, s), Insert(x, s);
            out[k] == x &&
            (forall p :: 0 <= p < k ==> out[p] == s[p]) &&
            (forall p :: k < p < |out| ==> out[p] == s[p - 1])
  {
    InsertSplits(x, s);
  }

  /** Inserting into a sorted sequence keeps it sorted. */
  lemma InsertKeepsSorted(x: Candidate, s: seq<Candidate>)
    requires SortedByScore(s)
    ensures SortedByScore(Insert(x, s))
  {
    var k, out := InsertPosition(x, s), Insert(x, s);
    InsertLayout(x, s);
    InsertSplits(x, s);
    InsertPositionBound(x, s);
    forall p, q | 0 <= p < q < |out|
      ensures !Below(out[q].score, out[p].score)
    {
      if q == k {
        BelowIsStrictOrder(out[p].score, x.score, x.score);
      } else if p != k {
        var p', q' := if p < k then p else p - 1, if q < k then q else q - 1;
        assert out[p] == s[p'] && out[q] == s[q'] && p' < q';
      }
    }
  }

  /** Nothing in a permutation of `s[1..]` equals `s[0]` when `s` has no repeats. */
  lemma FirstNotInRest(s: seq<Candidate>, rest: seq<Candidate>)
    requires Distinct(s) && s != []
    requires multiset(rest) == multiset(s[1..])
    ensures forall m :: 0 <= m < |rest| ==> rest[m] != s[0]
  {
    forall m | 0 <= m < |rest|
      ensures rest[m] != s[0]
    {
      assert rest[m] in multiset(s[1..]);
      var n :| 0 <= n < |s| - 1 && s[1..][n] == rest[m];
      assert s[n + 1] == rest[m];
    }
  }

  /** Inserting `s[0]` into a stable sort of `s[1..]` gives a stable sort of `s`. */
  lemma InsertKeepsStable(s: seq<Candidate>, sorted: seq<Candidate>)
    requires Distinct(s) && s != []
    requires multiset(sorted) == multiset(s[1..])
    requires SortedByScore(sorted) && StablyOrdered(sorted, s[1..])
    ensures StablyOrdered(Insert(s[0], sorted), s)
  {
    var x, t := s[0], s[1..];
    var k, out := InsertPosition(x, sorted), Insert(x, sorted);
    InsertLayout(x, sorted);
    InsertSplits(x, sorted);
    InsertPositionBound(x, sorted);
    FirstNotInRest(s, sorted);
    forall p, q, i, j | 0 <= p < q < |out| && 0 <= i < |s| && 0 <= j < |s| && out[p] == s[i] && out[q] == s[j]
      ensures Ranked(s, i, j)
    {
      if p == k {
        assert out[q] == sorted[q - 1];
        assert i == 0 && j != 0;
        BelowIsStrictOrder(x.score, out[q].score, out[q].score);
      } else if q == k {
        assert out[p] == sorted[p];
        assert j == 0;
      } else {
        var p', q' := if p < k then p else p - 1, if q < k then q else q - 1;
        assert out[p] == sorted[p'] && out[q] == sorted[q'] && p' < q';
        assert i != 0 && j != 0;
        assert t[i - 1] == s[i] && t[j - 1] == s[j];
        assert Ranked(t, i - 1, j - 1);
      }
    }
  }

  /**
   * The sort model is a stable sort: its result is sorted by score, and any two
   * candidates appear in `Ranked` order, so ties keep detection order.
   */
  lemma {:induction false} SortByScoreIsStable(s: seq<Candidate>)
    requires Distinct(s)
    ensures SortedByScore(SortByScore(s))
    ensures StablyOrdered(SortByScore(s), s)
  {
    if s != [] {
      assert Distinct(s[1..]);
      SortByScoreIsStable(s[1..]);
      InsertKeepsSorted(s[0], SortByScore(s[1..]));
      InsertKeepsStable(s, SortByScore(s[1..]));
    }
  }

  // ---------------------------------------------------------------------------
  // The selection.
  // ---------------------------------------------------------------------------

  /** `[player[0] for player in s]`. */
  function Ids(s: seq<Candidate>): (r: seq<TrackId>)
    ensures |r| == |s|
    ensures forall p :: 0 <= p < |s| ==> r[p] == s[p].id
  {
    seq(|s|, p requires 0 <= p < |s| => s[p].id)
  }

  /** Python's slice `s[:2]`. */
  function FirstTwo(s: seq<Candidate>): (r: seq<Candidate>)
    ensures |r| == if |s| < 2 then |s| else 2
    ensures r == s[..|r|]
  {
    if |s| < 2 then s else s[..2]
  }

  /**
   * What it means for `r` to be the ids `choose_players` returns for candidates `c`:
   * the first `min(2, |c|)` candidates in `Ranked` order, lowest score first.
   */
  ghost predicate IsSelection(c: seq<Candidate>, r: seq<TrackId>)
  {
    |r| == (if |c| < 2 then |c| else 2) &&
    (forall p :: 0 <= p < |r| ==> exists i :: 0 <= i < |c| && c[i].id == r[p]) &&
    (forall p, q :: 0 <= p < q < |r| ==> r[p] != r[q]) &&
    (forall p, q, i, j ::
       0 <= p < q < |r| && 0 <= i < |c| && 0 <= j < |c| && c[i].id == r[p] && c[j].id == r[q] ==>
         Ranked(c, i, j)) &&
    (forall i, j :: 0 <= i < |c| && 0 <= j < |c| && c[i].id in r && c[j].id !in r ==> Ranked(c, i, j))
  }

  predicate DistinctCandidateIds(c: seq<Candidate>)
  {
    forall i, j :: 0 <= i < j < |c| ==> c[i].id != c[j].id
  }

  /** In a permutation of candidates with unique ids, an id pins down which candidate it is. */
  lemma PermutationLocates(c: seq<Candidate>, out: seq<Candidate>)
    requires DistinctCandidateIds(c)
    requires multiset(out) == multiset(c)
    ensures forall p :: 0 <= p < |out| ==> exists i :: 0 <= i < |c| && c[i] == out[p]
    ensures forall i :: 0 <= i < |c| ==> exists q :: 0 <= q < |out| && out[q] == c[i]
    ensures forall p, i :: 0 <= p < |out| && 0 <= i < |c| && c[i].id == out[p].id ==> out[p] == c[i]
  {
    forall p | 0 <= p < |out|
      ensures exists i :: 0 <= i < |c| && c[i] == out[p]
    {
      assert out[p] in multiset(c);
    }
    forall i | 0 <= i < |c|
      ensures exists q :: 0 <= q < |out| && out[q] == c[i]
    {
      assert c[i] in multiset(out);
    }
    forall p, i | 0 <= p < |out| && 0 <= i < |c| && c[i].id == out[p].id
      ensures out[p] == c[i]
    {
      var i' :| 0 <= i' < |c| && c[i'] == out[p];
      assert i' == i;
    }
  }

  /** The first two ids of a stable sort of candidates with unique ids differ. */
  lemma FirstTwoDistinct(c: seq<Candidate>, out: seq<Candidate>, r: seq<TrackId>)
    requires DistinctCandidateIds(c)
    requires multiset(out) == multiset(c)
    requires StablyOrdered(out, c)
    requires r == Ids(FirstTwo(out))
    ensures forall p, q :: 0 <= p < q < |r| ==> r[p] != r[q]
  {
    PermutationLocates(c, out);
    forall p, q | 0 <= p < q < |r|
      ensures r[p] != r[q]
    {
      var i :| 0 <= i < |c| && c[i] == out[p];
      assert !Ranked(c, i, i);
      assert out[q] != c[i];
    }
  }

  /** The first two ids of a stable sort come in `Ranked` order. */
  lemma FirstTwoInOrder(c: seq<Candidate>, out: seq<Candidate>, r: seq<TrackId>)
    requires DistinctCandidateIds(c)
    requires multiset(out) == multiset(c)
    requires StablyOrdered(out, c)
    requires r == Ids(FirstTwo(out))
    ensures forall p, q, i, j ::
      0 <= p < q < |r| && 0 <= i < |c| && 0 <= j < |c| && c[i].id == r[p] && c[j].id == r[q] ==>
        Ranked(c, i, j)
  {
    PermutationLocates(c, out);
  }

  /** A candidate among the first two of a stable sort ranks before every candidate left out. */
  lemma FirstTwoBeforeRest(c: seq<Candidate>, out: seq<Candidate>, r: seq<TrackId>)
    requires DistinctCandidateIds(c)
    requires multiset(out) == multiset(c)
    requires StablyOrdered(out, c)
    requires r == Ids(FirstTwo(out))
    ensures forall i, j :: 0 <= i < |c| && 0 <= j < |c| && c[i].id in r && c[j].id !in r ==> Ranked(c, i, j)
  {
    assert |r| <= |out|;
    assert forall k :: 0 <= k < |r| ==> out[k].id == r[k] && out[k].id in r;
    forall i, j | 0 <= i < |c| && 0 <= j < |c| && c[i].id in r && c[j].id !in r
      ensures Ranked(c, i, j)
    {
      var p :| 0 <= p < |r| && r[p] == c[i].id;
      assert out[p] in multiset(c);
      var i' :| 0 <= i' < |c| && c[i'] == out[p];
      assert i' == i;
      assert c[j] in multiset(out);
      var q :| 0 <= q < |out| && out[q] == c[j];
      assert out[q].id !in r;
      assert q >= |r|;
    }
  }

  /** The first two ids of any stable sort by score form the selection. */
  lemma FirstTwoIsSelection(c: seq<Candidate>, out: seq<Candidate>)
    requires DistinctCandidateIds(c)
    requires multiset(out) == multiset(c) && |out| == |c|
    requires StablyOrdered(out, c)
    ensures IsSelection(c, Ids(FirstTwo(out)))
  {
    var r := Ids(FirstTwo(out));
    assert forall p :: 0 <= p < |r| ==> r[p] == out[p].id;
    forall p | 0 <= p < |r|
      ensures exists i :: 0 <= i < |c| && c[i].id == r[p]
    {
      assert out[p] in multiset(c);
      var i :| 0 <= i < |c| && c[i] == out[p];
      assert c[i].id == r[p];
    }
    FirstTwoDistinct(c, out, r);
    FirstTwoInOrder(c, out, r);
    FirstTwoBeforeRest(c, out, r);
  }

  /** Taking the first two ids of the sort model yields exactly the selection. */
  lemma FirstTwoOfSortIsSelection(c: seq<Candidate>)
    requires DistinctCandidateIds(c)
    ensures IsSelection(c, Ids(FirstTwo(SortByScore(c))))
  {
    SortByScoreIsStable(c);
    FirstTwoIsSelection(c, SortByScore(c));
  }

  /** Two candidates never each rank before the other. */
  lemma RankedAsymmetric(c: seq<Candidate>, i: int, j: int)
    requires 0 <= i < |c| && 0 <= j < |c|
    ensures Ranked(c, i, j) ==> !Ranked(c, j, i)
  {
    BelowIsStrictOrder(c[i].score, c[j].score, c[i].score);
  }

  /** Two selections pick the same ids: one picked only by `r1` and one picked only by `r2` would each rank before the other. */
  lemma SelectionsShareIds(c: seq<Candidate>, r1: seq<TrackId>, r2: seq<TrackId>)
    requires IsSelection(c, r1) && IsSelection(c, r2)
    ensures forall p, q :: 0 <= p < |r1| && 0 <= q < |r2| ==> r1[p] in r2 || r2[q] in r1
  {
    forall p, q | 0 <= p < |r1| && 0 <= q < |r2|
      ensures r1[p] in r2 || r2[q] in r1
    {
      var i :| 0 <= i < |c| && c[i].id == r1[p];
      var j :| 0 <= j < |c| && c[j].id == r2[q];
      RankedAsymmetric(c, i, j);
    }
  }

  /** Two selections of two ids do not list the same pair in opposite orders. */
  lemma SelectionsNotSwapped(c: seq<Candidate>, r1: seq<TrackId>, r2: seq<TrackId>)
    requires IsSelection(c, r1) && IsSelection(c, r2) && |r1| == 2
    ensures r2[0] != r1[1] || r2[1] != r1[0]
  {
    var i :| 0 <= i < |c| && c[i].id == r1[0];
    var j :| 0 <= j < |c| && c[j].id == r1[1];
    assert Ranked(c, i, j);
    RankedAsymmetric(c, i, j);
  }

  /**
   * Two lists of at most two distinct ids, of equal length, are equal when neither
   * has an id the other lacks unless it holds all of the other's, and when they do
   * not list one pair in opposite orders.
   */
  lemma ShortListsEqual(r1: seq<TrackId>, r2: seq<TrackId>)
    requires |r1| == |r2| <= 2
    requires forall p, q :: 0 <= p < q < |r1| ==> r1[p] != r1[q]
    requires forall p, q :: 0 <= p < q < |r2| ==> r2[p] != r2[q]
    requires forall p, q :: 0 <= p < |r1| && 0 <= q < |r2| ==> r1[p] in r2 || r2[q] in r1
    requires |r1| == 2 ==> r2[0] != r1[1] || r2[1] != r1[0]
    ensures r1 == r2
  {
    if |r1| == 1 {
      assert r1 == [r1[0]] && r2 == [r2[0]];
    } else if |r1| == 2 {
      assert r1 == [r1[0], r1[1]] && r2 == [r2[0], r2[1]];
    }
  }

  /** `IsSelection` pins down the returned ids completely: two selections are equal. */
  lemma SelectionUnique(c: seq<Candidate>, r1: seq<TrackId>, r2: seq<TrackId>)
    requires IsSelection(c, r1) && IsSelection(c, r2)
    ensures r1 == r2
  {
    SelectionsShareIds(c, r1, r2);
    if |r1| == 2 {
      SelectionsNotSwapped(c, r1, r2);
    }
    ShortListsEqual(r1, r2);
  }

  /** The ids `choose_players` returns, as a function of its inputs. */
  function ChosenPlayers(kps: seq<real>, frame: Frame): (r: seq<TrackId>)
    requires |frame| == 0 || |kps| % 2 == 0
    ensures |r| == if |frame| < 2 then |frame| else 2
  {
    Ids(FirstTwo(SortByScore(Candidates(kps, frame))))
  }

  lemma CandidatesHaveDistinctIds(kps: seq<real>, frame: Frame)
    requires |frame| == 0 || |kps| % 2 == 0
    requires DistinctIds(frame)
    ensures DistinctCandidateIds(Candidates(kps, frame))
  {
  }

  /**
   * `choose_players` picks `min(2, n)` distinct detected ids, lowest score first, and
   * no candidate left out ranks before one picked: it has a score at least as large,
   * and on a tie it was detected later.
   */
  lemma ChosenPlayersIsSelection(kps: seq<real>, frame: Frame)
    requires |frame| == 0 || |kps| % 2 == 0
    requires DistinctIds(frame)
    ensures IsSelection(Candidates(kps, frame), ChosenPlayers(kps, frame))
  {
    CandidatesHaveDistinctIds(kps, frame);
    FirstTwoOfSortIsSelection(Candidates(kps, frame));
  }

  /** `Ranked` never puts a higher score first. */
  lemma RankedScoresAscend(c: seq<Candidate>, i: int, j: int)
    requires 0 <= i < |c| && 0 <= j < |c| && Ranked(c, i, j)
    ensures !Below(c[j].score, c[i].score)
  {
    BelowIsStrictOrder(c[i].score, c[j].score, c[j].score);
  }

  /**
   * `choose_players`: scores every first-frame detection by its nearest court keypoint,
   * stable-sorts by score and returns the first two track ids.
   */
  method ChoosePlayers(courtKeypoints: seq<real>, playerDict: Frame) returns (r: Result<seq<TrackId>>)
    requires DistinctIds(playerDict)
    ensures r.Failure? <==> |playerDict| > 0 && |courtKeypoints| % 2 == 1
    ensures r.Failure? ==> r.error == KeypointIndexOutOfRange
    ensures r.Success? ==> r.value == ChosenPlayers(courtKeypoints, playerDict)
    ensures r.Success? ==> IsSelection(Candidates(courtKeypoints, playerDict), r.value)
  {
    var chosen: seq<Candidate> := [];
    for k := 0 to |playerDict|
      invariant k > 0 ==> |courtKeypoints| % 2 == 0
      invariant chosen == Candidates(courtKeypoints, playerDict[..k])
    {
      var (trackId, bbox) := playerDict[k];
      var playerCenter := CenterPoint(bbox);
      var minDistance := Infinite;
      var i := 0;
      while i < |courtKeypoints|
        invariant 0 <= i <= |courtKeypoints| && i % 2 == 0
        invariant minDistance == NearestKeypointScore(playerCenter, courtKeypoints[..i])
      {
        if i + 1 == |courtKeypoints| {
          return Failure(KeypointIndexOutOfRange);
        }
        var distance := Finite(SquaredDistance(playerCenter, (courtKeypoints[i], courtKeypoints[i + 1])));
        if Below(distance, minDistance) {
          minDistance := distance;
        }
        assert courtKeypoints[..i + 2][..i] == courtKeypoints[..i];
        i := i + 2;
      }
      assert courtKeypoints[..i] == courtKeypoints;
      chosen := chosen + [Candidate(trackId, minDistance)];
    }
    assert playerDict[..|playerDict|] == playerDict;
    var sorted := SortByScore(chosen);
    r := Success(Ids(FirstTwo(sorted)));
    ChosenPlayersIsSelection(courtKeypoints, playerDict);
  }

  // ---------------------------------------------------------------------------
  // Filtering every frame to the chosen ids.
  // ---------------------------------------------------------------------------

  /** `{track_id: bbox for track_id, bbox in frame.items() if track_id in ids}`. */
  function Restrict(frame: Frame, ids: seq<TrackId>): (r: Frame)
    ensures |r| <= |frame|
    ensures forall k :: 0 <= k < |r| ==> r[k].0 in ids
  {
    if frame == [] then []
    else if frame[0].0 in ids then [frame[0]] + Restrict(frame[1..], ids)
    else Restrict(frame[1..], ids)
  }

  /** A filtered frame holds exactly the entries of the frame whose id is chosen, bboxes unchanged. */
  lemma {:induction false} RestrictMembers(frame: Frame, ids: seq<TrackId>)
    ensures forall e :: e in Restrict(frame, ids) <==> e in frame && e.0 in ids
  {
    if frame != [] {
      RestrictMembers(frame[1..], ids);
      assert frame == [frame[0]] + frame[1..];
    }
  }

  /**
   * The dict comprehension keeps the frame's insertion order: filtering a frame
   * read in two parts is filtering each part, one entry at a time.
   */
  lemma {:induction false} RestrictKeepsOrder(a: Frame, b: Frame, ids: seq<TrackId>)
    ensures Restrict([], ids) == []
    ensures forall e :: Restrict([e], ids) == if e.0 in ids then [e] else []
    ensures Restrict(a + b, ids) == Restrict(a, ids) + Restrict(b, ids)
    decreases |a|
  {
    forall e ensures Restrict([e], ids) == if e.0 in ids then [e] else [] {
      assert [e][1..] == [];
    }
    if a != [] {
      assert (a + b)[0] == a[0];
      assert (a + b)[1..] == a[1..] + b;
      RestrictKeepsOrder(a[1..], b, ids);
    } else {
      assert a + b == b;
    }
  }

  /** Filtering twice with the same ids changes nothing. */
  lemma {:induction false} RestrictIdempotent(frame: Frame, ids: seq<TrackId>)
    ensures Restrict(Restrict(frame, ids), ids) == Restrict(frame, ids)
  {
    if frame != [] {
      RestrictIdempotent(frame[1..], ids);
    }
  }

  /** Filtering keeps the dictionary's keys unique. */
  lemma {:induction false} RestrictKeepsDistinctIds(frame: Frame, ids: seq<TrackId>)
    requires DistinctIds(frame)
    ensures DistinctIds(Restrict(frame, ids))
  {
    if frame != [] {
      RestrictKeepsDistinctIds(frame[1..], ids);
      RestrictMembers(frame[1..], ids);
      if frame[0].0 in ids {
        var rest := Restrict(frame[1..], ids);
        forall m | 0 <= m < |rest|
          ensures rest[m].0 != frame[0].0
        {
          assert rest[m] in frame[1..];
        }
      }
    }
  }

  /** A frame with unique keys, all of them in `ids`, has at most as many entries as `ids` has distinct values. */
  lemma {:induction false} DistinctIdsWithin(frame: Frame, ids: set<TrackId>)
    requires DistinctIds(frame)
    requires forall m :: 0 <= m < |frame| ==> frame[m].0 in ids
    ensures |frame| <= |ids|
  {
    if frame != [] {
      DistinctIdsWithin(frame[1..], ids - {frame[0].0});
    }
  }

  lemma {:induction false} SetOfSeqIsSmaller(s: seq<TrackId>)
    ensures |set x | x in s| <= |s|
  {
    if s != [] {
      SetOfSeqIsSmaller(s[1..]);
      assert (set x | x in s) == (set x | x in s[1..]) + {s[0]};
    }
  }

  /** After filtering, a frame holds at most as many players as were chosen. */
  lemma RestrictSize(frame: Frame, ids: seq<TrackId>)
    requires DistinctIds(frame)
    ensures |Restrict(frame, ids)| <= |ids|
  {
    var f := Restrict(frame, ids);
    RestrictKeepsDistinctIds(frame, ids);
    RestrictMembers(frame, ids);
    assert forall m :: 0 <= m < |f| ==> f[m] in f;
    DistinctIdsWithin(f, set x | x in ids);
    SetOfSeqIsSmaller(ids);
  }

  /**
   * `choose_and_filter_players`: chooses the players from the first frame, then
   * restricts every frame to them.
   */
  method ChooseAndFilterPlayers(courtKeypoints: seq<real>, playerDetections: seq<Frame>)
    returns (r: Result<seq<Frame>>)
    requires |playerDetections| > 0 ==> DistinctIds(playerDetections[0])
    ensures r.Failure? <==>
              |playerDetections| == 0 || (|playerDetections[0]| > 0 && |courtKeypoints| % 2 == 1)
    ensures r.Failure? ==> r.error == (if |playerDetections| == 0 then NoFrames else KeypointIndexOutOfRange)
    ensures r.Success? ==> |r.value| == |playerDetections|
    ensures r.Success? ==> forall f :: 0 <= f < |playerDetections| ==>
              r.value[f] == Restrict(playerDetections[f], ChosenPlayers(courtKeypoints, playerDetections[0]))
  {
    if |playerDetections| == 0 {
      return Failure(NoFrames);
    }
    var playerDetectionsFirstFrame := playerDetections[0];
    var chosenPlayers := ChoosePlayers(courtKeypoints, playerDetectionsFirstFrame);
    if chosenPlayers.Failure? {
      return Failure(chosenPlayers.error);
    }
    var ids := chosenPlayers.value;
    var filteredPlayerDetection: seq<Frame> := [];
    for f := 0 to |playerDetections|
      invariant |filteredPlayerDetection| == f
      invariant forall g :: 0 <= g < f ==> filteredPlayerDetection[g] == Restrict(playerDetections[g], ids)
    {
      filteredPlayerDetection := filteredPlayerDetection + [Restrict(playerDetections[f], ids)];
    }
    r := Success(filteredPlayerDetection);
  }

  /** Every filtered frame holds at most two players, all of them chosen ones. */
  lemma FilteredFramesHoldChosenPlayers(kps: seq<real>, frame0: Frame, frame: Frame)
    requires |frame0| == 0 || |kps| % 2 == 0
    requires DistinctIds(frame0) && DistinctIds(frame)
    ensures |Restrict(frame, ChosenPlayers(kps, frame0))| <= 2
    ensures forall e :: e in Restrict(frame, ChosenPlayers(kps, frame0)) ==> e.0 in ChosenPlayers(kps, frame0)
  {
    var ids := ChosenPlayers(kps, frame0);
    ChosenPlayersIsSelection(kps, frame0);
    RestrictSize(frame, ids);
    RestrictMembers(frame, ids);
  }
}
