/**
 * `match_teachers`: the strict subject filter, the grade and board score, the stable sort by
 * descending score, the positive-only trim and the `[:limit]` slice. A tutor is identified by
 * its position in the catalogue, as the Python list holds the very same dictionaries.
 */
module Matching {
  import opened Opt
  import opened Text
  import opened Subjects
  import opened Catalog

  // ---------------------------------------------------------------------------
  // Filter and score
  // ---------------------------------------------------------------------------

  /** The subject to filter on: the canonical name of a non-empty requested subject, and none otherwise. */
  function Wanted(subject: Option<string>): Option<string> {
    if subject.Some? && subject.value != [] then CanonicalSubject(subject.value) else None
  }

  /** A tutor survives the subject filter `if wanted and wanted not in t["_subjects_canon"]: continue`. */
  predicate Eligible(wanted: Option<string>, t: Teacher) {
    !(wanted.Some? && wanted.value != [] && wanted.value !in t.canon)
  }

  /** The grade earns points when it is non-zero and among the tutor's listed grades. */
  predicate GradeHit(t: Teacher, grade: int) {
    grade != 0 && t.grades != [] && grade in t.grades
  }

  /** Whether some listed board normalises to the same text as `board`. */
  predicate AnyBoard(board: string, boards: seq<string>)
    decreases |boards|
  {
    boards != [] && (Norm(board) == Norm(boards[0]) || AnyBoard(board, boards[1..]))
  }

  /** `any` finds a board exactly when one of the listed boards normalises like `board`. */
  lemma {:induction false} AnyBoardExists(board: string, boards: seq<string>)
    ensures AnyBoard(board, boards) <==> exists j :: 0 <= j < |boards| && Norm(board) == Norm(boards[j])
    decreases |boards|
  {
    if boards != [] {
      AnyBoardExists(board, boards[1..]);
      assert forall j :: 1 <= j < |boards| ==> boards[j] == boards[1..][j - 1];
    }
  }

  /** The board earns points when it is non-empty and normalises like one of the tutor's listed boards. */
  predicate BoardHit(t: Teacher, board: string) {
    board != [] && t.boards != [] && AnyBoard(board, t.boards)
  }

  /** The score of one tutor: 50 for the grade, 50 for the board. */
  function Score(t: Teacher, grade: int, board: string): (s: nat)
    ensures s == 0 || s == 50 || s == 100
    ensures s > 0 <==> GradeHit(t, grade) || BoardHit(t, board)
  {
    (if GradeHit(t, grade) then 50 else 0) + (if BoardHit(t, board) then 50 else 0)
  }

  // ---------------------------------------------------------------------------
  // The `results` list and its sort
  // ---------------------------------------------------------------------------

  /** One `(score, t)` pair of `results`, the tutor given by its catalogue position. */
  datatype Scored = Scored(score: nat, pos: nat)

  /** `results` after the loop has visited `teachers`: the eligible tutors with their scores, in order. */
  function Results(teachers: seq<Teacher>, wanted: Option<string>, grade: int, board: string): seq<Scored>
    decreases |teachers|
  {
    if teachers == [] then []
    else
      var n := |teachers| - 1;
      Results(teachers[..n], wanted, grade, board)
        + (if Eligible(wanted, teachers[n]) then [Scored(Score(teachers[n], grade, board), n)] else [])
  }

  /** Catalogue positions strictly increase along the list. */
  predicate Increasing(rs: seq<Scored>) {
    forall i, j :: 0 <= i < j < |rs| ==> rs[i].pos < rs[j].pos
  }

  /** Every score is one `match_teachers` can produce. */
  predicate Graded(rs: seq<Scored>) {
    forall i :: 0 <= i < |rs| ==> rs[i].score == 0 || rs[i].score == 50 || rs[i].score == 100
  }

  /** The entries of `rs` with score `v`, in their order. */
  function WithScore(rs: seq<Scored>, v: nat): seq<Scored>
    decreases |rs|
  {
    if rs == [] then []
    else (if rs[0].score == v then [rs[0]] else []) + WithScore(rs[1..], v)
  }

  /**
   * `results.sort(key=lambda x: x[0], reverse=True)`. Python's sort is stable, also in reverse,
   * and a score is 0, 50 or 100, so the sorted list is the 100s, then the 50s, then the 0s, each
   * group in its original order.
   */
  function Ranked(rs: seq<Scored>): seq<Scored> {
    WithScore(rs, 100) + WithScore(rs, 50) + WithScore(rs, 0)
  }

  /** `[t for sc, t in results if sc > 0]`, keeping the pairs. */
  function Positive(rs: seq<Scored>): seq<Scored>
    decreases |rs|
  {
    if rs == [] then []
    else (if rs[0].score > 0 then [rs[0]] else []) + Positive(rs[1..])
  }

  /** `trimmed`: the positive-scoring entries, or every entry when none scores. */
  function Trimmed(ranked: seq<Scored>): seq<Scored> {
    if Positive(ranked) == [] then ranked else Positive(ranked)
  }

  /** The tutors of a list of pairs. */
  function Positions(rs: seq<Scored>): (r: seq<nat>)
    ensures |r| == |rs|
    ensures forall k :: 0 <= k < |rs| ==> r[k] == rs[k].pos
  {
    seq(|rs|, k requires 0 <= k < |rs| => rs[k].pos)
  }

  /** How many elements `xs[:limit]` keeps of a list of length `n`, negative bounds counting from the end. */
  function SliceLength(n: nat, limit: int): (m: nat)
    ensures m <= n
    ensures limit >= 0 ==> m == if limit < n then limit else n
    ensures limit < 0 ==> m == if n + limit > 0 then n + limit else 0
  {
    if limit >= 0 then (if limit < n then limit else n)
    else if n + limit > 0 then n + limit else 0
  }

  /** `trimmed[:limit]` for the sorted `results`. */
  function Picked(rs: seq<Scored>, limit: int): seq<Scored> {
    var trimmed := Trimmed(Ranked(rs));
    trimmed[..SliceLength(|trimmed|, limit)]
  }

  /** The tutors `match_teachers` returns once `wanted` is known. */
  function MatchesFor(teachers: seq<Teacher>, wanted: Option<string>, grade: int, board: string, limit: int): seq<nat> {
    Positions(Picked(Results(teachers, wanted, grade, board), limit))
  }

  /** The result of `match_teachers(subject, grade, board, limit)`. */
  function Matches(teachers: seq<Teacher>, subject: Option<string>, grade: int, board: string, limit: int): seq<nat> {
    MatchesFor(teachers, Wanted(subject), grade, board, limit)
  }

  /** `match_teachers`: the loop that fills `results`, then the sort, the trim and the slice. */
  method MatchTeachers(teachers: seq<Teacher>, subject: Option<string>, grade: int, board: string, limit: int)
    returns (r: seq<nat>)
    ensures r == Matches(teachers, subject, grade, board, limit)
  {
    var wanted := if subject.Some? && subject.value != [] then CanonicalSubject(subject.value) else None;
    var results := ScoreAll(teachers, wanted, grade, board);
    results := Ranked(results);
    var trimmed := Positive(results);
    if trimmed == [] {
      trimmed := results;
    }
    r := Positions(trimmed[..SliceLength(|trimmed|, limit)]);
  }

  /** The loop of `match_teachers` that appends `(score, t)` for every tutor the subject filter keeps. */
  method ScoreAll(teachers: seq<Teacher>, wanted: Option<string>, grade: int, board: string)
    returns (results: seq<Scored>)
    ensures results == Results(teachers, wanted, grade, board)
  {
    results := [];
    var i := 0;
    while i < |teachers|
      invariant 0 <= i <= |teachers|
      invariant results == Results(teachers[..i], wanted, grade, board)
    {
      var t := teachers[i];
      ResultsStep(teachers, i, wanted, grade, board);
      if !(wanted.Some? && wanted.value != [] && wanted.value !in t.canon) {
        var score := 0;
        if grade != 0 && t.grades != [] && grade in t.grades {
          score := score + 50;
        }
        if board != [] && t.boards != [] && AnyBoard(board, t.boards) {
          score := score + 50;
        }
        assert score == Score(t, grade, board);
        results := results + [Scored(score, i)];
      }
      i := i + 1;
    }
    assert teachers[..i] == teachers;
  }

  /** One more tutor visited: `results` grows by that tutor's pair, if it passes the filter. */
  lemma ResultsStep(teachers: seq<Teacher>, i: nat, wanted: Option<string>, grade: int, board: string)
    requires i < |teachers|
    ensures Results(teachers[..i + 1], wanted, grade, board) == Results(teachers[..i], wanted, grade, board)
      + (if Eligible(wanted, teachers[i]) then [Scored(Score(teachers[i], grade, board), i)] else [])
  {
    assert teachers[..i + 1][..i] == teachers[..i];
  }

  // ---------------------------------------------------------------------------
  // What `results` holds
  // ---------------------------------------------------------------------------

  /** `x` pairs an eligible tutor of the catalogue with that tutor's score. */
  predicate EntryOf(x: Scored, teachers: seq<Teacher>, wanted: Option<string>, grade: int, board: string) {
    && x.pos < |teachers|
    && Eligible(wanted, teachers[x.pos])
    && x.score == Score(teachers[x.pos], grade, board)
  }

  /** Every entry of `results` is an eligible tutor of the catalogue with its own score. */
  lemma {:induction false} ResultsEntries(teachers: seq<Teacher>, wanted: Option<string>, grade: int, board: string)
    ensures forall x :: x in Results(teachers, wanted, grade, board) ==> EntryOf(x, teachers, wanted, grade, board)
    decreases |teachers|
  {
    if teachers != [] {
      var n := |teachers| - 1;
      var prev := Results(teachers[..n], wanted, grade, board);
      ResultsEntries(teachers[..n], wanted, grade, board);
      forall x | x in prev
        ensures EntryOf(x, teachers, wanted, grade, board)
      {
        assert EntryOf(x, teachers[..n], wanted, grade, board);
        assert teachers[..n][x.pos] == teachers[x.pos];
      }
    }
  }

  /** `results` lists tutors in catalogue order, each at most once, and its scores are 0, 50 or 100. */
  lemma {:induction false} ResultsIncreasing(teachers: seq<Teacher>, wanted: Option<string>, grade: int, board: string)
    ensures Increasing(Results(teachers, wanted, grade, board))
    ensures Graded(Results(teachers, wanted, grade, board))
    decreases |teachers|
  {
    if teachers != [] {
      var n := |teachers| - 1;
      var prev := Results(teachers[..n], wanted, grade, board);
      var rs := Results(teachers, wanted, grade, board);
      ResultsIncreasing(teachers[..n], wanted, grade, board);
      ResultsPositions(teachers[..n], wanted, grade, board);
      assert forall k :: 0 <= k < |prev| ==> rs[k] == prev[k];
    }
  }

  /** Positions in `results` are positions of the catalogue. */
  lemma {:induction false} ResultsPositions(teachers: seq<Teacher>, wanted: Option<string>, grade: int, board: string)
    ensures forall k :: 0 <= k < |Results(teachers, wanted, grade, board)| ==>
      Results(teachers, wanted, grade, board)[k].pos < |teachers|
    decreases |teachers|
  {
    if teachers != [] {
      var n := |teachers| - 1;
      var prev := Results(teachers[..n], wanted, grade, board);
      ResultsPositions(teachers[..n], wanted, grade, board);
      assert forall k :: 0 <= k < |prev| ==> Results(teachers, wanted, grade, board)[k] == prev[k];
    }
  }

  /** Every eligible tutor is in `results`: the subject filter is the only thing that drops one. */
  lemma {:induction false} ResultsComplete(teachers: seq<Teacher>, wanted: Option<string>, grade: int, board: string, p: nat)
    requires p < |teachers| && Eligible(wanted, teachers[p])
    ensures Scored(Score(teachers[p], grade, board), p) in Results(teachers, wanted, grade, board)
    decreases |teachers|
  {
    var n := |teachers| - 1;
    if p < n {
      var prev := Results(teachers[..n], wanted, grade, board);
      assert teachers[..n][p] == teachers[p];
      ResultsComplete(teachers[..n], wanted, grade, board, p);
      assert Results(teachers, wanted, grade, board)[..|prev|] == prev;
    }
  }

  /** With no subject filter, `results` has one entry per tutor, in catalogue order. */
  lemma {:induction false} UnfilteredResults(teachers: seq<Teacher>, wanted: Option<string>, grade: int, board: string)
    requires wanted.None? || wanted.value == []
    ensures |Results(teachers, wanted, grade, board)| == |teachers|
    ensures forall p :: 0 <= p < |teachers| ==> Results(teachers, wanted, grade, board)[p].pos == p
    decreases |teachers|
  {
    if teachers != [] {
      var n := |teachers| - 1;
      var prev := Results(teachers[..n], wanted, grade, board);
      var rs := Results(teachers, wanted, grade, board);
      UnfilteredResults(teachers[..n], wanted, grade, board);
      assert Eligible(wanted, teachers[n]);
      var last := Scored(Score(teachers[n], grade, board), n);
      assert rs == prev + [last];
      forall p | 0 <= p < |teachers|
        ensures rs[p].pos == p
      {
        if p < n {
          assert rs[p] == prev[p];
        }
      }
    }
  }

  // ---------------------------------------------------------------------------
  // The sort
  // ---------------------------------------------------------------------------

  lemma {:induction false} WithScoreMembers(rs: seq<Scored>, v: nat)
    ensures forall x :: x in WithScore(rs, v) <==> x in rs && x.score == v
    decreases |rs|
  {
    if rs != [] {
      WithScoreMembers(rs[1..], v);
      assert forall x :: x in rs <==> x == rs[0] || x in rs[1..];
    }
  }

  lemma WithScoreValues(rs: seq<Scored>, v: nat)
    ensures forall k :: 0 <= k < |WithScore(rs, v)| ==> WithScore(rs, v)[k].score == v
  {
    WithScoreMembers(rs, v);
    forall k | 0 <= k < |WithScore(rs, v)|
      ensures WithScore(rs, v)[k].score == v
    {
      assert WithScore(rs, v)[k] in WithScore(rs, v);
    }
  }

  lemma {:induction false} WithScoreIncreasing(rs: seq<Scored>, v: nat)
    requires Increasing(rs)
    ensures Increasing(WithScore(rs, v))
    decreases |rs|
  {
    if rs != [] {
      var tail := WithScore(rs[1..], v);
      assert Increasing(rs[1..]);
      WithScoreIncreasing(rs[1..], v);
      WithScoreMembers(rs[1..], v);
      forall k | 0 <= k < |tail|
        ensures rs[0].pos < tail[k].pos
      {
        assert tail[k] in rs[1..];
        var m :| 0 <= m < |rs| - 1 && rs[1..][m] == tail[k];
        assert rs[m + 1] == tail[k];
      }
    }
  }

  /** The sort only reorders `results`. */
  lemma {:induction false} RankedPermutes(rs: seq<Scored>)
    requires Graded(rs)
    ensures multiset(Ranked(rs)) == multiset(rs)
    decreases |rs|
  {
    if rs != [] {
      assert Graded(rs[1..]);
      RankedPermutes(rs[1..]);
      assert rs == [rs[0]] + rs[1..];
    }
  }

  /** Scores never increase along the sorted list. */
  lemma RankedDescending(rs: seq<Scored>)
    ensures forall i, j :: 0 <= i < j < |Ranked(rs)| ==> Ranked(rs)[i].score >= Ranked(rs)[j].score
  {
    RankedSegments(rs);
  }

  /** Which group each position of the sorted list falls in. */
  lemma RankedSegments(rs: seq<Scored>)
    ensures var a, b := |WithScore(rs, 100)|, |WithScore(rs, 50)|;
      forall k :: 0 <= k < |Ranked(rs)| ==>
        Ranked(rs)[k].score == (if k < a then 100 else if k < a + b then 50 else 0)
  {
    WithScoreValues(rs, 100);
    WithScoreValues(rs, 50);
    WithScoreValues(rs, 0);
  }

  /** Tutors with equal scores keep their catalogue order: the sort is stable. */
  lemma RankedStable(rs: seq<Scored>)
    requires Increasing(rs)
    ensures forall i, j :: 0 <= i < j < |Ranked(rs)| && Ranked(rs)[i].score == Ranked(rs)[j].score ==>
      Ranked(rs)[i].pos < Ranked(rs)[j].pos
  {
    var a, b, c := WithScore(rs, 100), WithScore(rs, 50), WithScore(rs, 0);
    RankedSegments(rs);
    WithScoreIncreasing(rs, 100);
    WithScoreIncreasing(rs, 50);
    WithScoreIncreasing(rs, 0);
    var r := Ranked(rs);
    forall i, j | 0 <= i < j < |r| && r[i].score == r[j].score
      ensures r[i].pos < r[j].pos
    {
      if j < |a| {
        assert r[i] == a[i] && r[j] == a[j];
      } else if j < |a| + |b| {
        assert r[i] == b[i - |a|] && r[j] == b[j - |a|];
      } else {
        assert r[i] == c[i - |a| - |b|] && r[j] == c[j - |a| - |b|];
      }
    }
  }

  /** The sorted list names no tutor twice. */
  lemma RankedDistinct(rs: seq<Scored>)
    requires Increasing(rs) && Graded(rs)
    ensures forall i, j :: 0 <= i < j < |Ranked(rs)| ==> Ranked(rs)[i].pos != Ranked(rs)[j].pos
  {
    var r := Ranked(rs);
    RankedStable(rs);
    RankedPermutes(rs);
    forall i, j | 0 <= i < j < |r|
      ensures r[i].pos != r[j].pos
    {
      assert r[i] in multiset(rs) && r[j] in multiset(rs);
      if r[i].pos == r[j].pos {
        SamePosSameEntry(rs, r[i], r[j]);
      }
    }
  }

  /** In an increasing list a position identifies the entry. */
  lemma SamePosSameEntry(rs: seq<Scored>, x: Scored, y: Scored)
    requires Increasing(rs) && x in multiset(rs) && y in multiset(rs) && x.pos == y.pos
    ensures x == y
  {
    var m :| 0 <= m < |rs| && rs[m] == x;
    var m' :| 0 <= m' < |rs| && rs[m'] == y;
  }

  // ---------------------------------------------------------------------------
  // The trim
  // ---------------------------------------------------------------------------

  lemma {:induction false} PositiveAppend(a: seq<Scored>, b: seq<Scored>)
    ensures Positive(a + b) == Positive(a) + Positive(b)
    decreases |a|
  {
    if a == [] {
      assert a + b == b;
    } else {
      assert (a + b)[1..] == a[1..] + b;
      PositiveAppend(a[1..], b);
    }
  }

  lemma {:induction false} PositiveOfGroup(rs: seq<Scored>, v: nat)
    ensures Positive(WithScore(rs, v)) == if v > 0 then WithScore(rs, v) else []
    decreases |rs|
  {
    if rs != [] {
      var h := if rs[0].score == v then [rs[0]] else [];
      PositiveOfGroup(rs[1..], v);
      PositiveAppend(h, WithScore(rs[1..], v));
    }
  }

  /** With no positive score, the `0` group is the whole of `results`. */
  lemma {:induction false} AllZero(rs: seq<Scored>)
    requires Graded(rs) && WithScore(rs, 100) == [] && WithScore(rs, 50) == []
    ensures WithScore(rs, 0) == rs
    decreases |rs|
  {
    if rs != [] {
      assert Graded(rs[1..]);
      AllZero(rs[1..]);
    }
  }

  /** `trimmed` is the 100s and the 50s when any tutor scores, and all of `results` otherwise. */
  lemma TrimmedShape(rs: seq<Scored>)
    requires Graded(rs)
    ensures var pos := WithScore(rs, 100) + WithScore(rs, 50);
      Trimmed(Ranked(rs)) == if pos == [] then rs else pos
  {
    var a, b, c := WithScore(rs, 100), WithScore(rs, 50), WithScore(rs, 0);
    PositiveAppend(a + b, c);
    PositiveAppend(a, b);
    PositiveOfGroup(rs, 100);
    PositiveOfGroup(rs, 50);
    PositiveOfGroup(rs, 0);
    if a + b == [] {
      AllZero(rs);
      assert a == [] && b == [];
      assert Ranked(rs) == c;
    }
  }

  // ---------------------------------------------------------------------------
  // The slice of the sorted, trimmed list
  // ---------------------------------------------------------------------------

  /** Distinct tutors, by descending score, equal scores in catalogue order. */
  predicate RankedShape(ts: seq<Scored>) {
    && (forall i, j :: 0 <= i < j < |ts| ==> ts[i].pos != ts[j].pos)
    && (forall i, j :: 0 <= i < j < |ts| ==> ts[i].score >= ts[j].score)
    && (forall i, j :: 0 <= i < j < |ts| && ts[i].score == ts[j].score ==> ts[i].pos < ts[j].pos)
  }

  /** The slice is a prefix of the sorted list. */
  lemma PickedIsPrefix(rs: seq<Scored>, limit: int)
    requires Graded(rs)
    ensures |Picked(rs, limit)| <= |Ranked(rs)|
    ensures Picked(rs, limit) == Ranked(rs)[..|Picked(rs, limit)|]
  {
    var a, b := WithScore(rs, 100), WithScore(rs, 50);
    TrimmedShape(rs);
    if a + b == [] {
      AllZero(rs);
      assert Ranked(rs) == rs;
    } else {
      assert Ranked(rs)[..|a + b|] == a + b;
    }
  }

  /** The slice is ranked: distinct tutors, descending scores, ties in catalogue order. */
  lemma PickedShape(rs: seq<Scored>, limit: int)
    requires Increasing(rs) && Graded(rs)
    ensures RankedShape(Picked(rs, limit))
  {
    var r := Ranked(rs);
    var p := Picked(rs, limit);
    PickedIsPrefix(rs, limit);
    RankedDistinct(rs);
    RankedDescending(rs);
    RankedStable(rs);
    assert forall k :: 0 <= k < |p| ==> p[k] == r[k];
  }

  /** Every pair in the slice comes from `results`. */
  lemma PickedFromResults(rs: seq<Scored>, limit: int)
    requires Graded(rs)
    ensures forall k :: 0 <= k < |Picked(rs, limit)| ==> Picked(rs, limit)[k] in rs
  {
    var r := Ranked(rs);
    var p := Picked(rs, limit);
    PickedIsPrefix(rs, limit);
    RankedPermutes(rs);
    forall k | 0 <= k < |p|
      ensures p[k] in rs
    {
      assert p[k] == r[k];
      assert r[k] in multiset(rs);
    }
  }

  /** If any entry scores, every picked entry scores. */
  lemma PickedPositive(rs: seq<Scored>, limit: int, x: Scored)
    requires Graded(rs) && x in rs && x.score > 0
    ensures forall k :: 0 <= k < |Picked(rs, limit)| ==> Picked(rs, limit)[k].score > 0
  {
    var a, b := WithScore(rs, 100), WithScore(rs, 50);
    WithScoreMembers(rs, 100);
    WithScoreMembers(rs, 50);
    assert x in a || x in b;
    TrimmedShape(rs);
    WithScoreValues(rs, 100);
    WithScoreValues(rs, 50);
    assert forall m :: 0 <= m < |a + b| ==> (a + b)[m].score > 0;
  }

  /** If no entry scores, the slice is the head of `results` itself. */
  lemma PickedAllZero(rs: seq<Scored>, limit: int)
    requires Graded(rs) && forall k :: 0 <= k < |rs| ==> rs[k].score == 0
    ensures Picked(rs, limit) == rs[..SliceLength(|rs|, limit)]
  {
    WithScoreMembers(rs, 100);
    WithScoreMembers(rs, 50);
    TrimmedShape(rs);
  }

  /** How long the slice is, and that it is empty only when `results` is or `limit` keeps nothing. */
  lemma PickedLength(rs: seq<Scored>, limit: int)
    requires Graded(rs)
    ensures |Picked(rs, limit)| == SliceLength(|Trimmed(Ranked(rs))|, limit)
    ensures rs != [] && limit > 0 ==> Picked(rs, limit) != []
  {
    TrimmedShape(rs);
  }

  // ---------------------------------------------------------------------------
  // What `match_teachers` returns
  // ---------------------------------------------------------------------------

  /** Every returned tutor is in the catalogue and passes the subject filter, and none is returned twice. */
  lemma MatchesFromCatalogue(teachers: seq<Teacher>, wanted: Option<string>, grade: int, board: string, limit: int)
    ensures var r := MatchesFor(teachers, wanted, grade, board, limit);
      && (forall k :: 0 <= k < |r| ==> r[k] < |teachers| && Eligible(wanted, teachers[r[k]]))
      && (forall i, j :: 0 <= i < j < |r| ==> r[i] != r[j])
  {
    var rs := Results(teachers, wanted, grade, board);
    var p := Picked(rs, limit);
    ResultsEntries(teachers, wanted, grade, board);
    ResultsIncreasing(teachers, wanted, grade, board);
    PickedShape(rs, limit);
    PickedFromResults(rs, limit);
    assert forall k :: 0 <= k < |p| ==> EntryOf(p[k], teachers, wanted, grade, board);
  }

  /** With a non-empty `wanted` name, every returned tutor carries it. */
  lemma MatchesFiltered(teachers: seq<Teacher>, c: string, grade: int, board: string, limit: int)
    requires c != []
    ensures var r := MatchesFor(teachers, Some(c), grade, board, limit);
      forall k :: 0 <= k < |r| ==> r[k] < |teachers| && c in teachers[r[k]].canon
  {
    MatchesFromCatalogue(teachers, Some(c), grade, board, limit);
  }

  /** When the subject canonicalises to `c`, every returned tutor teaches `c`. */
  lemma MatchesHaveSubject(teachers: seq<Teacher>, subject: string, grade: int, board: string, limit: int, c: string)
    requires CanonicalSubject(subject) == Some(c)
    ensures var r := Matches(teachers, Some(subject), grade, board, limit);
      forall k :: 0 <= k < |r| ==> r[k] < |teachers| && c in teachers[r[k]].canon
  {
    CanonicalNonEmpty(subject);
    CanonicalOfEmpty();
    assert Wanted(Some(subject)) == Some(c);
    MatchesFiltered(teachers, c, grade, board, limit);
  }

  /** Scores never increase along the result, and tutors with equal scores keep catalogue order. */
  lemma MatchesOrdered(teachers: seq<Teacher>, wanted: Option<string>, grade: int, board: string, limit: int)
    ensures var r := MatchesFor(teachers, wanted, grade, board, limit);
      forall i, j :: 0 <= i < j < |r| ==>
        && r[i] < |teachers| && r[j] < |teachers|
        && Score(teachers[r[i]], grade, board) >= Score(teachers[r[j]], grade, board)
        && (Score(teachers[r[i]], grade, board) == Score(teachers[r[j]], grade, board) ==> r[i] < r[j])
  {
    var rs := Results(teachers, wanted, grade, board);
    var p := Picked(rs, limit);
    ResultsEntries(teachers, wanted, grade, board);
    ResultsIncreasing(teachers, wanted, grade, board);
    PickedShape(rs, limit);
    PickedFromResults(rs, limit);
    assert forall k :: 0 <= k < |p| ==> EntryOf(p[k], teachers, wanted, grade, board);
  }

  /** At most `limit` tutors for a non-negative `limit`, and exactly `trimmed[:limit]`'s length. */
  lemma MatchesLength(teachers: seq<Teacher>, wanted: Option<string>, grade: int, board: string, limit: int)
    ensures var trimmed := Trimmed(Ranked(Results(teachers, wanted, grade, board)));
      |MatchesFor(teachers, wanted, grade, board, limit)| == SliceLength(|trimmed|, limit)
    ensures limit >= 0 ==> |MatchesFor(teachers, wanted, grade, board, limit)| <= limit
  {
    ResultsIncreasing(teachers, wanted, grade, board);
    PickedLength(Results(teachers, wanted, grade, board), limit);
  }

  /** If any eligible tutor scores, only scoring tutors are returned. */
  lemma MatchesPositiveOnly(teachers: seq<Teacher>, wanted: Option<string>, grade: int, board: string, limit: int, q: nat)
    requires q < |teachers| && Eligible(wanted, teachers[q]) && Score(teachers[q], grade, board) > 0
    ensures var r := MatchesFor(teachers, wanted, grade, board, limit);
      forall k :: 0 <= k < |r| ==> r[k] < |teachers| && Score(teachers[r[k]], grade, board) > 0
  {
    var rs := Results(teachers, wanted, grade, board);
    var p := Picked(rs, limit);
    ResultsComplete(teachers, wanted, grade, board, q);
    ResultsEntries(teachers, wanted, grade, board);
    ResultsIncreasing(teachers, wanted, grade, board);
    PickedPositive(rs, limit, Scored(Score(teachers[q], grade, board), q));
    PickedFromResults(rs, limit);
    assert forall k :: 0 <= k < |p| ==> EntryOf(p[k], teachers, wanted, grade, board);
  }

  /** If no eligible tutor scores, the result is the first `limit` eligible tutors in catalogue order. */
  lemma MatchesAllZero(teachers: seq<Teacher>, wanted: Option<string>, grade: int, board: string, limit: int)
    requires forall q :: 0 <= q < |teachers| && Eligible(wanted, teachers[q]) ==> Score(teachers[q], grade, board) == 0
    ensures var rs := Results(teachers, wanted, grade, board);
      MatchesFor(teachers, wanted, grade, board, limit) == Positions(rs[..SliceLength(|rs|, limit)])
  {
    var rs := Results(teachers, wanted, grade, board);
    ResultsEntries(teachers, wanted, grade, board);
    ResultsIncreasing(teachers, wanted, grade, board);
    assert forall k :: 0 <= k < |rs| ==> rs[k] in rs;
    PickedAllZero(rs, limit);
  }

  /** The result is empty only when the subject filter removes every tutor or `limit` keeps none. */
  lemma MatchesNonEmpty(teachers: seq<Teacher>, wanted: Option<string>, grade: int, board: string, limit: int, q: nat)
    requires q < |teachers| && Eligible(wanted, teachers[q]) && limit > 0
    ensures MatchesFor(teachers, wanted, grade, board, limit) != []
  {
    var rs := Results(teachers, wanted, grade, board);
    ResultsComplete(teachers, wanted, grade, board, q);
    ResultsIncreasing(teachers, wanted, grade, board);
    PickedLength(rs, limit);
  }
}
