/**
 * `collect_best_matches`: the tutors `match_teachers(s, grade, board, limit=3)` returns for each
 * requested subject in turn, skipping a tutor whose key (`id`, or `name` when the id is missing
 * or empty) was already taken, and stopping as soon as `k` tutors are collected.
 */
module BestMatches {
  import opened Opt
  import opened Catalog
  import opened Matching
  import opened Seqs

  /** Every position names a tutor of the catalogue. */
  predicate InCatalogue<T>(catalogue: seq<T>, xs: seq<nat>) {
    forall i :: 0 <= i < |xs| ==> xs[i] < |catalogue|
  }

  /** `match_teachers(s, grade, board, limit=3)` for every requested subject `s`. */
  function PerSubject(teachers: seq<Teacher>, subjects: seq<string>, grade: int, board: string): (r: seq<seq<nat>>)
    ensures |r| == |subjects|
    ensures forall m :: 0 <= m < |subjects| ==> r[m] == Matches(teachers, Some(subjects[m]), grade, board, 3)
  {
    seq(|subjects|, m requires 0 <= m < |subjects| => Matches(teachers, Some(subjects[m]), grade, board, 3))
  }

  /** The tutors the nested loop visits: each subject's matches, subject after subject. */
  function Stream(teachers: seq<Teacher>, subjects: seq<string>, grade: int, board: string): seq<nat> {
    Flatten(PerSubject(teachers, subjects, grade, board))
  }

  lemma {:induction false} FlattenInCatalogue(teachers: seq<Teacher>, per: seq<seq<nat>>)
    requires forall m :: 0 <= m < |per| ==> InCatalogue(teachers, per[m])
    ensures InCatalogue(teachers, Flatten(per))
    decreases |per|
  {
    if per != [] {
      var n := |per| - 1;
      FlattenInCatalogue(teachers, per[..n]);
    }
  }

  /** A tutor is visited exactly when it is among some requested subject's matches. */
  lemma StreamMembers(teachers: seq<Teacher>, subjects: seq<string>, grade: int, board: string, x: nat)
    ensures x in Stream(teachers, subjects, grade, board) <==>
      exists m :: 0 <= m < |subjects| && x in Matches(teachers, Some(subjects[m]), grade, board, 3)
  {
    FlattenMembers(PerSubject(teachers, subjects, grade, board), x);
  }

  lemma PerSubjectInCatalogue(teachers: seq<Teacher>, subjects: seq<string>, grade: int, board: string)
    ensures var per := PerSubject(teachers, subjects, grade, board);
      forall m :: 0 <= m < |per| ==> InCatalogue(teachers, per[m])
  {
    var per := PerSubject(teachers, subjects, grade, board);
    forall m | 0 <= m < |per|
      ensures InCatalogue(teachers, per[m])
    {
      MatchesFromCatalogue(teachers, Wanted(Some(subjects[m])), grade, board, 3);
    }
  }

  lemma StreamInCatalogue(teachers: seq<Teacher>, subjects: seq<string>, grade: int, board: string)
    ensures InCatalogue(teachers, Stream(teachers, subjects, grade, board))
  {
    PerSubjectInCatalogue(teachers, subjects, grade, board);
    FlattenInCatalogue(teachers, PerSubject(teachers, subjects, grade, board));
  }

  // ---------------------------------------------------------------------------
  // Skipping repeated tutors
  // ---------------------------------------------------------------------------

  /** `t.get("id") or t["name"]` for every tutor of the catalogue, by position. */
  function CatalogueKeys(teachers: seq<Teacher>): (keys: seq<string>)
    ensures |keys| == |teachers|
    ensures forall p :: 0 <= p < |teachers| ==> keys[p] == Key(teachers[p])
  {
    seq(|teachers|, p requires 0 <= p < |teachers| => Key(teachers[p]))
  }

  /** The keys of a list of tutors. */
  function KeysOf(keys: seq<string>, d: seq<nat>): set<string>
    requires InCatalogue(keys, d)
  {
    set i | 0 <= i < |d| :: keys[d[i]]
  }

  lemma KeyIn(keys: seq<string>, d: seq<nat>, i: nat)
    requires InCatalogue(keys, d) && i < |d|
    ensures keys[d[i]] in KeysOf(keys, d)
  {
  }

  /** `out` after the loop has visited `xs` without stopping: the first tutor of each key, in order. */
  function Dedup(keys: seq<string>, xs: seq<nat>): (d: seq<nat>)
    requires InCatalogue(keys, xs)
    ensures forall i :: 0 <= i < |d| ==> d[i] in xs
    ensures InCatalogue(keys, d)
    decreases |xs|
  {
    if xs == [] then []
    else
      var n := |xs| - 1;
      var d := Dedup(keys, xs[..n]);
      if keys[xs[n]] in KeysOf(keys, d) then d else d + [xs[n]]
  }

  /** One more visit: appended when its key is new. */
  lemma DedupSnoc(keys: seq<string>, xs: seq<nat>, y: nat)
    requires InCatalogue(keys, xs) && y < |keys|
    ensures InCatalogue(keys, xs + [y])
    ensures Dedup(keys, xs + [y]) ==
      if keys[y] in KeysOf(keys, Dedup(keys, xs)) then Dedup(keys, xs) else Dedup(keys, xs) + [y]
  {
    var zs := xs + [y];
    assert zs[..|xs|] == xs;
    assert InCatalogue(keys, zs);
  }

  lemma KeysOfSnoc(keys: seq<string>, d: seq<nat>, x: nat)
    requires InCatalogue(keys, d) && x < |keys|
    ensures InCatalogue(keys, d + [x])
    ensures KeysOf(keys, d + [x]) == KeysOf(keys, d) + {keys[x]}
  {
    var e := d + [x];
    assert forall i :: 0 <= i < |d| ==> e[i] == d[i];
    assert e[|d|] == x;
  }

  /** No two tutors of the list share a key. */
  predicate UniqueKeys(keys: seq<string>, d: seq<nat>)
    requires InCatalogue(keys, d)
  {
    forall i, j :: 0 <= i < j < |d| ==> keys[d[i]] != keys[d[j]]
  }

  lemma {:induction false} DedupUnique(keys: seq<string>, xs: seq<nat>)
    requires InCatalogue(keys, xs)
    ensures UniqueKeys(keys, Dedup(keys, xs))
    decreases |xs|
  {
    if xs != [] {
      var n := |xs| - 1;
      var d := Dedup(keys, xs[..n]);
      DedupUnique(keys, xs[..n]);
      if keys[xs[n]] !in KeysOf(keys, d) {
        var e := d + [xs[n]];
        forall i, j | 0 <= i < j < |e|
          ensures keys[e[i]] != keys[e[j]]
        {
          assert e[i] == d[i];
          if j < |d| {
            assert e[j] == d[j];
          } else {
            KeyIn(keys, d, i);
          }
        }
      }
    }
  }

  /** Every key the loop visits is among the collected tutors' keys. */
  lemma {:induction false} DedupComplete(keys: seq<string>, xs: seq<nat>)
    requires InCatalogue(keys, xs)
    ensures forall i :: 0 <= i < |xs| ==> keys[xs[i]] in KeysOf(keys, Dedup(keys, xs))
    decreases |xs|
  {
    if xs != [] {
      var n := |xs| - 1;
      var d := Dedup(keys, xs[..n]);
      DedupComplete(keys, xs[..n]);
      if keys[xs[n]] !in KeysOf(keys, d) {
        KeysOfSnoc(keys, d, xs[n]);
      }
      assert forall i :: 0 <= i < n ==> xs[..n][i] == xs[i];
    }
  }

  /** Visiting more tutors only appends to `out`. */
  lemma {:induction false} DedupMonotone(keys: seq<string>, a: seq<nat>, b: seq<nat>)
    requires InCatalogue(keys, b) && IsPrefix(a, b)
    ensures InCatalogue(keys, a)
    ensures IsPrefix(Dedup(keys, a), Dedup(keys, b))
    decreases |b|
  {
    assert forall i :: 0 <= i < |a| ==> a[i] == b[i];
    if |a| < |b| {
      var n := |b| - 1;
      assert b[..n][..|a|] == a;
      DedupMonotone(keys, a, b[..n]);
      PrefixTransitive(Dedup(keys, a), Dedup(keys, b[..n]), Dedup(keys, b));
    } else {
      assert a == b;
    }
  }

  /**
   * `d` picks visits of `xs` in increasing order (`idx` says which), and no visit before a
   * picked one has the same key.
   */
  predicate FirstOfEachKey(keys: seq<string>, d: seq<nat>, xs: seq<nat>, idx: seq<nat>)
    requires InCatalogue(keys, xs) && InCatalogue(keys, d)
  {
    && |idx| == |d|
    && (forall i :: 0 <= i < |idx| ==> idx[i] < |xs| && xs[idx[i]] == d[i])
    && (forall i, j :: 0 <= i < j < |idx| ==> idx[i] < idx[j])
    && (forall i, a :: 0 <= i < |idx| && 0 <= a < idx[i] ==> keys[xs[a]] != keys[d[i]])
  }

  /** A visit more does not disturb the earlier picks. */
  lemma FirstOfEachKeyExtend(keys: seq<string>, d: seq<nat>, xs: seq<nat>, y: nat, idx: seq<nat>)
    requires InCatalogue(keys, xs) && y < |keys| && InCatalogue(keys, d)
    requires FirstOfEachKey(keys, d, xs, idx)
    ensures InCatalogue(keys, xs + [y])
    ensures FirstOfEachKey(keys, d, xs + [y], idx)
  {
    var zs := xs + [y];
    assert forall a :: 0 <= a < |xs| ==> zs[a] == xs[a];
    assert InCatalogue(keys, zs);
  }

  /** A visit whose key is new is picked. */
  lemma FirstOfEachKeyPick(keys: seq<string>, d: seq<nat>, xs: seq<nat>, y: nat, idx: seq<nat>)
    requires InCatalogue(keys, xs) && y < |keys| && InCatalogue(keys, d)
    requires FirstOfEachKey(keys, d, xs, idx)
    requires forall a :: 0 <= a < |xs| ==> keys[xs[a]] != keys[y]
    ensures InCatalogue(keys, xs + [y]) && InCatalogue(keys, d + [y])
    ensures FirstOfEachKey(keys, d + [y], xs + [y], idx + [|xs|])
  {
    var e := d + [y];
    var zs := xs + [y];
    var jdx := idx + [|xs|];
    assert forall a :: 0 <= a < |xs| ==> zs[a] == xs[a];
    assert forall i :: 0 <= i < |d| ==> e[i] == d[i] && jdx[i] == idx[i];
  }

  lemma {:induction false} DedupFirstOfEachKey(keys: seq<string>, xs: seq<nat>)
    requires InCatalogue(keys, xs)
    ensures exists idx :: FirstOfEachKey(keys, Dedup(keys, xs), xs, idx)
    decreases |xs|
  {
    if xs == [] {
      assert FirstOfEachKey(keys, Dedup(keys, xs), xs, []);
    } else {
      var n := |xs| - 1;
      var d := Dedup(keys, xs[..n]);
      DedupFirstOfEachKey(keys, xs[..n]);
      var idx: seq<nat> :| FirstOfEachKey(keys, d, xs[..n], idx);
      assert xs == xs[..n] + [xs[n]];
      if keys[xs[n]] in KeysOf(keys, d) {
        FirstOfEachKeyExtend(keys, d, xs[..n], xs[n], idx);
        assert FirstOfEachKey(keys, Dedup(keys, xs), xs, idx);
      } else {
        DedupComplete(keys, xs[..n]);
        FirstOfEachKeyPick(keys, d, xs[..n], xs[n], idx);
        assert FirstOfEachKey(keys, Dedup(keys, xs), xs, idx + [n]);
      }
    }
  }

  // ---------------------------------------------------------------------------
  // What `collect_best_matches` returns
  // ---------------------------------------------------------------------------

  /** The loop stops once `len(out) >= k`, checked after each append: at least one tutor is kept even when `k <= 0`. */
  function Cap(k: int): nat {
    if k >= 1 then k else 1
  }

  function Take(xs: seq<nat>, n: nat): (r: seq<nat>)
    ensures IsPrefix(r, xs) && |r| == if |xs| <= n then |xs| else n
  {
    if |xs| <= n then xs else xs[..n]
  }

  /** The result of `collect_best_matches(subjects, grade, board, k)`. */
  function Collected(teachers: seq<Teacher>, subjects: seq<string>, grade: int, board: string, k: int): (r: seq<nat>)
    ensures |r| <= Cap(k)
    ensures k >= 1 ==> |r| <= k
  {
    StreamInCatalogue(teachers, subjects, grade, board);
    Take(Dedup(CatalogueKeys(teachers), Stream(teachers, subjects, grade, board)), Cap(k))
  }

  /** `collect_best_matches`: the loop over the requested subjects, with its early return. */
  method CollectBestMatches(teachers: seq<Teacher>, subjects: seq<string>, grade: int, board: string, k: int)
    returns (out: seq<nat>)
    ensures out == Collected(teachers, subjects, grade, board, k)
  {
    ghost var per := PerSubject(teachers, subjects, grade, board);
    ghost var keys := CatalogueKeys(teachers);
    PerSubjectInCatalogue(teachers, subjects, grade, board);
    StreamInCatalogue(teachers, subjects, grade, board);
    FlattenPrefixes(keys, per);
    var seen: set<string> := {};
    out := [];
    var i := 0;
    while i < |subjects|
      invariant 0 <= i <= |subjects|
      invariant out == Dedup(keys, Flatten(per[..i]))
      invariant seen == KeysOf(keys, out)
      invariant |out| < Cap(k)
    {
      var ms := MatchTeachers(teachers, Some(subjects[i]), grade, board, 3);
      assert ms == per[i];
      FlattenStep(per, i);
      var stop;
      out, seen, stop := Visit(teachers, Flatten(per[..i]), ms, out, seen, k);
      if stop {
        StopsEarly(keys, per, i + 1, out, k);
        return;
      }
      i := i + 1;
    }
    assert per[..i] == per;
  }

  /** Visiting one more tutor of a subject's list: what deduplication makes of it. */
  lemma VisitStep(keys: seq<string>, before: seq<nat>, ms: seq<nat>, j: nat)
    requires InCatalogue(keys, before) && InCatalogue(keys, ms) && j < |ms|
    ensures InCatalogue(keys, before + ms[..j]) && InCatalogue(keys, before + ms[..j + 1])
    ensures InCatalogue(keys, before + ms)
    ensures Dedup(keys, before + ms[..j + 1]) ==
      if keys[ms[j]] in KeysOf(keys, Dedup(keys, before + ms[..j])) then Dedup(keys, before + ms[..j])
      else Dedup(keys, before + ms[..j]) + [ms[j]]
    ensures IsPrefix(Dedup(keys, before + ms[..j + 1]), Dedup(keys, before + ms))
  {
    var visited := before + ms[..j + 1];
    ConcatInCatalogue(keys, before, ms, j + 1);
    ConcatInCatalogue(keys, before, ms, j);
    ConcatInCatalogue(keys, before, ms, |ms|);
    assert visited == (before + ms[..j]) + [ms[j]];
    assert IsPrefix(visited, before + ms);
    DedupSnoc(keys, before + ms[..j], ms[j]);
    DedupMonotone(keys, visited, before + ms);
  }

  /**
   * The inner loop over one subject's matches: a tutor whose key was seen is skipped, any
   * other is appended, and the loop stops once `len(out) >= k`.
   */
  method Visit(teachers: seq<Teacher>, ghost before: seq<nat>, ms: seq<nat>, out0: seq<nat>, seen0: set<string>, k: int)
    returns (out: seq<nat>, seen: set<string>, stop: bool)
    requires InCatalogue(teachers, before) && InCatalogue(teachers, ms)
    requires out0 == Dedup(CatalogueKeys(teachers), before)
    requires seen0 == KeysOf(CatalogueKeys(teachers), out0) && |out0| < Cap(k)
    ensures InCatalogue(CatalogueKeys(teachers), out)
    ensures seen == KeysOf(CatalogueKeys(teachers), out)
    ensures !stop ==> out == Dedup(CatalogueKeys(teachers), before + ms) && |out| < Cap(k)
    ensures stop ==> |out| == Cap(k) && IsPrefix(out, Dedup(CatalogueKeys(teachers), before + ms))
  {
    ghost var keys := CatalogueKeys(teachers);
    assert before + ms[..0] == before;
    out, seen := out0, seen0;
    var j := 0;
    while j < |ms|
      invariant 0 <= j <= |ms|
      invariant InCatalogue(keys, before + ms[..j])
      invariant out == Dedup(keys, before + ms[..j])
      invariant seen == KeysOf(keys, out)
      invariant |out| < Cap(k)
    {
      VisitStep(keys, before, ms, j);
      var tid := Key(teachers[ms[j]]);
      if tid in seen {
        j := j + 1;
        continue;
      }
      KeysOfSnoc(keys, out, ms[j]);
      seen := seen + {tid};
      out := out + [ms[j]];
      if |out| >= k {
        return out, seen, true;
      }
      j := j + 1;
    }
    assert ms[..j] == ms;
    return out, seen, false;
  }

  lemma ConcatInCatalogue(keys: seq<string>, a: seq<nat>, b: seq<nat>, j: nat)
    requires InCatalogue(keys, a) && InCatalogue(keys, b) && j <= |b|
    ensures InCatalogue(keys, a + b[..j])
    ensures j == |b| ==> InCatalogue(keys, a + b)
  {
    assert b[..|b|] == b;
  }

  /** Every prefix of the visits names tutors of the catalogue. */
  lemma FlattenPrefixes(keys: seq<string>, per: seq<seq<nat>>)
    requires InCatalogue(keys, Flatten(per))
    ensures forall i :: 0 <= i <= |per| ==> InCatalogue(keys, Flatten(per[..i]))
  {
    forall i | 0 <= i <= |per|
      ensures InCatalogue(keys, Flatten(per[..i]))
    {
      FlattenPrefix(per, i);
    }
  }

  /** At the early return, `out` is already the whole result. */
  lemma StopsEarly(keys: seq<string>, per: seq<seq<nat>>, i: nat, out: seq<nat>, k: int)
    requires i <= |per| && InCatalogue(keys, Flatten(per))
    requires InCatalogue(keys, Flatten(per[..i]))
    requires |out| == Cap(k) && IsPrefix(out, Dedup(keys, Flatten(per[..i])))
    ensures Take(Dedup(keys, Flatten(per)), Cap(k)) == out
  {
    FlattenPrefix(per, i);
    DedupMonotone(keys, Flatten(per[..i]), Flatten(per));
    PrefixTransitive(out, Dedup(keys, Flatten(per[..i])), Dedup(keys, Flatten(per)));
  }

  // ---------------------------------------------------------------------------
  // Properties of the result
  // ---------------------------------------------------------------------------

  /** No two returned tutors share an `id` (or a `name`, where the id is missing). */
  lemma CollectedUnique(teachers: seq<Teacher>, subjects: seq<string>, grade: int, board: string, k: int)
    ensures var out := Collected(teachers, subjects, grade, board, k);
      forall i, j :: 0 <= i < j < |out| ==>
        out[i] < |teachers| && out[j] < |teachers| && Key(teachers[out[i]]) != Key(teachers[out[j]])
  {
    var keys := CatalogueKeys(teachers);
    StreamInCatalogue(teachers, subjects, grade, board);
    var d := Dedup(keys, Stream(teachers, subjects, grade, board));
    DedupUnique(keys, Stream(teachers, subjects, grade, board));
    var out := Collected(teachers, subjects, grade, board, k);
    assert forall i :: 0 <= i < |out| ==> out[i] == d[i];
  }

  /** Every returned tutor is among `match_teachers(s, grade, board, limit=3)` for a requested subject `s`. */
  lemma CollectedFromSubjects(teachers: seq<Teacher>, subjects: seq<string>, grade: int, board: string, k: int, x: nat)
    requires x in Collected(teachers, subjects, grade, board, k)
    ensures exists m :: 0 <= m < |subjects| && x in Matches(teachers, Some(subjects[m]), grade, board, 3)
  {
    StreamInCatalogue(teachers, subjects, grade, board);
    StreamMembers(teachers, subjects, grade, board, x);
  }

  /**
   * The result lists, in visiting order, the first tutor of each key; and unless the cap was
   * reached, every visited key is represented.
   */
  lemma CollectedFirstOfEachKey(teachers: seq<Teacher>, subjects: seq<string>, grade: int, board: string, k: int)
    ensures InCatalogue(teachers, Stream(teachers, subjects, grade, board))
    ensures var keys := CatalogueKeys(teachers);
      var xs := Stream(teachers, subjects, grade, board);
      var out := Collected(teachers, subjects, grade, board, k);
      && InCatalogue(keys, out)
      && (exists idx :: FirstOfEachKey(keys, out, xs, idx))
      && (|out| < Cap(k) ==> forall i :: 0 <= i < |xs| ==> keys[xs[i]] in KeysOf(keys, out))
      && (exists n :: 0 <= n <= |xs| && InCatalogue(keys, xs[..n]) && out == Dedup(keys, xs[..n]))
  {
    var keys := CatalogueKeys(teachers);
    var xs := Stream(teachers, subjects, grade, board);
    StreamInCatalogue(teachers, subjects, grade, board);
    var d := Dedup(keys, xs);
    var out := Collected(teachers, subjects, grade, board, k);
    DedupFirstOfEachKey(keys, xs);
    DedupComplete(keys, xs);
    var idx: seq<nat> :| FirstOfEachKey(keys, d, xs, idx);
    assert FirstOfEachKey(keys, out, xs, idx[..|out|]);
    var n := DedupPrefixAt(keys, xs, |out|);
    assert out == Dedup(keys, xs[..n]);
  }

  /**
   * Every prefix of the deduplicated stream is what the loop holds after visiting some prefix of
   * the stream: stopping early never skips a new key visited before the last pick.
   */
  lemma {:induction false} DedupPrefixAt(keys: seq<string>, xs: seq<nat>, m: nat) returns (n: nat)
    requires InCatalogue(keys, xs) && m <= |Dedup(keys, xs)|
    ensures n <= |xs| && InCatalogue(keys, xs[..n])
    ensures Dedup(keys, xs[..n]) == Dedup(keys, xs)[..m]
    decreases |xs|
  {
    var d := Dedup(keys, xs);
    if m == |d| {
      n := |xs|;
      assert xs[..n] == xs;
    } else {
      var l := |xs| - 1;
      var d' := Dedup(keys, xs[..l]);
      assert d[..|d'|] == d';
      n := DedupPrefixAt(keys, xs[..l], m);
      assert xs[..l][..n] == xs[..n];
    }
  }
}
