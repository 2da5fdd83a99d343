/**
 * The tutor catalogue (`TEACHERS`, loaded from `teachers.json`) and the load-time pass that
 * gives every teacher its `_subjects_canon` set: the canonical names of the subjects it lists.
 */
module Catalog {
  import opened Opt
  import opened Subjects

  /**
   * One catalogue record. `id` is `None` when the record has no `id` field; `canon` is the
   * `_subjects_canon` set the preprocessing pass writes.
   */
  datatype Teacher = Teacher(
    id: Option<string>,
    name: string,
    subjects: seq<string>,
    grades: seq<int>,
    boards: seq<string>,
    canon: set<string>)

  /** `t.get("id") or t["name"]`: the id, unless it is missing or empty. */
  function Key(t: Teacher): string {
    if t.id.Some? && t.id.value != "" then t.id.value else t.name
  }

  /** `canonical_subject` applied to every entry of a subject list. */
  function Canons(subjects: seq<string>): (r: seq<Option<string>>)
    ensures |r| == |subjects|
    ensures forall k :: 0 <= k < |subjects| ==> r[k] == CanonicalSubject(subjects[k])
  {
    seq(|subjects|, k requires 0 <= k < |subjects| => CanonicalSubject(subjects[k]))
  }

  /** The values present in a list of optional values, as a set. */
  function Present(xs: seq<Option<string>>): set<string> {
    if xs == [] then {}
    else Present(xs[..|xs| - 1]) + (if xs[|xs| - 1].Some? then {xs[|xs| - 1].value} else {})
  }

  /** A value is present exactly when some entry holds it. */
  lemma {:induction false} PresentMembers(xs: seq<Option<string>>, c: string)
    ensures c in Present(xs) <==> exists k :: 0 <= k < |xs| && xs[k] == Some(c)
    decreases |xs|
  {
    if xs != [] {
      var n := |xs| - 1;
      PresentMembers(xs[..n], c);
      assert forall k :: 0 <= k < n ==> xs[..n][k] == xs[k];
    }
  }

  /** One more entry read: its value, if present, joins the set. */
  lemma PresentSnoc(xs: seq<Option<string>>, k: nat)
    requires k < |xs|
    ensures Present(xs[..k + 1]) == Present(xs[..k]) + (if xs[k].Some? then {xs[k].value} else {})
  {
    assert xs[..k + 1][..k] == xs[..k];
  }

  /** The set the preprocessing loop builds from a subject list: every subject that canonicalises, canonicalised. */
  function CanonSet(subjects: seq<string>): set<string> {
    Present(Canons(subjects))
  }

  /** A name is in the set exactly when some listed subject canonicalises to it. */
  lemma CanonSetMembers(subjects: seq<string>, c: string)
    ensures c in CanonSet(subjects) <==> exists k :: 0 <= k < |subjects| && CanonicalSubject(subjects[k]) == Some(c)
  {
    PresentMembers(Canons(subjects), c);
  }

  /** Every canonical name a teacher carries canonicalises to itself. */
  lemma CanonSetIsCanonical(subjects: seq<string>, c: string)
    requires c in CanonSet(subjects)
    ensures CanonicalSubject(c) == Some(c)
  {
    CanonSetMembers(subjects, c);
    var k :| 0 <= k < |subjects| && CanonicalSubject(subjects[k]) == Some(c);
    CanonicalIdempotent(subjects[k]);
  }

  /** The inner loop of the preprocessing pass: the canonical names of one teacher's subjects. */
  method BuildCanon(subjects: seq<string>) returns (canon: set<string>)
    ensures canon == CanonSet(subjects)
  {
    ghost var all := Canons(subjects);
    canon := {};
    var k := 0;
    while k < |subjects|
      invariant 0 <= k <= |subjects|
      invariant canon == Present(all[..k])
    {
      var c := CanonicalSubject(subjects[k]);
      PresentSnoc(all, k);
      if c.Some? {
        canon := canon + {c.value};
      }
      k := k + 1;
    }
    assert all[..k] == all;
  }

  /** A teacher after the preprocessing pass: `_subjects_canon` set from its subject list. */
  function WithCanon(t: Teacher): (r: Teacher)
    ensures r.canon == CanonSet(t.subjects)
    ensures r.(canon := t.canon) == t
  {
    t.(canon := CanonSet(t.subjects))
  }

  /** The preprocessing pass over the loaded catalogue, updating every record in place. */
  method Preprocess(teachers: array<Teacher>)
    modifies teachers
    ensures forall i :: 0 <= i < teachers.Length ==> teachers[i] == WithCanon(old(teachers[i]))
  {
    ghost var before := teachers[..];
    var i := 0;
    while i < teachers.Length
      invariant 0 <= i <= teachers.Length
      invariant forall j :: 0 <= j < i ==> teachers[j] == WithCanon(before[j])
      invariant forall j :: i <= j < teachers.Length ==> teachers[j] == before[j]
    {
      var t := teachers[i];
      var canon := BuildCanon(t.subjects);
      teachers[i] := t.(canon := canon);
      i := i + 1;
    }
  }

  /** The catalogue after the pass holds only canonical names in every `_subjects_canon`. */
  lemma PreprocessedIsCanonical(t: Teacher, c: string)
    requires c in WithCanon(t).canon
    ensures CanonicalSubject(c) == Some(c)
  {
    CanonSetIsCanonical(t.subjects, c);
  }
}
