/**
 * The subject selection carried in the subject keyboard's buttons: `encode_sel` writes the
 * chosen codes sorted and dot-joined, `decode_sel` reads the non-empty dot-separated parts
 * back, and a `T|` button toggles one code (or clears all with `__RESET__`).
 */
module Selection {
  import opened Text
  import opened StrOrder
  import opened Subjects

  /** A code the dot-joined encoding carries unchanged: non-empty and free of dots. */
  predicate PlainCode(c: string) {
    c != [] && '.' !in c
  }

  predicate PlainCodes(sel: set<string>) {
    forall c :: c in sel ==> PlainCode(c)
  }

  /** `encode_sel`: the codes in ascending order joined by dots; the empty set is `""`. */
  function EncodeSel(sel: set<string>): (r: string)
    ensures sel == {} ==> r == []
  {
    if sel == {} then [] else Join(SortedList(sel), '.')
  }

  /** `decode_sel`: the non-empty parts of the text split at every dot. */
  function DecodeSel(s: string): (r: set<string>)
    ensures PlainCodes(r)
  {
    SplitNParts(s, '.', |s|);
    set x | x in Split(s, '.') && x != []
  }

  /** A code is decoded exactly when it is a non-empty part. */
  lemma DecodeSelMembers(s: string, c: string)
    ensures c in DecodeSel(s) <==> c != [] && c in Split(s, '.')
  {
  }

  /** The encoding of a non-empty selection splits into its codes, strictly ascending. */
  lemma EncodeSelParts(sel: set<string>)
    requires PlainCodes(sel) && sel != {}
    ensures Split(EncodeSel(sel), '.') == SortedList(sel)
    ensures StrictlySorted(Split(EncodeSel(sel), '.'))
  {
    var parts := SortedList(sel);
    assert forall i :: 0 <= i < |parts| ==> parts[i] in sel;
    SplitNJoin(parts, '.', |Join(parts, '.')|);
  }

  /** `decode_sel(encode_sel(s)) == s` for codes that are non-empty and dot-free. */
  lemma SelRoundTrip(sel: set<string>)
    requires PlainCodes(sel)
    ensures DecodeSel(EncodeSel(sel)) == sel
  {
    if sel != {} {
      EncodeSelParts(sel);
    } else {
      assert Split([], '.') == [[]];
    }
  }

  /** Only the empty selection encodes to `""`. */
  lemma EncodeSelEmpty(sel: set<string>)
    requires PlainCodes(sel)
    ensures EncodeSel(sel) == [] <==> sel == {}
  {
    SelRoundTrip(sel);
    assert Split([], '.') == [[]];
  }

  /** Two selections with the same encoding are the same selection. */
  lemma EncodeSelInjective(a: set<string>, b: set<string>)
    requires PlainCodes(a) && PlainCodes(b)
    requires EncodeSel(a) == EncodeSel(b)
    ensures a == b
  {
    SelRoundTrip(a);
    SelRoundTrip(b);
  }

  /** The non-empty entries of a list, in order. */
  function NonEmpty(xs: seq<string>): (r: seq<string>)
    ensures forall x :: x in r <==> x in xs && x != []
    ensures |r| <= |xs|
  {
    if xs == [] then []
    else (if xs[0] == [] then [] else [xs[0]]) + NonEmpty(xs[1..])
  }

  /** `[x for x in s.split(".") if x]`: the codes of a selection text as a list, in order. */
  function SelCodes(s: string): seq<string> {
    NonEmpty(Split(s, '.'))
  }

  /** The list and the set read from the same text hold the same codes. */
  lemma SelCodesMembers(s: string, c: string)
    ensures c in SelCodes(s) <==> c in DecodeSel(s)
  {
  }

  /** A list without empty entries is its own filter. */
  lemma {:induction false} NonEmptyOfNonEmpty(xs: seq<string>)
    requires forall i :: 0 <= i < |xs| ==> xs[i] != []
    ensures NonEmpty(xs) == xs
    decreases |xs|
  {
    if xs != [] {
      NonEmptyOfNonEmpty(xs[1..]);
      assert [xs[0]] + xs[1..] == xs;
    }
  }

  /** Dot-joining plain codes and reading them back gives the same list. */
  lemma SelCodesJoin(codes: seq<string>)
    requires forall i :: 0 <= i < |codes| ==> PlainCode(codes[i])
    ensures SelCodes(Join(codes, '.')) == codes
    ensures Join(codes, '.') == [] <==> codes == []
  {
    assert Split([], '.') == [[]];
    if codes != [] {
      SplitNJoin(codes, '.', |Join(codes, '.')|);
      NonEmptyOfNonEmpty(codes);
    }
  }

  /** The list read from an encoded selection is its codes in ascending order. */
  lemma SelCodesOfEncoding(sel: set<string>)
    requires PlainCodes(sel)
    ensures SelCodes(EncodeSel(sel)) == SortedList(sel)
  {
    var parts := SortedList(sel);
    assert forall i :: 0 <= i < |parts| ==> parts[i] in sel;
    if sel == {} {
      assert Split([], '.') == [[]];
    } else {
      SelCodesJoin(parts);
    }
  }

  // ---------------------------------------------------------------------------
  // The toggle step
  // ---------------------------------------------------------------------------

  /** The code of the Reset button. */
  const ResetCode: string := "__RESET__"

  /** The selection after a `T|code|...` press: Reset clears it, any other code flips membership. */
  function Toggle(sel: set<string>, code: string): (r: set<string>)
    ensures code == ResetCode ==> r == {}
    ensures code != ResetCode ==> (code in r <==> code !in sel)
    ensures code != ResetCode ==> r - {code} == sel - {code}
  {
    if code == ResetCode then {}
    else if code in sel then sel - {code}
    else sel + {code}
  }

  /** Pressing the same subject twice restores the selection. */
  lemma ToggleTwice(sel: set<string>, code: string)
    requires code != ResetCode
    ensures Toggle(Toggle(sel, code), code) == sel
  {
    var once := Toggle(sel, code);
    var twice := Toggle(once, code);
    assert code in twice <==> code in sel;
    assert twice - {code} == sel - {code};
  }

  /** Toggling plain codes keeps a plain selection, so the next keyboard round-trips it. */
  lemma TogglePlain(sel: set<string>, code: string)
    requires PlainCodes(sel) && PlainCode(code)
    ensures PlainCodes(Toggle(sel, code))
  {
  }

  // ---------------------------------------------------------------------------
  // The codes offered on the subject keyboard
  // ---------------------------------------------------------------------------

  /** The codes of one section of `SUBJECT_GROUPS`, in order. */
  function CodesOf(items: seq<(string, string)>): (r: seq<string>)
    ensures |r| == |items|
    ensures forall i :: 0 <= i < |items| ==> r[i] == items[i].0
  {
    seq(|items|, i requires 0 <= i < |items| => items[i].0)
  }

  /** The codes of all sections, section after section. */
  function GroupCodes(groups: seq<(string, seq<(string, string)>)>): seq<string> {
    if groups == [] then [] else GroupCodes(groups[..|groups| - 1]) + CodesOf(groups[|groups| - 1].1)
  }

  /**
   * A code the keyboard offers: plain, free of the payload separator `|`, not the Reset code,
   * and labelled in `CODE_TO_SUBJECT`.
   */
  predicate Offered(c: string) {
    PlainCode(c) && '|' !in c && c != ResetCode && c in CodeToSubject
  }

  /** A code is on the keyboard exactly when some section lists it. */
  lemma {:induction false} GroupCodesMembers(groups: seq<(string, seq<(string, string)>)>, c: string)
    ensures c in GroupCodes(groups) <==>
      exists g, i :: 0 <= g < |groups| && 0 <= i < |groups[g].1| && groups[g].1[i].0 == c
    decreases |groups|
  {
    if groups != [] {
      var n := |groups| - 1;
      GroupCodesMembers(groups[..n], c);
      assert forall g :: 0 <= g < n ==> groups[..n][g] == groups[g];
      if c in CodesOf(groups[n].1) {
        var i :| 0 <= i < |groups[n].1| && CodesOf(groups[n].1)[i] == c;
        assert groups[n].1[i].0 == c;
      }
    }
  }

  /** Every code a section lists is offered. */
  predicate SectionOffered(items: seq<(string, string)>) {
    forall i :: 0 <= i < |items| ==> Offered(items[i].0)
  }

  /** The "Core subjects" section lists only offered codes. */
  lemma CoreOffered()
    ensures SectionOffered(SubjectGroups[0].1)
  {
    CoreHeadOffered();
    CoreTailOffered();
  }

  lemma CoreHeadOffered()
    ensures forall i :: 0 <= i < 6 ==> Offered(SubjectGroups[0].1[i].0)
  {
    var items := SubjectGroups[0].1;
    assert |items| == 11;
    assert Offered(items[0].0) by { assert items[0].0 == "MTH"; }
    assert Offered(items[1].0) by { assert items[1].0 == "ENL"; }
    assert Offered(items[2].0) by { assert items[2].0 == "ENLIT"; }
    assert Offered(items[3].0) by { assert items[3].0 == "BIO"; }
    assert Offered(items[4].0) by { assert items[4].0 == "CHE"; }
    assert Offered(items[5].0) by { assert items[5].0 == "PHY"; }
  }

  lemma CoreTailOffered()
    ensures forall i :: 6 <= i < 11 ==> Offered(SubjectGroups[0].1[i].0)
  {
    var items := SubjectGroups[0].1;
    assert |items| == 11;
    assert Offered(items[6].0) by { assert items[6].0 == "HUM"; }
    assert Offered(items[7].0) by { assert items[7].0 == "BUS"; }
    assert Offered(items[8].0) by { assert items[8].0 == "ECO"; }
    assert Offered(items[9].0) by { assert items[9].0 == "ACC"; }
    assert Offered(items[10].0) by { assert items[10].0 == "SOC"; }
  }

  /** The "Languages" section lists only offered codes. */
  lemma LanguagesOffered()
    ensures SectionOffered(SubjectGroups[1].1)
  {
    var items := SubjectGroups[1].1;
    assert |items| == 3;
    assert Offered(items[0].0) by { assert items[0].0 == "FR"; }
    assert Offered(items[1].0) by { assert items[1].0 == "DE"; }
    assert Offered(items[2].0) by { assert items[2].0 == "AR"; }
  }

  /** The "Creative & Technical" section lists only offered codes. */
  lemma TechnicalOffered()
    ensures SectionOffered(SubjectGroups[2].1)
  {
    var items := SubjectGroups[2].1;
    assert |items| == 2;
    assert Offered(items[0].0) by { assert items[0].0 == "ICT"; }
    assert Offered(items[1].0) by { assert items[1].0 == "CS"; }
  }

  /** The "Other options" section lists only offered codes. */
  lemma OtherOffered()
    ensures SectionOffered(SubjectGroups[3].1)
  {
    var items := SubjectGroups[3].1;
    assert |items| == 3;
    assert Offered(items[0].0) by { assert items[0].0 == "EM"; }
    assert Offered(items[1].0) by { assert items[1].0 == "PE"; }
    assert Offered(items[2].0) by { assert items[2].0 == "TT"; }
  }

  /** When every section lists only offered codes, so does the whole keyboard. */
  lemma {:induction false} SectionsOffered(groups: seq<(string, seq<(string, string)>)>)
    requires forall g :: 0 <= g < |groups| ==> SectionOffered(groups[g].1)
    ensures forall c :: c in GroupCodes(groups) ==> Offered(c)
    decreases |groups|
  {
    if groups != [] {
      var n := |groups| - 1;
      assert forall g :: 0 <= g < n ==> groups[..n][g] == groups[g];
      SectionsOffered(groups[..n]);
      assert SectionOffered(groups[n].1);
    }
  }

  /** Every code on the subject keyboard is plain, distinct from Reset and has a label. */
  lemma GroupCodesOffered()
    ensures forall c :: c in GroupCodes(SubjectGroups) ==> Offered(c)
  {
    CoreOffered();
    LanguagesOffered();
    TechnicalOffered();
    OtherOffered();
    assert |SubjectGroups| == 4;
    SectionsOffered(SubjectGroups);
  }

  /** A selection made on the keyboard holds only offered codes, whatever was pressed in between. */
  lemma ToggleOffered(sel: set<string>, code: string)
    requires forall c :: c in sel ==> Offered(c)
    requires code in GroupCodes(SubjectGroups) || code == ResetCode
    ensures forall c :: c in Toggle(sel, code) ==> Offered(c)
  {
    GroupCodesOffered();
  }
}
