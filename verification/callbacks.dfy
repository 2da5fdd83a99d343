/**
 * The inline-keyboard wire format: every button carries a `callback_data` text made of a tag
 * and `|`-separated fields, built by `kb_board`, `kb_grade`, `kb_subjects` and `kb_prefs` and
 * taken apart by the callback branch of the webhook handler with `split("|", n)` and `int()`.
 */
module Callbacks {
  import opened Opt
  import opened Text
  import opened Seqs
  import opened StrOrder
  import opened Subjects
  import opened Selection

  /** A button press, as the handler dispatches it. */
  datatype Action =
    | Noop
    | PickBoard(board: string)
    | PickGrade(grade: int, board: string)
    | ToggleSubject(code: string, board: string, grade: int, enc: string)
    | FinishSubjects(board: string, grade: int, enc: string)
    | SetPrefs(board: string, grade: int, code: string, rest: string, tOpt: string, wOpt: string)
    | NextSubject(board: string, grade: int, code: string, rest: string, tOpt: string, wOpt: string)

  /**
   * What the handler makes of a payload: an action; a payload no branch takes, answered with
   * `ok` and otherwise ignored; or one whose unpacking or `int()` raises, which the handler's
   * catch-all turns into a plain `ok` as well, with no state written.
   */
  datatype Parsed = Act(action: Action) | Unhandled | Raises

  /** The tag in front of the first `|`. */
  function Tag(a: Action): string {
    match a
    case Noop => "noop"
    case PickBoard(_) => "B"
    case PickGrade(_, _) => "G"
    case ToggleSubject(_, _, _, _) => "T"
    case FinishSubjects(_, _, _) => "D"
    case SetPrefs(_, _, _, _, _, _) => "Q"
    case NextSubject(_, _, _, _, _, _) => "QN"
  }

  /** The fields after the tag, in wire order. */
  function Fields(a: Action): seq<string> {
    match a
    case Noop => []
    case PickBoard(b) => [b]
    case PickGrade(g, b) => [IntToString(g), b]
    case ToggleSubject(c, b, g, e) => [c, b, IntToString(g), e]
    case FinishSubjects(b, g, e) => [b, IntToString(g), e]
    case SetPrefs(b, g, c, r, t, w) => [b, IntToString(g), c, r, t, w]
    case NextSubject(b, g, c, r, t, w) => [b, IntToString(g), c, r, t, w]
  }

  /** The `callback_data` of the button for an action. */
  function Format(a: Action): string {
    Join([Tag(a)] + Fields(a), '|')
  }

  /** The board branch: the payload must split into the tag and one board field (`data.split("|", 1)`), else unpacking raises. */
  function BoardParts(p: seq<string>): Parsed {
    if |p| == 2 then Act(PickBoard(p[1])) else Raises
  }

  /**
   * The grade branch: the payload must split into the tag, a grade and a board
   * (`data.split("|", 2)`), and the grade must read as an integer; otherwise the branch raises.
   */
  function GradeParts(p: seq<string>): Parsed {
    if |p| != 3 then Raises
    else match ParseInt(p[1])
      case None => Raises
      case Some(g) => Act(PickGrade(g, p[2]))
  }

  /**
   * The toggle branch: the payload must split into the tag, a code, a board, a grade and the
   * encoded selection (`data.split("|", 4)`), and the grade must read as an integer.
   */
  function ToggleParts(p: seq<string>): Parsed {
    if |p| != 5 then Raises
    else match ParseInt(p[3])
      case None => Raises
      case Some(g) => Act(ToggleSubject(p[1], p[2], g, p[4]))
  }

  /**
   * The Done branch: the payload must split into the tag, a board, a grade and the encoded
   * selection (`data.split("|", 3)`), and the grade must read as an integer.
   */
  function DoneParts(p: seq<string>): Parsed {
    if |p| != 4 then Raises
    else match ParseInt(p[2])
      case None => Raises
      case Some(g) => Act(FinishSubjects(p[1], g, p[3]))
  }

  /**
   * The preference branches: the payload must split into the tag and six fields (board, grade,
   * code, remaining codes, tutoring and workload answers; `data.split("|", 6)`), and the grade
   * must read as an integer. `next` tells a `QN|` press from a `Q|` press.
   */
  function PrefParts(p: seq<string>, next: bool): Parsed {
    if |p| != 7 then Raises
    else match ParseInt(p[2])
      case None => Raises
      case Some(g) =>
        if next then Act(NextSubject(p[1], g, p[3], p[4], p[5], p[6]))
        else Act(SetPrefs(p[1], g, p[3], p[4], p[5], p[6]))
  }

  /**
   * The callback branch's dispatch: `noop`, then the prefixes `B|`, `G|`, `T|`, `D|`, `Q|`,
   * `QN|` in that order, each unpacking exactly `n + 1` parts of `split("|", n)`.
   */
  function Parse(data: string): Parsed {
    if data == "noop" then Act(Noop)
    else if StartsWith(data, "B|") then BoardParts(SplitN(data, '|', 1))
    else if StartsWith(data, "G|") then GradeParts(SplitN(data, '|', 2))
    else if StartsWith(data, "T|") then ToggleParts(SplitN(data, '|', 4))
    else if StartsWith(data, "D|") then DoneParts(SplitN(data, '|', 3))
    else if StartsWith(data, "Q|") then PrefParts(SplitN(data, '|', 6), false)
    else if StartsWith(data, "QN|") then PrefParts(SplitN(data, '|', 6), true)
    else Unhandled
  }

  // ---------------------------------------------------------------------------
  // Round trip
  // ---------------------------------------------------------------------------

  /** Every field but the last is free of `|`, so `split("|", n)` cannot cut inside one. */
  predicate Sendable(a: Action) {
    forall i :: 0 <= i < |Fields(a)| - 1 ==> '|' !in Fields(a)[i]
  }

  /** A payload with fields is its tag, a `|`, and the joined fields. */
  lemma FormatHead(a: Action)
    requires !a.Noop?
    ensures Format(a) == Tag(a) + "|" + Join(Fields(a), '|')
    ensures StartsWith(Format(a), Tag(a) + "|")
  {
    var parts := [Tag(a)] + Fields(a);
    assert parts[1..] == Fields(a);
  }

  /** Splitting a payload at its fields' number of `|` gives the tag and the fields. */
  lemma SplitFormat(a: Action)
    requires Sendable(a)
    ensures SplitN(Format(a), '|', |Fields(a)|) == [Tag(a)] + Fields(a)
  {
    var parts := [Tag(a)] + Fields(a);
    forall i | 0 <= i < |parts| - 1
      ensures '|' !in parts[i]
    {
      if i > 0 {
        assert parts[i] == Fields(a)[i - 1];
      }
    }
    SplitNJoin(parts, '|', |Fields(a)|);
  }

  /** The branch a `B|` payload takes. */
  lemma DispatchBoard(data: string)
    requires |data| >= 2 && data[0] == 'B' && data[1] == '|'
    ensures Parse(data) == BoardParts(SplitN(data, '|', 1))
  {
    assert data != "noop";
    assert StartsWith(data, "B|");
  }

  lemma DispatchGrade(data: string)
    requires |data| >= 2 && data[0] == 'G' && data[1] == '|'
    ensures Parse(data) == GradeParts(SplitN(data, '|', 2))
  {
    assert data != "noop";
    assert !StartsWith(data, "B|");
    assert StartsWith(data, "G|");
  }

  lemma DispatchToggle(data: string)
    requires |data| >= 2 && data[0] == 'T' && data[1] == '|'
    ensures Parse(data) == ToggleParts(SplitN(data, '|', 4))
  {
    assert data != "noop";
    assert !StartsWith(data, "B|");
    assert !StartsWith(data, "G|");
    assert StartsWith(data, "T|");
  }

  lemma DispatchDone(data: string)
    requires |data| >= 2 && data[0] == 'D' && data[1] == '|'
    ensures Parse(data) == DoneParts(SplitN(data, '|', 3))
  {
    assert data != "noop";
    assert !StartsWith(data, "B|");
    assert !StartsWith(data, "G|");
    assert !StartsWith(data, "T|");
    assert StartsWith(data, "D|");
  }

  /** `Q|` and `QN|` payloads: `QN|` does not start with `Q|`. */
  lemma DispatchPrefs(data: string, next: bool)
    requires |data| >= 3 && data[0] == 'Q'
    requires if next then data[1] == 'N' && data[2] == '|' else data[1] == '|'
    ensures Parse(data) == PrefParts(SplitN(data, '|', 6), next)
  {
    assert data != "noop";
    assert !StartsWith(data, "B|");
    assert !StartsWith(data, "G|");
    assert !StartsWith(data, "T|");
    assert !StartsWith(data, "D|");
    if next {
      assert !StartsWith(data, "Q|");
      assert StartsWith(data, "QN|");
    } else {
      assert StartsWith(data, "Q|");
    }
  }

  /** A payload with fields is its tag, a `|`, and the rest. */
  lemma FormatPrefix(a: Action)
    requires !a.Noop?
    ensures |Format(a)| >= |Tag(a)| + 1 && Format(a)[..|Tag(a)| + 1] == Tag(a) + "|"
  {
    FormatHead(a);
  }

  lemma GradeOfParts(p: seq<string>, g: int)
    requires |p| == 3 && ParseInt(p[1]) == Some(g)
    ensures GradeParts(p) == Act(PickGrade(g, p[2]))
  {
  }

  lemma ToggleOfParts(p: seq<string>, g: int)
    requires |p| == 5 && ParseInt(p[3]) == Some(g)
    ensures ToggleParts(p) == Act(ToggleSubject(p[1], p[2], g, p[4]))
  {
  }

  lemma DoneOfParts(p: seq<string>, g: int)
    requires |p| == 4 && ParseInt(p[2]) == Some(g)
    ensures DoneParts(p) == Act(FinishSubjects(p[1], g, p[3]))
  {
  }

  lemma PrefOfParts(p: seq<string>, g: int, next: bool)
    requires |p| == 7 && ParseInt(p[2]) == Some(g)
    ensures PrefParts(p, next) ==
      if next then Act(NextSubject(p[1], g, p[3], p[4], p[5], p[6]))
      else Act(SetPrefs(p[1], g, p[3], p[4], p[5], p[6]))
  {
  }

  lemma ParseFormatBoard(b: string)
    ensures Parse(Format(PickBoard(b))) == Act(PickBoard(b))
  {
    var a := PickBoard(b);
    var data := Format(a);
    SplitFormat(a);
    FormatPrefix(a);
    assert data[..2] == "B|";
    DispatchBoard(data);
  }

  lemma ParseFormatGrade(g: int, b: string)
    ensures Parse(Format(PickGrade(g, b))) == Act(PickGrade(g, b))
  {
    var a := PickGrade(g, b);
    var data := Format(a);
    GradePlain(g);
    SplitFormat(a);
    FormatPrefix(a);
    assert data[..2] == "G|";
    DispatchGrade(data);
    IntRoundTrip(g);
    GradeOfParts(SplitN(data, '|', 2), g);
  }

  lemma ParseFormatToggle(c: string, b: string, g: int, e: string)
    requires '|' !in c && '|' !in b
    ensures Parse(Format(ToggleSubject(c, b, g, e))) == Act(ToggleSubject(c, b, g, e))
  {
    var a := ToggleSubject(c, b, g, e);
    var data := Format(a);
    GradePlain(g);
    SplitFormat(a);
    FormatPrefix(a);
    assert data[..2] == "T|";
    DispatchToggle(data);
    IntRoundTrip(g);
    ToggleOfParts(SplitN(data, '|', 4), g);
  }

  lemma ParseFormatDone(b: string, g: int, e: string)
    requires '|' !in b
    ensures Parse(Format(FinishSubjects(b, g, e))) == Act(FinishSubjects(b, g, e))
  {
    var a := FinishSubjects(b, g, e);
    var data := Format(a);
    GradePlain(g);
    SplitFormat(a);
    FormatPrefix(a);
    assert data[..2] == "D|";
    DispatchDone(data);
    IntRoundTrip(g);
    DoneOfParts(SplitN(data, '|', 3), g);
  }

  lemma ParseFormatPrefs(a: Action)
    requires a.SetPrefs? || a.NextSubject?
    requires Sendable(a)
    ensures Parse(Format(a)) == Act(a)
  {
    var data := Format(a);
    PrefsLayout(a);
    DispatchPrefs(data, a.NextSubject?);
    IntRoundTrip(a.grade);
    PrefOfParts(SplitN(data, '|', 6), a.grade, a.NextSubject?);
  }

  /** Where the tag and the fields of a preference payload sit. */
  lemma PrefsLayout(a: Action)
    requires a.SetPrefs? || a.NextSubject?
    requires Sendable(a)
    ensures |Format(a)| >= 3 && Format(a)[0] == 'Q'
    ensures if a.NextSubject? then Format(a)[1] == 'N' && Format(a)[2] == '|' else Format(a)[1] == '|'
    ensures var p := SplitN(Format(a), '|', 6);
      |p| == 7 && p[1] == a.board && p[2] == IntToString(a.grade) && p[3] == a.code
      && p[4] == a.rest && p[5] == a.tOpt && p[6] == a.wOpt
  {
    var data := Format(a);
    SplitFormat(a);
    FormatPrefix(a);
    if a.NextSubject? {
      assert data[..3] == "QN|";
    } else {
      assert data[..2] == "Q|";
    }
  }

  /** Parsing the payload of a button gives back the button's action. */
  lemma ParseFormat(a: Action)
    requires Sendable(a)
    ensures Parse(Format(a)) == Act(a)
  {
    match a
    case Noop =>
    case PickBoard(b) =>
      ParseFormatBoard(b);
    case PickGrade(g, b) =>
      ParseFormatGrade(g, b);
    case ToggleSubject(c, b, g, e) =>
      assert Fields(a)[0] == c && Fields(a)[1] == b;
      ParseFormatToggle(c, b, g, e);
    case FinishSubjects(b, g, e) =>
      assert Fields(a)[0] == b;
      ParseFormatDone(b, g, e);
    case SetPrefs(_, _, _, _, _, _) =>
      ParseFormatPrefs(a);
    case NextSubject(_, _, _, _, _, _) =>
      ParseFormatPrefs(a);
  }

  /** Distinct buttons carry distinct payloads. */
  lemma FormatInjective(a: Action, b: Action)
    requires Sendable(a) && Sendable(b) && Format(a) == Format(b)
    ensures a == b
  {
    ParseFormat(a);
    ParseFormat(b);
  }

  /** A decimal grade never contains `|`. */
  lemma GradePlain(g: int)
    ensures '|' !in IntToString(g)
  {
    IntToStringPlain(g, '|');
  }

  // ---------------------------------------------------------------------------
  // Keyboards
  // ---------------------------------------------------------------------------

  /** A keyboard shows a button when some row holds it. */
  predicate Shows(rows: seq<seq<Action>>, a: Action) {
    exists r :: 0 <= r < |rows| && a in rows[r]
  }

  /** `kb_board`: the three boards in one row. */
  function KbBoard(): seq<seq<Action>> {
    [[PickBoard("C"), PickBoard("E"), PickBoard("O")]]
  }

  /** The grade buttons of `kb_grade`: grades 7 to 12. */
  function GradeButtons(b: string): (r: seq<Action>)
    ensures |r| == 6
    ensures forall i :: 0 <= i < 6 ==> r[i] == PickGrade(7 + i, b)
  {
    seq(6, i requires 0 <= i < 6 => PickGrade(7 + i, b))
  }

  /** `kb_grade(board_code)`: the grades four to a row, then Back to the board step. */
  function KbGrade(b: string): seq<seq<Action>> {
    Rows(GradeButtons(b), 4) + [[PickBoard(b)]]
  }

  /** A button in some row of `Rows(xs, width)` is one of `xs`. */
  lemma InRows(xs: seq<Action>, width: nat, r: nat, a: Action)
    requires width > 0 && r < |Rows(xs, width)| && a in Rows(xs, width)[r]
    ensures a in xs
  {
    RowsFlatten(xs, width);
    FlattenMembers(Rows(xs, width), a);
  }

  /** Every grade button carries a grade from 7 to 12 and the board, and Back returns to the board. */
  lemma KbGradeButtons(b: string, a: Action)
    requires Shows(KbGrade(b), a)
    ensures a == PickBoard(b) || (a.PickGrade? && 7 <= a.grade <= 12 && a.board == b)
    ensures Parse(Format(a)) == Act(a)
  {
    var rows := KbGrade(b);
    var grades := Rows(GradeButtons(b), 4);
    var r :| 0 <= r < |rows| && a in rows[r];
    if r < |grades| {
      InRows(GradeButtons(b), 4, r, a);
    }
    ParseFormat(a);
  }

  /** The Toggle buttons of a list of codes, all carrying the same board, grade and selection. */
  function ToggleButtons(codes: seq<string>, b: string, g: int, enc: string): (r: seq<Action>)
    ensures |r| == |codes|
    ensures forall i :: 0 <= i < |codes| ==> r[i] == ToggleSubject(codes[i], b, g, enc)
  {
    seq(|codes|, i requires 0 <= i < |codes| => ToggleSubject(codes[i], b, g, enc))
  }

  /** One section of `kb_subjects`: a header row, then its subjects two to a row. */
  function SectionRows(items: seq<(string, string)>, b: string, g: int, enc: string): seq<seq<Action>> {
    [[Noop]] + Rows(ToggleButtons(CodesOf(items), b, g, enc), 2)
  }

  /** The section rows of every group of `SUBJECT_GROUPS`, in order. */
  function Sections(groups: seq<(string, seq<(string, string)>)>, b: string, g: int, enc: string): (r: seq<seq<seq<Action>>>)
    ensures |r| == |groups|
    ensures forall k :: 0 <= k < |groups| ==> r[k] == SectionRows(groups[k].1, b, g, enc)
  {
    seq(|groups|, k requires 0 <= k < |groups| => SectionRows(groups[k].1, b, g, enc))
  }

  /** The subject keyboard over any section table: sections, Done and Reset, then Back. */
  function SubjectKeyboard(groups: seq<(string, seq<(string, string)>)>, b: string, g: int, enc: string): seq<seq<Action>> {
    Flatten(Sections(groups, b, g, enc))
      + [[FinishSubjects(b, g, enc), ToggleSubject(ResetCode, b, g, enc)], [PickGrade(g, b)]]
  }

  /**
   * `kb_subjects(board_code, grade, sel)`: the keyboard over `SUBJECT_GROUPS` whose every
   * payload carries `encode_sel(sel)`.
   */
  function KbSubjects(b: string, g: int, sel: set<string>): seq<seq<Action>> {
    SubjectKeyboard(SubjectGroups, b, g, EncodeSel(sel))
  }

  /** What a button of the subject keyboard can be. */
  predicate SubjectButton(groups: seq<(string, seq<(string, string)>)>, b: string, g: int, enc: string, a: Action) {
    || a == Noop
    || a == FinishSubjects(b, g, enc)
    || a == PickGrade(g, b)
    || (a.ToggleSubject? && a.board == b && a.grade == g && a.enc == enc
        && (a.code in GroupCodes(groups) || a.code == ResetCode))
  }

  /** A button inside the section rows is a header or a Toggle for one of the section's codes. */
  lemma InSections(groups: seq<(string, seq<(string, string)>)>, b: string, g: int, enc: string, row: seq<Action>, a: Action)
    requires row in Flatten(Sections(groups, b, g, enc)) && a in row
    ensures a == Noop || (a.ToggleSubject? && a.board == b && a.grade == g && a.enc == enc && a.code in GroupCodes(groups))
  {
    var secs := Sections(groups, b, g, enc);
    FlattenMembers(secs, row);
    var k :| 0 <= k < |secs| && row in secs[k];
    var codes := CodesOf(groups[k].1);
    var buttons := ToggleButtons(codes, b, g, enc);
    if row != [Noop] {
      var r :| 0 <= r < |secs[k]| && secs[k][r] == row;
      assert r >= 1;
      InRows(buttons, 2, r - 1, a);
      var i :| 0 <= i < |buttons| && buttons[i] == a;
      GroupCodesMembers(groups, a.code);
      assert groups[k].1[i].0 == a.code;
    }
  }

  lemma SubjectKeyboardShape(groups: seq<(string, seq<(string, string)>)>, b: string, g: int, enc: string, a: Action)
    requires Shows(SubjectKeyboard(groups, b, g, enc), a)
    ensures SubjectButton(groups, b, g, enc, a)
  {
    var rows := SubjectKeyboard(groups, b, g, enc);
    var head := Flatten(Sections(groups, b, g, enc));
    var r :| 0 <= r < |rows| && a in rows[r];
    if r < |head| {
      assert head[r] in head;
      InSections(groups, b, g, enc, head[r], a);
    }
  }

  /** Every button the subject keyboard can hold is sendable, so its payload reads back exactly. */
  lemma SubjectButtonParses(b: string, g: int, enc: string, a: Action)
    requires '|' !in b && SubjectButton(SubjectGroups, b, g, enc, a)
    ensures Parse(Format(a)) == Act(a)
  {
    if a.ToggleSubject? {
      GroupCodesOffered();
      assert '|' !in ResetCode;
      assert '|' !in a.code;
      assert Fields(a)[0] == a.code && Fields(a)[1] == b;
    }
    ParseFormat(a);
  }

  /**
   * Pressing a button of the subject keyboard drawn for a selection of offered codes reads the
   * button back exactly; a Toggle press recovers the board, the grade and the selection, and
   * the toggled selection again holds only offered codes.
   */
  lemma SubjectPress(b: string, g: int, sel: set<string>, a: Action)
    requires '|' !in b && forall c :: c in sel ==> Offered(c)
    requires Shows(KbSubjects(b, g, sel), a)
    ensures Parse(Format(a)) == Act(a)
    ensures a.ToggleSubject? ==>
      && a.board == b && a.grade == g && DecodeSel(a.enc) == sel
      && forall c :: c in Toggle(DecodeSel(a.enc), a.code) ==> Offered(c)
  {
    var enc := EncodeSel(sel);
    SubjectKeyboardShape(SubjectGroups, b, g, enc, a);
    SubjectButtonParses(b, g, enc, a);
    if a.ToggleSubject? {
      SelRoundTrip(sel);
      ToggleOffered(sel, a.code);
    }
  }

  // ---------------------------------------------------------------------------
  // Preferences, one subject at a time
  // ---------------------------------------------------------------------------

  /**
   * `kb_prefs`: the tuition row (one-to-one, group) keeps the lessons choice, the lessons row
   * (1, 2) keeps the tuition choice, and Next carries both as they stand.
   */
  function KbPrefs(code: string, rest: string, b: string, g: int, t: string, w: string): seq<seq<Action>> {
    [ [SetPrefs(b, g, code, rest, "O", w), SetPrefs(b, g, code, rest, "G", w)]
    , [SetPrefs(b, g, code, rest, t, "1"), SetPrefs(b, g, code, rest, t, "2")]
    , [NextSubject(b, g, code, rest, t, w)] ]
  }

  /** The keyboards the bot draws, each named by what it is drawn from. */
  datatype Kb =
    | BoardKb
    | GradeKb(board: string)
    | SubjectsKb(board: string, grade: int, sel: set<string>)
    | PrefsKb(code: string, rest: string, board: string, grade: int, tOpt: string, wOpt: string)

  /** The rows of buttons of a keyboard. */
  function Draw(kb: Kb): seq<seq<Action>> {
    match kb
    case BoardKb => KbBoard()
    case GradeKb(b) => KbGrade(b)
    case SubjectsKb(b, g, sel) => KbSubjects(b, g, sel)
    case PrefsKb(code, rest, b, g, t, w) => KbPrefs(code, rest, b, g, t, w)
  }

  /** The Q handler redraws the prompt for the same subject with the choices the button carries. */
  function OnSetPrefs(a: Action): Kb
    requires a.SetPrefs?
  {
    PrefsKb(a.code, a.rest, a.board, a.grade, a.tOpt, a.wOpt)
  }

  /** Both questions are answered: tuition is one-to-one or group, and one or two lessons a week. */
  predicate BothChosen(t: string, w: string) {
    (t == "O" || t == "G") && (w == "1" || w == "2")
  }

  /** What pressing Next leads to. */
  datatype NextOutcome =
    | ChooseBothFirst            // an alert; nothing else changes
    | AskNext(codes: seq<string>)  // `start_subject_pref` on the remaining codes
    | Final                      // the matches are produced

  /** The QN handler: refuse until both are chosen, then the rest of the codes, then the final step. */
  function OnNext(t: string, w: string, rest: string): (r: NextOutcome)
    ensures r == ChooseBothFirst <==> !BothChosen(t, w)
    ensures r == Final <==> BothChosen(t, w) && rest == []
    ensures r.AskNext? ==> r.codes == SelCodes(rest)
  {
    if !BothChosen(t, w) then ChooseBothFirst
    else if rest != [] then AskNext(SelCodes(rest))
    else Final
  }

  /**
   * `start_subject_pref`: no prompt for an empty list; otherwise the prompt for the first code,
   * both choices unset, with the other codes dot-joined into its payloads.
   */
  function StartPref(b: string, g: int, codes: seq<string>): (r: Option<Kb>)
    ensures r == None <==> codes == []
  {
    if codes == [] then None
    else Some(PrefsKb(codes[0], Join(codes[1..], '.'), b, g, "?", "?"))
  }

  /**
   * Every prefs button reads back exactly; a tuition button answers the first question and keeps
   * the second, a lessons button the other way round, and Next carries the prompt's state.
   */
  lemma PrefsPress(code: string, rest: string, b: string, g: int, t: string, w: string, a: Action)
    requires '|' !in b && '|' !in code && '|' !in rest && '|' !in t
    requires Shows(KbPrefs(code, rest, b, g, t, w), a)
    ensures Parse(Format(a)) == Act(a)
    ensures a.SetPrefs? || a == NextSubject(b, g, code, rest, t, w)
    ensures a.SetPrefs? ==>
      && a.board == b && a.grade == g && a.code == code && a.rest == rest
      && ((a.tOpt in {"O", "G"} && a.wOpt == w) || (a.tOpt == t && a.wOpt in {"1", "2"}))
  {
    assert Fields(a)[0] == b && Fields(a)[2] == code && Fields(a)[3] == rest;
    IntToStringPlain(g, '|');
    ParseFormat(a);
  }

  /**
   * Whatever the starting state, answering the tuition question and then the lessons question
   * leaves a prompt for the same subject whose Next is accepted.
   */
  lemma AnswerBoth(code: string, rest: string, b: string, g: int, t: string, w: string, x: Action, y: Action)
    requires x in KbPrefs(code, rest, b, g, t, w)[0]
    requires y in Draw(OnSetPrefs(x))[1]
    ensures y.SetPrefs? && Draw(OnSetPrefs(y))[2] == [NextSubject(b, g, code, rest, y.tOpt, y.wOpt)]
    ensures OnNext(y.tOpt, y.wOpt, rest) != ChooseBothFirst
  {
  }

  /** A fresh prompt refuses Next until both questions are answered. */
  lemma FreshPromptRefuses(b: string, g: int, codes: seq<string>)
    requires codes != []
    ensures StartPref(b, g, codes).Some?
    ensures Draw(StartPref(b, g, codes).value)[2] == [NextSubject(b, g, codes[0], Join(codes[1..], '.'), "?", "?")]
    ensures OnNext("?", "?", Join(codes[1..], '.')) == ChooseBothFirst
  {
  }

  /**
   * The walk through the chosen codes: once both questions are answered for the first code,
   * Next prompts for the remaining codes, in order, or produces the final step after the last.
   */
  lemma PrefWalk(codes: seq<string>, t: string, w: string)
    requires codes != [] && forall i :: 0 <= i < |codes| ==> PlainCode(codes[i])
    requires BothChosen(t, w)
    ensures OnNext(t, w, Join(codes[1..], '.')) == if |codes| == 1 then Final else AskNext(codes[1..])
  {
    SelCodesJoin(codes[1..]);
  }

  /** The payloads of a prompt for offered codes are free of the field separator. */
  lemma PrefPayloadsPlain(codes: seq<string>)
    requires codes != [] && forall i :: 0 <= i < |codes| ==> Offered(codes[i])
    ensures '|' !in codes[0] && '|' !in Join(codes[1..], '.')
  {
    JoinAvoids(codes[1..], '.', '|');
  }
}
