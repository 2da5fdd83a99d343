/**
 * Properties of the conversation as a whole: what each button press of the guided flow does to
 * the chat's session and what it shows next, the fields a session holds together, the isolation
 * between chats, and the suppression of a repeated final step.
 */
module Conversation {
  import opened Opt
  import opened Text
  import opened StrOrder
  import opened Subjects
  import opened Selection
  import opened Catalog
  import opened Matching
  import opened BestMatches
  import opened Seqs
  import opened Callbacks
  import opened Sessions
  import opened Webhook

  // ---------------------------------------------------------------------------
  // Invariants of the state
  // ---------------------------------------------------------------------------

  /**
   * A session's fields are written together as the flow advances: a name exactly in the flow
   * stage, a grade only with a board, chosen codes only with a grade and never empty, and
   * subject names only with chosen codes.
   */
  predicate Coherent(s: Session) {
    && (s.stage == Flow <==> s.name != [])
    && (s.grade.Some? ==> s.boardCode.Some?)
    && (s.selCodes.Some? ==> s.grade.Some? && s.selCodes.value != [])
    && (s.subjects.Some? ==> s.selCodes.Some?)
  }

  /** Every session is coherent and no chat records a final signature twice. */
  predicate CoherentWorld(w: World) {
    && (forall c :: c in w.sessions ==> Coherent(w.sessions[c]))
    && (forall c :: c in w.recent ==> UniqueSigs(w.recent[c]))
  }

  /** The final step keeps the world coherent. */
  lemma FinalCoherent(w: World, chat: int, msgId: int, b: string, g: int, now: real)
    requires CoherentWorld(w)
    ensures CoherentWorld(FinalStep(w, chat, msgId, b, g, now).0)
  {
    var s := SessionOf(w.sessions, chat);
    var sig := Signature(msgId, BoardName(s, b), s.grade.GetOr(g), s.subjects.GetOr([]));
    AfterCheckKeeps(Recent(w.recent, chat), sig, now, Ttl);
  }

  /** The D handler keeps the world coherent, on its error paths too. */
  lemma DoneCoherent(w: World, chat: int, b: string, g: int, enc: string)
    requires CoherentWorld(w)
    ensures CoherentWorld(DoneStep(w, chat, b, g, enc).0)
  {
  }

  /** The B and G handlers keep the world coherent. */
  lemma BoardCoherent(w: World, chat: int, b: string)
    requires CoherentWorld(w)
    ensures CoherentWorld(BoardStep(w, chat, b).0)
  {
  }

  lemma GradeCoherent(w: World, chat: int, g: int, b: string)
    requires CoherentWorld(w)
    ensures CoherentWorld(GradeStep(w, chat, g, b).0)
  {
  }

  /** The QN handler keeps the world coherent. */
  lemma NextCoherent(w: World, chat: int, msgId: int, b: string, g: int, rest: string, t: string, wo: string, now: real)
    requires CoherentWorld(w)
    ensures CoherentWorld(NextStep(w, chat, msgId, b, g, rest, t, wo, now).0)
  {
    if OnNext(t, wo, rest) == Final {
      FinalCoherent(w, chat, msgId, b, g, now);
    }
  }

  /** Every callback keeps the world coherent. */
  lemma StepCoherent(w: World, chat: int, msgId: int, p: Parsed, now: real)
    requires CoherentWorld(w)
    ensures CoherentWorld(Step(w, chat, msgId, p, now).0)
  {
    if p.Act? {
      match p.action
      case PickBoard(b) =>
        BoardCoherent(w, chat, b);
      case PickGrade(g, b) =>
        GradeCoherent(w, chat, g, b);
      case FinishSubjects(b, g, enc) =>
        DoneCoherent(w, chat, b, g, enc);
      case NextSubject(b, g, _, rest, t, wo) =>
        NextCoherent(w, chat, msgId, b, g, rest, t, wo, now);
      case _ =>
    }
  }

  /** Every text message keeps the sessions coherent. */
  lemma MessageCoherent(sessions: map<int, Session>, chat: int, text: string)
    requires forall c :: c in sessions ==> Coherent(sessions[c])
    ensures var after := MessageStep(sessions, chat, text).0;
      forall c :: c in after ==> Coherent(after[c])
  {
  }

  /** Every chat other than `chat` has the same session and records after as before. */
  ghost predicate OthersUnchanged(w: World, after: World, chat: int) {
    && (forall c :: c != chat ==> (c in after.sessions <==> c in w.sessions))
    && (forall c :: c != chat && c in w.sessions ==> after.sessions[c] == w.sessions[c])
    && (forall c :: c != chat ==> (c in after.recent <==> c in w.recent))
    && (forall c :: c != chat && c in w.recent ==> after.recent[c] == w.recent[c])
  }

  lemma FinalIsolated(w: World, chat: int, msgId: int, b: string, g: int, now: real)
    ensures OthersUnchanged(w, FinalStep(w, chat, msgId, b, g, now).0, chat)
  {
  }

  lemma DoneIsolated(w: World, chat: int, b: string, g: int, enc: string)
    ensures OthersUnchanged(w, DoneStep(w, chat, b, g, enc).0, chat)
  {
  }

  lemma NextIsolated(w: World, chat: int, msgId: int, b: string, g: int, rest: string, t: string, wo: string, now: real)
    ensures OthersUnchanged(w, NextStep(w, chat, msgId, b, g, rest, t, wo, now).0, chat)
  {
    if OnNext(t, wo, rest) == Final {
      FinalIsolated(w, chat, msgId, b, g, now);
    }
  }

  /** A callback in one chat leaves every other chat's session and records as they were. */
  lemma StepIsolated(w: World, chat: int, msgId: int, p: Parsed, now: real)
    ensures OthersUnchanged(w, Step(w, chat, msgId, p, now).0, chat)
  {
    if p.Act? {
      match p.action
      case FinishSubjects(b, g, enc) =>
        DoneIsolated(w, chat, b, g, enc);
      case NextSubject(b, g, _, rest, t, wo) =>
        NextIsolated(w, chat, msgId, b, g, rest, t, wo, now);
      case _ =>
    }
  }

  // ---------------------------------------------------------------------------
  // The final step happens once
  // ---------------------------------------------------------------------------

  /**
   * Telegram may deliver the same Next press again: a repeat of a press that produced the
   * matches, arriving less than `Ttl` seconds later, produces nothing.
   */
  lemma RepeatedFinalQuiet(w0: World, chat: int, msgId: int, p: Parsed, t0: real, t1: real)
    requires Step(w0, chat, msgId, p, t0).1.Results?
    requires t0 <= t1 < t0 + Ttl as real
    ensures Step(Step(w0, chat, msgId, p, t0).0, chat, msgId, p, t1).1 == Quiet
  {
    var w1 := Step(w0, chat, msgId, p, t0).0;
    assert p.Act? && p.action.NextSubject?;
    var a := p.action;
    assert OnNext(a.tOpt, a.wOpt, a.rest) == Final;
    var s := SessionOf(w0.sessions, chat);
    assert SessionOf(w1.sessions, chat) == s;
    var sig := Signature(msgId, BoardName(s, a.board), s.grade.GetOr(a.grade), s.subjects.GetOr([]));
    RepeatSuppressed(Recent(w0.recent, chat), sig, t0, t1, Ttl);
  }

  /**
   * The tutors sent for a final step: at most four, no two with the same key, each among the
   * top three of one of the subjects asked for.
   */
  lemma ResultsPicks(teachers: seq<Teacher>, subjects: seq<string>, grade: int, board: string)
    ensures var picks := Collected(teachers, subjects, grade, board, 4);
      && |picks| <= 4
      && (forall i, j :: 0 <= i < j < |picks| ==>
            picks[i] < |teachers| && picks[j] < |teachers| && Key(teachers[picks[i]]) != Key(teachers[picks[j]]))
      && (forall x :: x in picks ==>
            exists m :: 0 <= m < |subjects| && x in Matches(teachers, Some(subjects[m]), grade, board, 3))
  {
    CollectedUnique(teachers, subjects, grade, board, 4);
    forall x | x in Collected(teachers, subjects, grade, board, 4)
      ensures exists m :: 0 <= m < |subjects| && x in Matches(teachers, Some(subjects[m]), grade, board, 3)
    {
      CollectedFromSubjects(teachers, subjects, grade, board, 4, x);
    }
  }

  // ---------------------------------------------------------------------------
  // The guided flow, one press at a time
  // ---------------------------------------------------------------------------

  /** `/start` then a name: the session restarts, and the name moves it to the board step. */
  lemma StartThenName(sessions: map<int, Session>, chat: int, cmd: string, name: string)
    requires IsStart(Strip(cmd))
    requires Strip(name) != [] && !IsStart(Strip(name))
    ensures var started := MessageStep(sessions, chat, cmd);
      && started.1 == AskForName
      && MessageStep(started.0, chat, name)
         == (started.0[chat := Session(Flow, Strip(name), None, None, None, None)], Keyboard(BoardKb))
  {
  }

  /** A board button stores one of the three boards and shows the grades for it. */
  lemma BoardPress(w: World, chat: int, msgId: int, now: real, a: Action)
    requires Shows(KbBoard(), a)
    ensures a.PickBoard? && a.board in BoardCodes
    ensures Step(w, chat, msgId, Parse(Format(a)), now)
      == (w.(sessions := w.sessions[chat := SessionOf(w.sessions, chat).(boardCode := Some(a.board))]),
          Keyboard(GradeKb(a.board)))
  {
    ParseFormat(a);
  }

  /** A grade button stores the board and a grade from 7 to 12, and shows the empty selection. */
  lemma GradePress(w: World, chat: int, msgId: int, now: real, b: string, a: Action)
    requires Shows(KbGrade(b), a) && a.PickGrade?
    ensures 7 <= a.grade <= 12 && a.board == b
    ensures Step(w, chat, msgId, Parse(Format(a)), now)
      == (w.(sessions := w.sessions[chat := SessionOf(w.sessions, chat).(boardCode := Some(b), grade := Some(a.grade))]),
          Keyboard(SubjectsKb(b, a.grade, {})))
  {
    KbGradeButtons(b, a);
  }

  /**
   * A subject button of the keyboard for `sel` changes nothing stored and shows the keyboard for
   * the toggled selection, which again holds only offered codes.
   */
  lemma TogglePress(w: World, chat: int, msgId: int, now: real,
                    b: string, g: int, sel: set<string>, a: Action)
    requires '|' !in b && forall c :: c in sel ==> Offered(c)
    requires Shows(KbSubjects(b, g, sel), a) && a.ToggleSubject?
    ensures Step(w, chat, msgId, Parse(Format(a)), now) == (w, Keyboard(SubjectsKb(b, g, Toggle(sel, a.code))))
    ensures forall c :: c in Toggle(sel, a.code) ==> Offered(c)
  {
    SubjectPress(b, g, sel, a);
    assert Labelled(Toggle(sel, a.code));
  }

  /**
   * A toggle payload whose selection ends up holding a code without a label shows nothing and
   * changes nothing: building the message text raises.
   */
  lemma UnlabelledToggleQuiet(w: World, chat: int, msgId: int, now: real,
                              code: string, b: string, g: int, enc: string)
    requires '|' !in code && '|' !in b
    requires !Labelled(Toggle(DecodeSel(enc), code))
    ensures Step(w, chat, msgId, Parse(Format(ToggleSubject(code, b, g, enc))), now) == (w, Quiet)
  {
    ParseFormatToggle(code, b, g, enc);
  }

  /** `T|ZZ|C|9|` adds the unknown code `ZZ` to an empty selection, so nothing is shown. */
  lemma UnknownToggleQuiet(w: World, chat: int, msgId: int, now: real)
    ensures Step(w, chat, msgId, Parse(Format(ToggleSubject("ZZ", "C", 9, ""))), now) == (w, Quiet)
  {
    var sel := Toggle(DecodeSel(""), "ZZ");
    assert "ZZ" in sel;
    assert "ZZ" !in CodeToSubject;
    UnlabelledToggleQuiet(w, chat, msgId, now, "ZZ", "C", 9, "");
  }

  /** The subject keyboard for `sel` holds a Done button carrying `sel`. */
  lemma DoneShown(b: string, g: int, sel: set<string>)
    ensures Shows(KbSubjects(b, g, sel), FinishSubjects(b, g, EncodeSel(sel)))
  {
    var enc := EncodeSel(sel);
    var rows := KbSubjects(b, g, sel);
    var n := |Flatten(Sections(SubjectGroups, b, g, enc))|;
    assert rows[n] == [FinishSubjects(b, g, enc), ToggleSubject(ResetCode, b, g, enc)];
  }

  /**
   * The D handler on a payload whose codes are all known: board, grade, the codes and their
   * subject names are stored, and the first code is prompted for with both choices unset.
   */
  lemma DoneOfCodes(w: World, chat: int, b: string, g: int, enc: string)
    requires SelCodes(enc) != [] && forall i :: 0 <= i < |SelCodes(enc)| ==> SelCodes(enc)[i] in CodeToSubject
    ensures var codes := SelCodes(enc);
      var r := DoneStep(w, chat, b, g, enc);
      && r.1 == Keyboard(PrefsKb(codes[0], Join(codes[1..], '.'), b, g, "?", "?"))
      && r.0.recent == w.recent
      && chat in r.0.sessions
      && r.0.sessions[chat].boardCode == Some(b)
      && r.0.sessions[chat].grade == Some(g)
      && r.0.sessions[chat].selCodes == Some(codes)
      && r.0.sessions[chat].subjects == SubjectsOf(codes)
      && r.0.sessions[chat].subjects.Some?
  {
  }

  /**
   * The D handler on the encoding of a selection of offered codes: nothing selected only raises
   * the alert; otherwise the codes are stored in ascending order, with their subject names, and
   * the first of them is prompted for.
   */
  lemma DoneOfSelection(w: World, chat: int, b: string, g: int, sel: set<string>)
    requires forall c :: c in sel ==> Offered(c)
    ensures var r := DoneStep(w, chat, b, g, EncodeSel(sel));
      if sel == {} then r == (w, NeedSubject)
      else
        var codes := SortedList(sel);
        && r.1 == Keyboard(PrefsKb(codes[0], Join(codes[1..], '.'), b, g, "?", "?"))
        && r.0.recent == w.recent
        && chat in r.0.sessions
        && r.0.sessions[chat].boardCode == Some(b)
        && r.0.sessions[chat].grade == Some(g)
        && r.0.sessions[chat].selCodes == Some(codes)
        && r.0.sessions[chat].subjects == SubjectsOf(codes)
        && r.0.sessions[chat].subjects.Some?
  {
    var enc := EncodeSel(sel);
    SelCodesOfEncoding(sel);
    if sel != {} {
      var codes := SortedList(sel);
      assert forall i :: 0 <= i < |codes| ==> codes[i] in CodeToSubject by {
        assert forall i :: 0 <= i < |codes| ==> codes[i] in sel;
      }
      DoneOfCodes(w, chat, b, g, enc);
    }
  }

  /** Pressing the Done button of the subject keyboard is the D handler on the drawn selection. */
  lemma DonePress(w: World, chat: int, msgId: int, now: real, b: string, g: int, sel: set<string>)
    requires '|' !in b
    ensures Step(w, chat, msgId, Parse(Format(FinishSubjects(b, g, EncodeSel(sel)))), now)
      == DoneStep(w, chat, b, g, EncodeSel(sel))
  {
    ParseFormatDone(b, g, EncodeSel(sel));
    DoneAct(w, chat, msgId, now, b, g, EncodeSel(sel));
  }

  lemma DoneAct(w: World, chat: int, msgId: int, now: real, b: string, g: int, e: string)
    ensures Step(w, chat, msgId, Act(FinishSubjects(b, g, e)), now) == DoneStep(w, chat, b, g, e)
  {
  }

  /**
   * Once both questions are answered, Next on a prompt for offered codes prompts for the next
   * code, with both choices unset, or takes the final step after the last code.
   */
  lemma NextPress(w: World, chat: int, msgId: int, now: real,
                  b: string, g: int, codes: seq<string>, t: string, wo: string)
    requires '|' !in b && '|' !in t && BothChosen(t, wo)
    requires codes != [] && forall i :: 0 <= i < |codes| ==> Offered(codes[i])
    ensures var a := NextSubject(b, g, codes[0], Join(codes[1..], '.'), t, wo);
      Step(w, chat, msgId, Parse(Format(a)), now)
        == if |codes| == 1 then FinalStep(w, chat, msgId, b, g, now)
           else (w, Keyboard(PrefsKb(codes[1], Join(codes[2..], '.'), b, g, "?", "?")))
  {
    var a := NextSubject(b, g, codes[0], Join(codes[1..], '.'), t, wo);
    PrefPayloadsPlain(codes);
    assert Fields(a)[0] == b && Fields(a)[2] == codes[0] && Fields(a)[3] == Join(codes[1..], '.');
    IntToStringPlain(g, '|');
    ParseFormat(a);
    PrefWalk(codes, t, wo);
    if |codes| > 1 {
      assert codes[1..][1..] == codes[2..];
    }
  }
}
