/**
 * The webhook handler: one update at a time, a callback press or a text message, against the
 * bot's state. `Step` and `MessageStep` say what a press or a message does to the sessions and
 * the idempotency records and what the bot shows back; the `Bot` class performs them in place.
 */
module Webhook {
  import opened Opt
  import opened Text
  import opened Subjects
  import opened Selection
  import opened Catalog
  import opened BestMatches
  import opened Callbacks
  import opened Sessions

  /** What the bot shows back for an update; message texts themselves are not modelled. */
  datatype Reply =
    | Quiet                                // nothing beyond answering the callback
    | AskForName                           // the welcome message asking for the parent's name
    | NeedSubject                          // the alert "Please select at least one subject."
    | NeedBoth                             // the alert "Choose both options first."
    | Keyboard(kb: Kb)                     // a message edited or sent with this keyboard
    | Results(board: string, grade: int, subjects: seq<string>)
                                           // the overview and one message per tutor picked
                                           // for this board, grade and subjects

  /** `SESSIONS` and `RECENT_DONE`. */
  datatype World = World(sessions: map<int, Session>, recent: map<int, seq<Stamp>>)

  /** The subject label of every selected code, in order, or `None` when some code has no label (the `KeyError`). */
  function SubjectsOf(codes: seq<string>): (r: Option<seq<string>>)
    ensures r.Some? <==> forall i :: 0 <= i < |codes| ==> codes[i] in CodeToSubject
    ensures r.Some? ==> |r.value| == |codes|
  {
    if forall i :: 0 <= i < |codes| ==> codes[i] in CodeToSubject then
      Some(seq(|codes|, i requires 0 <= i < |codes| && codes[i] in CodeToSubject => SubjectOfCode(codes[i])))
    else None
  }

  /** The board's name from the stored board code (or `b` when none is stored); an unknown code falls back to `b` itself. */
  function BoardName(s: Session, b: string): string {
    var key := s.boardCode.GetOr(b);
    if key in BoardCodes then BoardCodes[key] else b
  }

  /** The final step's signature: `FINAL|msg_id|board|grade|subjects dot-joined`. */
  function Signature(msgId: int, board: string, grade: int, subjects: seq<string>): string {
    Join(["FINAL", IntToString(msgId), board, IntToString(grade), Join(subjects, '.')], '|')
  }

  /** The D handler: nothing without codes; else board, grade and codes are stored, then subjects. */
  function DoneStep(w: World, chat: int, b: string, g: int, enc: string): (World, Reply) {
    var codes := SelCodes(enc);
    if codes == [] then (w, NeedSubject)
    else
      var s := SessionOf(w.sessions, chat).(boardCode := Some(b), grade := Some(g), selCodes := Some(codes));
      match SubjectsOf(codes)
      case None => (w.(sessions := w.sessions[chat := s]), Quiet)
      case Some(subjects) =>
        (w.(sessions := w.sessions[chat := s.(subjects := Some(subjects))]), Keyboard(StartPref(b, g, codes).value))
  }

  /**
   * The final step of the QN handler: the board, grade and subjects come from the session where
   * stored; a signature already recorded within `Ttl` seconds produces nothing, any other
   * produces the results for them.
   */
  function FinalStep(w: World, chat: int, msgId: int, b: string, g: int, now: real): (World, Reply) {
    var s := SessionOf(w.sessions, chat);
    var board := BoardName(s, b);
    var grade := s.grade.GetOr(g);
    var subjects := s.subjects.GetOr([]);
    var check := AfterCheck(Recent(w.recent, chat), Signature(msgId, board, grade, subjects), now, Ttl);
    var after := World(Touch(w.sessions, chat), w.recent[chat := check.0]);
    if check.1 then (after, Quiet)
    else (after, Results(board, grade, subjects))
  }

  /** The B handler: the board is stored and the grade keyboard shown. */
  function BoardStep(w: World, chat: int, b: string): (World, Reply) {
    var s := SessionOf(w.sessions, chat);
    (w.(sessions := w.sessions[chat := s.(boardCode := Some(b))]), Keyboard(GradeKb(b)))
  }

  /** The G handler: board and grade are stored and the subject keyboard shown with nothing selected. */
  function GradeStep(w: World, chat: int, g: int, b: string): (World, Reply) {
    var s := SessionOf(w.sessions, chat);
    (w.(sessions := w.sessions[chat := s.(boardCode := Some(b), grade := Some(g))]), Keyboard(SubjectsKb(b, g, {})))
  }

  /** The QN handler: refuse, prompt for the remaining codes, or take the final step. */
  function NextStep(w: World, chat: int, msgId: int, b: string, g: int, rest: string, t: string, wo: string, now: real): (World, Reply) {
    match OnNext(t, wo, rest)
    case ChooseBothFirst => (w, NeedBoth)
    case AskNext(codes) =>
      (w, match StartPref(b, g, codes) case None => Quiet case Some(kb) => Keyboard(kb))
    case Final => FinalStep(w, chat, msgId, b, g, now)
  }

  /**
   * Whether every selected code has a subject label. The T handler's message text lists the
   * label of each selected code, and a code without one raises `KeyError` there.
   */
  predicate Labelled(sel: set<string>) {
    forall c :: c in sel ==> c in CodeToSubject
  }

  /**
   * The T handler: nothing stored changes; the toggled selection is shown, unless one of its codes
   * has no label, in which case building the message raises and the catch-all answers quietly.
   */
  function ToggleStep(w: World, b: string, g: int, code: string, enc: string): (r: (World, Reply))
    ensures r.0 == w
    ensures r.1.Keyboard? <==> Labelled(Toggle(DecodeSel(enc), code))
    ensures r.1.Keyboard? ==> r.1 == Keyboard(SubjectsKb(b, g, Toggle(DecodeSel(enc), code)))
    ensures !r.1.Keyboard? ==> r.1 == Quiet
  {
    var sel := Toggle(DecodeSel(enc), code);
    if Labelled(sel) then (w, Keyboard(SubjectsKb(b, g, sel))) else (w, Quiet)
  }

  /** What the handler does with a recognised action. */
  function ActStep(w: World, chat: int, msgId: int, a: Action, now: real): (World, Reply) {
    match a
    case Noop => (w, Quiet)
    case PickBoard(b) => BoardStep(w, chat, b)
    case PickGrade(g, b) => GradeStep(w, chat, g, b)
    case ToggleSubject(code, b, g, enc) => ToggleStep(w, b, g, code, enc)
    case FinishSubjects(b, g, enc) => DoneStep(w, chat, b, g, enc)
    case SetPrefs(_, _, _, _, _, _) => (w, Keyboard(OnSetPrefs(a)))
    case NextSubject(b, g, _, rest, t, wo) => NextStep(w, chat, msgId, b, g, rest, t, wo, now)
  }

  /**
   * The callback branch of `_handle_webhook` for a parsed payload: an unrecognised payload, or
   * one whose parsing raises (caught by the handler), changes nothing.
   */
  function Step(w: World, chat: int, msgId: int, p: Parsed, now: real): (World, Reply) {
    match p
    case Unhandled => (w, Quiet)
    case Raises => (w, Quiet)
    case Act(a) => ActStep(w, chat, msgId, a, now)
  }

  /** Whether the text is the start command, `/start` or `start`, in any letter case. */
  predicate IsStart(t: string) {
    Lower(t) == "/start" || Lower(t) == "start"
  }

  /** The message branch: `/start` resets, a name moves on to the board step, anything else points there. */
  function MessageStep(sessions: map<int, Session>, chat: int, text: string): (map<int, Session>, Reply) {
    var t := Strip(text);
    var s := SessionOf(sessions, chat);
    if IsStart(t) then (sessions[chat := Started], AskForName)
    else if s.stage == AskName && t != [] then (sessions[chat := s.(stage := Flow, name := t)], Keyboard(BoardKb))
    else (Touch(sessions, chat), Keyboard(BoardKb))
  }

  // ---------------------------------------------------------------------------
  // The bot
  // ---------------------------------------------------------------------------

  class Bot {
    var sessions: map<int, Session>
    var recent: map<int, seq<Stamp>>
    /** `TEACHERS`, after preprocessing. */
    const teachers: seq<Teacher>

    /** The bot starts with no sessions and no records, over a catalogue the load-time pass has preprocessed. */
    constructor (teachers: seq<Teacher>)
      requires forall i :: 0 <= i < |teachers| ==> teachers[i].canon == CanonSet(teachers[i].subjects)
      ensures sessions == map[] && recent == map[] && this.teachers == teachers
    {
      this.teachers := teachers;
      sessions := map[];
      recent := map[];
    }

    function State(): World
      reads this
    {
      World(sessions, recent)
    }

    /** `session(chat_id)`: creates the chat's session on first use. */
    method SessionFor(chat: int) returns (s: Session)
      modifies this
      ensures sessions == Touch(old(sessions), chat) && recent == old(recent)
      ensures s == SessionOf(old(sessions), chat)
    {
      if chat !in sessions {
        sessions := sessions[chat := Fresh];
      }
      s := sessions[chat];
    }

    /**
     * `already_done`: prune the chat's records to the young ones, answer whether the signature
     * is among them, and record it when it is not.
     */
    method AlreadyDone(chat: int, sig: string, ttl: int, now: real) returns (done: bool)
      modifies this
      ensures sessions == old(sessions)
      ensures done == AfterCheck(Recent(old(recent), chat), sig, now, ttl).1
      ensures recent == old(recent)[chat := AfterCheck(Recent(old(recent), chat), sig, now, ttl).0]
    {
      var all := if chat in recent then recent[chat] else [];
      var lst: seq<Stamp> := [];
      var i := 0;
      while i < |all|
        invariant 0 <= i <= |all|
        invariant lst == Young(all[..i], now, ttl)
      {
        assert all[..i + 1][..i] == all[..i];
        if now - all[i].1 < ttl as real {
          lst := lst + [all[i]];
        }
        i := i + 1;
      }
      assert all[..|all|] == all;
      recent := recent[chat := lst];
      var j := 0;
      while j < |lst|
        invariant 0 <= j <= |lst|
        invariant forall m :: 0 <= m < j ==> lst[m].0 != sig
      {
        if lst[j].0 == sig {
          return true;
        }
        j := j + 1;
      }
      lst := lst + [(sig, now)];
      recent := recent[chat := lst];
      return false;
    }

    /** The final step of the QN handler. */
    method Final(chat: int, msgId: int, b: string, g: int, now: real) returns (reply: Reply)
      modifies this
      ensures (State(), reply) == FinalStep(old(State()), chat, msgId, b, g, now)
    {
      var s := SessionFor(chat);
      var key := s.boardCode.GetOr(b);
      var board := if key in BoardCodes then BoardCodes[key] else b;
      var grade := s.grade.GetOr(g);
      var subjects := s.subjects.GetOr([]);
      var sig := Join(["FINAL", IntToString(msgId), board, IntToString(grade), Join(subjects, '.')], '|');
      var done := AlreadyDone(chat, sig, Ttl, now);
      if done {
        return Quiet;
      }
      return Results(board, grade, subjects);
    }

    /** The B handler. */
    method Board(chat: int, b: string) returns (reply: Reply)
      modifies this
      ensures (State(), reply) == BoardStep(old(State()), chat, b)
    {
      var s := SessionFor(chat);
      sessions := sessions[chat := s.(boardCode := Some(b))];
      assert sessions == old(sessions)[chat := s.(boardCode := Some(b))];
      reply := Keyboard(GradeKb(b));
    }

    /** The G handler. */
    method Grade(chat: int, g: int, b: string) returns (reply: Reply)
      modifies this
      ensures (State(), reply) == GradeStep(old(State()), chat, g, b)
    {
      var s := SessionFor(chat);
      sessions := sessions[chat := s.(boardCode := Some(b), grade := Some(g))];
      assert sessions == old(sessions)[chat := s.(boardCode := Some(b), grade := Some(g))];
      reply := Keyboard(SubjectsKb(b, g, {}));
    }

    /** The D handler. */
    method Done(chat: int, b: string, g: int, enc: string) returns (reply: Reply)
      modifies this
      ensures (State(), reply) == DoneStep(old(State()), chat, b, g, enc)
    {
      var codes := SelCodes(enc);
      if codes == [] {
        return NeedSubject;
      }
      var s := SessionFor(chat);
      s := s.(boardCode := Some(b), grade := Some(g), selCodes := Some(codes));
      sessions := sessions[chat := s];
      assert sessions == old(sessions)[chat := s];
      var subjects := SubjectsOf(codes);
      if subjects.None? {
        return Quiet;
      }
      sessions := sessions[chat := s.(subjects := subjects)];
      assert sessions == old(sessions)[chat := s.(subjects := subjects)];
      reply := Keyboard(StartPref(b, g, codes).value);
    }

    /** The QN handler. */
    method Next(chat: int, msgId: int, b: string, g: int, rest: string, t: string, wo: string, now: real) returns (reply: Reply)
      modifies this
      ensures (State(), reply) == NextStep(old(State()), chat, msgId, b, g, rest, t, wo, now)
    {
      var next := OnNext(t, wo, rest);
      match next
      case ChooseBothFirst =>
        reply := NeedBoth;
      case AskNext(codes) =>
        var rows := StartPref(b, g, codes);
        reply := if rows.Some? then Keyboard(rows.value) else Quiet;
      case Final =>
        reply := Final(chat, msgId, b, g, now);
    }

    /** The handler for a recognised action. */
    method Perform(chat: int, msgId: int, a: Action, now: real) returns (reply: Reply)
      modifies this
      ensures (State(), reply) == ActStep(old(State()), chat, msgId, a, now)
    {
      match a
      case Noop =>
        reply := Quiet;
      case PickBoard(b) =>
        reply := Board(chat, b);
      case PickGrade(g, b) =>
        reply := Grade(chat, g, b);
      case ToggleSubject(code, b, g, enc) =>
        var sel := Toggle(DecodeSel(enc), code);
        if Labelled(sel) {
          reply := Keyboard(SubjectsKb(b, g, sel));
        } else {
          reply := Quiet;
        }
      case FinishSubjects(b, g, enc) =>
        reply := Done(chat, b, g, enc);
      case SetPrefs(_, _, _, _, _, _) =>
        reply := Keyboard(OnSetPrefs(a));
      case NextSubject(b, g, _, rest, t, wo) =>
        reply := Next(chat, msgId, b, g, rest, t, wo, now);
    }

    /** The callback branch of `_handle_webhook` once the payload is parsed. */
    method Dispatch(chat: int, msgId: int, p: Parsed, now: real) returns (reply: Reply)
      modifies this
      ensures (State(), reply) == Step(old(State()), chat, msgId, p, now)
    {
      if p.Act? {
        reply := Perform(chat, msgId, p.action, now);
      } else {
        reply := Quiet;
      }
    }

    /**
     * The callback branch of `_handle_webhook`: parse the payload and act on it; when the final
     * step produces results, the tutors are `collect_best_matches(subjects, grade, board, k=4)`.
     */
    method OnCallback(chat: int, msgId: int, data: string, now: real) returns (reply: Reply, picks: seq<nat>)
      modifies this
      ensures (State(), reply) == Step(old(State()), chat, msgId, Parse(data), now)
      ensures reply.Results? ==> picks == Collected(teachers, reply.subjects, reply.grade, reply.board, 4)
      ensures !reply.Results? ==> picks == []
    {
      var p := Parse(data);
      reply := Dispatch(chat, msgId, p, now);
      picks := [];
      if reply.Results? {
        picks := CollectBestMatches(teachers, reply.subjects, reply.grade, reply.board, 4);
      }
    }

    /** The message branch of `_handle_webhook`. */
    method OnMessage(chat: int, text: string) returns (reply: Reply)
      modifies this
      ensures (sessions, reply) == MessageStep(old(sessions), chat, text)
      ensures recent == old(recent)
    {
      var t := Strip(text);
      var s := SessionFor(chat);
      if IsStart(t) {
        TouchThenSet(old(sessions), chat, Started);
        sessions := sessions[chat := Started];
        return AskForName;
      }
      if s.stage == AskName && t != [] {
        TouchThenSet(old(sessions), chat, s.(stage := Flow, name := t));
        sessions := sessions[chat := s.(stage := Flow, name := t)];
      }
      return Keyboard(BoardKb);
    }
  }
}
