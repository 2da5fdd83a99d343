/**
 * The bot's in-memory state: one session per chat (`SESSIONS`) and, per chat, the recently
 * produced final signatures with their timestamps (`RECENT_DONE`), which `already_done` prunes
 * and consults so that a repeated Next within the time-to-live produces nothing.
 */
module Sessions {
  import opened Opt

  /** The conversation stage; the source stores the strings "idle", "ask_name" and "flow". */
  datatype Stage = Idle | AskName | Flow

  /**
   * One chat's session. The source keeps a dictionary whose keys other than `stage` and `name`
   * appear only once written; a missing key is `None` here.
   */
  datatype Session = Session(
    stage: Stage,
    name: string,
    boardCode: Option<string>,
    grade: Option<int>,
    selCodes: Option<seq<string>>,
    subjects: Option<seq<string>>)

  /** What `session(chat_id)` stores for a chat it has not seen. */
  const Fresh: Session := Session(Idle, "", None, None, None, None)

  /** What `/start` stores, replacing the whole session. */
  const Started: Session := Session(AskName, "", None, None, None, None)

  /** `session(chat_id)`: the chat's session, or a fresh one when it has none. */
  function SessionOf(sessions: map<int, Session>, chat: int): (s: Session)
    ensures chat in sessions ==> s == sessions[chat]
    ensures chat !in sessions ==> s == Fresh
  {
    if chat in sessions then sessions[chat] else Fresh
  }

  /** The session map after `session(chat_id)`: a fresh entry is added if there was none. */
  function Touch(sessions: map<int, Session>, chat: int): (r: map<int, Session>)
    ensures chat in r && r[chat] == SessionOf(sessions, chat)
    ensures forall c :: c != chat ==> (c in r <==> c in sessions)
    ensures forall c :: c in sessions ==> c in r && r[c] == sessions[c]
  {
    sessions[chat := SessionOf(sessions, chat)]
  }

  /** Overwriting the chat's entry after `session(chat)` is the same as overwriting it directly. */
  lemma TouchThenSet(sessions: map<int, Session>, chat: int, v: Session)
    ensures Touch(sessions, chat)[chat := v] == sessions[chat := v]
  {
    assert Touch(sessions, chat)[chat := v].Keys == sessions[chat := v].Keys;
  }

  // ---------------------------------------------------------------------------
  // Idempotency of the final step
  // ---------------------------------------------------------------------------

  /** An entry of `RECENT_DONE`: a signature and the time it was recorded, in seconds. */
  type Stamp = (string, real)

  /** How long, in seconds, a final signature suppresses a repeat: `already_done`'s default `ttl`. */
  const Ttl: int := 300

  /** The chat's recorded final signatures, or none when the chat has no entry (`RECENT_DONE.get(chat_id, [])`). */
  function Recent(recent: map<int, seq<Stamp>>, chat: int): seq<Stamp> {
    if chat in recent then recent[chat] else []
  }

  /** Whether an entry is still young at `now`: `now - t < ttl`. */
  predicate IsYoung(x: Stamp, now: real, ttl: int) {
    now - x.1 < ttl as real
  }

  /** The pruning comprehension of `already_done`: the young entries, in their order. */
  function Young(lst: seq<Stamp>, now: real, ttl: int): (r: seq<Stamp>)
    ensures |r| <= |lst|
    ensures forall i :: 0 <= i < |r| ==> IsYoung(r[i], now, ttl)
  {
    if lst == [] then []
    else
      var last := lst[|lst| - 1];
      Young(lst[..|lst| - 1], now, ttl) + (if IsYoung(last, now, ttl) then [last] else [])
  }

  /** Whether some entry carries the signature. */
  predicate Holds(lst: seq<Stamp>, sig: string) {
    exists i :: 0 <= i < |lst| && lst[i].0 == sig
  }

  /** No signature is recorded twice. */
  predicate UniqueSigs(lst: seq<Stamp>) {
    forall i, j :: 0 <= i < j < |lst| ==> lst[i].0 != lst[j].0
  }

  /** The list `already_done` leaves behind, and its answer. */
  function AfterCheck(lst: seq<Stamp>, sig: string, now: real, ttl: int): (r: (seq<Stamp>, bool))
    ensures r.1 == Holds(Young(lst, now, ttl), sig)
  {
    var young := Young(lst, now, ttl);
    if Holds(young, sig) then (young, true) else (young + [(sig, now)], false)
  }

  /** Pruning keeps exactly the entries that are still young. */
  lemma {:induction false} YoungMembers(lst: seq<Stamp>, now: real, ttl: int, x: Stamp)
    ensures x in Young(lst, now, ttl) <==> x in lst && IsYoung(x, now, ttl)
    decreases |lst|
  {
    if lst != [] {
      var init := lst[..|lst| - 1];
      YoungMembers(init, now, ttl, x);
      assert lst == init + [lst[|lst| - 1]];
    }
  }

  /** Pruning keeps signatures unique. */
  lemma {:induction false} YoungUnique(lst: seq<Stamp>, now: real, ttl: int)
    requires UniqueSigs(lst)
    ensures UniqueSigs(Young(lst, now, ttl))
    decreases |lst|
  {
    if lst != [] {
      var init := lst[..|lst| - 1];
      var last := lst[|lst| - 1];
      var y := Young(init, now, ttl);
      YoungUnique(init, now, ttl);
      if IsYoung(last, now, ttl) {
        forall i | 0 <= i < |y|
          ensures y[i].0 != last.0
        {
          YoungMembers(init, now, ttl, y[i]);
          var j :| 0 <= j < |init| && init[j] == y[i];
        }
      }
    }
  }

  /** The answer is true exactly when the signature was recorded less than `ttl` seconds ago. */
  lemma HoldsWhileYoung(lst: seq<Stamp>, sig: string, now: real, ttl: int)
    ensures Holds(Young(lst, now, ttl), sig)
      <==> exists i :: 0 <= i < |lst| && lst[i].0 == sig && IsYoung(lst[i], now, ttl)
  {
    var y := Young(lst, now, ttl);
    if Holds(y, sig) {
      var i :| 0 <= i < |y| && y[i].0 == sig;
      YoungMembers(lst, now, ttl, y[i]);
    }
    if exists i :: 0 <= i < |lst| && lst[i].0 == sig && IsYoung(lst[i], now, ttl) {
      var i :| 0 <= i < |lst| && lst[i].0 == sig && IsYoung(lst[i], now, ttl);
      YoungMembers(lst, now, ttl, lst[i]);
      var j :| 0 <= j < |y| && y[j] == lst[i];
    }
  }

  /** The list left behind keeps signatures unique and holds only entries young at `now`. */
  lemma AfterCheckKeeps(lst: seq<Stamp>, sig: string, now: real, ttl: int)
    requires UniqueSigs(lst) && ttl > 0
    ensures UniqueSigs(AfterCheck(lst, sig, now, ttl).0)
    ensures forall i :: 0 <= i < |AfterCheck(lst, sig, now, ttl).0| ==> IsYoung(AfterCheck(lst, sig, now, ttl).0[i], now, ttl)
    ensures Holds(AfterCheck(lst, sig, now, ttl).0, sig)
  {
    var young := Young(lst, now, ttl);
    YoungUnique(lst, now, ttl);
    if !Holds(young, sig) {
      var r := young + [(sig, now)];
      assert r[|young|].0 == sig;
    }
  }

  /**
   * A signature recorded at `t0` suppresses the same signature at any `t1` from `t0` until `ttl`
   * seconds later: the second check answers true.
   */
  lemma RepeatSuppressed(lst: seq<Stamp>, sig: string, t0: real, t1: real, ttl: int)
    requires t0 <= t1 < t0 + ttl as real
    requires !AfterCheck(lst, sig, t0, ttl).1
    ensures AfterCheck(AfterCheck(lst, sig, t0, ttl).0, sig, t1, ttl).1
  {
    var first := AfterCheck(lst, sig, t0, ttl).0;
    var k := |first| - 1;
    assert first[k] == (sig, t0);
    HoldsWhileYoung(first, sig, t1, ttl);
  }

  /** Once every record of a signature is `ttl` seconds old, the signature is accepted again. */
  lemma ExpiredAccepted(lst: seq<Stamp>, sig: string, now: real, ttl: int)
    requires forall i :: 0 <= i < |lst| && lst[i].0 == sig ==> !IsYoung(lst[i], now, ttl)
    ensures !AfterCheck(lst, sig, now, ttl).1
  {
    HoldsWhileYoung(lst, sig, now, ttl);
  }
}
