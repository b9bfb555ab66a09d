/**
 * Conversation memory for the AI chat: per user, the recent history of
 * user/assistant turns (at most ten exchanges, i.e. twenty entries) and the
 * time of the last interaction. A periodic sweep forgets sessions idle for
 * more than thirty minutes; "regenerate" drops the last exchange and "end"
 * forgets the session. Clock values are milliseconds passed in as `now`.
 */
module Memory {
  import opened Common

  /** Exchanges kept per user (`maxHistory`). */
  const MaxHistory: nat := 10
  /** Entries kept per user: one user and one assistant entry per exchange. */
  const HistoryLimit: nat := MaxHistory * 2
  /** Idle time after which the sweep forgets a session (`expirationTime`). */
  const ExpirationTime: nat := 30 * 60 * 1000

  datatype Role = User | Assistant
  datatype Entry = Entry(role: Role, content: string)
  datatype Session = Session(history: seq<Entry>, lastInteraction: int)

  /** The role the entry at index `i` has in a history of whole exchanges. */
  function RoleAt(i: nat): Role { if i % 2 == 0 then User else Assistant }

  /** A history of whole exchanges: user first, roles alternating, within the limit. */
  predicate WellFormed(h: seq<Entry>)
  {
    |h| % 2 == 0 && |h| <= HistoryLimit && forall i :: 0 <= i < |h| ==> h[i].role == RoleAt(i)
  }

  /** The exchange `updateUserSession` pushes. */
  function Exchange(question: string, answer: string): seq<Entry>
  {
    [Entry(User, question), Entry(Assistant, answer)]
  }

  /**
   * The history after pushing one exchange and keeping the last twenty entries
   * (`history.slice(-20)` when it grew beyond twenty).
   */
  function Appended(h: seq<Entry>, question: string, answer: string): (r: seq<Entry>)
    ensures |r| == Min(|h| + 2, HistoryLimit)
    ensures r == (h + Exchange(question, answer))[|h| + 2 - |r|..]
  {
    var full := h + Exchange(question, answer);
    if |full| > HistoryLimit then full[|full| - HistoryLimit..] else full
  }

  /** The newest two entries are always the exchange just stored. */
  lemma AppendedEndsWithExchange(h: seq<Entry>, question: string, answer: string)
    ensures var r := Appended(h, question, answer);
            r[|r| - 2..] == Exchange(question, answer)
  {
    var full := h + Exchange(question, answer);
    var r := Appended(h, question, answer);
    assert r[|r| - 2..] == full[|full| - 2..];
  }

  /** Storing an exchange keeps a history of whole, alternating exchanges within the limit. */
  lemma AppendedWellFormed(h: seq<Entry>, question: string, answer: string)
    requires WellFormed(h)
    ensures WellFormed(Appended(h, question, answer))
  {
    var full := h + Exchange(question, answer);
    var r := Appended(h, question, answer);
    ExchangeAlternates(h, question, answer);
    var k := |full| - |r|;
    assert k == 0 || k == 2;
    SuffixAlternates(full, k);
    assert r == full[k..];
  }

  /** A history of whole exchanges followed by one more exchange still alternates, user first. */
  lemma ExchangeAlternates(h: seq<Entry>, question: string, answer: string)
    requires WellFormed(h)
    ensures var full := h + Exchange(question, answer);
            |full| % 2 == 0 && forall i :: 0 <= i < |full| ==> full[i].role == RoleAt(i)
  {
    var full := h + Exchange(question, answer);
    forall i | 0 <= i < |full| ensures full[i].role == RoleAt(i) {
      if i < |h| {
        assert full[i] == h[i];
      } else if i == |h| {
        assert full[i].role == User && RoleAt(i) == User;
      } else {
        assert i == |h| + 1 && full[i].role == Assistant && RoleAt(i) == Assistant;
      }
    }
  }

  /** Dropping an even number of entries from the front keeps the roles alternating. */
  lemma SuffixAlternates(full: seq<Entry>, k: nat)
    requires k <= |full| && k % 2 == 0
    requires forall i :: 0 <= i < |full| ==> full[i].role == RoleAt(i)
    ensures forall i :: 0 <= i < |full| - k ==> full[k..][i].role == RoleAt(i)
  {
    forall i | 0 <= i < |full| - k ensures full[k..][i].role == RoleAt(i) {
      assert full[k..][i] == full[k + i];
    }
  }

  /** Once the history is full, a new exchange pushes out exactly the oldest one. */
  lemma FullHistoryDropsOldest(h: seq<Entry>, question: string, answer: string)
    requires |h| == HistoryLimit
    ensures Appended(h, question, answer) == h[2..] + Exchange(question, answer)
  {
  }

  /** Whether the sweep at `now` forgets session `s`. */
  predicate Expired(s: Session, now: int)
  {
    now - s.lastInteraction > ExpirationTime
  }

  /** The sessions left by a sweep at `now`. */
  function Swept(sessions: map<int, Session>, now: int): (r: map<int, Session>)
    ensures forall u :: u in r <==> u in sessions && !Expired(sessions[u], now)
    ensures forall u :: u in r ==> r[u] == sessions[u]
  {
    map u | u in sessions && !Expired(sessions[u], now) :: sessions[u]
  }

  /** A second sweep at the same time finds nothing more to forget. */
  lemma SweepIsIdempotent(sessions: map<int, Session>, now: int)
    ensures Swept(Swept(sessions, now), now) == Swept(sessions, now)
  {
  }

  /** The history after "regenerate" has removed the last exchange, or None when it refuses. */
  function Regenerated(h: seq<Entry>): (r: Option<seq<Entry>>)
    ensures r.None? <==> |h| < 2
    ensures r.Some? ==> |r.value| == |h| - 2 && h == r.value + h[|h| - 2..]
    ensures r.Some? && WellFormed(h) ==> WellFormed(r.value)
  {
    if |h| < 2 then None else Some(h[..|h| - 2])
  }

  /**
   * Regenerating and then storing the new answer replaces exactly the last
   * exchange: nothing older is lost, even when the history was full.
   */
  lemma {:induction false} RegenerateReplacesLastExchange(h: seq<Entry>, question: string, answer: string)
    requires WellFormed(h) && |h| >= 2
    ensures Appended(Regenerated(h).value, question, answer) == h[..|h| - 2] + Exchange(question, answer)
  {
    var kept := Regenerated(h).value;
    assert |kept + Exchange(question, answer)| <= HistoryLimit;
  }

  datatype RegenOutcome =
    | NothingToRegenerate   // fewer than two entries: refused with a notice
    | RegenFailed           // a call failed; whatever was already done stays done
    | Answered(answer: string)

  /**
   * The "regenerate" button on session `s` (the one `getUserSession` returned):
   * it refuses with fewer than two entries; then the callback answer
   * (`answerOk`) and the typing notice (`typingOk`) are sent, the last exchange
   * is removed, and the original question (`question`, None when the button's
   * message does not reply to one) is asked again; `answer` is the completion
   * call's result. The removal is not undone when a later step fails.
   */
  function RegenerateStep(s: Session, now: int, answerOk: bool, typingOk: bool, question: Option<string>, answer: Option<string>)
    : (r: (Session, RegenOutcome))
    ensures |s.history| < 2 ==> r == (s, NothingToRegenerate)
    ensures |s.history| >= 2 && !(answerOk && typingOk) ==> r == (s, RegenFailed)
    ensures r.1.Answered? <==> |s.history| >= 2 && answerOk && typingOk && question.Some? && answer.Some?
    ensures r.1.RegenFailed? && answerOk && typingOk ==> r.0 == s.(history := s.history[..|s.history| - 2])
  {
    match Regenerated(s.history)
    case None => (s, NothingToRegenerate)
    case Some(kept) =>
      if !answerOk || !typingOk then (s, RegenFailed)
      else if question.None? || answer.None? then (s.(history := kept), RegenFailed)
      else (Session(Appended(kept, question.value, answer.value), now), Answered(answer.value))
  }

  /**
   * On a history of whole exchanges, "regenerate" keeps whole exchanges and,
   * when it answers, replaces exactly the last exchange by the new one.
   */
  lemma RegenerateStepWellFormed(s: Session, now: int, answerOk: bool, typingOk: bool, question: Option<string>, answer: Option<string>)
    requires WellFormed(s.history)
    ensures var r := RegenerateStep(s, now, answerOk, typingOk, question, answer);
            && WellFormed(r.0.history)
            && (r.1.Answered? ==> r.0 == Session(s.history[..|s.history| - 2] + Exchange(question.value, answer.value), now))
  {
    var h := s.history;
    if |h| >= 2 && answerOk && typingOk && question.Some? && answer.Some? {
      RegenerateReplacesLastExchange(h, question.value, answer.value);
      AppendedWellFormed(h[..|h| - 2], question.value, answer.value);
    }
  }

  /** The `userSessions` map and the operations that change it. */
  class SessionStore {
    var sessions: map<int, Session>

    ghost predicate Valid()
      reads this
    {
      forall u :: u in sessions ==> WellFormed(sessions[u].history)
    }

    constructor ()
      ensures Valid() && sessions == map[]
    {
      sessions := map[];
    }

    /** The session of `u` as `getUserSession` at `now` returns it, without storing it. */
    function SessionOf(u: int, now: int): Session
      reads this
    {
      if u in sessions then sessions[u] else Session([], now)
    }

    /** `getUserSession(userId)`: creates an empty session stamped `now` on first use. */
    method GetUserSession(u: int, now: int) returns (s: Session)
      requires Valid()
      modifies this
      ensures Valid()
      ensures s == old(SessionOf(u, now)) && sessions == old(sessions)[u := s]
    {
      if u !in sessions {
        sessions := sessions[u := Session([], now)];
      }
      s := sessions[u];
    }

    /** `updateUserSession`: push the exchange, keep the last twenty entries, refresh the time. */
    method UpdateUserSession(u: int, question: string, answer: string, now: int)
      requires Valid()
      modifies this
      ensures Valid()
      ensures sessions == old(sessions)[u := Session(Appended(old(SessionOf(u, now)).history, question, answer), now)]
    {
      var s := GetUserSession(u, now);
      assert WellFormed(s.history);
      var history := s.history + Exchange(question, answer);
      if |history| > HistoryLimit {
        history := history[|history| - HistoryLimit..];
      }
      assert history == Appended(s.history, question, answer);
      AppendedWellFormed(s.history, question, answer);
      ghost var before := sessions;
      sessions := sessions[u := Session(history, now)];
      assert forall v :: v in sessions && v != u ==> sessions[v] == before[v];
    }

    /**
     * The chat path of the text handler: the session is fetched (and so created)
     * first; the exchange is stored only when the typing notice was sent and the
     * completion call produced an answer (`answer` is None when it failed).
     */
    method Converse(u: int, question: string, now: int, typingOk: bool, answer: Option<string>)
      requires Valid()
      modifies this
      ensures Valid()
      ensures typingOk && answer.Some? ==>
        sessions == old(sessions)[u := Session(Appended(old(SessionOf(u, now)).history, question, answer.value), now)]
      ensures !(typingOk && answer.Some?) ==> sessions == old(sessions)[u := old(SessionOf(u, now))]
    {
      var s := GetUserSession(u, now);
      if typingOk && answer.Some? {
        UpdateUserSession(u, question, answer.value, now);
        assert old(sessions)[u := s][u := Session(Appended(s.history, question, answer.value), now)]
            == old(sessions)[u := Session(Appended(s.history, question, answer.value), now)];
      }
    }

    /** The periodic clean-up: forget every session idle for more than thirty minutes. */
    method Sweep(now: int)
      requires Valid()
      modifies this
      ensures Valid()
      ensures sessions == Swept(old(sessions), now)
    {
      var pending := sessions.Keys;
      while pending != {}
        invariant pending <= old(sessions).Keys
        invariant forall u :: u in sessions <==> u in old(sessions) && (u in pending || !Expired(old(sessions)[u], now))
        invariant forall u :: u in sessions ==> sessions[u] == old(sessions)[u]
        decreases pending
      {
        if forall x :: x !in pending { assert false; }
        var u :| u in pending;
        if Expired(sessions[u], now) {
          sessions := sessions - {u};
        }
        pending := pending - {u};
      }
      assert forall u :: u !in pending;
      var swept := Swept(old(sessions), now);
      assert forall u :: u in sessions <==> u in swept;
      assert sessions.Keys == swept.Keys;
      assert forall u :: u in sessions ==> sessions[u] == swept[u];
    }

    /** The "regenerate" button pressed by `u` (RegenerateStep on the session `getUserSession` returns). */
    method Regenerate(u: int, now: int, answerOk: bool, typingOk: bool, question: Option<string>, answer: Option<string>)
      returns (r: RegenOutcome)
      requires Valid()
      modifies this
      ensures Valid()
      ensures var (s, outcome) := RegenerateStep(old(SessionOf(u, now)), now, answerOk, typingOk, question, answer);
              r == outcome && sessions == old(sessions)[u := s]
    {
      var s := GetUserSession(u, now);
      var h := s.history;
      if |h| < 2 {
        return NothingToRegenerate;
      }
      if !answerOk || !typingOk {
        return RegenFailed;
      }
      var kept := h[..|h| - 2];
      assert Regenerated(h) == Some(kept);
      sessions := sessions[u := s.(history := kept)];
      if question.None? || answer.None? {
        return RegenFailed;
      }
      assert SessionOf(u, now).history == kept;
      UpdateUserSession(u, question.value, answer.value, now);
      r := Answered(answer.value);
    }

    /** The "end" button for the session of `owner`, pressed by `clicker`: only the owner may end it. */
    method End(owner: int, clicker: int) returns (ended: bool)
      requires Valid()
      modifies this
      ensures Valid()
      ensures ended <==> owner == clicker
      ensures sessions == if ended then old(sessions) - {owner} else old(sessions)
    {
      if owner != clicker {
        return false;
      }
      sessions := sessions - {owner};
      ended := true;
    }
  }
}
