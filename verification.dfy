/**
 * Join verification. A member who joins is muted and shown a button; the
 * challenge is remembered in `pendingVerifications` together with a timer.
 * Tapping the button (only the new member may) or an administrator's
 * `/verify` settles the challenge; otherwise, when the timer fires and the
 * challenge is still there, the member is removed from the group.
 *
 * Timers are explicit: `timers` holds the armed ones by id, a fired or
 * cleared timer leaves the map, and firing is the `Fire` step. Each chat
 * platform call is an input saying whether it succeeded; the id of the
 * challenge message is `Some(id)` when the reply was sent.
 */
module Verification {
  import opened Common

  /** How long a new member has to tap the button (`joinVerificationTimeout`, 300 s), in milliseconds. */
  const TimeoutMs: nat := 300 * 1000

  /** An entry of `pendingVerifications`: the timer armed for it and the challenge message. */
  datatype Pending = Pending(timer: nat, messageId: int)
  /** An armed timer: whose challenge it ends and when it fires. */
  datatype Timer = Timer(user: int, deadline: int)
  datatype VState = VState(pending: map<int, Pending>, timers: map<nat, Timer>, nextTimer: nat)

  /** The state before anyone has joined. */
  function Initial(): VState { VState(map[], map[], 0) }

  /**
   * Every armed timer is the timer of its user's current challenge, and timer
   * ids are never reused. (A challenge may have no armed timer: the timer
   * fired but the removal failed.)
   */
  ghost predicate TimersMatch(s: VState)
  {
    forall t :: t in s.timers ==>
      t < s.nextTimer && s.timers[t].user in s.pending && s.pending[s.timers[t].user].timer == t
  }

  /**
   * Timer ids are handed out in increasing order: every armed timer and every
   * challenge's timer has an id below the next one. The handlers as written
   * keep this, the corrected join included.
   */
  ghost predicate IdsFresh(s: VState)
  {
    && (forall t :: t in s.timers ==> t < s.nextTimer)
    && (forall u :: u in s.pending ==> s.pending[u].timer < s.nextTimer)
  }

  /** The timers left after clearing the one of `u`'s challenge, if there is one. */
  function Disarm(s: VState, u: int): (timers: map<nat, Timer>)
    ensures u in s.pending ==> timers == s.timers - {s.pending[u].timer}
    ensures u !in s.pending ==> timers == s.timers
  {
    if u in s.pending then s.timers - {s.pending[u].timer} else s.timers
  }

  // ---------------------------------------------------------------------
  // Joining.
  // ---------------------------------------------------------------------

  /**
   * A member `u` joins at `nowMs`, as the handler is written: mute them
   * (`restrictOk`), post the challenge (`message`), arm a fresh timer and
   * store the entry, overwriting an earlier entry of `u` without clearing its
   * timer.
   */
  function JoinAsWritten(s: VState, u: int, nowMs: int, restrictOk: bool, message: Option<int>): (r: VState)
    ensures !restrictOk || message.None? ==> r == s
    ensures restrictOk && message.Some? ==>
      && r.pending == s.pending[u := Pending(s.nextTimer, message.value)]
      && r.timers == s.timers[s.nextTimer := Timer(u, nowMs + TimeoutMs)]
  {
    if !restrictOk || message.None? then s
    else
      var t := s.nextTimer;
      VState(s.pending[u := Pending(t, message.value)], s.timers[t := Timer(u, nowMs + TimeoutMs)], t + 1)
  }

  /** The join as evidently intended: an earlier challenge of `u` has its timer cleared before the new one is armed. */
  function Join(s: VState, u: int, nowMs: int, restrictOk: bool, message: Option<int>): (r: VState)
    ensures !restrictOk || message.None? ==> r == s
    ensures restrictOk && message.Some? ==>
      && r.pending == s.pending[u := Pending(s.nextTimer, message.value)]
      && r.timers == Disarm(s, u)[s.nextTimer := Timer(u, nowMs + TimeoutMs)]
  {
    if !restrictOk || message.None? then s
    else
      var t := s.nextTimer;
      VState(s.pending[u := Pending(t, message.value)], Disarm(s, u)[t := Timer(u, nowMs + TimeoutMs)], t + 1)
  }

  /** The corrected join keeps every armed timer tied to its own challenge. */
  lemma JoinKeepsTimersMatch(s: VState, u: int, nowMs: int, restrictOk: bool, message: Option<int>)
    requires TimersMatch(s)
    ensures TimersMatch(Join(s, u, nowMs, restrictOk, message))
  {
    var r := Join(s, u, nowMs, restrictOk, message);
    if restrictOk && message.Some? {
      forall t | t in r.timers
        ensures t < r.nextTimer && r.timers[t].user in r.pending && r.pending[r.timers[t].user].timer == t
      {
        if t != s.nextTimer {
          assert t in s.timers;
          if s.timers[t].user == u {
            assert false;
          }
        }
      }
    }
  }

  /** After the corrected join the member has exactly one armed timer, due `TimeoutMs` after joining. */
  lemma JoinLeavesOneTimer(s: VState, u: int, nowMs: int, message: int)
    requires TimersMatch(s)
    ensures var r := Join(s, u, nowMs, true, Some(message));
            && u in r.pending && r.pending[u].messageId == message
            && r.pending[u].timer in r.timers && r.timers[r.pending[u].timer] == Timer(u, nowMs + TimeoutMs)
            && forall t :: t in r.timers && r.timers[t].user == u ==> t == r.pending[u].timer
  {
    var r := Join(s, u, nowMs, true, Some(message));
    forall t | t in r.timers && r.timers[t].user == u
      ensures t == r.pending[u].timer
    {
      if t != s.nextTimer {
        assert false;
      }
    }
  }

  /** Both joins keep timer ids fresh. */
  lemma JoinKeepsIdsFresh(s: VState, u: int, nowMs: int, restrictOk: bool, message: Option<int>)
    requires IdsFresh(s)
    ensures IdsFresh(JoinAsWritten(s, u, nowMs, restrictOk, message))
    ensures IdsFresh(Join(s, u, nowMs, restrictOk, message))
  {
  }

  /** A first join as written (no earlier entry for `u`) agrees with the corrected one and keeps timers matched. */
  lemma JoinAsWrittenFirstKeepsTimersMatch(s: VState, u: int, nowMs: int, restrictOk: bool, message: Option<int>)
    requires u !in s.pending
    ensures JoinAsWritten(s, u, nowMs, restrictOk, message) == Join(s, u, nowMs, restrictOk, message)
    ensures TimersMatch(s) ==> TimersMatch(JoinAsWritten(s, u, nowMs, restrictOk, message))
  {
    if TimersMatch(s) {
      JoinKeepsTimersMatch(s, u, nowMs, restrictOk, message);
    }
  }

  /**
   * Joining twice as written leaves the first timer armed: 300 s after the
   * first join it fires while the second challenge still has 100 s to run,
   * and removes the member and that second challenge.
   */
  lemma JoinTwiceAsWrittenRemovesEarly()
    ensures var s1 := JoinAsWritten(Initial(), 7, 0, true, Some(100));
            var s2 := JoinAsWritten(s1, 7, 100000, true, Some(200));
            && TimersMatch(s1) && !TimersMatch(s2)
            && 0 in s2.timers && s2.pending[7].timer in s2.timers
            && s2.timers[0].deadline == 300000 < s2.timers[s2.pending[7].timer].deadline == 400000
            && Fire(s2, 0, true, true, true) == (VState(map[], map[1 := Timer(7, 400000)], 2), Removed(7, 200))
  {
    var s1 := JoinAsWritten(Initial(), 7, 0, true, Some(100));
    var s2 := JoinAsWritten(s1, 7, 100000, true, Some(200));
    assert s2.pending[7].timer == 1;
    assert 0 in s2.timers;
    var f := Fire(s2, 0, true, true, true);
    assert f.0.timers == map[1 := Timer(7, 400000)];
  }

  /** With the corrected join the same sequence disarms the first timer, and firing it does nothing. */
  lemma JoinTwiceKeepsSecondChallenge()
    ensures var s1 := Join(Initial(), 7, 0, true, Some(100));
            var s2 := Join(s1, 7, 100000, true, Some(200));
            && 0 !in s2.timers
            && Fire(s2, 0, true, true, true) == (s2, NotArmed)
  {
    var s1 := Join(Initial(), 7, 0, true, Some(100));
    assert s1.pending[7].timer == 0;
  }

  // ---------------------------------------------------------------------
  // The timer.
  // ---------------------------------------------------------------------

  datatype FireOutcome =
    | NotArmed                           // cleared or already fired: the callback never runs
    | EntryGone                          // the entry is gone: nothing is done
    | Removed(user: int, messageId: int) // banned, unbanned, challenge deleted, entry removed
    | RemoveFailed(user: int)            // a call failed; the entry stays

  /**
   * Timer `t` fires: it is no longer armed; if its user still has an entry,
   * ban (`banOk`), unban (`unbanOk`) and delete the challenge message
   * (`deleteOk`), and only then remove the entry.
   */
  function Fire(s: VState, t: nat, banOk: bool, unbanOk: bool, deleteOk: bool): (r: (VState, FireOutcome))
    ensures t !in s.timers ==> r == (s, NotArmed)
    ensures t in s.timers ==> t !in r.0.timers && r.0.timers == s.timers - {t} && r.0.nextTimer == s.nextTimer
    ensures t in s.timers && s.timers[t].user !in s.pending ==> r.1 == EntryGone && r.0.pending == s.pending
    ensures r.1.Removed? <==> t in s.timers && s.timers[t].user in s.pending && banOk && unbanOk && deleteOk
    ensures r.1.Removed? ==>
      r.1.user == s.timers[t].user && r.1.messageId == s.pending[r.1.user].messageId && r.0.pending == s.pending - {r.1.user}
    ensures !r.1.Removed? ==> r.0.pending == s.pending
  {
    if t !in s.timers then (s, NotArmed)
    else
      var u := s.timers[t].user;
      var timers := s.timers - {t};
      if u !in s.pending then (s.(timers := timers), EntryGone)
      else if banOk && unbanOk && deleteOk then
        (s.(pending := s.pending - {u}, timers := timers), Removed(u, s.pending[u].messageId))
      else (s.(timers := timers), RemoveFailed(u))
  }

  /** Firing keeps every remaining timer tied to its own challenge. */
  lemma FireKeepsTimersMatch(s: VState, t: nat, banOk: bool, unbanOk: bool, deleteOk: bool)
    requires TimersMatch(s)
    ensures TimersMatch(Fire(s, t, banOk, unbanOk, deleteOk).0)
  {
    var r := Fire(s, t, banOk, unbanOk, deleteOk).0;
    forall t' | t' in r.timers
      ensures t' < r.nextTimer && r.timers[t'].user in r.pending && r.pending[r.timers[t'].user].timer == t'
    {
      assert t' in s.timers && t' != t;
      if t in s.timers && s.timers[t].user == s.timers[t'].user {
        assert false;
      }
    }
  }

  /** Where timers match their challenges, a firing timer only ever removes the challenge it was armed for. */
  lemma FireRemovesOwnChallenge(s: VState, t: nat, banOk: bool, unbanOk: bool, deleteOk: bool)
    requires TimersMatch(s)
    ensures var (r, outcome) := Fire(s, t, banOk, unbanOk, deleteOk);
            outcome.Removed? ==> s.pending[outcome.user].timer == t
    ensures Fire(s, t, banOk, unbanOk, deleteOk).1 != EntryGone
  {
  }

  // ---------------------------------------------------------------------
  // The button and `/verify`.
  // ---------------------------------------------------------------------

  datatype TapOutcome =
    | NotYours      // the button belongs to someone else: an alert, nothing else
    | NoChallenge   // expired or unknown: an alert, nothing else
    | Verified      // permissions restored, message edited
    | TapFailed     // the entry is gone already; a later call failed

  /**
   * The button of `dataUser`'s challenge tapped by `clicker`: the timer is
   * cleared and the entry removed before permissions are restored
   * (`restrictOk`) and the message edited (`editOk`).
   */
  function Tap(s: VState, dataUser: int, clicker: int, restrictOk: bool, editOk: bool): (r: (VState, TapOutcome))
    ensures dataUser != clicker ==> r == (s, NotYours)
    ensures dataUser == clicker && dataUser !in s.pending ==> r == (s, NoChallenge)
    ensures dataUser == clicker && dataUser in s.pending ==>
      && r.0 == VState(s.pending - {dataUser}, Disarm(s, dataUser), s.nextTimer)
      && (r.1 == Verified <==> restrictOk && editOk)
  {
    if dataUser != clicker then (s, NotYours)
    else if dataUser !in s.pending then (s, NoChallenge)
    else
      var r := VState(s.pending - {dataUser}, Disarm(s, dataUser), s.nextTimer);
      (r, if restrictOk && editOk then Verified else TapFailed)
  }

  /** A valid tap settles the challenge whatever the later calls do: no call failure brings the entry back. */
  lemma TapSettlesBeforeCalls(s: VState, u: int, restrictOk: bool, editOk: bool)
    requires TimersMatch(s) && u in s.pending
    ensures var r := Tap(s, u, u, restrictOk, editOk).0;
            && r == Tap(s, u, u, true, true).0
            && u !in r.pending
            && forall t :: t in r.timers ==> r.timers[t].user != u
  {
  }

  /** The tap keeps every armed timer tied to its own challenge. */
  lemma TapKeepsTimersMatch(s: VState, dataUser: int, clicker: int, restrictOk: bool, editOk: bool)
    requires TimersMatch(s)
    ensures TimersMatch(Tap(s, dataUser, clicker, restrictOk, editOk).0)
  {
    var r := Tap(s, dataUser, clicker, restrictOk, editOk).0;
    forall t | t in r.timers
      ensures t < r.nextTimer && r.timers[t].user in r.pending && r.pending[r.timers[t].user].timer == t
    {
      assert t in s.timers;
      if dataUser == clicker && dataUser in s.pending && s.timers[t].user == dataUser {
        assert false;
      }
    }
  }

  datatype VerifyOutcome = NotAdmin | NoTarget | VerifyFailed | ManuallyVerified

  /**
   * `/verify` by an administrator, replying to a message of `target`:
   * restore permissions (`restrictOk`), and only then clear the timer and
   * remove the entry, if there is one.
   */
  function ManualVerify(s: VState, isAdmin: bool, target: Option<int>, restrictOk: bool): (r: (VState, VerifyOutcome))
    ensures !(isAdmin && target.Some? && restrictOk) ==> r.0 == s && r.1 != ManuallyVerified
    ensures isAdmin && target.Some? && restrictOk ==>
      r == (VState(s.pending - {target.value}, Disarm(s, target.value), s.nextTimer), ManuallyVerified)
  {
    if !isAdmin then (s, NotAdmin)
    else if target.None? then (s, NoTarget)
    else if !restrictOk then (s, VerifyFailed)
    else
      var u := target.value;
      (VState(s.pending - {u}, Disarm(s, u), s.nextTimer), ManuallyVerified)
  }

  /** `/verify` keeps every armed timer tied to its own challenge. */
  lemma ManualVerifyKeepsTimersMatch(s: VState, isAdmin: bool, target: Option<int>, restrictOk: bool)
    requires TimersMatch(s)
    ensures TimersMatch(ManualVerify(s, isAdmin, target, restrictOk).0)
  {
    var r := ManualVerify(s, isAdmin, target, restrictOk).0;
    forall t | t in r.timers
      ensures t < r.nextTimer && r.timers[t].user in r.pending && r.pending[r.timers[t].user].timer == t
    {
      assert t in s.timers;
      if isAdmin && target.Some? && restrictOk && s.timers[t].user == target.value {
        assert false;
      }
    }
  }

  /** `pendingVerifications` and the armed timers. */
  class Verifier {
    var pending: map<int, Pending>
    var timers: map<nat, Timer>
    var nextTimer: nat

    function State(): VState
      reads this
    {
      VState(pending, timers, nextTimer)
    }

    ghost predicate Valid()
      reads this
    {
      IdsFresh(State())
    }

    constructor ()
      ensures Valid() && TimersMatch(State()) && State() == Initial()
    {
      pending := map[];
      timers := map[];
      nextTimer := 0;
    }

    /**
     * The `chat_member` handler for a member `u` joining at `nowMs`, as
     * written: an earlier challenge's timer stays armed.
     */
    method OnJoinAsWritten(u: int, nowMs: int, restrictOk: bool, message: Option<int>)
      requires Valid()
      modifies this
      ensures Valid()
      ensures State() == JoinAsWritten(old(State()), u, nowMs, restrictOk, message)
      ensures u !in old(pending) ==> (TimersMatch(old(State())) ==> TimersMatch(State()))
    {
      if u !in pending {
        JoinAsWrittenFirstKeepsTimersMatch(State(), u, nowMs, restrictOk, message);
      }
      if !restrictOk || message.None? {
        return;
      }
      var t := nextTimer;
      timers := timers[t := Timer(u, nowMs + TimeoutMs)];
      nextTimer := nextTimer + 1;
      pending := pending[u := Pending(t, message.value)];
    }

    /** The `chat_member` handler for a member `u` joining at `nowMs`, with the earlier timer cleared. */
    method OnJoin(u: int, nowMs: int, restrictOk: bool, message: Option<int>)
      requires Valid()
      modifies this
      ensures Valid()
      ensures State() == Join(old(State()), u, nowMs, restrictOk, message)
      ensures TimersMatch(old(State())) ==> TimersMatch(State())
    {
      if TimersMatch(State()) {
        JoinKeepsTimersMatch(State(), u, nowMs, restrictOk, message);
      }
      if !restrictOk || message.None? {
        return;
      }
      if u in pending {
        timers := timers - {pending[u].timer};
      }
      var t := nextTimer;
      timers := timers[t := Timer(u, nowMs + TimeoutMs)];
      nextTimer := nextTimer + 1;
      pending := pending[u := Pending(t, message.value)];
    }

    /** The timeout callback of timer `t`. */
    method OnTimeout(t: nat, banOk: bool, unbanOk: bool, deleteOk: bool) returns (r: FireOutcome)
      requires Valid()
      modifies this
      ensures Valid()
      ensures (State(), r) == Fire(old(State()), t, banOk, unbanOk, deleteOk)
      ensures TimersMatch(old(State())) ==> TimersMatch(State())
    {
      if TimersMatch(State()) {
        FireKeepsTimersMatch(State(), t, banOk, unbanOk, deleteOk);
      }
      if t !in timers {
        return NotArmed;
      }
      var u := timers[t].user;
      timers := timers - {t};
      if u !in pending {
        return EntryGone;
      }
      if !(banOk && unbanOk && deleteOk) {
        return RemoveFailed(u);
      }
      r := Removed(u, pending[u].messageId);
      pending := pending - {u};
    }

    /** The button callback. */
    method OnTap(dataUser: int, clicker: int, restrictOk: bool, editOk: bool) returns (r: TapOutcome)
      requires Valid()
      modifies this
      ensures Valid()
      ensures (State(), r) == Tap(old(State()), dataUser, clicker, restrictOk, editOk)
      ensures TimersMatch(old(State())) ==> TimersMatch(State())
    {
      if TimersMatch(State()) {
        TapKeepsTimersMatch(State(), dataUser, clicker, restrictOk, editOk);
      }
      if dataUser != clicker {
        return NotYours;
      }
      if dataUser !in pending {
        return NoChallenge;
      }
      timers := timers - {pending[dataUser].timer};
      pending := pending - {dataUser};
      r := if restrictOk && editOk then Verified else TapFailed;
    }

    /** `/verify`. */
    method OnVerify(isAdmin: bool, target: Option<int>, restrictOk: bool) returns (r: VerifyOutcome)
      requires Valid()
      modifies this
      ensures Valid()
      ensures (State(), r) == ManualVerify(old(State()), isAdmin, target, restrictOk)
      ensures TimersMatch(old(State())) ==> TimersMatch(State())
    {
      if TimersMatch(State()) {
        ManualVerifyKeepsTimersMatch(State(), isAdmin, target, restrictOk);
      }
      if !isAdmin {
        return NotAdmin;
      }
      if target.None? {
        return NoTarget;
      }
      if !restrictOk {
        return VerifyFailed;
      }
      var u := target.value;
      if u in pending {
        timers := timers - {pending[u].timer};
        pending := pending - {u};
      } else {
        assert pending - {u} == pending;
      }
      r := ManuallyVerified;
    }
  }
}
