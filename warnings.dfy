/**
 * Warnings and the ban they escalate to. A per-user counter lives in an
 * in-memory map; `/warn` and the blocklist check both add one warning, and
 * at three warnings the user is banned and, once the ban call has returned,
 * the counter is deleted. `/unwarn` takes one warning away, never below zero.
 * Every chat-platform call is an input saying whether that call succeeded.
 */
module Warnings {
  import opened Common

  /** Warnings that lead to a ban. */
  const MaxWarnings: nat := 3

  /** The configured blocklist; a message containing any of these is punished. */
  const BadWords: seq<string> := ["脏话1", "脏话2", "广告词"]

  /** The warning count of `u`; an absent entry counts as zero. */
  function Count(counts: map<int, nat>, u: int): nat
  {
    if u in counts then counts[u] else 0
  }

  /** Reading back after storing or deleting an entry: only `u`'s count is affected. */
  lemma CountAfterUpdate(counts: map<int, nat>, u: int, n: nat, v: int)
    ensures Count(counts[u := n], v) == if v == u then n else Count(counts, v)
    ensures Count(counts - {u}, v) == if v == u then 0 else Count(counts, v)
  {
  }

  /**
   * One warning added and then one removed leaves every user's count as it
   * was; the map itself may gain an entry of 0 for a user it did not hold.
   */
  lemma AddThenRemove(counts: map<int, nat>, u: int, v: int)
    ensures var added := counts[u := Count(counts, u) + 1];
      var removed := added[u := Max(0, Count(added, u) - 1)];
      Count(removed, v) == Count(counts, v)
  {
  }

  // ---------------------------------------------------------------------
  // The blocklist test: `badWords.some(word => text.includes(word))`.
  // ---------------------------------------------------------------------

  /** `w` occurs in `text` starting at index `i`. */
  predicate OccursAt(w: string, text: string, i: nat)
  {
    i + |w| <= |text| && text[i..i + |w|] == w
  }

  /** `text.includes(w)`, searching from the left. */
  function Includes(text: string, w: string): (b: bool)
    ensures b <==> exists i: nat :: OccursAt(w, text, i)
  {
    if w <= text then
      assert OccursAt(w, text, 0);
      true
    else if text == [] then
      assert forall i: nat :: !OccursAt(w, text, i);
      false
    else
      var b := Includes(text[1..], w);
      assert forall i: nat :: OccursAt(w, text[1..], i) <==> OccursAt(w, text, i + 1) by {
        forall i: nat ensures OccursAt(w, text[1..], i) <==> OccursAt(w, text, i + 1) {
          if i + 1 + |w| <= |text| { assert text[1..][i..i + |w|] == text[i + 1..i + 1 + |w|]; }
        }
      }
      assert !OccursAt(w, text, 0);
      assert forall i: nat :: OccursAt(w, text, i) ==> i >= 1 && OccursAt(w, text[1..], i - 1);
      b
  }

  /** `words.some(word => text.includes(word))`. */
  function HasBadWord(text: string, words: seq<string>): (b: bool)
    ensures b <==> exists k :: 0 <= k < |words| && Includes(text, words[k])
  {
    if words == [] then false
    else Includes(text, words[0]) || HasBadWord(text, words[1..])
  }

  // ---------------------------------------------------------------------
  // Escalation, shared by `/warn` and the blocklist path.
  // ---------------------------------------------------------------------

  datatype Escalation = Escalation(counts: map<int, nat>, warnings: nat, banned: bool)

  /**
   * Adds one warning to `u` and, at the limit, makes the ban call (outcome
   * `banOk`); the entry is deleted only when that call returned normally.
   */
  function Escalate(counts: map<int, nat>, u: int, banOk: bool): (r: Escalation)
    ensures r.warnings == Count(counts, u) + 1
    ensures r.banned <==> r.warnings >= MaxWarnings && banOk
    ensures r.banned ==> u !in r.counts
    ensures !r.banned ==> u in r.counts && r.counts[u] == r.warnings
    ensures r.counts - {u} == counts - {u}
  {
    var n := Count(counts, u) + 1;
    if n >= MaxWarnings && banOk then Escalation(counts - {u}, n, true)
    else Escalation(counts[u := n], n, false)
  }

  /** `k` warnings in a row for `u`, every ban call succeeding: the counts and the number of bans. */
  function WarnTimes(counts: map<int, nat>, u: int, k: nat): (map<int, nat>, nat)
  {
    if k == 0 then (counts, 0)
    else
      var (c, bans) := WarnTimes(counts, u, k - 1);
      var e := Escalate(c, u, true);
      (e.counts, bans + if e.banned then 1 else 0)
  }

  /**
   * Starting below the limit, `k` warnings leave `(start + k) % 3` warnings and
   * cause `(start + k) / 3` bans: three warnings from zero ban exactly once and
   * reset the counter; two never ban. Nobody else's count changes.
   */
  lemma {:induction false} RepeatedWarnings(counts: map<int, nat>, u: int, k: nat)
    requires Count(counts, u) < MaxWarnings
    ensures Count(WarnTimes(counts, u, k).0, u) == (Count(counts, u) + k) % MaxWarnings
    ensures WarnTimes(counts, u, k).1 == (Count(counts, u) + k) / MaxWarnings
    ensures WarnTimes(counts, u, k).0 - {u} == counts - {u}
  {
    if k > 0 {
      RepeatedWarnings(counts, u, k - 1);
      var c := WarnTimes(counts, u, k - 1).0;
      var n := Count(counts, u) + k;
      assert Count(c, u) == (n - 1) % 3;
      if (n - 1) % 3 == 2 {
        assert n % 3 == 0 && n / 3 == (n - 1) / 3 + 1;
      } else {
        assert n % 3 == (n - 1) % 3 + 1 && n / 3 == (n - 1) / 3;
      }
    }
  }

  /** While ban calls keep failing, every further warning raises the stored count by one. */
  lemma BanFailureKeepsCount(counts: map<int, nat>, u: int)
    requires Count(counts, u) + 1 >= MaxWarnings
    ensures Escalate(counts, u, false).counts == counts[u := Count(counts, u) + 1]
    ensures Count(Escalate(counts, u, false).counts, u) >= MaxWarnings
  {
  }

  // ---------------------------------------------------------------------
  // The handlers, as steps on the counter map.
  // ---------------------------------------------------------------------

  datatype WarnOutcome =
    | NotAdmin
    | NoTarget                 // the command does not reply to a message
    | Warned(warnings: nat)    // below the limit: a progress notice
    | Banned                   // at the limit, ban call succeeded, entry deleted
    | BanFailed(warnings: nat) // at the limit, ban call failed, count kept

  /** What the blocklist check does with a text message. */
  datatype TextOutcome =
    | NoBadWord                               // goes on to the chat handling
    | Punished(warnings: nat, banned: bool)   // deleted, warned, answered; handling stops
    | PunishFailed                            // a platform call failed; goes on to the chat handling
  {
    /** Whether the message goes on to the conversational reply. */
    predicate Continues() { !Punished? }
  }

  /** `/warn` on the author `target` of the replied-to message. */
  function WarnStep(counts: map<int, nat>, isAdmin: bool, target: Option<int>, banOk: bool): (r: (map<int, nat>, WarnOutcome))
    ensures !isAdmin || target.None? ==> r.0 == counts
    ensures isAdmin && target.Some? ==> r.0 == Escalate(counts, target.value, banOk).counts
    ensures r.1.Warned? ==> r.1.warnings < MaxWarnings
    ensures r.1.BanFailed? ==> r.1.warnings >= MaxWarnings
  {
    if !isAdmin then (counts, NotAdmin)
    else if target.None? then (counts, NoTarget)
    else
      var e := Escalate(counts, target.value, banOk);
      if e.warnings < MaxWarnings then (e.counts, Warned(e.warnings))
      else if e.banned then (e.counts, Banned)
      else (e.counts, BanFailed(e.warnings))
  }

  /**
   * The blocklist check on a text message from `sender`: delete the message
   * (`deleteOk`), add a warning, ban at the limit (`banOk`), then answer (`replyOk`).
   * A failing call ends the attempt where it happened and the message goes on
   * to the chat handling; what was already changed stays changed.
   */
  function BadWordStep(counts: map<int, nat>, sender: int, text: string, deleteOk: bool, banOk: bool, replyOk: bool)
    : (r: (map<int, nat>, TextOutcome))
    ensures !HasBadWord(text, BadWords) ==> r == (counts, NoBadWord)
    ensures HasBadWord(text, BadWords) && !deleteOk ==> r == (counts, PunishFailed)
    ensures HasBadWord(text, BadWords) && deleteOk ==> r.0 == Escalate(counts, sender, banOk).counts
    ensures r.1.Punished? <==>
      HasBadWord(text, BadWords) && deleteOk && replyOk && (Count(counts, sender) + 1 < MaxWarnings || banOk)
    ensures r.1.Punished? ==> r.1.banned == (Count(counts, sender) + 1 >= MaxWarnings)
  {
    if !HasBadWord(text, BadWords) then (counts, NoBadWord)
    else if !deleteOk then (counts, PunishFailed)
    else
      var e := Escalate(counts, sender, banOk);
      if e.warnings >= MaxWarnings && !banOk then (e.counts, PunishFailed)
      else if !replyOk then (e.counts, PunishFailed)
      else (e.counts, Punished(e.warnings, e.banned))
  }

  /** The `userWarnings` map and the operations that change it. */
  class WarningStore {
    var counts: map<int, nat>

    constructor ()
      ensures counts == map[]
    {
      counts := map[];
    }

    /** `getWarnings(userId)`. */
    function Get(u: int): (n: nat)
      reads this
      ensures u !in counts ==> n == 0
      ensures u in counts ==> n == counts[u]
    {
      Count(counts, u)
    }

    /** `addWarning(userId)`: stores and returns the previous count plus one. */
    method AddWarning(u: int) returns (n: nat)
      modifies this
      ensures n == old(Get(u)) + 1
      ensures counts == old(counts)[u := n]
    {
      n := Get(u) + 1;
      counts := counts[u := n];
    }

    /** `removeWarning(userId)`: stores and returns the count less one, floored at zero (an absent user gets an entry of 0). */
    method RemoveWarning(u: int) returns (n: nat)
      modifies this
      ensures n == Max(0, old(Get(u)) - 1)
      ensures n <= old(Get(u)) && (old(Get(u)) > 0 ==> n == old(Get(u)) - 1)
      ensures counts == old(counts)[u := n]
    {
      n := if Get(u) >= 1 then Get(u) - 1 else 0;
      counts := counts[u := n];
    }

    /** `/warn`. */
    method Warn(isAdmin: bool, target: Option<int>, banOk: bool) returns (r: WarnOutcome)
      modifies this
      ensures (counts, r) == WarnStep(old(counts), isAdmin, target, banOk)
    {
      if !isAdmin { return NotAdmin; }
      if target.None? { return NoTarget; }
      var u := target.value;
      var warnings := AddWarning(u);
      if warnings >= MaxWarnings {
        if banOk {
          assert counts - {u} == old(counts) - {u};
          counts := counts - {u};
          r := Banned;
        } else {
          r := BanFailed(warnings);
        }
      } else {
        r := Warned(warnings);
      }
    }

    /** `/unwarn`: returns the new count, or None when the command is refused. */
    method Unwarn(isAdmin: bool, target: Option<int>) returns (r: Option<nat>)
      modifies this
      ensures !isAdmin || target.None? ==> r.None? && counts == old(counts)
      ensures isAdmin && target.Some? ==>
        r == Some(Max(0, Count(old(counts), target.value) - 1)) && counts == old(counts)[target.value := r.value]
    {
      if !isAdmin || target.None? { return None; }
      var n := RemoveWarning(target.value);
      r := Some(n);
    }

    /** The blocklist check that opens the text-message handler. */
    method CheckText(sender: int, text: string, deleteOk: bool, banOk: bool, replyOk: bool) returns (r: TextOutcome)
      modifies this
      ensures (counts, r) == BadWordStep(old(counts), sender, text, deleteOk, banOk, replyOk)
    {
      if !HasBadWord(text, BadWords) { return NoBadWord; }
      if !deleteOk { return PunishFailed; }
      var warnings := AddWarning(sender);
      var banned := false;
      if warnings >= MaxWarnings {
        if !banOk { return PunishFailed; }
        assert counts - {sender} == old(counts) - {sender};
        counts := counts - {sender};
        banned := true;
      }
      if !replyOk { return PunishFailed; }
      r := Punished(warnings, banned);
    }
  }
}
