/**
 * The anti-flood middleware of the entry point. Each chat session carries a
 * counter of quick messages and the time of the last message let through.
 * A message less than a second after that time raises the counter; the
 * fifth such message in a row is deleted and not handled further. Any slower
 * message resets the counter. Times are milliseconds passed in as `now`;
 * the delete and the notice are inputs saying whether those calls succeeded.
 */
module Throttle {

  /** The gap, in milliseconds, below which a message counts as quick. */
  const QuickGapMs: int := 1000
  /** The count of quick messages at which a message is suppressed. */
  const SpamLimit: nat := 5

  /** The throttle's part of the session. */
  datatype SpamState = SpamState(spamCount: nat, lastMessageTime: int)

  /**
   * One message arriving at `now`: the new throttle state and whether the
   * message is passed on to the later handlers.
   */
  function Step(t: SpamState, now: int, deleteOk: bool, replyOk: bool): (r: (SpamState, bool))
    // suppressed exactly when it is quick and brings the count to the limit
    ensures !r.1 <==> now - t.lastMessageTime < QuickGapMs && t.spamCount + 1 >= SpamLimit
    // a passed message is remembered; a suppressed one is not
    ensures r.1 ==> r.0.lastMessageTime == now
    ensures !r.1 ==> r.0.lastMessageTime == t.lastMessageTime
    // a quick message counts, a slow one resets the count
    ensures r.1 && now - t.lastMessageTime < QuickGapMs ==> r.0.spamCount == t.spamCount + 1
    ensures now - t.lastMessageTime >= QuickGapMs ==> r.0.spamCount == 0
    // suppression resets the count only when both calls succeeded
    ensures !r.1 ==> (r.0.spamCount == 0 <==> deleteOk && replyOk)
    ensures !r.1 && !(deleteOk && replyOk) ==> r.0.spamCount >= SpamLimit
    // with both calls succeeding the count never reaches the limit
    ensures deleteOk && replyOk ==> r.0.spamCount < SpamLimit
  {
    if now - t.lastMessageTime < QuickGapMs then
      var count := t.spamCount + 1;
      if count >= SpamLimit then
        (SpamState(if deleteOk && replyOk then 0 else count, t.lastMessageTime), false)
      else (SpamState(count, now), true)
    else (SpamState(0, now), true)
  }

  /** A session's throttle after a sequence of messages, every call succeeding, and which messages were passed on. */
  function Feed(t: SpamState, times: seq<int>): (r: (SpamState, seq<bool>))
    ensures |r.1| == |times|
    decreases |times|
  {
    if times == [] then (t, [])
    else
      var (t1, passed) := Step(t, times[0], true, true);
      var (t2, rest) := Feed(t1, times[1..]);
      (t2, [passed] + rest)
  }

  /** The message times are in order and all less than a second after `since`. */
  predicate WithinSecond(times: seq<int>, since: int)
  {
    && (forall i :: 0 <= i < |times| ==> since <= times[i] < since + QuickGapMs)
    && (forall i, j :: 0 <= i < j < |times| ==> times[i] <= times[j])
  }

  /**
   * With `c` quick messages counted, the next `5 - c` messages inside one
   * second of the last passed one: all but the last are passed, the last is
   * suppressed and the count starts again from zero.
   */
  lemma {:induction false} QuickBurst(t: SpamState, times: seq<int>)
    requires t.spamCount < SpamLimit && |times| == SpamLimit - t.spamCount
    requires WithinSecond(times, t.lastMessageTime)
    ensures Feed(t, times).1 == seq(|times|, i => i < |times| - 1)
    ensures Feed(t, times).0.spamCount == 0
    decreases |times|
  {
    var (t1, passed) := Step(t, times[0], true, true);
    if |times| > 1 {
      assert passed && t1 == SpamState(t.spamCount + 1, times[0]);
      assert WithinSecond(times[1..], t1.lastMessageTime) by {
        forall i | 0 <= i < |times[1..]| ensures times[0] <= times[1..][i] < times[0] + QuickGapMs {
          assert times[1..][i] == times[i + 1];
        }
      }
      QuickBurst(t1, times[1..]);
      assert Feed(t, times).1 == [passed] + Feed(t1, times[1..]).1;
    } else {
      assert !passed;
    }
  }

  /**
   * Six messages within one second, the first a second or more after the last
   * passed message: the first five are passed and the sixth is suppressed.
   */
  lemma SixthQuickMessageSuppressed(t: SpamState, times: seq<int>)
    requires |times| == 6 && times[0] - t.lastMessageTime >= QuickGapMs
    requires WithinSecond(times[1..], times[0])
    ensures Feed(t, times).1 == [true, true, true, true, true, false]
  {
    var (t1, passed) := Step(t, times[0], true, true);
    assert passed && t1 == SpamState(0, times[0]);
    QuickBurst(t1, times[1..]);
    assert Feed(t, times).1 == [passed] + Feed(t1, times[1..]).1;
  }

  /** The session of the entry point (its `initial` shape) with the throttle step as a method. */
  class ChatSession {
    var isAdmin: bool
    var warnings: nat
    var spamCount: nat
    var lastMessageTime: int

    /** A fresh session: not an admin, no warnings, no quick messages, last message at time 0. */
    constructor ()
      ensures !isAdmin && warnings == 0 && spamCount == 0 && lastMessageTime == 0
    {
      isAdmin := false;
      warnings := 0;
      spamCount := 0;
      lastMessageTime := 0;
    }

    function Throttled(): SpamState
      reads this
    {
      SpamState(spamCount, lastMessageTime)
    }

    /** The middleware on a message at `now`; `passed` says whether the next handler runs. */
    method OnMessage(now: int, deleteOk: bool, replyOk: bool) returns (passed: bool)
      modifies this
      ensures (Throttled(), passed) == Step(old(Throttled()), now, deleteOk, replyOk)
      ensures isAdmin == old(isAdmin) && warnings == old(warnings)
    {
      var gap := now - lastMessageTime;
      if gap < QuickGapMs {
        spamCount := spamCount + 1;
        if spamCount >= SpamLimit {
          if deleteOk && replyOk {
            spamCount := 0;
          }
          return false;
        }
      } else {
        spamCount := 0;
      }
      lastMessageTime := now;
      passed := true;
    }
  }
}
