/**
 * The text-message handler: the blocklist check runs first; a message it
 * punishes goes no further, any other message (also one whose punishment
 * failed half-way) goes on to the conversational reply, which reads and
 * extends the sender's conversation memory.
 */
module TextHandler {
  import opened Common
  import Warnings
  import Memory

  /**
   * A text message `text` from `sender` at `now`. The delete, ban and notice
   * calls of the blocklist path and the typing notice of the chat path are
   * success flags; `answer` is the completion call's reply, None when it failed.
   */
  method OnText(warnings: Warnings.WarningStore, memory: Memory.SessionStore, sender: int, text: string, now: int,
                deleteOk: bool, banOk: bool, replyOk: bool, typingOk: bool, answer: Option<string>)
    returns (outcome: Warnings.TextOutcome)
    requires memory.Valid()
    modifies warnings, memory
    ensures memory.Valid()
    ensures (warnings.counts, outcome) == Warnings.BadWordStep(old(warnings.counts), sender, text, deleteOk, banOk, replyOk)
    ensures !outcome.Continues() ==> memory.sessions == old(memory.sessions)
    ensures outcome.Continues() && typingOk && answer.Some? ==>
      var s := old(memory.SessionOf(sender, now));
      memory.sessions == old(memory.sessions)[sender := Memory.Session(Memory.Appended(s.history, text, answer.value), now)]
    ensures outcome.Continues() && !(typingOk && answer.Some?) ==>
      memory.sessions == old(memory.sessions)[sender := old(memory.SessionOf(sender, now))]
  {
    outcome := warnings.CheckText(sender, text, deleteOk, banOk, replyOk);
    if outcome.Continues() {
      memory.Converse(sender, text, now, typingOk, answer);
    }
  }

  /** A message without a blocked word changes no warning count. */
  lemma CleanTextKeepsWarnings(counts: map<int, nat>, sender: int, text: string, deleteOk: bool, banOk: bool, replyOk: bool)
    requires forall k :: 0 <= k < |Warnings.BadWords| ==> !Warnings.Includes(text, Warnings.BadWords[k])
    ensures Warnings.BadWordStep(counts, sender, text, deleteOk, banOk, replyOk) == (counts, Warnings.NoBadWord)
  {
  }

  /** A message that contains a blocked word and is deleted always costs its sender one warning. */
  lemma BlockedWordCostsAWarning(counts: map<int, nat>, sender: int, text: string, k: nat, banOk: bool, replyOk: bool)
    requires k < |Warnings.BadWords| && Warnings.Includes(text, Warnings.BadWords[k])
    ensures var (c, outcome) := Warnings.BadWordStep(counts, sender, text, true, banOk, replyOk);
            && c - {sender} == counts - {sender}
            && (if Warnings.Count(counts, sender) + 1 >= Warnings.MaxWarnings && banOk then sender !in c
                else Warnings.Count(c, sender) == Warnings.Count(counts, sender) + 1)
  {
  }
}
