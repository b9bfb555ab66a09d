# Group-moderation bot: a verified model of its state logic

The bot moderates a chat group and chats with its members through an AI
endpoint. Behind its message handlers sit a few small pieces of in-memory
state, and this project models each of them in Dafny, together with proofs
of what they guarantee:

- **`/tmute` and its duration argument** (`duration.dfy`, `command.dfy`):
  - `parseTime` reads `<digits><s|m|h|d>` as seconds.
  - The `/tmute` handler checks the admin, the argument, the duration and the target, in that order, before it restricts anybody. As registered, the handler is never reached, because the text handler registered before it takes every text message (see "## Behaviour of the code worth knowing").
  - The commands split their text on single spaces and read the second piece, sometimes through JavaScript's `parseInt`, which is modelled step by step (white space, sign, `0x` prefix, longest digit run, NaN).
- **Warnings** (`warnings.dfy`):
  - `/warn`, `/unwarn` and the blocklist check share a per-user counter.
  - At three warnings the user is banned. The counter is deleted only once the ban call has returned.
- **Daily check-in** (`checkin.dfy`):
  - `/sign` runs on a lazily created per-user record: once per calendar day, with a yesterday-based streak capped at seven, a base reward of 10 to 50 and a streak bonus.
  - The streak milestones 3, 7, 14 and 30 are matched by equality.
- **Conversation memory** (`memory.dfy`):
  - Each user has a history of at most ten question/answer exchanges.
  - A sweep forgets sessions idle for more than thirty minutes.
  - The "regenerate" button replaces the last exchange, and the "end" button forgets the session. Only the owner may end it.
- **Join verification** (`verification.dfy`):
  - New members are muted and given a button and a 300-second timer.
  - The member's own tap or the `/verify` handler (for an admin) settles the challenge. Otherwise the timer removes the member. As registered, the `/verify` handler is never reached, for the same reason as `/tmute`.
- **The text handler** (`handler.dfy`): the blocklist check runs first, and only messages it does not punish reach the AI reply.
- **The anti-flood middleware of the entry point** (`throttle.dfy`): after a pause, of six messages each sent less than a second after the one before, the sixth is deleted; each quick message counts, and the fifth quick one in a row is suppressed.
- **The `/clean` handler** (`clean.dfy`): deletes the last *n* messages by id, ten by default and at most a hundred. As registered, it too is never reached, for the same reason as `/tmute`.

Every chat-platform call that comes before a handler's last change of state
is modelled as an input saying whether it succeeded, so each contract also
says what has already changed when such a call fails. The calls a handler
makes after its last change of state (replies, notices, edits) are not
modelled, and "## Left out" lists the main ones. Of those, only the milestone
replies of `/sign` can affect the state, as "## Behaviour of the code worth
knowing" explains. Whether the sender is an admin is an input. So are the clock (`now` in milliseconds, calendar
days as whole numbers), the random base reward and the AI's answer (None when
the call failed).

Each stateful piece has two parts:
- a pure step function on values, whose contract and lemmas state the behaviour;
- a class over maps whose methods update the fields as the handlers do and are proved to agree with the step function.

## Model

| member | source | states |
|---|---|---|
| Command.Split | src/bot.js:852 | `text.split(" ")` gives at least one piece, no piece contains a space, and joining the pieces with single spaces gives the text back |
| Command.SplitJoin | src/bot.js:852 | splitting undoes joining: space-free pieces come back unchanged |
| Command.Arg | src/bot.js:852-853 | `args[i]` is never a string with a space; `args[0]` always exists; `args[1]` exists only when the text contains a space |
| Command.CommandArg | src/bot.js:852-853 | for `<command> <argument>` with no spaces inside, `args[1]` is the argument |
| Command.ParseIntDecimal | src/bot.js:815-816 | `parseInt` of white space, an optional sign, decimal digits and any text not starting with a digit (and not `0x` after the sign) is the signed value of the digits; the rest is ignored |
| Command.ParseIntHex | src/bot.js:815-816 | after white space and an optional sign, `0x` or `0X` followed by hexadecimal digits reads them in base 16, ignoring what follows |
| Command.ParseIntHexNaN | src/bot.js:815-816 | `0x` or `0X` with no hexadecimal digit after it gives NaN |
| Command.ParseIntNaN | src/bot.js:815-816 | white space and an optional sign followed by nothing or by a character that is no digit, sign or space give NaN |
| Command.ParseIntOfDigits | src/bot.js:116 | `parseInt` of a non-empty run of decimal digits is the decimal value of the run |
| Command.LeadingDigitsIsLongestRun | src/bot.js:116 | the digits `parseInt` reads are a prefix of the text that stops at the first character that is not a digit |
| Command.SkipSpaceDropsSpace | src/bot.js:116 | the leading white space `parseInt` skips is a prefix of white space, and what remains does not start with white space |
| Duration.MatchesPattern | src/bot.js:112-113 | the automaton run over the string accepts exactly the strings matching `^(\d+)([smhd])$` |
| Duration.ParseTime | src/bot.js:104-117 | `parseTime` returns a number exactly when the whole string matches the pattern, and null otherwise |
| Duration.ParseTimeIsParseInt | src/bot.js:115-116 | on a match, the result is `parseInt(digits)` times the seconds of the unit letter |
| Duration.ParseTimeRoundTrip | src/bot.js:104-117 | parsing the decimal numeral of `n` followed by a unit letter gives `n` times 1, 60, 3600 or 86400 |
| Duration.ZeroDuration | src/bot.js:116 | a matching string parses to zero exactly when all its digits are `0` |
| Duration.Tmute | src/bot.js:847-892 | a non-admin is refused; for an admin, a missing or empty argument is reported as missing, an argument that does not parse to at least one second as malformed, then a missing target as such; with all of them present the target is muted until `floor(now/1000)` plus the duration exactly when the restrict call succeeds |
| Duration.ZeroDurationRejected | src/bot.js:859-862 | `0s`, `00m` and the like are refused as malformed whatever the target and the restrict outcome |
| Duration.TmuteMutes | src/bot.js:869-871 | `/tmute <n><unit>` with `n >= 1`, replying to a member, mutes that member until now plus `n` units |
| Warnings.Includes | src/bot.js:479 | `text.includes(w)` holds exactly when `w` occurs in `text` at some index |
| Warnings.HasBadWord | src/bot.js:479 | the blocklist test holds exactly when some listed word is included in the text |
| Warnings.Escalate | src/bot.js:351-356 | one warning more than before (absent counts as 0); a ban exactly when the new count reaches 3 and the ban call succeeds; the entry is deleted after a ban and holds the new count otherwise; no other user's count changes |
| Warnings.RepeatedWarnings | src/bot.js:351-356 | from below the limit, `k` warnings with successful bans leave `(c+k) mod 3` warnings and cause `(c+k) div 3` bans; others unchanged |
| Warnings.BanFailureKeepsCount | src/bot.js:353-360 | when the ban call fails at the limit, the count is stored and stays at 3 or more |
| Warnings.WarnStep | src/bot.js:340-366 | a non-admin or a command without a target changes nothing; otherwise the counters change as Escalate says; the progress notice is below the limit, the ban-failure notice at or above it |
| Warnings.BadWordStep | src/bot.js:477-496 | a clean text changes nothing; a failed delete changes nothing; otherwise the sender is warned (escalated); the message counts as handled only when delete, the needed ban and the notice all succeed, banned exactly at the limit |
| Warnings.CountAfterUpdate | src/bot.js:132-148 | storing a count for `u` changes what is read back for `u` only; deleting `u`'s entry makes `u` read as 0 and changes no one else |
| Warnings.AddThenRemove | src/bot.js:137-148 | one warning added and then one removed leaves every user's count as it was |
| Warnings.WarningStore.Get | src/bot.js:132-134 | a user without an entry has 0 warnings; otherwise the stored count |
| Warnings.WarningStore.AddWarning | src/bot.js:137-141 | stores and returns the previous count plus one, absent counting as 0 |
| Warnings.WarningStore.RemoveWarning | src/bot.js:144-148 | stores and returns `max(0, count - 1)`, creating an entry of 0 for an absent user |
| Warnings.WarningStore.Warn | src/bot.js:340-366 | the new counter map and outcome are those of WarnStep |
| Warnings.WarningStore.Unwarn | src/bot.js:369-384 | refused commands change nothing; otherwise the target's count becomes `max(0, count - 1)` |
| Warnings.WarningStore.CheckText | src/bot.js:477-496 | the new counter map and outcome are those of BadWordStep |
| CheckIn.NextStreak | src/bot.js:189-195 | the new streak is between 1 and 7; it exceeds 1 only when the last check-in was yesterday, and then it is the old streak plus one below the cap |
| CheckIn.MilestoneBonusValues | src/bot.js:251-268 | the milestone loop pays 50 for streak 3, 100 for streak 7 and nothing for any other streak of at most 7 |
| CheckIn.Checked | src/bot.js:189-206 | a check-in sets the last day to today, counts one more check-in, sets the streak as NextStreak says and adds base plus 20 when the streak exceeds 1; the gain is between 10 and 70 |
| CheckIn.SignStep | src/bot.js:168-240 | a check-in on the day already recorded changes nothing; otherwise the record is Checked plus the milestone bonus when the reply was sent; points never decrease; well-formed records stay well formed |
| CheckIn.SameDayIsIdempotent | src/bot.js:178-187 | a second check-in on the same day changes no field, whatever its reward or reply outcome |
| CheckIn.ConsecutiveDays | src/bot.js:189-206 | `n` check-ins on consecutive days starting a fresh streak leave streak `min(n, 7)`, `n` more total check-ins, the last day recorded and at least `10n` more points |
| CheckIn.ContinuedDays | src/bot.js:189-206 | continuing a streak `s` for `n` consecutive days leaves streak `min(s + n, 7)` with the same counters as above |
| CheckIn.GapResetsStreak | src/bot.js:191-195 | a check-in two or more days after the last one resets the streak to 1 |
| CheckIn.CapRepaysSevenDayBonus | src/bot.js:251-268 | at the cap, every further consecutive check-in keeps streak 7 and pays base + 20 + 100 again |
| CheckIn.LongMilestonesNeverPay | src/bot.js:251-268 | on a well-formed record a check-in gains at most 50 + 20 + 100 points: the 14- and 30-day bonuses are never paid |
| CheckIn.Ledger.GetUserData | src/bot.js:154-165 | returns the stored record or the fresh one (0 points, no last day, streak 0, 0 check-ins), storing the fresh one |
| CheckIn.Ledger.CheckSignMilestones | src/bot.js:243-280 | the loop adds to the user's points the bonus of every milestone equal to the streak, and changes nothing else |
| CheckIn.Ledger.Sign | src/bot.js:168-240 | outside a group nothing changes; otherwise the stored record and outcome are those of SignStep on the user's record; records stay well formed |
| Memory.Appended | src/bot.js:90-98 | the stored history has `min(len + 2, 20)` entries and is the tail of the old history followed by the new question and answer |
| Memory.AppendedEndsWithExchange | src/bot.js:90-98 | the last two entries are the new question and answer |
| Memory.AppendedWellFormed | src/bot.js:90-98 | a history of whole alternating user/assistant exchanges of at most 20 entries stays one |
| Memory.FullHistoryDropsOldest | src/bot.js:96-98 | on a full history, storing an exchange drops exactly the oldest exchange |
| Memory.Swept | src/bot.js:65-72 | a session survives the sweep exactly when `now - lastInteraction <= 30 min`, unchanged |
| Memory.SweepIsIdempotent | src/bot.js:65-72 | a second sweep at the same time removes nothing more |
| Memory.Regenerated | src/bot.js:588-597 | regenerate refuses below two entries and otherwise removes exactly the last two, keeping whole exchanges |
| Memory.RegenerateReplacesLastExchange | src/bot.js:597-630 | removing the last exchange and storing the new answer replaces exactly the last exchange, even on a full history |
| Memory.RegenerateStep | src/bot.js:580-644 | below two entries, or when the callback answer or typing notice fails, nothing changes; otherwise the last exchange is removed, and that removal stays when the question or the AI answer is missing; an answer is given exactly when everything succeeded |
| Memory.RegenerateStepWellFormed | src/bot.js:580-644 | on whole exchanges, regenerate keeps whole exchanges, and a successful one leaves the old history without its last exchange, followed by the question and the new answer, stamped now |
| Memory.SessionStore.GetUserSession | src/bot.js:75-85 | returns the stored session or a new empty one stamped now, storing the new one |
| Memory.SessionStore.UpdateUserSession | src/bot.js:88-101 | the user's session becomes Appended of its history, stamped now; the others are unchanged |
| Memory.SessionStore.Converse | src/bot.js:498-556 | the session is created first; the exchange is stored only when the typing notice and the AI call succeeded |
| Memory.SessionStore.Sweep | src/bot.js:65-72 | the loop leaves exactly the sessions Swept keeps |
| Memory.SessionStore.Regenerate | src/bot.js:580-644 | the sessions and outcome are those of RegenerateStep on the clicker's session |
| Memory.SessionStore.End | src/bot.js:647-657 | the session is deleted exactly when the clicker owns it; otherwise nothing changes |
| Verification.JoinAsWritten | src/bot.js:664-712 | nothing changes when the restrict or the reply fails; otherwise a new entry and a timer due in 300 s are stored, with any earlier timer of that member left armed |
| Verification.Join | src/bot.js:664-712 | as JoinAsWritten, but the earlier timer of that member is cleared first |
| Verification.JoinKeepsTimersMatch | src/bot.js:689-708 | with the earlier timer cleared, every armed timer is the timer of its member's current challenge |
| Verification.JoinLeavesOneTimer | src/bot.js:689-708 | after the corrected join, the member has exactly one armed timer, due 300 s after the join, and an entry with the new message |
| Verification.JoinTwiceAsWrittenRemovesEarly | src/bot.js:689-708 | joining at 0 s and again at 100 s as written: the first timer fires at 300 s, before the second challenge's 400 s, and removes the member and the second challenge |
| Verification.JoinTwiceKeepsSecondChallenge | src/bot.js:689-708 | with the corrected join, the first timer is no longer armed and firing it changes nothing |
| Verification.Fire | src/bot.js:689-702 | a fired timer is disarmed; it acts only when the member still has an entry; the entry is removed exactly when ban, unban and delete all succeed, and the deleted message is that entry's |
| Verification.FireKeepsTimersMatch | src/bot.js:689-702 | firing keeps every armed timer tied to its member's current challenge |
| Verification.FireRemovesOwnChallenge | src/bot.js:689-702 | while timers match their challenges, an armed timer always finds an entry and removes only the challenge it was armed for |
| Verification.Tap | src/bot.js:716-771 | a tap by another member, or with no entry, changes nothing; a valid tap clears the timer and removes the entry; success is reported exactly when the restrict and edit calls succeed |
| Verification.TapSettlesBeforeCalls | src/bot.js:735-747 | after a valid tap the entry and its timer are gone whatever the later calls do |
| Verification.TapKeepsTimersMatch | src/bot.js:716-771 | a tap keeps every armed timer tied to its member's current challenge |
| Verification.ManualVerify | src/bot.js:774-807 | a non-admin, a missing target or a failed restrict changes nothing; otherwise the target's entry and timer are removed |
| Verification.ManualVerifyKeepsTimersMatch | src/bot.js:774-807 | `/verify` keeps every armed timer tied to its member's current challenge |
| Verification.JoinKeepsIdsFresh | src/bot.js:664-712 | both joins keep every timer id below the next one |
| Verification.JoinAsWrittenFirstKeepsTimersMatch | src/bot.js:664-712 | for a member with no entry yet, the join as written is the corrected one and keeps every armed timer tied to its member's challenge |
| Verification.Verifier.OnJoinAsWritten | src/bot.js:664-712 | the fields become those of JoinAsWritten; timer ids stay fresh; timers stay matched when the member had no entry |
| Verification.Verifier.OnJoin | src/bot.js:664-712 | the fields become those of Join; timer ids stay fresh; matched timers stay matched |
| Verification.Verifier.OnTimeout | src/bot.js:689-702 | the fields and outcome are those of Fire; timer ids stay fresh; matched timers stay matched |
| Verification.Verifier.OnTap | src/bot.js:716-771 | the fields and outcome are those of Tap; timer ids stay fresh; matched timers stay matched |
| Verification.Verifier.OnVerify | src/bot.js:774-807 | the fields and outcome are those of ManualVerify; timer ids stay fresh; matched timers stay matched |
| Throttle.Step | bot.js:42-65 | a message is suppressed exactly when it comes less than 1000 ms after the last passed one and brings the count to 5; a quick passed message increments the count and a slow one resets it; a passed message sets the last time to now and a suppressed one keeps it; suppression resets the count exactly when delete and notice succeed, else the count stays at 5 or more; with both succeeding the count stays at most 4 |
| Throttle.QuickBurst | bot.js:44-58 | with `c` quick messages counted, the next `5 - c` messages within a second all pass but the last, which is suppressed, and the count restarts at 0 |
| Throttle.SixthQuickMessageSuppressed | bot.js:44-61 | six messages within a second after a pause: five pass and the sixth is suppressed |
| Throttle.ChatSession.constructor | bot.js:11-18 | a fresh session is not admin, has no warnings, spam count 0 and last message time 0 |
| Throttle.ChatSession.OnMessage | bot.js:42-65 | the count, the last time and whether the next handler runs are those of Step; the other fields are unchanged |
| Clean.CleanCount | src/bot.js:815-816 | the count is `parseInt(args[1])` unless that is missing, NaN or zero, when it is 10 |
| Clean.CleanIds | src/bot.js:827-830 | the loop asks for `max(count, 0)` ids, the `i`-th being `messageId - i` |
| Clean.CleanIdsAreTheLastMessages | src/bot.js:827-830 | those ids are exactly the ids in `(messageId - count, messageId]`, in decreasing order |
| Clean.CleanCommand | src/bot.js:810-844 | non-admins are refused; counts above 100 are refused; a failed chat lookup deletes nothing; otherwise deletes are sent for `max(count, 0)` ids, the `i`-th being `messageId - i`: at most 100, exactly the last `count` ids |
| Clean.CleanDefaultsToTen | src/bot.js:815-816 | `/clean` without an argument deletes ten messages |
| Clean.CleanCountOfNumeral | src/bot.js:815-816 | `/clean n` for a numeral `n` deletes `n` messages, and ten for `0` |
| Clean.CleanCountOfNegative | src/bot.js:815-818 | `/clean -n` gives the count `-n`: it passes the check against 100, and the loop then asks for no deletes |
| TextHandler.OnText | src/bot.js:477-577 | the warnings change as BadWordStep says; a punished message leaves the memory untouched; any other message goes on to the chat, which creates the session and stores the exchange only when the typing notice and the AI call succeed |
| TextHandler.CleanTextKeepsWarnings | src/bot.js:479-480 | a text containing no blocked word changes no warning count |
| TextHandler.BlockedWordCostsAWarning | src/bot.js:479-490 | a deleted message containing a blocked word costs its sender exactly one warning, or a ban at the limit; no one else's count changes |

## Findings

| source | as written | input that shows it | evidently intended | confidence | as-written member | corrected member |
|---|---|---|---|---|---|---|
| src/bot.js:689-708 | a second join of the same member overwrites the entry in `pendingVerifications` without clearing the earlier entry's timer | member 7 joins at 0 s and again at 100 s; the first timer fires at 300 s, finds the new entry, removes the member and deletes the new challenge 100 s before its deadline | clear the earlier timer before arming the new one, so each timer only ends its own challenge | not executed | Verification.JoinTwiceAsWrittenRemovesEarly | Verification.JoinKeepsTimersMatch |

The verifier class has both joins: `Verification.Verifier.OnJoinAsWritten` follows the handler as written, and `Verification.Verifier.OnJoin` is the corrected join, under which armed timers provably stay tied to their own challenges.

## Behaviour of the code worth knowing

- The streak is capped at seven, so the 100-point seven-day bonus is paid again on every consecutive day at the cap, and the 14- and 30-day bonuses are never paid (`CheckIn.CapRepaysSevenDayBonus`, `CheckIn.LongMilestonesNeverPay`).
- The cumulative milestones (7, 30, 100, 365 check-ins) only send messages and pay nothing (src/bot.js:270-278).
- The text handler (src/bot.js:477) is registered before the `/verify`, `/clean` and `/tmute` commands (src/bot.js:774, 810, 847) and never passes a message on, so those three commands are shadowed: their text goes through the blocklist test and on to the AI reply, and their own handlers never run. The commands registered before it (`/sign`, `/warn`, `/unwarn` and the others) are reached.
- `checkSignMilestones` runs without `await` or a catch (src/bot.js:239). A failed milestone reply (src/bot.js:262, 273) is an unhandled rejection, which by Node's default ends the process and loses all state (warnings, check-in records, sessions, pending verifications). This is not modelled: the model treats those replies like the other calls made after the last change of state.
- The verification timeout deletes its entry only after the ban, unban and delete calls have all returned, and keeps the entry when any of them fails (`Verification.Fire`).

## Left out

- Duration.Tmute: each handler is modelled as if it were reached; as registered, src/bot.js:477 takes every text message first, so `/tmute` (src/bot.js:847) never runs.
- Verification.ManualVerify: modelled as if its handler were reached; as registered, src/bot.js:477 takes every text message first, so `/verify` (src/bot.js:774) never runs.
- Verification.Verifier.OnVerify: modelled as if its handler were reached, for the same reason as Verification.ManualVerify.
- Clean.CleanCommand: modelled as if its handler were reached; as registered, src/bot.js:477 takes every text message first, so `/clean` (src/bot.js:810) never runs.
- The routing of updates to handlers is not modelled: each handler runs as if it were the one chosen.
- The chat-platform calls that come before a change of state (restrict, ban, unban, delete, the join challenge, typing notice, chat lookup) and the admin lookup behind `isAdmin` are inputs: their outcome is a parameter. Message texts and keyboards are not modelled.
- The calls made after a handler's last change of state are not modelled at all, for example: `/sign`'s refusal and same-day reply (src/bot.js:170, 183), the milestone replies (src/bot.js:262, 273), the AI reply and the error reply of the text handler (src/bot.js:558, 573), the refusal answers of the buttons (src/bot.js:586, 639, 652, 721, 729), the `/warn` and `/unwarn` replies (src/bot.js:357, 362, 381), the `/tmute` confirmation (src/bot.js:888), the timeout notice (src/bot.js:697), the tap's answer-callback (src/bot.js:760), regenerate's message edit (src/bot.js:633), the end button's three calls (src/bot.js:658-660), `/verify`'s reply (src/bot.js:803), and `/clean`'s notice (src/bot.js:834). Apart from the milestone replies, none of them can change the modelled state. `/clean`'s per-id deletes (src/bot.js:830) are modelled only as the ids asked for: each fails silently and its outcome is not modelled.
- The AI completion requests and their JSON handling (src/bot.js:500-549, 599-627) are left out. The answer is an input, None when the call failed. The trimming of the reply is not modelled.
- `setTimeout`/`setInterval` scheduling is left out. The sweep and the timer callback are steps the caller invokes. Concurrency between handlers and the awaits inside them is not modelled: each handler runs to completion as one step.
- Dates are left out. The calendar day is a whole number and "yesterday" is the day before, so daylight-saving shifts of the `today - 86400000` arithmetic are not modelled. The clock is an input.
- `Math.random` is left out. The base reward is an input between 10 and 50.
- JavaScript numbers are modelled as unbounded integers. Precision loss of `parseInt` above 2^53 is not modelled. No fractional value ever arises: `parseInt` stops at the first character that is not a digit, so `"1.5"` reads as 1.
- The session key of the entry point's middleware is not part of this model: it is chosen by the session plugin, as is the registration order that decides whether the throttle runs. The throttle step is modelled on one session.
- The commands that are only platform wrappers are not modelled: `/ban`, `/mute`, `/unmute`, `/del`, the help and points views, and the rules text.
- handlers/admin.js, handlers/ai.js, the unused game configuration and the health-check server are not part of this model.
- Verification.Verifier.OnJoin: uses the corrected `Verification.Join`, which clears an earlier timer of the member; the handler as written is `Verification.Verifier.OnJoinAsWritten`, which keeps timer ids fresh but not timers matched to their challenges once a member joins twice.
- Verification.Tap: the button's user id is taken as an integer. Reading it with `parseInt` from the digits of the callback data is covered by `Command.ParseIntOfDigits` but not connected here.
- Memory.SessionStore.Regenerate: the clicker's own session is used whichever message the button belongs to, as in the code. A question text that is not a string is treated like a missing one.
