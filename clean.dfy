/**
 * `/clean [n]`: an administrator deletes the last `n` messages of the chat,
 * counting back from the command itself by message id. The argument is read
 * with `parseInt`; NaN and zero fall back to ten, and more than a hundred is
 * refused. Each single delete may fail silently; the model records which ids
 * are asked for.
 */
module Clean {
  import opened Common
  import opened Command

  /** The count used when the argument is missing, not a number or zero. */
  const DefaultCount: int := 10
  /** The largest count accepted. */
  const MaxCount: int := 100

  /** `parseInt(args[1]) || 10`. */
  function CleanCount(text: string): (n: int)
    ensures n != 0
    ensures Arg(text, 1).None? ==> n == DefaultCount
    ensures Arg(text, 1).Some? && ParseInt(Arg(text, 1).value).Some? && ParseInt(Arg(text, 1).value).value != 0 ==>
      n == ParseInt(Arg(text, 1).value).value
    ensures n != DefaultCount ==> Arg(text, 1).Some? && ParseInt(Arg(text, 1).value) == Some(n)
  {
    match Arg(text, 1)
    case None => DefaultCount
    case Some(a) =>
      match ParseInt(a)
      case None => DefaultCount
      case Some(v) => if v == 0 then DefaultCount else v
  }

  datatype CleanOutcome =
    | NotAdmin
    | TooMany(count: int)      // refused with a notice
    | ChatFailed               // looking up the chat failed: nothing is deleted
    | Deleted(ids: seq<int>)   // the ids a delete was sent for

  /**
   * The ids `messageId`, `messageId - 1`, ... for the `count` messages ending
   * with the command; none for a count below one.
   */
  method CleanIds(messageId: int, count: int) returns (ids: seq<int>)
    ensures |ids| == Max(count, 0)
    ensures forall i :: 0 <= i < |ids| ==> ids[i] == messageId - i
  {
    ids := [];
    var i := 0;
    while i < count
      invariant 0 <= i == |ids| <= Max(count, 0)
      invariant forall k :: 0 <= k < i ==> ids[k] == messageId - k
    {
      ids := ids + [messageId - i];
      i := i + 1;
    }
  }

  /** The ids asked for are exactly the `count` ids ending with the command, each once. */
  lemma CleanIdsAreTheLastMessages(messageId: int, count: int, ids: seq<int>)
    requires |ids| == Max(count, 0)
    requires forall i :: 0 <= i < |ids| ==> ids[i] == messageId - i
    ensures forall m :: m in ids <==> messageId - count < m <= messageId
    ensures forall i, j :: 0 <= i < j < |ids| ==> ids[i] > ids[j]
  {
    forall m | messageId - count < m <= messageId ensures m in ids {
      assert ids[messageId - m] == m;
    }
  }

  /** The `/clean` command with text `text`, sent as message `messageId`. */
  method CleanCommand(isAdmin: bool, text: string, messageId: int, chatOk: bool) returns (r: CleanOutcome)
    ensures !isAdmin ==> r == NotAdmin
    ensures isAdmin && CleanCount(text) > MaxCount ==> r == TooMany(CleanCount(text))
    ensures isAdmin && CleanCount(text) <= MaxCount && !chatOk ==> r == ChatFailed
    ensures isAdmin && CleanCount(text) <= MaxCount && chatOk ==>
      && r.Deleted?
      && |r.ids| == Max(CleanCount(text), 0)
      && (forall i :: 0 <= i < |r.ids| ==> r.ids[i] == messageId - i)
    ensures r.Deleted? ==>
      && isAdmin && chatOk
      && |r.ids| <= MaxCount
      && forall m :: m in r.ids <==> messageId - CleanCount(text) < m <= messageId
  {
    if !isAdmin {
      return NotAdmin;
    }
    var count := CleanCount(text);
    if count > MaxCount {
      return TooMany(count);
    }
    if !chatOk {
      return ChatFailed;
    }
    var ids := CleanIds(messageId, count);
    CleanIdsAreTheLastMessages(messageId, count, ids);
    r := Deleted(ids);
  }

  /** `/clean` with no argument deletes ten messages. */
  lemma CleanDefaultsToTen(command: string)
    requires ' ' !in command
    ensures CleanCount(command) == DefaultCount
  {
    SplitNoSpace(command);
  }

  /** `/clean 0` also deletes ten; `/clean <n>` for a numeral of 1 to 100 deletes `n`. */
  lemma CleanCountOfNumeral(command: string, n: nat)
    requires ' ' !in command
    ensures CleanCount(command + " " + Decimal(n)) == if n == 0 then DefaultCount else n
  {
    assert ' ' !in Decimal(n) by {
      assert forall i :: 0 <= i < |Decimal(n)| ==> IsDecimalDigit(Decimal(n)[i]);
    }
    CommandArg(command, Decimal(n));
    ParseIntOfDigits(Decimal(n));
  }

  /** `/clean -<n>` gives the count `-n`, which passes the limit and deletes nothing. */
  lemma CleanCountOfNegative(command: string, n: nat)
    requires ' ' !in command && n >= 1
    ensures CleanCount(command + " " + ("-" + Decimal(n))) == -(n as int)
  {
    var d := Decimal(n);
    var arg := "-" + d;
    assert ' ' !in arg by {
      assert forall i :: 0 <= i < |d| ==> IsDecimalDigit(d[i]);
      assert forall i :: 1 <= i < |arg| ==> arg[i] == d[i - 1];
    }
    CommandArg(command, arg);
    assert !HexPrefixed(d + "") by { assert d + "" == d; assert |d| >= 2 ==> IsDecimalDigit(d[1]); }
    ParseIntDecimal("", "-", d, "");
    assert "" + "-" + d + "" == arg;
  }
}
