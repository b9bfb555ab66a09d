/**
 * The duration grammar of the temporary-mute command: one or more decimal
 * digits followed by one unit letter, s (1 second), m (60), h (3600) or
 * d (86400); and the checks `/tmute` makes before it restricts anybody.
 */
module Duration {
  import opened Common
  import opened Command

  /** The number of seconds a unit letter stands for. */
  function UnitSeconds(c: char): Option<nat>
  {
    match c
    case 's' => Some(1)
    case 'm' => Some(60)
    case 'h' => Some(3600)
    case 'd' => Some(86400)
    case _ => None
  }

  predicate IsUnit(c: char) { UnitSeconds(c).Some? }

  /** Zero or more decimal digits, then one unit letter, and nothing else. */
  predicate DigitsThenUnit(s: string)
  {
    |s| >= 1 && AllDigits(s[..|s| - 1], 10) && IsUnit(s[|s| - 1])
  }

  /** The whole string matches `^(\d+)([smhd])$`. */
  predicate IsDuration(s: string)
  {
    |s| >= 2 && DigitsThenUnit(s)
  }

  /** The states of the automaton that runs the pattern over the string. */
  datatype Scan = Start | InDigits | AfterUnit | Reject

  function Step(st: Scan, c: char): Scan
  {
    match st
    case Start => if IsDecimalDigit(c) then InDigits else Reject
    case InDigits => if IsDecimalDigit(c) then InDigits else if IsUnit(c) then AfterUnit else Reject
    case AfterUnit => Reject
    case Reject => Reject
  }

  function Run(st: Scan, s: string): Scan
    decreases |s|
  {
    if s == [] then st else Run(Step(st, s[0]), s[1..])
  }

  lemma {:induction false} RunRejects(s: string)
    ensures Run(Reject, s) == Reject
  {
    if s != [] { RunRejects(s[1..]); }
  }

  lemma {:induction false} RunInDigits(s: string)
    ensures Run(InDigits, s) == AfterUnit <==> DigitsThenUnit(s)
  {
    if s != [] {
      var c := s[0];
      if IsDecimalDigit(c) {
        RunInDigits(s[1..]);
        if |s| >= 2 {
          assert s[1..][..|s| - 2] == s[1..|s| - 1];
          assert s[..|s| - 1] == [c] + s[1..|s| - 1];
          assert AllDigits(s[..|s| - 1], 10) <==> AllDigits(s[1..|s| - 1], 10);
        } else {
          assert !IsUnit(c);
        }
      } else if IsUnit(c) {
        if |s| >= 2 {
          RunRejects(s[2..]);
          assert !AllDigits(s[..|s| - 1], 10) by { assert s[..|s| - 1][0] == c; }
        }
      } else {
        RunRejects(s[1..]);
      }
    }
  }

  /** The automaton accepts exactly the strings of the pattern. */
  lemma MatchesPattern(s: string)
    ensures Run(Start, s) == AfterUnit <==> IsDuration(s)
  {
    if s == [] {
    } else if IsDecimalDigit(s[0]) {
      RunInDigits(s[1..]);
      if |s| >= 2 {
        assert s[1..][..|s| - 2] == s[1..|s| - 1];
        assert s[..|s| - 1] == [s[0]] + s[1..|s| - 1];
        assert AllDigits(s[..|s| - 1], 10) <==> AllDigits(s[1..|s| - 1], 10);
      }
    } else {
      RunRejects(s[1..]);
    }
  }

  /**
   * `parseTime(s)`: the number of seconds `s` denotes, or None (JavaScript `null`)
   * when `s` does not match the pattern. The count is the decimal value of the
   * digits, which is what `parseInt` reads from them (ParseTimeIsParseInt).
   */
  function ParseTime(s: string): (r: Option<nat>)
    ensures r.Some? <==> IsDuration(s)
  {
    MatchesPattern(s);
    if Run(Start, s) != AfterUnit then None
    else Some(DigitsValue(s[..|s| - 1], 10) * UnitSeconds(s[|s| - 1]).value)
  }

  /** The count is read exactly as `parseInt(num)` reads the captured digits. */
  lemma ParseTimeIsParseInt(s: string)
    requires IsDuration(s)
    ensures ParseInt(s[..|s| - 1]).Some?
    ensures ParseTime(s) == Some(ParseInt(s[..|s| - 1]).value * UnitSeconds(s[|s| - 1]).value)
  {
    ParseIntOfDigits(s[..|s| - 1]);
  }

  /** Writing a count and a unit letter and parsing it back gives count times the unit. */
  lemma {:induction false} ParseTimeRoundTrip(n: nat, unit: char)
    requires IsUnit(unit)
    ensures ParseTime(Decimal(n) + [unit]) == Some(n * UnitSeconds(unit).value)
  {
    var s := Decimal(n) + [unit];
    assert s[..|s| - 1] == Decimal(n);
  }

  /** A well-formed duration is zero exactly when every digit is '0'. */
  lemma {:induction false} ZeroDuration(s: string)
    requires IsDuration(s)
    ensures ParseTime(s) == Some(0) <==> forall i :: 0 <= i < |s| - 1 ==> s[i] == '0'
  {
    ZeroDigits(s[..|s| - 1]);
    ZeroProduct(DigitsValue(s[..|s| - 1], 10), UnitSeconds(s[|s| - 1]).value);
  }

  lemma ZeroProduct(a: nat, b: nat)
    requires b >= 1
    ensures a * b == 0 <==> a == 0
  {
  }

  lemma {:induction false} ZeroDigits(z: string)
    requires AllDigits(z, 10)
    ensures DigitsValue(z, 10) == 0 <==> forall i :: 0 <= i < |z| ==> z[i] == '0'
  {
    if z != [] {
      var init := z[..|z| - 1];
      assert AllDigits(init, 10) by {
        forall i | 0 <= i < |init| ensures DigitValue(init[i], 10).Some? { assert init[i] == z[i]; }
      }
      ZeroDigits(init);
      assert (forall i :: 0 <= i < |z| ==> z[i] == '0') <==>
             (forall i :: 0 <= i < |init| ==> init[i] == '0') && z[|z| - 1] == '0' by {
        assert forall i :: 0 <= i < |init| ==> init[i] == z[i];
      }
    }
  }

  /** `parseTime` gives a number that `!duration` does not refuse: a match worth at least one second. */
  predicate ValidDuration(a: string)
  {
    ParseTime(a).Some? && ParseTime(a).value >= 1
  }

  /** What `/tmute <duration>` does, in the order the handler checks things. */
  datatype TmuteOutcome =
    | NotAdmin          // the sender is not an administrator
    | MissingDuration   // no token after the command (or an empty one)
    | BadDuration       // the token does not parse, or parses to zero seconds
    | NoTarget          // the command is not a reply to the member to mute
    | Muted(target: int, untilDate: int)  // the restrict call was made and succeeded
    | Failed            // the restrict call failed

  /**
   * `/tmute`: `text` is the command message, `target` the author of the message it
   * replies to, `nowMs` the clock in milliseconds and `restrictOk` the outcome of
   * the restrict call, which is made last and only once everything else is valid.
   */
  function Tmute(isAdmin: bool, text: string, target: Option<int>, nowMs: nat, restrictOk: bool): (r: TmuteOutcome)
    ensures !isAdmin ==> r == NotAdmin
    // the argument is checked before the target, and a bad one is refused whatever the target
    ensures isAdmin && (Arg(text, 1).None? || Arg(text, 1).value == "") ==> r == MissingDuration
    ensures isAdmin && Arg(text, 1).Some? && Arg(text, 1).value != "" && !ValidDuration(Arg(text, 1).value) ==>
      r == BadDuration
    // a valid argument reaches the target check, and with a target the restrict call
    ensures isAdmin && Arg(text, 1).Some? && ValidDuration(Arg(text, 1).value) ==>
      var d := ParseTime(Arg(text, 1).value).value;
      && (target.None? ==> r == NoTarget)
      && (target.Some? && restrictOk ==> r == Muted(target.value, nowMs / 1000 + d))
      && (target.Some? && !restrictOk ==> r == Failed)
  {
    if !isAdmin then NotAdmin
    else
      var arg := Arg(text, 1);
      if arg.None? || arg.value == "" then MissingDuration
      else
        var duration := ParseTime(arg.value);
        if duration.None? || duration.value == 0 then BadDuration
        else if target.None? then NoTarget
        else if restrictOk then Muted(target.value, nowMs / 1000 + duration.value)
        else Failed
  }

  /** A zero duration such as `0s` or `00m` is refused before the target is even looked at. */
  lemma ZeroDurationRejected(command: string, zeros: nat, unit: char, target: Option<int>, nowMs: nat, restrictOk: bool)
    requires ' ' !in command && IsUnit(unit) && zeros >= 1
    ensures Tmute(true, command + " " + (seq(zeros, _ => '0') + [unit]), target, nowMs, restrictOk) == BadDuration
  {
    var z := seq(zeros, _ => '0');
    assert forall i :: 0 <= i < |z| ==> z[i] == '0';
    var arg := z + [unit];
    assert arg[..|arg| - 1] == z;
    assert ' ' !in arg by {
      forall i | 0 <= i < |arg| ensures arg[i] != ' ' { if i < |z| { assert arg[i] == z[i]; } }
    }
    CommandArg(command, arg);
    assert AllDigits(z, 10) by {
      forall i | 0 <= i < |z| ensures DigitValue(z[i], 10).Some? { assert z[i] == '0'; }
    }
    assert IsDuration(arg);
    ZeroDuration(arg);
    assert ParseTime(arg) == Some(0);
  }

  /** A well-formed, non-zero duration mutes the replied-to member until now plus that many seconds. */
  lemma TmuteMutes(command: string, n: nat, unit: char, target: int, nowMs: nat)
    requires ' ' !in command && IsUnit(unit) && n >= 1
    ensures Tmute(true, command + " " + (Decimal(n) + [unit]), Some(target), nowMs, true)
         == Muted(target, nowMs / 1000 + n * UnitSeconds(unit).value)
  {
    var d := Decimal(n);
    var f := UnitSeconds(unit).value;
    DecimalArgHasNoSpace(n, unit);
    assert ' ' !in d + [unit];
    ParseTimeRoundTrip(n, unit);
    assert ParseTime(d + [unit]) == Some(n * f);
    PositiveProduct(n, f);
    assert n * f >= 1;
    MutesWith(command, Decimal(n) + [unit], n * UnitSeconds(unit).value, target, nowMs);
  }

  lemma MutesWith(command: string, arg: string, secs: nat, target: int, nowMs: nat)
    requires ' ' !in command && ' ' !in arg
    requires ParseTime(arg) == Some(secs) && secs >= 1
    ensures Tmute(true, command + " " + arg, Some(target), nowMs, true) == Muted(target, nowMs / 1000 + secs)
  {
    CommandArg(command, arg);
  }

  lemma DecimalArgHasNoSpace(n: nat, unit: char)
    requires IsUnit(unit)
    ensures ' ' !in Decimal(n) + [unit]
  {
    var d := Decimal(n);
    var arg := d + [unit];
    forall i | 0 <= i < |arg| ensures arg[i] != ' ' {
      if i < |d| { assert arg[i] == d[i]; assert DigitValue(d[i], 10).Some?; }
    }
  }

  lemma PositiveProduct(a: nat, b: nat)
    requires a >= 1 && b >= 1
    ensures a * b >= 1
  {
  }
}
