/**
 * The daily check-in (`/sign`) ledger. Each user has a record created on first
 * use; a check-in is accepted once per calendar day, extends the streak when
 * the previous one was exactly yesterday (capped at seven days) and pays a
 * base reward plus a streak bonus. Reaching streak 3 or 7 pays extra points.
 * Days are whole numbers (the local-midnight timestamp divided into days);
 * the random base reward is an input between 10 and 50.
 */
module CheckIn {
  import opened Common

  const DailyMin: nat := 10
  const DailyMax: nat := 50
  /** Paid on top of the base reward whenever the streak is longer than one day. */
  const StreakBonus: nat := 20
  const MaxStreakDays: nat := 7

  /** (streak length, bonus points), in the order the milestone loop visits them. */
  const StreakMilestones: seq<(nat, nat)> := [(3, 50), (7, 100), (14, 200), (30, 500)]

  /** One entry of `userDatabase`. */
  datatype UserData = UserData(
    points: nat,
    lastSign: Option<int>,
    signStreak: nat,
    totalSigns: nat,
    lastChecked: Option<int>)

  /** The record `getUserData` creates for a user it has not seen. */
  const NewUser: UserData := UserData(0, None, 0, 0, None)

  /** What every record reachable from NewUser through check-ins satisfies. */
  predicate WellFormed(d: UserData)
  {
    && d.signStreak <= MaxStreakDays
    && d.signStreak <= d.totalSigns
    && (d.totalSigns == 0 <==> d.lastSign.None?)
    && (d.totalSigns > 0 ==> d.signStreak >= 1)
  }

  /** The streak after a check-in on `today`. */
  function NextStreak(d: UserData, today: int): (s: nat)
    ensures 1 <= s <= MaxStreakDays
    ensures s > 1 ==> d.lastSign == Some(today - 1)
    ensures d.lastSign != Some(today - 1) ==> s == 1
    ensures d.lastSign == Some(today - 1) && d.signStreak < MaxStreakDays ==> s == d.signStreak + 1
  {
    if d.lastSign == Some(today - 1) then Min(d.signStreak + 1, MaxStreakDays) else 1
  }

  /** Sum of the bonuses of the milestones in `table` whose streak length is `streak`. */
  function TableBonus(table: seq<(nat, nat)>, streak: nat): nat
  {
    if table == [] then 0
    else
      var last := table[|table| - 1];
      TableBonus(table[..|table| - 1], streak) + (if last.0 == streak then last.1 else 0)
  }

  /** What `checkSignMilestones` adds to the points of a user whose streak is `streak`. */
  function MilestoneBonus(streak: nat): nat
  {
    TableBonus(StreakMilestones, streak)
  }

  /**
   * Milestones are matched by equality: streak 3 pays 50, streak 7 pays 100, and
   * since the streak never exceeds seven the 14- and 30-day entries never pay.
   */
  lemma MilestoneBonusValues(streak: nat)
    requires streak <= MaxStreakDays
    ensures MilestoneBonus(streak) == if streak == 3 then 50 else if streak == 7 then 100 else 0
  {
    var t := StreakMilestones;
    var t0: seq<(nat, nat)> := [];
    assert t[..3][..2] == t[..2] && t[..2][..1] == t[..1] && t[..1][..0] == t0;
    assert TableBonus(t[..1], streak) == if streak == 3 then 50 else 0;
    assert TableBonus(t[..2], streak) == TableBonus(t[..1], streak) + if streak == 7 then 100 else 0;
    assert TableBonus(t[..3], streak) == TableBonus(t[..2], streak);
    assert t[..4] == t;
  }

  /**
   * The record after an accepted check-in on `today` with base reward `base`
   * (before any milestone bonus): lines 189-206 of the handler.
   */
  function Checked(d: UserData, today: int, base: nat): (r: UserData)
    requires d.lastSign != Some(today)
    requires DailyMin <= base <= DailyMax
    ensures r.lastSign == Some(today) && r.totalSigns == d.totalSigns + 1
    ensures r.signStreak == NextStreak(d, today)
    ensures r.points == d.points + base + (if r.signStreak > 1 then StreakBonus else 0)
    ensures d.points + DailyMin <= r.points <= d.points + DailyMax + StreakBonus
    ensures r.lastChecked == d.lastChecked
  {
    var streak := NextStreak(d, today);
    var total := base + if streak > 1 then StreakBonus else 0;
    d.(signStreak := streak, points := d.points + total, lastSign := Some(today), totalSigns := d.totalSigns + 1)
  }

  datatype SignOutcome =
    | NotInGroup
    | AlreadySigned
    | Signed(reward: nat, streak: nat)   // reward = base + streak bonus (milestones not included)

  /**
   * The `/sign` handler's effect on the caller's record `d` (the fresh record if
   * there was none). The milestone bonus is paid only when the reply announcing
   * the check-in was sent (`replyOk`): a failed reply ends the handler first.
   */
  function SignStep(d: UserData, today: int, base: nat, replyOk: bool): (r: (UserData, SignOutcome))
    requires DailyMin <= base <= DailyMax
    ensures d.lastSign == Some(today) ==> r == (d, AlreadySigned)
    ensures d.lastSign != Some(today) ==>
      && r.1.Signed?
      && var c := Checked(d, today, base);
      && r.0 == c.(points := c.points + if replyOk then MilestoneBonus(c.signStreak) else 0)
      && r.1 == Signed(c.points - d.points, c.signStreak)
    ensures r.0.points >= d.points
    ensures WellFormed(d) ==> WellFormed(r.0)
  {
    if d.lastSign == Some(today) then (d, AlreadySigned)
    else
      var c := Checked(d, today, base);
      var bonus := if replyOk then MilestoneBonus(c.signStreak) else 0;
      (c.(points := c.points + bonus), Signed(c.points - d.points, c.signStreak))
  }

  /** A second check-in on the same day changes nothing, whatever its inputs. */
  lemma SameDayIsIdempotent(d: UserData, today: int, b1: nat, b2: nat, ok1: bool, ok2: bool)
    requires DailyMin <= b1 <= DailyMax && DailyMin <= b2 <= DailyMax
    ensures var first := SignStep(d, today, b1, ok1).0;
            SignStep(first, today, b2, ok2) == (first, AlreadySigned)
  {
  }

  /** Check-ins on `|bases|` consecutive days starting on day `start`, every reply succeeding. */
  function SignDays(d: UserData, start: int, bases: seq<nat>): UserData
    requires forall i :: 0 <= i < |bases| ==> DailyMin <= bases[i] <= DailyMax
    decreases |bases|
  {
    if bases == [] then d
    else SignDays(SignStep(d, start, bases[0], true).0, start + 1, bases[1..])
  }

  /**
   * `n >= 1` check-ins on consecutive days, the first not following a check-in
   * the day before, leave the streak at `min(n, 7)`, count `n` more check-ins,
   * end on the last day and pay at least `10 n` points.
   */
  lemma {:induction false} ConsecutiveDays(d: UserData, start: int, bases: seq<nat>)
    requires forall i :: 0 <= i < |bases| ==> DailyMin <= bases[i] <= DailyMax
    requires |bases| >= 1
    requires d.lastSign != Some(start - 1) && d.lastSign != Some(start)
    ensures SignDays(d, start, bases).signStreak == Min(|bases|, MaxStreakDays)
    ensures SignDays(d, start, bases).totalSigns == d.totalSigns + |bases|
    ensures SignDays(d, start, bases).lastSign == Some(start + |bases| - 1)
    ensures SignDays(d, start, bases).points >= d.points + DailyMin * |bases|
  {
    var d1 := SignStep(d, start, bases[0], true).0;
    assert d1.signStreak == 1;
    if |bases| > 1 {
      ContinuedDays(d1, start + 1, bases[1..]);
    }
  }

  /** The inductive step: continuing a streak of `s` by `|bases|` more consecutive days. */
  lemma {:induction false} ContinuedDays(d: UserData, start: int, bases: seq<nat>)
    requires forall i :: 0 <= i < |bases| ==> DailyMin <= bases[i] <= DailyMax
    requires d.lastSign == Some(start - 1) && 1 <= d.signStreak <= MaxStreakDays
    ensures SignDays(d, start, bases).signStreak == Min(d.signStreak + |bases|, MaxStreakDays)
    ensures SignDays(d, start, bases).totalSigns == d.totalSigns + |bases|
    ensures SignDays(d, start, bases).lastSign == Some(start + |bases| - 1)
    ensures SignDays(d, start, bases).points >= d.points + DailyMin * |bases|
    decreases |bases|
  {
    if bases != [] {
      var d1 := SignStep(d, start, bases[0], true).0;
      assert d1.signStreak == Min(d.signStreak + 1, MaxStreakDays);
      ContinuedDays(d1, start + 1, bases[1..]);
    }
  }

  /** Missing a day (or more) starts the streak again at one. */
  lemma GapResetsStreak(d: UserData, today: int, base: nat, replyOk: bool)
    requires DailyMin <= base <= DailyMax
    requires d.lastSign.Some? && d.lastSign.value < today - 1
    ensures SignStep(d, today, base, replyOk).0.signStreak == 1
  {
  }

  /**
   * At the cap the streak stays at seven, so every further consecutive day pays
   * the seven-day milestone again: base + 20 + 100 points.
   */
  lemma {:induction false} CapRepaysSevenDayBonus(d: UserData, today: int, base: nat)
    requires DailyMin <= base <= DailyMax
    requires d.signStreak == MaxStreakDays && d.lastSign == Some(today - 1)
    ensures SignStep(d, today, base, true).0.signStreak == MaxStreakDays
    ensures SignStep(d, today, base, true).0.points == d.points + base + StreakBonus + 100
  {
    MilestoneBonusValues(MaxStreakDays);
  }

  /** The 14- and 30-day milestone bonuses are never paid to a well-formed record. */
  lemma {:induction false} LongMilestonesNeverPay(d: UserData, today: int, base: nat, replyOk: bool)
    requires DailyMin <= base <= DailyMax && WellFormed(d)
    ensures var r := SignStep(d, today, base, replyOk).0;
            r.points - d.points <= DailyMax + StreakBonus + 100
  {
    if d.lastSign != Some(today) {
      var c := Checked(d, today, base);
      MilestoneBonusValues(c.signStreak);
    }
  }

  /** The `userDatabase` map and the `/sign` handler that changes it. */
  class Ledger {
    var users: map<int, UserData>

    ghost predicate Valid()
      reads this
    {
      forall u :: u in users ==> WellFormed(users[u])
    }

    constructor ()
      ensures Valid() && users == map[]
    {
      users := map[];
    }

    /** The record of `u` as `getUserData` would return it, without creating it. */
    function Record(u: int): UserData
      reads this
    {
      if u in users then users[u] else NewUser
    }

    /** `getUserData(userId)`: creates the record on first use. */
    method GetUserData(u: int) returns (d: UserData)
      requires Valid()
      modifies this
      ensures Valid()
      ensures users == old(users)[u := old(Record(u))] && d == old(Record(u))
    {
      if u !in users {
        users := users[u := NewUser];
      }
      d := users[u];
    }

    /**
     * `checkSignMilestones`: the loop over the streak milestones, adding the
     * bonus of every entry equal to the current streak. (Its second loop, over
     * the cumulative milestones, only sends messages.)
     */
    method CheckSignMilestones(u: int)
      requires u in users
      modifies this
      ensures users == old(users)[u := old(users[u]).(points := old(users[u]).points + MilestoneBonus(old(users[u]).signStreak))]
    {
      ghost var d0 := users[u];
      var i := 0;
      while i < |StreakMilestones|
        invariant 0 <= i <= |StreakMilestones|
        invariant users == old(users)[u := d0.(points := d0.points + TableBonus(StreakMilestones[..i], d0.signStreak))]
      {
        var (days, bonus) := StreakMilestones[i];
        assert StreakMilestones[..i + 1][..i] == StreakMilestones[..i];
        if users[u].signStreak == days {
          users := users[u := users[u].(points := users[u].points + bonus)];
        }
        i := i + 1;
      }
      assert StreakMilestones[..i] == StreakMilestones;
    }

    /** The `/sign` command from `u` on day `today`. */
    method Sign(inGroup: bool, u: int, today: int, base: nat, replyOk: bool) returns (r: SignOutcome)
      requires Valid()
      requires DailyMin <= base <= DailyMax
      modifies this
      ensures Valid()
      ensures !inGroup ==> r == NotInGroup && users == old(users)
      ensures inGroup ==>
        var (d, outcome) := SignStep(old(Record(u)), today, base, replyOk);
        r == outcome && users == old(users)[u := d]
    {
      if !inGroup { return NotInGroup; }
      var d := GetUserData(u);
      if d.lastSign == Some(today) { return AlreadySigned; }
      var streak := if d.lastSign == Some(today - 1) then Min(d.signStreak + 1, MaxStreakDays) else 1;
      var streakBonus := if streak > 1 then StreakBonus else 0;
      var total := base + streakBonus;
      d := d.(signStreak := streak);
      d := d.(points := d.points + total);
      d := d.(lastSign := Some(today));
      d := d.(totalSigns := d.totalSigns + 1);
      users := users[u := d];
      r := Signed(total, streak);
      if replyOk {
        CheckSignMilestones(u);
      }
    }
  }
}
