/** The decision rules of the text handler: when a bonus is due, the
    countdown shown when it is not, whether a user may start a withdrawal,
    which text counts as a withdrawal amount and how a requested amount is
    judged. Also the button captions the handler matches. */
module Rules {
  import opened Wrappers
  import opened Entities
  import opened JsText

  // ---------------------------------------------------------------- bonus

  /** A bonus is due when at least two hours have passed since the last one:
      the handler divides the millisecond difference down to hours and
      compares with 2 (exact real arithmetic here). */
  function BonusDue(lastBonusDate: int, now: int): (due: bool)
    ensures due <==> now - lastBonusDate >= BonusCooldownMs
  {
    var differenceInHours := (now - lastBonusDate) as real / 1000.0 / 60.0 / 60.0;
    differenceInHours >= 2.0
  }

  /** Hours (modulo 24), minutes and seconds of a positive number of
      milliseconds, each rounded down. */
  function Countdown(remaining: int): (c: Clock)
    requires remaining > 0
    ensures 0 <= c.hours < 24 && 0 <= c.minutes < 60 && 0 <= c.seconds < 60
  {
    Clock((remaining / 3600000) % 24, (remaining % 3600000) / 60000, (remaining % 60000) / 1000)
  }

  /** Below a day, the countdown is the remaining whole seconds written as
      hours, minutes and seconds. */
  lemma {:induction false} CountdownExact(remaining: int)
    requires 0 < remaining < 24 * 3600000
    ensures var c := Countdown(remaining);
      c.hours * 3600 + c.minutes * 60 + c.seconds == remaining / 1000
  {
    var h := remaining / 3600000;
    var r1 := remaining % 3600000;
    var m := r1 / 60000;
    var r2 := r1 % 60000;
    var s := r2 / 1000;
    assert remaining == h * 3600000 + m * 60000 + r2;
    assert remaining % 60000 == r2 by {
      assert remaining == (h * 60 + m) * 60000 + r2;
    }
    assert r2 == s * 1000 + r2 % 1000;
    assert remaining == (h * 3600 + m * 60 + s) * 1000 + r2 % 1000;
    assert h < 24;
  }

  /** The countdown the handler shows when a bonus is not yet due: the
      remaining time is counted from a two-hour window, so as long as the
      last bonus lies in the past it is under two hours, and the hours shown
      are 0 or 1. */
  lemma {:induction false} CountdownWithinCooldown(lastBonusDate: int, now: int)
    requires lastBonusDate < now
    requires !BonusDue(lastBonusDate, now)
    ensures var remaining := lastBonusDate + BonusCooldownMs - now;
      0 < remaining < BonusCooldownMs
      && Countdown(remaining).hours <= 1
      && var c := Countdown(remaining);
         c.hours * 3600 + c.minutes * 60 + c.seconds == remaining / 1000
  {
    CountdownExact(lastBonusDate + BonusCooldownMs - now);
  }

  /** A bonus claimed at `now` is not due again at `now`: a second
      immediate claim pays nothing. */
  lemma {:induction false} NoSecondImmediateBonus(now: int)
    ensures !BonusDue(now, now)
  {
  }

  /** A user created on their first start may claim a bonus at any time
      from two hours after the sentinel date on. */
  lemma {:induction false} NewUserBonusDue(userName: string, now: int)
    requires now >= SentinelBonusDate + BonusCooldownMs
    ensures BonusDue(NewUser(userName).lastBonusDate, now)
  {
  }

  // ----------------------------------------------------------- withdrawal

  /** `!user.accountNumber` is false only for a non-empty number. */
  predicate HasAccountNumber(u: User)
  {
    u.accountNumber.Some? && u.accountNumber.value != ""
  }

  /** `Boolean(parseInt(text))`: the amount typed while a withdrawal is
      pending, when it reads as a non-zero number. */
  function AmountEntry(text: string): (w: Option<int>)
    ensures w.Some? <==> ParseInt(text).Some? && ParseInt(text).value != 0
    ensures w.Some? ==> w.value == ParseInt(text).value
  {
    match ParseInt(text)
    case None => None
    case Some(n) => if n != 0 then Some(n) else None
  }

  /** How a requested amount is judged, in the order the handler checks. */
  datatype Verdict = Overdrawn | UnderMinimum | NotEnoughInvites | Approved

  /** The three rejections come in a fixed order (more than the balance,
      then under the minimum, then too few referrals), and an amount is
      approved exactly when it lies between the minimum and the balance and
      the user has enough referrals. */
  function WithdrawalVerdict(u: User, w: int): (v: Verdict)
    ensures v == Overdrawn <==> w > u.amount
    ensures v == UnderMinimum <==> w <= u.amount && w < MinimumWithdrawal
    ensures v == NotEnoughInvites <==> MinimumWithdrawal <= w <= u.amount && u.invitedUsers < MinimumInvites
    ensures v == Approved <==> MinimumWithdrawal <= w <= u.amount && u.invitedUsers >= MinimumInvites
  {
    if w > u.amount then Overdrawn
    else if w < MinimumWithdrawal then UnderMinimum
    else if u.invitedUsers < MinimumInvites then NotEnoughInvites
    else Approved
  }

  /** The user after an approved withdrawal of `w`: balance down by `w`,
      back to idle, marked as having withdrawn. */
  function Withdrawn(u: User, w: int): (v: User)
    requires WithdrawalVerdict(u, w) == Approved
    ensures v.amount == u.amount - w && v.amount >= 0
    ensures v.status == Idle && v.hasWithdrawn
    ensures v.(amount := u.amount, status := u.status, hasWithdrawn := u.hasWithdrawn) == u
  {
    u.(status := Idle, hasWithdrawn := true, amount := u.amount - w)
  }

  // ------------------------------------------------------------- captions

  const BonusCaption: string := "Bonus \U{1F381}"
  const AddNumberCaptions: seq<string> := ["\U{1F4CC} Ajoutez un num\U{00E9}ro", "\U{1F4CC} Add a Number"]
  const BalanceCaptions: seq<string> := ["\U{1F4B0} Mon Solde \U{1F4B0}", "\U{1F4B0} My Balance \U{1F4B0}"]
  const ShareCaptions: seq<string> := ["Partager \U{2197}\U{FE0F}", "Share \U{2197}\U{FE0F}"]
  const ProcedureCaptions: seq<string> := ["\U{1F4CB} Proc\U{00E9}dure \U{1F4CB}", "\U{1F4CB} Procedure \U{1F4CB}"]
  const WithdrawalCaptions: seq<string> := ["Effectuer un Retrait \U{1F3E6}", "Make a Withdrawal \U{1F3E6}"]
  const TaskCaptions: seq<string> := ["\U{1F6A9} T\U{00E2}che", "\U{1F6A9} Task"]

  /** The "Task" captions never read as a withdrawal amount. */
  lemma {:induction false} TaskCaptionsAreNotAmounts(text: string)
    requires text in TaskCaptions
    ensures AmountEntry(text) == None
  {
    assert text[0] == '\U{1F6A9}';
    assert !IsJsWhitespace(text[0]);
    assert TrimStart(text) == text;
    NoDigitIsNaN(text);
  }
}
