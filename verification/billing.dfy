/** The wallet page (pages/Billing.tsx): the balance, the free-trial
    countdown and the referral link. Dates are milliseconds since the
    epoch; `now` is the clock reading. */
module Billing {
  import opened Wrappers
  import opened Text
  import opened Records

  const DayMs: nat := 86400000

  /** `Math.ceil(a / d)` for a non-negative dividend. */
  function CeilDiv(a: nat, d: nat): (r: nat)
    requires d > 0
    ensures r * d >= a
    ensures r > 0 ==> (r - 1) * d < a
  {
    (a + d - 1) / d
  }

  function Abs(x: int): nat {
    if x < 0 then -x else x
  }

  /** `calculateTrialDaysLeft` as written: the distance to the trial's end
      in whole days, rounded up, taken in absolute value, so that the
      days since an ended trial count like days left. */
  function TrialDaysLeftAsWritten(trialEndsAt: Option<int>, now: int): (r: nat)
    ensures trialEndsAt.None? ==> r == 0
    ensures trialEndsAt.Some? ==>
      var gap := Abs(trialEndsAt.value - now);
      r * DayMs >= gap && (r > 0 ==> (r - 1) * DayMs < gap)
  {
    if trialEndsAt.None? then 0 else CeilDiv(Abs(trialEndsAt.value - now), DayMs)
  }

  /** Every trial that has ended is shown with at least one day left. */
  lemma EndedTrialShowsDays(trialEndsAt: Option<int>, now: int)
    ensures trialEndsAt.Some? && trialEndsAt.value < now ==>
      TrialDaysLeftAsWritten(trialEndsAt, now) >= 1
  {
    if trialEndsAt.Some? && trialEndsAt.value < now {
      assert Abs(trialEndsAt.value - now) > 0;
    }
  }

  /** A trial that ended yesterday is shown with one day left. */
  lemma ExpiredTrialReportsDays(now: int)
    ensures TrialDaysLeftAsWritten(Some(now - DayMs), now) == 1
  {
    assert Abs(now - DayMs - now) == DayMs;
  }

  /** The countdown as the page evidently means it: the days that remain,
      rounded up, and none once the trial has ended. */
  function TrialDaysLeft(trialEndsAt: Option<int>, now: int): (r: nat)
    ensures trialEndsAt.None? ==> r == 0
    ensures trialEndsAt.Some? && trialEndsAt.value <= now ==> r == 0
    ensures trialEndsAt.Some? && trialEndsAt.value > now ==>
      r > 0 && (r - 1) * DayMs < trialEndsAt.value - now <= r * DayMs
  {
    if trialEndsAt.None? || trialEndsAt.value <= now then 0
    else CeilDiv(trialEndsAt.value - now, DayMs)
  }

  /** While a trial runs, the corrected countdown agrees with the page's
      arithmetic, and as soon as it has ended the two differ. */
  lemma CountdownAgreesWhileActive(trialEndsAt: Option<int>, now: int)
    ensures trialEndsAt.None? || trialEndsAt.value >= now ==>
      TrialDaysLeft(trialEndsAt, now) == TrialDaysLeftAsWritten(trialEndsAt, now)
    ensures trialEndsAt.Some? && trialEndsAt.value < now ==>
      TrialDaysLeft(trialEndsAt, now) != TrialDaysLeftAsWritten(trialEndsAt, now)
  {
    if trialEndsAt.Some? && trialEndsAt.value == now {
      assert CeilDiv(0, DayMs) == 0;
    }
    EndedTrialShowsDays(trialEndsAt, now);
  }

  /** A trial that ends a whole number of days from now shows exactly that
      number: 30 right after a social sign-in. */
  lemma WholeDays(days: nat, now: int)
    ensures TrialDaysLeft(Some(now + days * DayMs), now) == days
  {
    var r := TrialDaysLeft(Some(now + days * DayMs), now);
    if days > 0 {
      LessTimes(r - 1, days, DayMs);
      LessTimes(r, days, DayMs);
    }
  }

  /** Multiplying by the same positive number keeps strict order. */
  lemma LessTimes(a: int, b: int, d: nat)
    requires d > 0
    ensures a * d < b * d <==> a < b
  {
    if a < b {
      assert b * d - a * d == (b - a) * d;
    } else {
      assert a * d - b * d == (a - b) * d;
    }
  }

  const ReferralPrefix: string := "https://lemondeavous.com/signup?ref="

  /** The link the copy button puts on the clipboard. */
  function ReferralLink(code: string): (link: string)
    ensures StartsWith(link, ReferralPrefix)
    ensures |link| == |ReferralPrefix| + |code|
  {
    ReferralPrefix + code
  }

  /** The code a referral link carries, if it is one. */
  function ReferralCodeOf(link: string): (r: Option<string>)
    ensures r.Some? <==> StartsWith(link, ReferralPrefix)
  {
    if StartsWith(link, ReferralPrefix) then Some(link[|ReferralPrefix|..]) else None
  }

  /** The link gives back the user's code, and a referral link is always
      the link of its code. */
  lemma ReferralRoundTrip(code: string, link: string)
    ensures ReferralCodeOf(ReferralLink(code)) == Some(code)
    ensures ReferralCodeOf(link).Some? ==> ReferralLink(ReferralCodeOf(link).value) == link
  {
    assert (ReferralPrefix + code)[|ReferralPrefix|..] == code;
    if StartsWith(link, ReferralPrefix) {
      assert link == link[..|ReferralPrefix|] + link[|ReferralPrefix|..];
    }
  }

  /** The free-trial panel: the countdown as the page computes it, the
      bar's width in percent of 30 days, and the trial's end. */
  datatype TrialPanel = TrialPanel(days: nat, percent: real, endsAt: int)

  /** What the page shows: nothing without a user; otherwise the balance,
      the trial panel when the user has a trial end, and the referral
      link. */
  datatype Wallet = Wallet(credits: int, trial: Option<TrialPanel>, referralLink: string)

  function View(user: Option<User>, now: int): (w: Option<Wallet>)
    ensures w.None? <==> user.None?
    ensures w.Some? ==>
      && w.value.credits == user.value.credits
      && (w.value.trial.None? <==> user.value.trialEndsAt.None?)
      && ReferralCodeOf(w.value.referralLink) == Some(user.value.referralCode)
    ensures w.Some? && w.value.trial.Some? ==>
      var panel := w.value.trial.value;
      && panel.endsAt == user.value.trialEndsAt.value
      && panel.days == TrialDaysLeftAsWritten(user.value.trialEndsAt, now)
      && (panel.endsAt < now ==> panel.days >= 1)
      && panel.percent == (panel.days as real / 30.0) * 100.0
  {
    if user.None? then None
    else
      var ends := user.value.trialEndsAt;
      var days := TrialDaysLeftAsWritten(ends, now);
      EndedTrialShowsDays(ends, now);
      ReferralRoundTrip(user.value.referralCode, "");
      var panel := if ends.None? then None else Some(TrialPanel(days, (days as real / 30.0) * 100.0, ends.value));
      Some(Wallet(user.value.credits, panel, ReferralLink(user.value.referralCode)))
  }
}
