/** The payment screen (pages/Checkout.tsx): the order summary of a credit
    package, the choice of payment method, and the simulated payment that
    credits the account through the authentication store. The three-second
    processing delay is the gap between `Pay` and `Complete`. */
module Checkout {
  import opened Wrappers
  import opened Records
  import AuthContext
  import Catalog

  datatype Step = SELECT | PROCESS | SUCCESS
  datatype PayMethod = CARD | MOBILE | CRYPTO

  datatype CheckoutState = CheckoutState(payMethod: PayMethod, isProcessing: bool, step: Step)

  const Initial: CheckoutState := CheckoutState(CARD, false, SELECT)

  /** `pkg.credits + (pkg.bonus || 0)`: what the account receives and what
      the success screen announces. */
  function Credited(pkg: CreditPackage): (n: nat)
    ensures n >= pkg.credits
    ensures pkg.bonus.None? ==> n == pkg.credits
    ensures pkg.bonus.Some? ==> n == pkg.credits + pkg.bonus.value
  {
    pkg.credits + (if pkg.bonus.Some? && pkg.bonus.value != 0 then pkg.bonus.value else 0)
  }

  /** Choosing a method is possible only on the selection step; the
      processing overlay covers the buttons, and the success screen
      replaces the page. */
  function ChooseMethod(st: CheckoutState, m: PayMethod): (r: CheckoutState)
    ensures st.step == SELECT ==> r == st.(payMethod := m)
    ensures st.step != SELECT ==> r == st
    ensures r.(payMethod := st.payMethod) == st
    ensures r.payMethod == m <==> st.step == SELECT || st.payMethod == m
  {
    if st.step == SELECT then st.(payMethod := m) else st
  }

  /** Only the last choice counts, and choosing the current method again
      changes nothing. */
  lemma LastChoiceWins(st: CheckoutState, a: PayMethod, b: PayMethod)
    ensures ChooseMethod(ChooseMethod(st, a), b) == ChooseMethod(st, b)
    ensures ChooseMethod(st, st.payMethod) == st
  {
  }

  /** `handlePayment`: processing starts. */
  function Pay(st: CheckoutState): (r: CheckoutState)
    ensures st.step == SELECT ==> r.step == PROCESS && r.isProcessing && r.payMethod == st.payMethod
    ensures st.step != SELECT ==> r == st
  {
    if st.step == SELECT then st.(isProcessing := true, step := PROCESS) else st
  }

  /** The timer firing: the account is credited, and the success screen
      shows. */
  function Complete(st: CheckoutState, s: AuthContext.Session, pkg: CreditPackage)
    : (CheckoutState, AuthContext.Session)
  {
    if st.step == PROCESS then
      (st.(step := SUCCESS, isProcessing := false), AuthContext.UpdateCredits(s, Credited(pkg)))
    else (st, s)
  }

  /** A signed-in purchase: after paying and the timer, the success screen
      shows and the user's balance has grown by exactly the announced
      amount, whatever the method; nothing else about the user changes. */
  lemma PurchaseCredits(m: PayMethod, s: AuthContext.Session, pkg: CreditPackage)
    requires s.auth.user.Some?
    ensures var (c, s2) := Complete(Pay(ChooseMethod(Initial, m)), s, pkg);
      && c == CheckoutState(m, false, SUCCESS)
      && s2.auth.user.Some?
      && s2.auth.user.value.credits == s.auth.user.value.credits + Credited(pkg)
      && s2.auth.user.value.(credits := s.auth.user.value.credits) == s.auth.user.value
      && s2.stored == s2.auth.user
  {
    AuthContext.UpdateCreditsSpec(s, Credited(pkg));
  }

  /** Without a signed-in user the payment still ends on the success
      screen, but nothing is credited. */
  lemma NoUserNoCredit(s: AuthContext.Session, pkg: CreditPackage)
    requires s.auth.user.None?
    ensures var (c, s2) := Complete(Pay(Initial), s, pkg);
      c.step == SUCCESS && s2 == s
  {
  }

  /** The order summary: the subtotal and the total are both the price,
      and the taxes line is zero. */
  datatype OrderSummary = OrderSummary(credits: nat, bonusBadge: Option<nat>, subtotal: real, taxes: real, total: real)

  function Summary(pkg: CreditPackage): (o: OrderSummary)
    ensures o.total == o.subtotal + o.taxes == pkg.price
    ensures o.bonusBadge.Some? <==> pkg.bonus.Some? && pkg.bonus.value != 0
    ensures o.credits + (if o.bonusBadge.Some? then o.bonusBadge.value else 0) == Credited(pkg)
  {
    OrderSummary(pkg.credits,
      if pkg.bonus.Some? && pkg.bonus.value != 0 then pkg.bonus else None,
      pkg.price, 0.0, pkg.price)
  }

  /** What each package on sale credits: 500, 1800 and 6500. */
  lemma CatalogCredits()
    ensures Credited(Catalog.CreditPackages[0]) == 500
    ensures Credited(Catalog.CreditPackages[1]) == 1800
    ensures Credited(Catalog.CreditPackages[2]) == 6500
  {
  }
}
