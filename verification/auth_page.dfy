/** The sign-in page (pages/Auth.tsx): the credential form with its
    simulated biometric scan, the social buttons, and the switch between
    signing in and creating an account. The browser's own check of the
    form's `required` and `type="email"` fields decides whether the submit
    handler runs at all. Each handler is modelled by the
    states it passes through: a timer's end or an awaited sign-in's answer
    is a step of its own, so the scan, login and social sign-in delays are
    the gaps between steps. */
module AuthPage {
  import opened Wrappers
  import AuthContext

  datatype Status = IDLE | SCANNING | VERIFYING | SUCCESS | ERROR

  /** The email and password a submit's scan timer captured. */
  datatype Credentials = Credentials(email: string, password: string)

  /** The form. `pending` holds the scans still running and `verifying` the
      logins awaited after a scan, `socialPending` the social sign-ins
      awaited; each is oldest first, since the requests of one kind all
      take the same time and so end in the order they started. */
  datatype Page = Page(
    isLogin: bool,
    email: string,
    password: string,
    status: Status,
    socialProvider: Option<AuthContext.Provider>,
    errorMsg: string,
    pending: seq<Credentials>,
    verifying: seq<Credentials>,
    socialPending: seq<AuthContext.Provider>)

  const Initial: Page := Page(true, "", "", IDLE, None, "", [], [], [])

  const Refused: string := "Identifiants invalides ou accès refusé."

  /** The submit button is enabled when idle or after an error. */
  predicate CanSubmit(p: Page) {
    p.status == IDLE || p.status == ERROR
  }

  /** The social buttons are enabled only when idle. */
  predicate CanSocial(p: Page) {
    p.status == IDLE
  }

  /** The submit button shows the spinner while scanning or verifying. */
  predicate FormSpinner(p: Page) {
    p.status == SCANNING || p.status == VERIFYING
  }

  /** A social button shows the spinner while its own sign-in is verified. */
  predicate SocialSpinner(p: Page, provider: AuthContext.Provider) {
    p.socialProvider == Some(provider) && p.status == VERIFYING
  }

  /** No request of any kind is running. */
  predicate Settled(p: Page) {
    p.pending == [] && p.verifying == [] && p.socialPending == []
  }

  /** While a request is in flight or has succeeded, nothing new can start;
      after a refusal only the form can be sent again. */
  lemma Enablement(p: Page)
    ensures p.status in {SCANNING, VERIFYING, SUCCESS} ==> !CanSubmit(p) && !CanSocial(p)
    ensures p.status == ERROR ==> CanSubmit(p) && !CanSocial(p)
    ensures CanSocial(p) ==> CanSubmit(p)
  {
  }

  /** An ASCII letter or digit. */
  predicate Alnum(c: char) {
    ('a' <= c <= 'z') || ('A' <= c <= 'Z') || ('0' <= c <= '9')
  }

  /** A character allowed before the '@' of a valid e-mail address: the
      `atext` characters of section 3.2.3 of RFC 5322, or a dot. */
  predicate LocalChar(c: char) {
    Alnum(c) || c in "!#$%&'*+/=?^_`{|}~-."
  }

  /** A domain: one or more labels separated by dots, each label one to 63
      letters, digits or hyphens beginning and ending with a letter or
      digit. Stated by position: no other character occurs, the ends and
      both neighbours of every dot are letters or digits, and every 64
      characters in a row hold a dot. */
  predicate ValidDomain(d: string) {
    && |d| >= 1
    && (forall i :: 0 <= i < |d| ==> Alnum(d[i]) || d[i] == '-' || d[i] == '.')
    && Alnum(d[0]) && Alnum(d[|d| - 1])
    && (forall i :: 0 <= i < |d| - 1 ==> DotFlanked(d, i))
    && (forall i :: 0 <= i <= |d| - 64 ==> DotWithin(d, i))
  }

  /** A dot at `i` or `i + 1` has a letter or digit on its other side. */
  predicate DotFlanked(d: string, i: int)
    requires 0 <= i < |d| - 1
  {
    && (d[i] == '.' ==> Alnum(d[i + 1]))
    && (d[i + 1] == '.' ==> Alnum(d[i]))
  }

  /** One of the 64 characters from position `i` is a dot. */
  predicate DotWithin(d: string, i: int) {
    exists k :: i <= k < i + 64 && 0 <= k < |d| && d[k] == '.'
  }

  /** The HTML "valid e-mail address" that an `<input type="email">`
      accepts: one or more local characters, an '@', then a domain. */
  predicate ValidEmail(e: string) {
    exists i :: (0 < i < |e| && e[i] == '@'
      && (forall j :: 0 <= j < i ==> LocalChar(e[j]))
      && ValidDomain(e[i + 1..]))
  }

  /** A valid address holds exactly one '@', since neither the local
      characters nor a domain contain one. */
  lemma OneAt(e: string, i: nat, k: nat)
    requires ValidEmail(e)
    requires i < |e| && k < |e| && e[i] == '@' && e[k] == '@'
    ensures i == k
  {
    var w :| 0 < w < |e| && e[w] == '@'
      && (forall j :: 0 <= j < w ==> LocalChar(e[j]))
      && ValidDomain(e[w + 1..]);
    forall q | 0 <= q < w ensures e[q] != '@' {
      assert LocalChar(e[q]);
    }
    forall q | w < q < |e| ensures e[q] != '@' {
      assert e[w + 1..][q - w - 1] == e[q];
    }
  }

  /** The browser's constraint validation of the form: both fields are
      `required`, and the email field is `type="email"`. The form has no
      `noValidate`, so `handleSubmit` runs only when this holds. */
  predicate FormValid(p: Page) {
    p.password != "" && ValidEmail(p.email)
  }

  /** The domains of the two demonstration addresses. */
  lemma DemoDomains()
    ensures ValidDomain("lemondeavous.com") && ValidDomain("example.com")
  {
  }

  /** The two demonstration addresses pass the browser's check. */
  lemma DemoEmailsValid()
    ensures ValidEmail("admin@lemondeavous.com")
    ensures ValidEmail("mamadou@example.com")
  {
    DemoDomains();
    var e1 := "admin@lemondeavous.com";
    assert e1[5] == '@' && e1[6..] == "lemondeavous.com";
    assert forall j :: 0 <= j < 5 ==> LocalChar(e1[j]);
    var e2 := "mamadou@example.com";
    assert e2[7] == '@' && e2[8..] == "example.com";
    assert forall j :: 0 <= j < 7 ==> LocalChar(e2[j]);
  }

  /** Addresses the browser refuses: an empty field, no '@', nothing
      before or after it, a label starting with a hyphen, and a space. */
  lemma MalformedEmailsRefused()
    ensures !ValidEmail("")
    ensures !ValidEmail("admin")
    ensures !ValidEmail("@example.com")
    ensures !ValidEmail("a@")
    ensures !ValidEmail("a@-b.com")
    ensures !ValidEmail("a b@c.com")
  {
    var e := "admin";
    forall w | 0 <= w < |e| ensures e[w] != '@' {
      assert LocalChar(e[w]);
    }
    e := "@example.com";
    forall w | 0 < w < |e| ensures e[w] != '@' {
      assert LocalChar(e[w]);
    }
    e := "a@-b.com";
    assert !LocalChar(e[1]);
    forall w | 0 < w < |e| && e[w] == '@' && (forall j :: 0 <= j < w ==> LocalChar(e[j]))
      ensures !ValidDomain(e[w + 1..])
    {
      assert w == 1;
      assert e[w + 1..][0] == '-';
    }
    e := "a b@c.com";
    assert !LocalChar(e[1]) && e[1] != '@';
  }

  /** `handleSubmit`, first step, once the browser let the form through:
      the scan starts, the error clears, and the scan's timer captures the
      typed credentials. A form the browser blocks changes nothing. */
  function Submit(p: Page): (r: Page)
    ensures CanSubmit(p) && FormValid(p) ==>
      && r.status == SCANNING && r.errorMsg == ""
      && |r.pending| == |p.pending| + 1 && r.pending[..|p.pending|] == p.pending
      && r.pending[|p.pending|] == Credentials(p.email, p.password)
      && r.(status := p.status, errorMsg := p.errorMsg, pending := p.pending) == p
    ensures !CanSubmit(p) ==> r == p
    ensures !FormValid(p) ==> r == p
  {
    if CanSubmit(p) && FormValid(p) then
      p.(status := SCANNING, errorMsg := "", pending := p.pending + [Credentials(p.email, p.password)])
    else p
  }

  /** The oldest scan ends: the page shows VERIFYING, whatever it showed
      before, and `login` is called with the credentials the scan
      captured. */
  function ScanEnds(p: Page): (r: Page)
    ensures |p.pending| == 0 ==> r == p
    ensures |p.pending| > 0 ==>
      && r.status == VERIFYING && FormSpinner(r) && !CanSubmit(r) && !CanSocial(r)
      && |r.verifying| == |p.verifying| + 1 && r.verifying[..|p.verifying|] == p.verifying
      && p.pending == [r.verifying[|p.verifying|]] + r.pending
      && r.(status := p.status, pending := p.pending, verifying := p.verifying) == p
  {
    if |p.pending| == 0 then p
    else p.(status := VERIFYING, pending := p.pending[1..], verifying := p.verifying + [p.pending[0]])
  }

  /** The oldest awaited `login` answers: the page shows success, or the
      refusal. `loadedAt` is the authentication module's load time. */
  function LoginResolves(p: Page, s: AuthContext.Session, loadedAt: int): (Page, AuthContext.Session) {
    if |p.verifying| == 0 then (p, s)
    else
      var c := p.verifying[0];
      var q := p.(verifying := p.verifying[1..]);
      var (s2, ok) := AuthContext.Login(s, c.email, c.password, loadedAt);
      if ok then (q.(status := SUCCESS), s2)
      else (q.(status := ERROR, errorMsg := Refused), s2)
  }

  /** The timer two seconds after a refusal: back to idle, whatever the
      status is by then. */
  function ErrorTimer(p: Page): Page {
    p.(status := IDLE)
  }

  /** When a login answers, the credentials its scan captured sign in
      exactly for the two demonstration pairs, and the page shows success;
      otherwise it shows the refusal, with nobody new signed in. The typed
      fields stay as they were and the login leaves the queue. With no
      login awaited nothing happens. */
  lemma SignInSpec(p: Page, s: AuthContext.Session, loadedAt: int)
    ensures |p.verifying| == 0 ==> LoginResolves(p, s, loadedAt) == (p, s)
    ensures |p.verifying| > 0 ==>
      var (r, s2) := LoginResolves(p, s, loadedAt);
      var c := p.verifying[0];
      var ok := AuthContext.Login(s, c.email, c.password, loadedAt).1;
      && r.email == p.email && r.password == p.password && r.isLogin == p.isLogin
      && r.pending == p.pending && r.verifying == p.verifying[1..]
      && (r.status == SUCCESS <==> ok)
      && (ok <==> (c.email == "admin@lemondeavous.com" && c.password == "admin")
                  || (c.email == "mamadou@example.com" && c.password == "user"))
      && (ok ==> s2.auth.isAuthenticated && r.errorMsg == p.errorMsg)
      && (!ok ==> r.status == ERROR && r.errorMsg == Refused && s2.auth.user == s.auth.user)
  {
    if |p.verifying| > 0 {
      var c := p.verifying[0];
      AuthContext.LoginSpec(s, c.email, c.password, loadedAt);
    }
  }

  /** The whole form round from a settled page the browser lets through:
      scanning, then verifying with every button disabled, then success
      exactly for the two demonstration pairs typed, signed in, or the
      refusal. */
  lemma FormRound(p: Page, s: AuthContext.Session, loadedAt: int)
    requires CanSubmit(p) && Settled(p) && FormValid(p)
    ensures var r1 := Submit(p);
      var r2 := ScanEnds(r1);
      var (r3, s3) := LoginResolves(r2, s, loadedAt);
      var ok := (p.email == "admin@lemondeavous.com" && p.password == "admin")
                || (p.email == "mamadou@example.com" && p.password == "user");
      && r1.status == SCANNING && FormSpinner(r1)
      && r2.status == VERIFYING && FormSpinner(r2) && !CanSubmit(r2) && !CanSocial(r2)
      && r2.verifying == [Credentials(p.email, p.password)]
      && Settled(r3)
      && (r3.status == SUCCESS <==> ok)
      && (ok ==> s3.auth.isAuthenticated)
      && (!ok ==> r3.status == ERROR && r3.errorMsg == Refused && s3.auth.user == s.auth.user)
  {
    SignInSpec(ScanEnds(Submit(p)), s, loadedAt);
  }

  /** A form the browser blocks never reaches the scan or the login: the
      page and the session stay as they were. */
  lemma BlockedFormIgnored(p: Page, s: AuthContext.Session, loadedAt: int)
    requires Settled(p) && !FormValid(p)
    ensures LoginResolves(ScanEnds(Submit(p)), s, loadedAt) == (p, s)
  {
  }

  /** Both modes of the form behave alike: creating an account is the same
      sign-in. */
  lemma ModeIrrelevant(p: Page, s: AuthContext.Session, loadedAt: int)
    ensures LoginResolves(ScanEnds(Submit(p)), s, loadedAt).1
         == LoginResolves(ScanEnds(Submit(p.(isLogin := !p.isLogin))), s, loadedAt).1
    ensures LoginResolves(ScanEnds(Submit(p)), s, loadedAt).0.status
         == LoginResolves(ScanEnds(Submit(p.(isLogin := !p.isLogin))), s, loadedAt).0.status
  {
  }

  /** A refusal lets the form be sent again at once, and after the timer
      the page is idle again. */
  lemma RefusalRecovers(p: Page, s: AuthContext.Session, loadedAt: int)
    requires |p.verifying| > 0
    requires var c := p.verifying[0]; !AuthContext.Login(s, c.email, c.password, loadedAt).1
    ensures var r := LoginResolves(p, s, loadedAt).0;
      CanSubmit(r) && !CanSocial(r) && CanSocial(ErrorTimer(r))
  {
  }

  /** A form sent again within two seconds of a refusal: the refusal's
      timer shows the page idle, social buttons enabled, while the new
      scan runs; the scan's end then shows VERIFYING with every button
      disabled, and the login checks the credentials the scan captured. */
  lemma ResubmitOutlivesTimer(p: Page, s: AuthContext.Session, loadedAt: int, email: string, password: string)
    requires CanSubmit(p) && Settled(p) && FormValid(p)
    requires !AuthContext.Login(s, p.email, p.password, loadedAt).1
    requires (email, password) == ("mamadou@example.com", "user")
    ensures var (r1, s1) := LoginResolves(ScanEnds(Submit(p)), s, loadedAt);
      var r2 := Submit(r1.(email := email, password := password));
      var r3 := ErrorTimer(r2);
      var r4 := ScanEnds(r3);
      var (r5, s5) := LoginResolves(r4, s1, loadedAt);
      && r1.status == ERROR && r2.status == SCANNING
      && r3.status == IDLE && CanSocial(r3)
      && r4.status == VERIFYING && !CanSocial(r4) && !CanSubmit(r4)
      && r5.status == SUCCESS && s5.auth.isAuthenticated && Settled(r5)
  {
    DemoEmailsValid();
  }

  /** `handleSocialClick`, first step: the provider is remembered, the page
      shows VERIFYING with that button's spinner, and the social sign-in
      starts. */
  function SocialClick(p: Page, provider: AuthContext.Provider): (r: Page)
    ensures !CanSocial(p) ==> r == p
    ensures CanSocial(p) ==>
      && SocialSpinner(r, provider) && !CanSubmit(r) && !CanSocial(r)
      && |r.socialPending| == |p.socialPending| + 1
      && r.socialPending[..|p.socialPending|] == p.socialPending
      && r.socialPending[|p.socialPending|] == provider
      && r.(status := p.status, socialProvider := p.socialProvider, socialPending := p.socialPending) == p
  {
    if !CanSocial(p) then p
    else p.(socialProvider := Some(provider), status := VERIFYING, socialPending := p.socialPending + [provider])
  }

  /** The oldest awaited social sign-in answers: it always signs a user in,
      and the page shows success. */
  function SocialResolves(p: Page, s: AuthContext.Session, now: nat): (Page, AuthContext.Session) {
    if |p.socialPending| == 0 then (p, s)
    else (p.(status := SUCCESS, socialPending := p.socialPending[1..]), AuthContext.SocialLogin(p.socialPending[0], now))
  }

  /** From an idle page with no social sign-in awaited, a social button
      shows VERIFYING with its spinner and every button disabled, and then
      always succeeds with a new user of that provider signed in. */
  lemma SocialAlwaysSucceeds(p: Page, s: AuthContext.Session, provider: AuthContext.Provider, now: nat)
    requires CanSocial(p) && p.socialPending == []
    ensures var r1 := SocialClick(p, provider);
      var (r2, s2) := SocialResolves(r1, s, now);
      && r1.status == VERIFYING && SocialSpinner(r1, provider) && !CanSubmit(r1) && !CanSocial(r1)
      && r2.status == SUCCESS && r2.socialProvider == Some(provider) && r2.socialPending == []
      && s2.auth.isAuthenticated && s2 == AuthContext.SocialLogin(provider, now)
  {
    AuthContext.SocialLoginSpec(provider, now);
  }

  /** The link under the form: switch mode and clear what was typed. */
  function ToggleMode(p: Page): (r: Page)
    ensures r.isLogin == !p.isLogin
    ensures r.email == "" && r.password == "" && r.errorMsg == ""
    ensures r.status == p.status && r.socialProvider == p.socialProvider
  {
    p.(isLogin := !p.isLogin, email := "", password := "", errorMsg := "")
  }

  /** Switching twice comes back to the same mode with the fields
      cleared. */
  lemma ToggleTwice(p: Page)
    ensures ToggleMode(ToggleMode(p)) == p.(email := "", password := "", errorMsg := "")
  {
  }

  /** The page leaves for the dashboard as soon as someone is signed in. */
  predicate RedirectsToDashboard(s: AuthContext.Session) {
    s.auth.isAuthenticated
  }

  /** Every success on the page is followed by the redirect: whichever
      awaited request answers with success leaves someone signed in. */
  lemma SuccessRedirects(p: Page, s: AuthContext.Session, loadedAt: int, now: nat)
    ensures |p.verifying| > 0 && LoginResolves(p, s, loadedAt).0.status == SUCCESS ==>
      RedirectsToDashboard(LoginResolves(p, s, loadedAt).1)
    ensures |p.socialPending| > 0 ==>
      SocialResolves(p, s, now).0.status == SUCCESS && RedirectsToDashboard(SocialResolves(p, s, now).1)
  {
    SignInSpec(p, s, loadedAt);
    if |p.socialPending| > 0 {
      AuthContext.SocialLoginSpec(p.socialPending[0], now);
    }
  }
}
