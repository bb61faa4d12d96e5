/** The authentication store (contexts/AuthContext.tsx): session restore
    from storage, the two demonstration credential pairs, social sign-in,
    the 2FA check, logout and credit updates. The browser's storage slot is
    part of the state; latency timers are not modelled, and each operation
    is its final state. Dates are milliseconds since the epoch. */
module AuthContext {
  import opened Wrappers
  import opened Text
  import opened Records

  /** The authentication state and what is persisted under the user key. */
  datatype Session = Session(auth: AuthState, stored: Option<User>)

  const DayMs: int := 86400000

  const AdminEmail: string := "admin@lemondeavous.com"
  const UserEmail: string := "mamadou@example.com"
  const BannedEmail: string := "banned@example.com"

  const MockAdmin: User :=
    User("admin_001", "Super Administrateur", AdminEmail, SUPER_ADMIN, ACTIVE, 999999,
         true, true, None, "ADMIN_GOD_MODE", Some(true))

  /** The demonstration user. Its trial ends 24 days after `loadedAt`,
      the time the module was loaded and the constant built. */
  function MockUser(loadedAt: int): User {
    User("user_001", "Mamadou Diallo", UserEmail, USER, ACTIVE, 320,
         true, false, Some(loadedAt + 24 * DayMs), "MAMADOU2025", None)
  }

  /** Before the stored session is read: loading, with the level cast from
      a text that is not one of the declared levels. */
  const Initial: AuthState := AuthState(None, false, true, OffList("Fortress"))

  /** The mount effect, run from the initial state: `stored` is the parsed
      user under the storage key, if any. A banned user is removed from
      storage and not signed in. */
  function Restore(stored: Option<User>): Session {
    match stored
    case None => Session(Initial.(isLoading := false), None)
    case Some(u) =>
      if u.status == BANNED then Session(Initial.(isLoading := false), None)
      else Session(Initial.(user := Some(u), isAuthenticated := true, isLoading := false), stored)
  }

  /** A stored user is signed in again exactly when not banned, and a
      banned one is erased from storage. Loading always ends, and nobody
      is signed in otherwise. */
  lemma RestoreSpec(stored: Option<User>)
    ensures var r := Restore(stored);
      && !r.auth.isLoading
      && (r.auth.isAuthenticated <==> stored.Some? && stored.value.status != BANNED)
      && (r.auth.isAuthenticated ==> r.auth.user == stored && r.stored == stored)
      && (!r.auth.isAuthenticated ==> r.auth.user.None? && r.stored.None?)
  {
  }

  /** `login(email, password)`: the final state and the answer.
      `loadedAt` is the module's load time, fixed for the whole session. */
  function Login(s: Session, email: string, password: string, loadedAt: int): (Session, bool) {
    if email == AdminEmail && password == "admin" then
      (Session(AuthState(Some(MockAdmin), true, false, FORTRESS), Some(MockAdmin)), true)
    else if email == UserEmail && password == "user" then
      (Session(AuthState(Some(MockUser(loadedAt)), true, false, HIGH), Some(MockUser(loadedAt))), true)
    else if email == BannedEmail then
      (s.(auth := s.auth.(isLoading := false)), false)
    else
      (s.(auth := s.auth.(isLoading := false)), false)
  }

  /** Exactly the two demonstration pairs sign in: the administrator at
      the FORTRESS level and the user at HIGH, each persisted. Any other
      pair, the banned account's included, answers false and changes
      nothing but ending the loading state. */
  lemma LoginSpec(s: Session, email: string, password: string, loadedAt: int)
    ensures var (r, ok) := Login(s, email, password, loadedAt);
      && (ok <==> (email == "admin@lemondeavous.com" && password == "admin")
                  || (email == "mamadou@example.com" && password == "user"))
      && (email == "admin@lemondeavous.com" && password == "admin" ==>
            && r.auth.user == Some(MockAdmin) && r.auth.isAuthenticated
            && r.auth.securityLevel == FORTRESS && MockAdmin.role == SUPER_ADMIN
            && r.stored == Some(MockAdmin))
      && (email == "mamadou@example.com" && password == "user" ==>
            && r.auth.user == Some(MockUser(loadedAt)) && r.auth.isAuthenticated
            && r.auth.securityLevel == HIGH && MockUser(loadedAt).role == USER
            && r.stored == Some(MockUser(loadedAt)))
      && (!ok ==> r == s.(auth := s.auth.(isLoading := false)))
      && !r.auth.isLoading
  {
    assert AdminEmail != UserEmail by {
      assert AdminEmail[0] == 'a' && UserEmail[0] == 'm';
    }
  }

  /** The banned account never signs in, whatever the password. */
  lemma BannedRefused(s: Session, password: string, loadedAt: int)
    ensures !Login(s, "banned@example.com", password, loadedAt).1
  {
    assert BannedEmail[0] == 'b' && AdminEmail[0] == 'a' && UserEmail[0] == 'm';
  }

  /** A successful sign-in survives a reload: restoring from what it
      stored signs the same user in again. */
  lemma LoginPersists(s: Session, email: string, password: string, loadedAt: int)
    requires Login(s, email, password, loadedAt).1
    ensures var r := Login(s, email, password, loadedAt).0;
      var back := Restore(r.stored);
      back.auth.isAuthenticated && back.auth.user == r.auth.user
  {
  }

  datatype Provider = Google | Facebook

  function ProviderName(p: Provider): string {
    match p
    case Google => "google"
    case Facebook => "facebook"
  }

  /** `Date.now().toString().slice(-4)`. */
  function LastFour(s: string): (r: string)
    ensures |r| == if |s| < 4 then |s| else 4
    ensures EndsWith(s, r)
  {
    if |s| <= 4 then s else s[|s| - 4..]
  }

  /** The account made by a social sign-in at time `now`. */
  function SocialUser(p: Provider, now: nat): User {
    User("user_" + ProviderName(p) + "_" + NatToString(now),
         if p == Google then "Utilisateur Google" else "Utilisateur Facebook",
         if p == Google then "google.user@gmail.com" else "fb.user@facebook.com",
         USER, ACTIVE, 100, true, false, Some(now + 30 * DayMs),
         "SOCIAL" + LastFour(NatToString(now)), None)
  }

  function SocialLogin(p: Provider, now: nat): Session {
    var u := SocialUser(p, now);
    Session(AuthState(Some(u), true, false, HIGH), Some(u))
  }

  /** A social sign-in always succeeds with a fresh, verified, active user
      account holding the 100-credit welcome bonus and a 30-day trial,
      persisted, at the HIGH level. */
  lemma SocialLoginSpec(p: Provider, now: nat)
    ensures var r := SocialLogin(p, now);
      && r.auth.isAuthenticated && !r.auth.isLoading && r.auth.securityLevel == HIGH
      && r.auth.user.Some? && r.stored == r.auth.user
      && var u := r.auth.user.value;
      && u.role == USER && u.status == ACTIVE && u.credits == 100 && u.isVerified
      && u.trialEndsAt == Some(now + 30 * 86400000)
      && StartsWith(u.referralCode, "SOCIAL") && |u.referralCode| <= 10
  {
    var u := SocialUser(p, now);
    assert u.referralCode[..6] == "SOCIAL";
  }

  /** `verify2FA(code)`, once its one-second delay has passed. */
  predicate Verify2FA(code: string) {
    code == "123456"
  }

  /** Exactly one code is accepted: the six-digit demonstration code. Two
      accepted codes are the same, and any other text, however close, is
      refused. */
  lemma OneCodeVerifies(a: string, b: string)
    ensures Verify2FA("123456")
    ensures Verify2FA(a) && Verify2FA(b) ==> a == b
    ensures Verify2FA(a) ==> |a| == 6 && forall i :: 0 <= i < |a| ==> '0' <= a[i] <= '9'
    ensures !Verify2FA("12345") && !Verify2FA("1234567") && !Verify2FA(" 123456")
  {
  }

  function Logout(s: Session): (r: Session)
    ensures r.auth.user.None? && !r.auth.isAuthenticated && !r.auth.isLoading && r.stored.None?
  {
    Session(AuthState(None, false, false, HIGH), None)
  }

  /** After logging out, a reload does not sign anybody in. */
  lemma LogoutStaysOut(s: Session)
    ensures var back := Restore(Logout(s).stored);
      !back.auth.isAuthenticated && back.auth.user.None?
  {
  }

  /** `updateCredits(amount)`. */
  function UpdateCredits(s: Session, amount: int): Session {
    if s.auth.user.None? then s
    else
      var u := s.auth.user.value.(credits := s.auth.user.value.credits + amount);
      Session(s.auth.(user := Some(u)), Some(u))
  }

  /** Without a user nothing happens. With one, only its credits change, by
      exactly the amount, and the updated user is what is persisted. */
  lemma UpdateCreditsSpec(s: Session, amount: int)
    ensures var r := UpdateCredits(s, amount);
      && (s.auth.user.None? ==> r == s)
      && (s.auth.user.Some? ==>
            && r.auth.user.Some?
            && r.auth.user.value.credits == s.auth.user.value.credits + amount
            && r.auth.user.value.(credits := s.auth.user.value.credits) == s.auth.user.value
            && r.auth.(user := s.auth.user) == s.auth
            && r.stored == r.auth.user)
  {
  }

  /** Two updates add up. */
  lemma UpdateCreditsAdds(s: Session, a: int, b: int)
    ensures UpdateCredits(UpdateCredits(s, a), b) == UpdateCredits(s, a + b)
  {
  }
}
