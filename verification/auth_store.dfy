/**
 * The auth provider of `src/hooks/useAuth.tsx` as a state machine over one
 * record: the stored user list, the pending registration and the session.
 * The clock (`Date.now()`), the random draws behind the OTP and the account
 * number, and the ISO creation timestamp are parameters.
 */
module AuthStore {
  import opened Wrappers
  import opened Text
  import opened Records

  /** Registering with this email makes an administrator. */
  const AdminEmail: string := "admin@usbank.com"

  const CentsPerDollar: int := 100
  /** Administrators start with $100,000, everyone else with $1,000. */
  const AdminStartingBalance: int := 100000 * CentsPerDollar
  const UserStartingBalance: int := 1000 * CentsPerDollar

  /** A one-time password stays valid for 10 minutes. */
  const OtpLifetimeMs: int := 10 * 60 * 1000

  /** The OTP generator yields an integer in [100000, 1000000). */
  predicate IsOtpDraw(n: nat) {
    100000 <= n < 1000000
  }

  /** The account-number generator yields an integer in [1000000000, 10000000000). */
  predicate IsAccountDraw(n: nat) {
    1000000000 <= n < 10000000000
  }

  datatype AuthError =
    | UserAlreadyExists
    | EmailMismatch
    | InvalidOtp
    | OtpExpired
    | InvalidCredentials
    | AccountNotVerified

  /**
   * `users` is the `bankUsers` key, `pending` the `tempRegistration` key,
   * `session` the signed-in user (React state mirrored in `bankUser`), and
   * `loading` is true until the provider has mounted.
   */
  datatype AuthState = AuthState(
    users: seq<StoredUser>,
    pending: Option<PendingRegistration>,
    session: Option<SessionUser>,
    loading: bool)

  /** What an operation reports (`true` / `false` in the source) and the state after it. */
  datatype Reply = Reply(outcome: Outcome<AuthError>, next: AuthState)

  /** A user is authenticated exactly when a session is present. */
  predicate IsAuthenticated(st: AuthState) {
    st.session.Some?
  }

  /**
   * The provider before its mount effect. Storage may already hold users, a
   * registration still waiting for its code and a saved session, all left
   * there by an earlier page load; nothing is decided until mount.
   */
  function Initial(users: seq<StoredUser>, pending: Option<PendingRegistration>, saved: Option<SessionUser>): (st: AuthState)
    ensures st.loading
    ensures st.users == users && st.pending == pending && st.session == saved
  {
    AuthState(users, pending, saved, true)
  }

  /** The mount effect: the saved session is adopted and loading ends. */
  function Mount(st: AuthState): (r: AuthState)
    ensures !r.loading
    ensures r.users == st.users && r.pending == st.pending && r.session == st.session
  {
    st.(loading := false)
  }

  function RoleFor(email: string): Role {
    if email == AdminEmail then AdminRole else UserRole
  }

  function StartingBalance(email: string): int {
    if email == AdminEmail then AdminStartingBalance else UserStartingBalance
  }

  /**
   * `register`: rejected when a stored user has the email; otherwise a new
   * pending registration replaces any earlier one.
   */
  function Register(st: AuthState, data: RegisterData, now: nat, otpDraw: nat, accountDraw: nat): (r: Reply)
    requires IsOtpDraw(otpDraw) && IsAccountDraw(accountDraw)
    ensures r.outcome.Fail? <==> EmailTaken(st.users, data.email)
    ensures r.outcome.Fail? ==> r.outcome.error == UserAlreadyExists && r.next == st
    ensures r.outcome.Pass? ==>
      && r.next.users == st.users
      && r.next.session == st.session
      && r.next.loading == st.loading
      && r.next.pending.Some?
      && var p := r.next.pending.value;
      && p.data == data
      && (p.role == AdminRole <==> data.email == AdminEmail)
      && (p.role == AdminRole ==> p.balance == 100000 * 100)
      && (p.role == UserRole ==> p.balance == 1000 * 100)
      && p.savingsBalance == 0
      && !p.verified
      && p.otpExpiry == now + 600000
      && p.otp == Decimal(otpDraw) && p.accountNumber == Decimal(accountDraw)
      && |p.otp| == 6 && AllDigits(p.otp)
      && |p.accountNumber| == 10 && AllDigits(p.accountNumber)
  {
    if EmailTaken(st.users, data.email) then
      Reply(Fail(UserAlreadyExists), st)
    else
      Pow10Values();
      DecimalWidth(otpDraw, 6);
      DecimalWidth(accountDraw, 10);
      var p := PendingRegistration(
        data, Decimal(accountDraw), RoleFor(data.email), StartingBalance(data.email),
        0, Decimal(otpDraw), now + OtpLifetimeMs, false);
      Reply(Pass, st.(pending := Some(p)))
  }

  /** The user record `verifyOTP` stores for a pending registration. */
  function Promote(p: PendingRegistration, now: nat, createdAt: string): (u: StoredUser)
    ensures u.verified
    ensures 1 <= |u.id| && AllDigits(u.id)
    ensures u.email == p.data.email && u.password == p.data.password && u.role == p.role
    ensures u.balance == p.balance && u.savingsBalance == p.savingsBalance
    ensures u.id == Decimal(now) && u.createdAt == createdAt
    ensures u.fullName == p.data.fullName && u.phoneNumber == p.data.phoneNumber
    ensures u.address == p.data.address && u.dateOfBirth == p.data.dateOfBirth
    ensures u.ssn == p.data.ssn && u.accountNumber == p.accountNumber
  {
    StoredUser(
      Decimal(now), p.data.email, p.data.password, p.data.fullName, p.data.phoneNumber,
      p.data.address, p.data.dateOfBirth, p.data.ssn, p.accountNumber, p.role,
      p.balance, p.savingsBalance, true, createdAt)
  }

  /** The pending registration's checks pass: right email, right code, not past its expiry. */
  predicate OtpAccepted(st: AuthState, email: string, otp: string, now: nat) {
    && st.pending.Some?
    && st.pending.value.data.email == email
    && st.pending.value.otp == otp
    && now <= st.pending.value.otpExpiry
  }

  /**
   * `verifyOTP`: checks the email, then the code, then the expiry, and on
   * success appends the verified user and clears the pending registration.
   * With nothing pending the stored record reads as `{}`, whose email never matches.
   */
  function VerifyOtp(st: AuthState, email: string, otp: string, now: nat, createdAt: string): (r: Reply)
    ensures r.outcome.Pass? <==> OtpAccepted(st, email, otp, now)
    ensures r.outcome.Fail? ==> r.next == st
    ensures r.outcome == Fail(EmailMismatch) <==> st.pending.None? || st.pending.value.data.email != email
    ensures r.outcome == Fail(InvalidOtp) <==>
      st.pending.Some? && st.pending.value.data.email == email && st.pending.value.otp != otp
    ensures r.outcome.Pass? ==>
      && var p := st.pending.value;
      && |r.next.users| == |st.users| + 1
      && r.next.users[..|st.users|] == st.users
      && var u := r.next.users[|st.users|];
      && u.verified
      && u.id == Decimal(now)
      && u.email == p.data.email && u.password == p.data.password
      && u.fullName == p.data.fullName && u.ssn == p.data.ssn
      && u.phoneNumber == p.data.phoneNumber && u.address == p.data.address
      && u.dateOfBirth == p.data.dateOfBirth && u.createdAt == createdAt
      && u.accountNumber == p.accountNumber && u.role == p.role
      && u.balance == p.balance && u.savingsBalance == p.savingsBalance
      && r.next.pending.None?
      && r.next.session == st.session && r.next.loading == st.loading
  {
    match st.pending
    case None => Reply(Fail(EmailMismatch), st)
    case Some(p) =>
      if p.data.email != email then Reply(Fail(EmailMismatch), st)
      else if p.otp != otp then Reply(Fail(InvalidOtp), st)
      else if now > p.otpExpiry then Reply(Fail(OtpExpired), st)
      else
        var users := st.users + [Promote(p, now, createdAt)];
        assert users[..|st.users|] == st.users;
        Reply(Pass, st.(users := users, pending := None))
  }

  predicate Credentials(u: StoredUser, email: string, password: string) {
    u.email == email && u.password == password
  }

  /** The position of the first stored user with this email and password, if any. */
  function FindCredentials(users: seq<StoredUser>, email: string, password: string): (r: Option<nat>)
    ensures r.Some? ==> r.value < |users| && Credentials(users[r.value], email, password)
    ensures r.Some? ==> forall j :: 0 <= j < r.value ==> !Credentials(users[j], email, password)
    ensures r.None? ==> forall j :: 0 <= j < |users| ==> !Credentials(users[j], email, password)
    decreases |users|
  {
    if users == [] then None
    else if Credentials(users[0], email, password) then Some(0)
    else match FindCredentials(users[1..], email, password)
      case None => None
      case Some(i) => Some(i + 1)
  }

  /** Position `i` holds the first user whose email and password both match. */
  ghost predicate FirstMatch(users: seq<StoredUser>, email: string, password: string, i: int) {
    && 0 <= i < |users|
    && Credentials(users[i], email, password)
    && forall j :: 0 <= j < i ==> !Credentials(users[j], email, password)
  }

  /**
   * `login`: the first user matching both email and password must exist and
   * be verified; the session then copies that user's public fields.
   */
  function Login(st: AuthState, email: string, password: string): (r: Reply)
    ensures r.next.users == st.users && r.next.pending == st.pending && r.next.loading == st.loading
    ensures r.outcome.Pass? <==> exists i :: FirstMatch(st.users, email, password, i) && st.users[i].verified
    ensures r.outcome == Fail(InvalidCredentials) <==>
      forall j :: 0 <= j < |st.users| ==> !Credentials(st.users[j], email, password)
    ensures r.outcome.Fail? ==> r.next == st
    ensures r.outcome.Pass? ==> exists i :: (
      && FirstMatch(st.users, email, password, i)
      && var u := st.users[i];
      r.next.session == Some(SessionUser(u.id, u.email, u.fullName, u.accountNumber, u.role, u.balance, u.savingsBalance)))
  {
    match FindCredentials(st.users, email, password)
    case None => Reply(Fail(InvalidCredentials), st)
    case Some(i) =>
      assert FirstMatch(st.users, email, password, i);
      var u := st.users[i];
      if !u.verified then Reply(Fail(AccountNotVerified), st)
      else Reply(Pass, st.(session := Some(SessionOf(u))))
  }

  /**
   * `updateBalance`: with a session, sets the balance of the session user and
   * of every stored user with the session's id; without one, does nothing.
   */
  function UpdateBalance(st: AuthState, newBalance: int): (r: AuthState)
    ensures st.session.None? ==> r == st
    ensures r.pending == st.pending && r.loading == st.loading
    ensures st.session.Some? ==>
      && r.session == Some(st.session.value.(balance := newBalance))
      && |r.users| == |st.users|
      && forall i :: 0 <= i < |st.users| ==>
           r.users[i] == if st.users[i].id == st.session.value.id
                         then st.users[i].(balance := newBalance) else st.users[i]
  {
    match st.session
    case None => st
    case Some(s) =>
      st.(session := Some(s.(balance := newBalance)),
          users := UpdateWhere(st.users, s.id, WithBalance(newBalance)))
  }

  /** `logout`: ends the session and touches nothing else. */
  function Logout(st: AuthState): (r: AuthState)
    ensures !IsAuthenticated(r)
    ensures r.users == st.users && r.pending == st.pending && r.loading == st.loading
  {
    st.(session := None)
  }

  // ---------------------------------------------------------------------
  // Properties relating several operations
  // ---------------------------------------------------------------------

  /** Verifying exactly at the expiry instant is accepted; one millisecond later is not. */
  lemma ExpiryBoundary(st: AuthState, email: string, otp: string, createdAt: string)
    requires st.pending.Some? && st.pending.value.data.email == email && st.pending.value.otp == otp
    requires st.pending.value.otpExpiry >= 0
    ensures VerifyOtp(st, email, otp, st.pending.value.otpExpiry as nat, createdAt).outcome.Pass?
    ensures VerifyOtp(st, email, otp, st.pending.value.otpExpiry as nat + 1, createdAt) == Reply(Fail(OtpExpired), st)
  {
  }

  /** A registration's code verifies for the next 10 minutes and is rejected afterwards. */
  lemma RegisteredCodeWindow(st: AuthState, data: RegisterData, now: nat, otpDraw: nat, accountDraw: nat,
                             later: nat, createdAt: string)
    requires IsOtpDraw(otpDraw) && IsAccountDraw(accountDraw)
    requires !EmailTaken(st.users, data.email)
    ensures var st1 := Register(st, data, now, otpDraw, accountDraw).next;
      VerifyOtp(st1, data.email, Decimal(otpDraw), later, createdAt).outcome.Pass? <==> later <= now + 600000
  {
  }

  /** Logging out is idempotent and never changes the stored data. */
  lemma LogoutIdempotent(st: AuthState)
    ensures Logout(Logout(st)) == Logout(st)
    ensures IsAuthenticated(st) ==> Logout(st) != st
  {
  }
}
