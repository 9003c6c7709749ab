/**
 * The whole "local bank" as one state machine: every auth-store operation
 * and every admin-panel action is an event on the same state. The stored
 * user list keeps its emails unique, and the pending registration's email
 * stays free, across any sequence of events.
 */
module Bank {
  import opened Wrappers
  import opened Text
  import opened Seqs
  import opened Records
  import opened AuthStore
  import opened AdminPanel
  import Router

  datatype Event =
    | SignUp(data: RegisterData, now: nat, otpDraw: nat, accountDraw: nat)
    | Verify(email: string, otp: string, now: nat, createdAt: string)
    | SignIn(email: string, password: string)
    | SetOwnBalance(newBalance: int)
    | SignOut
    | AdminUserAction(id: string, action: UserAction)
    | AdminAdjustBalance(id: string, newBalance: int)

  /** The random draws behind a sign-up lie in their generators' ranges. */
  predicate WellFormed(ev: Event) {
    ev.SignUp? ==> IsOtpDraw(ev.otpDraw) && IsAccountDraw(ev.accountDraw)
  }

  /** The admin panel acts only for a signed-in administrator; anyone else sees an access-denied card. */
  predicate PanelOpen(st: AuthState) {
    Router.IsAdmin(st.session)
  }

  function Step(st: AuthState, ev: Event): (r: AuthState)
    requires WellFormed(ev)
    ensures !PanelOpen(st) && (ev.AdminUserAction? || ev.AdminAdjustBalance?) ==> r == st
  {
    match ev
    case SignUp(data, now, otpDraw, accountDraw) => Register(st, data, now, otpDraw, accountDraw).next
    case Verify(email, otp, now, createdAt) => VerifyOtp(st, email, otp, now, createdAt).next
    case SignIn(email, password) => Login(st, email, password).next
    case SetOwnBalance(b) => UpdateBalance(st, b)
    case SignOut => Logout(st)
    case AdminUserAction(id, action) =>
      if PanelOpen(st) then st.(users := HandleUserAction(st.users, id, action)) else st
    case AdminAdjustBalance(id, b) =>
      if PanelOpen(st) then st.(users := AdjustUserBalance(st.users, id, b)) else st
  }

  function Run(st: AuthState, evs: seq<Event>): AuthState
    requires forall i :: 0 <= i < |evs| ==> WellFormed(evs[i])
    decreases |evs|
  {
    if evs == [] then st else Run(Step(st, evs[0]), evs[1..])
  }

  /** Stored emails are unique and a pending registration's email is not yet stored. */
  ghost predicate Valid(st: AuthState) {
    && EmailsUnique(st.users)
    && (st.pending.Some? ==> !EmailTaken(st.users, st.pending.value.data.email))
  }

  lemma EmptyStoreValid(pending: Option<PendingRegistration>, saved: Option<SessionUser>)
    ensures Valid(Initial([], pending, saved))
  {
  }

  /** Until the provider mounts every path shows the spinner; afterwards none does. */
  lemma SpinnerUntilMounted(users: seq<StoredUser>, pending: Option<PendingRegistration>,
                            saved: Option<SessionUser>, path: string)
    ensures var st := Initial(users, pending, saved);
      Router.Resolve(path, st.session, st.loading) == Router.Render(Router.Spinner)
    ensures var st := Mount(Initial(users, pending, saved));
      && Router.Resolve(path, st.session, st.loading) != Router.Render(Router.Spinner)
      && (saved.Some? ==> Router.Resolve(path, st.session, st.loading) != Router.Render(Router.Landing))
  {
  }

  /** A subsequence keeps uniqueness and cannot hold an email the original lacks. */
  lemma SubsequenceKeepsEmails(r: seq<StoredUser>, s: seq<StoredUser>, email: string)
    requires IsSubsequence(r, s)
    ensures EmailsUnique(s) ==> EmailsUnique(r)
    ensures EmailTaken(r, email) ==> EmailTaken(s, email)
  {
    var idx :| Embeds(idx, r, s);
    if EmailTaken(r, email) {
      var k :| 0 <= k < |r| && r[k].email == email;
      assert s[idx[k]].email == email;
    }
  }

  lemma StepPreservesValid(st: AuthState, ev: Event)
    requires Valid(st) && WellFormed(ev)
    ensures Valid(Step(st, ev))
  {
    var r := Step(st, ev);
    match ev
    case SignUp(data, now, otpDraw, accountDraw) =>
    case Verify(email, otp, now, createdAt) =>
      var rep := VerifyOtp(st, email, otp, now, createdAt);
      if rep.outcome.Pass? {
        var n := |st.users|;
        forall i, j | 0 <= i < j < |r.users|
          ensures r.users[i].email != r.users[j].email
        {
          if j == n {
            assert r.users[i] == st.users[i];
          } else {
            assert r.users[i] == st.users[i] && r.users[j] == st.users[j];
          }
        }
      }
    case SignIn(email, password) =>
    case SetOwnBalance(b) =>
      if st.session.Some? {
        UpdateKeepsEmails(st.users, st.session.value.id, WithBalance(b));
        SameEmailsAgree(st.users, r.users, if st.pending.Some? then st.pending.value.data.email else "");
      }
    case SignOut =>
    case AdminUserAction(id, action) =>
      if PanelOpen(st) {
        var email := if st.pending.Some? then st.pending.value.data.email else "";
        if action == Delete {
          SubsequenceKeepsEmails(r.users, st.users, email);
        } else {
          assert SameEmails(st.users, r.users);
          SameEmailsAgree(st.users, r.users, email);
        }
      }
    case AdminAdjustBalance(id, b) =>
      if PanelOpen(st) {
        var email := if st.pending.Some? then st.pending.value.data.email else "";
        assert SameEmails(st.users, r.users);
        SameEmailsAgree(st.users, r.users, email);
      }
  }

  /** Every sequence of events keeps the store valid. */
  lemma {:induction false} RunPreservesValid(st: AuthState, evs: seq<Event>)
    requires Valid(st)
    requires forall i :: 0 <= i < |evs| ==> WellFormed(evs[i])
    ensures Valid(Run(st, evs))
    decreases |evs|
  {
    if evs != [] {
      StepPreservesValid(st, evs[0]);
      RunPreservesValid(Step(st, evs[0]), evs[1..]);
    }
  }

  /** In a valid store, signing in succeeds exactly for a verified user with those credentials. */
  lemma LoginInValidStore(st: AuthState, email: string, password: string)
    requires Valid(st)
    ensures Login(st, email, password).outcome.Pass? <==>
      exists i :: 0 <= i < |st.users| && Credentials(st.users[i], email, password) && st.users[i].verified
  {
    if i :| 0 <= i < |st.users| && Credentials(st.users[i], email, password) && st.users[i].verified {
      assert FirstMatch(st.users, email, password, i);
    }
  }

  /**
   * Sign-up round trip: registering a fresh email, entering the code before
   * it expires and signing in with the same password opens a session with the
   * role and starting balance the email earns.
   */
  lemma SignUpThenSignIn(st: AuthState, data: RegisterData, now: nat, otpDraw: nat, accountDraw: nat,
                         later: nat, createdAt: string)
    requires IsOtpDraw(otpDraw) && IsAccountDraw(accountDraw)
    requires !EmailTaken(st.users, data.email)
    requires later <= now + 600000
    ensures var st1 := Register(st, data, now, otpDraw, accountDraw).next;
      var st2 := VerifyOtp(st1, data.email, Decimal(otpDraw), later, createdAt).next;
      var rep := Login(st2, data.email, data.password);
      && rep.outcome.Pass?
      && rep.next.session.Some?
      && rep.next.session.value.email == data.email
      && rep.next.session.value.id == Decimal(later)
      && (rep.next.session.value.role == AdminRole <==> data.email == "admin@usbank.com")
      && rep.next.session.value.balance == (if data.email == "admin@usbank.com" then 100000 * 100 else 1000 * 100)
      && rep.next.session.value.savingsBalance == 0
  {
    var st1 := Register(st, data, now, otpDraw, accountDraw).next;
    var st2 := VerifyOtp(st1, data.email, Decimal(otpDraw), later, createdAt).next;
    var n := |st.users|;
    assert st2.users[..n] == st.users;
    forall j | 0 <= j < n
      ensures !Credentials(st2.users[j], data.email, data.password)
    {
      assert st2.users[j] == st.users[j];
    }
    assert FirstMatch(st2.users, data.email, data.password, n);
  }
}
