/**
 * The records the "local bank" keeps in browser storage: the registration
 * form's data, the pending registration awaiting its one-time password, the
 * stored user list (`bankUsers`) and the session user (`bankUser`).
 * Balances are whole cents.
 */
module Records {

  /** The `'user' | 'admin'` role of an account. */
  datatype Role = UserRole | AdminRole

  /** What the registration form hands to the auth store. */
  datatype RegisterData = RegisterData(
    email: string,
    password: string,
    fullName: string,
    phoneNumber: string,
    address: string,
    dateOfBirth: string,
    ssn: string)

  /** The `tempRegistration` record: the form data plus what `register` assigns. */
  datatype PendingRegistration = PendingRegistration(
    data: RegisterData,
    accountNumber: string,
    role: Role,
    balance: int,
    savingsBalance: int,
    otp: string,
    otpExpiry: int,
    verified: bool)

  /** One entry of the stored `bankUsers` list (the admin panel's `BankUser`). */
  datatype StoredUser = StoredUser(
    id: string,
    email: string,
    password: string,
    fullName: string,
    phoneNumber: string,
    address: string,
    dateOfBirth: string,
    ssn: string,
    accountNumber: string,
    role: Role,
    balance: int,
    savingsBalance: int,
    verified: bool,
    createdAt: string)

  /** The signed-in user (`bankUser`): the stored record without secrets. */
  datatype SessionUser = SessionUser(
    id: string,
    email: string,
    fullName: string,
    accountNumber: string,
    role: Role,
    balance: int,
    savingsBalance: int)

  /** The session record `login` builds from a stored user. */
  function SessionOf(u: StoredUser): SessionUser {
    SessionUser(u.id, u.email, u.fullName, u.accountNumber, u.role, u.balance, u.savingsBalance)
  }

  /** Applies `f` to every record with the id and keeps the others, position by position. */
  function UpdateWhere(users: seq<StoredUser>, id: string, f: StoredUser -> StoredUser): (r: seq<StoredUser>)
    ensures |r| == |users|
    ensures forall i :: 0 <= i < |users| && users[i].id != id ==> r[i] == users[i]
    ensures forall i :: 0 <= i < |users| && users[i].id == id ==> r[i] == f(users[i])
  {
    seq(|users|, i requires 0 <= i < |users| => if users[i].id == id then f(users[i]) else users[i])
  }

  /** Replaces a record's balance and keeps every other field. */
  function WithBalance(balance: int): StoredUser -> StoredUser {
    (u: StoredUser) => u.(balance := balance)
  }

  /** Some stored user already has this email. */
  predicate EmailTaken(users: seq<StoredUser>, email: string) {
    exists i :: 0 <= i < |users| && users[i].email == email
  }

  /** No two stored users share an email. */
  ghost predicate EmailsUnique(users: seq<StoredUser>) {
    forall i, j :: 0 <= i < j < |users| ==> users[i].email != users[j].email
  }

  /** Two lists hold the same emails at the same positions. */
  ghost predicate SameEmails(a: seq<StoredUser>, b: seq<StoredUser>) {
    |a| == |b| && forall i :: 0 <= i < |a| ==> a[i].email == b[i].email
  }

  /** Updates that keep every record's email keep the list's emails. */
  lemma UpdateKeepsEmails(users: seq<StoredUser>, id: string, f: StoredUser -> StoredUser)
    requires forall u :: f(u).email == u.email
    ensures SameEmails(users, UpdateWhere(users, id, f))
  {
  }

  /** Email uniqueness and email availability depend on the emails alone. */
  lemma SameEmailsAgree(a: seq<StoredUser>, b: seq<StoredUser>, email: string)
    requires SameEmails(a, b)
    ensures EmailsUnique(a) <==> EmailsUnique(b)
    ensures EmailTaken(a, email) <==> EmailTaken(b, email)
  {
    if EmailTaken(b, email) {
      var i :| 0 <= i < |b| && b[i].email == email;
      assert a[i].email == email;
    }
  }
}
