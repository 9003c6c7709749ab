/**
 * The sign-in / sign-up page of `src/components/AuthPage.tsx`: the SSN
 * field's as-you-type formatter and the checks each form's submit handler
 * runs before it calls the auth store (the browser's own field validation
 * runs earlier and is not modelled).
 */
module AuthPage {
  import opened Text
  import opened Records
  import AuthStore

  /** Clamps a `String.prototype.substring` argument into `[0, n]`. */
  function ClampIndex(x: int, n: nat): (r: nat)
    ensures r <= n
  {
    if x < 0 then 0 else if x > n then n else x
  }

  /** `s.substring(start, end)`: both ends clamped to the string, swapped when reversed. */
  function JsSubstring(s: string, start: int, end: int): string {
    var a, b := ClampIndex(start, |s|), ClampIndex(end, |s|);
    if a <= b then s[a..b] else s[b..a]
  }

  /**
   * The SSN field's `onChange`: strip non-digits, put a dash after the
   * third digit, then (once the value is six characters long) a dash after
   * the sixth character, keeping at most four characters after it.
   */
  function FormatSsn(input: string): (r: string)
    ensures r == SsnLayout(Take9(Digits(input)))
  {
    var v0 := Digits(input);
    var v1 := if |v0| >= 3 then JsSubstring(v0, 0, 3) + "-" + JsSubstring(v0, 3, |v0|) else v0;
    var out := if |v1| >= 6 then JsSubstring(v1, 0, 6) + "-" + JsSubstring(v1, 6, 10) else v1;
    assert out == SsnLayout(Take9(v0)) by {
      var n := |v0|;
      if 3 <= n {
        assert v1 == v0[..3] + "-" + v0[3..];
        if n >= 5 {
          var p := Take9(v0);
          var m := if n + 1 < 10 then n + 1 else 10;
          assert |v1| == n + 1;
          assert JsSubstring(v1, 0, 6) == v1[..6] == p[..3] + "-" + p[3..5];
          assert JsSubstring(v1, 6, 10) == v1[6..m];
          assert |p[5..]| == m - 6;
          forall k | 0 <= k < m - 6
            ensures v1[6..m][k] == p[5..][k]
          {
            assert v1[6 + k] == v0[3..][2 + k] == v0[5 + k] == p[5 + k];
          }
          assert v1[6..m] == p[5..];
        }
      }
    }
    out
  }

  /** At most the first nine characters of `d`. */
  function Take9(d: string): (r: string)
    ensures |r| <= 9
    ensures |r| == if |d| <= 9 then |d| else 9
  {
    if |d| <= 9 then d else d[..9]
  }

  /** Reference layout: up to nine digits grouped as `DDD-DD-DDDD`. */
  function SsnLayout(p: string): string
    requires |p| <= 9
  {
    if |p| < 3 then p
    else if |p| < 5 then p[..3] + "-" + p[3..]
    else p[..3] + "-" + p[3..5] + "-" + p[5..]
  }

  /** The layout of `p` has `p`'s digits and nothing else but dashes. */
  lemma LayoutDigits(p: string)
    requires |p| <= 9 && AllDigits(p)
    ensures Digits(SsnLayout(p)) == p
  {
    assert Digits("-") == "";
    if |p| < 3 {
      DigitsOfDigits(p);
    } else if |p| < 5 {
      DigitsAppend(p[..3] + "-", p[3..]);
      DigitsAppend(p[..3], "-");
      DigitsOfDigits(p[..3]);
      DigitsOfDigits(p[3..]);
      assert p[..3] + p[3..] == p;
    } else {
      DigitsAppend(p[..3] + "-" + p[3..5] + "-", p[5..]);
      DigitsAppend(p[..3] + "-" + p[3..5], "-");
      DigitsAppend(p[..3] + "-", p[3..5]);
      DigitsAppend(p[..3], "-");
      DigitsOfDigits(p[..3]);
      DigitsOfDigits(p[3..5]);
      DigitsOfDigits(p[5..]);
      assert p[..3] + p[3..5] + p[5..] == p;
    }
  }

  /** The output holds exactly the first `min(n, 9)` digits of the input, in order. */
  lemma SsnKeepsLeadingDigits(input: string)
    ensures Digits(FormatSsn(input)) == Take9(Digits(input))
  {
    LayoutDigits(Take9(Digits(input)));
  }

  /**
   * Dashes are the only non-digits, they sit only at positions 3 and 6, and
   * they are there once the input has three, respectively five, digits.
   */
  lemma SsnDashPositions(input: string)
    ensures var r, n := FormatSsn(input), |Digits(input)|;
      && (forall i :: 0 <= i < |r| && !IsDigit(r[i]) ==> r[i] == '-' && (i == 3 || i == 6))
      && (n >= 3 <==> |r| > 3 && r[3] == '-')
      && (n >= 5 <==> |r| > 6 && r[6] == '-')
  {
    var p := Take9(Digits(input));
    LayoutDashes(p);
  }

  /** Where `SsnLayout` puts its dashes, for a string of digits. */
  lemma LayoutDashes(p: string)
    requires |p| <= 9 && AllDigits(p)
    ensures var r := SsnLayout(p);
      && (forall i :: 0 <= i < |r| && !IsDigit(r[i]) ==> r[i] == '-' && (i == 3 || i == 6))
      && (|p| >= 3 <==> |r| > 3 && r[3] == '-')
      && (|p| >= 5 <==> |r| > 6 && r[6] == '-')
  {
    var r := SsnLayout(p);
    if |p| < 3 {
    } else if |p| < 5 {
      assert r == p[..3] + "-" + p[3..];
      assert forall i :: 0 <= i < |r| && i != 3 ==> r[i] == p[if i < 3 then i else i - 1];
    } else {
      assert r == p[..3] + "-" + p[3..5] + "-" + p[5..];
      assert forall i :: 0 <= i < |r| && i != 3 && i != 6 ==>
        r[i] == p[if i < 3 then i else if i < 6 then i - 1 else i - 2];
    }
  }

  /** The output length: one character per kept digit plus one per dash, never above 11. */
  lemma SsnLength(input: string)
    ensures var r, m := FormatSsn(input), |Take9(Digits(input))|;
      && |r| == m + (if m >= 3 then 1 else 0) + (if m >= 5 then 1 else 0)
      && |r| <= 11
  {
  }

  /** `DDD-DD-DDDD`. */
  ghost predicate FullSsnShape(r: string) {
    && |r| == 11
    && forall i :: 0 <= i < 11 ==> if i == 3 || i == 6 then r[i] == '-' else IsDigit(r[i])
  }

  /** With nine or more digits in the input the output is a complete SSN. */
  lemma SsnFullShape(input: string)
    requires |Digits(input)| >= 9
    ensures FullSsnShape(FormatSsn(input))
  {
    var p := Take9(Digits(input));
    var r := FormatSsn(input);
    assert r == p[..3] + "-" + p[3..5] + "-" + p[5..];
    forall i | 0 <= i < 11
      ensures if i == 3 || i == 6 then r[i] == '-' else IsDigit(r[i])
    {
      if i < 3 {
        assert r[i] == p[i];
      } else if 3 < i < 6 {
        assert r[i] == p[i - 1];
      } else if i > 6 {
        assert r[i] == p[i - 2];
      }
    }
  }

  /** Formatting an already formatted value leaves it unchanged. */
  lemma SsnIdempotent(input: string)
    ensures FormatSsn(FormatSsn(input)) == FormatSsn(input)
  {
    var r := FormatSsn(input);
    SsnKeepsLeadingDigits(input);
    assert Take9(Digits(r)) == Digits(r);
  }

  // ---------------------------------------------------------------------
  // Form guards
  // ---------------------------------------------------------------------

  datatype LoginForm = LoginForm(email: string, password: string)

  datatype RegisterForm = RegisterForm(
    email: string,
    password: string,
    confirmPassword: string,
    fullName: string,
    phoneNumber: string,
    address: string,
    dateOfBirth: string,
    ssn: string,
    country: string)

  /** The destructive toasts a form shows instead of calling the store. */
  datatype FormError = MissingInformation | PasswordMismatch | SsnRequired

  /** A submit either stops at a form check or reaches the auth store. */
  datatype Submission = Blocked(reason: FormError) | Submitted(reply: AuthStore.Reply)

  /** `handleLogin`: both fields must be non-empty before `login` is called. */
  function HandleLogin(st: AuthStore.AuthState, form: LoginForm): (r: Submission)
    ensures r.Blocked? <==> form.email == "" || form.password == ""
    ensures r.Blocked? ==> r.reason == MissingInformation
    ensures r.Submitted? ==> r.reply == AuthStore.Login(st, form.email, form.password)
  {
    if form.email == "" || form.password == "" then Blocked(MissingInformation)
    else Submitted(AuthStore.Login(st, form.email, form.password))
  }

  /** The fields of the form `register` keeps (the confirmation and the country are not copied into the stored user). */
  function RegisterDataOf(form: RegisterForm): RegisterData {
    RegisterData(form.email, form.password, form.fullName, form.phoneNumber,
                 form.address, form.dateOfBirth, form.ssn)
  }

  /**
   * `handleRegister`: the passwords must agree (checked first), and a US
   * customer must give an SSN; only then is `register` called.
   */
  function HandleRegister(st: AuthStore.AuthState, form: RegisterForm, now: nat, otpDraw: nat, accountDraw: nat): (r: Submission)
    requires AuthStore.IsOtpDraw(otpDraw) && AuthStore.IsAccountDraw(accountDraw)
    ensures r == Blocked(PasswordMismatch) <==> form.password != form.confirmPassword
    ensures r == Blocked(SsnRequired) <==>
      form.password == form.confirmPassword && form.country == "US" && form.ssn == ""
    ensures r.Blocked? ==> r.reason != MissingInformation
    ensures r.Submitted? ==> r.reply == AuthStore.Register(st, RegisterDataOf(form), now, otpDraw, accountDraw)
  {
    if form.password != form.confirmPassword then Blocked(PasswordMismatch)
    else if form.country == "US" && form.ssn == "" then Blocked(SsnRequired)
    else Submitted(AuthStore.Register(st, RegisterDataOf(form), now, otpDraw, accountDraw))
  }

  /** Outside the US the SSN never decides whether the submit handler calls the store. */
  lemma NonUsSsnNeverBlocks(st: AuthStore.AuthState, form: RegisterForm, now: nat, otpDraw: nat,
                            accountDraw: nat, otherSsn: string)
    requires AuthStore.IsOtpDraw(otpDraw) && AuthStore.IsAccountDraw(accountDraw)
    requires form.country != "US"
    ensures HandleRegister(st, form, now, otpDraw, accountDraw).Submitted? <==>
            HandleRegister(st, form.(ssn := otherSsn), now, otpDraw, accountDraw).Submitted?
    ensures HandleRegister(st, form, now, otpDraw, accountDraw).Submitted? <==> form.password == form.confirmPassword
  {
  }
}
