/**
 * Looking users up by username or email, and the login-attempt counter of
 * the email authentication backend: failed logins are counted, the account
 * is deactivated with one reactivation email when the count reaches the
 * limit, and the reactivation link restores it one failure short of it.
 */
module Authentication {
  import opened Wrappers
  import opened EmailNormalization

  /** The `LOGIN_ATTEMPTS` setting when the environment does not set it. */
  const DefaultLoginAttempts: int := 3

  /**
   * The account fields the backend reads and writes; `password` stands for
   * the stored credential, and `check_password` for comparing with it.
   */
  datatype Account = Account(username: string, email: string, password: string, loginAttempts: int, isActive: bool)

  /** The lookup condition `Q(email=normalised) | Q(username=username)`. */
  predicate Matches(a: Account, username: string, email: string) {
    a.email == email || a.username == username
  }

  /** The first matching account in table order: `.first()`. */
  function FirstMatch(accounts: seq<Account>, username: string, email: string): (r: Option<nat>)
    ensures r.Some? ==> r.value < |accounts| && Matches(accounts[r.value], username, email)
    ensures r.Some? ==> forall j :: 0 <= j < r.value ==> !Matches(accounts[j], username, email)
    ensures r.None? ==> forall j :: 0 <= j < |accounts| ==> !Matches(accounts[j], username, email)
  {
    if |accounts| == 0 then None
    else if Matches(accounts[0], username, email) then Some(0)
    else
      match FirstMatch(accounts[1..], username, email)
      case None => None
      case Some(i) => Some(i + 1)
  }

  /** How many accounts match: what `get` checks is exactly one. */
  function CountMatches(accounts: seq<Account>, username: string, email: string): (n: nat)
    ensures n <= |accounts|
    ensures n == 0 <==> FirstMatch(accounts, username, email).None?
  {
    if |accounts| == 0 then 0
    else (if Matches(accounts[0], username, email) then 1 else 0) + CountMatches(accounts[1..], username, email)
  }

  /** When one account matches, the first match is the only one. */
  lemma {:induction false} SingleMatch(accounts: seq<Account>, username: string, email: string)
    requires CountMatches(accounts, username, email) == 1
    ensures var i := FirstMatch(accounts, username, email).value;
      forall j :: 0 <= j < |accounts| && j != i ==> !Matches(accounts[j], username, email)
  {
    if !Matches(accounts[0], username, email) {
      SingleMatch(accounts[1..], username, email);
      var i := FirstMatch(accounts[1..], username, email).value;
      forall j | 0 <= j < |accounts| && j != i + 1 ensures !Matches(accounts[j], username, email) {
        if j > 0 {
          assert accounts[j] == accounts[1..][j - 1];
        }
      }
    } else {
      forall j | 1 <= j < |accounts| ensures !Matches(accounts[j], username, email) {
        assert accounts[j] == accounts[1..][j - 1];
      }
    }
  }

  /** A count above one comes from two different matching accounts. */
  lemma {:induction false} SeveralMatchesFound(accounts: seq<Account>, username: string, email: string)
    requires CountMatches(accounts, username, email) >= 2
    ensures exists j, k :: 0 <= j < k < |accounts| && Matches(accounts[j], username, email) && Matches(accounts[k], username, email)
  {
    var t := accounts[1..];
    if Matches(accounts[0], username, email) {
      var k := FirstMatch(t, username, email).value;
      assert accounts[k + 1] == t[k];
      assert Matches(accounts[0], username, email) && Matches(accounts[k + 1], username, email);
    } else {
      SeveralMatchesFound(t, username, email);
      var j, k :| 0 <= j < k < |t| && Matches(t[j], username, email) && Matches(t[k], username, email);
      assert accounts[j + 1] == t[j] && accounts[k + 1] == t[k];
      assert Matches(accounts[j + 1], username, email) && Matches(accounts[k + 1], username, email);
    }
  }

  /** Two different matching accounts make the count exceed one. */
  lemma {:induction false} TwoMatchesCounted(accounts: seq<Account>, username: string, email: string, j: nat, k: nat)
    requires j < k < |accounts|
    requires Matches(accounts[j], username, email) && Matches(accounts[k], username, email)
    ensures CountMatches(accounts, username, email) >= 2
  {
    var t := accounts[1..];
    assert t[k - 1] == accounts[k];
    if j == 0 {
      assert FirstMatch(t, username, email).Some?;
    } else {
      assert t[j - 1] == accounts[j];
      TwoMatchesCounted(t, username, email, j - 1, k - 1);
    }
  }

  /** More than one account matches exactly when two different accounts do: the case `get` refuses. */
  lemma {:induction false} MultipleMatches(accounts: seq<Account>, username: string, email: string)
    ensures CountMatches(accounts, username, email) >= 2 <==>
      exists j, k :: 0 <= j < k < |accounts| && Matches(accounts[j], username, email) && Matches(accounts[k], username, email)
  {
    if CountMatches(accounts, username, email) >= 2 {
      SeveralMatchesFound(accounts, username, email);
    }
    if exists j, k :: 0 <= j < k < |accounts| && Matches(accounts[j], username, email) && Matches(accounts[k], username, email) {
      var j, k :| 0 <= j < k < |accounts| && Matches(accounts[j], username, email) && Matches(accounts[k], username, email);
      TwoMatchesCounted(accounts, username, email, j, k);
    }
  }

  /**
   * `get_user_by_username_or_email`: the first account whose username is
   * the input or whose email is the input normalised.
   */
  function GetUserByUsernameOrEmail(accounts: seq<Account>, username: string): (r: Result<Option<nat>, NormalizeError>)
    ensures r.Err? <==> NormalizeEmail(username).Err?
    ensures r.Ok? && r.value.Some? ==>
      var i := r.value.value;
      i < |accounts| && Matches(accounts[i], username, NormalizeEmail(username).value)
      && forall j :: 0 <= j < i ==> !Matches(accounts[j], username, NormalizeEmail(username).value)
    ensures r.Ok? && r.value.None? ==>
      forall j :: 0 <= j < |accounts| ==> !Matches(accounts[j], username, NormalizeEmail(username).value)
  {
    match NormalizeEmail(username)
    case Err(e) => Err(e)
    case Ok(email) => Ok(FirstMatch(accounts, username, email))
  }

  /** One password check against an account: the account after, and what the user sees. */
  datatype Attempt = Attempt(account: Account, loggedIn: bool, resetEmailSent: bool)

  /**
   * The counter step of `EmailBackend.authenticate` for the account found:
   * success clears the counter; a failure raises it by one, and the failure
   * that brings it to `limit` deactivates the account and sends the
   * reactivation email. Whether the account is active is not consulted.
   */
  function CheckPassword(a: Account, password: string, limit: int): (t: Attempt)
    ensures t.loggedIn <==> password == a.password
    ensures t.loggedIn ==> t.account == a.(loginAttempts := 0)
    ensures !t.loggedIn ==> t.account.loginAttempts == a.loginAttempts + 1
    ensures t.resetEmailSent <==> !t.loggedIn && a.loginAttempts + 1 == limit
    ensures t.account.isActive == (a.isActive && !t.resetEmailSent)
    ensures t.account == a.(loginAttempts := t.account.loginAttempts, isActive := t.account.isActive)
  {
    if a.password == password then Attempt(a.(loginAttempts := 0), true, false)
    else
      var n := a.loginAttempts + 1;
      if n == limit then Attempt(a.(loginAttempts := n, isActive := false), false, true)
      else Attempt(a.(loginAttempts := n), false, false)
  }

  /** What `authenticate` leaves behind: the accounts, the logged-in account if any, and whether an email went out. */
  datatype Outcome = Outcome(accounts: seq<Account>, user: Option<nat>, resetEmailSent: bool)

  datatype AuthError =
    | BadEmail(cause: NormalizeError)
      /** The lookup `get` found more than one account. */
    | MultipleAccounts

  /** `EmailBackend.authenticate(username, password)` with `LOGIN_ATTEMPTS` as `limit`. */
  function Authenticate(accounts: seq<Account>, username: string, password: string, limit: int): (r: Result<Outcome, AuthError>)
    ensures NormalizeEmail(username).Err? ==> r == Err(BadEmail(NormalizeEmail(username).error))
    ensures r == Err(MultipleAccounts) <==>
      NormalizeEmail(username).Ok? && CountMatches(accounts, username, NormalizeEmail(username).value) > 1
    ensures r.Ok? ==> |r.value.accounts| == |accounts|
    ensures r.Ok? && r.value.user.Some? ==>
      r.value.user.value < |accounts| && accounts[r.value.user.value].password == password
  {
    match NormalizeEmail(username)
    case Err(e) => Err(BadEmail(e))
    case Ok(email) =>
      var n := CountMatches(accounts, username, email);
      if n == 0 then Ok(Outcome(accounts, None, false))
      else if n > 1 then Err(MultipleAccounts)
      else
        var i := FirstMatch(accounts, username, email).value;
        var t := CheckPassword(accounts[i], password, limit);
        Ok(Outcome(accounts[i := t.account], if t.loggedIn then Some(i) else None, t.resetEmailSent))
  }

  /**
   * With exactly one matching account the backend runs the password check
   * on it: the right password logs it in and clears its counter, a wrong
   * one logs nobody in and raises its counter by one, and the reactivation
   * email goes out exactly at the failure that reaches the limit.
   */
  lemma AuthenticateUniqueMatch(accounts: seq<Account>, username: string, password: string, limit: int)
    requires NormalizeEmail(username).Ok?
    requires CountMatches(accounts, username, NormalizeEmail(username).value) == 1
    ensures var i := FirstMatch(accounts, username, NormalizeEmail(username).value).value;
      var r := Authenticate(accounts, username, password, limit);
      r.Ok? && r.value.accounts[i] == CheckPassword(accounts[i], password, limit).account
      && (password == accounts[i].password ==> r.value.user == Some(i) && r.value.accounts[i].loginAttempts == 0)
      && (password != accounts[i].password ==>
            r.value.user == None && r.value.accounts[i].loginAttempts == accounts[i].loginAttempts + 1)
      && (r.value.resetEmailSent <==> password != accounts[i].password && accounts[i].loginAttempts + 1 == limit)
  {
    var email := NormalizeEmail(username).value;
    var i := FirstMatch(accounts, username, email).value;
    var t := CheckPassword(accounts[i], password, limit);
    assert Authenticate(accounts, username, password, limit)
      == Ok(Outcome(accounts[i := t.account], if t.loggedIn then Some(i) else None, t.resetEmailSent));
  }

  /**
   * A login name without `@` normalises to the empty email, so the lookup
   * also matches the account whose email is blank. When another account has
   * that username, `get` finds two and the backend fails.
   */
  lemma BlankEmailCollides(accounts: seq<Account>, username: string, password: string, limit: int, j: nat, k: nat)
    requires '@' !in username
    requires j < |accounts| && k < |accounts| && j != k
    requires accounts[j].username == username && accounts[k].email == ""
    ensures Authenticate(accounts, username, password, limit) == Err(MultipleAccounts)
  {
    assert NormalizeEmail(username) == Ok("");
    if j < k {
      TwoMatchesCounted(accounts, username, "", j, k);
    } else {
      TwoMatchesCounted(accounts, username, "", k, j);
    }
  }

  /**
   * A wrong password typed for a login name without `@` that no account has
   * is charged to the one account with a blank email: its counter rises,
   * and at the limit it is deactivated and emailed.
   */
  lemma BlankEmailAccountTakesStrayFailures(accounts: seq<Account>, username: string, password: string, limit: int, k: nat)
    requires '@' !in username
    requires k < |accounts| && accounts[k].email == "" && password != accounts[k].password
    requires forall j :: 0 <= j < |accounts| ==> accounts[j].username != username
    requires forall j :: 0 <= j < |accounts| && j != k ==> accounts[j].email != ""
    ensures var r := Authenticate(accounts, username, password, limit);
      r.Ok? && r.value.user == None
      && r.value.accounts[k].loginAttempts == accounts[k].loginAttempts + 1
      && (r.value.resetEmailSent <==> accounts[k].loginAttempts + 1 == limit)
      && (r.value.accounts[k].isActive <==> accounts[k].isActive && accounts[k].loginAttempts + 1 != limit)
  {
    assert NormalizeEmail(username) == Ok("");
    MultipleMatches(accounts, username, "");
    assert Matches(accounts[k], username, "");
    assert FirstMatch(accounts, username, "") == Some(k);
    AuthenticateUniqueMatch(accounts, username, password, limit);
  }

  /** An unknown user gets no login and changes nothing, exactly when the lookup finds no one. */
  lemma UnknownUserChangesNothing(accounts: seq<Account>, username: string, password: string, limit: int)
    requires NormalizeEmail(username).Ok?
    ensures GetUserByUsernameOrEmail(accounts, username) == Ok(None) <==>
      Authenticate(accounts, username, password, limit) == Ok(Outcome(accounts, None, false))
      && forall j :: 0 <= j < |accounts| ==> !Matches(accounts[j], username, NormalizeEmail(username).value)
  {
  }

  /** When exactly one account matches, the lookup and the backend pick the same one. */
  lemma LookupAgreesWithBackend(accounts: seq<Account>, username: string, password: string, limit: int)
    requires Authenticate(accounts, username, password, limit).Ok?
    requires Authenticate(accounts, username, password, limit).value.user.Some?
    ensures GetUserByUsernameOrEmail(accounts, username) == Ok(Authenticate(accounts, username, password, limit).value.user)
  {
  }

  /** Authentication never activates an account, and changes no account but the one that matched. */
  lemma AuthenticateNeverActivates(accounts: seq<Account>, username: string, password: string, limit: int, j: nat)
    requires Authenticate(accounts, username, password, limit).Ok?
    requires j < |accounts|
    ensures var after := Authenticate(accounts, username, password, limit).value.accounts;
      (after[j].isActive ==> accounts[j].isActive)
      && after[j].username == accounts[j].username && after[j].email == accounts[j].email
      && (!Matches(accounts[j], username, NormalizeEmail(username).value) ==> after[j] == accounts[j])
  {
    var email := NormalizeEmail(username).value;
    var after := Authenticate(accounts, username, password, limit).value.accounts;
    if CountMatches(accounts, username, email) == 1 {
      var i := FirstMatch(accounts, username, email).value;
      assert after == accounts[i := CheckPassword(accounts[i], password, limit).account];
    } else {
      assert after == accounts;
    }
  }

  /** Past the limit, failures still count but neither email nor deactivate. */
  lemma PastLimitOnlyCounts(a: Account, password: string, limit: int)
    requires password != a.password && a.loginAttempts >= limit
    ensures var t := CheckPassword(a, password, limit);
      !t.resetEmailSent && t.account.isActive == a.isActive && t.account.loginAttempts == a.loginAttempts + 1
  {
  }

  /** `k` wrong passwords in a row: the account after them and the emails sent. */
  function FailRepeatedly(a: Account, wrong: string, limit: int, k: nat): (r: (Account, nat))
    ensures r.1 <= k
    decreases k
  {
    if k == 0 then (a, 0)
    else
      var t := CheckPassword(a, wrong, limit);
      var rest := FailRepeatedly(t.account, wrong, limit, k - 1);
      (rest.0, rest.1 + (if t.resetEmailSent then 1 else 0))
  }

  /**
   * After `k` failures the counter has risen by `k`; the account is
   * deactivated with exactly one email when the count passed the limit on
   * the way, and is otherwise as it was, with no email.
   */
  lemma {:induction false} FailRepeatedlyCounts(a: Account, wrong: string, limit: int, k: nat)
    requires wrong != a.password
    ensures var (after, emails) := FailRepeatedly(a, wrong, limit, k);
      var crossed := a.loginAttempts < limit <= a.loginAttempts + k;
      after.loginAttempts == a.loginAttempts + k
      && after.isActive == (a.isActive && !crossed)
      && emails == (if crossed then 1 else 0)
      && after.password == a.password
    decreases k
  {
    if k > 0 {
      var t := CheckPassword(a, wrong, limit);
      FailRepeatedlyCounts(t.account, wrong, limit, k - 1);
    }
  }

  /** From a clean counter, `limit` failures deactivate the account and send one email. */
  lemma LimitFailuresDeactivate(a: Account, wrong: string, limit: int)
    requires wrong != a.password && a.loginAttempts == 0 && limit >= 1
    ensures !FailRepeatedly(a, wrong, limit, limit as nat).0.isActive
    ensures FailRepeatedly(a, wrong, limit, limit as nat).1 == 1
  {
    FailRepeatedlyCounts(a, wrong, limit, limit as nat);
  }

  /** With the default limit, two failures from a clean counter leave the account active. */
  lemma TwoFailuresKeepDefaultAccount(a: Account, wrong: string)
    requires wrong != a.password && a.loginAttempts == 0
    ensures FailRepeatedly(a, wrong, DefaultLoginAttempts, 2).0.isActive == a.isActive
  {
    FailRepeatedlyCounts(a, wrong, DefaultLoginAttempts, 2);
  }

  /**
   * `ResetLoginAttemptsView.get`: with a valid link the account is active
   * again with its counter one short of the limit; otherwise nothing changes.
   */
  function Reactivate(a: Account, tokenValid: bool, limit: int): (r: Account)
    ensures tokenValid ==> r.isActive && r.loginAttempts == limit - 1
    ensures !tokenValid ==> r == a
    ensures r == a.(isActive := r.isActive, loginAttempts := r.loginAttempts)
  {
    if tokenValid then a.(isActive := true, loginAttempts := limit - 1) else a
  }

  /** After reactivation one more failure deactivates the account again, with a fresh email. */
  lemma ReactivatedAccountOneFailureFromLockout(a: Account, wrong: string, limit: int)
    requires wrong != a.password
    ensures var t := CheckPassword(Reactivate(a, true, limit), wrong, limit);
      !t.account.isActive && t.resetEmailSent
  {
  }

  /** After reactivation a correct password logs in and clears the counter. */
  lemma ReactivatedAccountCanLogIn(a: Account, limit: int)
    ensures var t := CheckPassword(Reactivate(a, true, limit), a.password, limit);
      t.loggedIn && t.account.isActive && t.account.loginAttempts == 0
  {
  }
}
