/** Worked examples of the two screens, proved on concrete input. */
module Scenarios {
  import opened Wrappers
  import opened Text
  import opened Email
  import opened Validation
  import opened Login
  import opened CredentialStore

  const Alice := RegistrationForm("alice", "alice@x.com", "secret1", "secret1")
  const Alice2 := RegistrationForm("alice2", "alice@x.com", "abcdef", "abcdef")
  const Bob := RegistrationForm("", "bob@x.com", "abcdef", "abcdef")

  /** Alice's and Alice2's forms pass every rule; Bob's fails on the username alone. */
  lemma ScenarioForms()
    ensures FormValid(Alice) && FormValid(Alice2)
    ensures !UsernameOk(Bob.username) && MatchesPattern(Bob.email) && PasswordOk(Bob.password)
    ensures Bob.confirmPassword == Bob.password
  {
    assert MatchesAt(Alice.email, 5, 7);
    assert MatchesAt(Bob.email, 3, 5);
    assert !IsWhitespace(Alice.username[0]) && !IsWhitespace(Alice2.username[0]);
  }

  /** Validating Bob's form reports the username message and no other. */
  method BlankUsernameErrors() returns (valid: bool, errors: FieldErrors)
    ensures !valid && errors == NoErrors.(username := UsernameRequired)
  {
    ScenarioForms();
    valid, errors := ValidateForm(Bob);
  }

  /** An empty store accepts Alice's registration and then holds her record alone. */
  method AliceRegisters() returns (store: UserStore)
    ensures store.Users() == [Alice]
  {
    ScenarioForms();
    store := new UserStore();
    assert !EmailTaken([], Alice.email);
    var registered := store.Register(Alice);
    assert registered == Registered;
  }

  /** Alice logs in with her credentials, twice with the same result; a wrong
      password is refused. */
  method AliceLogsIn(store: UserStore) returns (first: LoginOutcome, second: LoginOutcome, wrong: LoginOutcome)
    requires store.Users() == [Alice]
    modifies store
    ensures first == LoggedIn("alice") && second == first
    ensures wrong == InvalidCredentials
    ensures store.Users() == [Alice]
  {
    first := store.HandleLogin("alice@x.com", "secret1");
    second := store.HandleLogin("alice@x.com", "secret1");
    assert !Matches(Alice, "alice@x.com", "wrong");
    wrong := store.HandleLogin("alice@x.com", "wrong");
  }

  /** Email comparison is case-sensitive. */
  method CapitalisedEmailRefused(store: UserStore) returns (upper: LoginOutcome)
    requires store.Users() == [Alice]
    modifies store
    ensures upper == InvalidCredentials
  {
    assert "Alice@x.com"[0] != Alice.email[0];
    upper := store.HandleLogin("Alice@x.com", "secret1");
  }

  /** A second account on Alice's email is refused and the list stays as it was. */
  method DuplicateRefused(store: UserStore) returns (again: RegisterOutcome)
    requires store.Users() == [Alice]
    modifies store
    ensures again == DuplicateEmail && store.Users() == [Alice]
  {
    ScenarioForms();
    assert store.Users()[0].email == Alice2.email;
    again := store.Register(Alice2);
  }

  /** A form with an empty username is rejected without the store being read or written. */
  method BlankUsernameRefused(store: UserStore) returns (rejected: RegisterOutcome)
    requires store.Users() == [Alice]
    modifies store
    ensures rejected == InvalidForm
    ensures store.stored == old(store.stored) && store.loads == old(store.loads) && store.saves == old(store.saves)
  {
    ScenarioForms();
    rejected := store.Register(Bob);
  }

  /** Two registrations on distinct emails, starting from an empty store, are
      kept in the order they were made. */
  method RegistrationOrder(u1: RegistrationForm, u2: RegistrationForm) returns (store: UserStore)
    requires FormValid(u1) && FormValid(u2) && u1.email != u2.email
    ensures store.Users() == [u1, u2]
  {
    store := new UserStore();
    var r1 := store.Register(u1);
    assert r1 == Registered && store.Users() == [u1];
    assert !EmailTaken([u1], u2.email);
    var r2 := store.Register(u2);
  }
}
