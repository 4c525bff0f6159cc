/** The list of registered users kept under the storage key
    "registeredUsers", and the two screen handlers that use it:
    `handleRegister` (Registration.tsx) and `handleLogin` (Login.tsx). */
module CredentialStore {
  import opened Wrappers
  import opened Validation
  import opened Login

  /** `users.some(u => u.email === email)`: some stored record already uses the email. */
  predicate EmailTaken(users: seq<User>, email: string) {
    exists i :: 0 <= i < |users| && users[i].email == email
  }

  /** No two stored records share an email. */
  ghost predicate DistinctEmails(users: seq<User>) {
    forall i, j :: 0 <= i < j < |users| ==> users[i].email != users[j].email
  }

  /** Appending a record whose email is not yet taken keeps the emails distinct. */
  lemma AppendKeepsEmailsDistinct(users: seq<User>, user: User)
    requires DistinctEmails(users)
    requires !EmailTaken(users, user.email)
    ensures DistinctEmails(users + [user])
  {
    forall i, j | 0 <= i < j < |users| + 1
      ensures (users + [user])[i].email != (users + [user])[j].email
    {
      if j == |users| {
        assert users[i].email != user.email;
      }
    }
  }

  /** A record appended after the duplicate check passed is what a login
      with its own email and password finds, whatever the earlier records hold. */
  lemma RegisteredUserLogsIn(users: seq<User>, user: User)
    requires !EmailTaken(users, user.email)
    ensures FindUser(users + [user], user.email, user.password) == Some(user)
  {
    var all := users + [user];
    forall j | 0 <= j < |users| ensures !Matches(all[j], user.email, user.password) {
      assert all[j] == users[j];
    }
    FindUserReturnsFirst(all, user.email, user.password, |users|);
  }

  /** Registration outcomes: the three branches of `handleRegister`. */
  datatype RegisterOutcome = InvalidForm | DuplicateEmail | Registered

  /** Login outcomes: the home screen receives the matched record's username,
      or the generic "Invalid email or password" alert is shown. */
  datatype LoginOutcome = LoggedIn(username: string) | InvalidCredentials

  /** The on-device store under the key "registeredUsers". `stored` is the
      deserialised value, `None` while nothing was ever written; `loads` and
      `saves` count the reads and writes the handlers issue. */
  class UserStore {
    var stored: Option<seq<User>>
    ghost var loads: nat
    ghost var saves: nat

    /** A store that holds nothing yet. */
    constructor ()
      ensures stored == None && Users() == []
      ensures loads == 0 && saves == 0
    {
      stored := None;
      loads, saves := 0, 0;
    }

    /** The user list a handler works with: an absent value is the empty list. */
    function Users(): seq<User>
      reads this
    {
      if stored.Some? then stored.value else []
    }

    /** `AsyncStorage.getItem` followed by `JSON.parse`, with the empty-list fallback. */
    method LoadUsers() returns (users: seq<User>)
      modifies this`loads
      ensures users == Users()
      ensures loads == old(loads) + 1
    {
      loads := loads + 1;
      users := Users();
    }

    /** `JSON.stringify` followed by `AsyncStorage.setItem`. */
    method SaveUsers(users: seq<User>)
      modifies this`stored, this`saves
      ensures stored == Some(users)
      ensures saves == old(saves) + 1
    {
      stored := Some(users);
      saves := saves + 1;
    }

    /** `handleRegister`. An invalid form touches nothing in the store; a
        form whose email is already stored leaves the list as it was; any
        other form is appended, whole, to the end of the list. */
    method Register(form: RegistrationForm) returns (outcome: RegisterOutcome)
      modifies this
      ensures outcome == InvalidForm <==> !FormValid(form)
      ensures outcome == DuplicateEmail <==> FormValid(form) && EmailTaken(old(Users()), form.email)
      ensures outcome == Registered <==> FormValid(form) && !EmailTaken(old(Users()), form.email)
      ensures outcome == InvalidForm ==> loads == old(loads)
      ensures outcome != InvalidForm ==> loads == old(loads) + 1
      ensures outcome != Registered ==> stored == old(stored) && saves == old(saves)
      ensures outcome == Registered ==> stored == Some(old(Users()) + [form]) && saves == old(saves) + 1
      ensures Users()[..|old(Users())|] == old(Users())
      ensures DistinctEmails(old(Users())) ==> DistinctEmails(Users())
    {
      var valid, errors := ValidateForm(form);
      if !valid {
        return InvalidForm;
      }
      var users := LoadUsers();
      if EmailTaken(users, form.email) {
        return DuplicateEmail;
      }
      if DistinctEmails(users) {
        AppendKeepsEmailsDistinct(users, form);
      }
      SaveUsers(users + [form]);
      outcome := Registered;
    }

    /** `handleLogin`: one read, no write, and the first record whose email
        and password both equal the inputs decides the outcome. */
    method HandleLogin(email: string, password: string) returns (outcome: LoginOutcome)
      modifies this`loads
      ensures outcome == match FindUser(old(Users()), email, password)
                         case Some(user) => LoggedIn(user.username)
                         case None => InvalidCredentials
      ensures loads == old(loads) + 1
    {
      var users := LoadUsers();
      var user := FindUser(users, email, password);
      if user.Some? {
        outcome := LoggedIn(user.value.username);
      } else {
        outcome := InvalidCredentials;
      }
    }
  }

  /** A user who has just registered can log in with the same credentials,
      and a second registration with that email is refused. */
  method RegisterThenLogin(store: UserStore, form: RegistrationForm, other: RegistrationForm)
    returns (registered: RegisterOutcome, signIn: LoginOutcome, again: RegisterOutcome)
    requires FormValid(form) && FormValid(other) && other.email == form.email
    modifies store
    ensures registered == Registered ==> signIn == LoggedIn(form.username) && again == DuplicateEmail
    ensures registered != Registered ==> registered == DuplicateEmail
    ensures |store.Users()| == |old(store.Users())| + (if registered == Registered then 1 else 0)
  {
    registered := store.Register(form);
    if registered == Registered {
      RegisteredUserLogsIn(old(store.Users()), form);
    }
    signIn := store.HandleLogin(form.email, form.password);
    again := store.Register(other);
    if registered == Registered {
      assert store.Users()[|store.Users()| - 1] == form;
    }
  }
}
