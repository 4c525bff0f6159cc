/** The credential lookup of the login screen (Login.tsx, `handleLogin`):
    `users.find(u => u.email === email && u.password === password)`. */
module Login {
  import opened Wrappers
  import opened Validation

  /** A stored record is the registration form as it was submitted. */
  type User = RegistrationForm

  /** Exact, case-sensitive comparison of both credentials. */
  predicate Matches(user: User, email: string, password: string) {
    user.email == email && user.password == password
  }

  /** `i` is the position of the first record whose credentials match. */
  ghost predicate IsFirstMatch(users: seq<User>, email: string, password: string, i: int) {
    && 0 <= i < |users|
    && Matches(users[i], email, password)
    && forall j :: 0 <= j < i ==> !Matches(users[j], email, password)
  }

  /** The first record, in insertion order, whose email and password both
      equal the inputs; `None` when no record matches. */
  function FindUser(users: seq<User>, email: string, password: string): (r: Option<User>)
    ensures r.Some? ==> r.value in users && Matches(r.value, email, password)
    ensures r.None? <==> forall i :: 0 <= i < |users| ==> !Matches(users[i], email, password)
  {
    if users == [] then None
    else if Matches(users[0], email, password) then Some(users[0])
    else FindUser(users[1..], email, password)
  }

  /** When several records match, the lookup returns the earliest one. */
  lemma {:induction false} FindUserReturnsFirst(users: seq<User>, email: string, password: string, i: int)
    requires IsFirstMatch(users, email, password, i)
    ensures FindUser(users, email, password) == Some(users[i])
  {
    if i > 0 {
      assert IsFirstMatch(users[1..], email, password, i - 1) by {
        forall j | 0 <= j < i - 1 ensures !Matches(users[1..][j], email, password) {
          assert users[1..][j] == users[j + 1];
        }
      }
      FindUserReturnsFirst(users[1..], email, password, i - 1);
    }
  }

  /** Conversely, whatever the lookup returns sits at the first matching position. */
  lemma {:induction false} FindUserIsFirstMatch(users: seq<User>, email: string, password: string)
    requires FindUser(users, email, password).Some?
    ensures exists i :: IsFirstMatch(users, email, password, i) && users[i] == FindUser(users, email, password).value
  {
    if Matches(users[0], email, password) {
      assert IsFirstMatch(users, email, password, 0);
    } else {
      FindUserIsFirstMatch(users[1..], email, password);
      var i :| IsFirstMatch(users[1..], email, password, i) && users[1..][i] == FindUser(users[1..], email, password).value;
      assert IsFirstMatch(users, email, password, i + 1);
    }
  }

  /** When no two records share an email, the record with the given email is
      the only candidate: login succeeds with it exactly when its password
      is the one entered. */
  lemma UniqueEmailDecidesLogin(users: seq<User>, i: int, password: string)
    requires 0 <= i < |users|
    requires forall j, k :: 0 <= j < k < |users| ==> users[j].email != users[k].email
    ensures FindUser(users, users[i].email, password) ==
            if users[i].password == password then Some(users[i]) else None
  {
    if users[i].password == password {
      FindUserReturnsFirst(users, users[i].email, password, i);
    }
  }
}
