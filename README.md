# Local credential store of the BookMyShow app

The app's registration and login screens share one piece of state: the list of
registered users, kept on the device as a JSON array under the storage key
`registeredUsers`. This project models that list and the three pieces of logic
that work on it:

- **`validateForm`** (registration screen) checks four fields. The username must not be blank after `trim`. The email must match `^[^\s@]+@[^\s@]+\.[^\s@]+$`. The password must be at least six UTF-16 code units long (six characters for text in the Basic Multilingual Plane). The confirmation must equal the password. Every rule runs, and each failing rule sets its own message.
- **`handleRegister`** validates the form and then loads the list; a missing value counts as the empty list. It refuses an email that some stored record already has, exactly and case-sensitively. Otherwise it appends the whole form to the list and writes the list back.
- **`handleLogin`** loads the list and takes the first record whose email and password both equal the inputs. The home screen then receives that record's username; with no match, the user sees a generic "Invalid email or password".

Modules, one per concern:

| file | module | contents |
|---|---|---|
| wrappers.dfy | `Wrappers` | `Option` |
| text.dfy | `Text` | JavaScript whitespace, `trim`, UTF-16 `length`, first-occurrence search |
| email.dfy | `Email` | the e-mail pattern, both as the regular expression's meaning (`MatchesPattern`) and as a hand-written check (`IsEmail`), proved equal |
| validation.dfy | `Validation` | the form, its messages and rules, and the imperative `ValidateForm` |
| login.dfy | `Login` | the find-first lookup `FindUser` and its lemmas |
| credential_store.dfy | `CredentialStore` | the stored list as class `UserStore` (`Register`, `HandleLogin`), the duplicate check, and the uniqueness and round-trip lemmas |
| scenarios.dfy | `Scenarios` | worked examples, proved on concrete input: alice registers, logs in, is refused with a wrong password, with a capitalised email and on a second registration; an empty username is rejected; two registrations keep their order |

The store is a class. Its field `stored: Option<seq<User>>` holds the deserialised value under the key, and `None` means nothing was ever written. Two ghost counters, `loads` and `saves`, record how many reads and writes a handler issues. This lets `Register` state that an invalid form never touches the storage, and that a refused duplicate is read but not written.

How the model reads two details of the code:

- A stored record is the whole form object, `confirmPassword` included (Registration.tsx:79), so a `User` is a `RegistrationForm`.
- The handlers return nothing. They report the outcome through `Alert.alert`, through the field messages (`setErrors`) and through navigation, and their `catch` blocks only log. The model returns the branch taken as `RegisterOutcome` or `LoginOutcome`.

## Model

| member | source | states |
|---|---|---|
| Text.IsWhitespace | src/screens/Registration.tsx:43-49 | the characters `trim` removes and `\s` matches: ECMAScript's WhiteSpace (tab, vertical tab, form feed, space, no-break space, byte order mark, the Unicode space separators) and LineTerminator (LF, CR, U+2028, U+2029) |
| Text.Trim | src/screens/Registration.tsx:43 | `trim` gives the empty string exactly when every character is whitespace, so `!s.trim()` means "blank"; a string without whitespace is returned unchanged |
| Text.TrimStart | src/screens/Registration.tsx:43 | leading-whitespace removal yields a suffix whose dropped prefix is all whitespace and which does not start with whitespace |
| Text.TrimEnd | src/screens/Registration.tsx:43 | trailing-whitespace removal yields a prefix whose dropped suffix is all whitespace and which does not end with whitespace |
| Text.Utf16Length | src/screens/Registration.tsx:54 | JavaScript's `length` lies between the character count and twice it, and equals the character count when no character is outside the Basic Multilingual Plane |
| Text.IndexOf | src/screens/Registration.tsx:48-49 | the result is absent exactly when the character does not occur; otherwise it is the position of the first occurrence |
| Email.MatchesPattern | src/screens/Registration.tsx:48 | the meaning of the anchored regex: some `@` position and a later `.` position split the string into three non-empty runs of characters that are neither whitespace nor `@` |
| Email.IsEmail | src/screens/Registration.tsx:48-49 | the hand-written check: split at the first `@`; a non-empty part before it, no whitespace or further `@` on either side, and a `.` with a character on each side after it |
| Email.IsEmailIffPattern | src/screens/Registration.tsx:48-49 | the hand-written check accepts exactly the strings that `^[^\s@]+@[^\s@]+\.[^\s@]+$` matches, in both directions |
| Email.AcceptedEmailShape | src/screens/Registration.tsx:48-49 | an accepted address is non-empty, has no whitespace (so surrounding spaces reject it and `trim` leaves it unchanged), and has exactly one `@` |
| Validation.ValidateForm | src/screens/Registration.tsx:39-66 | each field's message is set exactly when that field's own rule (`UsernameOk`: not all whitespace; `MatchesPattern`; `PasswordOk`: at least six UTF-16 code units; confirmation equal to the password) fails, and is empty otherwise; the result is valid iff all four rules hold (`FormValid`), iff no message was set |
| Validation.EmailBlankTestRedundant | src/screens/Registration.tsx:49 | the email condition (blank after trim, or not matching the pattern on the untrimmed text) fails exactly when the pattern fails |
| Validation.PasswordLengthBoundary | src/screens/Registration.tsx:54-57 | for ordinary characters the password rule is `length >= 6`: five fail, six pass, and there is no upper bound |
| Login.Matches | src/screens/Login.tsx:30 | the `find` callback: the record's email and password both equal the inputs, by exact, case-sensitive comparison |
| Login.FindUser | src/screens/Login.tsx:30 | a found record is stored and matches both credentials exactly; nothing is found iff no stored record matches |
| Login.FindUserReturnsFirst | src/screens/Login.tsx:30 | when several records match, the lookup returns the earliest in insertion order |
| Login.FindUserIsFirstMatch | src/screens/Login.tsx:30 | whatever the lookup returns stands at the first matching position |
| Login.UniqueEmailDecidesLogin | src/screens/Login.tsx:30-31 | with distinct emails, login with a stored email succeeds, with that record, iff its password is the one entered |
| CredentialStore.EmailTaken | src/screens/Registration.tsx:74 | `users.some(...)`: some stored record's email equals the given email exactly |
| CredentialStore.AppendKeepsEmailsDistinct | src/screens/Registration.tsx:74-80 | appending a record whose email is not yet taken keeps the stored emails pairwise distinct |
| CredentialStore.RegisteredUserLogsIn | src/screens/Registration.tsx:74-80 | after the duplicate check passed and the record was appended, login with its email and password finds exactly that record |
| CredentialStore.UserStore.Users | src/screens/Login.tsx:27 | the list a handler works with: the stored list, or the empty list when no value is stored (also Registration.tsx:73) |
| CredentialStore.UserStore.constructor | src/screens/Registration.tsx:72-73 | a new store holds no value under the key, so it presents the empty user list and has been neither read nor written |
| CredentialStore.UserStore.LoadUsers | src/screens/Registration.tsx:72-73 | one read that yields the stored list, or the empty list when the value is absent |
| CredentialStore.UserStore.SaveUsers | src/screens/Registration.tsx:80 | one write that replaces the stored value with the given list |
| CredentialStore.UserStore.Register | src/screens/Registration.tsx:69-88 | an invalid form is neither read nor written. A taken email (exact match) is read but not written, and the list stays unchanged. Otherwise the new list is the old list plus the form appended, the old records keep their order, and distinct emails stay distinct |
| CredentialStore.UserStore.HandleLogin | src/screens/Login.tsx:23-40 | one read, no write. The outcome carries the username of the first record matching both credentials, or is the generic refusal |
| CredentialStore.RegisterThenLogin | src/screens/Registration.tsx:69-88 | a successful registration is followed by a successful login with the same credentials and a refused second registration on the same email; the list grows by one exactly when registration succeeds |
| Scenarios.ScenarioForms | src/screens/Registration.tsx:39-66 | the forms of the worked examples pass every rule, except that the empty username fails its own rule alone (Bob's email, password length and confirmation all pass) |
| Scenarios.BlankUsernameErrors | src/screens/Registration.tsx:39-66 | validating a form whose only fault is an empty username yields "invalid" with exactly the username message set and every other message empty |
| Scenarios.AliceLogsIn | src/screens/Login.tsx:23-40 | with alice's record stored, her credentials log her in with username "alice", a repeated login gives the same outcome, a wrong password is refused, and the list is unchanged |
| Scenarios.CapitalisedEmailRefused | src/screens/Login.tsx:30 | "Alice@x.com" does not log in against the stored "alice@x.com": comparison is case-sensitive |
| Scenarios.DuplicateRefused | src/screens/Registration.tsx:74-77 | a second registration on alice's email is refused and the list stays `[alice]` |
| Scenarios.BlankUsernameRefused | src/screens/Registration.tsx:71 | a form with an empty username is refused, and the store is neither read nor written |
| Scenarios.RegistrationOrder | src/screens/Registration.tsx:79-80 | for any two valid forms with distinct emails, registering them in turn on an empty store yields exactly `[u1, u2]` |

## Left out

- Rendering, styles, password-visibility toggles, `useState` plumbing and `setErrors`: `ValidateForm` returns the messages that the screen would store.
- Navigation (`navigation.navigate` to `Login` and `Home`, and the `App.tsx` wiring): `LoginOutcome.LoggedIn` carries the username handed to the home screen.
- `Alert.alert`: only the branch it reports is modelled.
- The asynchrony of `AsyncStorage.getItem`/`setItem`. Each call is one atomic step on `UserStore`, and no other writer interleaves.
- `JSON.stringify`/`JSON.parse`. The stored value is kept already deserialised, so a corrupt value and the `catch` blocks that only log it are not modelled. An empty stored string, which the code also treats as "no users", is the same as an absent value here.
- CredentialStore.UserStore.Register: storage failures are not modelled, because `AsyncStorage.getItem` and `setItem` never fail here. In the code a rejected read or write is caught and only logged, and no success alert is shown. The model instead always reports `Registered` after its write. The same holds for `CredentialStore.UserStore.HandleLogin`, whose read always succeeds.
- Lone UTF-16 surrogates cannot occur in a Dafny string, so `Utf16Length` counts only well-formed text.
- `handleSignUp` only navigates, so it is not modelled.
