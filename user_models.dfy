/** backend/users/models.py: users and the subscription relation between
    them, with the constraints the database and the field validators
    enforce. */
module UserModels {
  import opened Common

  type UserId = int

  datatype User = User(
    id: UserId,
    email: string,
    username: string,
    firstName: string,
    lastName: string,
    password: string
  )

  /** The user a request comes from: Django's anonymous user, or a stored
      user. */
  datatype Visitor = Anonymous | Authenticated(id: UserId)

  /** A row of the Subscription table: `user` follows `author`. */
  datatype Subscription = Subscription(user: UserId, author: UserId)

  /** The username pattern `^[\w.@+-]+\Z`; what `\w` admits is Unicode
      dependent, so the word-character test is a parameter. */
  predicate UsernamePatternMatches(username: string, isWordChar: char -> bool) {
    && username != []
    && forall i :: 0 <= i < |username| ==> InUsernameClass(username[i], isWordChar)
  }

  /** One character of the class `[\w.@+-]`. */
  predicate InUsernameClass(c: char, isWordChar: char -> bool) {
    isWordChar(c) || c in {'.', '@', '+', '-'}
  }

  /** The regular expression read as a matcher: `[\w.@+-]` consumes the
      first character, and `+` then either stops at the end of the
      string (`\Z`) or consumes one more. */
  predicate ClassPlusToEnd(s: string, isWordChar: char -> bool) {
    && s != []
    && InUsernameClass(s[0], isWordChar)
    && (|s| == 1 || ClassPlusToEnd(s[1..], isWordChar))
  }

  /** The pattern test agrees with the matcher on every string: a username
      matches exactly when it is one or more characters of the class and
      nothing follows them. */
  lemma {:induction false} UsernamePatternIsMatcher(s: string, isWordChar: char -> bool)
    ensures UsernamePatternMatches(s, isWordChar) <==> ClassPlusToEnd(s, isWordChar)
  {
    if |s| > 1 {
      UsernamePatternIsMatcher(s[1..], isWordChar);
      if ClassPlusToEnd(s, isWordChar) {
        forall i | 0 <= i < |s| ensures InUsernameClass(s[i], isWordChar) {
          if i > 0 {
            assert s[i] == s[1..][i - 1];
          }
        }
      }
      if UsernamePatternMatches(s, isWordChar) {
        assert InUsernameClass(s[0], isWordChar);
        forall i | 0 <= i < |s[1..]| ensures InUsernameClass(s[1..][i], isWordChar) {
          assert s[1..][i] == s[i + 1];
        }
      }
    }
  }

  /** Every validator on `User.username`: the length limit, the
      reserved-name check `validate_me` (not part of this model, so a
      parameter) and the pattern. */
  predicate UsernameValid(settings: Settings, username: string,
                          isWordChar: char -> bool, validateMe: string -> bool)
  {
    && |username| <= settings.usernameMaxLength
    && validateMe(username)
    && UsernamePatternMatches(username, isWordChar)
  }

  /** The unique columns of the User table: id (the primary key), email and
      username. The table is keyed by id. */
  predicate UsersUnique(users: map<UserId, User>) {
    && (forall id | id in users :: users[id].id == id)
    && (forall a, b | a in users && b in users && a != b ::
          users[a].email != users[b].email && users[a].username != users[b].username)
  }

  /** The unique constraint `unique_subscription` on (user, author). Nothing
      at this level forbids a user following themself. */
  predicate SubscriptionsUnique(subscriptions: seq<Subscription>) {
    Distinct(subscriptions)
  }

  /** Lexicographic order on strings by code point. */
  predicate StringLe(a: string, b: string)
    decreases |a|
  {
    a == [] || (b != [] && (a[0] < b[0] || (a[0] == b[0] && StringLe(a[1..], b[1..]))))
  }

  /** The default ordering of the User table, by username. */
  predicate OrderedByUsername(users: seq<User>) {
    forall i, j :: 0 <= i < j < |users| ==> StringLe(users[i].username, users[j].username)
  }

  lemma {:induction false} StringLeTotal(a: string, b: string)
    ensures StringLe(a, b) || StringLe(b, a)
    decreases |a|
  {
    if a != [] && b != [] && a[0] == b[0] {
      StringLeTotal(a[1..], b[1..]);
    }
  }

  lemma {:induction false} StringLeTransitive(a: string, b: string, c: string)
    requires StringLe(a, b) && StringLe(b, c)
    ensures StringLe(a, c)
    decreases |a|
  {
    if a != [] && b != [] && c != [] && a[0] == b[0] && b[0] == c[0] {
      StringLeTransitive(a[1..], b[1..], c[1..]);
    }
  }
}
