/** The user registration handler (controllers/users.js) over an in-memory
    model of the user collection. */
module Users {
  import opened Values
  import opened Models

  /** The bcrypt cost factor the handler passes along with the password. */
  const SaltRounds: nat := 10

  const UsernameMessage := "a username is required"
  const PasswordMessage := "a password is required"

  /** A registration body once decoded: each field may be absent. */
  datatype UserPayload = UserPayload(
    username: Option<string>, name: Option<string>, password: Option<string>)

  /** The two ways a registration is refused, in the order they are tested. */
  datatype Rejection = UsernameRequired | PasswordRequired

  /** The `error` text of the 400 body. */
  function Message(r: Rejection): (m: string)
    ensures m == UsernameMessage <==> r == UsernameRequired
    ensures m == PasswordMessage <==> r == PasswordRequired
  {
    match r
    case UsernameRequired => UsernameMessage
    case PasswordRequired => PasswordMessage
  }

  /** JavaScript's `s.length`: the number of UTF-16 code units, so a
      character outside the Basic Multilingual Plane counts twice. */
  function JsLength(s: string): (r: nat)
    ensures |s| <= r <= 2 * |s|
    ensures (forall i :: 0 <= i < |s| ==> s[i] < '\U{10000}') ==> r == |s|
  {
    if s == [] then 0
    else (if s[0] >= '\U{10000}' then 2 else 1) + JsLength(s[1..])
  }

  /** `!s || s.length < 3` for a string field. */
  predicate TooShort(s: Option<string>)
    ensures TooShort(s) <==> s.None? || JsLength(s.value) < 3
  {
    FalsyString(s) || JsLength(s.value) < 3
  }

  /** In characters, a field of at most one character always fails and one of
      three or more always passes; two characters pass only when one of them
      is a surrogate pair. */
  lemma TooShortMeansUnderThree(s: Option<string>)
    ensures s.Some? && |s.value| <= 1 ==> TooShort(s)
    ensures s.Some? && |s.value| >= 3 ==> !TooShort(s)
    ensures s.Some? && |s.value| == 2 ==> (TooShort(s) <==> s.value[0] < '\U{10000}' && s.value[1] < '\U{10000}')
  {
    if s.Some? && |s.value| == 2 {
      var v := s.value;
      assert v[1..][1..] == [];
      assert JsLength(v) == JsLength([v[0]]) + JsLength([v[1]]) by {
        assert [v[0]][1..] == [] && [v[1]][1..] == [] && v[1..] == [v[1]];
      }
    }
  }

  /** A username of one letter and one emoji is three code units long and is
      accepted, though it is only two characters. */
  lemma SurrogatePairCountsTwice()
    ensures |"a\U{1F600}"| == 2 && JsLength("a\U{1F600}") == 3
    ensures Check(UserPayload(Some("a\U{1F600}"), None, Some("pwd"))) == None
  {
  }

  /** The guards in source order: the username first, then the password. */
  function Check(p: UserPayload): (r: Option<Rejection>)
    ensures r == Some(UsernameRequired) <==> TooShort(p.username)
    ensures r == Some(PasswordRequired) <==> !TooShort(p.username) && TooShort(p.password)
    ensures r == None <==> !TooShort(p.username) && !TooShort(p.password)
    ensures r == None ==> JsLength(p.username.value) >= 3 && JsLength(p.password.value) >= 3
  {
    if TooShort(p.username) then Some(UsernameRequired)
    else if TooShort(p.password) then Some(PasswordRequired)
    else None
  }

  /** When both fields are bad, the username error is the one reported. */
  lemma UsernameCheckedFirst(p: UserPayload)
    requires TooShort(p.username) && TooShort(p.password)
    ensures Check(p) == Some(UsernameRequired)
  {
  }

  /** Three characters is long enough for both fields. */
  lemma ThreeCharactersPass(username: string, name: Option<string>, password: string)
    requires |username| == 3 && |password| == 3
    ensures Check(UserPayload(Some(username), name, Some(password))) == None
  {
  }

  /** The body of a handled registration: an error text or the saved user. */
  datatype UserResponse = ErrorBody(error: string) | Saved(user: User)

  /** The user collaborator: the saved users in insertion order. */
  class UserStore {
    var users: seq<User>

    constructor ()
      ensures users == []
    {
      users := [];
    }

    /** POST /: rejects a short username, then a short password, with 400 and
        a distinct message and without touching the store; otherwise saves
        the username, the name and `hash(password, SaltRounds)` and answers 201
        with the saved user. */
    method Register(p: UserPayload, hash: (string, nat) -> string)
      returns (status: nat, body: UserResponse)
      modifies this
      ensures Check(p).Some? ==>
        status == StatusBadRequest && body == ErrorBody(Message(Check(p).value))
        && users == old(users)
      ensures Check(p).None? ==>
        var u := User(p.username.value, p.name, hash(p.password.value, SaltRounds));
        status == StatusCreated && body == Saved(u) && users == old(users) + [u]
    {
      if FalsyString(p.username) || JsLength(p.username.value) < 3 {
        return StatusBadRequest, ErrorBody(UsernameMessage);
      }
      if FalsyString(p.password) || JsLength(p.password.value) < 3 {
        return StatusBadRequest, ErrorBody(PasswordMessage);
      }
      var passwordHash := hash(p.password.value, SaltRounds);
      var user := User(p.username.value, p.name, passwordHash);
      users := users + [user];
      status, body := StatusCreated, Saved(user);
    }
  }
}
