/**
 * The local credential store of src/context/AuthContext.tsx: a map from
 * normalized user name to encoded password and a single persisted session,
 * both kept in the browser's key-value storage, plus the signed-in `user`.
 */
module Auth {
  import opened Text
  import opened Wrappers
  import opened Validators

  /** `normalizeUsername`: trim, then lower-case. */
  function NormalizeUsername(u: string): (r: string)
    ensures |r| <= |u|
    ensures r == [] || (!IsSpace(r[0]) && !IsSpace(r[|r| - 1]))
    ensures forall i :: 0 <= i < |r| ==> Lower(r[i]) == r[i]
  {
    var t := Trim(u);
    LowerKeepsClasses(if t == [] then ' ' else t[0]);
    LowerKeepsClasses(if t == [] then ' ' else t[|t| - 1]);
    forall i | 0 <= i < |t| ensures Lower(Lower(t[i])) == Lower(t[i]) { LowerKeepsClasses(t[i]); }
    ToLower(t)
  }

  /** A name already trimmed and in lowercase is its own key, so together with
      NormalizeIgnoresCase and NormalizeIgnoresSurroundingSpace the key of any
      name is its trimmed, lowercased text. */
  lemma NormalFormIsOwnKey(u: string)
    requires Trim(u) == u && ToLower(u) == u
    ensures NormalizeUsername(u) == u
  {
  }

  /** Names that differ only in letter case share a key. */
  lemma NormalizeIgnoresCase(u: string)
    ensures NormalizeUsername(ToLower(u)) == NormalizeUsername(u)
  {
    TrimToLower(u);
    var t := Trim(u);
    forall i | 0 <= i < |t| ensures Lower(Lower(t[i])) == Lower(t[i]) { LowerKeepsClasses(t[i]); }
  }

  /** Names that differ only in surrounding white space share a key. */
  lemma NormalizeIgnoresSurroundingSpace(u: string)
    ensures NormalizeUsername(Trim(u)) == NormalizeUsername(u)
  {
    TrimIdempotent(u);
  }

  /** Normalizing a normalized name changes nothing. */
  lemma NormalizeIdempotent(u: string)
    ensures NormalizeUsername(NormalizeUsername(u)) == NormalizeUsername(u)
  {
    var t := Trim(u);
    TrimToLower(t);
    TrimIdempotent(u);
    forall i | 0 <= i < |t| ensures Lower(Lower(t[i])) == Lower(t[i]) { LowerKeepsClasses(t[i]); }
  }

  /** Whether a name passes the e-mail check depends only on its normal form. */
  lemma ValidityOfNormalForm(u: string)
    ensures IsValidEmail(NormalizeUsername(u)) == IsValidEmail(u)
  {
    EmailIgnoresCase(Trim(u));
    EmailIgnoresSurroundingSpace(u);
  }

  /** `btoa` stands for any encoding that maps distinct passwords apart. */
  ghost predicate Injective(encode: string -> string)
  {
    forall a, b :: encode(a) == encode(b) ==> a == b
  }

  /** The persisted session record `{ username, createdAt }`. */
  datatype SessionRecord = SessionRecord(username: string, createdAt: int)

  /** The failure branches of `signup` and `signin`, in source order. */
  datatype AuthError =
    | InvalidEmail
    | WeakPassword(reason: Option<string>)
    | AccountExists
    | PasswordRequired
    | NoAccount
    | IncorrectPassword

  /** The decision of `signup` or `signin`: the key to sign in as, or why not. */
  datatype Outcome = Accept(key: string) | Reject(error: AuthError)

  /** `AuthResult`: `{ ok, message }`. */
  datatype AuthResult = AuthResult(ok: bool, message: Option<string>)

  function SignupMessage(e: AuthError): Option<string>
  {
    match e
    case InvalidEmail => Some("Please enter a valid email address")
    case WeakPassword(reason) => reason
    case AccountExists => Some("An account with this email already exists")
    case _ => None
  }

  function SigninMessage(e: AuthError): Option<string>
  {
    match e
    case InvalidEmail => Some("Enter a valid email address")
    case PasswordRequired => Some("Password required")
    case NoAccount => Some("No account found for this email")
    case IncorrectPassword => Some("Incorrect password")
    case _ => None
  }

  /** The checks of `signup` (AuthContext.tsx lines 43-50), first failure wins. */
  function SignupCheck(users: map<string, string>, username: string, password: string): (r: Outcome)
    ensures r.Accept? <==> (IsValidEmail(username) && ValidatePassword(password).valid
                            && NormalizeUsername(username) !in users)
    ensures r.Accept? ==> r.key == NormalizeUsername(username)
    ensures !IsValidEmail(username) ==> r == Reject(InvalidEmail)
    ensures IsValidEmail(username) && !ValidatePassword(password).valid
      ==> r == Reject(WeakPassword(ValidatePassword(password).message))
    ensures (IsValidEmail(username) && ValidatePassword(password).valid
             && NormalizeUsername(username) in users) ==> r == Reject(AccountExists)
  {
    if !IsValidEmail(username) then Reject(InvalidEmail)
    else
      var pwCheck := ValidatePassword(password);
      if !pwCheck.valid then Reject(WeakPassword(pwCheck.message))
      else
        var key := NormalizeUsername(username);
        if key in users then Reject(AccountExists)
        else Accept(key)
  }

  /** The checks of `signin` (AuthContext.tsx lines 62-69), first failure wins. */
  function SigninCheck(users: map<string, string>, username: string, password: string,
                       encode: string -> string): (r: Outcome)
    ensures r.Accept? <==> (IsValidEmail(username) && password != []
                            && NormalizeUsername(username) in users
                            && users[NormalizeUsername(username)] == encode(password))
    ensures r.Accept? ==> r.key == NormalizeUsername(username)
    ensures !IsValidEmail(username) ==> r == Reject(InvalidEmail)
    ensures IsValidEmail(username) && password == [] ==> r == Reject(PasswordRequired)
    ensures (IsValidEmail(username) && password != []
             && NormalizeUsername(username) !in users) ==> r == Reject(NoAccount)
    ensures (IsValidEmail(username) && password != [] && NormalizeUsername(username) in users
             && users[NormalizeUsername(username)] != encode(password)) ==> r == Reject(IncorrectPassword)
  {
    if !IsValidEmail(username) then Reject(InvalidEmail)
    else if password == [] then Reject(PasswordRequired)
    else
      var key := NormalizeUsername(username);
      if key !in users then Reject(NoAccount)
      else if users[key] != encode(password) then Reject(IncorrectPassword)
      else Accept(key)
  }

  /** Every refusal of `signup` comes with a message. */
  lemma SignupRefusalExplained(users: map<string, string>, u: string, p: string)
    ensures SignupCheck(users, u, p).Reject? ==> SignupMessage(SignupCheck(users, u, p).error).Some?
  {
    var v := ValidatePassword(p);
    assert !v.valid ==> v.message.Some?;
  }

  /** Every refusal of `signin` comes with a message. */
  lemma SigninRefusalExplained(users: map<string, string>, u: string, p: string,
                               encode: string -> string)
    ensures SigninCheck(users, u, p, encode).Reject?
      ==> SigninMessage(SigninCheck(users, u, p, encode).error).Some?
  {
  }

  /** After a successful sign-up, signing in with the same password succeeds
      under every spelling of the name that normalizes the same way. */
  lemma SignupThenSignin(users: map<string, string>, u: string, p: string, u': string,
                         encode: string -> string)
    requires SignupCheck(users, u, p).Accept?
    requires NormalizeUsername(u') == NormalizeUsername(u)
    ensures SigninCheck(users[NormalizeUsername(u) := encode(p)], u', p, encode)
      == Accept(NormalizeUsername(u))
  {
    ValidityOfNormalForm(u);
    ValidityOfNormalForm(u');
  }

  /** A second sign-up under a name with the same normal form is refused as
      a duplicate once the password passes. */
  lemma SignupTwiceRefused(users: map<string, string>, u: string, p: string, u': string, q: string,
                           encode: string -> string)
    requires SignupCheck(users, u, p).Accept?
    requires NormalizeUsername(u') == NormalizeUsername(u)
    requires ValidatePassword(q).valid
    ensures SignupCheck(users[NormalizeUsername(u) := encode(p)], u', q) == Reject(AccountExists)
  {
    ValidityOfNormalForm(u);
    ValidityOfNormalForm(u');
  }

  /** In particular, once "A@B.com" has signed up, "a@b.com" is refused as an
      existing account: a change of letter case names the same account. */
  lemma SignupCaseVariantRefused(users: map<string, string>, u: string, p: string, q: string,
                                 encode: string -> string)
    requires SignupCheck(users, u, p).Accept?
    requires ValidatePassword(q).valid
    ensures SignupCheck(users[NormalizeUsername(u) := encode(p)], ToLower(u), q) == Reject(AccountExists)
  {
    NormalizeIgnoresCase(u);
    SignupTwiceRefused(users, u, p, ToLower(u), q, encode);
  }

  /** With an injective encoding, only the stored password opens an account;
      every other non-empty password is refused as incorrect. */
  lemma OnlyStoredPasswordSignsIn(users: map<string, string>, u: string, p: string, q: string,
                                  encode: string -> string)
    requires Injective(encode)
    requires IsValidEmail(u) && q != []
    requires NormalizeUsername(u) in users && users[NormalizeUsername(u)] == encode(p)
    ensures SigninCheck(users, u, q, encode)
      == if q == p then Accept(NormalizeUsername(u)) else Reject(IncorrectPassword)
  {
  }

  /** The start-up effect (AuthContext.tsx lines 32-35): a persisted session
      with a non-empty user name signs that name in, unchecked. */
  function RestoredUser(stored: Option<SessionRecord>): (r: Option<string>)
    ensures r.Some? <==> stored.Some? && stored.value.username != []
    ensures r.Some? ==> r.value == stored.value.username
  {
    if stored.Some? && stored.value.username != [] then Some(stored.value.username) else None
  }

  /** Every key of the credential map is a normalized name. */
  ghost predicate KeysNormalized(users: map<string, string>)
  {
    forall k :: k in users ==> NormalizeUsername(k) == k
  }

  /** `AuthProvider`. `users` and `session` are the two persisted storage
      entries; `user` is the React state. */
  class AuthProvider {
    const encode: string -> string
    var users: map<string, string>
    var session: Option<SessionRecord>
    var user: Option<string>

    /** Mounting the provider: storage as found (a missing or unreadable entry
        reads as the empty map or as no session), then the start-up effect. */
    constructor (encode: string -> string, storedUsers: map<string, string>,
                 storedSession: Option<SessionRecord>)
      ensures this.encode == encode
      ensures users == storedUsers && session == storedSession
      ensures user == RestoredUser(storedSession)
    {
      this.encode := encode;
      users := storedUsers;
      session := storedSession;
      user := RestoredUser(storedSession);
    }

    /** `signup`; `now` is `Date.now()`. */
    method Signup(username: string, password: string, now: int) returns (r: AuthResult)
      modifies this
      ensures var outcome := SignupCheck(old(users), username, password);
        match outcome
        case Accept(key) =>
          && r == AuthResult(true, None)
          && users == old(users)[key := encode(password)]
          && |users| == |old(users)| + 1
          && session == Some(SessionRecord(key, now))
          && user == Some(key)
          && key in users
        case Reject(e) =>
          && r == AuthResult(false, SignupMessage(e))
          && users == old(users) && session == old(session) && user == old(user)
      ensures KeysNormalized(old(users)) ==> KeysNormalized(users)
    {
      var outcome := SignupCheck(users, username, password);
      match outcome {
        case Accept(key) =>
          users := users[key := encode(password)];
          session := Some(SessionRecord(key, now));
          user := Some(key);
          r := AuthResult(true, None);
          NormalizeIdempotent(username);
        case Reject(e) =>
          r := AuthResult(false, SignupMessage(e));
      }
    }

    /** `signin`; `now` is `Date.now()`. The credential map is only read. */
    method Signin(username: string, password: string, now: int) returns (r: AuthResult)
      modifies this
      ensures users == old(users)
      ensures var outcome := SigninCheck(users, username, password, encode);
        match outcome
        case Accept(key) =>
          && r == AuthResult(true, None)
          && session == Some(SessionRecord(key, now))
          && user == Some(key)
          && key in users
        case Reject(e) =>
          && r == AuthResult(false, SigninMessage(e))
          && session == old(session) && user == old(user)
    {
      var outcome := SigninCheck(users, username, password, encode);
      match outcome {
        case Accept(key) =>
          session := Some(SessionRecord(key, now));
          user := Some(key);
          r := AuthResult(true, None);
        case Reject(e) =>
          r := AuthResult(false, SigninMessage(e));
      }
    }

    /** `signout`: forgets the session and the user, whatever the state; a
        provider mounted on what it leaves behind starts signed out. */
    method Signout()
      modifies this
      ensures users == old(users)
      ensures session == None && user == None
      ensures RestoredUser(session) == None
    {
      session := None;
      user := None;
    }
  }
}
