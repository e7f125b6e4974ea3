/** The account store of the item server (auth.py): usernames mapped to the SHA-256
    digest of their password. */
module Auth {
  import opened Options
  import opened Crypto

  /** `{"hash": <hex digest>}` */
  datatype Account = Account(hash: Digest)

  datatype RegisterError = MissingUsernameOrPassword | UserExists
  {
    /** The string `register` returns as its second component. */
    function Code(): string
    {
      match this
      case MissingUsernameOrPassword => "missing_username_or_password"
      case UserExists => "user_exists"
    }
  }

  /** The two error strings of `register` tell its two refusals apart. */
  lemma CodeIdentifiesError(a: RegisterError, b: RegisterError)
    ensures a.Code() == b.Code() <==> a == b
  {
  }

  /** What `verify` does: answer, or raise. It hashes the password it is given without
      testing it first, so a missing password on a stored user raises (`None.encode`). */
  datatype Verdict = Answered(ok: bool) | Raised

  /** The digest stored for a password; equal digests mean equal passwords. */
  function PasswordHash(password: string): (d: Digest)
    ensures forall other :: Sha256(other) == d <==> other == password
  {
    Sha256(password)
  }

  class AuthManager {
    /** The contents of the users file. */
    var users: map<string, Account>

    /** No account is named by the empty string. */
    ghost predicate Valid()
      reads this
    {
      "" !in users
    }

    /** A manager over a users file that did not exist yet. */
    constructor ()
      ensures Valid() && users == map[]
    {
      users := map[];
    }

    method Register(username: string, password: string) returns (ok: bool, err: Option<RegisterError>)
      requires Valid()
      modifies this
      ensures Valid()
      ensures ok <==> err.None?
      ensures ok <==> username != "" && password != "" && username !in old(users)
      ensures (username == "" || password == "") ==> err == Some(MissingUsernameOrPassword)
      ensures (username != "" && password != "" && username in old(users)) ==> err == Some(UserExists)
      ensures users == if ok then old(users)[username := Account(PasswordHash(password))] else old(users)
    {
      if username == "" || password == "" {
        return false, Some(MissingUsernameOrPassword);
      }
      if username in users {
        return false, Some(UserExists);
      }
      users := users[username := Account(PasswordHash(password))];
      ok, err := true, None;
    }

    /** Answers true exactly for a stored account whose digest is that of `password`;
        an unknown name answers false before the password is looked at, and a missing
        password on a stored account raises. */
    method Verify(username: string, password: Option<string>) returns (v: Verdict)
      ensures v == Raised <==> username in users && password.None?
      ensures v.Answered? ==>
                (v.ok <==> username in users && password.Some? && users[username].hash == PasswordHash(password.value))
    {
      if username !in users {
        return Answered(false);
      }
      match password
      case None => v := Raised;
      case Some(pw) => v := Answered(users[username].hash == PasswordHash(pw));
    }
  }

  /** After a successful registration the registered password verifies and every other
      password is refused; an attempt to register the same name again is refused and
      leaves the account as it was; asking without a password raises. */
  method RegisterThenVerify(m: AuthManager, username: string, password: string, guess: string)
      returns (registered: bool, again: Option<RegisterError>, right: Verdict, wrong: Verdict, none: Verdict)
    requires m.Valid() && username != "" && password != "" && username !in m.users
    modifies m
    ensures m.Valid()
    ensures registered && right == Answered(true)
    ensures again == Some(if guess == "" then MissingUsernameOrPassword else UserExists)
    ensures wrong == Answered(guess == password)
    ensures none == Raised
  {
    var err;
    registered, err := m.Register(username, password);
    var ok2;
    ok2, again := m.Register(username, guess);
    right := m.Verify(username, Some(password));
    wrong := m.Verify(username, Some(guess));
    none := m.Verify(username, None);
  }
}
