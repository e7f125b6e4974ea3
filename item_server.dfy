/** The request handler of the item server (server.py): ping, register and login are
    open; every other action needs a non-empty `username` and works on that user's
    list of items, kept in the key-value store under `items:<username>`. */
module ItemServer {
  import opened Options
  import opened Auth
  import opened Store

  /** A decoded request. A missing payload field is the empty string wherever the
      handler first tests it for falsity (`not x`) or only looks it up; login's
      password is the exception, because `verify` hashes it untested, so there a
      missing field (`None`) and an empty one behave differently. */
  datatype Request =
    | Ping
    | Register(username: string, password: string)
    | Login(username: string, suppliedPassword: Option<string>)
    | Add(item: string)
    | List
    | Remove(item: string)
    | Help
    | Unknown(action: string)

  /** The replies, one per reply shape the handler sends. */
  datatype Reply =
    | Pong                                            // {"ok": true, "data": {"pong": true}}
    | Registered(ok: bool, error: Option<RegisterError>) // {"ok": ok, "data": {"registered": ok}, "error": err}
    | LoggedIn(ok: bool)                              // error "bad_credentials" unless ok
    | AuthRequired
    | MissingItem
    | Added(item: string)
    | Items(items: seq<string>)
    | Removed(item: string)
    | NotFound
    | Commands(commands: seq<string>)
    | UnknownAction
    | Closed                                          // the handler raised: no reply, the connection is closed

  const HelpCommands := ["register <u> <p>", "login <u> <p>", "add <item>", "list", "remove <item>", "help", "exit"]

  const ItemsPrefix := "items:"

  /** The store key of a user's items. */
  function ItemsKey(username: string): string
  {
    ItemsPrefix + username
  }

  /** Different users never share a list. */
  lemma ItemsKeyInjective(a: string, b: string)
    ensures ItemsKey(a) == ItemsKey(b) <==> a == b
  {
    if ItemsKey(a) == ItemsKey(b) {
      assert a == ItemsKey(a)[|ItemsPrefix|..];
      assert b == ItemsKey(b)[|ItemsPrefix|..];
    }
  }

  /** `items.index(x)`: the position of the first occurrence. */
  function IndexOf(s: seq<string>, x: string): (i: nat)
    requires x in s
    ensures i < |s| && s[i] == x
    ensures forall j :: 0 <= j < i ==> s[j] != x
  {
    if s[0] == x then 0 else 1 + IndexOf(s[1..], x)
  }

  /** `items.remove(x)`: drops the first occurrence and keeps everything else in order. */
  function RemoveFirst(s: seq<string>, x: string): (r: seq<string>)
    requires x in s
    ensures |r| == |s| - 1
    ensures multiset(r) == multiset(s) - multiset{x}
    ensures forall j :: 0 <= j < IndexOf(s, x) ==> r[j] == s[j]
    ensures forall j :: IndexOf(s, x) <= j < |r| ==> r[j] == s[j + 1]
  {
    var i := IndexOf(s, x);
    SpliceParts(s, i);
    s[..i] + s[i + 1..]
  }

  /** Cutting out position `i` keeps the elements on either side of it. */
  lemma SpliceParts(s: seq<string>, i: nat)
    requires i < |s|
    ensures var r := s[..i] + s[i + 1..];
            && |r| == |s| - 1
            && multiset(r) == multiset(s) - multiset{s[i]}
            && (forall j :: 0 <= j < i ==> r[j] == s[j])
            && (forall j :: i <= j < |r| ==> r[j] == s[j + 1])
  {
    var front, back := s[..i], s[i + 1..];
    assert s == front + ([s[i]] + back);
    calc {
      multiset(s);
    ==
      multiset(front) + multiset([s[i]] + back);
    ==
      multiset(front) + (multiset{s[i]} + multiset(back));
    }
    assert multiset(front + back) == multiset(front) + multiset(back);
  }

  /** Adding an item and then removing it restores the list. */
  lemma {:induction false} RemoveAfterAdd(s: seq<string>, x: string)
    requires x !in s
    ensures x in s + [x] && RemoveFirst(s + [x], x) == s
  {
    var i := IndexOf(s + [x], x);
    assert (s + [x])[|s|] == x;
    assert i == |s|;
    assert (s + [x])[..|s|] == s;
  }

  /** The list a remove leaves, for an item present more than once: one copy less. */
  lemma RemoveKeepsOtherCopies(s: seq<string>, x: string)
    requires multiset(s)[x] >= 2
    ensures x in RemoveFirst(s, x)
  {
    assert x in multiset(RemoveFirst(s, x));
  }

  /** One request of `handle`. The `username` of the request is taken on trust: the
      login action checks a password but records no session. */
  method Handle(users: AuthManager, store: Storage<seq<string>>, username: string, req: Request) returns (reply: Reply)
    requires users.Valid()
    modifies users, store
    ensures users.Valid()
    ensures !req.Register? ==> users.users == old(users.users)
    ensures !(req.Add? || req.Remove?) ==> store.data == old(store.data)
    ensures req.Ping? ==> reply == Pong
    ensures req.Register? ==>
              var ok := req.username != "" && req.password != "" && req.username !in old(users.users);
              && reply == Registered(ok, if ok then None
                                         else if req.username == "" || req.password == "" then Some(MissingUsernameOrPassword)
                                         else Some(UserExists))
              && users.users == if ok then old(users.users)[req.username := Account(PasswordHash(req.password))]
                                else old(users.users)
    ensures req.Login? ==>
              reply == if req.username in users.users && req.suppliedPassword.None? then Closed
                       else LoggedIn(req.username in users.users && req.suppliedPassword.Some?
                                     && users.users[req.username].hash == PasswordHash(req.suppliedPassword.value))
    ensures !(req.Ping? || req.Register? || req.Login?) && username == "" ==>
              reply == AuthRequired && store.data == old(store.data)
    ensures username != "" ==>
              var key := ItemsKey(username);
              var items := if key in old(store.data) then old(store.data)[key] else [];
              && (req.Add? ==>
                    if req.item == "" then reply == MissingItem && store.data == old(store.data)
                    else reply == Added(req.item) && store.data == old(store.data)[key := items + [req.item]])
              && (req.List? ==> reply == Items(items))
              && (req.Remove? ==>
                    if req.item in items then
                      reply == Removed(req.item) && store.data == old(store.data)[key := RemoveFirst(items, req.item)]
                    else reply == NotFound && store.data == old(store.data))
              && (req.Help? ==> reply == Commands(HelpCommands))
              && (req.Unknown? ==> reply == UnknownAction)
  {
    match req {
      case Ping => return Pong;
      case Register(u, p) =>
        var ok, err := users.Register(u, p);
        return Registered(ok, err);
      case Login(u, p) =>
        var v := users.Verify(u, p);
        return if v.Raised? then Closed else LoggedIn(v.ok);
      case _ =>
    }
    // the auth gate
    if username == "" {
      return AuthRequired;
    }
    var key := ItemsKey(username);
    match req {
      case Add(item) =>
        if item == "" {
          return MissingItem;
        }
        var items := store.Get(key, []);
        store.Set(key, items + [item]);
        reply := Added(item);
      case List =>
        var items := store.Get(key, []);
        reply := Items(items);
      case Remove(item) =>
        var items := store.Get(key, []);
        if item in items {
          store.Set(key, RemoveFirst(items, item));
          reply := Removed(item);
        } else {
          reply := NotFound;
        }
      case Help => reply := Commands(HelpCommands);
      case _ => reply := UnknownAction;
    }
  }
}
