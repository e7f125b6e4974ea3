/** Sequences of requests against the relay database, with what the client observes.
    Each is proved from the contracts of `Relay.Database` alone. */
module RelayScenarios {
  import opened Options
  import opened Crypto
  import opened Failures
  import opened Accounts
  import opened Mailbox
  import opened Presence
  import opened Relay
  import Text
  import MessageSearch
  import StableSort

  /** A new user can log in with the password it registered; registering the name a
      second time is refused. */
  method RegisterThenLogin(db: Database, user: string, pw: string, other: string, now: int)
      returns (first: Response, second: Response, login: Response)
    requires db.Valid() && user != "" && PasswordValid(pw) && user !in db.users
    modifies db
    ensures db.Valid()
    ensures first == Ok && second == Failed(if other == "" then MissingFields
                                            else if !PasswordValid(other) then PwTooShort
                                            else UserExists)
    ensures login == Ok && user in db.users && db.users[user] == NewUser(pw)
  {
    first := db.Register(user, pw);
    second := db.Register(user, other);
    login := db.Login(user, pw, now);
  }

  /** Two wrong passwords report strikes 1 and 2, the third locks the account for ten
      minutes, an attempt inside the window is refused even with the right password,
      and once the window has passed the right password succeeds and clears the record. */
  method ThreeStrikes(db: Database, user: string, pw: string, bad: string, t1: int, t2: int, t3: int, t4: int, t5: int)
      returns (r1: Response, r2: Response, r3: Response, r4: Response, r5: Response)
    requires db.Valid() && user in db.users && db.users[user] == NewUser(pw) && bad != pw
    requires t3 <= t4 < t3 + LockoutSeconds <= t5
    modifies db
    ensures db.Valid()
    ensures r1 == Failed(BadCredentials(1)) && r2 == Failed(BadCredentials(2)) && r3 == Failed(LockedAfter3(3))
    ensures r4 == Failed(LockedOut) && r5 == Ok
    ensures user in db.users && db.users[user] == NewUser(pw)
    ensures db.messages == old(db.messages)
  {
    ThreeStrikesThenLockout(pw, bad, t1, t2, t3, t4, t5);
    r1 := db.Login(user, bad, t1);
    r2 := db.Login(user, bad, t2);
    r3 := db.Login(user, bad, t3);
    r4 := db.Login(user, pw, t4);
    r5 := db.Login(user, pw, t5);
  }

  /** A text sent to `to` is the last entry of its inbox, decrypted and unread; the
      next inbox call shows the same entries, now read. */
  method SendThenInboxTwice(db: Database, from: string, to: string, text: string, now: int)
      returns (sent: Response, first: Response, second: Response)
    requires db.Valid() && from != "" && to in db.users && text != ""
    modifies db
    ensures db.Valid()
    ensures sent == Ok && first.InboxReply? && second.InboxReply?
    ensures |first.messages| == |second.messages| > 0
    ensures first.messages[|first.messages| - 1] == InboxEntry(from, text, now, false, TextKind)
    ensures forall i :: 0 <= i < |first.messages| ==> second.messages[i] == first.messages[i].(read := true)
  {
    sent := db.Send(from, to, text, now);
    assert to in db.messages;
    first := db.Inbox(to);
    second := db.Inbox(to);
  }

  /** Two wrong passwords and then the right one: strikes 1 and 2 are reported, and
      the successful login leaves the user table as it was before. */
  method TwoStrikesThenLogin(db: Database, user: string, pw: string, bad: string, t1: int, t2: int, t3: int)
      returns (r1: Response, r2: Response, r3: Response)
    requires db.Valid() && user in db.users && db.users[user] == NewUser(pw) && bad != pw
    modifies db
    ensures db.Valid()
    ensures r1 == Failed(BadCredentials(1)) && r2 == Failed(BadCredentials(2)) && r3 == Ok
    ensures db.users == old(db.users) && db.messages == old(db.messages) && db.mailboxOrder == old(db.mailboxOrder)
  {
    r1 := db.Login(user, bad, t1);
    assert db.users[user] == UserRecord(pw, 1, None);
    r2 := db.Login(user, bad, t2);
    assert db.users[user] == UserRecord(pw, 2, None);
    r3 := db.Login(user, pw, t3);
    assert db.users[user] == NewUser(pw);
    assert db.users == old(db.users)[user := NewUser(pw)];
  }

  /** A text sent to a user with an empty mailbox is the whole of its inbox. */
  method SendToEmptyInbox(db: Database, from: string, to: string, text: string, now: int)
      returns (sent: Response, inbox: Response)
    requires db.Valid() && from != "" && to in db.users && text != "" && db.BoxOf(to) == []
    modifies db
    ensures db.Valid()
    ensures sent == Ok && inbox == InboxReply([InboxEntry(from, text, now, false, TextKind)])
    ensures db.users == old(db.users)
  {
    sent := db.Send(from, to, text, now);
    assert db.BoxOf(to) == [Message(from, Text(Encrypt(db.key, text)), now, false)];
    inbox := db.Inbox(to);
  }

  /** The register / login / send / inbox exchange between erika and sam on a fresh
      database. */
  method ErikaAndSam(k: Key, t: int) returns (db: Database, replies: seq<Response>)
    ensures db.Valid()
    ensures replies == [Ok, Ok, Failed(BadCredentials(1)), Failed(BadCredentials(2)), Ok, Ok,
                        InboxReply([InboxEntry("erika", "lunch?", t + 5, false, TextKind)])]
    ensures "erika" in db.users && db.users["erika"] == NewUser("secret1")
  {
    assert "erika" != "sam" && "wrong" != "secret1";
    assert PasswordValid("secret1") && PasswordValid("secret2");
    db := new Database(k);
    var r1 := db.Register("erika", "secret1");
    var r2 := db.Register("sam", "secret2");
    assert db.users == map["erika" := NewUser("secret1"), "sam" := NewUser("secret2")];
    assert db.BoxOf("sam") == [];
    var r3, r4, r5 := TwoStrikesThenLogin(db, "erika", "secret1", "wrong", t + 1, t + 2, t + 3);
    var r6, r7 := SendToEmptyInbox(db, "erika", "sam", "lunch?", t + 5);
    replies := [r1, r2, r3, r4, r5, r6, r7];
  }

  /** `a` sends `x` to `b`, then `b` answers `y`: the thread of each direction holds
      exactly that one message. */
  method SendBothWays(db: Database, a: string, b: string, x: string, y: string, t1: int, t2: int)
    requires db.Valid() && a in db.users && b in db.users && a != b && x != "" && y != ""
    requires Count(db.BoxOf(a), b) == 0 && Count(db.BoxOf(b), a) == 0
    modifies db
    ensures db.Valid() && db.users == old(db.users)
    ensures Thread(db.key, db.BoxOf(a), b, a) == [ThreadEntry(b, a, y, t2, TextKind, None)]
    ensures Thread(db.key, db.BoxOf(b), a, b) == [ThreadEntry(a, b, x, t1, TextKind, None)]
  {
    ThreadShape(db.key, db.BoxOf(a), b, a);
    ThreadShape(db.key, db.BoxOf(b), a, b);
    ThreadAppend(db.key, db.BoxOf(b), Message(a, Text(Encrypt(db.key, x)), t1, false), a, b);
    ThreadAppend(db.key, db.BoxOf(a), Message(b, Text(Encrypt(db.key, y)), t2, false), b, a);
    var r1 := db.Send(a, b, x, t1);
    var r2 := db.Send(b, a, y, t2);
  }

  /** After that exchange both sides of the conversation see the two messages, oldest
      first, whichever mailbox holds them. */
  method Exchange(db: Database, a: string, b: string, x: string, y: string, t1: int, t2: int)
      returns (atA: Response, atB: Response)
    requires db.Valid() && a in db.users && b in db.users && a != b && x != "" && y != "" && t1 < t2
    requires Count(db.BoxOf(a), b) == 0 && Count(db.BoxOf(b), a) == 0
    modifies db
    ensures db.Valid()
    ensures var h := [ThreadEntry(a, b, x, t1, TextKind, None), ThreadEntry(b, a, y, t2, TextKind, None)];
            atA == HistoryReply(h) && atB == HistoryReply(h)
  {
    var hi := ThreadEntry(a, b, x, t1, TextKind, None);
    var hey := ThreadEntry(b, a, y, t2, TextKind, None);
    SendBothWays(db, a, b, x, y, t1, t2);
    StableSort.SortTwo(hi, hey, ByTimestamp);
    ghost var boxA := db.BoxOf(a);
    atA := db.ConversationDetail(a, b);
    assert db.BoxOf(a) == MarkedReadFrom(boxA, b);
    ThreadIgnoresReadFlags(db.key, boxA, b, b, a);
    atB := db.ConversationDetail(b, a);
  }

  /** After `a` deletes its conversation with `b`, neither side sees any history, and
      what `a` exchanged with a third user `c` is untouched. */
  method DeleteThenNoHistory(db: Database, a: string, b: string, c: string)
      returns (deleted: Response, atA: Response, atB: Response)
    requires db.Valid() && a in db.users && b in db.users && a != b && c != a && c != b
    modifies db
    ensures db.Valid()
    ensures deleted == Ok && atA == HistoryReply([]) && atB == HistoryReply([])
    ensures Thread(db.key, db.BoxOf(a), c, a) == Thread(db.key, old(db.BoxOf(a)), c, a)
    ensures db.BoxOf(c) == old(db.BoxOf(c))
  {
    ghost var boxA, boxB := db.BoxOf(a), db.BoxOf(b);
    HistoryEmptyAfterDelete(db.key, boxA, boxB, a, b);
    ThreadIgnoresWithout(db.key, boxA, c, a, b);
    ThreadIgnoresReadFlags(db.key, Without(boxA, b), b, c, a);
    ThreadIgnoresReadFlags(db.key, Without(boxA, b), b, b, a);
    deleted := db.DeleteConversation(a, b);
    atA := db.ConversationDetail(a, b);
    assert db.BoxOf(a) == MarkedReadFrom(Without(boxA, b), b);
    atB := db.ConversationDetail(b, a);
  }

  /** A text `a` sends to `b` is found by `a`'s search for any query it contains,
      whatever the case of either. */
  method SentTextIsFound(db: Database, a: string, b: string, text: string, query: string, now: int)
      returns (sent: Response, found: Response)
    requires db.Valid() && a != "" && b in db.users && a != b && text != ""
    requires Text.Lower(query) != [] && Text.Contains(Text.Lower(text), Text.Lower(query))
    modifies db
    ensures db.Valid()
    ensures sent == Ok && found.SearchReply? && MessageSearch.Hit(a, b, text, now) in found.results
  {
    sent := db.Send(a, b, text, now);
    var m := Message(a, Text(Encrypt(db.key, text)), now, false);
    var box := db.BoxOf(b);
    assert box[|box| - 1] == m;
    assert MessageSearch.IsHitOf(db.key, box[|box| - 1], Text.Lower(query), a, b, MessageSearch.Hit(a, b, text, now));
    assert b in db.mailboxOrder;
    var j :| 0 <= j < |db.mailboxOrder| && db.mailboxOrder[j] == b;
    assert MessageSearch.SentMatch(db.key, box, a, b, Text.Lower(query), MessageSearch.Hit(a, b, text, now));
    assert MessageSearch.OutboundMatch(db.key, db.messages, db.mailboxOrder, a, Text.Lower(query), MessageSearch.Hit(a, b, text, now));
    MessageSearch.SearchResultsCorrect(db.key, db.messages, db.mailboxOrder, a, Text.Lower(query));
    found := db.Search(a, query);
  }

  /** `a` typing to `b` is visible to `b` for eight seconds and to nobody else. */
  method TypingIndicator(db: Database, a: string, b: string, flag: bool, now: int, later: int)
      returns (set_: Response, seen: Response, reverse: Response)
    requires db.Valid() && a != "" && b != "" && a != b && now <= later
    modifies db
    ensures db.Valid()
    ensures set_ == Ok && seen == TypingReply(flag && later < now + FreshnessSeconds)
    ensures reverse == TypingReply(TypingNow(old(db.typing), a, b, later))
  {
    TypingRoundTrip(db.typing, a, b, flag, now, later);
    set_ := db.SetTyping(a, b, flag, now);
    seen := db.TypingStatus(b, a, later);
    reverse := db.TypingStatus(a, b, later);
  }
}
