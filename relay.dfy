/** The relay server's in-memory database and the action handler of `handle_client`
    in secure_server.py. One `Database` object stands for the `db` dict a connection
    works on; each method is one branch of the handler. */
module Relay {
  import opened Options
  import opened Crypto
  import opened Text
  import opened Seqs
  import opened Failures
  import opened Accounts
  import opened Mailbox
  import opened Summaries
  import opened MessageSearch
  import opened Presence
  import StableSort

  /** A decoded request: the action and the payload fields it reads. A missing field is
      the empty string. The handler either tests a field for falsity, or looks it up in
      a table that has no `""` key, or compares it with a stored password that is never
      empty, so a missing field and an empty one take the same branch. */
  datatype Request =
    | Register(user: string, pw: string)
    | Login(user: string, pw: string)
    | Send(to: string, msg: string)
    | SendFile(to: string, filename: string, content: string)
    | Inbox
    | Conversations
    | ConversationDetail(peer: string)
    | DeleteConversation(peer: string)
    | Search(query: string)
    | Typing(peer: string, isTyping: bool)
    | TypingStatus(peer: string)
    | Unknown(action: string)

  /** The reply sent back: `{"ok": true, ...}` with the action's payload, or
      `{"ok": false, "error": ...}`. */
  datatype Response =
    | Ok
    | InboxReply(messages: seq<InboxEntry>)
    | ConversationsReply(conversations: seq<Summary>)
    | HistoryReply(history: seq<ThreadEntry>)
    | SearchReply(results: seq<Hit>)
    | TypingReply(typing: bool)
    | Failed(error: Failure)

  /** `order` lists the keys of `m` once each: the insertion order of a Python dict. */
  ghost predicate OrderedKeys(m: map<string, seq<Message>>, order: seq<string>)
  {
    (forall n :: n in m <==> n in order) && NoDuplicates(order)
  }

  /** The key order of a dict after `d[name] = ...`: a new key goes last. */
  function OrderAfterPut(order: seq<string>, m: map<string, seq<Message>>, name: string): seq<string>
  {
    if name in m then order else order + [name]
  }

  lemma PutKeepsKeyOrder(m: map<string, seq<Message>>, order: seq<string>, name: string, box: seq<Message>)
    requires OrderedKeys(m, order)
    ensures OrderedKeys(m[name := box], OrderAfterPut(order, m, name))
  {
  }

  class Database {
    /** The Fernet key loaded at start-up. */
    const key: Key
    /** `db["users"]` */
    var users: map<string, UserRecord>
    /** `db["messages"]`: the mailbox of each recipient. */
    var messages: map<string, seq<Message>>
    /** The insertion order of the keys of `db["messages"]`. */
    var mailboxOrder: seq<string>
    /** `db["typing"]` */
    var typing: map<string, map<string, TypingState>>

    /** No user or mailbox is named by the empty string (every name the handler stores
        has passed a `not x` check), every stored password passed `password_valid`, and
        `mailboxOrder` is the key order of `messages`. */
    ghost predicate Valid()
      reads this
    {
      && "" !in users
      && "" !in messages
      && (forall u :: u in users ==> PasswordValid(users[u].pw))
      && OrderedKeys(messages, mailboxOrder)
    }

    /** `{"users": {}, "messages": {}, "typing": {}}`, the database when no file exists. */
    constructor (k: Key)
      ensures Valid() && key == k
      ensures users == map[] && messages == map[] && mailboxOrder == [] && typing == map[]
    {
      key := k;
      users := map[];
      messages := map[];
      mailboxOrder := [];
      typing := map[];
    }

    /** `db["messages"].get(name, [])` */
    function BoxOf(name: string): seq<Message>
      reads this
    {
      GetOr(messages, name, [])
    }

    /** `db["messages"][name] = box` */
    method PutMailbox(name: string, box: seq<Message>)
      requires Valid() && name != ""
      modifies this
      ensures Valid()
      ensures messages == old(messages)[name := box]
      ensures mailboxOrder == OrderAfterPut(old(mailboxOrder), old(messages), name)
      ensures users == old(users) && typing == old(typing)
    {
      PutKeepsKeyOrder(messages, mailboxOrder, name, box);
      mailboxOrder := OrderAfterPut(mailboxOrder, messages, name);
      messages := messages[name := box];
    }

    // -------- register --------

    method Register(user: string, pw: string) returns (r: Response)
      requires Valid()
      modifies this
      ensures Valid()
      ensures r == (if user == "" || pw == "" then Failed(MissingFields)
                    else if !PasswordValid(pw) then Failed(PwTooShort)
                    else if user in old(users) then Failed(UserExists)
                    else Ok)
      ensures r.Failed? ==> unchanged(this)
      ensures r == Ok ==>
                && users == old(users)[user := NewUser(pw)]
                && messages == old(messages)[user := old(BoxOf(user))]
                && mailboxOrder == OrderAfterPut(old(mailboxOrder), old(messages), user)
                && typing == old(typing)
    {
      if user == "" || pw == "" {
        return Failed(MissingFields);
      }
      if !PasswordValid(pw) {
        return Failed(PwTooShort);
      }
      if user in users {
        return Failed(UserExists);
      }
      users := users[user := NewUser(pw)];
      PutMailbox(user, BoxOf(user));
      r := Ok;
    }

    // -------- login --------

    method Login(user: string, pw: string, now: int) returns (r: Response)
      requires Valid()
      modifies this
      ensures Valid()
      ensures messages == old(messages) && mailboxOrder == old(mailboxOrder) && typing == old(typing)
      ensures user !in old(users) ==> r == Failed(NoSuchUser) && users == old(users)
      ensures user in old(users) ==>
                var o := AttemptLogin(old(users)[user], pw, now);
                && users == old(users)[user := o.rec]
                && r == (if o.failure.None? then Ok else Failed(o.failure.value))
      ensures r == Ok <==>
                user in old(users) && !LockActive(old(users)[user], now) && pw == old(users)[user].pw
    {
      if user !in users {
        return Failed(NoSuchUser);
      }
      var o := AttemptLogin(users[user], pw, now);
      users := users[user := o.rec];
      r := if o.failure.None? then Ok else Failed(o.failure.value);
    }

    // -------- send, send_file --------

    method Send(sender: string, to: string, msg: string, now: int) returns (r: Response)
      requires Valid()
      modifies this
      ensures Valid()
      ensures r == (if sender == "" || to == "" || msg == "" then Failed(MissingFields)
                    else if to !in old(users) then Failed(NoSuchUser)
                    else Ok)
      ensures r.Failed? ==> unchanged(this)
      ensures r == Ok ==>
                && messages == old(messages)[to := old(BoxOf(to)) + [Message(sender, Text(Encrypt(key, msg)), now, false)]]
                && mailboxOrder == OrderAfterPut(old(mailboxOrder), old(messages), to)
                && users == old(users) && typing == old(typing)
    {
      if sender == "" || to == "" || msg == "" {
        return Failed(MissingFields);
      }
      if to !in users {
        return Failed(NoSuchUser);
      }
      PutMailbox(to, BoxOf(to) + [Message(sender, Text(Encrypt(key, msg)), now, false)]);
      r := Ok;
    }

    method SendFile(sender: string, to: string, filename: string, content: string, now: int) returns (r: Response)
      requires Valid()
      modifies this
      ensures Valid()
      ensures r == (if sender == "" || to == "" || filename == "" || content == "" then Failed(MissingFields)
                    else if to !in old(users) then Failed(NoSuchUser)
                    else Ok)
      ensures r.Failed? ==> unchanged(this)
      ensures r == Ok ==>
                && messages == old(messages)[to := old(BoxOf(to))
                                                   + [Message(sender, File(Encrypt(key, content), filename), now, false)]]
                && mailboxOrder == OrderAfterPut(old(mailboxOrder), old(messages), to)
                && users == old(users) && typing == old(typing)
    {
      if sender == "" || to == "" || filename == "" || content == "" {
        return Failed(MissingFields);
      }
      if to !in users {
        return Failed(NoSuchUser);
      }
      PutMailbox(to, BoxOf(to) + [Message(sender, File(Encrypt(key, content), filename), now, false)]);
      r := Ok;
    }

    // -------- inbox --------

    /** The first loop of the inbox action: one entry per record, in storage order. */
    method InboxEntries(user: string) returns (entries: seq<InboxEntry>)
      ensures |entries| == |BoxOf(user)|
      ensures forall i :: 0 <= i < |entries| ==> entries[i] == InboxEntryOf(key, BoxOf(user)[i])
    {
      var box := BoxOf(user);
      entries := [];
      var i := 0;
      while i < |box|
        invariant 0 <= i <= |box|
        invariant |entries| == i
        invariant forall j :: 0 <= j < i ==> entries[j] == InboxEntryOf(key, box[j])
      {
        entries := entries + [InboxEntryOf(key, box[i])];
        i := i + 1;
      }
    }

    /** The second loop of the inbox action. The flags are set on the stored records,
        so a user without a mailbox gets none. */
    method MarkAllRead(user: string)
      requires Valid()
      modifies this
      ensures Valid()
      ensures messages == if user in old(messages) then old(messages)[user := MarkedAllRead(old(messages)[user])]
                          else old(messages)
      ensures users == old(users) && mailboxOrder == old(mailboxOrder) && typing == old(typing)
    {
      var box := BoxOf(user);
      var b := box;
      var i := 0;
      while i < |b|
        invariant 0 <= i <= |b| == |box|
        invariant forall j :: 0 <= j < |b| ==> b[j] == if j < i then box[j].(read := true) else box[j]
      {
        b := b[i := b[i].(read := true)];
        i := i + 1;
      }
      assert b == MarkedAllRead(box);
      if user in messages {
        messages := messages[user := b];
      }
    }

    method Inbox(user: string) returns (r: Response)
      requires Valid()
      modifies this
      ensures Valid()
      ensures r.InboxReply? && |r.messages| == |old(BoxOf(user))|
      ensures forall i :: 0 <= i < |r.messages| ==> r.messages[i] == InboxEntryOf(key, old(BoxOf(user))[i])
      ensures messages == if user in old(messages) then old(messages)[user := MarkedAllRead(old(messages)[user])]
                          else old(messages)
      ensures users == old(users) && mailboxOrder == old(mailboxOrder) && typing == old(typing)
    {
      var entries := InboxEntries(user);
      MarkAllRead(user);
      r := InboxReply(entries);
    }

    // -------- conversations --------

    method Conversations(user: string) returns (r: Response)
      ensures r == ConversationsReply(ConversationSummaries(key, BoxOf(user)))
    {
      var box := BoxOf(user);
      var order: seq<string> := [];
      var conv: map<string, Tally> := map[];
      var i := 0;
      while i < |box|
        invariant 0 <= i <= |box|
        invariant Tallies(order, conv) == Tallied(key, box[..i])
      {
        var m := box[i];
        assert box[..i + 1][..i] == box[..i];
        if m.from !in conv {
          order := order + [m.from];
          conv := conv[m.from := EmptyTally];
        }
        conv := conv[m.from := Bump(key, conv[m.from], m)];
        i := i + 1;
      }
      assert box[..|box|] == box;
      var list: seq<Summary> := [];
      var j := 0;
      while j < |order|
        invariant 0 <= j <= |order|
        invariant list == Listing(order[..j], conv)
      {
        assert order[..j + 1][..j] == order[..j];
        list := list + [SummaryOf(order[j], GetOr(conv, order[j], EmptyTally))];
        j := j + 1;
      }
      assert order[..|order|] == order;
      r := ConversationsReply(list);
    }

    // -------- conversation_detail --------

    /** The two gathering loops and the sort of the conversation-detail action. */
    method ThreadHistory(user: string, peer: string) returns (history: seq<ThreadEntry>)
      ensures history == History(key, BoxOf(user), BoxOf(peer), user, peer)
    {
      var inbox := BoxOf(user);
      var outbox := BoxOf(peer);
      history := [];
      var i := 0;
      while i < |inbox|
        invariant 0 <= i <= |inbox|
        invariant history == Thread(key, inbox[..i], peer, user)
      {
        assert inbox[..i + 1][..i] == inbox[..i];
        if inbox[i].from == peer {
          history := history + [EntryOf(key, inbox[i], peer, user)];
        }
        i := i + 1;
      }
      assert inbox[..|inbox|] == inbox;
      i := 0;
      while i < |outbox|
        invariant 0 <= i <= |outbox|
        invariant history == Thread(key, inbox, peer, user) + Thread(key, outbox[..i], user, peer)
      {
        assert outbox[..i + 1][..i] == outbox[..i];
        if outbox[i].from == user {
          history := history + [EntryOf(key, outbox[i], user, peer)];
        }
        i := i + 1;
      }
      assert outbox[..|outbox|] == outbox;
      history := StableSort.Sort(history, ByTimestamp);
    }

    /** The last loop of the conversation-detail action: the records from `peer` in the
        stored mailbox of `user` are flagged read. */
    method MarkReadFrom(user: string, peer: string)
      requires Valid()
      modifies this
      ensures Valid()
      ensures messages == if user in old(messages) then old(messages)[user := MarkedReadFrom(old(messages)[user], peer)]
                          else old(messages)
      ensures users == old(users) && mailboxOrder == old(mailboxOrder) && typing == old(typing)
    {
      var box := BoxOf(user);
      var b := box;
      var i := 0;
      while i < |b|
        invariant 0 <= i <= |b| == |box|
        invariant forall j :: 0 <= j < |b| ==>
                    b[j] == if j < i && box[j].from == peer then box[j].(read := true) else box[j]
      {
        if b[i].from == peer {
          b := b[i := b[i].(read := true)];
        }
        i := i + 1;
      }
      assert b == MarkedReadFrom(box, peer);
      if user in messages {
        messages := messages[user := b];
      }
    }

    method ConversationDetail(user: string, peer: string) returns (r: Response)
      requires Valid()
      modifies this
      ensures Valid()
      ensures r == (if user == "" then Failed(NotLoggedIn)
                    else if peer == "" then Failed(MissingPeer)
                    else if peer !in old(users) then Failed(NoSuchUser)
                    else HistoryReply(History(key, old(BoxOf(user)), old(BoxOf(peer)), user, peer)))
      ensures r.Failed? ==> unchanged(this)
      ensures r.HistoryReply? ==>
                messages == if user in old(messages) then old(messages)[user := MarkedReadFrom(old(messages)[user], peer)]
                            else old(messages)
      ensures users == old(users) && mailboxOrder == old(mailboxOrder) && typing == old(typing)
    {
      if user == "" {
        return Failed(NotLoggedIn);
      }
      if peer == "" {
        return Failed(MissingPeer);
      }
      if peer !in users {
        return Failed(NoSuchUser);
      }
      var history := ThreadHistory(user, peer);
      MarkReadFrom(user, peer);
      r := HistoryReply(history);
    }

    // -------- delete_conversation --------

    /** Both filters write their mailbox back, creating it when it was missing; the
        second one reads the mailboxes as the first one left them. */
    method DeleteConversation(user: string, peer: string) returns (r: Response)
      requires Valid()
      modifies this
      ensures Valid()
      ensures r == (if user == "" then Failed(NotLoggedIn) else if peer == "" then Failed(MissingPeer) else Ok)
      ensures r.Failed? ==> unchanged(this)
      ensures r == Ok ==>
                var first := old(messages)[user := Without(old(BoxOf(user)), peer)];
                && messages == first[peer := Without(GetOr(first, peer, []), user)]
                && mailboxOrder == OrderAfterPut(OrderAfterPut(old(mailboxOrder), old(messages), user), first, peer)
      ensures r == Ok && user != peer ==>
                BoxOf(user) == Without(old(BoxOf(user)), peer) && BoxOf(peer) == Without(old(BoxOf(peer)), user)
      ensures users == old(users) && typing == old(typing)
    {
      if user == "" {
        return Failed(NotLoggedIn);
      }
      if peer == "" {
        return Failed(MissingPeer);
      }
      PutMailbox(user, Without(BoxOf(user), peer));
      PutMailbox(peer, Without(BoxOf(peer), user));
      r := Ok;
    }

    // -------- search --------

    /** The inbound loop of the search action: matching text records of `user`'s mailbox. */
    method SearchInbox(user: string, q: string) returns (hits: seq<Hit>)
      ensures hits == InboundHits(key, BoxOf(user), user, q)
    {
      var inbox := BoxOf(user);
      hits := [];
      var i := 0;
      while i < |inbox|
        invariant 0 <= i <= |inbox|
        invariant hits == InboundHits(key, inbox[..i], user, q)
      {
        assert inbox[..i + 1][..i] == inbox[..i];
        var m := inbox[i];
        if m.body.Text? {
          var text := Decrypt(key, m.body.cipher);
          if text.Some? && Contains(Lower(text.value), q) {
            hits := hits + [Hit(m.from, user, text.value, m.ts)];
          }
        }
        i := i + 1;
      }
      assert inbox[..|inbox|] == inbox;
    }

    /** The inner outbound loop: matching text records `user` sent that sit in the
        mailbox of `other`. */
    method SearchSent(user: string, other: string, q: string) returns (hits: seq<Hit>)
      ensures hits == SentHits(key, BoxOf(other), user, other, q)
    {
      var box := BoxOf(other);
      hits := [];
      var n := 0;
      while n < |box|
        invariant 0 <= n <= |box|
        invariant hits == SentHits(key, box[..n], user, other, q)
      {
        assert box[..n + 1][..n] == box[..n];
        var m := box[n];
        if m.from == user && m.body.Text? {
          var text := Decrypt(key, m.body.cipher);
          if text.Some? && Contains(Lower(text.value), q) {
            hits := hits + [Hit(user, other, text.value, m.ts)];
          }
        }
        n := n + 1;
      }
      assert box[..|box|] == box;
    }

    /** The outer outbound loop, over the mailboxes in key order, skipping `user`'s own. */
    method SearchOutboxes(user: string, q: string) returns (hits: seq<Hit>)
      ensures hits == OutboundHits(key, messages, mailboxOrder, user, q)
    {
      hits := [];
      var j := 0;
      while j < |mailboxOrder|
        invariant 0 <= j <= |mailboxOrder|
        invariant hits == OutboundHits(key, messages, mailboxOrder[..j], user, q)
      {
        var other := mailboxOrder[j];
        assert mailboxOrder[..j + 1][..j] == mailboxOrder[..j];
        if other != user {
          var sent := SearchSent(user, other, q);
          hits := hits + sent;
        }
        j := j + 1;
      }
      assert mailboxOrder[..|mailboxOrder|] == mailboxOrder;
    }

    method Search(user: string, query: string) returns (r: Response)
      ensures r == (if user == "" then Failed(NotLoggedIn)
                    else if Lower(query) == [] then Failed(EmptyQuery)
                    else SearchReply(SearchResults(key, messages, mailboxOrder, user, Lower(query))))
    {
      if user == "" {
        return Failed(NotLoggedIn);
      }
      var q := Lower(query);
      if q == [] {
        return Failed(EmptyQuery);
      }
      var inbound := SearchInbox(user, q);
      var outbound := SearchOutboxes(user, q);
      r := SearchReply(StableSort.Sort(inbound + outbound, NewestFirst));
    }

    // -------- typing, typing_status --------

    method SetTyping(user: string, peer: string, isTyping: bool, now: int) returns (r: Response)
      requires Valid()
      modifies this
      ensures Valid()
      ensures r == (if user == "" then Failed(NotLoggedIn) else if peer == "" then Failed(MissingPeer) else Ok)
      ensures r.Failed? ==> unchanged(this)
      ensures r == Ok ==> typing == WithTyping(old(typing), user, peer, isTyping, now)
      ensures users == old(users) && messages == old(messages) && mailboxOrder == old(mailboxOrder)
    {
      if user == "" {
        return Failed(NotLoggedIn);
      }
      if peer == "" {
        return Failed(MissingPeer);
      }
      typing := WithTyping(typing, user, peer, isTyping, now);
      r := Ok;
    }

    method TypingStatus(user: string, peer: string, now: int) returns (r: Response)
      ensures r == (if user == "" then Failed(NotLoggedIn)
                    else if peer == "" then Failed(MissingPeer)
                    else TypingReply(TypingNow(typing, user, peer, now)))
    {
      if user == "" {
        return Failed(NotLoggedIn);
      }
      if peer == "" {
        return Failed(MissingPeer);
      }
      var state := Recorded(typing, user, peer);
      var typingNow := false;
      if state.Some? && state.value.typing {
        if now - state.value.ts < FreshnessSeconds {
          typingNow := true;
        }
      }
      r := TypingReply(typingNow);
    }
  }

  /** `handle_client`'s dispatch on the action of one request, for the (unchecked)
      `username` the request names: the response of each action and the database it
      leaves. Actions that only read leave the database as it was; each part of the
      database changes only under the actions that write it. */
  method Handle(db: Database, username: string, req: Request, now: int) returns (r: Response)
    requires db.Valid()
    modifies db
    ensures db.Valid()
    ensures req.Register? ==>
              && r == (if req.user == "" || req.pw == "" then Failed(MissingFields)
                       else if !PasswordValid(req.pw) then Failed(PwTooShort)
                       else if req.user in old(db.users) then Failed(UserExists)
                       else Ok)
              && (r == Ok ==> db.users == old(db.users)[req.user := NewUser(req.pw)]
                              && db.messages == old(db.messages)[req.user := old(db.BoxOf(req.user))]
                              && db.mailboxOrder == OrderAfterPut(old(db.mailboxOrder), old(db.messages), req.user))
    ensures req.Login? ==>
              if req.user !in old(db.users) then r == Failed(NoSuchUser) && db.users == old(db.users)
              else
                var o := AttemptLogin(old(db.users)[req.user], req.pw, now);
                && r == (if o.failure.None? then Ok else Failed(o.failure.value))
                && db.users == old(db.users)[req.user := o.rec]
    ensures req.Send? ==>
              && r == (if username == "" || req.to == "" || req.msg == "" then Failed(MissingFields)
                       else if req.to !in old(db.users) then Failed(NoSuchUser)
                       else Ok)
              && (r == Ok ==> db.messages == old(db.messages)[req.to := old(db.BoxOf(req.to))
                                                                + [Message(username, Text(Encrypt(db.key, req.msg)), now, false)]]
                              && db.mailboxOrder == OrderAfterPut(old(db.mailboxOrder), old(db.messages), req.to))
    ensures req.SendFile? ==>
              && r == (if username == "" || req.to == "" || req.filename == "" || req.content == "" then Failed(MissingFields)
                       else if req.to !in old(db.users) then Failed(NoSuchUser)
                       else Ok)
              && (r == Ok ==> db.messages == old(db.messages)[req.to := old(db.BoxOf(req.to))
                                                                + [Message(username, File(Encrypt(db.key, req.content), req.filename), now, false)]]
                              && db.mailboxOrder == OrderAfterPut(old(db.mailboxOrder), old(db.messages), req.to))
    ensures req.Inbox? ==>
              && r.InboxReply? && |r.messages| == |old(db.BoxOf(username))|
              && (forall i :: 0 <= i < |r.messages| ==> r.messages[i] == InboxEntryOf(db.key, old(db.BoxOf(username))[i]))
              && db.mailboxOrder == old(db.mailboxOrder)
              && db.messages == if username in old(db.messages)
                                then old(db.messages)[username := MarkedAllRead(old(db.messages)[username])]
                                else old(db.messages)
    ensures req.Conversations? ==> r == ConversationsReply(ConversationSummaries(db.key, db.BoxOf(username)))
    ensures req.ConversationDetail? ==>
              && r == (if username == "" then Failed(NotLoggedIn)
                       else if req.peer == "" then Failed(MissingPeer)
                       else if req.peer !in old(db.users) then Failed(NoSuchUser)
                       else HistoryReply(History(db.key, old(db.BoxOf(username)), old(db.BoxOf(req.peer)), username, req.peer)))
              && db.mailboxOrder == old(db.mailboxOrder)
              && db.messages == if r.HistoryReply? && username in old(db.messages)
                                then old(db.messages)[username := MarkedReadFrom(old(db.messages)[username], req.peer)]
                                else old(db.messages)
    ensures req.DeleteConversation? ==>
              && r == (if username == "" then Failed(NotLoggedIn) else if req.peer == "" then Failed(MissingPeer) else Ok)
              && (r == Ok ==>
                    var first := old(db.messages)[username := Without(old(db.BoxOf(username)), req.peer)];
                    && db.messages == first[req.peer := Without(GetOr(first, req.peer, []), username)]
                    && db.mailboxOrder == OrderAfterPut(OrderAfterPut(old(db.mailboxOrder), old(db.messages), username),
                                                        first, req.peer))
    ensures req.Search? ==>
              r == (if username == "" then Failed(NotLoggedIn)
                    else if Lower(req.query) == [] then Failed(EmptyQuery)
                    else SearchReply(SearchResults(db.key, db.messages, db.mailboxOrder, username, Lower(req.query))))
    ensures req.Typing? ==>
              && r == (if username == "" then Failed(NotLoggedIn) else if req.peer == "" then Failed(MissingPeer) else Ok)
              && db.typing == if r == Ok then WithTyping(old(db.typing), username, req.peer, req.isTyping, now)
                              else old(db.typing)
    ensures req.TypingStatus? ==>
              r == (if username == "" then Failed(NotLoggedIn)
                    else if req.peer == "" then Failed(MissingPeer)
                    else TypingReply(TypingNow(db.typing, username, req.peer, now)))
    ensures req.Unknown? ==> r == Failed(UnknownAction)
    ensures r.Failed? && !req.Login? ==> unchanged(db)
    ensures req.Unknown? || req.Conversations? || req.Search? || req.TypingStatus? ==> unchanged(db)
    ensures !(req.Register? || req.Login?) ==> db.users == old(db.users)
    ensures !req.Typing? ==> db.typing == old(db.typing)
    ensures req.Login? || req.Typing? ==> db.messages == old(db.messages) && db.mailboxOrder == old(db.mailboxOrder)
  {
    match req
    case Register(user, pw) => r := db.Register(user, pw);
    case Login(user, pw) => r := db.Login(user, pw, now);
    case Send(to, msg) => r := db.Send(username, to, msg, now);
    case SendFile(to, filename, content) => r := db.SendFile(username, to, filename, content, now);
    case Inbox => r := db.Inbox(username);
    case Conversations => r := db.Conversations(username);
    case ConversationDetail(peer) => r := db.ConversationDetail(username, peer);
    case DeleteConversation(peer) => r := db.DeleteConversation(username, peer);
    case Search(query) => r := db.Search(username, query);
    case Typing(peer, isTyping) => r := db.SetTyping(username, peer, isTyping, now);
    case TypingStatus(peer) => r := db.TypingStatus(username, peer, now);
    case Unknown(_) => r := Failed(UnknownAction);
  }
}
