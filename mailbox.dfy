/** Message records of the relay server and the views built from one mailbox:
    inbox entries, the per-peer thread of a conversation, and the filters used by
    the inbox, conversation-detail and delete-conversation actions. */
module Mailbox {
  import opened Options
  import opened Crypto
  import opened Seqs
  import StableSort

  /** The `"kind"` field of a record: `"text"` or `"file"`. */
  datatype Kind = TextKind | FileKind

  /** The encrypted payload of a record: the message text, or the uploaded file
      content together with its file name. */
  datatype Body = Text(cipher: Ciphertext) | File(cipher: Ciphertext, filename: string)
  {
    function Kind(): Kind
    {
      if Text? then TextKind else FileKind
    }

    function Filename(): Option<string>
    {
      if File? then Some(filename) else None
    }
  }

  /** One record of a mailbox: `{"from", "msg", "ts", "read", "kind", "filename"?}`.
      The mailbox it is stored in names its recipient. */
  datatype Message = Message(from: string, body: Body, ts: int, read: bool)

  const DecryptError := "[decrypt error]"

  /** A decrypted text, or the sentinel the source substitutes when decryption fails. */
  function DecryptOr(k: Key, c: Ciphertext): string
  {
    match Decrypt(k, c)
    case Some(t) => t
    case None => DecryptError
  }

  /** The text the inbox and the conversation thread show for a record. */
  function DisplayText(k: Key, m: Message): string
  {
    match m.body
    case File(_, name) => "[file] " + name + " (stored securely)"
    case Text(c) => DecryptOr(k, c)
  }

  /** One element of the inbox response. */
  datatype InboxEntry = InboxEntry(from: string, msg: string, timestamp: int, read: bool, kind: Kind)

  function InboxEntryOf(k: Key, m: Message): InboxEntry
  {
    InboxEntry(m.from, DisplayText(k, m), m.ts, m.read, m.body.Kind())
  }

  /** The mailbox after the inbox action: every record flagged read. */
  function MarkedAllRead(box: seq<Message>): seq<Message>
  {
    seq(|box|, i requires 0 <= i < |box| => box[i].(read := true))
  }

  /** The mailbox after the conversation-detail action: records from `peer` flagged read. */
  function MarkedReadFrom(box: seq<Message>, peer: string): seq<Message>
  {
    seq(|box|, i requires 0 <= i < |box| => if box[i].from == peer then box[i].(read := true) else box[i])
  }

  /** Number of records from `sender`. */
  function Count(box: seq<Message>, sender: string): nat
  {
    if box == [] then 0
    else Count(box[..|box| - 1], sender) + (if box[|box| - 1].from == sender then 1 else 0)
  }

  /** Number of unread records from `sender`. */
  function CountUnread(box: seq<Message>, sender: string): nat
  {
    if box == [] then 0
    else CountUnread(box[..|box| - 1], sender)
         + (if box[|box| - 1].from == sender && !box[|box| - 1].read then 1 else 0)
  }

  /** `[m for m in box if m.get("from") != sender]` */
  function Without(box: seq<Message>, sender: string): seq<Message>
  {
    if box == [] then []
    else Without(box[..|box| - 1], sender)
         + (if box[|box| - 1].from != sender then [box[|box| - 1]] else [])
  }

  /** One element of the conversation-detail history. */
  datatype ThreadEntry = ThreadEntry(from: string, to: string, msg: string, timestamp: int,
                                     kind: Kind, filename: Option<string>)

  function EntryOf(k: Key, m: Message, from: string, to: string): ThreadEntry
  {
    ThreadEntry(from, to, DisplayText(k, m), m.ts, m.body.Kind(), m.body.Filename())
  }

  /** The records of `box` (the mailbox of `recipient`) sent by `sender`, as history
      entries, in storage order. */
  function Thread(k: Key, box: seq<Message>, sender: string, recipient: string): seq<ThreadEntry>
  {
    if box == [] then []
    else Thread(k, box[..|box| - 1], sender, recipient)
         + (if box[|box| - 1].from == sender then [EntryOf(k, box[|box| - 1], sender, recipient)] else [])
  }

  function ByTimestamp(e: ThreadEntry): int
  {
    e.timestamp
  }

  /** The conversation between `user` and `peer`: what `peer` sent to `user`, then what
      `user` sent to `peer`, stably sorted by timestamp. */
  function History(k: Key, userBox: seq<Message>, peerBox: seq<Message>, user: string, peer: string): seq<ThreadEntry>
  {
    StableSort.Sort(Thread(k, userBox, peer, user) + Thread(k, peerBox, user, peer), ByTimestamp)
  }

  // ---------------------------------------------------------------------------
  // Lemmas

  /** Deleting the records of `sender` keeps every other record, in order, and only
      those records are lost. */
  lemma {:induction false} WithoutKeepsTheRest(box: seq<Message>, sender: string)
    ensures IsSubsequence(Without(box, sender), box)
    ensures forall m :: m in Without(box, sender) ==> m.from != sender
    ensures |Without(box, sender)| + Count(box, sender) == |box|
  {
    if box != [] {
      var pre := box[..|box| - 1];
      WithoutKeepsTheRest(pre, sender);
      var w := Without(box, sender);
      if box[|box| - 1].from != sender {
        assert w == Without(pre, sender) + [box[|box| - 1]];
        assert w[..|w| - 1] == Without(pre, sender);
      } else {
        assert w == Without(pre, sender);
      }
    }
  }

  /** A record survives the filter exactly when it was stored and is not from `sender`. */
  lemma {:induction false} WithoutMembers(box: seq<Message>, sender: string)
    ensures forall m :: m in Without(box, sender) <==> m in box && m.from != sender
  {
    if box != [] {
      var pre := box[..|box| - 1];
      WithoutMembers(pre, sender);
      assert box == pre + [box[|box| - 1]];
    }
  }

  /** Removing the records of `sender` twice is removing them once. */
  lemma {:induction false} WithoutIdempotent(box: seq<Message>, sender: string)
    ensures Without(Without(box, sender), sender) == Without(box, sender)
  {
    if box != [] {
      var pre := box[..|box| - 1];
      WithoutIdempotent(pre, sender);
      var w := Without(box, sender);
      if box[|box| - 1].from != sender {
        assert w == Without(pre, sender) + [box[|box| - 1]];
        assert w[..|w| - 1] == Without(pre, sender);
      } else {
        assert w == Without(pre, sender);
      }
    }
  }

  /** Once the records of `sender` are gone, their thread is empty. */
  lemma {:induction false} ThreadOfWithout(k: Key, box: seq<Message>, sender: string, recipient: string)
    ensures Thread(k, Without(box, sender), sender, recipient) == []
  {
    if box != [] {
      var pre := box[..|box| - 1];
      ThreadOfWithout(k, pre, sender, recipient);
      var w := Without(box, sender);
      if box[|box| - 1].from != sender {
        assert w == Without(pre, sender) + [box[|box| - 1]];
        assert w[..|w| - 1] == Without(pre, sender);
      } else {
        assert w == Without(pre, sender);
      }
    }
  }

  /** Removing the records of one sender leaves the thread of every other sender as it was. */
  lemma {:induction false} ThreadIgnoresWithout(k: Key, box: seq<Message>, sender: string, recipient: string, removed: string)
    requires removed != sender
    ensures Thread(k, Without(box, removed), sender, recipient) == Thread(k, box, sender, recipient)
  {
    if box != [] {
      var pre := box[..|box| - 1];
      ThreadIgnoresWithout(k, pre, sender, recipient, removed);
      var w := Without(box, removed);
      if box[|box| - 1].from != removed {
        assert w == Without(pre, removed) + [box[|box| - 1]];
        assert w[..|w| - 1] == Without(pre, removed);
      } else {
        assert w == Without(pre, removed);
      }
    }
  }

  /** Read flags are not part of a thread, so marking records read does not change it. */
  lemma {:induction false} ThreadIgnoresReadFlags(k: Key, box: seq<Message>, peer: string, sender: string, recipient: string)
    ensures Thread(k, MarkedReadFrom(box, peer), sender, recipient) == Thread(k, box, sender, recipient)
  {
    if box != [] {
      var pre := box[..|box| - 1];
      ThreadIgnoresReadFlags(k, pre, peer, sender, recipient);
      var marked := MarkedReadFrom(box, peer);
      assert marked[..|marked| - 1] == MarkedReadFrom(pre, peer);
    }
  }

  /** A thread has one entry per record of the sender, each addressed from the sender
      to the recipient. */
  lemma {:induction false} ThreadShape(k: Key, box: seq<Message>, sender: string, recipient: string)
    ensures |Thread(k, box, sender, recipient)| == Count(box, sender)
    ensures forall e :: e in Thread(k, box, sender, recipient) ==> e.from == sender && e.to == recipient
  {
    if box != [] {
      ThreadShape(k, box[..|box| - 1], sender, recipient);
    }
  }

  /** The conversation history is sorted by timestamp, holds exactly the records the two
      mailboxes exchanged between the pair, and among equal timestamps keeps the inbound
      records first, each side in storage order. */
  lemma HistoryCorrect(k: Key, userBox: seq<Message>, peerBox: seq<Message>, user: string, peer: string)
    ensures var inbound := Thread(k, userBox, peer, user);
            var outbound := Thread(k, peerBox, user, peer);
            var h := History(k, userBox, peerBox, user, peer);
            && StableSort.SortedBy(h, ByTimestamp)
            && multiset(h) == multiset(inbound) + multiset(outbound)
            && (forall t :: StableSort.WithKey(h, ByTimestamp, t)
                         == StableSort.WithKey(inbound, ByTimestamp, t) + StableSort.WithKey(outbound, ByTimestamp, t))
            && |h| == Count(userBox, peer) + Count(peerBox, user)
            && (forall e :: e in h ==> (e.from == peer && e.to == user) || (e.from == user && e.to == peer))
  {
    var inbound := Thread(k, userBox, peer, user);
    var outbound := Thread(k, peerBox, user, peer);
    StableSort.SortCorrect(inbound + outbound, ByTimestamp);
    StableSort.SortMembers(inbound + outbound, ByTimestamp);
    forall t
      ensures StableSort.WithKey(inbound + outbound, ByTimestamp, t)
           == StableSort.WithKey(inbound, ByTimestamp, t) + StableSort.WithKey(outbound, ByTimestamp, t)
    {
      StableSort.WithKeyConcat(inbound, outbound, ByTimestamp, t);
    }
    ThreadShape(k, userBox, peer, user);
    ThreadShape(k, peerBox, user, peer);
  }

  /** A sender never has more unread records than records. */
  lemma {:induction false} UnreadAtMostTotal(box: seq<Message>, sender: string)
    ensures CountUnread(box, sender) <= Count(box, sender)
  {
    if box != [] {
      UnreadAtMostTotal(box[..|box| - 1], sender);
    }
  }

  /** After the inbox action no record of the mailbox is unread. */
  lemma {:induction false} NothingUnreadAfterInbox(box: seq<Message>, sender: string)
    ensures CountUnread(MarkedAllRead(box), sender) == 0
  {
    if box != [] {
      var pre := box[..|box| - 1];
      NothingUnreadAfterInbox(pre, sender);
      assert MarkedAllRead(box)[..|box| - 1] == MarkedAllRead(pre);
    }
  }

  /** After the conversation-detail action nothing from `peer` is unread, and the
      unread counts of every other sender are untouched. */
  lemma {:induction false} UnreadAfterDetail(box: seq<Message>, peer: string, sender: string)
    ensures CountUnread(MarkedReadFrom(box, peer), sender) == if sender == peer then 0 else CountUnread(box, sender)
  {
    if box != [] {
      var pre := box[..|box| - 1];
      UnreadAfterDetail(pre, peer, sender);
      assert MarkedReadFrom(box, peer)[..|box| - 1] == MarkedReadFrom(pre, peer);
    }
  }

  /** Delivering one more record extends the thread of its sender by that record and
      leaves every other thread as it was. */
  lemma ThreadAppend(k: Key, box: seq<Message>, m: Message, sender: string, recipient: string)
    ensures Thread(k, box + [m], sender, recipient)
            == Thread(k, box, sender, recipient) + (if m.from == sender then [EntryOf(k, m, sender, recipient)] else [])
  {
    assert (box + [m])[..|box|] == box;
  }

  /** Once both mailboxes have been filtered by the delete-conversation action, the
      pair's history is empty, seen from either side. */
  lemma HistoryEmptyAfterDelete(k: Key, userBox: seq<Message>, peerBox: seq<Message>, user: string, peer: string)
    ensures History(k, Without(userBox, peer), Without(peerBox, user), user, peer) == []
    ensures History(k, Without(peerBox, user), Without(userBox, peer), peer, user) == []
  {
    ThreadOfWithout(k, userBox, peer, user);
    ThreadOfWithout(k, peerBox, user, peer);
  }
}
