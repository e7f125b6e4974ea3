/** The search action: a case-insensitive substring search over the decrypted text
    records a user received, and over the text records the user sent that sit in every
    other mailbox, newest first. */
module MessageSearch {
  import opened Options
  import opened Crypto
  import opened Text
  import opened Mailbox
  import StableSort

  /** One element of the search response. */
  datatype Hit = Hit(from: string, to: string, msg: string, timestamp: int)

  /** The plaintext of a text record; file records and records that fail to decrypt
      have none and are skipped. */
  function TextOf(k: Key, m: Message): Option<string>
  {
    match m.body
    case Text(c) => Decrypt(k, c)
    case File(_, _) => None
  }

  /** `query in text.lower()`, where `q` is the already lower-cased query. */
  predicate Matches(k: Key, m: Message, q: string)
  {
    TextOf(k, m).Some? && Contains(Lower(TextOf(k, m).value), q)
  }

  /** `h` is the result the search reports for record `m`, addressed from `from` to `to`. */
  predicate IsHitOf(k: Key, m: Message, q: string, from: string, to: string, h: Hit)
  {
    Matches(k, m, q) && h == Hit(from, to, TextOf(k, m).value, m.ts)
  }

  /** Matches among the records of `user`'s own mailbox, in storage order. */
  function InboundHits(k: Key, box: seq<Message>, user: string, q: string): seq<Hit>
  {
    if box == [] then []
    else
      var m := box[|box| - 1];
      InboundHits(k, box[..|box| - 1], user, q)
      + (if Matches(k, m, q) then [Hit(m.from, user, TextOf(k, m).value, m.ts)] else [])
  }

  /** Matches among the records `user` sent that sit in the mailbox of `other`. */
  function SentHits(k: Key, box: seq<Message>, user: string, other: string, q: string): seq<Hit>
  {
    if box == [] then []
    else
      var m := box[|box| - 1];
      SentHits(k, box[..|box| - 1], user, other, q)
      + (if m.from == user && Matches(k, m, q) then [Hit(user, other, TextOf(k, m).value, m.ts)] else [])
  }

  /** Matches sent by `user` across the mailboxes `names` (in the iteration order of
      the source's messages dict), skipping `user`'s own mailbox. */
  function OutboundHits(k: Key, messages: map<string, seq<Message>>, names: seq<string>, user: string, q: string): seq<Hit>
  {
    if names == [] then []
    else
      var other := names[|names| - 1];
      OutboundHits(k, messages, names[..|names| - 1], user, q)
      + (if other == user then [] else SentHits(k, GetOr(messages, other, []), user, other, q))
  }

  /** Sort key of `sort(key=timestamp, reverse=True)`: a stable sort on the negated key. */
  function NewestFirst(h: Hit): int
  {
    -h.timestamp
  }

  /** The search response for lower-cased query `q`. */
  function SearchResults(k: Key, messages: map<string, seq<Message>>, names: seq<string>, user: string, q: string): seq<Hit>
  {
    StableSort.Sort(InboundHits(k, GetOr(messages, user, []), user, q)
                    + OutboundHits(k, messages, names, user, q), NewestFirst)
  }

  /** A received record that matches. */
  ghost predicate InboundMatch(k: Key, box: seq<Message>, user: string, q: string, h: Hit)
  {
    exists i :: 0 <= i < |box| && IsHitOf(k, box[i], q, box[i].from, user, h)
  }

  /** A record sent by `user` to `other` that matches. */
  ghost predicate SentMatch(k: Key, box: seq<Message>, user: string, other: string, q: string, h: Hit)
  {
    exists i :: 0 <= i < |box| && box[i].from == user && IsHitOf(k, box[i], q, user, other, h)
  }

  /** A record sent by `user` to the owner of some other mailbox in `names` that matches. */
  ghost predicate OutboundMatch(k: Key, messages: map<string, seq<Message>>, names: seq<string>, user: string, q: string, h: Hit)
  {
    exists j :: 0 <= j < |names| && names[j] != user && SentMatch(k, GetOr(messages, names[j], []), user, names[j], q, h)
  }

  // ---------------------------------------------------------------------------
  // Lemmas

  lemma {:induction false} InboundHitsMembers(k: Key, box: seq<Message>, user: string, q: string)
    ensures forall h :: h in InboundHits(k, box, user, q) <==> InboundMatch(k, box, user, q, h)
  {
    if box != [] {
      var pre := box[..|box| - 1];
      InboundHitsMembers(k, pre, user, q);
      forall h
        ensures h in InboundHits(k, box, user, q) <==> InboundMatch(k, box, user, q, h)
      {
        if InboundMatch(k, pre, user, q, h) {
          var i :| 0 <= i < |pre| && IsHitOf(k, pre[i], q, pre[i].from, user, h);
          assert box[i] == pre[i];
        }
        if InboundMatch(k, box, user, q, h) {
          var i :| 0 <= i < |box| && IsHitOf(k, box[i], q, box[i].from, user, h);
          if i < |pre| {
            assert pre[i] == box[i];
          }
        }
      }
    }
  }

  lemma {:induction false} SentHitsMembers(k: Key, box: seq<Message>, user: string, other: string, q: string)
    ensures forall h :: h in SentHits(k, box, user, other, q) <==> SentMatch(k, box, user, other, q, h)
  {
    if box != [] {
      var pre := box[..|box| - 1];
      SentHitsMembers(k, pre, user, other, q);
      forall h
        ensures h in SentHits(k, box, user, other, q) <==> SentMatch(k, box, user, other, q, h)
      {
        if SentMatch(k, pre, user, other, q, h) {
          var i :| 0 <= i < |pre| && pre[i].from == user && IsHitOf(k, pre[i], q, user, other, h);
          assert box[i] == pre[i];
        }
        if SentMatch(k, box, user, other, q, h) {
          var i :| 0 <= i < |box| && box[i].from == user && IsHitOf(k, box[i], q, user, other, h);
          if i < |pre| {
            assert pre[i] == box[i];
          }
        }
      }
    }
  }

  lemma {:induction false} OutboundHitsMembers(k: Key, messages: map<string, seq<Message>>, names: seq<string>, user: string, q: string)
    ensures forall h :: h in OutboundHits(k, messages, names, user, q) <==> OutboundMatch(k, messages, names, user, q, h)
  {
    if names != [] {
      var pre := names[..|names| - 1];
      var other := names[|names| - 1];
      OutboundHitsMembers(k, messages, pre, user, q);
      SentHitsMembers(k, GetOr(messages, other, []), user, other, q);
      forall h
        ensures h in OutboundHits(k, messages, names, user, q) <==> OutboundMatch(k, messages, names, user, q, h)
      {
        if OutboundMatch(k, messages, pre, user, q, h) {
          var j :| 0 <= j < |pre| && pre[j] != user && SentMatch(k, GetOr(messages, pre[j], []), user, pre[j], q, h);
          assert names[j] == pre[j];
        }
        if OutboundMatch(k, messages, names, user, q, h) {
          var j :| 0 <= j < |names| && names[j] != user && SentMatch(k, GetOr(messages, names[j], []), user, names[j], q, h);
          if j < |pre| {
            assert pre[j] == names[j];
          }
        }
      }
    }
  }

  /** The search finds exactly the matching text records received by `user` and the
      matching text records `user` sent to anyone else; file records never match.
      Results are newest first, and among equal timestamps the received ones come
      first, each group in storage order. */
  lemma SearchResultsCorrect(k: Key, messages: map<string, seq<Message>>, names: seq<string>, user: string, q: string)
    ensures var inbound := InboundHits(k, GetOr(messages, user, []), user, q);
            var outbound := OutboundHits(k, messages, names, user, q);
            var r := SearchResults(k, messages, names, user, q);
            && (forall i, j :: 0 <= i < j < |r| ==> r[i].timestamp >= r[j].timestamp)
            && multiset(r) == multiset(inbound) + multiset(outbound)
            && (forall t :: StableSort.WithKey(r, NewestFirst, t)
                         == StableSort.WithKey(inbound, NewestFirst, t) + StableSort.WithKey(outbound, NewestFirst, t))
            && (forall h :: h in r <==> (InboundMatch(k, GetOr(messages, user, []), user, q, h)
                                       || OutboundMatch(k, messages, names, user, q, h)))
  {
    var inbound := InboundHits(k, GetOr(messages, user, []), user, q);
    var outbound := OutboundHits(k, messages, names, user, q);
    var r := SearchResults(k, messages, names, user, q);
    StableSort.SortCorrect(inbound + outbound, NewestFirst);
    StableSort.SortMembers(inbound + outbound, NewestFirst);
    forall i, j | 0 <= i < j < |r|
      ensures r[i].timestamp >= r[j].timestamp
    {
      assert NewestFirst(r[i]) <= NewestFirst(r[j]);
    }
    forall t
      ensures StableSort.WithKey(inbound + outbound, NewestFirst, t)
           == StableSort.WithKey(inbound, NewestFirst, t) + StableSort.WithKey(outbound, NewestFirst, t)
    {
      StableSort.WithKeyConcat(inbound, outbound, NewestFirst, t);
    }
    InboundHitsMembers(k, GetOr(messages, user, []), user, q);
    OutboundHitsMembers(k, messages, names, user, q);
  }

  /** A file record is never a search result, whatever its file name: appending one
      to a mailbox changes neither kind of hit. */
  lemma FileRecordsIgnored(k: Key, box: seq<Message>, m: Message, user: string, other: string, q: string)
    requires m.body.File?
    ensures InboundHits(k, box + [m], user, q) == InboundHits(k, box, user, q)
    ensures SentHits(k, box + [m], user, other, q) == SentHits(k, box, user, other, q)
  {
    assert (box + [m])[..|box|] == box;
  }

  /** A text record is found exactly when its decrypted text contains the query. */
  lemma SentTextFound(k: Key, box: seq<Message>, user: string, other: string, text: string, ts: int, read: bool, q: string)
    ensures var m := Message(user, Text(Encrypt(k, text)), ts, read);
            SentHits(k, box + [m], user, other, q)
            == SentHits(k, box, user, other, q) + (if Contains(Lower(text), q) then [Hit(user, other, text, ts)] else [])
  {
    var m := Message(user, Text(Encrypt(k, text)), ts, read);
    assert (box + [m])[..|box|] == box;
  }
}
