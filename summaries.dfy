/** The conversations action: a one-pass summary of a mailbox, grouped by sender in the
    order senders are first seen (the insertion order of the source's `conv` dict). */
module Summaries {
  import opened Options
  import opened Crypto
  import opened Seqs
  import opened Mailbox

  /** The preview of a record; unlike the inbox, a file is shown without
      "(stored securely)". */
  function Preview(k: Key, m: Message): string
  {
    match m.body
    case File(_, name) => "[file] " + name
    case Text(c) => DecryptOr(k, c)
  }

  /** The per-sender counters `{"total", "unread", "last_ts", "last_preview"}`;
      `lastTs` is `None` where the source holds the empty string. */
  datatype Tally = Tally(total: nat, unread: nat, lastTs: Option<int>, lastPreview: string)

  const EmptyTally := Tally(0, 0, None, "")

  /** Counting one more record of the sender: the latest timestamp only moves for a
      strictly later one, so on a tie the first record seen keeps the preview. */
  function Bump(k: Key, t: Tally, m: Message): Tally
  {
    var counted := t.(total := t.total + 1, unread := if m.read then t.unread else t.unread + 1);
    if t.lastTs.None? || m.ts > t.lastTs.value then counted.(lastTs := Some(m.ts), lastPreview := Preview(k, m))
    else counted
  }

  /** The `conv` dict after a prefix of the mailbox: its keys in insertion order, and
      its values. */
  datatype Tallies = Tallies(order: seq<string>, conv: map<string, Tally>)

  function Tallied(k: Key, box: seq<Message>): Tallies
  {
    if box == [] then Tallies([], map[])
    else
      var t := Tallied(k, box[..|box| - 1]);
      var m := box[|box| - 1];
      var order := if m.from in t.conv then t.order else t.order + [m.from];
      Tallies(order, t.conv[m.from := Bump(k, GetOr(t.conv, m.from, EmptyTally), m)])
  }

  /** One element of the conversations response. */
  datatype Summary = Summary(peer: string, total: nat, unread: nat, lastTs: Option<int>, lastPreview: string)

  function SummaryOf(peer: string, t: Tally): Summary
  {
    Summary(peer, t.total, t.unread, t.lastTs, t.lastPreview)
  }

  /** `for sender, info in conv.items()`: one summary per key, in key order. */
  function Listing(order: seq<string>, conv: map<string, Tally>): seq<Summary>
  {
    if order == [] then []
    else Listing(order[..|order| - 1], conv)
         + [SummaryOf(order[|order| - 1], GetOr(conv, order[|order| - 1], EmptyTally))]
  }

  /** The summary the conversations action returns for a mailbox. */
  function ConversationSummaries(k: Key, box: seq<Message>): seq<Summary>
  {
    var t := Tallied(k, box);
    Listing(t.order, t.conv)
  }

  function SumTotals(s: seq<Summary>): int
  {
    if s == [] then 0 else SumTotals(s[..|s| - 1]) + s[|s| - 1].total
  }

  /** Some record of the mailbox comes from `p`. */
  predicate Sends(box: seq<Message>, p: string)
  {
    exists i :: 0 <= i < |box| && box[i].from == p
  }

  /** The first record from `a` comes before every record from `b`. */
  predicate SeenBefore(box: seq<Message>, a: string, b: string)
  {
    exists i :: 0 <= i < |box| && box[i].from == a && forall j :: 0 <= j <= i ==> box[j].from != b
  }

  /** Record `i` is the first record from `p` with the largest timestamp among the
      records from `p`. */
  predicate IsLatest(box: seq<Message>, p: string, i: int)
  {
    && 0 <= i < |box| && box[i].from == p
    && (forall j :: 0 <= j < |box| && box[j].from == p ==> box[j].ts <= box[i].ts)
    && (forall j :: 0 <= j < i && box[j].from == p ==> box[j].ts < box[i].ts)
  }

  // ---------------------------------------------------------------------------
  // Lemmas about the fold

  /** The keys of `conv` are the senders of the mailbox, each recorded once. */
  lemma {:induction false} TalliedKeys(k: Key, box: seq<Message>)
    ensures var t := Tallied(k, box);
            && NoDuplicates(t.order)
            && (forall p :: p in t.conv <==> p in t.order)
            && (forall p :: p in t.order <==> Sends(box, p))
  {
    if box != [] {
      var pre := box[..|box| - 1];
      var m := box[|box| - 1];
      TalliedKeys(k, pre);
      var t0 := Tallied(k, pre);
      var t := Tallied(k, box);
      forall p
        ensures Sends(box, p) <==> Sends(pre, p) || p == m.from
      {
        if Sends(box, p) && p != m.from {
          var i :| 0 <= i < |box| && box[i].from == p;
          assert pre[i] == box[i];
        }
        if Sends(pre, p) {
          var i :| 0 <= i < |pre| && pre[i].from == p;
          assert box[i] == pre[i];
        }
        if p == m.from {
          assert box[|box| - 1].from == p;
        }
      }
    }
  }

  /** Each sender's counters count that sender's records and unread records. */
  lemma {:induction false} TalliedCounts(k: Key, box: seq<Message>)
    ensures var t := Tallied(k, box);
            forall p :: p in t.conv ==> t.conv[p].total == Count(box, p) && t.conv[p].unread == CountUnread(box, p)
  {
    if box != [] {
      var pre := box[..|box| - 1];
      TalliedCounts(k, pre);
      TalliedKeys(k, pre);
      var t0 := Tallied(k, pre);
      var m := box[|box| - 1];
      if m.from !in t0.conv {
        assert !Sends(pre, m.from);
        NoRecordsNoCount(pre, m.from);
      }
    }
  }

  lemma {:induction false} NoRecordsNoCount(box: seq<Message>, p: string)
    requires !Sends(box, p)
    ensures Count(box, p) == 0 && CountUnread(box, p) == 0
  {
    if box != [] {
      var pre := box[..|box| - 1];
      assert !Sends(pre, p) by {
        forall i | 0 <= i < |pre| ensures pre[i].from != p {
          assert pre[i] == box[i];
        }
      }
      NoRecordsNoCount(pre, p);
      assert box[|box| - 1].from != p;
    }
  }

  /** `t` holds the latest timestamp of `p`'s records and the preview of the first
      record with that timestamp. */
  ghost predicate LatestOf(k: Key, box: seq<Message>, p: string, t: Tally)
  {
    exists i :: IsLatest(box, p, i) && t.lastTs == Some(box[i].ts) && t.lastPreview == Preview(k, box[i])
  }

  lemma LatestOther(k: Key, pre: seq<Message>, m: Message, p: string, t: Tally)
    requires p != m.from && LatestOf(k, pre, p, t)
    ensures LatestOf(k, pre + [m], p, t)
  {
    var i :| IsLatest(pre, p, i) && t.lastTs == Some(pre[i].ts) && t.lastPreview == Preview(k, pre[i]);
    assert IsLatest(pre + [m], p, i);
  }

  lemma LatestSame(k: Key, pre: seq<Message>, m: Message, t: Tally)
    requires LatestOf(k, pre, m.from, t)
    ensures LatestOf(k, pre + [m], m.from, Bump(k, t, m))
  {
    var box := pre + [m];
    var i :| IsLatest(pre, m.from, i) && t.lastTs == Some(pre[i].ts) && t.lastPreview == Preview(k, pre[i]);
    if m.ts > pre[i].ts {
      assert IsLatest(box, m.from, |pre|);
    } else {
      assert IsLatest(box, m.from, i);
    }
  }

  lemma LatestFirst(k: Key, pre: seq<Message>, m: Message)
    requires !Sends(pre, m.from)
    ensures LatestOf(k, pre + [m], m.from, Bump(k, EmptyTally, m))
  {
    assert IsLatest(pre + [m], m.from, |pre|);
  }

  /** Each sender's latest timestamp and preview come from the first of its records
      with the largest timestamp. */
  lemma {:induction false} TalliedLatest(k: Key, box: seq<Message>)
    ensures var t := Tallied(k, box);
            forall p :: p in t.conv ==> LatestOf(k, box, p, t.conv[p])
  {
    if box != [] {
      var pre := box[..|box| - 1];
      var m := box[|box| - 1];
      assert box == pre + [m];
      TalliedLatest(k, pre);
      TalliedKeys(k, pre);
      var t0 := Tallied(k, pre);
      var t := Tallied(k, box);
      forall p | p in t.conv
        ensures LatestOf(k, box, p, t.conv[p])
      {
        if p != m.from {
          LatestOther(k, pre, m, p, t0.conv[p]);
        } else if p in t0.conv {
          LatestSame(k, pre, m, t0.conv[p]);
        } else {
          LatestFirst(k, pre, m);
        }
      }
    }
  }

  /** Appending a record keeps every earlier first-seen relation. */
  lemma SeenBeforeExtended(pre: seq<Message>, m: Message, x: string, y: string)
    requires SeenBefore(pre, x, y)
    ensures SeenBefore(pre + [m], x, y)
  {
    var box := pre + [m];
    var i :| 0 <= i < |pre| && pre[i].from == x && forall j :: 0 <= j <= i ==> pre[j].from != y;
    assert box[i] == pre[i];
    forall j | 0 <= j <= i ensures box[j].from != y {
      assert box[j] == pre[j];
    }
  }

  /** A sender seen before is seen before one whose first record is appended now. */
  lemma SeenBeforeNewcomer(pre: seq<Message>, m: Message, x: string)
    requires Sends(pre, x) && !Sends(pre, m.from)
    ensures SeenBefore(pre + [m], x, m.from)
  {
    var box := pre + [m];
    var i :| 0 <= i < |pre| && pre[i].from == x;
    assert box[i] == pre[i];
    forall j | 0 <= j <= i ensures box[j].from != m.from {
      assert box[j] == pre[j];
    }
  }

  /** Senders are listed in the order of their first record. */
  lemma {:induction false} TalliedFirstSeen(k: Key, box: seq<Message>)
    ensures var t := Tallied(k, box);
            forall a, b :: 0 <= a < b < |t.order| ==> SeenBefore(box, t.order[a], t.order[b])
  {
    if box != [] {
      var pre := box[..|box| - 1];
      var m := box[|box| - 1];
      assert box == pre + [m];
      TalliedFirstSeen(k, pre);
      TalliedKeys(k, pre);
      var t0 := Tallied(k, pre);
      var t := Tallied(k, box);
      forall a, b | 0 <= a < b < |t.order|
        ensures SeenBefore(box, t.order[a], t.order[b])
      {
        if b < |t0.order| {
          assert t.order[a] == t0.order[a] && t.order[b] == t0.order[b];
          SeenBeforeExtended(pre, m, t.order[a], t.order[b]);
        } else {
          assert t.order[a] == t0.order[a] && t.order[b] == m.from && m.from !in t0.conv;
          SeenBeforeNewcomer(pre, m, t.order[a]);
        }
      }
    }
  }

  lemma {:induction false} ListingAt(order: seq<string>, conv: map<string, Tally>)
    ensures |Listing(order, conv)| == |order|
    ensures forall i :: 0 <= i < |order| ==> Listing(order, conv)[i] == SummaryOf(order[i], GetOr(conv, order[i], EmptyTally))
  {
    if order != [] {
      ListingAt(order[..|order| - 1], conv);
    }
  }

  lemma {:induction false} ListingFrame(order: seq<string>, conv: map<string, Tally>, p: string, v: Tally)
    requires p !in order
    ensures Listing(order, conv[p := v]) == Listing(order, conv)
  {
    if order != [] {
      ListingFrame(order[..|order| - 1], conv, p, v);
    }
  }

  lemma {:induction false} SumTotalsAppend(s: seq<Summary>, x: Summary)
    ensures SumTotals(s + [x]) == SumTotals(s) + x.total
  {
    assert (s + [x])[..|s|] == s;
  }

  lemma {:induction false} ListingBump(order: seq<string>, conv: map<string, Tally>, p: string, v: Tally)
    requires p in order && p in conv && NoDuplicates(order)
    ensures SumTotals(Listing(order, conv[p := v])) == SumTotals(Listing(order, conv)) - conv[p].total + v.total
  {
    var pre := order[..|order| - 1];
    var last := order[|order| - 1];
    assert NoDuplicates(pre);
    if last == p {
      assert p !in pre;
      ListingFrame(pre, conv, p, v);
    } else {
      ListingBump(pre, conv, p, v);
    }
    SumTotalsAppend(Listing(pre, conv[p := v]), SummaryOf(last, GetOr(conv[p := v], last, EmptyTally)));
    SumTotalsAppend(Listing(pre, conv), SummaryOf(last, GetOr(conv, last, EmptyTally)));
  }

  /** The totals add up to the number of records in the mailbox. */
  lemma {:induction false} TalliedSum(k: Key, box: seq<Message>)
    ensures var t := Tallied(k, box);
            SumTotals(Listing(t.order, t.conv)) == |box|
  {
    if box != [] {
      var pre := box[..|box| - 1];
      var m := box[|box| - 1];
      TalliedSum(k, pre);
      TalliedKeys(k, pre);
      var t0 := Tallied(k, pre);
      var t := Tallied(k, box);
      var v := Bump(k, GetOr(t0.conv, m.from, EmptyTally), m);
      if m.from in t0.conv {
        ListingBump(t0.order, t0.conv, m.from, v);
      } else {
        assert t.order[..|t.order| - 1] == t0.order;
        ListingFrame(t0.order, t0.conv, m.from, v);
        SumTotalsAppend(Listing(t0.order, t.conv), SummaryOf(m.from, v));
      }
    }
  }

  // ---------------------------------------------------------------------------
  // The summary's properties

  lemma SummaryAt(k: Key, box: seq<Message>)
    ensures var t := Tallied(k, box);
            var s := ConversationSummaries(k, box);
            && |s| == |t.order|
            && (forall i :: 0 <= i < |s| ==>
                  s[i].peer == t.order[i] && t.order[i] in t.conv && s[i] == SummaryOf(t.order[i], t.conv[t.order[i]]))
  {
    var t := Tallied(k, box);
    TalliedKeys(k, box);
    ListingAt(t.order, t.conv);
  }

  /** The summary lists every sender of the mailbox exactly once, in the order of
      their first records. */
  lemma SummaryPeers(k: Key, box: seq<Message>)
    ensures var s := ConversationSummaries(k, box);
            && (forall i, j :: 0 <= i < j < |s| ==> s[i].peer != s[j].peer)
            && (forall p :: Sends(box, p) <==> exists i :: 0 <= i < |s| && s[i].peer == p)
            && (forall i, j :: 0 <= i < j < |s| ==> SeenBefore(box, s[i].peer, s[j].peer))
  {
    var t := Tallied(k, box);
    var s := ConversationSummaries(k, box);
    TalliedKeys(k, box);
    TalliedFirstSeen(k, box);
    SummaryAt(k, box);
    forall p | Sends(box, p)
      ensures exists i :: 0 <= i < |s| && s[i].peer == p
    {
      var i :| 0 <= i < |t.order| && t.order[i] == p;
      assert s[i].peer == p;
    }
  }

  /** Each entry counts its sender's records and unread records. */
  lemma SummaryCounts(k: Key, box: seq<Message>)
    ensures var s := ConversationSummaries(k, box);
            forall i :: 0 <= i < |s| ==>
              s[i].total == Count(box, s[i].peer) && s[i].unread == CountUnread(box, s[i].peer)
              && s[i].unread <= s[i].total
  {
    var s := ConversationSummaries(k, box);
    TalliedCounts(k, box);
    SummaryAt(k, box);
    forall i | 0 <= i < |s|
      ensures s[i].unread <= s[i].total
    {
      UnreadAtMostTotal(box, s[i].peer);
    }
  }

  /** Each entry carries the latest timestamp of its sender's records and the preview
      of the first record with that timestamp. */
  lemma SummaryLatest(k: Key, box: seq<Message>)
    ensures var s := ConversationSummaries(k, box);
            forall i :: 0 <= i < |s| ==> LatestOf(k, box, s[i].peer, Tally(s[i].total, s[i].unread, s[i].lastTs, s[i].lastPreview))
  {
    TalliedLatest(k, box);
    SummaryAt(k, box);
  }

  /** The conversations summary lists every sender of the mailbox exactly once, in the
      order of their first records; each entry counts that sender's records and unread
      records, carries the latest timestamp among them and the preview of the first
      record with that timestamp; and the totals add up to the mailbox length. */
  lemma SummariesCorrect(k: Key, box: seq<Message>)
    ensures var s := ConversationSummaries(k, box);
            && (forall i, j :: 0 <= i < j < |s| ==> s[i].peer != s[j].peer)
            && (forall p :: Sends(box, p) <==> exists i :: 0 <= i < |s| && s[i].peer == p)
            && (forall i, j :: 0 <= i < j < |s| ==> SeenBefore(box, s[i].peer, s[j].peer))
            && (forall i :: 0 <= i < |s| ==>
                  s[i].total == Count(box, s[i].peer) && s[i].unread == CountUnread(box, s[i].peer)
                  && s[i].unread <= s[i].total)
            && (forall i :: 0 <= i < |s| ==>
                  LatestOf(k, box, s[i].peer, Tally(s[i].total, s[i].unread, s[i].lastTs, s[i].lastPreview)))
            && SumTotals(s) == |box|
  {
    SummaryPeers(k, box);
    SummaryCounts(k, box);
    SummaryLatest(k, box);
    TalliedSum(k, box);
  }

  /** The summary is empty exactly when the mailbox is. */
  lemma SummariesEmpty(k: Key, box: seq<Message>)
    ensures ConversationSummaries(k, box) == [] <==> box == []
  {
    SummariesCorrect(k, box);
    if box != [] {
      assert Sends(box, box[0].from);
    }
  }
}
