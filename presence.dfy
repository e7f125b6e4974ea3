/** The typing indicator of the relay server: `typing[viewer][writer]` holds the last
    flag `writer` reported while composing a message to `viewer`, and when. */
module Presence {
  import opened Options

  /** A writer counts as typing while its report is less than this many seconds old. */
  const FreshnessSeconds := 8

  /** `{"typing": ..., "ts": ...}` */
  datatype TypingState = TypingState(typing: bool, ts: int)

  /** The state `writer` last reported to `viewer`, if any. */
  function Recorded(table: map<string, map<string, TypingState>>, viewer: string, writer: string): Option<TypingState>
  {
    if viewer in table && writer in table[viewer] then Some(table[viewer][writer]) else None
  }

  /** The typing action: `writer` reports `flag` at `now` to `viewer`, creating the
      inner table of `viewer` when it has none yet. */
  function WithTyping(table: map<string, map<string, TypingState>>, writer: string, viewer: string,
                      flag: bool, now: int): (t: map<string, map<string, TypingState>>)
    ensures Recorded(t, viewer, writer) == Some(TypingState(flag, now))
    ensures forall v, w :: v != viewer || w != writer ==> Recorded(t, v, w) == Recorded(table, v, w)
    ensures t.Keys == table.Keys + {viewer}
  {
    table[viewer := GetOr(table, viewer, map[])[writer := TypingState(flag, now)]]
  }

  /** The typing-status action: whether `writer` is typing to `viewer` at `now`. */
  predicate TypingNow(table: map<string, map<string, TypingState>>, viewer: string, writer: string, now: int)
  {
    match Recorded(table, viewer, writer)
    case None => false
    case Some(s) => s.typing && now - s.ts < FreshnessSeconds
  }

  /** What a writer reports is what the viewer then sees, for eight seconds, and at any
      earlier time too, since `now - ts < 8` also holds for a report stamped later than
      the query; the report of a third party, or one addressed to someone else, changes
      nothing. */
  lemma TypingRoundTrip(table: map<string, map<string, TypingState>>, writer: string, viewer: string,
                        flag: bool, now: int, later: int)
    ensures TypingNow(WithTyping(table, writer, viewer, flag, now), viewer, writer, later)
            <==> flag && later < now + FreshnessSeconds
    ensures forall v, w :: v != viewer || w != writer ==>
              (TypingNow(WithTyping(table, writer, viewer, flag, now), v, w, later) <==> TypingNow(table, v, w, later))
  {
  }

  /** The indicator is directional: a report from `writer` to `viewer` is not seen by
      `writer` looking at `viewer`. */
  lemma TypingIsDirectional(table: map<string, map<string, TypingState>>, writer: string, viewer: string,
                            flag: bool, now: int)
    requires writer != viewer
    ensures TypingNow(WithTyping(table, writer, viewer, flag, now), writer, viewer, now)
            <==> TypingNow(table, writer, viewer, now)
  {
  }

  /** Without any report the indicator is off, and a report goes stale. */
  lemma TypingNeedsFreshReport(table: map<string, map<string, TypingState>>, viewer: string, writer: string, now: int)
    ensures Recorded(table, viewer, writer).None? ==> !TypingNow(table, viewer, writer, now)
    ensures TypingNow(table, viewer, writer, now) ==>
              Recorded(table, viewer, writer).value.typing
              && now < Recorded(table, viewer, writer).value.ts + FreshnessSeconds
  {
  }
}
