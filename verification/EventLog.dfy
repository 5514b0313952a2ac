/** The persisted event log of a session. */
module EventLog {
  datatype LogRow = LogRow(seqNo: nat, kind: string, data: string)

  /** `lastEventSeq` and the session's rows in the order they were created. */
  datatype Log = Log(lastEventSeq: nat, rows: seq<LogRow>)

  const EMPTY := Log(0, [])

  /** The numbers are exactly 1 .. lastEventSeq, in order. */
  predicate Gapless(log: Log) {
    |log.rows| == log.lastEventSeq && forall i | 0 <= i < |log.rows| :: log.rows[i].seqNo == i + 1
  }

  /** `appendEvent`, one transaction. */
  function Appended(log: Log, kind: string, data: string): Log {
    Log(log.lastEventSeq + 1, log.rows + [LogRow(log.lastEventSeq + 1, kind, data)])
  }

  function Newer(rows: seq<LogRow>, since: nat): seq<LogRow> {
    if rows == [] then []
    else (if rows[0].seqNo > since then [rows[0]] else []) + Newer(rows[1..], since)
  }

  /** `getEventsSince`: the first rows after a number. */
  function EventsSince(log: Log, since: nat, limit: nat): seq<LogRow> {
    var newer := Newer(log.rows, since);
    if |newer| <= limit then newer else newer[..limit]
  }

  lemma {:induction false} NewerSuffix(rows: seq<LogRow>, first: nat, since: nat)
    requires forall i | 0 <= i < |rows| :: rows[i].seqNo == first + i
    ensures Newer(rows, since) == rows[Cut(since, first, |rows|)..]
  {
    if rows != [] {
      NewerSuffix(rows[1..], first + 1, since);
      assert [rows[0]] + rows[1..] == rows;
    }
  }

  /** How many of n consecutive numbers from first on are not above since. */
  function Cut(since: nat, first: nat, n: nat): (cut: nat)
    ensures cut <= n
  {
    if since < first then 0 else if since - first + 1 <= n then since - first + 1 else n
  }

  /** A page of a gapless log is the next numbers without a hole: all of them when
      they fit the limit, and otherwise the first ones. */
  lemma PageIsConsecutive(log: Log, since: nat, limit: nat)
    requires Gapless(log)
    ensures var page := EventsSince(log, since, limit);
            var available := if since < log.lastEventSeq then log.lastEventSeq - since else 0;
            && |page| == (if available <= limit then available else limit)
            && forall i | 0 <= i < |page| :: page[i] == log.rows[since + i] && page[i].seqNo == since + 1 + i
  {
    NewerSuffix(log.rows, 1, since);
  }
}
