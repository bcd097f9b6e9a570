/**
 * The history log of completed draws (newest first), the memo edits on it,
 * the whitespace trimming applied to memo text, and the record mapping used
 * when the log is written to and read back from storage.
 */
module History {
  import opened Wrappers

  /** A completed draw; `timestamp` is the instant of completion in milliseconds. */
  datatype Record = Record(winner: int, timestamp: int, memo: string)

  /** The ISO-8601 text of an instant; its character-level format is not modelled. */
  datatype IsoTimestamp = Iso(millis: int)

  /** A record as persisted: the memo may be absent (or null) in stored data. */
  datatype StoredRecord = StoredRecord(winner: int, timestamp: IsoTimestamp, memo: Option<string>)

  // ---------------------------------------------------------------------------
  // Memo edits

  /**
   * The log with the memo of the record at `index` replaced; an index with
   * no record leaves the log as it is.
   */
  function SetMemo(log: seq<Record>, index: int, memo: string): (r: seq<Record>)
    ensures |r| == |log|
    ensures forall k :: 0 <= k < |log| ==>
      r[k].winner == log[k].winner && r[k].timestamp == log[k].timestamp &&
      r[k].memo == (if k == index then memo else log[k].memo)
  {
    if 0 <= index < |log| then log[index := log[index].(memo := memo)] else log
  }

  /** Writing a memo twice is the same as writing it once; the last write wins. */
  lemma SetMemoOverwrites(log: seq<Record>, index: int, a: string, b: string)
    ensures SetMemo(SetMemo(log, index, a), index, b) == SetMemo(log, index, b)
    ensures SetMemo(SetMemo(log, index, b), index, b) == SetMemo(log, index, b)
  {
  }

  /** An index that names no record makes the edit a no-op. */
  lemma SetMemoOutOfRange(log: seq<Record>, index: int, memo: string)
    requires index < 0 || |log| <= index
    ensures SetMemo(log, index, memo) == log
  {
  }

  /**
   * Indices shift when a record is prepended: the record that was at `index`
   * is at `index + 1` afterwards, and editing it there gives the same log as
   * editing first and prepending afterwards.
   */
  lemma SetMemoAfterPrepend(newest: Record, log: seq<Record>, index: int, memo: string)
    requires 0 <= index < |log|
    ensures SetMemo([newest] + log, index + 1, memo) == [newest] + SetMemo(log, index, memo)
  {
  }

  // ---------------------------------------------------------------------------
  // String.prototype.trim

  /** WhiteSpace and LineTerminator code points of ECMAScript (section 12.2 and 12.3 of ECMA-262). */
  predicate IsJsWhitespace(c: char) {
    c == '\t' || c == '\n' || c == '\U{B}' || c == '\U{C}' || c == '\r' || c == ' ' ||
    c == '\U{A0}' || c == '\U{1680}' || ('\U{2000}' <= c <= '\U{200A}') ||
    c == '\U{2028}' || c == '\U{2029}' || c == '\U{202F}' || c == '\U{205F}' ||
    c == '\U{3000}' || c == '\U{FEFF}'
  }

  /** `s` without its leading whitespace: a suffix of `s`, starting at a non-blank. */
  function TrimStart(s: string): (r: string)
    ensures |r| <= |s| && r == s[|s| - |r|..]
    ensures forall k :: 0 <= k < |s| - |r| ==> IsJsWhitespace(s[k])
    ensures r == [] || !IsJsWhitespace(r[0])
  {
    if s != [] && IsJsWhitespace(s[0]) then TrimStart(s[1..]) else s
  }

  /** `s` without its trailing whitespace: a prefix of `s`, ending at a non-blank. */
  function TrimEnd(s: string): (r: string)
    ensures |r| <= |s| && r == s[..|r|]
    ensures forall k :: |r| <= k < |s| ==> IsJsWhitespace(s[k])
    ensures r == [] || !IsJsWhitespace(r[|r| - 1])
  {
    if s != [] && IsJsWhitespace(s[|s| - 1]) then TrimEnd(s[..|s| - 1]) else s
  }

  /** String.prototype.trim. */
  function Trim(s: string): string {
    TrimEnd(TrimStart(s))
  }

  /**
   * The trimmed text is the slice `s[i..j]` of the input, everything outside
   * the slice is whitespace, and the slice neither starts nor ends with it.
   */
  lemma TrimIsCore(s: string) returns (i: nat, j: nat)
    ensures i <= j <= |s| && Trim(s) == s[i..j]
    ensures forall k :: 0 <= k < i ==> IsJsWhitespace(s[k])
    ensures forall k :: j <= k < |s| ==> IsJsWhitespace(s[k])
    ensures i < j ==> !IsJsWhitespace(s[i]) && !IsJsWhitespace(s[j - 1])
  {
    var t := TrimStart(s);
    var u := TrimEnd(t);
    assert Trim(s) == u;
    i := |s| - |t|;
    j := i + |u|;
    assert u == [] || u[0] == t[0];
    SliceOfSuffix(s, t, u, i, j);
  }

  /**
   * A prefix `u` of the suffix `t == s[i..]` is the slice `s[i..j]`, and what
   * `u` leaves of `t` is what follows that slice in `s`.
   */
  lemma SliceOfSuffix(s: string, t: string, u: string, i: nat, j: nat)
    requires i <= |s| && t == s[i..]
    requires |u| <= |t| && u == t[..|u|] && j == i + |u|
    requires forall k :: |u| <= k < |t| ==> IsJsWhitespace(t[k])
    requires u == [] || (!IsJsWhitespace(u[0]) && !IsJsWhitespace(u[|u| - 1]))
    ensures i <= j <= |s| && u == s[i..j]
    ensures forall k :: j <= k < |s| ==> IsJsWhitespace(s[k])
    ensures i < j ==> !IsJsWhitespace(s[i]) && !IsJsWhitespace(s[j - 1])
  {
    forall k | j <= k < |s|
      ensures IsJsWhitespace(s[k])
    {
      assert s[k] == t[k - i];
    }
    if i < j {
      assert s[i] == u[0];
      assert s[j - 1] == u[|u| - 1];
    }
  }

  /** Trimming twice is trimming once. */
  lemma TrimIdempotent(s: string)
    ensures Trim(Trim(s)) == Trim(s)
  {
    var t := TrimStart(s);
    var u := TrimEnd(t);
    assert u == [] || u[0] == t[0];
    assert TrimStart(u) == u;
    assert TrimEnd(u) == u;
  }

  // ---------------------------------------------------------------------------
  // Persistence mapping

  /** The JavaScript `memo || ''`: a missing memo reads as the empty string. */
  function MemoOrEmpty(memo: Option<string>): string {
    memo.GetOr("")
  }

  /**
   * One record as written by saveHistory: timestamp as ISO text, memo always
   * present (`item.memo || ''` leaves the string memos of the log unchanged).
   */
  function ToStored(r: Record): StoredRecord {
    StoredRecord(r.winner, Iso(r.timestamp), Some(r.memo))
  }

  /** One record as rebuilt by loadHistory: ISO text back to an instant, missing memo as ''. */
  function FromStored(s: StoredRecord): Record {
    Record(s.winner, s.timestamp.millis, MemoOrEmpty(s.memo))
  }

  /** The log as persisted, record by record in the same order. */
  function SaveRecords(log: seq<Record>): (stored: seq<StoredRecord>)
    ensures |stored| == |log|
  {
    if log == [] then [] else [ToStored(log[0])] + SaveRecords(log[1..])
  }

  /** The log rebuilt from persisted records, record by record in the same order. */
  function LoadRecords(stored: seq<StoredRecord>): (log: seq<Record>)
    ensures |log| == |stored|
  {
    if stored == [] then [] else [FromStored(stored[0])] + LoadRecords(stored[1..])
  }

  /** Saving then loading gives back the same records in the same order. */
  lemma {:induction false} LoadSaveRoundTrip(log: seq<Record>)
    ensures LoadRecords(SaveRecords(log)) == log
  {
    if log != [] {
      LoadSaveRoundTrip(log[1..]);
    }
  }

  /** Every persisted record carries a memo, and a record whose memo was missing loads with ''. */
  lemma {:induction false} LoadRecordsAt(stored: seq<StoredRecord>, k: nat)
    requires k < |stored|
    ensures LoadRecords(stored)[k].winner == stored[k].winner
    ensures LoadRecords(stored)[k].timestamp == stored[k].timestamp.millis
    ensures stored[k].memo.None? ==> LoadRecords(stored)[k].memo == ""
    ensures stored[k].memo.Some? ==> LoadRecords(stored)[k].memo == stored[k].memo.value
  {
    if k > 0 {
      LoadRecordsAt(stored[1..], k - 1);
    }
  }

  /** Every saved record has its memo present. */
  lemma {:induction false} SavedMemosPresent(log: seq<Record>, k: nat)
    requires k < |log|
    ensures SaveRecords(log)[k] == StoredRecord(log[k].winner, Iso(log[k].timestamp), Some(log[k].memo))
  {
    if k > 0 {
      SavedMemosPresent(log[1..], k - 1);
    }
  }

  /** Loading, saving and loading again gives what the first load gave. */
  lemma LoadIsStable(stored: seq<StoredRecord>)
    ensures LoadRecords(SaveRecords(LoadRecords(stored))) == LoadRecords(stored)
  {
    LoadSaveRoundTrip(LoadRecords(stored));
  }
}
