/** What the two sync loops share: the tables a pass writes, how the
    handling of one event ends, and the high-water timestamp each pass passes
    to `updateSyncStatus` (azure-functions/src/functions/syncUnifiAccess.ts,
    lines 107-110, and azure-functions/src/functions/syncEzradius.ts, lines
    57-60). */
module Batch {
  import opened Types

  /** The part of the store a pass writes. */
  datatype Tables = Tables(events: seq<AccessEvent>, sessions: seq<PresenceSession>)

  /** How the handling of one event ended. */
  datatype Outcome = Skipped | Processed(timestamp: Timestamp) | Failed(matched: bool, message: string)

  /** The greater of a cursor and a new timestamp. */
  function Later(last: Option<Timestamp>, ts: Timestamp): Timestamp {
    if last.None? || ts > last.value then ts else last.value
  }

  /** The largest timestamp among the processed outcomes, if any. */
  function MaxProcessed(os: seq<Outcome>): (r: Option<Timestamp>)
    ensures r.None? <==> forall i :: 0 <= i < |os| ==> !os[i].Processed?
    ensures r.Some? ==> (exists i :: 0 <= i < |os| && os[i] == Processed(r.value))
                        && forall i :: 0 <= i < |os| && os[i].Processed? ==> os[i].timestamp <= r.value
  {
    if os == [] then None
    else
      var p := MaxProcessed(os[..|os| - 1]);
      var o := os[|os| - 1];
      assert forall i :: 0 <= i < |os| - 1 ==> os[..|os| - 1][i] == os[i];
      if o.Processed? then Some(Later(p, o.timestamp)) else p
  }

  /** The number of processed events. */
  function ProcessedCount(os: seq<Outcome>): (r: nat)
    ensures r <= |os| && (r == 0 <==> forall i :: 0 <= i < |os| ==> !os[i].Processed?)
  {
    if os == [] then 0
    else
      var init := os[..|os| - 1];
      assert forall i :: 0 <= i < |init| ==> init[i] == os[i];
      ProcessedCount(init) + (if os[|os| - 1].Processed? then 1 else 0)
  }

  /** The number of skipped events. */
  function SkippedCount(os: seq<Outcome>): (r: nat)
    ensures r <= |os|
  {
    if os == [] then 0 else SkippedCount(os[..|os| - 1]) + (if os[|os| - 1].Skipped? then 1 else 0)
  }

  /** The number of events matched to a user: processed, or failed after the match. */
  function MatchedCount(os: seq<Outcome>): (r: nat)
    ensures r <= |os|
  {
    if os == [] then 0
    else MatchedCount(os[..|os| - 1]) + (if os[|os| - 1].Processed? || (os[|os| - 1].Failed? && os[|os| - 1].matched) then 1 else 0)
  }

  /** The messages of the failed events, in order. */
  function Errors(os: seq<Outcome>): (r: seq<string>)
    ensures |r| <= |os| && (r == [] <==> forall i :: 0 <= i < |os| ==> !os[i].Failed?)
  {
    if os == [] then []
    else
      var init := os[..|os| - 1];
      assert forall i :: 0 <= i < |init| ==> init[i] == os[i];
      Errors(init) + (if os[|os| - 1].Failed? then [os[|os| - 1].message] else [])
  }

  /** Appending one outcome adds it to exactly one count. */
  lemma CountsSnoc(os: seq<Outcome>, o: Outcome)
    ensures ProcessedCount(os + [o]) == ProcessedCount(os) + (if o.Processed? then 1 else 0)
    ensures SkippedCount(os + [o]) == SkippedCount(os) + (if o.Skipped? then 1 else 0)
    ensures MatchedCount(os + [o]) == MatchedCount(os) + (if o.Processed? || (o.Failed? && o.matched) then 1 else 0)
    ensures Errors(os + [o]) == Errors(os) + (if o.Failed? then [o.message] else [])
    ensures MaxProcessed(os + [o]) == if o.Processed? then Some(Later(MaxProcessed(os), o.timestamp)) else MaxProcessed(os)
  {
    assert (os + [o])[..|os|] == os;
  }

  /** Every event is counted as exactly one of processed, skipped or failed,
      and only matched events are processed. */
  lemma {:induction false} OutcomeCounts(os: seq<Outcome>)
    ensures ProcessedCount(os) + SkippedCount(os) + |Errors(os)| == |os|
    ensures ProcessedCount(os) <= MatchedCount(os) <= ProcessedCount(os) + |Errors(os)|
  {
    if os != [] {
      var init := os[..|os| - 1];
      OutcomeCounts(init);
      assert os == init + [os[|os| - 1]];
      CountsSnoc(init, os[|os| - 1]);
    }
  }

  /** A prefix of a prefix is a prefix. */
  lemma PrefixOfPrefix<T>(a: seq<T>, b: seq<T>, c: seq<T>)
    requires |a| <= |b| <= |c| && b[..|a|] == a && c[..|b|] == b
    ensures c[..|a|] == a
  {
    assert c[..|a|] == c[..|b|][..|a|];
  }
}
