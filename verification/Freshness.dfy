/** What the frame thread learns about a batch: the newest record, the oldest timestamp, and how
    many button records it holds. */
module Freshness {
  import opened Words
  import opened Records

  datatype Summary = Summary(newest: U64, newestSequence: U64, oldest: U64, buttons: nat)

  /** Later timestamp first, then higher number. */
  predicate Newer(t: U64, n: U64, u: U64, m: U64) {
    t > u || (t == u && n > m)
  }

  function Note(s: Summary, r: Record): Summary
  {
    Summary(
      if Newer(r.timestamp, r.sequence, s.newest, s.newestSequence) then r.timestamp else s.newest,
      if Newer(r.timestamp, r.sequence, s.newest, s.newestSequence) then r.sequence else s.newestSequence,
      if r.timestamp < s.oldest then r.timestamp else s.oldest,
      s.buttons + if HasFlag(r, BUTTON) then 1 else 0)
  }

  function NoteAll(s: Summary, records: seq<Record>): Summary
  {
    if records == [] then s else Note(NoteAll(s, records[..|records| - 1]), records[|records| - 1])
  }

  method SummarizeRecords(records: array<Record>, before: Summary) returns (after: Summary)
    ensures after == NoteAll(before, records[..])
  {
    after := before;
    var i := 0;
    while i < records.Length
      invariant 0 <= i <= records.Length
      invariant after == NoteAll(before, records[..i])
    {
      assert records[..i + 1][..i] == records[..i];
      var r := records[i];
      if r.timestamp > after.newest || (r.timestamp == after.newest && r.sequence > after.newestSequence) {
        after := after.(newest := r.timestamp, newestSequence := r.sequence);
      }
      if r.timestamp < after.oldest {
        after := after.(oldest := r.timestamp);
      }
      if HasFlag(r, BUTTON) {
        after := after.(buttons := after.buttons + 1);
      }
      i := i + 1;
    }
    assert records[..records.Length] == records[..];
  }

  /** The summary is the true extreme of everything noted, in whatever order it arrived: no record
      is newer than `newest` or older than `oldest`, and each was either there before or is the mark
      of a noted record. */
  lemma {:induction false} SummaryIsExtreme(s: Summary, records: seq<Record>)
    ensures var t := NoteAll(s, records);
      && (forall r :: r in records ==>
            t.oldest <= r.timestamp <= t.newest && (r.timestamp == t.newest ==> r.sequence <= t.newestSequence))
      && t.oldest <= s.oldest && s.newest <= t.newest
      && (s.newest == t.newest ==> s.newestSequence <= t.newestSequence)
      && t.buttons == s.buttons + FlagCount(records, 2)
      && ((t.newest == s.newest && t.newestSequence == s.newestSequence)
          || exists r :: r in records && t.newest == r.timestamp && t.newestSequence == r.sequence)
      && (t.oldest == s.oldest || exists r :: r in records && t.oldest == r.timestamp)
  {
    if records != [] {
      var n := |records| - 1;
      SummaryIsExtreme(s, records[..n]);
      var last := records[n];
      assert last in records;
      assert forall r :: r in records ==> r in records[..n] || r == last;
      assert forall r :: r in records[..n] ==> r in records;
    }
  }

  /** Taking the pending queue in one batch or in several gives the same summary. */
  lemma {:induction false} TakesCompose(s: Summary, a: seq<Record>, b: seq<Record>)
    ensures NoteAll(s, a + b) == NoteAll(NoteAll(s, a), b)
    decreases |b|
  {
    if b == [] {
      assert a + b == a;
    } else {
      assert (a + b)[..|a + b| - 1] == a + b[..|b| - 1];
      TakesCompose(s, a, b[..|b| - 1]);
    }
  }
}
