/** Cutting the flat word list of a file into sentences: a sentence starts
    at index 0 and at every word whose ID column is '1'. */
module Segmentation {
  import opened Base
  import opened Corpus

  /** Half-open index range `[start, end)` of one sentence. */
  datatype Segment = Segment(start: nat, end: nat)

  /** Where the sentence that starts at `start` ends: just before the next
      word (after `start` itself) whose ID is '1', or at `count`. */
  function SegmentEnd(words: seq<Word>, count: nat, start: nat): (end: nat)
    requires AllWellFormed(words) && start < count <= |words|
    ensures start + 1 <= end <= count
    ensures forall j :: start < j < end ==> !StartsSentence(words[j])
    ensures end == count || StartsSentence(words[end])
    decreases count - start
  {
    if start + 1 == count || StartsSentence(words[start + 1]) then start + 1
    else SegmentEnd(words, count, start + 1)
  }

  /** The three properties of `SegmentEnd` determine it. */
  lemma SegmentEndUnique(words: seq<Word>, count: nat, start: nat, end: nat)
    requires AllWellFormed(words) && start < count <= |words|
    requires start + 1 <= end <= count
    requires forall j :: start < j < end ==> !StartsSentence(words[j])
    requires end == count || StartsSentence(words[end])
    ensures end == SegmentEnd(words, count, start)
  {
  }

  /** `SegmentEnd` reads only the words after `start` and before `count`. */
  lemma SegmentEndAgrees(a: seq<Word>, b: seq<Word>, count: nat, start: nat)
    requires AllWellFormed(a) && AllWellFormed(b) && start < count <= |a| && count <= |b|
    requires forall j :: start < j < count ==> a[j] == b[j]
    ensures SegmentEnd(a, count, start) == SegmentEnd(b, count, start)
  {
    SegmentEndUnique(b, count, start, SegmentEnd(a, count, start));
  }

  /** The inner `while` of `dev_eval`: starting one past `start`, advance
      while the word there does not open a sentence. */
  method FindSentenceEnd(words: seq<Word>, count: nat, start: nat) returns (end: nat)
    requires AllWellFormed(words) && start < count <= |words|
    ensures end == SegmentEnd(words, count, start)
  {
    end := start + 1;
    while end < count && words[end].columns[ID] != "1"
      invariant start + 1 <= end <= count
      invariant forall j :: start < j < end ==> !StartsSentence(words[j])
    {
      end := end + 1;
    }
    SegmentEndUnique(words, count, start, end);
  }

  /** The sentences that the outer loop visits from `start` on. */
  function Segments(words: seq<Word>, count: nat, start: nat): seq<Segment>
    requires AllWellFormed(words) && start <= count <= |words|
    decreases count - start
  {
    if start == count then []
    else
      var e := SegmentEnd(words, count, start);
      [Segment(start, e)] + Segments(words, count, e)
  }

  /** The indices of a list of segments, one after the other. */
  function Indices(segs: seq<Segment>): seq<nat>
  {
    if segs == [] then [] else Range(segs[0].start, segs[0].end) + Indices(segs[1..])
  }

  /** Segment `k` from `start` on: it begins where segment `k - 1` ended
      (at `start` for the first), on a boundary, and runs to the
      `SegmentEnd` of its first word; the last one ends at `count`. */
  lemma {:induction false} SegmentAt(words: seq<Word>, count: nat, start: nat, k: nat)
    requires AllWellFormed(words) && start <= count <= |words|
    requires k < |Segments(words, count, start)|
    ensures var segs := Segments(words, count, start);
      && start <= segs[k].start < count
      && (k == 0 ==> segs[k].start == start)
      && (k > 0 ==> StartsSentence(words[segs[k].start]))
      && segs[k].end == SegmentEnd(words, count, segs[k].start)
      && (k + 1 < |segs| ==> segs[k + 1].start == segs[k].end)
      && (k + 1 == |segs| ==> segs[k].end == count)
    decreases count - start
  {
    var segs := Segments(words, count, start);
    var e := SegmentEnd(words, count, start);
    var rest := Segments(words, count, e);
    assert segs == [Segment(start, e)] + rest;
    if k == 0 {
      if rest != [] {
        SegmentAt(words, count, e, 0);
      }
    } else {
      SegmentAt(words, count, e, k - 1);
      if k == 1 {
        assert segs[k] == rest[0];
      }
    }
  }

  /** The segments are contiguous, each is non-empty and starts on a
      boundary, none holds a word with ID '1' after its first, the last
      ends at `count`, and the list of their indices is exactly
      `range(start, count)`: every index is visited once and only once. */
  lemma SegmentsPartition(words: seq<Word>, count: nat, start: nat)
    requires AllWellFormed(words) && start <= count <= |words|
    ensures Segments(words, count, start) == [] <==> start == count
    ensures var segs := Segments(words, count, start);
      segs != [] ==> segs[0].start == start && segs[|segs| - 1].end == count
    ensures var segs := Segments(words, count, start);
      forall k :: 0 <= k < |segs| ==> start <= segs[k].start < segs[k].end <= count
    ensures var segs := Segments(words, count, start);
      forall k :: 0 <= k < |segs| - 1 ==> segs[k].end == segs[k + 1].start
    ensures var segs := Segments(words, count, start);
      forall k :: 0 <= k < |segs| ==> segs[k].start == start || StartsSentence(words[segs[k].start])
    ensures var segs := Segments(words, count, start);
      forall k, j :: 0 <= k < |segs| && segs[k].start < j < segs[k].end ==> !StartsSentence(words[j])
    ensures Indices(Segments(words, count, start)) == Range(start, count)
  {
    var segs := Segments(words, count, start);
    forall k | 0 <= k < |segs|
      ensures start <= segs[k].start < segs[k].end <= count
      ensures k < |segs| - 1 ==> segs[k].end == segs[k + 1].start
      ensures k == |segs| - 1 ==> segs[k].end == count
      ensures k == 0 ==> segs[k].start == start
      ensures segs[k].start == start || StartsSentence(words[segs[k].start])
      ensures forall j :: segs[k].start < j < segs[k].end ==> !StartsSentence(words[j])
    {
      SegmentAt(words, count, start, k);
    }
    SegmentsIndices(words, count, start);
  }

  lemma {:induction false} SegmentsIndices(words: seq<Word>, count: nat, start: nat)
    requires AllWellFormed(words) && start <= count <= |words|
    ensures Indices(Segments(words, count, start)) == Range(start, count)
    decreases count - start
  {
    if start < count {
      var e := SegmentEnd(words, count, start);
      var segs := Segments(words, count, start);
      SegmentsIndices(words, count, e);
      assert segs[1..] == Segments(words, count, e);
      RangeSplit(start, e, count);
    }
  }

  /** The index of the first word of the sentence holding word `i`: the
      last boundary at or before `i`. */
  function SentenceStart(words: seq<Word>, i: nat): (s: nat)
    requires AllWellFormed(words) && i < |words|
    ensures s <= i
    ensures s == 0 || StartsSentence(words[s])
    ensures forall j :: s < j <= i ==> !StartsSentence(words[j])
  {
    if i == 0 || StartsSentence(words[i]) then i else SentenceStart(words, i - 1)
  }

  /** Every word of the segment that starts at a boundary `s` belongs to
      the sentence that starts at `s`. */
  lemma InSegment(words: seq<Word>, count: nat, s: nat, i: nat)
    requires AllWellFormed(words) && s < count <= |words|
    requires s == 0 || StartsSentence(words[s])
    requires s <= i < SegmentEnd(words, count, s)
    ensures SentenceStart(words, i) == s
  {
  }
}
