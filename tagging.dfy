/** Writing predictions back sentence by sentence (`dev_eval`'s outer
    loop and its `zip` write-back), over an abstract per-sentence
    predictor: the words of a sentence in, one tag id per row out. */
module Tagging {
  import opened Base
  import opened Corpus
  import opened Segmentation

  /** One run of the write-back: the words as loaded, the number of words
      the loop covers, the tag column, the predictor of a sentence and the
      tag vocabulary. */
  datatype Tagger = Tagger(words: seq<Word>, count: nat, col: nat,
                           sentence: seq<Word> -> seq<nat>, tagValue: nat -> string)
  {
    predicate Valid()
    {
      AllWellFormed(words) && count <= |words| && col < COLUMNS
    }

    /** The predictions for the sentence that starts at `s`. */
    function Predictions(s: nat): seq<nat>
      requires Valid() && s < count
    {
      sentence(words[s..SegmentEnd(words, count, s)])
    }

    /** Word `i` is written: it lies before `count`, and its sentence's
        predictions have a row for it. */
    predicate Writes(i: nat)
      requires Valid()
    {
      i < count && i - SentenceStart(words, i) < |Predictions(SentenceStart(words, i))|
    }

    /** What word `i` holds after the run: a written word has its tag
        column replaced by the label of its row of its own sentence's
        predictions; every other word is unchanged. */
    function Expected(i: nat): Word
      requires Valid() && i < |words|
    {
      if Writes(i) then
        var s := SentenceStart(words, i);
        SetColumn(words[i], col, tagValue(Predictions(s)[i - s]))
      else words[i]
    }

    /** The predictor returns one row per word of the sentence. */
    ghost predicate RowPerWord()
    {
      forall tokens :: AllWellFormed(tokens) ==> |sentence(tokens)| == |tokens|
    }
  }

  /** The outer loop's invariant once the words before `start` are done:
      they hold their expected values, the others are as loaded, and
      `written` lists the written ones in increasing order. */
  ghost predicate DoneUpTo(t: Tagger, start: nat, words: seq<Word>, written: seq<nat>)
    requires t.Valid()
  {
    && start <= t.count && |words| == |t.words|
    && (start < t.count ==> start == 0 || StartsSentence(t.words[start]))
    && (forall i :: start <= i < |words| ==> words[i] == t.words[i])
    && (forall i :: 0 <= i < start ==> words[i] == t.Expected(i))
    && (forall j, k :: 0 <= j < k < |written| ==> written[j] < written[k])
    && (forall j :: 0 <= j < |written| ==> written[j] < start)
    && (forall i: nat :: i in written <==> i < start && t.Writes(i))
  }

  /** Before the loop nothing is done. */
  lemma DoneAtStart(t: Tagger)
    requires t.Valid()
    ensures DoneUpTo(t, 0, t.words, [])
  {
  }

  /** Writing back the predictions of the sentence at `start` (`zip` stops
      at the shorter of the two) moves the invariant from `start` to the
      sentence's end. */
  lemma DoneStep(t: Tagger, start: nat, end: nat, preds: seq<nat>, prev: seq<Word>, next: seq<Word>,
                 written: seq<nat>, w: seq<nat>)
    requires t.Valid() && start < t.count && DoneUpTo(t, start, prev, written)
    requires end == SegmentEnd(t.words, t.count, start)
    requires preds == t.Predictions(start)
    requires |w| == Min(|preds|, end - start) && forall j :: 0 <= j < |w| ==> w[j] == start + j
    requires |next| == |prev|
    requires forall i :: 0 <= i < |next| ==>
      next[i] == if start <= i < start + Min(|preds|, end - start)
                 then SetColumn(prev[i], t.col, t.tagValue(preds[i - start]))
                 else prev[i]
    ensures DoneUpTo(t, end, next, written + w)
  {
    WordsStep(t, start, end, preds, prev, next);
    WrittenOrdered(start, end, Min(|preds|, end - start), written, w);
    WrittenStep(t, start, end, preds, written, w);
  }

  /** Inside the sentence that starts at boundary `s`, word `i` is written
      exactly when the sentence's predictions have row `i - s`, and then
      receives that row's label. */
  lemma ExpectedInSentence(t: Tagger, s: nat, i: nat)
    requires t.Valid() && s < t.count
    requires s == 0 || StartsSentence(t.words[s])
    requires s <= i < SegmentEnd(t.words, t.count, s)
    ensures var preds := t.Predictions(s);
      && (t.Writes(i) <==> i - s < |preds|)
      && t.Expected(i) == if i - s < |preds| then SetColumn(t.words[i], t.col, t.tagValue(preds[i - s])) else t.words[i]
  {
    InSegment(t.words, t.count, s, i);
  }

  /** One turn of the outer loop keeps the invariant about the words. */
  lemma WordsStep(t: Tagger, start: nat, end: nat, preds: seq<nat>, prev: seq<Word>, next: seq<Word>)
    requires t.Valid() && start < t.count
    requires start == 0 || StartsSentence(t.words[start])
    requires end == SegmentEnd(t.words, t.count, start)
    requires preds == t.Predictions(start)
    requires |prev| == |t.words| && |next| == |t.words|
    requires forall i :: start <= i < |prev| ==> prev[i] == t.words[i]
    requires forall i :: 0 <= i < start ==> prev[i] == t.Expected(i)
    requires forall i :: 0 <= i < |next| ==>
      next[i] == if start <= i < start + Min(|preds|, end - start)
                 then SetColumn(prev[i], t.col, t.tagValue(preds[i - start]))
                 else prev[i]
    ensures forall i :: end <= i < |next| ==> next[i] == t.words[i]
    ensures forall i :: 0 <= i < end ==> next[i] == t.Expected(i)
  {
    forall i | start <= i < end
      ensures next[i] == t.Expected(i)
    {
      ExpectedInSentence(t, start, i);
    }
  }

  /** One turn keeps the written indices strictly increasing and below the
      new start. */
  lemma WrittenOrdered(start: nat, end: nat, m: nat, written: seq<nat>, w: seq<nat>)
    requires start + m <= end
    requires |w| == m && forall j :: 0 <= j < |w| ==> w[j] == start + j
    requires forall j, k :: 0 <= j < k < |written| ==> written[j] < written[k]
    requires forall j :: 0 <= j < |written| ==> written[j] < start
    ensures forall j, k :: 0 <= j < k < |written + w| ==> (written + w)[j] < (written + w)[k]
    ensures forall j :: 0 <= j < |written + w| ==> (written + w)[j] < end
  {
  }

  /** ... and keeps them exactly the words written so far. */
  lemma WrittenStep(t: Tagger, start: nat, end: nat, preds: seq<nat>, written: seq<nat>, w: seq<nat>)
    requires t.Valid() && start < t.count
    requires start == 0 || StartsSentence(t.words[start])
    requires end == SegmentEnd(t.words, t.count, start)
    requires preds == t.Predictions(start)
    requires |w| == Min(|preds|, end - start) && forall j :: 0 <= j < |w| ==> w[j] == start + j
    requires forall j :: 0 <= j < |written| ==> written[j] < start
    requires forall i: nat :: i in written <==> i < start && t.Writes(i)
    ensures forall i: nat :: i in written + w <==> i < end && t.Writes(i)
  {
    forall i: nat
      ensures i in written + w <==> i < end && t.Writes(i)
    {
      if start <= i < end {
        InSegment(t.words, t.count, start, i);
        if i < start + |w| {
          assert w[i - start] == i;
        }
      }
    }
  }

  /** Once the loop reaches `count`, every word holds its expected value
      and `written` lists exactly the written words, in increasing order. */
  lemma DoneAll(t: Tagger, words: seq<Word>, written: seq<nat>)
    requires t.Valid() && DoneUpTo(t, t.count, words, written)
    ensures forall i :: 0 <= i < |words| ==> words[i] == t.Expected(i)
    ensures forall j, k :: 0 <= j < k < |written| ==> written[j] < written[k]
    ensures forall i: nat :: i in written <==> t.Writes(i)
  {
  }

  /** Word `i` before `count` lies inside the segment of its own sentence. */
  lemma SentenceCoversWord(words: seq<Word>, count: nat, i: nat)
    requires AllWellFormed(words) && i < count <= |words|
    ensures SentenceStart(words, i) < count
    ensures i < SegmentEnd(words, count, SentenceStart(words, i))
  {
  }

  /** With one row per word, exactly the words before `count` are written:
      `zip` drops no word of a visited sentence, and no word from `count`
      on is reached. */
  lemma WritesExactlyBeforeCount(t: Tagger)
    requires t.Valid() && t.RowPerWord()
    ensures forall i: nat :: i < |t.words| ==> (t.Writes(i) <==> i < t.count)
  {
    forall i: nat | i < t.count
      ensures t.Writes(i)
    {
      SentenceCoversWord(t.words, t.count, i);
      var s := SentenceStart(t.words, i);
      assert AllWellFormed(t.words[s..SegmentEnd(t.words, t.count, s)]);
    }
  }

  /** A loop bound below the number of words (as with `len(tokens)` on a
      file with a multi-word token) leaves the words from the bound on with
      the tag they were loaded with, even with one row per word. */
  lemma ShortBoundSkipsTrailingWords(t: Tagger)
    requires t.Valid() && t.RowPerWord() && t.count < |t.words|
    ensures forall i: nat :: t.count <= i < |t.words| ==> !t.Writes(i) && t.Expected(i) == t.words[i]
    ensures forall i: nat :: i < t.count ==> t.Writes(i)
  {
    WritesExactlyBeforeCount(t);
  }

  /** With the bound at the number of words, every word receives the label
      of its own row of its own sentence's predictions. */
  lemma FullBoundWritesEveryWord(t: Tagger)
    requires t.Valid() && t.RowPerWord() && t.count == |t.words|
    ensures forall i: nat :: i < |t.words| ==> t.Writes(i)
    ensures forall i :: 0 <= i < |t.words| ==>
      var s := SentenceStart(t.words, i);
      t.Expected(i) == SetColumn(t.words[i], t.col, t.tagValue(t.Predictions(s)[i - s]))
  {
    WritesExactlyBeforeCount(t);
    forall i | 0 <= i < |t.words|
      ensures var s := SentenceStart(t.words, i);
        t.Expected(i) == SetColumn(t.words[i], t.col, t.tagValue(t.Predictions(s)[i - s]))
    {
      assert t.Writes(i);
    }
  }
}
