/** The parsed CoNLL-U file that `dev_eval` reads and writes: a flat
    character buffer and a list of syntactic words, each with its ten
    columns and a span into the buffer. */
module Corpus {
  import opened Base

  /** Column positions, in CoNLL-U order; the ID column counts the words
      of a sentence from "1". */
  const ID: nat := 0
  const FORM: nat := 1
  const COLUMNS: nat := 10

  /** Start and end (exclusive) of a word's characters in the buffer. */
  datatype CharSpan = CharSpan(start: nat, end: nat)

  datatype Word = Word(columns: seq<string>, span: CharSpan)

  /** The loader gives every word exactly ten columns. */
  predicate WellFormed(w: Word)
  {
    |w.columns| == COLUMNS
  }

  predicate AllWellFormed(words: seq<Word>)
  {
    forall i :: 0 <= i < |words| ==> WellFormed(words[i])
  }

  /** A word whose ID column is '1' opens a new sentence. */
  predicate StartsSentence(w: Word)
    requires WellFormed(w)
  {
    w.columns[ID] == "1"
  }

  /** `token.columns[col] = value`: one column replaced, the rest kept. */
  function SetColumn(w: Word, col: nat, value: string): (r: Word)
    requires WellFormed(w) && col < COLUMNS
    ensures WellFormed(r) && r.span == w.span
    ensures r.columns[col] == value
    ensures forall c :: 0 <= c < COLUMNS && c != col ==> r.columns[c] == w.columns[c]
  {
    w.(columns := w.columns[col := value])
  }

  /** The characters of a word, `characters[span.start: span.end]`. */
  function WordChars(characters: seq<char>, w: Word): (r: seq<char>)
    ensures w.span.start <= w.span.end <= |characters| ==> r == characters[w.span.start..w.span.end]
    ensures w.span.end <= w.span.start || |characters| <= w.span.start ==> r == []
  {
    PySlice(characters, w.span.start, w.span.end)
  }

  /** The loaded file: the character buffer, the syntactic words and the
      number of surface tokens (which `dev_eval` uses as its word count). */
  class WorkData {
    var characters: seq<char>
    var words: seq<Word>
    var tokenCount: nat

    /** A multi-word token expands into two or more words, so there are at
        least as many words as tokens. */
    ghost predicate Valid()
      reads this
    {
      tokenCount <= |words| && AllWellFormed(words)
    }

    constructor (characters: seq<char>, words: seq<Word>, tokenCount: nat)
      requires tokenCount <= |words| && AllWellFormed(words)
      ensures Valid()
      ensures this.characters == characters && this.words == words && this.tokenCount == tokenCount
    {
      this.characters := characters;
      this.words := words;
      this.tokenCount := tokenCount;
    }

    /** The write-back of one sentence: `zip` pairs prediction `k` with word
        `start + k` and stops at the shorter of the two, and each paired
        word's tag column receives the label of its prediction. Returns the
        indices written, in order. */
    method WriteBack(start: nat, end: nat, col: nat, preds: seq<nat>, tagValue: nat -> string)
      returns (ghost written: seq<nat>)
      requires Valid() && start <= end <= |words| && col < COLUMNS
      modifies this
      ensures Valid()
      ensures characters == old(characters) && tokenCount == old(tokenCount)
      ensures |words| == old(|words|)
      ensures |written| == Min(|preds|, end - start)
      ensures forall j :: 0 <= j < |written| ==> written[j] == start + j
      ensures forall i :: 0 <= i < |words| ==>
        words[i] == if start <= i < start + Min(|preds|, end - start)
                    then SetColumn(old(words[i]), col, tagValue(preds[i - start]))
                    else old(words[i])
    {
      var k := 0;
      written := [];
      while k < |preds| && k < end - start
        invariant 0 <= k <= Min(|preds|, end - start)
        invariant Valid() && |words| == old(|words|)
        invariant characters == old(characters) && tokenCount == old(tokenCount)
        invariant |written| == k && forall j :: 0 <= j < k ==> written[j] == start + j
        invariant forall i :: 0 <= i < |words| ==>
          words[i] == if start <= i < start + k
                      then SetColumn(old(words[i]), col, tagValue(preds[i - start]))
                      else old(words[i])
      {
        words := words[start + k := SetColumn(words[start + k], col, tagValue(preds[k]))];
        written := written + [start + k];
        k := k + 1;
      }
    }
  }

  function Min(a: nat, b: nat): nat
  {
    if a <= b then a else b
  }
}
