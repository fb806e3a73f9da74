/** `LSTMModel.dev_eval`: cut the file into sentences, build the model's
    four inputs for each sentence, and write the predicted tag of every
    word back into its tag column. Loading, the network's predictions and
    the scorer are parameters. */
module DevEval {
  import opened Base
  import opened Spans
  import opened Corpus
  import opened Segmentation
  import opened Tagging
  import Core
  import Model

  /** The four lists built for one sentence, under the source's names. */
  datatype SentenceLists = SentenceLists(charIds: seq<nat>, wordIds: seq<nat>, firstIds: seq<int>, lastIds: seq<int>)

  /** A word's character ids, `[get_char(c) for c in characters[span]]`. */
  function TokenCharIds(characters: seq<char>, w: Word, getChar: char -> nat): (r: seq<nat>)
    ensures |r| == |WordChars(characters, w)|
  {
    var cs := WordChars(characters, w);
    seq(|cs|, j requires 0 <= j < |cs| => getChar(cs[j]))
  }

  function TokensCharIds(characters: seq<char>, tokens: seq<Word>, getChar: char -> nat): (r: seq<seq<nat>>)
    ensures |r| == |tokens|
  {
    seq(|tokens|, k requires 0 <= k < |tokens| => TokenCharIds(characters, tokens[k], getChar))
  }

  /** The lists for the tokens of one sentence: the layout of module
      `Spans` over the tokens' character ids with the id of ' ' as the
      separator (the stream, and every token's `first` and `last`), and one
      word id per token. */
  function Lists(characters: seq<char>, tokens: seq<Word>, getChar: char -> nat, getWord: string -> nat): (r: SentenceLists)
    requires AllWellFormed(tokens)
    ensures |r.wordIds| == |tokens| && |r.firstIds| == |tokens| && |r.lastIds| == |tokens|
  {
    var lay := Lay(TokensCharIds(characters, tokens, getChar), getChar(' '));
    SentenceLists(lay.stream, WordIds(tokens, getWord), lay.firsts, lay.lasts)
  }

  /** The `for token in ...` loop: extend the character ids, append the
      separator, record `first` and `last`, move `char_pos` past the
      separator, and append the word id. */
  method BuildSentenceLists(characters: seq<char>, tokens: seq<Word>, getChar: char -> nat, getWord: string -> nat)
    returns (l: SentenceLists)
    requires AllWellFormed(tokens)
    ensures l == Lists(characters, tokens, getChar, getWord)
  {
    var charIds: seq<nat> := [];
    var wordIds: seq<nat> := [];
    var firstIds: seq<int> := [];
    var lastIds: seq<int> := [];
    var charPos: nat := 0;
    for i := 0 to |tokens|
      invariant BuiltUpTo(characters, tokens, getChar, getWord, i, SentenceLists(charIds, wordIds, firstIds, lastIds))
      invariant charPos == |charIds|
    {
      var token := tokens[i];
      var tokenChars := TokenCharIds(characters, token, getChar);
      ghost var prev := SentenceLists(charIds, wordIds, firstIds, lastIds);
      TokenStep(characters, tokens, getChar, getWord, i, prev);
      charIds := charIds + tokenChars;
      charIds := charIds + [getChar(' ')];
      firstIds := firstIds + [charPos];
      charPos := charPos + |tokenChars|;
      lastIds := lastIds + [charPos - 1];
      charPos := charPos + 1;
      wordIds := wordIds + [getWord(token.columns[FORM])];
      assert SentenceLists(charIds, wordIds, firstIds, lastIds) == Append(prev, tokenChars, getChar(' '), getWord(token.columns[FORM]));
    }
    TokensDone(TokensCharIds(characters, tokens, getChar), WordIds(tokens, getWord), getChar(' '),
               SentenceLists(charIds, wordIds, firstIds, lastIds));
    l := SentenceLists(charIds, wordIds, firstIds, lastIds);
  }

  /** The loop's invariant: the four lists are those of the first `i` tokens. */
  ghost predicate BuiltUpTo(characters: seq<char>, tokens: seq<Word>, getChar: char -> nat, getWord: string -> nat,
                            i: nat, l: SentenceLists)
    requires AllWellFormed(tokens) && i <= |tokens|
  {
    LaidUpTo(TokensCharIds(characters, tokens, getChar), WordIds(tokens, getWord), getChar(' '), i, l)
  }

  /** The same over every token's character ids `toks` and word ids `wids`. */
  ghost predicate LaidUpTo(toks: seq<seq<nat>>, wids: seq<nat>, sep: nat, i: nat, l: SentenceLists)
    requires i <= |toks| && i <= |wids|
  {
    && Layout(l.charIds, l.firstIds, l.lastIds) == Lay(toks[..i], sep)
    && l.wordIds == wids[..i]
  }

  /** The lists after one more token with character ids `tc` and word id `wid`. */
  function Append(l: SentenceLists, tc: seq<nat>, sep: nat, wid: nat): SentenceLists
  {
    SentenceLists(l.charIds + tc + [sep], l.wordIds + [wid], l.firstIds + [|l.charIds|], l.lastIds + [|l.charIds| + |tc| - 1])
  }

  /** One turn of the loop, on token `i`. */
  lemma TokenStep(characters: seq<char>, tokens: seq<Word>, getChar: char -> nat, getWord: string -> nat,
                  i: nat, l: SentenceLists)
    requires AllWellFormed(tokens) && i < |tokens|
    requires BuiltUpTo(characters, tokens, getChar, getWord, i, l)
    ensures BuiltUpTo(characters, tokens, getChar, getWord, i + 1,
                      Append(l, TokenCharIds(characters, tokens[i], getChar), getChar(' '), getWord(tokens[i].columns[FORM])))
  {
    var toks := TokensCharIds(characters, tokens, getChar);
    var wids := WordIds(tokens, getWord);
    assert toks[i] == TokenCharIds(characters, tokens[i], getChar);
    assert wids[i] == getWord(tokens[i].columns[FORM]);
    LaidStep(toks, wids, getChar(' '), i, l);
  }

  /** One turn of the loop over the per-token lists. */
  lemma LaidStep(toks: seq<seq<nat>>, wids: seq<nat>, sep: nat, i: nat, l: SentenceLists)
    requires i < |toks| && i < |wids|
    requires LaidUpTo(toks, wids, sep, i, l)
    ensures LaidUpTo(toks, wids, sep, i + 1, Append(l, toks[i], sep, wids[i]))
  {
    LayStep(toks, sep, i, l.charIds, l.firstIds, l.lastIds);
    assert wids[..i + 1] == wids[..i] + [wids[i]];
  }

  /** After the last token the lists are those of the whole sentence. */
  lemma TokensDone(toks: seq<seq<nat>>, wids: seq<nat>, sep: nat, l: SentenceLists)
    requires |toks| == |wids| && LaidUpTo(toks, wids, sep, |toks|, l)
    ensures Layout(l.charIds, l.firstIds, l.lastIds) == Lay(toks, sep) && l.wordIds == wids
  {
    assert toks[..|toks|] == toks;
    assert wids[..|wids|] == wids;
  }

  /** The word ids of the tokens, `get_word(token.form)` for each. */
  function WordIds(tokens: seq<Word>, getWord: string -> nat): (r: seq<nat>)
    requires AllWellFormed(tokens)
    ensures |r| == |tokens|
  {
    seq(|tokens|, k requires 0 <= k < |tokens| => getWord(tokens[k].columns[FORM]))
  }

  /** Token `k` of a sentence: `first` is the number of characters before
      the token plus one separator per earlier token, `last = first + len - 1`,
      the token's character ids sit at `first..last` and the id of the
      separator at `last + 1`. */
  lemma ListsAt(characters: seq<char>, tokens: seq<Word>, getChar: char -> nat, getWord: string -> nat, k: nat)
    requires AllWellFormed(tokens) && k < |tokens|
    ensures var l := Lists(characters, tokens, getChar, getWord);
      var toks := TokensCharIds(characters, tokens, getChar);
      && l.firstIds[k] == SumLengths(toks[..k]) + k
      && l.lastIds[k] == l.firstIds[k] + |WordChars(characters, tokens[k])| - 1
      && 0 <= l.firstIds[k] <= l.lastIds[k] + 1 < |l.charIds|
      && l.charIds[l.firstIds[k]..l.lastIds[k] + 1] == TokenCharIds(characters, tokens[k], getChar)
      && l.charIds[l.lastIds[k] + 1] == getChar(' ')
  {
    var toks := TokensCharIds(characters, tokens, getChar);
    LayAt(toks, getChar(' '), k);
    assert |toks[k]| == |WordChars(characters, tokens[k])|;
  }

  /** The layout invariants of one sentence's lists: a stream that keeps
      its trailing separator, so that its length is the sum of the token
      lengths plus the token count, every `first` and `last + 1` inside
      it, and spans strictly increasing and disjoint. */
  lemma ListsLayout(characters: seq<char>, tokens: seq<Word>, getChar: char -> nat, getWord: string -> nat)
    requires AllWellFormed(tokens)
    ensures var l := Lists(characters, tokens, getChar, getWord);
      var toks := TokensCharIds(characters, tokens, getChar);
      && l.charIds == Stream(toks, getChar(' '))
      && |l.charIds| == SumLengths(toks) + |tokens|
      && (forall k :: 0 <= k < |tokens| ==> -1 <= l.lastIds[k] && l.lastIds[k] + 1 < |l.charIds|)
      && (forall k :: 0 <= k < |tokens| ==> 0 <= l.firstIds[k] < |l.charIds|)
      && (forall j, k :: 0 <= j < k < |tokens| ==> l.lastIds[j] + 1 < l.firstIds[k])
  {
    LayStream(TokensCharIds(characters, tokens, getChar), getChar(' '));
    LayBounds(TokensCharIds(characters, tokens, getChar), getChar(' '));
  }

  /** The tensors handed to `forward`: `last_ids` in the `firsts` slot and
      `first_ids` in the `lasts` slot. */
  function ForwardInputs(l: SentenceLists): Model.Batch
  {
    Model.Batch(l.charIds, l.wordIds, l.lastIds, l.firstIds)
  }

  /** With every character and word id inside its table, `forward` accepts
      the lists of any sentence, and its three score tensors have one row
      per token: the indices `last >= -1` and `first` all address a
      character, since every token is followed by a separator. */
  lemma SentenceForwardShape(cfg: Model.Config, characters: seq<char>, tokens: seq<Word>,
                             getChar: char -> nat, getWord: string -> nat)
    requires AllWellFormed(tokens)
    requires LexiconFits(cfg, getChar, getWord)
    ensures var b := ForwardInputs(Lists(characters, tokens, getChar, getWord));
      && Model.Forward(cfg, b).Some?
      && Model.Forward(cfg, b).value.2 == Model.Shape(|tokens|, cfg.nTags)
  {
    var l := Lists(characters, tokens, getChar, getWord);
    var b := ForwardInputs(l);
    ListsLayout(characters, tokens, getChar, getWord);
    assert forall k :: 0 <= k < |b.chars| ==> b.chars[k] < cfg.nChars by {
      forall k | 0 <= k < |b.chars| ensures b.chars[k] < cfg.nChars {
        StreamIds(TokensCharIds(characters, tokens, getChar), getChar(' '), cfg.nChars, k);
      }
    }
    assert Core.Indexable(b.firsts, |b.chars|) by {
      forall k | 0 <= k < |b.firsts| ensures Core.TorchIndex(b.firsts[k], |b.chars|).Some? {
        assert -1 <= b.firsts[k] < |b.chars|;
      }
    }
    Model.ForwardShape(cfg, b);
  }

  /** Every entry of the stream is a character id or the separator id. */
  lemma {:induction false} StreamIds(toks: seq<seq<nat>>, sep: nat, bound: nat, k: nat)
    requires sep < bound
    requires forall t, j :: 0 <= t < |toks| && 0 <= j < |toks[t]| ==> toks[t][j] < bound
    requires k < |Stream<nat>(toks, sep)|
    ensures Stream<nat>(toks, sep)[k] < bound
  {
    if toks != [] {
      var init := toks[..|toks| - 1];
      assert Stream<nat>(toks, sep) == Stream<nat>(init, sep) + toks[|toks| - 1] + [sep];
      if k < |Stream<nat>(init, sep)| {
        StreamIds(init, sep, bound, k);
      }
    }
  }

  /** Because of the swapped slots, the pooled row of a non-empty token has
      the encoded row of its LAST character as first half and that of its
      FIRST character as second half. */
  lemma SwappedHalves<T>(encoded: seq<seq<T>>, w: nat, l: SentenceLists, k: nat)
    requires Core.IsMatrix(encoded, w)
    requires |l.firstIds| == |l.lastIds| && k < |l.firstIds|
    requires Core.Indexable(l.firstIds, |encoded|) && Core.Indexable(l.lastIds, |encoded|)
    requires 0 <= l.firstIds[k] <= l.lastIds[k] < |encoded|
    ensures var b := ForwardInputs(l);
      var row := Core.SpanPool(encoded, b.firsts, b.lasts).value[k];
      && Core.SpanPool(encoded, b.firsts, b.lasts).Some?
      && row[..w] == encoded[l.lastIds[k]]
      && row[w..] == encoded[l.firstIds[k]]
  {
    var b := ForwardInputs(l);
    Core.PooledRow(encoded, w, b.firsts, b.lasts, k);
  }

  /** An empty first token gets `last == -1`, which the index tensor reads
      as the final row: the separator at the end of the sentence. */
  lemma EmptyFirstTokenReadsLastRow<T>(encoded: seq<seq<T>>, characters: seq<char>, tokens: seq<Word>,
                                       getChar: char -> nat, getWord: string -> nat)
    requires AllWellFormed(tokens) && |tokens| > 0
    requires WordChars(characters, tokens[0]) == []
    requires |encoded| == |Lists(characters, tokens, getChar, getWord).charIds|
    ensures var l := Lists(characters, tokens, getChar, getWord);
      && l.lastIds[0] == -1
      && Core.TorchIndex(l.lastIds[0], |encoded|) == Some(|encoded| - 1)
  {
    ListsAt(characters, tokens, getChar, getWord, 0);
  }

  /** The network on one sentence: its lists, built as above and handed
      to `forward` in the swapped order, turned into tag ids by the
      arg-max; `predict` stands for `forward` followed by
      `probabilities.argmax(dim=1)`. */
  function SentencePredictor(characters: seq<char>, getChar: char -> nat, getWord: string -> nat,
                             predict: Model.Batch -> seq<nat>): seq<Word> -> seq<nat>
  {
    tokens => if AllWellFormed(tokens) then predict(ForwardInputs(Lists(characters, tokens, getChar, getWord))) else []
  }

  /** The write-back of one `dev_eval` run over the first `count` words. */
  function DevEvalTagger(characters: seq<char>, words: seq<Word>, count: nat, col: nat, getChar: char -> nat,
                         getWord: string -> nat, predict: Model.Batch -> seq<nat>, tagValue: nat -> string): Tagger
  {
    Tagger(words, count, col, SentencePredictor(characters, getChar, getWord, predict), tagValue)
  }

  /** Every character id and word id the lexicon hands out is inside the
      model's embedding tables. */
  ghost predicate LexiconFits(cfg: Model.Config, getChar: char -> nat, getWord: string -> nat)
  {
    (forall c :: getChar(c) < cfg.nChars) && (forall s :: getWord(s) < cfg.nWords)
  }

  /** The whole of `dev_eval` on a loaded file, over its first `count`
      words. Returns the sentences visited and the indices written, in
      order: strictly increasing, so no word is written twice. The lexicon
      maps into the embedding tables of the model `cfg`, so that `forward`
      accepts every sentence's lists instead of raising an index error. */
  method DevEval(work: WorkData, count: nat, col: nat, getChar: char -> nat, getWord: string -> nat,
                 predict: Model.Batch -> seq<nat>, tagValue: nat -> string, ghost cfg: Model.Config)
    returns (ghost segments: seq<Segment>, ghost written: seq<nat>)
    requires work.Valid() && count <= |work.words| && col < COLUMNS
    requires LexiconFits(cfg, getChar, getWord)
    modifies work
    ensures work.Valid()
    ensures work.characters == old(work.characters) && work.tokenCount == old(work.tokenCount)
    ensures |work.words| == old(|work.words|)
    ensures var t := DevEvalTagger(old(work.characters), old(work.words), count, col, getChar, getWord, predict, tagValue);
      forall i :: 0 <= i < |work.words| ==> work.words[i] == t.Expected(i)
    ensures segments == Segments(old(work.words), count, 0)
    ensures forall j, k :: 0 <= j < k < |written| ==> written[j] < written[k]
    ensures var t := DevEvalTagger(old(work.characters), old(work.words), count, col, getChar, getWord, predict, tagValue);
      forall i: nat :: i in written <==> t.Writes(i)
  {
    ghost var t := DevEvalTagger(work.characters, work.words, count, col, getChar, getWord, predict, tagValue);
    var start := 0;
    segments := [];
    written := [];
    DoneAtStart(t);
    while start < count
      invariant work.Valid() && work.characters == old(work.characters) && work.tokenCount == old(work.tokenCount)
      invariant t.Valid() && DoneUpTo(t, start, work.words, written)
      invariant segments + Segments(t.words, count, start) == Segments(t.words, count, 0)
      decreases count - start
    {
      var end;
      ghost var w;
      end, w := TagOneSentence(work, start, count, col, getChar, getWord, predict, tagValue, cfg, t, written);
      assert Segments(t.words, count, start) == [Segment(start, end)] + Segments(t.words, count, end);
      segments := segments + [Segment(start, end)];
      written := written + w;
      start := end;
    }
    DoneAll(t, work.words, written);
  }

  /** One turn of the outer loop: find where the sentence at `start` ends,
      build its lists, predict, and write the tags back. */
  method TagOneSentence(work: WorkData, start: nat, count: nat, col: nat, getChar: char -> nat, getWord: string -> nat,
                        predict: Model.Batch -> seq<nat>, tagValue: nat -> string, ghost cfg: Model.Config,
                        ghost t: Tagger, ghost written: seq<nat>)
    returns (end: nat, ghost w: seq<nat>)
    requires LexiconFits(cfg, getChar, getWord)
    requires t == DevEvalTagger(work.characters, t.words, count, col, getChar, getWord, predict, tagValue)
    requires t.Valid() && work.Valid()
    requires start < count && DoneUpTo(t, start, work.words, written)
    modifies work
    ensures work.Valid() && work.characters == old(work.characters) && work.tokenCount == old(work.tokenCount)
    ensures end == SegmentEnd(t.words, count, start)
    ensures DoneUpTo(t, end, work.words, written + w)
  {
    end := FindSentenceEnd(work.words, count, start);
    SegmentEndAgrees(work.words, t.words, count, start);
    assert work.words[start..end] == t.words[start..end];
    var lists := BuildSentenceLists(work.characters, work.words[start..end], getChar, getWord);
    SentenceForwardShape(cfg, work.characters, work.words[start..end], getChar, getWord);
    assert Model.Forward(cfg, ForwardInputs(lists)).Some?;
    var preds := predict(ForwardInputs(lists));
    assert preds == t.Predictions(start);
    ghost var prev := work.words;
    w := work.WriteBack(start, end, col, preds, tagValue);
    DoneStep(t, start, end, preds, prev, work.words, written, w);
  }

  /** The predictions are `probabilities.argmax(dim=1)`: one tag id per
      row of the meta scores. */
  ghost predicate PredictsRows(cfg: Model.Config, predict: Model.Batch -> seq<nat>)
  {
    forall b :: Model.Forward(cfg, b).Some? ==> |predict(b)| == Model.Forward(cfg, b).value.2.rows
  }

  /** With the lexicon inside the model's tables, the network gives every
      sentence one prediction per word. */
  lemma SentencePredictorRows(cfg: Model.Config, characters: seq<char>, getChar: char -> nat, getWord: string -> nat,
                              predict: Model.Batch -> seq<nat>)
    requires LexiconFits(cfg, getChar, getWord)
    requires PredictsRows(cfg, predict)
    ensures forall tokens :: AllWellFormed(tokens) ==>
      |SentencePredictor(characters, getChar, getWord, predict)(tokens)| == |tokens|
  {
    forall tokens | AllWellFormed(tokens)
      ensures |SentencePredictor(characters, getChar, getWord, predict)(tokens)| == |tokens|
    {
      SentenceForwardShape(cfg, characters, tokens, getChar, getWord);
    }
  }

  /** `dev_eval` as written: the loop runs over `len(work_data.tokens)`
      entries of `work_data.words`. */
  method DevEvalAsWritten(work: WorkData, col: nat, getChar: char -> nat, getWord: string -> nat,
                          predict: Model.Batch -> seq<nat>, tagValue: nat -> string, ghost cfg: Model.Config)
    returns (ghost written: seq<nat>)
    requires work.Valid() && col < COLUMNS
    requires LexiconFits(cfg, getChar, getWord)
    modifies work
    ensures work.Valid() && |work.words| == old(|work.words|)
    ensures work.characters == old(work.characters) && work.tokenCount == old(work.tokenCount)
    ensures var t := DevEvalTagger(old(work.characters), old(work.words), old(work.tokenCount), col, getChar, getWord, predict, tagValue);
      forall i :: 0 <= i < |work.words| ==> work.words[i] == t.Expected(i)
    ensures forall i :: old(work.tokenCount) <= i < |work.words| ==> work.words[i] == old(work.words[i])
  {
    ghost var segments;
    segments, written := DevEval(work, work.tokenCount, col, getChar, getWord, predict, tagValue, cfg);
  }

  /** On a file with a multi-word token (fewer tokens than words), even a
      network that fits the lexicon and tags every word it is given leaves
      the words from `len(tokens)` on with their loaded tags. */
  lemma AsWrittenSkipsTrailingWords(cfg: Model.Config, characters: seq<char>, words: seq<Word>, tokenCount: nat, col: nat,
                                    getChar: char -> nat, getWord: string -> nat,
                                    predict: Model.Batch -> seq<nat>, tagValue: nat -> string)
    requires AllWellFormed(words) && tokenCount < |words| && col < COLUMNS
    requires LexiconFits(cfg, getChar, getWord)
    requires PredictsRows(cfg, predict)
    ensures var t := DevEvalTagger(characters, words, tokenCount, col, getChar, getWord, predict, tagValue);
      && (forall i: nat :: tokenCount <= i < |words| ==> !t.Writes(i) && t.Expected(i) == words[i])
      && (forall i: nat :: i < tokenCount ==> t.Writes(i))
  {
    SentencePredictorRows(cfg, characters, getChar, getWord, predict);
    ShortBoundSkipsTrailingWords(DevEvalTagger(characters, words, tokenCount, col, getChar, getWord, predict, tagValue));
  }

  /** `dev_eval` over every word of the file, as intended. */
  method DevEvalEveryWord(work: WorkData, col: nat, getChar: char -> nat, getWord: string -> nat,
                          predict: Model.Batch -> seq<nat>, tagValue: nat -> string, ghost cfg: Model.Config)
    returns (ghost written: seq<nat>)
    requires work.Valid() && col < COLUMNS
    requires LexiconFits(cfg, getChar, getWord)
    modifies work
    ensures work.Valid() && |work.words| == old(|work.words|)
    ensures work.characters == old(work.characters) && work.tokenCount == old(work.tokenCount)
    ensures var t := DevEvalTagger(old(work.characters), old(work.words), old(|work.words|), col, getChar, getWord, predict, tagValue);
      forall i :: 0 <= i < |work.words| ==> work.words[i] == t.Expected(i)
    ensures forall j, k :: 0 <= j < k < |written| ==> written[j] < written[k]
    ensures var t := DevEvalTagger(old(work.characters), old(work.words), old(|work.words|), col, getChar, getWord, predict, tagValue);
      forall i: nat :: i in written <==> t.Writes(i)
  {
    ghost var segments;
    segments, written := DevEval(work, |work.words|, col, getChar, getWord, predict, tagValue, cfg);
  }

  /** Over every word, with a network that fits the lexicon, every word of
      the file receives the label of its own row of its own sentence's
      predictions. */
  lemma EveryWordWritten(cfg: Model.Config, characters: seq<char>, words: seq<Word>, col: nat,
                         getChar: char -> nat, getWord: string -> nat,
                         predict: Model.Batch -> seq<nat>, tagValue: nat -> string)
    requires AllWellFormed(words) && col < COLUMNS
    requires LexiconFits(cfg, getChar, getWord)
    requires PredictsRows(cfg, predict)
    ensures var t := DevEvalTagger(characters, words, |words|, col, getChar, getWord, predict, tagValue);
      forall i: nat :: i < |words| ==> t.Writes(i)
  {
    SentencePredictorRows(cfg, characters, getChar, getWord, predict);
    FullBoundWritesEveryWord(DevEvalTagger(characters, words, |words|, col, getChar, getWord, predict, tagValue));
  }
}
