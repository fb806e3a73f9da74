# A verified model of the tagger's discrete core

The repository is a PyTorch part-of-speech and morphology tagger in the
style of the "meta-BiLSTM" tagger. A character BiLSTM and a word BiLSTM
each produce one row per word, a meta BiLSTM combines them, and three
classifiers score the tags. Around the floating-point network there is a
small core that only moves indices and sequences. It turns a sentence into
the network's four index inputs and routes the predicted tags back into
the CoNLL-U words. This project models that core in Dafny and proves what
it promises.

- `Segmentation` (segmentation.dfy): `dev_eval`'s outer and inner `while`
  loops. They cut the flat word list into sentences, and a word whose ID
  column is `'1'` opens a new one. Segments are contiguous and non-empty
  and cover `range(0, count)` exactly once.
- `Spans` (spans.dfy): the layout shared by `dev_eval` and `tag_sentence`.
  Every token's characters are followed by one separator. For every token
  the inclusive `first`/`last` span of its characters is recorded.
- `Corpus` (corpus.dfy): the loaded file. It is a class whose list of words
  the write-back updates in place.
- `DevEval` (deveval.dfy): the list-building `for` loop as a method proved
  equal to the layout. It also covers the swapped `firsts`/`lasts` slots
  that `forward` receives, and the whole `dev_eval` loop as a method over
  the mutable file.
- `Tagging` (tagging.dfy): what the write-back leaves in every word, for a
  per-sentence predictor given as a function.
- `TagSentence` (tagsentence.dfy): Python's `str.split()` and
  `tag_sentence`'s layout loop, both as written and as intended.
- `Core` (core.dfy): the span gather `cat([lstm_out[firsts],
  lstm_out[lasts]], dim=1)` over rows of an abstract element type, and the
  residual `lstm_out += cat([x, x], dim=1)` as an in-place update of a
  2-D array.
- `Model` (model.dfy): the shape contract of `LSTMModel.forward` and its
  cores. It covers the rows and widths of every intermediate tensor, the
  widths chosen by the constructor, and which inputs make an operation
  fail.

The network's predictions, the lexicon lookups (`get_char`, `get_word`) and
the tag vocabulary (`get_value`) are function parameters. The file loader
is replaced by a constructor that takes the loaded buffer, words and token
count.

Where the code and its documentation disagree, the model follows the code:

- An index tensor in torch accepts negative indices in `[-n, n)`, counting
  from the end. The gather is modelled that way (`Core.TorchIndex`), so the
  `last == -1` of an empty first token reads the sentence's final
  separator row rather than failing.
- `dev_eval` hands `last_ids` to the `firsts` parameter and `first_ids` to
  `lasts`, so the two halves of every pooled row come out swapped
  (`DevEval.SwappedHalves`).
- `dev_eval` keeps the trailing separator in its character stream, while
  `tag_sentence` drops it with `chars[:-1]`.

## Model

| member | source | states |
|---|---|---|
| Base.PySlice | LSTMModel.py:231 | Python slicing with non-negative bounds clamps both bounds to the length and is empty when `end <= start`; in range it is the plain subsequence |
| Base.DropLast | LSTMModel.py:153 | `chars[:-1]` removes exactly the last element and leaves an empty list empty |
| Corpus.WordChars | LSTMModel.py:231 | a word's characters are `characters[span.start: span.end]`: the plain slice when the span lies inside the buffer, empty when the span is empty or starts past the buffer |
| Corpus.SetColumn | LSTMModel.py:256 | assigning `token.columns[col]` changes that column only and keeps the span and the other nine columns |
| Corpus.WorkData.WriteBack | LSTMModel.py:252-256 | `zip` pairs prediction `k` with word `start + k` for `k < min(len(preds), end - start)`; the paired words get the label of their prediction and every other word, the buffer and the token count stay unchanged; the written indices are `start, start + 1, ...` |
| Segmentation.SegmentEnd | LSTMModel.py:214-215 | a sentence's end lies strictly after its start and at most at the word count; no word strictly inside it has ID `'1'`; it stops at the count or at a word with ID `'1'` |
| Segmentation.SegmentEndUnique | LSTMModel.py:214-215 | those three properties determine the end uniquely |
| Segmentation.SegmentEndAgrees | LSTMModel.py:215 | the end depends only on the words after the start, so write-back into earlier words does not move it |
| Segmentation.FindSentenceEnd | LSTMModel.py:214-216 | the inner `while` loop returns exactly `SegmentEnd` |
| Segmentation.Segments | LSTMModel.py:212-259 | the sentences the outer loop visits, one `(start_id, end_id)` per turn; `Segmentation.SegmentsPartition` states that they partition `range(start, count)` |
| Segmentation.SegmentAt | LSTMModel.py:212-259 | segment `k` starts where segment `k - 1` ended, on a word with ID `'1'` (or at the first start), runs to its `SegmentEnd`, and the last one ends at the count |
| Segmentation.SegmentsPartition | LSTMModel.py:212-259 | the outer loop's segments are non-empty, contiguous, begin on a boundary, hold no ID `'1'` after their first word, end at the count, and their indices read in order are exactly `range(start, count)`: each index once |
| Segmentation.SegmentsIndices | LSTMModel.py:212-259 | the indices of the visited segments are `range(start, count)` |
| Segmentation.SentenceStart | LSTMModel.py:212-216 | the start of word `i`'s sentence is at or before `i`, is 0 or an ID `'1'` word, and no ID `'1'` word lies between it and `i` |
| Segmentation.InSegment | LSTMModel.py:213-216 | every word of the segment opened at a boundary `s` has `s` as its sentence start |
| Spans.OffsetIsLengthsPlusSeparators | LSTMModel.py:224-239 | the position counter at token `k` is the total length of tokens `0..k-1` plus `k` separators |
| Spans.StreamLength | LSTMModel.py:233-234 | the stream holds every character and one separator per token |
| Spans.StreamAt | LSTMModel.py:233-237 | positions `first..last` of the stream hold token `k` and position `last + 1` holds the separator |
| Spans.OffsetIncreasing | LSTMModel.py:235-239 | token `j`'s span and its separator lie before token `k`'s first index for `j < k`: firsts strictly increase, spans are disjoint |
| Spans.SpanBounds | LSTMModel.py:236-237 | `last == first + len - 1`; `0 <= first <= last < len(stream)` holds exactly when the token is non-empty; `last + 1` is always inside the stream |
| Spans.Lay | LSTMModel.py:233-239 | the building loop records one `first` and one `last` per token |
| Spans.LayStream | LSTMModel.py:233-234 | the stream the loop builds is the tokens each followed by the separator |
| Spans.LaySpans | LSTMModel.py:235-237 | the recorded `first`/`last` of token `k` are its span in that stream |
| Spans.LayAt | LSTMModel.py:224-239 | token `k` in the built layout: `first` is the earlier lengths plus `k`, `last = first + len - 1`, its characters at `first..last`, the separator at `last + 1` |
| Spans.LayNext | LSTMModel.py:236-239 | the next token starts two past this token's `last`, just after its separator |
| Spans.LayBounds | LSTMModel.py:233-239 | the stream length is total length plus token count; every `first` and every `last + 1` is inside the stream (`last >= -1`); spans come in order |
| DevEval.TokenCharIds | LSTMModel.py:228-232 | one character id per character of the word's span slice |
| DevEval.WordIds | LSTMModel.py:240-242 | one word id per token |
| DevEval.Lists | LSTMModel.py:220-242 | the word, first and last lists have one entry per token of the sentence |
| DevEval.BuildSentenceLists | LSTMModel.py:220-242 | the `for token` loop, with `char_pos` moved past each token and its separator, builds exactly the layout of the tokens' character ids with the id of `' '` as separator, plus one word id per token |
| DevEval.ListsAt | LSTMModel.py:224-239 | in those lists `first_ids[k]` is the earlier tokens' length plus `k`, `last_ids[k] = first_ids[k] + len - 1`, the token's character ids sit at `first..last` and the separator id at `last + 1` |
| DevEval.ListsLayout | LSTMModel.py:233-239 | the character ids keep the trailing separator: their length is the sum of token lengths plus the token count; every index stays inside; spans strictly increase |
| DevEval.ForwardInputs | LSTMModel.py:244-249 | the four tensors handed to `forward` in the order written, `last_ids` third and `first_ids` fourth; `DevEval.SwappedHalves` and `DevEval.SentenceForwardShape` state what `forward` makes of them |
| DevEval.SentenceForwardShape | LSTMModel.py:244-249 | with every id inside its table, `forward` accepts any sentence's lists in the swapped order and its meta scores have one row per token |
| DevEval.StreamIds | LSTMModel.py:233-234 | every entry of the character-id stream is a character id or the separator id, so it lies inside the character table |
| DevEval.SwappedHalves | LSTMModel.py:247-248 | with `last_ids` in the `firsts` slot, a non-empty token's pooled row has its last character's encoding first and its first character's second |
| DevEval.EmptyFirstTokenReadsLastRow | LSTMModel.py:235-248 | an empty first token gets `last == -1`, which the index tensor reads as the final row (the sentence's trailing separator) |
| DevEval.SentencePredictorRows | LSTMModel.py:244-253 | a network that fits the lexicon and takes the arg-max of its rows predicts one tag per word of every sentence |
| DevEval.TagOneSentence | LSTMModel.py:214-256 | one turn of the outer loop ends at `SegmentEnd` and moves the "done up to" invariant from the sentence's start to its end |
| DevEval.DevEval | LSTMModel.py:212-259 | for a lexicon inside the model's tables, afterwards every word holds `Expected(i)`: the label of its own row of its own sentence's predictions when that row exists and `i < count`, and otherwise its loaded value; the sentences visited are `Segments(words, count, 0)`; the written indices strictly increase and are exactly the written words, so no word is written twice |
| DevEval.DevEvalAsWritten | LSTMModel.py:205-259 | the loop bound is `len(work_data.tokens)`: words from that index on keep their loaded values, every word holds `Expected(i)`, and the buffer and the token count stay as loaded |
| DevEval.AsWrittenSkipsTrailingWords | LSTMModel.py:205-215 | with fewer tokens than words (a multi-word token), every word before the token count is written and none after it, even with one prediction per word |
| DevEval.DevEvalEveryWord | LSTMModel.py:212-259 | with the bound at the number of words, the run writes each written word once and leaves every word at `Expected(i)`; the buffer and the token count stay as loaded |
| DevEval.EveryWordWritten | LSTMModel.py:212-259 | with that bound and a network that fits the lexicon, every word of the file is written |
| Tagging.Tagger.Expected | LSTMModel.py:252-256 | what word `i` holds after the run: the label of its row of its own sentence's predictions when it is written, otherwise its loaded value; `DevEval.DevEval` states that every word ends so |
| Tagging.DoneAll | LSTMModel.py:212-259 | once the outer loop reaches the count, every word holds its expected value and the written indices are exactly the written words, in increasing order |
| Tagging.DoneStep | LSTMModel.py:252-259 | writing one sentence's predictions back moves the invariant (earlier words expected, later words as loaded, written indices ordered and exact) from its start to its end |
| Tagging.ExpectedInSentence | LSTMModel.py:252-256 | inside the sentence opened at boundary `s`, word `i` is written exactly when its sentence's predictions have row `i - s`, and then gets that row's label |
| Tagging.WordsStep | LSTMModel.py:252-256 | after one sentence, the words before its end are as expected and the words after it are untouched |
| Tagging.WrittenStep | LSTMModel.py:252-256 | after one sentence, the written indices are exactly the written words before its end |
| Tagging.SentenceCoversWord | LSTMModel.py:212-216 | every word before the count lies inside the segment of its own sentence |
| Tagging.WritesExactlyBeforeCount | LSTMModel.py:213-256 | with one prediction per word, a word is written if and only if its index is below the loop bound |
| Tagging.ShortBoundSkipsTrailingWords | LSTMModel.py:205-213 | a bound below the number of words leaves every word from the bound on unwritten and unchanged |
| Tagging.FullBoundWritesEveryWord | LSTMModel.py:252-256 | with the bound at the number of words every word is written, with the label of its own row |
| TagSentence.WordLen | LSTMModel.py:146 | the length of the run of non-space characters at the front of a string |
| TagSentence.Split | LSTMModel.py:146 | every word of `str.split()` is non-empty and free of white space |
| TagSentence.SplitGaps | LSTMModel.py:146 | `str.split()` cuts into maximal runs: the sentence is its words with white-space gaps around them, and consecutive words are separated by at least one white-space character |
| TagSentence.SplitInterleave | LSTMModel.py:146 | conversely, words laid out with white-space gaps, at least one character between two words, split back into exactly those words |
| TagSentence.SplitJoin | LSTMModel.py:141-146 | splitting words joined by single spaces, the documented input form, gives the words back |
| TagSentence.SplitKeepsNonSpace | LSTMModel.py:146 | splitting loses exactly the white space: the words read in order are the sentence's non-space characters |
| TagSentence.TagSentenceAsWritten | LSTMModel.py:144-153 | the loop as written: the words are the split, the characters are the words each followed by `' '` with the final one dropped, every `first` is 0 and every `last` is -1 |
| TagSentence.TagSentence | LSTMModel.py:144-153 | the loop with `i` advanced past each word and its separator: the characters, firsts and lasts are the layout of the split words with the final separator dropped |
| TagSentence.IntendedSpan | LSTMModel.py:147-152 | as intended, word `k` has `first` = earlier lengths plus `k`, `last = first + len - 1`, a span inside the characters holding the word, and a separator after every word but the last |
| TagSentence.IntendedLayout | LSTMModel.py:147-153 | as intended, there is one span per word, spans strictly increase, and the characters number the total word length plus one separator between each pair of words |
| TagSentence.AsWrittenLosesSecondWord | LSTMModel.py:150-152 | with two words or more the second word's intended `first` is past the first word and its separator, where the loop as written records 0 |
| TagSentence.AsWrittenPoolsSentenceEnds | LSTMModel.py:150-152 | with every `first` 0 and every `last` -1, the gather gives every word the same row: the encoded first character followed by the encoded last character |
| TagSentence.ExampleSplit | LSTMModel.py:141-146 | `"a bb ."` splits into `a`, `bb`, `.` |
| TagSentence.ExampleLayout | LSTMModel.py:147-152 | as intended those words sit at `0..0`, `2..3` and `5..5` |
| Core.TorchIndex | core.py:114 | a torch index into `n` rows succeeds exactly for `-n <= i < n`, and then names the row `i` modulo `n`, a row below `n` |
| Core.Gather | core.py:114 | `m[idx]` succeeds exactly when every index is in `[-rows, rows)`, has one row per index, and row `k` is `m[idx[k]]`, counted from the end for a negative index |
| Core.SpanPool | core.py:113-116 | the gather succeeds exactly when `firsts` and `lasts` have equal length and every index is in `[-rows, rows)`; it then has one row per entry of `firsts`, whatever the number of characters, and row `k` is the row at `firsts[k]` followed by the row at `lasts[k]` |
| Core.PooledRow | core.py:113-116 | pooled row `k` is `2 * w` wide; its first half is the encoded row at `firsts[k]` and its second half the one at `lasts[k]` |
| Core.SingleCharacterHalvesEqual | core.py:113-116 | when `firsts[k] == lasts[k]` both halves of row `k` are equal |
| Core.PooledIsMatrix | core.py:113-116 | the pooled rows form a `2 * w` wide matrix |
| Core.Dup | core.py:40 | `cat([x, x], dim=1)` on a row doubles it: both halves are the row |
| Core.AddResidual | core.py:111 | the in-place addition succeeds exactly when `x` broadcasts to the output's shape; it then adds `x[r] ++ x[r]` to every row `r`, and otherwise the output is unchanged |
| Core.EncodeSequence | core.py:34-37 | one output row per input row |
| Core.SequenceCarriesState | core.py:34-37 | encoding the rows as one sequence carries the state: row `k`'s output is the cell applied to row `k - 1`'s output and row `k` |
| Core.EncodeRowsAlone | core.py:34-37 | one output row per input row |
| Core.RowsAloneIgnoreNeighbours | core.py:34-37 | encoding every row as a sequence of its own gives row `k` the cell applied to the initial state and row `k`, whatever the other rows hold |
| Core.ContextExample | core.py:100-103 | with an adding cell, `[1, 0]` and `[0, 0]` get the same row 1 when each row is its own sequence, and different rows 1 when they form one sequence |
| Model.WordCoreForward | core.py:33-43 | the word core's shapes; `Model.WordCoreShape` states when it succeeds and what it returns |
| Model.CharCoreForward | core.py:90-129 | the char core's shapes; `Model.CharCoreShape` states when it succeeds and what it returns |
| Model.Forward | LSTMModel.py:92-139 | `forward`'s shapes; `Model.ForwardShape` states when it succeeds and what it returns |
| Model.WordCoreShape | core.py:13-43 | the word core succeeds exactly when the input width is `input_size` and `input_size == hidden_size`, and it returns one `hidden_size`-wide row per input row |
| Model.CharCoreShape | core.py:70-123 | the char core succeeds exactly on matching widths, equal-length `firsts`/`lasts` and in-range indices, and returns one `hidden_size`-wide row per entry of `firsts` |
| Model.ConstructorWidths | LSTMModel.py:44-75 | all three cores have `input_size == hidden_size`; the pooled width `4 * hidden_size` and the bidirectional width `2 * hidden_size` are the linear layers' `in_features`; each classifier reads its core's output width; the meta core reads both outputs side by side |
| Model.ForwardShape | LSTMModel.py:92-139 | `forward` succeeds exactly on a well-formed batch (ids in their tables, one first and last per word, indices addressing a character) and then returns three `(words, n_tags)` score tensors |
| Model.PoolMatchesSpanPool | core.py:113-116 | the value-level gather and the shape-level one agree on success, row count and width |

## Left out

- The LSTMs, linear layers, embeddings, dropout, softmax and weight initialisation are floating-point library code. Encoder output is an opaque row sequence, `forward` is modelled at the level of shapes, and the predictions are a function parameter.
- `torch.no_grad`, the optimisers and the parameter groups are autograd and library state that does not change the discrete results.
- Tensorboard logging, the debug prints and `print(token.columns)` are output only.
- `load_conllu_file`, `evaluate`, `tag_name_to_column`, the lexicon lookups and `get_value` are foreign code, so they are parameters. The loaded file is assumed to have ten columns per word and at least as many words as tokens, as multi-word tokens expand into words.
- `build_dicts` is not part of this model. The column positions `ID = 0` and `FORM = 1` are CoNLL-U's.
- `Classifier.py` is not part of this model. Each classifier is treated as a linear layer from its `input_size` to `n_tags`.
- `algorithm_1` is a stub that calls methods that do not exist. `Main.py` is a driver doing file I/O and persistence.
- The constructors as written do not line up. `LSTMModel` passes `residual=` to all three cores, and neither core accepts it. The model uses the widths the constructor chooses and ignores the extra keyword arguments.
- `tag_sentence` builds tensors from character and word strings. It then calls `self.predict` and `self.tags`, which the class does not define. Only the list-building loop is modelled, and its characters stay characters.
- The `unsqueeze(dim=1)`/`squeeze(dim=1)` round trip with `batch_first=True` hands the LSTM `N` sequences of length one, so no character or word sees its neighbours. `Core.EncodeRowsAlone` and `Core.EncodeSequence` model this with an abstract cell and a forward recurrence only. The backward direction, the layers and the hidden sizes are not modelled. With `unsqueeze(dim=0)` and `squeeze(dim=0)` in place of the `dim=1` pair, the shapes are the same, so the `Model` functions do not depend on which encoder runs.
- DevEval.DevEval: it requires a lexicon whose ids lie inside the model's embedding tables (`LexiconFits`), which makes `forward` total on every sentence. The `IndexError` that `nn.Embedding` raises at LSTMModel.py:115-116 for an id outside its table is not modelled. The same holds for `DevEval.TagOneSentence`, `DevEval.DevEvalAsWritten` and `DevEval.DevEvalEveryWord`.
- `gold_data` and the returned scores of `dev_eval` come from foreign code. The model states only the words' new state.

## Findings

| source | as written | input that shows it | evidently intended | confidence | as-written member | corrected member |
|---|---|---|---|---|---|---|
| LSTMModel.py:151 | `i + len(word)` computes a value and discards it, so `i` stays 0: every `first` is 0 and every `last` is -1, and, once the tensors are built from ids, every word pools the sentence's first and last character (as written, line 153 raises on a list of character strings and line 160 calls `self.predict`, which the class does not define) | `"a bb ."`: firsts `[0, 0, 0]`, lasts `[-1, -1, -1]` | `i += len(word)` before `lasts.append(i - 1)` and one more for the separator, so firsts `[0, 2, 5]` and lasts `[0, 3, 5]` | not executed | TagSentence.TagSentenceAsWritten, TagSentence.AsWrittenLosesSecondWord, TagSentence.AsWrittenPoolsSentenceEnds | TagSentence.TagSentence, TagSentence.IntendedSpan, TagSentence.ExampleLayout |
| core.py:34-37 | `x.unsqueeze(dim=1)` into an LSTM built with `batch_first=True` makes `N` sequences of length one, so the BiLSTM carries no state from one character (or word) to the next and sees no context; core.py:100-103 does the same for characters | an adding cell with the rows `[1, 0]` and `[0, 0]`: row 1 comes out the same for both | `x.unsqueeze(dim=0)` with `lstm_out.squeeze(dim=0)`, one sequence of `N` rows | not executed | Core.EncodeRowsAlone, Core.RowsAloneIgnoreNeighbours, Core.ContextExample | Core.EncodeSequence, Core.SequenceCarriesState |
| LSTMModel.py:205 | the loop bound is `len(work_data.tokens)` while the loop indexes `work_data.words`; with a multi-word token there are more words than tokens, and the trailing words are never tagged and keep their gold tags for the evaluation | a file with one multi-word token that expands into two words: the last word of the file is not written | the bound `len(work_data.words)` | not executed | DevEval.DevEvalAsWritten, DevEval.AsWrittenSkipsTrailingWords | DevEval.DevEvalEveryWord, DevEval.EveryWordWritten |
