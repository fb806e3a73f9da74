/** The shape contract of `LSTMModel.forward` and of the cores it calls:
    how many rows and columns every intermediate tensor has, which widths
    the constructors choose, and which inputs make an operation fail. The
    numbers inside the tensors are out of scope. */
module Model {
  import opened Base
  import Core

  /** The four inputs of `forward`: character ids, word ids, and the index
      tensors passed as `firsts` and `lasts` to the character core. */
  datatype Batch = Batch(chars: seq<nat>, words: seq<nat>, firsts: seq<int>, lasts: seq<int>)

  datatype Shape = Shape(rows: nat, cols: nat)

  /** Constructor arguments of a `WordLSTMCore` or `CharLSTMCore`. */
  datatype CoreParams = CoreParams(inputSize: nat, layers: nat, hiddenSize: nat)

  /** `output_size()`: both kinds of core project to `hidden_size` columns. */
  function OutputSize(c: CoreParams): nat
  {
    c.hiddenSize
  }

  /** `in_features` of the word core's linear layer: one bidirectional row. */
  function WordLinearIn(c: CoreParams): nat
  {
    c.hiddenSize * 2
  }

  /** `in_features` of the character core's linear layer: two pooled rows. */
  function CharLinearIn(c: CoreParams): nat
  {
    c.hiddenSize * 4
  }

  /** Vocabulary sizes, tag-set size and embedding width of an `LSTMModel`. */
  datatype Config = Config(nChars: nat, nWords: nat, nTags: nat, embeddingDim: nat)

  function CharCoreParams(cfg: Config): CoreParams
  {
    CoreParams(cfg.embeddingDim, 3, cfg.embeddingDim)
  }

  function WordCoreParams(cfg: Config): CoreParams
  {
    CoreParams(cfg.embeddingDim, 3, cfg.embeddingDim)
  }

  function MetaCoreParams(cfg: Config): CoreParams
  {
    CoreParams(cfg.embeddingDim * 2, 1, cfg.embeddingDim * 2)
  }

  /** `input_size` of the char, word and meta classifiers. */
  function CharClassifierIn(cfg: Config): nat
  {
    cfg.embeddingDim
  }

  function WordClassifierIn(cfg: Config): nat
  {
    cfg.embeddingDim
  }

  function MetaClassifierIn(cfg: Config): nat
  {
    cfg.embeddingDim * 2
  }

  /** An embedding lookup: one `dim`-wide row per id; an id outside the
      table is an index error. */
  function Embed(ids: seq<nat>, n: nat, dim: nat): Option<Shape>
  {
    if forall k :: 0 <= k < |ids| ==> ids[k] < n then Some(Shape(|ids|, dim)) else None
  }

  /** The bidirectional LSTM on `x.unsqueeze(dim=1)`, squeezed back: the
      row count is kept and the two directions double `hidden_size`; the
      input width must be `input_size`. */
  function BiLstm(c: CoreParams, x: Shape): Option<Shape>
  {
    if x.cols == c.inputSize then Some(Shape(x.rows, c.hiddenSize * 2)) else None
  }

  /** `out += torch.cat([x, x], dim=1)`: the right-hand side must broadcast
      to `out`, whose shape is kept. */
  function AddDup(out: Shape, x: Shape): Option<Shape>
  {
    if (x.rows == out.rows || x.rows == 1) && x.cols * 2 == out.cols then Some(out) else None
  }

  function Linear(x: Shape, inFeatures: nat, outFeatures: nat): Option<Shape>
  {
    if x.cols == inFeatures then Some(Shape(x.rows, outFeatures)) else None
  }

  /** `torch.cat([a, b], dim=1)`. */
  function Cat(a: Shape, b: Shape): Option<Shape>
  {
    if a.rows == b.rows then Some(Shape(a.rows, a.cols + b.cols)) else None
  }

  /** The span gather on an encoded tensor of shape `enc`. */
  function Pool(enc: Shape, firsts: seq<int>, lasts: seq<int>): Option<Shape>
  {
    if |firsts| == |lasts| && Core.Indexable(firsts, enc.rows) && Core.Indexable(lasts, enc.rows)
    then Some(Shape(|firsts|, enc.cols * 2))
    else None
  }

  /** `WordLSTMCore.forward`. */
  function WordCoreForward(c: CoreParams, x: Shape): Option<Shape>
  {
    var out :- BiLstm(c, x);
    var res :- AddDup(out, x);
    Linear(res, WordLinearIn(c), OutputSize(c))
  }

  /** `CharLSTMCore.forward`. */
  function CharCoreForward(c: CoreParams, x: Shape, firsts: seq<int>, lasts: seq<int>): Option<Shape>
  {
    var out :- BiLstm(c, x);
    var res :- AddDup(out, x);
    var pooled :- Pool(res, firsts, lasts);
    Linear(pooled, CharLinearIn(c), OutputSize(c))
  }

  /** `LSTMModel.forward`: the char, word and meta score tensors. Dropout
      keeps shapes, and the gradient cut around the concatenation does not
      change it. */
  function Forward(cfg: Config, b: Batch): Option<(Shape, Shape, Shape)>
  {
    var charEmb :- Embed(b.chars, cfg.nChars, cfg.embeddingDim);
    var wordEmb :- Embed(b.words, cfg.nWords, cfg.embeddingDim);
    var charOut :- CharCoreForward(CharCoreParams(cfg), charEmb, b.firsts, b.lasts);
    var wordOut :- WordCoreForward(WordCoreParams(cfg), wordEmb);
    var catted :- Cat(charOut, wordOut);
    var metaOut :- WordCoreForward(MetaCoreParams(cfg), catted);
    var charScores :- Linear(charOut, CharClassifierIn(cfg), cfg.nTags);
    var wordScores :- Linear(wordOut, WordClassifierIn(cfg), cfg.nTags);
    var metaScores :- Linear(metaOut, MetaClassifierIn(cfg), cfg.nTags);
    Some((charScores, wordScores, metaScores))
  }

  /** The residual needs the encoder width `2 * hidden_size` to equal
      `2 * input_size`; a word core then returns one `hidden_size`-wide row
      per input row, with no pooling. */
  lemma WordCoreShape(c: CoreParams, x: Shape)
    ensures WordCoreForward(c, x).Some? <==> x.cols == c.inputSize && c.inputSize == c.hiddenSize
    ensures WordCoreForward(c, x).Some? ==> WordCoreForward(c, x).value == Shape(x.rows, OutputSize(c))
  {
  }

  /** A character core returns exactly one row per entry of `firsts`,
      however many characters it reads; it fails on a width mismatch, on
      `firsts` and `lasts` of different lengths, and on an index outside
      `[-rows, rows)`. */
  lemma CharCoreShape(c: CoreParams, x: Shape, firsts: seq<int>, lasts: seq<int>)
    ensures CharCoreForward(c, x, firsts, lasts).Some? <==>
      && x.cols == c.inputSize && c.inputSize == c.hiddenSize
      && |firsts| == |lasts|
      && Core.Indexable(firsts, x.rows) && Core.Indexable(lasts, x.rows)
    ensures CharCoreForward(c, x, firsts, lasts).Some? ==>
      CharCoreForward(c, x, firsts, lasts).value == Shape(|firsts|, OutputSize(c))
  {
  }

  /** The widths chosen by the model's constructor line up: every core's
      residual applies (`input_size == hidden_size`), the pooled width
      `4 * hidden_size` and the bidirectional width `2 * hidden_size` are
      the linear layers' `in_features`, and each classifier reads its
      core's output width; the meta core reads the char and word outputs
      side by side. */
  lemma ConstructorWidths(cfg: Config)
    ensures var ch, wo, me := CharCoreParams(cfg), WordCoreParams(cfg), MetaCoreParams(cfg);
      && ch.inputSize == ch.hiddenSize && wo.inputSize == wo.hiddenSize && me.inputSize == me.hiddenSize
      && CharLinearIn(ch) == 2 * (2 * ch.hiddenSize)
      && WordLinearIn(wo) == 2 * wo.hiddenSize && WordLinearIn(me) == 2 * me.hiddenSize
      && OutputSize(ch) == CharClassifierIn(cfg) && OutputSize(wo) == WordClassifierIn(cfg)
      && OutputSize(me) == MetaClassifierIn(cfg)
      && me.inputSize == OutputSize(ch) + OutputSize(wo)
  {
  }

  /** What `forward` demands of its input: every id inside its table, one
      `first` and one `last` per word, each addressing a character. */
  predicate BatchOk(cfg: Config, b: Batch)
  {
    && (forall k :: 0 <= k < |b.chars| ==> b.chars[k] < cfg.nChars)
    && (forall k :: 0 <= k < |b.words| ==> b.words[k] < cfg.nWords)
    && |b.firsts| == |b.words| && |b.lasts| == |b.words|
    && Core.Indexable(b.firsts, |b.chars|) && Core.Indexable(b.lasts, |b.chars|)
  }

  /** `forward` succeeds exactly on a well-formed batch, and then returns
      three score tensors of shape `(words, n_tags)`, whatever the number
      of characters. */
  lemma ForwardShape(cfg: Config, b: Batch)
    ensures Forward(cfg, b).Some? <==> BatchOk(cfg, b)
    ensures Forward(cfg, b).Some? ==>
      var s := Shape(|b.words|, cfg.nTags);
      Forward(cfg, b).value == (s, s, s)
  {
    var e := cfg.embeddingDim;
    var charEmb := Shape(|b.chars|, e);
    var wordEmb := Shape(|b.words|, e);
    CharCoreShape(CharCoreParams(cfg), charEmb, b.firsts, b.lasts);
    WordCoreShape(WordCoreParams(cfg), wordEmb);
    WordCoreShape(MetaCoreParams(cfg), Shape(|b.words|, 2 * e));
  }

  /** The value-level span gather and its shape agree: on `w`-wide rows it
      succeeds exactly when `Pool` does, with the rows and width `Pool`
      predicts. */
  lemma PoolMatchesSpanPool<T>(encoded: seq<seq<T>>, w: nat, firsts: seq<int>, lasts: seq<int>)
    requires Core.IsMatrix(encoded, w)
    ensures Core.SpanPool(encoded, firsts, lasts).Some? <==> Pool(Shape(|encoded|, w), firsts, lasts).Some?
    ensures Core.SpanPool(encoded, firsts, lasts).Some? ==>
      && |Core.SpanPool(encoded, firsts, lasts).value| == Pool(Shape(|encoded|, w), firsts, lasts).value.rows
      && Core.IsMatrix(Core.SpanPool(encoded, firsts, lasts).value, Pool(Shape(|encoded|, w), firsts, lasts).value.cols)
  {
    if Core.SpanPool(encoded, firsts, lasts).Some? {
      Core.PooledIsMatrix(encoded, w, firsts, lasts);
    }
  }
}
