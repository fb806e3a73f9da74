/** The discrete part of `CharLSTMCore.forward` and `WordLSTMCore.forward`:
    the residual added in place to the encoder output and the span gather
    that turns per-character rows into per-word rows. Rows are sequences
    of an abstract element type; the encoder itself is out of scope. */
module Core {
  import opened Base

  /** Every row of `m` has `w` columns: `m` is a matrix. */
  predicate IsMatrix<T>(m: seq<seq<T>>, w: nat)
  {
    forall r :: 0 <= r < |m| ==> |m[r]| == w
  }

  /** How an integer index tensor addresses `n` rows: `-n <= i < n` is
      accepted, a negative index counting from the end; anything else is
      an index error. */
  function TorchIndex(i: int, n: nat): (r: Option<nat>)
    ensures r.Some? <==> -(n as int) <= i < n
    ensures r.Some? ==> r.value < n && r.value % n == i % n
  {
    if 0 <= i < n then Some(i) else if 0 <= n + i && i < 0 then Some(n + i) else None
  }

  predicate Indexable(idx: seq<int>, n: nat)
  {
    forall k :: 0 <= k < |idx| ==> TorchIndex(idx[k], n).Some?
  }

  /** `m[idx]` for an index tensor `idx`: the rows named by `idx`, in order. */
  function Gather<T>(m: seq<seq<T>>, idx: seq<int>): (r: Option<seq<seq<T>>>)
    ensures r.Some? <==> forall k :: 0 <= k < |idx| ==> -|m| <= idx[k] < |m|
    ensures r.Some? ==> |r.value| == |idx|
    ensures r.Some? ==> forall k :: 0 <= k < |idx| ==> r.value[k] == m[if idx[k] < 0 then |m| + idx[k] else idx[k]]
  {
    if Indexable(idx, |m|)
    then Some(seq(|idx|, k requires 0 <= k < |idx| => m[TorchIndex(idx[k], |m|).value]))
    else None
  }

  /** `torch.cat([a, b], dim=1)`: row `k` of `a` followed by row `k` of `b`;
      the row counts must agree. */
  function CatColumns<T>(a: seq<seq<T>>, b: seq<seq<T>>): Option<seq<seq<T>>>
  {
    if |a| == |b| then Some(seq(|a|, k requires 0 <= k < |a| => a[k] + b[k])) else None
  }

  /** The span gather `cat([lstm_out[firsts], lstm_out[lasts]], dim=1)`. */
  function SpanPool<T>(encoded: seq<seq<T>>, firsts: seq<int>, lasts: seq<int>): (r: Option<seq<seq<T>>>)
    ensures r.Some? <==> |firsts| == |lasts| && Indexable(firsts, |encoded|) && Indexable(lasts, |encoded|)
    ensures r.Some? ==> |r.value| == |firsts|
    ensures r.Some? ==> forall k :: 0 <= k < |firsts| ==>
      r.value[k] == encoded[TorchIndex(firsts[k], |encoded|).value] + encoded[TorchIndex(lasts[k], |encoded|).value]
  {
    match (Gather(encoded, firsts), Gather(encoded, lasts))
    case (Some(a), Some(b)) => CatColumns(a, b)
    case _ => None
  }

  /** With `w`-wide encoder rows and non-negative indices, pooled row `k`
      is `2 * w` wide, its first half is the encoded row at `firsts[k]`
      and its second half the one at `lasts[k]`; this does not depend on
      how many encoded rows (characters) there are. */
  lemma PooledRow<T>(encoded: seq<seq<T>>, w: nat, firsts: seq<int>, lasts: seq<int>, k: nat)
    requires IsMatrix(encoded, w)
    requires |firsts| == |lasts| && k < |firsts|
    requires 0 <= firsts[k] < |encoded| && 0 <= lasts[k] < |encoded|
    requires Indexable(firsts, |encoded|) && Indexable(lasts, |encoded|)
    ensures SpanPool(encoded, firsts, lasts).Some?
    ensures var row := SpanPool(encoded, firsts, lasts).value[k];
      && |row| == 2 * w
      && row[..w] == encoded[firsts[k]]
      && row[w..] == encoded[lasts[k]]
  {
    var row := SpanPool(encoded, firsts, lasts).value[k];
    assert row == encoded[firsts[k]] + encoded[lasts[k]];
  }

  /** A one-character word (`firsts[k] == lasts[k]`) reads the same encoded
      row twice, so both halves of its pooled row are equal. */
  lemma SingleCharacterHalvesEqual<T>(encoded: seq<seq<T>>, w: nat, firsts: seq<int>, lasts: seq<int>, k: nat)
    requires IsMatrix(encoded, w)
    requires SpanPool(encoded, firsts, lasts).Some?
    requires k < |firsts| && firsts[k] == lasts[k]
    ensures var row := SpanPool(encoded, firsts, lasts).value[k];
      |row| == 2 * w && row[..w] == row[w..]
  {
    var i := TorchIndex(firsts[k], |encoded|).value;
    var row := SpanPool(encoded, firsts, lasts).value[k];
    assert row == encoded[i] + encoded[i];
  }

  /** The pooled rows form a `2 * w` matrix. */
  lemma PooledIsMatrix<T>(encoded: seq<seq<T>>, w: nat, firsts: seq<int>, lasts: seq<int>)
    requires IsMatrix(encoded, w)
    requires SpanPool(encoded, firsts, lasts).Some?
    ensures IsMatrix(SpanPool(encoded, firsts, lasts).value, 2 * w)
  {
    var r := SpanPool(encoded, firsts, lasts).value;
    forall k | 0 <= k < |r|
      ensures |r[k]| == 2 * w
    {
      var i := TorchIndex(firsts[k], |encoded|).value;
      var j := TorchIndex(lasts[k], |encoded|).value;
      assert r[k] == encoded[i] + encoded[j];
    }
  }

  /** `torch.cat([x, x], dim=1)` for one row. */
  function Dup(row: seq<int>): (r: seq<int>)
    ensures |r| == 2 * |row| && r[..|row|] == row && r[|row|..] == row
  {
    row + row
  }

  /** The residual `lstm_out += torch.cat([x, x], dim=1)`, in place on the
      encoder output. The right-hand side is `|x|` by `2 * w`; it must
      broadcast to the shape of `out` (equal sizes, or a single row), or
      the addition fails and `out` is left as it was. */
  method AddResidual(out: array2<int>, x: seq<seq<int>>, w: nat) returns (ok: bool)
    requires IsMatrix(x, w)
    modifies out
    ensures ok <==> (|x| == out.Length0 || |x| == 1) && 2 * w == out.Length1
    ensures ok ==> forall r, c :: 0 <= r < out.Length0 && 0 <= c < out.Length1 ==>
      out[r, c] == old(out[r, c]) + Dup(x[if |x| == 1 then 0 else r])[c]
    ensures !ok ==> forall r, c :: 0 <= r < out.Length0 && 0 <= c < out.Length1 ==>
      out[r, c] == old(out[r, c])
  {
    ok := (|x| == out.Length0 || |x| == 1) && 2 * w == out.Length1;
    if ok {
      forall r, c | 0 <= r < out.Length0 && 0 <= c < out.Length1 {
        out[r, c] := out[r, c] + Dup(x[if |x| == 1 then 0 else r])[c];
      }
    }
  }

  /** The state a recurrent cell `step` reaches from `s0` after reading
      `xs` from left to right. */
  function Fold<S, T>(step: (S, T) -> S, s0: S, xs: seq<T>): S
  {
    if xs == [] then s0 else step(Fold(step, s0, xs[..|xs| - 1]), xs[|xs| - 1])
  }

  /** The outputs of an LSTM run over `xs` as ONE sequence: output `k` is
      the state after reading rows `0..k`. This is what a batch of one
      sequence of `|xs|` rows computes (the forward direction). */
  function EncodeSequence<S, T>(step: (S, T) -> S, s0: S, xs: seq<T>): (r: seq<S>)
    ensures |r| == |xs|
  {
    seq(|xs|, k requires 0 <= k < |xs| => Fold(step, s0, xs[..k + 1]))
  }

  /** `bilstm(x.unsqueeze(dim=1))` with `batch_first=True`: the input has
      shape `(rows, 1, width)`, a batch of `rows` sequences of length one,
      so every row is encoded on its own from the initial state. */
  function EncodeRowsAlone<S, T>(step: (S, T) -> S, s0: S, xs: seq<T>): (r: seq<S>)
    ensures |r| == |xs|
  {
    seq(|xs|, k requires 0 <= k < |xs| => EncodeSequence(step, s0, [xs[k]])[0])
  }

  /** As written, output row `k` is the cell applied once to input row `k`
      alone: two inputs that agree on row `k` give the same output row `k`,
      whatever their other rows (no character or word sees its neighbours). */
  lemma RowsAloneIgnoreNeighbours<S, T>(step: (S, T) -> S, s0: S, xs: seq<T>, ys: seq<T>, k: nat)
    requires k < |xs| && k < |ys| && xs[k] == ys[k]
    ensures EncodeRowsAlone(step, s0, xs)[k] == step(s0, xs[k])
    ensures EncodeRowsAlone(step, s0, xs)[k] == EncodeRowsAlone(step, s0, ys)[k]
  {
    RowAlone(step, s0, xs[k]);
    RowAlone(step, s0, ys[k]);
  }

  /** One row encoded on its own is the cell applied once from `s0`. */
  lemma RowAlone<S, T>(step: (S, T) -> S, s0: S, x: T)
    ensures EncodeSequence(step, s0, [x])[0] == step(s0, x)
  {
    var one := [x];
    assert one[..1] == one && one[..|one| - 1] == [];
    assert Fold(step, s0, one) == step(Fold(step, s0, []), x);
  }

  /** Run as one sequence, the state is carried from row to row: output
      row `k > 0` is the cell applied to output row `k - 1` and input row
      `k`. */
  lemma SequenceCarriesState<S, T>(step: (S, T) -> S, s0: S, xs: seq<T>, k: nat)
    requires k < |xs|
    ensures EncodeSequence(step, s0, xs)[k] ==
      step(if k == 0 then s0 else EncodeSequence(step, s0, xs)[k - 1], xs[k])
  {
    var pre := xs[..k + 1];
    assert pre[..|pre| - 1] == xs[..k] && pre[|pre| - 1] == xs[k];
    assert Fold(step, s0, pre) == step(Fold(step, s0, xs[..k]), xs[k]);
    if k == 0 {
      assert xs[..0] == [];
    }
  }

  /** With an adding cell, the inputs `[1, 0]` and `[0, 0]` agree on row 1:
      encoded row by row they give the same row 1, encoded as one sequence
      they do not. */
  lemma ContextExample()
    ensures EncodeRowsAlone((s: int, x: int) => s + x, 0, [1, 0])[1] == EncodeRowsAlone((s: int, x: int) => s + x, 0, [0, 0])[1]
    ensures EncodeSequence((s: int, x: int) => s + x, 0, [1, 0])[1] == 1
    ensures EncodeSequence((s: int, x: int) => s + x, 0, [0, 0])[1] == 0
  {
    var add := (s: int, x: int) => s + x;
    RowsAloneIgnoreNeighbours(add, 0, [1, 0], [0, 0], 1);
    SequenceCarriesState(add, 0, [1, 0], 1);
    SequenceCarriesState(add, 0, [1, 0], 0);
    SequenceCarriesState(add, 0, [0, 0], 1);
    SequenceCarriesState(add, 0, [0, 0], 0);
  }
}
