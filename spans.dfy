/** The layout shared by `dev_eval` and `tag_sentence`: every token's
    characters followed by one separator, and for every token the inclusive
    span of its own characters in that stream. */
module Spans {

  /** The stream that `extend(token)` followed by `append(separator)` builds
      for each token in turn. */
  function Stream<T>(toks: seq<seq<T>>, sep: T): seq<T>
  {
    if toks == [] then [] else Stream(toks[..|toks| - 1], sep) + toks[|toks| - 1] + [sep]
  }

  /** Appending one more token to the stream appends its characters and a
      separator. */
  lemma StreamSnoc<T>(toks: seq<seq<T>>, sep: T, i: nat)
    requires i < |toks|
    ensures Stream(toks[..i + 1], sep) == Stream(toks[..i], sep) + toks[i] + [sep]
  {
    assert toks[..i + 1][..i] == toks[..i];
  }

  /** The value of the position counter when token `k` is reached: it grows
      by each token's length and then by one for the separator. */
  function Offset<T>(toks: seq<seq<T>>, k: nat): nat
    requires k <= |toks|
  {
    if k == 0 then 0 else Offset(toks, k - 1) + |toks[k - 1]| + 1
  }

  /** The total number of characters of the tokens, separators excluded. */
  function SumLengths<T>(toks: seq<seq<T>>): nat
  {
    if toks == [] then 0 else SumLengths(toks[..|toks| - 1]) + |toks[|toks| - 1]|
  }

  /** Inclusive first and last index of token `k`; an empty token gets
      `last == first - 1`. */
  function First<T>(toks: seq<seq<T>>, k: nat): nat
    requires k < |toks|
  {
    Offset(toks, k)
  }

  function Last<T>(toks: seq<seq<T>>, k: nat): int
    requires k < |toks|
  {
    Offset(toks, k) + |toks[k]| - 1
  }

  /** Token `k` starts after the characters of tokens `0..k-1` and `k` separators. */
  lemma {:induction false} OffsetIsLengthsPlusSeparators<T>(toks: seq<seq<T>>, k: nat)
    requires k <= |toks|
    ensures Offset(toks, k) == SumLengths(toks[..k]) + k
  {
    if k > 0 {
      OffsetIsLengthsPlusSeparators(toks, k - 1);
      assert toks[..k][..k - 1] == toks[..k - 1];
    }
  }

  /** Offsets only look at the tokens before `k`. */
  lemma {:induction false} OffsetPrefix<T>(toks: seq<seq<T>>, m: nat, k: nat)
    requires k <= m <= |toks|
    ensures Offset(toks[..m], k) == Offset(toks, k)
  {
    if k > 0 {
      OffsetPrefix(toks, m, k - 1);
    }
  }

  /** The stream holds every character and one separator per token. */
  lemma {:induction false} StreamLength<T>(toks: seq<seq<T>>, sep: T)
    ensures |Stream(toks, sep)| == Offset(toks, |toks|)
    ensures |Stream(toks, sep)| == SumLengths(toks) + |toks|
  {
    if toks != [] {
      var init := toks[..|toks| - 1];
      StreamLength(init, sep);
      OffsetPrefix(toks, |toks| - 1, |toks| - 1);
    }
    OffsetIsLengthsPlusSeparators(toks, |toks|);
    assert toks[..|toks|] == toks;
  }

  /** The stream of the first `m` tokens is a prefix of the whole stream. */
  lemma {:induction false} StreamPrefix<T>(toks: seq<seq<T>>, sep: T, m: nat)
    requires m <= |toks|
    ensures Stream(toks[..m], sep) <= Stream(toks, sep)
    decreases |toks| - m
  {
    if m < |toks| {
      StreamPrefix(toks, sep, m + 1);
      assert toks[..m + 1][..m] == toks[..m];
    } else {
      assert toks[..m] == toks;
    }
  }

  /** Positions `First..Last` of the stream hold token `k` and position
      `Last + 1` holds the separator. */
  lemma StreamAt<T>(toks: seq<seq<T>>, sep: T, k: nat)
    requires k < |toks|
    ensures Offset(toks, k) + |toks[k]| < |Stream(toks, sep)|
    ensures Stream(toks, sep)[Offset(toks, k)..Offset(toks, k) + |toks[k]|] == toks[k]
    ensures Stream(toks, sep)[Offset(toks, k) + |toks[k]|] == sep
  {
    var pre := toks[..k + 1];
    StreamPrefix(toks, sep, k + 1);
    StreamLength(toks[..k], sep);
    OffsetPrefix(toks, k, k);
    assert pre[..|pre| - 1] == toks[..k];
    assert Stream(pre, sep) == Stream(toks[..k], sep) + toks[k] + [sep];
  }

  /** Spans are strictly increasing and do not overlap: token `j` ends, and
      its separator sits, before token `k` starts. */
  lemma {:induction false} OffsetIncreasing<T>(toks: seq<seq<T>>, j: nat, k: nat)
    requires j < k <= |toks|
    ensures Offset(toks, j) + |toks[j]| + 1 <= Offset(toks, k)
    decreases k - j
  {
    if j + 1 < k {
      OffsetIncreasing(toks, j, k - 1);
    }
  }

  /** `0 <= first <= last < |stream|` holds exactly when the token is not
      empty; the separator after it is always inside the stream. */
  lemma SpanBounds<T>(toks: seq<seq<T>>, sep: T, k: nat)
    requires k < |toks|
    ensures 0 <= First(toks, k) < |Stream(toks, sep)|
    ensures Last(toks, k) + 1 < |Stream(toks, sep)|
    ensures Last(toks, k) == First(toks, k) + |toks[k]| - 1
    ensures (0 <= First(toks, k) <= Last(toks, k) < |Stream(toks, sep)|) <==> |toks[k]| > 0
  {
    StreamAt(toks, sep, k);
  }

  /** What the building loop has after some tokens: the stream and one
      `first` and one `last` per token. */
  datatype Layout<T> = Layout(stream: seq<T>, firsts: seq<int>, lasts: seq<int>)

  /** The building loop, one token at a time: the token goes onto the
      stream followed by the separator; its `first` is the stream's length
      before it and its `last` that plus its length minus one. */
  function Lay<T>(toks: seq<seq<T>>, sep: T): (r: Layout<T>)
    ensures |r.firsts| == |toks| && |r.lasts| == |toks|
  {
    if toks == [] then Layout([], [], [])
    else
      var l := Lay(toks[..|toks| - 1], sep);
      var t := toks[|toks| - 1];
      var pos := |l.stream|;
      Layout(l.stream + t + [sep], l.firsts + [pos], l.lasts + [pos + |t| - 1])
  }

  /** One more turn of the loop on the next token. */
  lemma LayStep<T>(toks: seq<seq<T>>, sep: T, i: nat, stream: seq<T>, firsts: seq<int>, lasts: seq<int>)
    requires i < |toks| && Layout(stream, firsts, lasts) == Lay(toks[..i], sep)
    ensures Layout(stream + toks[i] + [sep], firsts + [|stream|], lasts + [|stream| + |toks[i]| - 1])
         == Lay(toks[..i + 1], sep)
  {
    assert toks[..i + 1][..i] == toks[..i];
  }

  /** The loop builds exactly `Stream`. */
  lemma {:induction false} LayStream<T>(toks: seq<seq<T>>, sep: T)
    ensures Lay(toks, sep).stream == Stream(toks, sep)
  {
    if toks != [] {
      LayStream(toks[..|toks| - 1], sep);
    }
  }

  /** The loop records, for every token, the span `First..Last`. */
  lemma {:induction false} LaySpans<T>(toks: seq<seq<T>>, sep: T)
    ensures forall k :: 0 <= k < |toks| ==> Lay(toks, sep).firsts[k] == First(toks, k)
    ensures forall k :: 0 <= k < |toks| ==> Lay(toks, sep).lasts[k] == Last(toks, k)
  {
    if toks != [] {
      var n := |toks| - 1;
      LaySpans(toks[..n], sep);
      LayStream(toks[..n], sep);
      StreamLength(toks[..n], sep);
      forall k | 0 <= k <= n
        ensures Offset(toks[..n], k) == Offset(toks, k)
      {
        OffsetPrefix(toks, n, k);
      }
    }
  }

  /** Token `k` in the built layout: `first` counts the characters of the
      earlier tokens and one separator for each, `last == first + len - 1`,
      the stream holds the token at `first..last` and the separator at
      `last + 1`. */
  lemma LayAt<T>(toks: seq<seq<T>>, sep: T, k: nat)
    requires k < |toks|
    ensures var l := Lay(toks, sep);
      && l.firsts[k] == SumLengths(toks[..k]) + k
      && l.lasts[k] == l.firsts[k] + |toks[k]| - 1
      && 0 <= l.firsts[k] <= l.lasts[k] + 1 < |l.stream|
      && l.stream[l.firsts[k]..l.lasts[k] + 1] == toks[k]
      && l.stream[l.lasts[k] + 1] == sep
  {
    LayStream(toks, sep);
    LaySpans(toks, sep);
    OffsetIsLengthsPlusSeparators(toks, k);
    StreamAt(toks, sep, k);
  }

  /** Consecutive tokens: the next token starts just past this token's
      separator. */
  lemma LayNext<T>(toks: seq<seq<T>>, sep: T, k: nat)
    requires k + 1 < |toks|
    ensures Lay(toks, sep).firsts[k + 1] == Lay(toks, sep).lasts[k] + 2
  {
    LaySpans(toks, sep);
  }

  /** The built layout as a whole: its length is the total of the token
      lengths plus one separator per token, every `first` and `last + 1`
      lies inside the stream (`last` is `-1` at least), and the spans come
      in order, each token's separator before the next token's `first`. */
  lemma LayBounds<T>(toks: seq<seq<T>>, sep: T)
    ensures var l := Lay(toks, sep);
      && |l.stream| == SumLengths(toks) + |toks|
      && (forall k :: 0 <= k < |toks| ==> 0 <= l.firsts[k] < |l.stream|)
      && (forall k :: 0 <= k < |toks| ==> -1 <= l.lasts[k] && l.lasts[k] + 1 < |l.stream|)
      && (forall j, k :: 0 <= j < k < |toks| ==> l.lasts[j] + 1 < l.firsts[k])
  {
    var l := Lay(toks, sep);
    LayStream(toks, sep);
    LaySpans(toks, sep);
    StreamLength(toks, sep);
    forall k | 0 <= k < |toks|
      ensures 0 <= l.firsts[k] < |l.stream|
      ensures -1 <= l.lasts[k] && l.lasts[k] + 1 < |l.stream|
    {
      StreamAt(toks, sep, k);
    }
    forall j, k | 0 <= j < k < |toks|
      ensures l.lasts[j] + 1 < l.firsts[k]
    {
      OffsetIncreasing(toks, j, k);
    }
  }
}
