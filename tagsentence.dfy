/** `LSTMModel.tag_sentence`: split a raw sentence on white space and lay
    its words out as a character stream with a `first` and a `last` index
    per word. The tensors it then builds and the prediction it asks for
    are not part of this model. */
module TagSentence {
  import opened Base
  import opened Spans
  import Core

  /** Python's `str.isspace` on one character: the characters `str.split()`
      with no argument separates on. */
  predicate IsSpace(c: char)
  {
    || ('\U{9}' <= c <= '\U{D}') || ('\U{1C}' <= c <= '\U{20}')
    || c == '\U{85}' || c == '\U{A0}' || c == '\U{1680}'
    || ('\U{2000}' <= c <= '\U{200A}') || c == '\U{2028}' || c == '\U{2029}'
    || c == '\U{202F}' || c == '\U{205F}' || c == '\U{3000}'
  }

  /** A word of a split sentence: non-empty and free of white space. */
  predicate IsWord(w: string)
  {
    w != [] && forall j :: 0 <= j < |w| ==> !IsSpace(w[j])
  }

  /** The length of the run of non-space characters at the front of `s`. */
  function WordLen(s: string): (n: nat)
    ensures n <= |s|
    ensures forall j :: 0 <= j < n ==> !IsSpace(s[j])
    ensures n < |s| ==> IsSpace(s[n])
  {
    if s == [] || IsSpace(s[0]) then 0 else 1 + WordLen(s[1..])
  }

  /** `s.split()`: the maximal runs of non-space characters, in order;
      leading, trailing and repeated white space yields no empty word. */
  function Split(s: string): (r: seq<string>)
    ensures forall k :: 0 <= k < |r| ==> IsWord(r[k])
    decreases |s|
  {
    if s == [] then []
    else if IsSpace(s[0]) then Split(s[1..])
    else
      var n := WordLen(s);
      [s[..n]] + Split(s[n..])
  }

  /** A run of white space, possibly empty. */
  predicate AllSpace(g: string)
  {
    forall j :: 0 <= j < |g| ==> IsSpace(g[j])
  }

  /** Words laid out between gaps: `gaps[0] + ws[0] + gaps[1] + … + ws[n - 1] + gaps[n]`. */
  function Interleave(gaps: seq<string>, ws: seq<string>): string
    requires |gaps| == |ws| + 1
  {
    if ws == [] then gaps[0] else gaps[0] + ws[0] + Interleave(gaps[1..], ws[1..])
  }

  /** Every gap is white space, and there is at least one white-space
      character between two consecutive words. */
  predicate Separated(gaps: seq<string>, ws: seq<string>)
    requires |gaps| == |ws| + 1
  {
    && (forall k :: 0 <= k < |gaps| ==> AllSpace(gaps[k]))
    && (forall k :: 0 < k < |ws| ==> gaps[k] != [])
  }

  /** The white space `str.split()` drops: before the first word, between
      consecutive words, and after the last. */
  function Gaps(s: string): (r: seq<string>)
    ensures |r| == |Split(s)| + 1
    decreases |s|
  {
    if s == [] then [[]]
    else if IsSpace(s[0]) then
      var g := Gaps(s[1..]);
      [[s[0]] + g[0]] + g[1..]
    else
      [[]] + Gaps(s[WordLen(s)..])
  }

  /** `' '.join(ws)`. */
  function Join(ws: seq<string>): string
  {
    if ws == [] then [] else if |ws| == 1 then ws[0] else ws[0] + [' '] + Join(ws[1..])
  }

  /** The words read back one after the other, `''.join(ws)`. */
  function Concat(ws: seq<string>): string
  {
    if ws == [] then [] else ws[0] + Concat(ws[1..])
  }

  /** The characters of `s` that are not white space, in order. */
  function NonSpace(s: string): string
  {
    if s == [] then [] else (if IsSpace(s[0]) then [] else [s[0]]) + NonSpace(s[1..])
  }

  /** A run of non-space characters ended by white space or by the end of
      the string is measured exactly by `WordLen`. */
  lemma {:induction false} WordLenPrefix(w: string, rest: string)
    requires forall j :: 0 <= j < |w| ==> !IsSpace(w[j])
    requires rest == [] || IsSpace(rest[0])
    ensures WordLen(w + rest) == |w|
    decreases |w|
  {
    if w != [] {
      assert (w + rest)[1..] == w[1..] + rest;
      WordLenPrefix(w[1..], rest);
    } else {
      assert w + rest == rest;
    }
  }

  /** Splitting words joined by single spaces gives the words back. */
  lemma {:induction false} SplitJoin(ws: seq<string>)
    requires forall k :: 0 <= k < |ws| ==> IsWord(ws[k])
    ensures Split(Join(ws)) == ws
  {
    if ws != [] {
      var w := ws[0];
      if |ws| == 1 {
        WordLenPrefix(w, []);
        assert w + [] == w;
        assert w[|w|..] == [];
      } else {
        var rest := [' '] + Join(ws[1..]);
        var s := w + rest;
        assert Join(ws) == s;
        WordLenPrefix(w, rest);
        assert s[..|w|] == w;
        assert s[|w|..] == rest;
        assert rest[1..] == Join(ws[1..]);
        SplitJoin(ws[1..]);
        assert Split(s) == [w] + Split(rest);
      }
    }
  }

  lemma InterleaveFront(c: string, g: seq<string>, ws: seq<string>)
    requires |g| == |ws| + 1
    ensures Interleave([c + g[0]] + g[1..], ws) == c + Interleave(g, ws)
  {
    var h := [c + g[0]] + g[1..];
    assert h[1..] == g[1..];
    if ws != [] {
      assert Interleave(h, ws) == (c + g[0]) + ws[0] + Interleave(g[1..], ws[1..]);
    }
  }

  /** `str.split()` cuts `s` into maximal runs: `s` is its words with
      white-space gaps around them, and consecutive words are separated
      by at least one white-space character, so no word could be longer. */
  lemma {:induction false} SplitGaps(s: string)
    ensures s == Interleave(Gaps(s), Split(s))
    ensures Separated(Gaps(s), Split(s))
    decreases |s|
  {
    if s != [] {
      if IsSpace(s[0]) {
        SplitGaps(s[1..]);
        SpaceGaps(s);
      } else {
        SplitGaps(s[WordLen(s)..]);
        WordGaps(s);
      }
    }
  }

  /** `SplitGaps` for a sentence that starts with white space, from
      `SplitGaps` for the rest: the space joins the first gap. */
  lemma SpaceGaps(s: string)
    requires s != [] && IsSpace(s[0])
    requires s[1..] == Interleave(Gaps(s[1..]), Split(s[1..]))
    requires Separated(Gaps(s[1..]), Split(s[1..]))
    ensures s == Interleave(Gaps(s), Split(s))
    ensures Separated(Gaps(s), Split(s))
  {
    var g := Gaps(s[1..]);
    var ws := Split(s[1..]);
    assert Gaps(s) == [[s[0]] + g[0]] + g[1..];
    assert Split(s) == ws;
    InterleaveFront([s[0]], g, ws);
    SeparatedFront([s[0]], g, ws);
    assert s == [s[0]] + s[1..];
  }

  /** `SplitGaps` for a sentence that starts with a word, from `SplitGaps`
      for what follows the word: an empty first gap, and the next gap
      starts with the white space that ended the word. */
  lemma WordGaps(s: string)
    requires s != [] && !IsSpace(s[0])
    requires var t := s[WordLen(s)..]; t == Interleave(Gaps(t), Split(t)) && Separated(Gaps(t), Split(t))
    ensures s == Interleave(Gaps(s), Split(s))
    ensures Separated(Gaps(s), Split(s))
  {
    var n := WordLen(s);
    WordFront(s);
    GapAfterWord(s);
    InterleaveWord(s[..n], Gaps(s[n..]), Split(s[n..]));
    SeparatedWord(s[..n], Gaps(s[n..]), Split(s[n..]));
  }

  lemma WordFront(s: string)
    requires s != [] && !IsSpace(s[0])
    ensures var n := WordLen(s);
      && Gaps(s) == [[]] + Gaps(s[n..])
      && Split(s) == [s[..n]] + Split(s[n..])
      && s == s[..n] + s[n..]
  {
  }

  /** A word ends where white space begins, so a gap that follows a word
      and precedes another is not empty. */
  lemma GapAfterWord(s: string)
    requires s != [] && !IsSpace(s[0])
    ensures var t := s[WordLen(s)..]; Split(t) != [] ==> Gaps(t)[0] != []
  {
    var t := s[WordLen(s)..];
    if Split(t) != [] {
      assert t[0] == s[WordLen(s)];
    }
  }

  lemma SeparatedFront(c: string, g: seq<string>, ws: seq<string>)
    requires |g| == |ws| + 1 && AllSpace(c) && Separated(g, ws)
    ensures Separated([c + g[0]] + g[1..], ws)
  {
    var h := [c + g[0]] + g[1..];
    forall k | 0 < k < |h|
      ensures h[k] == g[k]
    {
    }
  }

  lemma InterleaveWord(w: string, g: seq<string>, ws: seq<string>)
    requires |g| == |ws| + 1
    ensures Interleave([[]] + g, [w] + ws) == w + Interleave(g, ws)
  {
    var h := [[]] + g;
    var vs := [w] + ws;
    assert h[1..] == g && vs[1..] == ws;
  }

  lemma SeparatedWord(w: string, g: seq<string>, ws: seq<string>)
    requires |g| == |ws| + 1 && Separated(g, ws) && (ws != [] ==> g[0] != [])
    ensures Separated([[]] + g, [w] + ws)
  {
    var h := [[]] + g;
    forall k | 0 < k < |h|
      ensures h[k] == g[k - 1]
    {
    }
  }

  lemma {:induction false} SplitSpaceFront(g: string, t: string)
    requires AllSpace(g)
    ensures Split(g + t) == Split(t)
    decreases |g|
  {
    if g == [] {
      assert g + t == t;
    } else {
      assert (g + t)[1..] == g[1..] + t;
      SplitSpaceFront(g[1..], t);
    }
  }

  lemma SplitWordFront(w: string, t: string)
    requires IsWord(w) && (t == [] || IsSpace(t[0]))
    ensures Split(w + t) == [w] + Split(t)
  {
    WordLenPrefix(w, t);
    var s := w + t;
    assert s[..|w|] == w;
    assert s[|w|..] == t;
  }

  lemma InterleaveStart(g: seq<string>, ws: seq<string>)
    requires |g| == |ws| + 1 && AllSpace(g[0]) && (ws != [] ==> g[0] != [])
    ensures var s := Interleave(g, ws); s == [] || IsSpace(s[0])
  {
    if g[0] != [] {
      assert Interleave(g, ws)[0] == g[0][0];
    }
  }

  /** Conversely, words laid out with white-space gaps, at least one
      character between two words, split back into exactly those words:
      `Split` is the only cut of `s` into maximal runs. */
  lemma {:induction false} SplitInterleave(gaps: seq<string>, ws: seq<string>)
    requires |gaps| == |ws| + 1 && Separated(gaps, ws)
    requires forall k :: 0 <= k < |ws| ==> IsWord(ws[k])
    ensures Split(Interleave(gaps, ws)) == ws
    decreases |ws|
  {
    if ws == [] {
      SplitSpaceFront(gaps[0], []);
      assert gaps[0] + [] == gaps[0];
    } else {
      var g := gaps[1..];
      var rest := Interleave(g, ws[1..]);
      forall k | 0 <= k < |g|
        ensures AllSpace(g[k]) && (0 < k < |ws| - 1 ==> g[k] != [])
      {
        assert g[k] == gaps[k + 1];
      }
      SplitInterleave(g, ws[1..]);
      InterleaveStart(g, ws[1..]);
      SplitWordFront(ws[0], rest);
      SplitSpaceFront(gaps[0], ws[0] + rest);
      assert Interleave(gaps, ws) == gaps[0] + (ws[0] + rest);
      assert ws == [ws[0]] + ws[1..];
    }
  }

  lemma {:induction false} NonSpaceAppend(a: string, b: string)
    ensures NonSpace(a + b) == NonSpace(a) + NonSpace(b)
    decreases |a|
  {
    if a == [] {
      assert a + b == b;
    } else {
      assert (a + b)[1..] == a[1..] + b;
      NonSpaceAppend(a[1..], b);
    }
  }

  lemma {:induction false} NonSpaceOfRun(w: string)
    requires forall j :: 0 <= j < |w| ==> !IsSpace(w[j])
    ensures NonSpace(w) == w
    decreases |w|
  {
    if w != [] {
      NonSpaceOfRun(w[1..]);
      assert w == [w[0]] + w[1..];
    }
  }

  /** Splitting loses exactly the white space: the words, read one after
      the other, are the sentence's non-space characters. */
  lemma {:induction false} SplitKeepsNonSpace(s: string)
    ensures Concat(Split(s)) == NonSpace(s)
    decreases |s|
  {
    if s != [] {
      if IsSpace(s[0]) {
        SplitKeepsNonSpace(s[1..]);
      } else {
        var n := WordLen(s);
        var rest := Split(s[n..]);
        SplitKeepsNonSpace(s[n..]);
        assert ([s[..n]] + rest)[1..] == rest;
        assert Concat(Split(s)) == s[..n] + Concat(rest);
        assert s == s[..n] + s[n..];
        NonSpaceAppend(s[..n], s[n..]);
        NonSpaceOfRun(s[..n]);
      }
    }
  }

  /** The four lists `tag_sentence` builds before turning them into
      tensors: the characters (with the final separator dropped by
      `chars[:-1]`), the words, and the `first` and `last` of every word.
      The characters are kept as characters, as the source keeps them. */
  datatype SentenceInputs = SentenceInputs(chars: seq<char>, words: seq<string>, firsts: seq<int>, lasts: seq<int>)

  /** The loop as written: `i` starts at 0 and `i + len(word)` is computed
      and dropped, so `i` never changes; every `first` is 0 and every
      `last` is `i - 1 == -1`. */
  method TagSentenceAsWritten(sentence: string) returns (r: SentenceInputs)
    ensures r.words == Split(sentence)
    ensures r.chars == DropLast(Stream(r.words, ' '))
    ensures |r.firsts| == |r.words| && |r.lasts| == |r.words|
    ensures forall k :: 0 <= k < |r.firsts| ==> r.firsts[k] == 0
    ensures forall k :: 0 <= k < |r.lasts| ==> r.lasts[k] == -1
  {
    var ws := Split(sentence);
    var chars: seq<char> := [];
    var words: seq<string> := [];
    var firsts: seq<int> := [];
    var lasts: seq<int> := [];
    var i := 0;
    for k := 0 to |ws|
      invariant chars == Stream(ws[..k], ' ') && words == ws[..k]
      invariant |firsts| == k && |lasts| == k
      invariant forall j :: 0 <= j < k ==> firsts[j] == 0 && lasts[j] == -1
    {
      var word := ws[k];
      StreamSnoc(ws, ' ', k);
      chars := chars + word;
      chars := chars + [' '];
      words := words + [word];
      firsts := firsts + [i];
      lasts := lasts + [i - 1];
    }
    assert ws[..|ws|] == ws;
    r := SentenceInputs(DropLast(chars), words, firsts, lasts);
  }

  /** The loop as intended: `i` moves past the word for its `last`, and
      then past the separator, so the lists are the layout of module
      `Spans` over the words with ' ' as the separator, the final
      separator dropped. */
  method TagSentence(sentence: string) returns (r: SentenceInputs)
    ensures r.words == Split(sentence)
    ensures r.chars == DropLast(Lay(r.words, ' ').stream)
    ensures r.firsts == Lay(r.words, ' ').firsts && r.lasts == Lay(r.words, ' ').lasts
  {
    var ws := Split(sentence);
    var chars: seq<char> := [];
    var words: seq<string> := [];
    var firsts: seq<int> := [];
    var lasts: seq<int> := [];
    var i := 0;
    for k := 0 to |ws|
      invariant Layout(chars, firsts, lasts) == Lay(ws[..k], ' ') && words == ws[..k]
      invariant i == |chars|
    {
      var word := ws[k];
      LayStep(ws, ' ', k, chars, firsts, lasts);
      chars := chars + word;
      chars := chars + [' '];
      words := words + [word];
      firsts := firsts + [i];
      i := i + |word|;
      lasts := lasts + [i - 1];
      i := i + 1;
    }
    assert ws[..|ws|] == ws;
    r := SentenceInputs(DropLast(chars), words, firsts, lasts);
  }

  /** Word `k` of a split sentence, laid out as intended: `first` counts
      the characters and separators before it, `last = first + len - 1`,
      the span lies inside the stream without its final separator and
      holds the word (words of a split are never empty), and a separator
      follows every word but the last. */
  lemma IntendedSpan(ws: seq<string>, k: nat)
    requires forall j :: 0 <= j < |ws| ==> IsWord(ws[j])
    requires k < |ws|
    ensures var l := Lay(ws, ' ');
      var chars := DropLast(l.stream);
      && l.firsts[k] == SumLengths(ws[..k]) + k
      && l.lasts[k] == l.firsts[k] + |ws[k]| - 1
      && 0 <= l.firsts[k] <= l.lasts[k] < |chars|
      && chars[l.firsts[k]..l.lasts[k] + 1] == ws[k]
      && (k + 1 < |ws| ==> l.lasts[k] + 1 < |chars| && chars[l.lasts[k] + 1] == ' ')
  {
    var l := Lay(ws, ' ');
    LayAt(ws, ' ', k);
    assert |ws[k]| > 0;
    if k + 1 < |ws| {
      LayNext(ws, ' ', k);
      LayAt(ws, ' ', k + 1);
    }
    DropLastSlice(l.stream, l.firsts[k], l.lasts[k] + 1);
  }

  /** Dropping the last element keeps every slice that stops before it. */
  lemma DropLastSlice<T>(s: seq<T>, a: nat, b: nat)
    requires a <= b < |s|
    ensures b <= |DropLast(s)| && DropLast(s)[a..b] == s[a..b]
  {
  }

  /** The intended layout as a whole: one `first` and one `last` per
      word, spans in order and disjoint, and a stream of every character
      plus one separator between each pair of words. */
  lemma IntendedLayout(sentence: string)
    ensures var ws := Split(sentence);
      var l := Lay(ws, ' ');
      var chars := DropLast(l.stream);
      && |l.firsts| == |ws| && |l.lasts| == |ws|
      && |chars| == (if ws == [] then 0 else SumLengths(ws) + |ws| - 1)
      && (forall j, k :: 0 <= j < k < |ws| ==> l.lasts[j] + 1 < l.firsts[k])
  {
    LayBounds(Split(sentence), ' ');
  }

  /** The source's discrepancy: with two words or more, the second word's
      intended `first` is past the first word and its separator, where the
      loop as written records 0. */
  lemma AsWrittenLosesSecondWord(sentence: string)
    requires |Split(sentence)| >= 2
    ensures Lay(Split(sentence), ' ').firsts[1] == |Split(sentence)[0]| + 1
    ensures Lay(Split(sentence), ' ').firsts[1] > 0
  {
    var ws := Split(sentence);
    LayAt(ws, ' ', 1);
    assert ws[..1] == [ws[0]];
    assert ws[..1][..0] == [];
  }

  /** With every `first` 0 and every `last` -1 (the lists as written), the
      span gather gives every word the same row: the encoded first
      character followed by the encoded last character of the sentence. */
  lemma AsWrittenPoolsSentenceEnds<T>(encoded: seq<seq<T>>, firsts: seq<int>, lasts: seq<int>)
    requires |encoded| > 0 && |firsts| == |lasts|
    requires forall k :: 0 <= k < |firsts| ==> firsts[k] == 0
    requires forall k :: 0 <= k < |lasts| ==> lasts[k] == -1
    ensures Core.SpanPool(encoded, firsts, lasts).Some?
    ensures forall k :: 0 <= k < |firsts| ==>
      Core.SpanPool(encoded, firsts, lasts).value[k] == encoded[0] + encoded[|encoded| - 1]
  {
    assert Core.Indexable(firsts, |encoded|) && Core.Indexable(lasts, |encoded|) by {
      forall k | 0 <= k < |firsts|
        ensures Core.TorchIndex(firsts[k], |encoded|) == Some(0)
        ensures Core.TorchIndex(lasts[k], |encoded|) == Some(|encoded| - 1)
      {
      }
    }
  }

  /** The sentence "a bb ." splits into its three words ... */
  lemma ExampleSplit()
    ensures Split("a bb .") == ["a", "bb", "."]
  {
    var ws: seq<string> := ["a", "bb", "."];
    assert IsWord(ws[0]) && IsWord(ws[1]) && IsWord(ws[2]);
    assert ws[1..][1..] == ["."];
    assert Join(ws[1..]) == "bb" + [' '] + ".";
    assert Join(ws) == "a" + [' '] + ("bb" + [' '] + ".");
    assert "a" + [' '] + ("bb" + [' '] + ".") == "a bb .";
    SplitJoin(ws);
  }

  /** ... which, as intended, sit at 0..0, 2..3 and 5..5, where the loop as
      written records 0..-1 for each. */
  lemma ExampleLayout()
    ensures Lay(["a", "bb", "."], ' ').firsts == [0, 2, 5]
    ensures Lay(["a", "bb", "."], ' ').lasts == [0, 3, 5]
  {
    var ws: seq<string> := ["a", "bb", "."];
    assert ws[..1][..0] == [] && ws[..1][0] == "a";
    assert Lay(ws[..1], ' ') == Layout("a" + [' '], [0], [0]);
    assert ws[..2][..1] == ws[..1] && ws[..2][1] == "bb";
    assert Lay(ws[..2], ' ') == Layout("a" + [' '] + "bb" + [' '], [0, 2], [0, 3]);
    assert ws[..3][..2] == ws[..2] && ws[..3] == ws;
  }
}
