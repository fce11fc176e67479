/**
  The block FIR filters of DSP.cpp. They carry history between calls and reuse their buffers;
  what they send must be the plain convolution of everything they were ever given.

  The arithmetic is left abstract and obeys no law: both sides perform the same additions and
  multiplications in the same order, so the statements hold for rounded floats as well.
*/
module Fir {
  import opened Arith
  import opened Seqs

  /** How taps act on samples and how the products are summed. */
  datatype Arithmetic<!C, !T> = Arithmetic(zero: T, add: (T, T) -> T, scale: (C, T) -> T)

  /** The first k products of the taps with the samples from index `from` on, summed from the left. */
  function Sum<C, T>(A: Arithmetic<C, T>, taps: seq<C>, s: seq<T>, from: nat, k: nat): T
    requires k <= |taps| && from + k <= |s|
  {
    if k == 0 then A.zero
    else A.add(Sum(A, taps, s, from, k - 1), A.scale(taps[k - 1], s[from + k - 1]))
  }

  lemma {:induction false} SumSame<C, T>(A: Arithmetic<C, T>, taps: seq<C>, s: seq<T>, i: nat, u: seq<T>, j: nat,
                                         k: nat)
    requires k <= |taps| && i + k <= |s| && j + k <= |u|
    requires s[i..i + k] == u[j..j + k]
    ensures Sum(A, taps, s, i, k) == Sum(A, taps, u, j, k)
  {
    if k > 0 {
      assert s[i..i + k - 1] == s[i..i + k][..k - 1];
      assert u[j..j + k - 1] == u[j..j + k][..k - 1];
      assert s[i + k - 1] == s[i..i + k][k - 1] == u[j..j + k][k - 1];
      SumSame(A, taps, s, i, u, j, k - 1);
    }
  }

  /** A sum looks at its window only: what follows index n of the samples does not matter. */
  lemma SumOfPrefix<C, T>(A: Arithmetic<C, T>, taps: seq<C>, s: seq<T>, n: nat, from: nat)
    requires from + |taps| <= n <= |s|
    ensures Sum(A, taps, s, from, |taps|) == Sum(A, taps, s[..n], from, |taps|)
  {
    assert s[from..from + |taps|] == s[..n][from..from + |taps|];
    SumSame(A, taps, s, from, s[..n], from, |taps|);
  }

  /** The taps applied at the first n places of s. */
  function FirstSums<C, T>(A: Arithmetic<C, T>, taps: seq<C>, s: seq<T>, n: nat): (r: seq<T>)
    requires n == 0 || n - 1 + |taps| <= |s|
    ensures |r| == n
    ensures forall i :: 0 <= i < n ==> r[i] == Sum(A, taps, s, i, |taps|)
  {
    if n == 0 then [] else FirstSums(A, taps, s, n - 1) + [Sum(A, taps, s, n - 1, |taps|)]
  }

  /** The taps applied at every place of s where they fit. */
  function Sliding<C, T>(A: Arithmetic<C, T>, taps: seq<C>, s: seq<T>): (r: seq<T>)
    requires |taps| > 0
    ensures |r| == if |s| < |taps| then 0 else |s| - |taps| + 1
    ensures forall i :: 0 <= i < |r| ==> r[i] == Sum(A, taps, s, i, |taps|)
  {
    FirstSums(A, taps, s, if |s| < |taps| then 0 else |s| - |taps| + 1)
  }

  lemma SlidingSplit<C, T>(A: Arithmetic<C, T>, taps: seq<C>, s: seq<T>, m: nat)
    requires |taps| > 0 && m + |taps| - 1 <= |s|
    ensures Sliding(A, taps, s) == Sliding(A, taps, s[..m + |taps| - 1]) + Sliding(A, taps, s[m..])
  {
    var nt := |taps|;
    var a, b := s[..m + nt - 1], s[m..];
    forall i | 0 <= i < m
      ensures Sliding(A, taps, s)[i] == Sliding(A, taps, a)[i]
    {
      assert s[i..i + nt] == a[i..i + nt];
      SumSame(A, taps, s, i, a, i, nt);
    }
    forall i | m <= i < |s| - nt + 1
      ensures Sliding(A, taps, s)[i] == Sliding(A, taps, b)[i - m]
    {
      assert s[i..i + nt] == b[i - m..i - m + nt];
      SumSame(A, taps, s, i, b, i - m, nt);
    }
  }

  /** A long block: first the windows that begin in the history, then those within the block. */
  lemma BlockSlides<C, T>(A: Arithmetic<C, T>, taps: seq<C>, h: seq<T>, block: seq<T>)
    requires 0 < |taps| <= |block| && |h| == |taps| - 1
    ensures Sliding(A, taps, h + block) == Sliding(A, taps, h + block[..|taps| - 1]) + Sliding(A, taps, block)
  {
    assert (h + block)[..2 * |taps| - 2] == h + block[..|taps| - 1] && (h + block)[|taps| - 1..] == block;
    SlidingSplit(A, taps, h + block, |taps| - 1);
  }

  function Zeros<C, T>(A: Arithmetic<C, T>, n: nat): (z: seq<T>)
    ensures |z| == n && forall i :: 0 <= i < n ==> z[i] == A.zero
  {
    seq(n, _ => A.zero)
  }

  /** The convolution of a whole stream that was silent before it began. */
  function Convolved<C, T>(A: Arithmetic<C, T>, taps: seq<C>, stream: seq<T>): seq<T>
    requires |taps| > 0
  {
    Sliding(A, taps, Zeros(A, |taps| - 1) + stream)
  }

  /** Output n by the textbook: tap k meets the sample |taps|-1-k steps back, silence before the start. */
  function TapSum<C, T>(A: Arithmetic<C, T>, taps: seq<C>, stream: seq<T>, n: nat, k: nat): T
    requires k <= |taps| && n < |stream|
  {
    if k == 0 then A.zero
    else
      var at := n - (|taps| - k);
      A.add(TapSum(A, taps, stream, n, k - 1), A.scale(taps[k - 1], if at < 0 then A.zero else stream[at]))
  }

  lemma {:induction false} SumIsTapSum<C, T>(A: Arithmetic<C, T>, taps: seq<C>, stream: seq<T>, n: nat, k: nat)
    requires 0 < |taps| && k <= |taps| && n < |stream|
    ensures Sum(A, taps, Zeros(A, |taps| - 1) + stream, n, k) == TapSum(A, taps, stream, n, k)
  {
    if k > 0 {
      SumIsTapSum(A, taps, stream, n, k - 1);
    }
  }

  lemma ConvolvedAt<C, T>(A: Arithmetic<C, T>, taps: seq<C>, stream: seq<T>, n: nat)
    requires 0 < |taps| && n < |stream|
    ensures |Convolved(A, taps, stream)| == |stream|
    ensures Convolved(A, taps, stream)[n] == TapSum(A, taps, stream, n, |taps|)
  {
    SumIsTapSum(A, taps, stream, n, |taps|);
  }

  function Last<T>(s: seq<T>, n: nat): seq<T>
    requires n <= |s|
  {
    s[|s| - n..]
  }

  /** A block continues the convolution from the last |taps|-1 samples before it. */
  lemma ConvolvedAppend<C, T>(A: Arithmetic<C, T>, taps: seq<C>, stream: seq<T>, block: seq<T>)
    requires |taps| > 0
    ensures var h := Last(Zeros(A, |taps| - 1) + stream, |taps| - 1);
      Convolved(A, taps, stream + block) == Convolved(A, taps, stream) + Sliding(A, taps, h + block)
  {
    var z := Zeros(A, |taps| - 1);
    var whole := z + (stream + block);
    assert whole[..|stream| + |taps| - 1] == z + stream;
    assert whole[|stream|..] == Last(z + stream, |taps| - 1) + block;
    SlidingSplit(A, taps, whole, |stream|);
  }

  lemma LastAppend<T>(s: seq<T>, d: seq<T>, n: nat)
    requires n <= |s|
    ensures Last(Last(s, n) + d, n) == Last(s + d, n)
    ensures n <= |d| ==> Last(s + d, n) == Last(d, n)
  {
  }

  /** The window after j samples of a short block, and the next one. */
  lemma ShortWindow<T>(w: seq<T>, data: seq<T>, j: nat)
    requires 0 < |w| && j < |data|
    ensures Last(w + data[..j], |w|)[1..] + [data[j]] == Last(w + data[..j + 1], |w|)
    ensures Last(w + data[..j + 1], |w|) == (w[1..] + data)[j..j + |w|]
  {
  }

  lemma ShortStep<C, T>(A: Arithmetic<C, T>, taps: seq<C>, w: seq<T>, data: seq<T>, j: nat)
    requires 0 < |taps| == |w| && j < |data|
    ensures Last(w + data[..j], |w|)[1..] + [data[j]] == Last(w + data[..j + 1], |w|)
    ensures var all := Sliding(A, taps, w[1..] + data);
      all[..j] + [Sum(A, taps, Last(w + data[..j + 1], |w|), 0, |w|)] == all[..j + 1]
  {
    ShortWindow(w, data, j);
    var line, next := w[1..] + data, Last(w + data[..j + 1], |w|);
    assert next[0..|w|] == line[j..j + |w|];
    SumSame(A, taps, next, 0, line, j, |w|);
  }

  /** With silence in front, one sample more or less of it does not show in the history. */
  lemma HistoryOfStream<C, T>(A: Arithmetic<C, T>, n: nat, stream: seq<T>)
    requires n > 0
    ensures Last(Zeros(A, n) + stream, n)[1..] == Last(Zeros(A, n) + stream, n - 1)
    ensures Last(Zeros(A, n) + stream, n - 1) == Last(Zeros(A, n - 1) + stream, n - 1)
  {
    assert (Zeros(A, n) + stream)[1..] == Zeros(A, n - 1) + stream;
  }

  lemma FreshIsLong<C, T>(A: Arithmetic<C, T>, taps: seq<C>)
    requires |taps| > 0
    ensures Zeros(A, |taps|)[..|taps| - 1] == Last(Zeros(A, |taps|) + [], |taps| - 1)
  {
  }

  /** What a long block sends and leaves behind, when the buffer held the history of the stream. */
  lemma LongContinues<C, T>(A: Arithmetic<C, T>, taps: seq<C>, stream: seq<T>, block: seq<T>, h: seq<T>)
    requires 0 < |taps| <= |block|
    ensures Last(block, |taps| - 1) == Last(Zeros(A, |taps|) + (stream + block), |taps| - 1)
    ensures h == Last(Zeros(A, |taps|) + stream, |taps| - 1)
        ==> Convolved(A, taps, stream + block) == Convolved(A, taps, stream) + Sliding(A, taps, h + block)
  {
    assert Zeros(A, |taps|) + (stream + block) == (Zeros(A, |taps|) + stream) + block;
    LastAppend(Zeros(A, |taps|) + stream, block, |taps| - 1);
    HistoryOfStream(A, |taps|, stream);
    ConvolvedAppend(A, taps, stream, block);
  }

  /** The same for a short block, whose window holds one sample more. */
  lemma ShortContinues<C, T>(A: Arithmetic<C, T>, taps: seq<C>, stream: seq<T>, block: seq<T>, w: seq<T>)
    requires 0 < |taps| == |w|
    requires w == Last(Zeros(A, |taps|) + stream, |taps|)
    ensures Last(w + block, |taps|) == Last(Zeros(A, |taps|) + (stream + block), |taps|)
    ensures Convolved(A, taps, stream + block) == Convolved(A, taps, stream) + Sliding(A, taps, w[1..] + block)
  {
    assert Zeros(A, |taps|) + (stream + block) == (Zeros(A, |taps|) + stream) + block;
    LastAppend(Zeros(A, |taps|) + stream, block, |taps|);
    HistoryOfStream(A, |taps|, stream);
    ConvolvedAppend(A, taps, stream, block);
  }

  // ---------- what a filter does with a list of blocks ----------

  /** What is sent for a block when the first |taps| samples of the buffer are w. */
  function Answer<C, T>(A: Arithmetic<C, T>, taps: seq<C>, w: seq<T>, block: seq<T>): (r: seq<T>)
    requires 0 < |taps| == |w|
    ensures |r| == |block|
  {
    Sliding(A, taps, (if |block| < |taps| then w[1..] else w[..|taps| - 1]) + block)
  }

  /** What a block leaves there: a long one its last |taps|-1 samples and, behind them, its first one. */
  function NextWindow<T>(w: seq<T>, block: seq<T>): (r: seq<T>)
    requires |w| > 0
    ensures |r| == |w|
  {
    if |block| < |w| then Last(w + block, |w|)
    else Last(block, |w| - 1) + [if |w| == 1 then w[0] else block[0]]
  }

  function Window<C, T>(A: Arithmetic<C, T>, taps: seq<C>, blocks: seq<seq<T>>): (w: seq<T>)
    requires |taps| > 0
    ensures |w| == |taps|
  {
    if blocks == [] then Zeros(A, |taps|)
    else NextWindow(Window(A, taps, blocks[..|blocks| - 1]), blocks[|blocks| - 1])
  }

  function Output<C, T>(A: Arithmetic<C, T>, taps: seq<C>, blocks: seq<seq<T>>): seq<T>
    requires |taps| > 0
  {
    if blocks == [] then []
    else
      var before := blocks[..|blocks| - 1];
      Output(A, taps, before) + Answer(A, taps, Window(A, taps, before), blocks[|blocks| - 1])
  }

  function Lengths<T>(blocks: seq<seq<T>>): (r: seq<nat>)
    ensures |r| == |blocks| && forall i :: 0 <= i < |r| ==> r[i] == |blocks[i]|
  {
    if blocks == [] then [] else Lengths(blocks[..|blocks| - 1]) + [|blocks[|blocks| - 1]|]
  }

  lemma OneMore<C, T>(A: Arithmetic<C, T>, taps: seq<C>, before: seq<seq<T>>, block: seq<T>)
    requires |taps| > 0
    ensures var blocks := before + [block];
      && Window(A, taps, blocks) == NextWindow(Window(A, taps, before), block)
      && Output(A, taps, blocks) == Output(A, taps, before) + Answer(A, taps, Window(A, taps, before), block)
      && Flat(blocks) == Flat(before) + block
      && Lengths(blocks) == Lengths(before) + [|block|]
  {
    assert (before + [block])[..|before|] == before;
  }

  lemma {:induction false} OutputLength<C, T>(A: Arithmetic<C, T>, taps: seq<C>, blocks: seq<seq<T>>)
    requires |taps| > 0
    ensures |Output(A, taps, blocks)| == |Flat(blocks)|
  {
    if blocks != [] {
      OutputLength(A, taps, blocks[..|blocks| - 1]);
    }
  }

  // ---------- when that is the convolution ----------

  /** Which kinds of blocks came, by their lengths: none, long ones, short ones, or both. Empty ones are no kind. */
  datatype Kind = Fresh | Long | Short | Mixed

  function NextKind(k: Kind, nt: nat, len: nat): Kind {
    if len == 0 then k
    else if len >= nt then (if k.Fresh? || k.Long? then Long else Mixed)
    else if k.Fresh? || k.Short? then Short else Mixed
  }

  function KindOf(nt: nat, lens: seq<nat>): Kind {
    if lens == [] then Fresh else NextKind(KindOf(nt, lens[..|lens| - 1]), nt, lens[|lens| - 1])
  }

  predicate AllLong(nt: nat, lens: seq<nat>) {
    forall i :: 0 <= i < |lens| ==> lens[i] == 0 || lens[i] >= nt
  }

  predicate AllShort(nt: nat, lens: seq<nat>) {
    forall i :: 0 <= i < |lens| ==> lens[i] == 0 || lens[i] < nt
  }

  lemma {:induction false} KindMeans(nt: nat, lens: seq<nat>)
    ensures KindOf(nt, lens).Fresh? <==> AllLong(nt, lens) && AllShort(nt, lens)
    ensures KindOf(nt, lens).Long? <==> AllLong(nt, lens) && !AllShort(nt, lens)
    ensures KindOf(nt, lens).Short? <==> AllShort(nt, lens) && !AllLong(nt, lens)
  {
    if lens != [] {
      var n := |lens| - 1;
      KindMeans(nt, lens[..n]);
      assert lens == lens[..n] + [lens[n]];
      assert AllLong(nt, lens) <==> AllLong(nt, lens[..n]) && (lens[n] == 0 || lens[n] >= nt);
      assert AllShort(nt, lens) <==> AllShort(nt, lens[..n]) && (lens[n] == 0 || lens[n] < nt);
    }
  }

  /** As long as blocks are of one kind the buffer holds the history that kind uses. */
  ghost predicate InStep<C, T>(A: Arithmetic<C, T>, taps: seq<C>, k: Kind, w: seq<T>, stream: seq<T>)
    requires 0 < |taps| == |w|
  {
    match k
    case Fresh => stream == [] && w == Zeros(A, |taps|)
    case Long => w[..|taps| - 1] == Last(Zeros(A, |taps|) + stream, |taps| - 1)
    case Short => w == Last(Zeros(A, |taps|) + stream, |taps|)
    case Mixed => true
  }

  lemma EmptyBlock<C, T>(A: Arithmetic<C, T>, taps: seq<C>, w: seq<T>)
    requires 0 < |taps| == |w|
    ensures Answer(A, taps, w, []) == [] && NextWindow(w, []) == w
  {
  }

  lemma LongBlock<C, T>(A: Arithmetic<C, T>, taps: seq<C>, k: Kind, w: seq<T>, stream: seq<T>, block: seq<T>)
    requires 0 < |taps| == |w| && |block| >= |taps| && InStep(A, taps, k, w, stream) && (k.Fresh? || k.Long?)
    ensures InStep(A, taps, Long, NextWindow(w, block), stream + block)
    ensures Convolved(A, taps, stream + block) == Convolved(A, taps, stream) + Answer(A, taps, w, block)
  {
    FreshIsLong(A, taps);
    LongContinues(A, taps, stream, block, w[..|taps| - 1]);
    assert NextWindow(w, block)[..|taps| - 1] == Last(block, |taps| - 1);
  }

  lemma ShortBlock<C, T>(A: Arithmetic<C, T>, taps: seq<C>, k: Kind, w: seq<T>, stream: seq<T>, block: seq<T>)
    requires 0 < |taps| == |w| && |block| < |taps| && InStep(A, taps, k, w, stream) && (k.Fresh? || k.Short?)
    ensures InStep(A, taps, Short, NextWindow(w, block), stream + block)
    ensures Convolved(A, taps, stream + block) == Convolved(A, taps, stream) + Answer(A, taps, w, block)
  {
    assert Last(Zeros(A, |taps|) + [], |taps|) == Zeros(A, |taps|);
    ShortContinues(A, taps, stream, block, w);
  }

  lemma KindOneMore(nt: nat, lens: seq<nat>, len: nat)
    ensures KindOf(nt, lens + [len]) == NextKind(KindOf(nt, lens), nt, len)
  {
    assert (lens + [len])[..|lens|] == lens;
  }

  lemma BlockInStep<C, T>(A: Arithmetic<C, T>, taps: seq<C>, k: Kind, w: seq<T>, stream: seq<T>, sent: seq<T>,
                          block: seq<T>)
    requires 0 < |taps| == |w| && InStep(A, taps, k, w, stream)
    requires k != Mixed ==> sent == Convolved(A, taps, stream)
    ensures InStep(A, taps, NextKind(k, |taps|, |block|), NextWindow(w, block), stream + block)
    ensures NextKind(k, |taps|, |block|) != Mixed ==>
      sent + Answer(A, taps, w, block) == Convolved(A, taps, stream + block)
  {
    if block == [] {
      EmptyBlock(A, taps, w);
      assert stream + [] == stream && sent + [] == sent;
    } else if |block| >= |taps| {
      if k.Fresh? || k.Long? {
        LongBlock(A, taps, k, w, stream, block);
      }
    } else if k.Fresh? || k.Short? {
      ShortBlock(A, taps, k, w, stream, block);
    }
  }

  /** Blocks of one kind are convolved, whatever the taps and samples and their arithmetic. */
  lemma {:induction false} OneKindConvolves<C, T>(A: Arithmetic<C, T>, taps: seq<C>, blocks: seq<seq<T>>)
    requires |taps| > 0
    ensures InStep(A, taps, KindOf(|taps|, Lengths(blocks)), Window(A, taps, blocks), Flat(blocks))
    ensures KindOf(|taps|, Lengths(blocks)) != Mixed ==> Output(A, taps, blocks) == Convolved(A, taps, Flat(blocks))
  {
    if blocks == [] {
      assert Zeros(A, |taps| - 1) + [] == Zeros(A, |taps| - 1);
    } else {
      var before, block := blocks[..|blocks| - 1], blocks[|blocks| - 1];
      assert blocks == before + [block];
      OneKindConvolves(A, taps, before);
      OneMore(A, taps, before, block);
      KindOneMore(|taps|, Lengths(before), |block|);
      BlockInStep(A, taps, KindOf(|taps|, Lengths(before)), Window(A, taps, before), Flat(before),
                  Output(A, taps, before), block);
    }
  }

  /** After long blocks the buffer ends with the first sample of the last of them. */
  lemma {:induction false} LongLeaves<C, T>(A: Arithmetic<C, T>, taps: seq<C>, blocks: seq<seq<T>>) returns (b: seq<T>)
    requires |taps| > 1 && KindOf(|taps|, Lengths(blocks)).Long?
    ensures |taps| <= |b| <= |Flat(blocks)| && Last(Flat(blocks), |b|) == b
    ensures Window(A, taps, blocks)[|taps| - 1] == b[0]
  {
    var n := |blocks| - 1;
    assert Lengths(blocks)[..n] == Lengths(blocks[..n]);
    if blocks[n] == [] {
      b := LongLeaves(A, taps, blocks[..n]);
      EmptyBlock(A, taps, Window(A, taps, blocks[..n]));
    } else {
      b := blocks[n];
    }
  }

  /** Exact integers, to tell wrong outputs from right ones. */
  function Integers(): Arithmetic<int, int> {
    Arithmetic(0, (x: int, y: int) => x + y, (c: int, x: int) => c * x)
  }

  /** The taps that delay a stream by one sample. */
  function Delay(nt: nat): (taps: seq<int>)
    requires nt > 1
    ensures |taps| == nt
  {
    seq(nt, i => if i == nt - 2 then 1 else 0)
  }

  lemma {:induction false} DelaySum(nt: nat, s: seq<int>, from: nat, k: nat)
    requires nt > 1 && k <= nt && from + nt <= |s|
    ensures Sum(Integers(), Delay(nt), s, from, k) == if k >= nt - 1 then s[from + nt - 2] else 0
  {
    if k > 0 {
      DelaySum(nt, s, from, k - 1);
    }
  }

  function Total(lens: seq<nat>): nat {
    if lens == [] then 0 else Total(lens[..|lens| - 1]) + lens[|lens| - 1]
  }

  /** The numbers after n, so many of them. */
  function Following(n: nat, len: nat): seq<int> {
    seq(len, i => n + 1 + i)
  }

  /** The stream 1, 2, 3, ... in blocks of these lengths. */
  function Cut(lens: seq<nat>): (blocks: seq<seq<int>>)
    ensures |blocks| == |lens|
  {
    if lens == [] then []
    else Cut(lens[..|lens| - 1]) + [Following(Total(lens[..|lens| - 1]), lens[|lens| - 1])]
  }

  lemma {:induction false} CutCounts(lens: seq<nat>)
    ensures Lengths(Cut(lens)) == lens && Flat(Cut(lens)) == Following(0, Total(lens))
  {
    if lens != [] {
      var n := |lens| - 1;
      CutCounts(lens[..n]);
      assert Cut(lens)[..n] == Cut(lens[..n]);
      assert lens == lens[..n] + [lens[n]];
    }
  }

  /** The first output for a nonempty block behind a nonempty stream 1, 2, ..., total. */
  lemma FirstOutput(nt: nat, w: seq<int>, total: nat, block: seq<int>)
    requires nt > 1 && |w| == nt && block != [] && total > 0
    ensures Answer(Integers(), Delay(nt), w, block)[0] == if |block| < nt then w[nt - 1] else w[nt - 2]
    ensures Convolved(Integers(), Delay(nt), Following(0, total) + block)[total] == total
  {
    var A, taps := Integers(), Delay(nt);
    var line := (if |block| < nt then w[1..] else w[..nt - 1]) + block;
    DelaySum(nt, line, 0, nt);
    var padded := Zeros(A, nt - 1) + (Following(0, total) + block);
    DelaySum(nt, padded, total, nt);
  }

  /** The first block of the other kind goes wrong at once. */
  lemma FirstOfOtherKind(nt: nat, lens: seq<nat>, len: nat)
    requires nt > 1 && len > 0
    requires var k := KindOf(nt, lens); if len < nt then k.Long? else k.Short?
    ensures Total(lens) > 0
    ensures var w := Window(Integers(), Delay(nt), Cut(lens));
      Answer(Integers(), Delay(nt), w, Following(Total(lens), len))[0] != Total(lens)
      == Convolved(Integers(), Delay(nt), Following(0, Total(lens)) + Following(Total(lens), len))[Total(lens)]
  {
    var A, taps, blocks, total := Integers(), Delay(nt), Cut(lens), Total(lens);
    CutCounts(lens);
    OneKindConvolves(A, taps, blocks);
    NotFresh(nt, lens);
    FirstOutput(nt, Window(A, taps, blocks), total, Following(total, len));
    if len < nt {
      var b := LongLeaves(A, taps, blocks);
      assert b[0] == Flat(blocks)[total - |b|];
    } else {
      assert (Zeros(A, nt) + Following(0, total))[total + nt - 2] == total - 1;
    }
  }

  lemma {:induction false} NotFresh(nt: nat, lens: seq<nat>)
    ensures !KindOf(nt, lens).Fresh? ==> Total(lens) > 0
  {
    if lens != [] {
      NotFresh(nt, lens[..|lens| - 1]);
    }
  }

  /** Once blocks of both kinds have come, the output is wrong for good. */
  lemma {:induction false} MixedGoesWrong(nt: nat, lens: seq<nat>)
    requires nt > 1 && KindOf(nt, lens).Mixed?
    ensures Output(Integers(), Delay(nt), Cut(lens)) != Convolved(Integers(), Delay(nt), Flat(Cut(lens)))
  {
    var n := |lens| - 1;
    var A, taps, before, block := Integers(), Delay(nt), Cut(lens[..n]), Following(Total(lens[..n]), lens[n]);
    assert Cut(lens)[..n] == before;
    CutCounts(lens[..n]);
    OutputLength(A, taps, before);
    ConvolvedAppend(A, taps, Flat(before), block);
    if KindOf(nt, lens[..n]).Mixed? {
      MixedGoesWrong(nt, lens[..n]);
      assert Output(A, taps, Cut(lens))[..Total(lens[..n])] == Output(A, taps, before);
      assert Convolved(A, taps, Flat(Cut(lens)))[..Total(lens[..n])] == Convolved(A, taps, Flat(before));
    } else {
      FirstOfOtherKind(nt, lens[..n], lens[n]);
      assert Output(A, taps, Cut(lens))[Total(lens[..n])] == Answer(A, taps, Window(A, taps, before), block)[0];
    }
  }

  /** All taps and all samples in blocks of these lengths are convolved. */
  ghost predicate AlwaysConvolves(nt: nat, lens: seq<nat>)
    requires nt > 0
  {
    forall taps: seq<int>, blocks: seq<seq<int>> :: |taps| == nt && Lengths(blocks) == lens ==>
      Output(Integers(), taps, blocks) == Convolved(Integers(), taps, Flat(blocks))
  }

  /**
    For which cuts of a stream the filter is right: with one tap for all, with more exactly when
    all nonempty blocks have at least as many samples as there are taps, or all have fewer.
  */
  lemma ConvolvesIff(nt: nat, lens: seq<nat>)
    requires nt > 0
    ensures AlwaysConvolves(nt, lens) <==> nt == 1 || AllLong(nt, lens) || AllShort(nt, lens)
  {
    KindMeans(nt, lens);
    if KindOf(nt, lens).Mixed? {
      if nt > 1 {
        MixedGoesWrong(nt, lens);
        CutCounts(lens);
      }
    } else {
      forall taps: seq<int>, blocks: seq<seq<int>> | |taps| == nt && Lengths(blocks) == lens
        ensures Output(Integers(), taps, blocks) == Convolved(Integers(), taps, Flat(blocks))
      {
        OneKindConvolves(Integers(), taps, blocks);
      }
    }
  }

  method Dot<C, T>(A: Arithmetic<C, T>, taps: seq<C>, data: seq<T>, from: nat) returns (x: T)
    requires from + |taps| <= |data|
    ensures x == Sum(A, taps, data, from, |taps|)
  {
    x := A.zero;
    for i := 0 to |taps|
      invariant x == Sum(A, taps, data, from, i)
    {
      x := A.add(x, A.scale(taps[i], data[from + i]));
    }
  }

  /** Filter and FilterComplex differ in their sample type only. */
  class Filter<C, T> {
    const A: Arithmetic<C, T>
    const taps: seq<C>
    var buffer: array<T>
    var output: array<T>

    ghost var blocks: seq<seq<T>>
    ghost var sent: seq<T>

    ghost predicate Shape()
      reads this
    {
      |taps| > 0 && buffer.Length == 2 * |taps| && output != buffer
    }

    /** What was sent and what is kept depend on the blocks received and on nothing else. */
    ghost predicate Valid()
      reads this, buffer
    {
      && Shape()
      && buffer[..|taps|] == Window(A, taps, blocks)
      && sent == Output(A, taps, blocks)
    }

    constructor (A: Arithmetic<C, T>, taps: seq<C>)
      requires |taps| > 0
      ensures Valid() && blocks == [] && sent == []
      ensures this.A == A && this.taps == taps
      ensures fresh(buffer) && fresh(output)
    {
      this.A, this.taps := A, taps;
      buffer := new T[2 * |taps|](_ => A.zero);
      output := new T[0](_ => A.zero);
      blocks, sent := [], [];
    }

    method Fit(len: nat)
      requires Shape()
      modifies `output
      ensures Shape() && output.Length >= len
      ensures output == old(output) || fresh(output)
    {
      if output.Length < len {
        output := new T[len](_ => A.zero);
      }
    }

    /** The outputs whose window still reaches into the history. */
    method Head(data: seq<T>)
      requires Shape() && |data| >= |taps| && output.Length >= |data|
      modifies buffer, output
      ensures buffer[..|taps| - 1] == old(buffer[..|taps| - 1])
      ensures buffer[|taps| - 1] == if |taps| == 1 then old(buffer[0]) else data[0]
      ensures output[..|taps| - 1] == Sliding(A, taps, old(buffer[..|taps| - 1]) + data[..|taps| - 1])
    {
      var nt := |taps|;
      ghost var line := buffer[..nt - 1] + data[..nt - 1];
      var j := 0;
      while j < nt - 1
        invariant 0 <= j <= nt - 1
        invariant buffer[..nt - 1 + j] == line[..nt - 1 + j]
        invariant j == 0 ==> buffer[nt - 1] == old(buffer[nt - 1])
        invariant forall i :: 0 <= i < j ==> output[i] == Sum(A, taps, line, i, nt)
      {
        buffer[nt - 1 + j] := data[j];
        assert buffer[..nt + j] == line[..nt + j];
        output[j] := Dot(A, taps, buffer[..], j);
        assert buffer[..][j..j + nt] == line[j..j + nt];
        SumSame(A, taps, buffer[..], j, line, j, nt);
        j := j + 1;
      }
      assert buffer[..nt - 1] == line[..nt - 1];
      if nt > 1 {
        assert buffer[nt - 1] == line[nt - 1];
      }
    }

    /** The outputs whose window lies in the block itself. */
    method Body(data: seq<T>)
      requires Shape() && |data| >= |taps| && output.Length >= |data|
      modifies output
      ensures output[..|taps| - 1] == old(output[..|taps| - 1])
      ensures output[|taps| - 1..|data|] == Sliding(A, taps, data)
    {
      var nt := |taps|;
      for i := 0 to |data| - nt + 1
        invariant output[..nt - 1] == old(output[..nt - 1])
        invariant forall k :: 0 <= k < i ==> output[nt - 1 + k] == Sum(A, taps, data, k, nt)
      {
        output[nt - 1 + i] := Dot(A, taps, data, i);
      }
    }

    method Keep(data: seq<T>)
      requires Shape() && |data| >= |taps|
      modifies buffer
      ensures buffer[..|taps| - 1] == Last(data, |taps| - 1)
      ensures buffer[|taps| - 1] == old(buffer[|taps| - 1])
    {
      var nt := |taps|;
      for p := 0 to nt - 1
        invariant buffer[..p] == data[|data| - nt + 1..|data| - nt + 1 + p]
        invariant buffer[nt - 1] == old(buffer[nt - 1])
      {
        buffer[p] := data[|data| - nt + 1 + p];
      }
    }

    /** A block of at least |taps| samples, whatever the buffer holds. */
    method ReceiveLong(data: seq<T>)
      requires Shape() && |data| >= |taps|
      modifies this, buffer, output
      ensures Shape() && buffer == old(buffer) && (output == old(output) || fresh(output))
      ensures blocks == old(blocks)
      ensures sent == old(sent) + Sliding(A, taps, old(buffer[..|taps| - 1]) + data)
      ensures buffer[..|taps| - 1] == Last(data, |taps| - 1)
      ensures buffer[|taps| - 1] == if |taps| == 1 then old(buffer[0]) else data[0]
    {
      ghost var h := buffer[..|taps| - 1];
      Fit(|data|);
      Head(data);
      ghost var head := output[..|taps| - 1];
      Body(data);
      Keep(data);
      sent := sent + output[..|data|];
      BlockSlides(A, taps, h, data);
      assert output[..|data|] == output[..|taps| - 1] + output[|taps| - 1..|data|];
    }

    /** One sample of a short block: shift the window by one and apply the taps. */
    method Push(x: T)
      requires Shape()
      modifies buffer
      ensures buffer[..|taps|] == old(buffer[1..|taps|]) + [x]
    {
      var nt := |taps|;
      var i := 1;
      while i < nt
        invariant 1 <= i <= nt
        invariant forall k :: 0 <= k < i - 1 ==> buffer[k] == old(buffer[k + 1])
        invariant forall k :: i - 1 <= k < nt ==> buffer[k] == old(buffer[k])
      {
        buffer[i - 1] := buffer[i];
        i := i + 1;
      }
      buffer[nt - 1] := x;
    }

    /** Shift one sample in and send one output. */
    method One(x: T)
      requires Shape() && output.Length > 0
      modifies `sent, buffer, output
      ensures buffer[..|taps|] == old(buffer[..|taps|])[1..] + [x]
      ensures sent == old(sent) + [Sum(A, taps, buffer[..|taps|], 0, |taps|)]
    {
      assert buffer[1..|taps|] == buffer[..|taps|][1..];
      Push(x);
      output[0] := Dot(A, taps, buffer[..], 0);
      SumOfPrefix(A, taps, buffer[..], |taps|, 0);
      assert buffer[..][..|taps|] == buffer[..|taps|];
      sent := sent + output[..1];
    }

    /** A block of fewer than |taps| samples, whatever the buffer holds: one output sent at a time. */
    method ReceiveShort(data: seq<T>)
      requires Shape()
      modifies this, buffer, output
      ensures Shape() && buffer == old(buffer) && (output == old(output) || fresh(output))
      ensures blocks == old(blocks)
      ensures sent == old(sent) + Sliding(A, taps, old(buffer[1..|taps|]) + data)
      ensures buffer[..|taps|] == Last(old(buffer[..|taps|]) + data, |taps|)
    {
      ghost var w := buffer[..|taps|];
      assert buffer[1..|taps|] == w[1..];
      Fit(|data|);
      for j := 0 to |data|
        invariant Shape() && buffer == old(buffer) && (output == old(output) || fresh(output))
        invariant output.Length >= |data| && blocks == old(blocks)
        invariant buffer[..|taps|] == Last(w + data[..j], |taps|)
        invariant sent == old(sent) + Sliding(A, taps, w[1..] + data)[..j]
      {
        ShortStep(A, taps, w, data, j);
        One(data[j]);
      }
      assert data[..|data|] == data;
    }

    /**
      Everything a filter has sent is the convolution of everything it has received, as long as its
      nonempty blocks all had at least |taps| samples or all had fewer, or there is one tap.
    */
    method Receive(data: seq<T>)
      requires Valid()
      modifies this, buffer, output
      ensures Valid() && buffer == old(buffer) && (output == old(output) || fresh(output))
      ensures blocks == old(blocks) + [data]
      ensures |taps| == 1 || AllLong(|taps|, Lengths(blocks)) || AllShort(|taps|, Lengths(blocks)) ==>
        sent == Convolved(A, taps, Flat(blocks))
    {
      ghost var before := blocks;
      Filtered(data);
      blocks := before + [data];
      OneMore(A, taps, before, data);
      OneKindConvolves(A, taps, blocks);
      KindMeans(|taps|, Lengths(blocks));
    }

    method Filtered(data: seq<T>)
      requires Shape()
      modifies this, buffer, output
      ensures Shape() && buffer == old(buffer) && (output == old(output) || fresh(output))
      ensures blocks == old(blocks)
      ensures sent == old(sent) + Answer(A, taps, old(buffer[..|taps|]), data)
      ensures buffer[..|taps|] == NextWindow(old(buffer[..|taps|]), data)
    {
      ghost var w := buffer[..|taps|];
      assert w[1..] == buffer[1..|taps|] && w[..|taps| - 1] == buffer[..|taps| - 1];
      if |data| < |taps| {
        ReceiveShort(data);
      } else {
        ReceiveLong(data);
        assert buffer[..|taps|] == buffer[..|taps| - 1] + [buffer[|taps| - 1]];
      }
    }
  }

  /**
    A long block leaves one sample fewer in the buffer than a short block shifts through its
    window: the taps 1, 0 delay a stream by one sample, and after the blocks [1, 2] and [5] the
    last output repeats the 1 instead of the 2.
  */
  method MixedBlocksDiffer() returns (ghost got: seq<int>, ghost wanted: seq<int>)
    ensures got == [0, 1, 1] && wanted == [0, 1, 2]
  {
    var A, taps := Integers(), [1, 0];
    var f := new Filter(A, taps);
    f.Receive([1, 2]);
    f.Receive([5]);
    assert f.blocks == [[1, 2]] + [[5]] && [1, 2] + [5] == [1, 2, 5];
    DelayedWrongly(A, taps);
    got, wanted := f.sent, Convolved(A, taps, Flat(f.blocks));
  }

  lemma DelayedWrongly(A: Arithmetic<int, int>, taps: seq<int>)
    requires A == Integers() && taps == [1, 0]
    ensures Output(A, taps, [[1, 2]] + [[5]]) == [0, 1, 1]
    ensures Flat([[1, 2]] + [[5]]) == [1, 2] + [5] && Convolved(A, taps, [1, 2] + [5]) == [0, 1, 2]
  {
    TwoBlocks(A, taps, [1, 2], [5]);
    TwoTaps(A, taps, [0] + [1, 2]);
    TwoTaps(A, taps, [1] + [5]);
    TwoTaps(A, taps, Zeros(A, 1) + ([1, 2] + [5]));
  }

  lemma TwoBlocks(A: Arithmetic<int, int>, taps: seq<int>, a: seq<int>, b: seq<int>)
    requires |taps| == 2 && A.zero == 0 && |a| == 2 && |b| == 1
    ensures Output(A, taps, [a] + [b]) == Sliding(A, taps, [0] + a) + Sliding(A, taps, [a[0]] + b)
    ensures Flat([a] + [b]) == a + b
  {
    OneMore(A, taps, [], a);
    OneMore(A, taps, [a], b);
    assert [] + [a] == [a] && [] + a == a;
    assert Zeros(A, 2)[..1] == [0];
    assert NextWindow(Zeros(A, 2), a) == [a[1], a[0]];
    assert [a[1], a[0]][1..] == [a[0]];
    assert [] + Sliding(A, taps, [0] + a) == Sliding(A, taps, [0] + a);
  }

  lemma TwoTaps(A: Arithmetic<int, int>, taps: seq<int>, s: seq<int>)
    requires |taps| == 2 && |s| >= 2
    ensures |Sliding(A, taps, s)| == |s| - 1
    ensures forall i :: 0 <= i < |s| - 1 ==>
      Sliding(A, taps, s)[i] == A.add(A.add(A.zero, A.scale(taps[0], s[i])), A.scale(taps[1], s[i + 1]))
  {
    forall i | 0 <= i < |s| - 1
      ensures Sum(A, taps, s, i, 2) == A.add(A.add(A.zero, A.scale(taps[0], s[i])), A.scale(taps[1], s[i + 1]))
    {
      assert Sum(A, taps, s, i, 1) == A.add(Sum(A, taps, s, i, 0), A.scale(taps[0], s[i]));
    }
  }

  // ---------- every K-th output ----------

  /** Every K-th element of s, beginning with index `from`. */
  function Decimate<T>(s: seq<T>, from: nat, K: nat): seq<T>
    requires K > 0
    decreases if from < |s| then |s| - from else 0
  {
    if from >= |s| then [] else [s[from]] + Decimate(s, from + K, K)
  }

  /** The first of from, from + K, from + 2K, ... that is not below n. */
  function Reach(n: nat, from: nat, K: nat): (r: nat)
    requires K > 0
    ensures r >= n && r >= from
    decreases if from < n then n - from else 0
  {
    if from >= n then from else Reach(n, from + K, K)
  }

  lemma {:induction false} DecimateAppend<T>(a: seq<T>, b: seq<T>, from: nat, K: nat)
    requires K > 0
    ensures Decimate(a + b, from, K) == Decimate(a, from, K) + Decimate(a + b, Reach(|a|, from, K), K)
    decreases if from < |a| then |a| - from else 0
  {
    if from < |a| {
      DecimateAppend(a, b, from + K, K);
    }
  }

  lemma {:induction false} ReachOn(m: nat, n: nat, from: nat, K: nat)
    requires K > 0 && m <= n
    ensures Reach(n, Reach(m, from, K), K) == Reach(n, from, K)
    decreases if from < m then m - from else 0
  {
    if from < m {
      ReachOn(m, n, from + K, K);
    }
  }

  lemma {:induction false} DecimateAt<T>(s: seq<T>, from: nat, K: nat, i: nat)
    requires K > 0 && from + i * K < |s|
    ensures i < |Decimate(s, from, K)| && Decimate(s, from, K)[i] == s[from + i * K]
    decreases i
  {
    if i > 0 {
      MulAdd(i, 1, K);
      MulMonotone(0, i - 1, K);
      DecimateAt(s, from + K, K, i - 1);
    }
  }

  lemma DecimateStep<T>(before: seq<T>, s: seq<T>, from: nat, K: nat)
    requires K > 0 && from < |s|
    ensures before + Decimate(s, from, K) == (before + [s[from]]) + Decimate(s, from + K, K)
  {
  }

  const OUTPUT_SIZE := 8192

  /** Filters and keeps every K-th output; sends them in blocks of OUTPUT_SIZE. */
  class DownsampleKFilter<C, T> {
    const A: Arithmetic<C, T>
    const taps: seq<C>
    const K: nat
    var buffer: array<T>
    var output: array<T>
    var idxIn: nat
    var idxOut: nat

    ghost var heard: seq<T>
    ghost var sent: seq<seq<T>>

    ghost predicate Shape()
      reads this
    {
      |taps| > 0 && K > 0 && output != buffer
    }

    /** All that was sent, joined. */
    ghost function Sent(): seq<T>
      reads this
    {
      Flat(sent)
    }

    /** Every output produced so far, sent or still waiting. */
    ghost function Produced(): seq<T>
      requires idxOut <= output.Length
      reads this, output
    {
      Sent() + output[..idxOut]
    }

    /** The first samples of the buffer are the history; a buffer not yet allocated stands for silence. */
    ghost function History(): seq<T>
      requires |taps| > 0
      reads this, buffer
    {
      if buffer.Length < |taps| - 1 then Zeros(A, |taps| - 1) else buffer[..|taps| - 1]
    }

    ghost predicate Valid()
      reads this, buffer, output
    {
      && Shape()
      && (buffer.Length == 0 || buffer.Length >= |taps|)
      && (if output.Length == 0 then idxOut == 0 else output.Length == OUTPUT_SIZE && idxOut < OUTPUT_SIZE)
      && (forall i :: 0 <= i < |sent| ==> |sent[i]| == OUTPUT_SIZE)
      && History() == Last(Zeros(A, |taps| - 1) + heard, |taps| - 1)
      && |heard| + idxIn == Reach(|heard|, 0, K)
      && Produced() == Decimate(Convolved(A, taps, heard), 0, K)
    }

    constructor (A: Arithmetic<C, T>, taps: seq<C>, K: nat)
      requires |taps| > 0 && K > 0
      ensures Valid() && heard == [] && sent == []
      ensures this.A == A && this.taps == taps && this.K == K
      ensures fresh(buffer) && fresh(output)
    {
      this.A, this.taps, this.K := A, taps, K;
      buffer := new T[0](_ => A.zero);
      output := new T[0](_ => A.zero);
      idxIn, idxOut := 0, 0;
      heard, sent := [], [];
      new;
      assert Convolved(A, taps, []) == [];
      assert Zeros(A, |taps| - 1) + [] == Zeros(A, |taps| - 1);
    }

    /** The output array appears at the first call; the buffer grows with the blocks. */
    method Fit(len: nat)
      requires Valid()
      modifies `buffer, `output
      ensures Shape() && buffer.Length >= len + |taps| && output.Length == OUTPUT_SIZE && idxOut < OUTPUT_SIZE
      ensures buffer == old(buffer) || fresh(buffer)
      ensures output == old(output) || fresh(output)
      ensures buffer[..|taps| - 1] == old(History())
      ensures Produced() == old(Produced())
    {
      if output.Length < OUTPUT_SIZE {
        output := new T[OUTPUT_SIZE](_ => A.zero);
      }
      if buffer.Length < len + |taps| {
        var was := buffer;
        buffer := new T[len + |taps|](i requires 0 <= i reads was => if i < was.Length then was[i] else A.zero);
      }
    }

    method CopyIn(data: seq<T>)
      requires Shape() && buffer.Length >= |data| + |taps|
      modifies buffer
      ensures buffer[..|taps| - 1 + |data|] == old(buffer[..|taps| - 1]) + data
    {
      for i := 0 to |data|
        invariant buffer[..|taps| - 1 + i] == old(buffer[..|taps| - 1]) + data[..i]
      {
        buffer[|taps| - 1 + i] := data[i];
      }
    }

    /** One output: it joins those waiting, and a full block is sent. */
    method Emit(x: T)
      requires Shape() && output.Length == OUTPUT_SIZE && idxOut < OUTPUT_SIZE
      requires forall i :: 0 <= i < |sent| ==> |sent[i]| == OUTPUT_SIZE
      modifies `idxOut, `sent, output
      ensures idxOut < OUTPUT_SIZE
      ensures Produced() == old(Produced()) + [x]
      ensures forall i :: 0 <= i < |sent| ==> |sent[i]| == OUTPUT_SIZE
    {
      output[idxOut] := x;
      idxOut := idxOut + 1;
      assert Sent() + output[..idxOut] == old(Produced()) + [x];
      if idxOut == OUTPUT_SIZE {
        assert (sent + [output[..]])[..|sent|] == sent;
        sent := sent + [output[..]];
        idxOut := 0;
        assert Produced() == old(Produced()) + [x];
      }
    }

    /** The output at idxIn. */
    method Filtered(ghost len: nat)
      requires Shape() && buffer.Length >= len + |taps| && output.Length == OUTPUT_SIZE && idxOut < OUTPUT_SIZE
      requires idxIn < len && forall i :: 0 <= i < |sent| ==> |sent[i]| == OUTPUT_SIZE
      modifies `idxIn, `idxOut, `sent, output
      ensures idxOut < OUTPUT_SIZE && idxIn == old(idxIn) + K
      ensures Produced() == old(Produced()) + [Sliding(A, taps, buffer[..|taps| - 1 + len])[old(idxIn)]]
      ensures forall i :: 0 <= i < |sent| ==> |sent[i]| == OUTPUT_SIZE
    {
      var x := Dot(A, taps, buffer[..], idxIn);
      SumOfPrefix(A, taps, buffer[..], |taps| - 1 + len, idxIn);
      assert buffer[..][..|taps| - 1 + len] == buffer[..|taps| - 1 + len];
      Emit(x);
      idxIn := idxIn + K;
    }

    /** Filter at idxIn, idxIn + K, ... for as long as the window begins in this block. */
    method Run(len: nat)
      requires Shape() && buffer.Length >= len + |taps| && output.Length == OUTPUT_SIZE && idxOut < OUTPUT_SIZE
      requires forall i :: 0 <= i < |sent| ==> |sent[i]| == OUTPUT_SIZE
      modifies `idxIn, `idxOut, `sent, output
      ensures idxOut < OUTPUT_SIZE
      ensures idxIn == Reach(len, old(idxIn), K)
      ensures Produced() == old(Produced())
        + Decimate(Sliding(A, taps, buffer[..|taps| - 1 + len]), old(idxIn), K)
      ensures forall i :: 0 <= i < |sent| ==> |sent[i]| == OUTPUT_SIZE
    {
      ghost var all := Sliding(A, taps, buffer[..|taps| - 1 + len]);
      while idxIn < len
        invariant Shape() && idxOut < OUTPUT_SIZE
        invariant all == Sliding(A, taps, buffer[..|taps| - 1 + len])
        invariant Reach(len, idxIn, K) == Reach(len, old(idxIn), K)
        invariant Produced() + Decimate(all, idxIn, K) == old(Produced()) + Decimate(all, old(idxIn), K)
        invariant forall i :: 0 <= i < |sent| ==> |sent[i]| == OUTPUT_SIZE
        decreases len - idxIn
      {
        DecimateStep(Produced(), all, idxIn, K);
        Filtered(len);
      }
      assert Decimate(all, idxIn, K) == [];
    }

    method Keep(data: seq<T>)
      requires Shape() && |data| >= |taps| - 1 && buffer.Length >= |taps|
      modifies buffer
      ensures buffer[..|taps| - 1] == Last(data, |taps| - 1)
    {
      var nt := |taps|;
      for j := 0 to nt - 1
        invariant buffer[..j] == data[|data| - nt + 1..|data| - nt + 1 + j]
      {
        buffer[j] := data[|data| - nt + 1 + j];
      }
    }

    method Load(data: seq<T>)
      requires Valid()
      modifies `buffer, `output, buffer
      ensures Shape() && buffer.Length >= |data| + |taps| && output.Length == OUTPUT_SIZE && idxOut < OUTPUT_SIZE
      ensures buffer == old(buffer) || fresh(buffer)
      ensures output == old(output) || fresh(output)
      ensures buffer[..|taps| - 1 + |data|] == old(History()) + data
      ensures Produced() == old(Produced())
    {
      Fit(|data|);
      CopyIn(data);
    }

    method Absorb(data: seq<T>)
      requires Valid() && |data| >= |taps| - 1
      modifies this, buffer, output
      ensures Shape() && buffer.Length >= |taps| && output.Length == OUTPUT_SIZE && idxOut < OUTPUT_SIZE
      ensures buffer == old(buffer) || fresh(buffer)
      ensures output == old(output) || fresh(output)
      ensures heard == old(heard)
      ensures forall i :: 0 <= i < |sent| ==> |sent[i]| == OUTPUT_SIZE
      ensures idxIn + |data| == Reach(|data|, old(idxIn), K)
      ensures Produced() == old(Produced()) + Decimate(Sliding(A, taps, old(History()) + data), old(idxIn), K)
      ensures buffer[..|taps| - 1] == Last(data, |taps| - 1)
    {
      Load(data);
      Run(|data|);
      idxIn := idxIn - |data|;
      Keep(data);
    }

    /** A block of at least |taps|-1 samples is filtered as part of one endless stream. */
    method Take(data: seq<T>)
      requires Valid() && |data| >= |taps| - 1
      modifies this, buffer, output
      ensures Valid() && heard == old(heard) + data
      ensures buffer == old(buffer) || fresh(buffer)
      ensures output == old(output) || fresh(output)
    {
      ghost var next, stream, produced := idxIn, heard, Produced();
      ghost var h := History();
      Absorb(data);
      heard := heard + data;
      NextAfterBlock(|stream|, |data|, K, next);
      HistoryAfterBlock(Zeros(A, |taps| - 1), stream, data);
      BlockContinues(A, taps, stream, data, K, next);
      assert Produced() == produced + Decimate(Sliding(A, taps, h + data), next, K);
    }

    /** A block shorter than |taps|-1 samples is dropped. */
    method Receive(data: seq<T>)
      requires Valid()
      modifies this, buffer, output
      ensures Valid()
      ensures heard == if |data| < |taps| - 1 then old(heard) else old(heard) + data
      ensures |data| < |taps| - 1 ==> Produced() == old(Produced()) && sent == old(sent)
      ensures Produced() == Decimate(Convolved(A, taps, heard), 0, K)
      ensures buffer == old(buffer) || fresh(buffer)
      ensures output == old(output) || fresh(output)
    {
      if |data| >= |taps| - 1 {
        Take(data);
      }
    }
  }

  lemma {:induction false} ReachShift(n: nat, m: nat, from: nat, K: nat)
    requires K > 0
    ensures Reach(m + n, m + from, K) == m + Reach(n, from, K)
    decreases if from < n then n - from else 0
  {
    if from < n {
      ReachShift(n, m, from + K, K);
    }
  }

  lemma {:induction false} DecimateShift<T>(a: seq<T>, b: seq<T>, from: nat, K: nat)
    requires K > 0
    ensures Decimate(a + b, |a| + from, K) == Decimate(b, from, K)
    decreases if from < |b| then |b| - from else 0
  {
    if from < |b| {
      DecimateShift(a, b, from + K, K);
      var s, at := a + b, |a| + from;
      assert Decimate(s, at, K) == [s[at]] + Decimate(s, at + K, K) && at + K == |a| + (from + K);
      assert s[at] == b[from];
    }
  }

  /** What one block adds to the decimated convolution. */
  lemma BlockContinues<C, T>(A: Arithmetic<C, T>, taps: seq<C>, stream: seq<T>, block: seq<T>, K: nat, next: nat)
    requires |taps| > 0 && K > 0
    requires |stream| + next == Reach(|stream|, 0, K)
    ensures var h := Last(Zeros(A, |taps| - 1) + stream, |taps| - 1);
      Decimate(Convolved(A, taps, stream + block), 0, K)
      == Decimate(Convolved(A, taps, stream), 0, K) + Decimate(Sliding(A, taps, h + block), next, K)
  {
    var h := Last(Zeros(A, |taps| - 1) + stream, |taps| - 1);
    var before, more := Convolved(A, taps, stream), Sliding(A, taps, h + block);
    ConvolvedAppend(A, taps, stream, block);
    assert Convolved(A, taps, stream + block) == before + more && |before| == |stream|;
    DecimateAppend(before, more, 0, K);
    DecimateShift(before, more, next, K);
  }

  lemma HistoryAfterBlock<T>(zeros: seq<T>, stream: seq<T>, block: seq<T>)
    requires |block| >= |zeros|
    ensures Last(zeros + (stream + block), |zeros|) == Last(block, |zeros|)
  {
    assert zeros + (stream + block) == (zeros + stream) + block;
  }

  /** Where the next output lies after one more block. */
  lemma NextAfterBlock(stream: nat, block: nat, K: nat, next: nat)
    requires K > 0 && stream + next == Reach(stream, 0, K)
    ensures stream + Reach(block, next, K) == Reach(stream + block, 0, K)
  {
    ReachOn(stream, stream + block, 0, K);
    ReachShift(block, stream, next, K);
  }
}
