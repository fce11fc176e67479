/**
 The Beast stream decoder of Source/Aviation/Beast.cpp:111-242: a buffer-at-a-time loop with a
 word-wide copy, proved to be a one-byte automaton, and the round trip through the escaped encoding.
 */
module BeastDecoder {
  import opened Seqs
  import opened Swar

  const ESCAPE: bv8 := 0x1A

  datatype State = WaitStart | WaitType | Accumulate | AccumulateEsc

  /** The decoder between two bytes: `frame` is the filled part of frameBuf. */
  datatype Decoder = Decoder(state: State, frame: seq<bv8>, total: nat)

  datatype Run = Run(decoder: Decoder, sent: seq<seq<bv8>>)

  const INIT: Decoder := Decoder(WaitStart, [], 0)

  predicate IsType(b: bv8) {
    b == 0x31 || b == 0x32 || b == 0x33
  }

  /** Source/Aviation/Beast.cpp:111-114 */
  function FrameSize(frameType: bv8): nat {
    8 + if frameType == 0x33 then 14 else if frameType == 0x32 then 7 else 2
  }

  // ---------------------------------------------------------------- one byte at a time

  function Start(d: Decoder, b: bv8, otherwise: State): Decoder {
    if IsType(b) then Decoder(Accumulate, [b], FrameSize(b)) else d.(state := otherwise)
  }

  function Append(d: Decoder, b: bv8): Run {
    var f := d.frame + [b];
    if |f| == d.total then Run(Decoder(WaitStart, f, d.total), [f])
    else Run(Decoder(Accumulate, f, d.total), [])
  }

  function Feed(d: Decoder, b: bv8): Run {
    match d.state
    case WaitStart => Run(if b == ESCAPE then d.(state := WaitType) else d, [])
    case WaitType => Run(Start(d, b, if b == ESCAPE then WaitType else WaitStart), [])
    case Accumulate => if b == ESCAPE then Run(d.(state := AccumulateEsc), []) else Append(d, b)
    case AccumulateEsc => if b == ESCAPE then Append(d, ESCAPE) else Run(Start(d, b, WaitStart), [])
  }

  function FeedAll(d: Decoder, s: seq<bv8>): Run {
    if |s| == 0 then Run(d, [])
    else
      var r := FeedAll(d, s[..|s| - 1]);
      var q := Feed(r.decoder, s[|s| - 1]);
      Run(q.decoder, r.sent + q.sent)
  }

  /** Never more than 22 bytes, and never past the end of the frame being filled. */
  predicate Bounded(d: Decoder) {
    && |d.frame| <= d.total <= 22
    && (d.state == Accumulate || d.state == AccumulateEsc ==> 1 <= |d.frame| < d.total)
  }

  lemma FeedBounded(d: Decoder, b: bv8)
    requires Bounded(d)
    ensures Bounded(Feed(d, b).decoder)
    ensures |Feed(d, b).sent| <= 1 && forall f :: f in Feed(d, b).sent ==> |f| == d.total
  {
  }

  lemma {:induction false} FeedAllBounded(d: Decoder, s: seq<bv8>)
    requires Bounded(d)
    ensures Bounded(FeedAll(d, s).decoder)
  {
    if |s| != 0 {
      FeedAllBounded(d, s[..|s| - 1]);
      FeedBounded(FeedAll(d, s[..|s| - 1]).decoder, s[|s| - 1]);
    }
  }

  lemma FeedSnoc(d: Decoder, s: seq<bv8>, b: bv8)
    ensures var r := FeedAll(d, s);
            var q := Feed(r.decoder, b);
            FeedAll(d, s + [b]) == Run(q.decoder, r.sent + q.sent)
  {
    assert (s + [b])[..|s|] == s;
  }

  /** How a stream is cut into pieces does not matter. */
  lemma {:induction false} FeedConcat(d: Decoder, s: seq<bv8>, t: seq<bv8>)
    ensures var r := FeedAll(d, s);
            var q := FeedAll(r.decoder, t);
            FeedAll(d, s + t) == Run(q.decoder, r.sent + q.sent)
  {
    if |t| == 0 {
      assert s + t == s;
    } else {
      var t', b := t[..|t| - 1], t[|t| - 1];
      var r := FeedAll(d, s);
      var q := FeedAll(r.decoder, t');
      FeedConcat(d, s, t');
      assert s + t == (s + t') + [b] && t == t' + [b];
      FeedSnoc(d, s + t', b);
      FeedSnoc(r.decoder, t', b);
      Regroup(r.sent, q.sent, Feed(q.decoder, b).sent);
    }
  }

  lemma FeedOne(d: Decoder, b: bv8)
    ensures FeedAll(d, [b]) == Feed(d, b)
  {
    FeedSnoc(d, [], b);
    assert [] + [b] == [b];
  }

  // ---------------------------------------------------------------- runs of bytes without an escape

  lemma {:induction false} SkipNoise(d: Decoder, s: seq<bv8>)
    requires d.state == WaitStart && ESCAPE !in s
    ensures FeedAll(d, s) == Run(d, [])
  {
    if |s| != 0 {
      SkipNoise(d, s[..|s| - 1]);
    }
  }

  lemma {:induction false} FillFrame(d: Decoder, s: seq<bv8>)
    requires d.state == Accumulate && ESCAPE !in s && |d.frame| < d.total && |d.frame| + |s| <= d.total
    ensures FeedAll(d, s) == if |d.frame| + |s| == d.total
                             then Run(Decoder(WaitStart, d.frame + s, d.total), [d.frame + s])
                             else Run(Decoder(Accumulate, d.frame + s, d.total), [])
  {
    if |s| == 0 {
      assert d.frame + s == d.frame;
    } else {
      FillFrame(d, s[..|s| - 1]);
      assert d.frame + s[..|s| - 1] + [s[|s| - 1]] == d.frame + s;
    }
  }

  // ---------------------------------------------------------------- the encoding

  /** Type, six bytes of time, one of signal level, and a message of 2, 7 or 14 bytes as the type says. */
  predicate WellFormed(f: seq<bv8>) {
    || (|f| == 10 && f[0] == 0x31)
    || (|f| == 15 && f[0] == 0x32)
    || (|f| == 22 && f[0] == 0x33)
  }

  /** Every escape byte of the contents is sent twice. */
  function Double(s: seq<bv8>): seq<bv8> {
    if |s| == 0 then []
    else (if s[0] == ESCAPE then [ESCAPE, ESCAPE] else [s[0]]) + Double(s[1..])
  }

  function Encode(f: seq<bv8>): seq<bv8>
    requires |f| > 0
  {
    [ESCAPE] + [f[0]] + Double(f[1..])
  }

  predicate AllWellFormed(fs: seq<seq<bv8>>) {
    forall i :: 0 <= i < |fs| ==> WellFormed(fs[i])
  }

  function EncodeAll(fs: seq<seq<bv8>>): seq<bv8>
    requires AllWellFormed(fs)
  {
    if |fs| == 0 then []
    else
      EncodeAll(fs[..|fs| - 1]) + Encode(fs[|fs| - 1])
  }

  /** A data byte goes in as itself, doubled or not. */
  lemma FeedData(d: Decoder, b: bv8)
    requires d.state == Accumulate
    ensures FeedAll(d, if b == ESCAPE then [ESCAPE, ESCAPE] else [b]) == Append(d, b)
  {
    if b == ESCAPE {
      FeedSnoc(d, [ESCAPE], ESCAPE);
      FeedOne(d, ESCAPE);
      assert [ESCAPE] + [ESCAPE] == [ESCAPE, ESCAPE];
    } else {
      FeedOne(d, b);
    }
  }

  lemma DoubledFirst(s: seq<bv8>)
    requires |s| > 0
    ensures Double(s) == (if s[0] == ESCAPE then [ESCAPE, ESCAPE] else [s[0]]) + Double(s[1..])
  {
  }

  lemma {:induction false} FeedDoubled(d: Decoder, s: seq<bv8>)
    requires d.state == Accumulate && |s| > 0 && |d.frame| + |s| == d.total
    ensures FeedAll(d, Double(s)) == Run(Decoder(WaitStart, d.frame + s, d.total), [d.frame + s])
    decreases |s|
  {
    var first, rest := if s[0] == ESCAPE then [ESCAPE, ESCAPE] else [s[0]], Double(s[1..]);
    FeedData(d, s[0]);
    DoubledFirst(s);
    if |s| == 1 {
      assert s == [s[0]] && first + rest == first;
    } else {
      var mid := Decoder(Accumulate, d.frame + [s[0]], d.total);
      assert Append(d, s[0]) == Run(mid, []);
      FeedDoubled(mid, s[1..]);
      ThenRest(d, first, rest, mid);
      assert mid.frame + s[1..] == d.frame + s;
    }
  }

  /** What delivers nothing only prepares the decoder for the rest. */
  lemma ThenRest(d: Decoder, first: seq<bv8>, rest: seq<bv8>, mid: Decoder)
    requires FeedAll(d, first) == Run(mid, [])
    ensures FeedAll(d, first + rest) == FeedAll(mid, rest)
  {
    FeedConcat(d, first, rest);
    assert [] + FeedAll(mid, rest).sent == FeedAll(mid, rest).sent;
  }

  /** An escape and a type begin a frame from every state in which no escape is pending. */
  lemma HeadStarts(d: Decoder, b: bv8)
    requires d.state != AccumulateEsc && IsType(b)
    ensures FeedAll(d, [ESCAPE] + [b]) == Run(Decoder(Accumulate, [b], FrameSize(b)), [])
  {
    FeedOne(d, ESCAPE);
    FeedSnoc(d, [ESCAPE], b);
  }

  /** An encoded frame is decoded from every state in which no escape is pending; a frame cut short is dropped. */
  lemma DecodeOne(d: Decoder, f: seq<bv8>)
    requires d.state != AccumulateEsc && WellFormed(f)
    ensures FeedAll(d, Encode(f)) == Run(Decoder(WaitStart, f, |f|), [f])
  {
    var started := Decoder(Accumulate, [f[0]], FrameSize(f[0]));
    HeadStarts(d, f[0]);
    ThenRest(d, [ESCAPE] + [f[0]], Double(f[1..]), started);
    FeedDoubled(started, f[1..]);
    assert [f[0]] + f[1..] == f;
  }

  /** Decoding the encoding of any list of frames returns exactly those frames. */
  lemma {:induction false} RoundTrip(d: Decoder, fs: seq<seq<bv8>>)
    requires d.state != AccumulateEsc && AllWellFormed(fs)
    ensures FeedAll(d, EncodeAll(fs)).sent == fs
    ensures FeedAll(d, EncodeAll(fs)).decoder.state == if |fs| == 0 then d.state else WaitStart
  {
    if |fs| != 0 {
      var fs', last := fs[..|fs| - 1], fs[|fs| - 1];
      assert fs == fs' + [last];
      RoundTrip(d, fs');
      var r := FeedAll(d, EncodeAll(fs'));
      DecodeOne(r.decoder, last);
      FeedConcat(d, EncodeAll(fs'), Encode(last));
    }
  }

  /** An escape with something behind it that is neither an escape nor a type drops the frame begun. */
  lemma BadTypeDropped(d: Decoder, b: bv8)
    requires d.state != AccumulateEsc && b !in {0x1A, 0x31, 0x32, 0x33}
    ensures FeedAll(d, [0x1A, b]).sent == [] && FeedAll(d, [0x1A, b]).decoder.state == WaitStart
  {
    assert [ESCAPE] + [b] == [0x1A, b];
    FeedOne(d, ESCAPE);
    FeedSnoc(d, [ESCAPE], b);
  }

  lemma NoiseThenFrame(d: Decoder, noise: seq<bv8>, f: seq<bv8>)
    requires d.state == WaitStart && 0x1A !in noise && WellFormed(f)
    ensures FeedAll(d, noise + Encode(f)) == Run(Decoder(WaitStart, f, |f|), [f])
  {
    SkipNoise(d, noise);
    DecodeOne(d, f);
    ThenRest(d, noise, Encode(f), d);
  }

  /** Frames with noise in front of each. */
  function EncodeNoisy(fs: seq<seq<bv8>>, noise: seq<seq<bv8>>): seq<bv8>
    requires AllWellFormed(fs) && |noise| == |fs|
  {
    if |fs| == 0 then []
    else
      var n := |fs| - 1;
      EncodeNoisy(fs[..n], noise[..n]) + (noise[n] + Encode(fs[n]))
  }

  /** Bytes between frames are skipped, as long as there is no escape among them. */
  lemma {:induction false} NoiseSkipped(fs: seq<seq<bv8>>, noise: seq<seq<bv8>>)
    requires AllWellFormed(fs) && |noise| == |fs| && forall i :: 0 <= i < |noise| ==> 0x1A !in noise[i]
    ensures FeedAll(INIT, EncodeNoisy(fs, noise)).sent == fs
    ensures FeedAll(INIT, EncodeNoisy(fs, noise)).decoder.state == WaitStart
  {
    if |fs| != 0 {
      var n := |fs| - 1;
      var before, last := fs[..n], fs[n];
      assert fs == before + [last];
      var text := EncodeNoisy(before, noise[..n]);
      NoiseSkipped(before, noise[..n]);
      NoiseThenFrame(FeedAll(INIT, text).decoder, noise[n], last);
      FeedConcat(INIT, text, noise[n] + Encode(last));
    }
  }

  // ---------------------------------------------------------------- the decoder itself

  class Beast {
    const frameBuf: array<bv8>
    var framePos: nat
    var frameTotal: nat
    var state: State
    // every byte received, and the frames handed to process_frame
    ghost var heard: seq<bv8>
    var sent: seq<seq<bv8>>

    ghost predicate Valid()
      reads this, frameBuf
    {
      && frameBuf.Length == 24
      && framePos <= frameTotal <= 22
      && FeedAll(INIT, heard) == Run(Current(), sent)
      && Bounded(Current())
    }

    ghost function Current(): Decoder
      requires framePos <= frameBuf.Length
      reads this, frameBuf
    {
      Decoder(state, frameBuf[..framePos], frameTotal)
    }

    constructor ()
      ensures Valid() && heard == [] && sent == []
    {
      frameBuf := new bv8[24];
      framePos, frameTotal, state := 0, 0, WaitStart;
      heard, sent := [], [];
    }

    /** Encoded frames come out as they went in, whatever the pieces in which they arrived. */
    lemma Decodes(fs: seq<seq<bv8>>)
      requires Valid() && AllWellFormed(fs) && heard == EncodeAll(fs)
      ensures sent == fs
    {
      RoundTrip(INIT, fs);
    }

    /** Source/Aviation/Beast.cpp:116-126 */
    method StartFrame(frameType: bv8) returns (ok: bool)
      requires frameBuf.Length == 24
      modifies this`framePos, this`frameTotal, this`state, frameBuf
      ensures ok == IsType(frameType)
      ensures if ok then
                framePos == 1 && frameBuf[0] == frameType && frameTotal == FrameSize(frameType) && state == Accumulate
              else
                framePos == old(framePos) && frameTotal == old(frameTotal) && state == old(state)
                && frameBuf[..] == old(frameBuf[..])
    {
      if frameType < 0x31 || frameType > 0x33 {
        return false;
      }
      TypeRange(frameType);
      frameBuf[0] := frameType;
      framePos := 1;
      frameTotal := FrameSize(frameType);
      state := Accumulate;
      return true;
    }

    /** Source/Aviation/Beast.cpp:128-136; process_frame reads the first frameTotal bytes. */
    method FrameDone() returns (done: bool)
      requires framePos <= frameTotal <= frameBuf.Length
      modifies this`state, this`sent
      ensures done == (framePos == frameTotal)
      ensures state == (if done then WaitStart else old(state))
      ensures sent == (if done then old(sent) + [frameBuf[..framePos]] else old(sent))
    {
      if framePos != frameTotal {
        return false;
      }
      sent := sent + [frameBuf[..frameTotal]];
      state := WaitStart;
      return true;
    }

    static method NextEscape(input: seq<bv8>, start: nat) returns (src: nat)
      requires start <= |input|
      ensures start <= src <= |input| && ESCAPE !in input[start..src]
      ensures src < |input| ==> input[src] == ESCAPE
    {
      src := start;
      while src < |input| && input[src] != ESCAPE
        invariant start <= src <= |input| && ESCAPE !in input[start..src]
      {
        SliceOne(input, start, src);
        src := src + 1;
      }
    }

    /** WAIT_START: memchr to the next escape, Source/Aviation/Beast.cpp:171-177. */
    method SeekStart(input: seq<bv8>, start: nat) returns (src: nat)
      requires Valid() && state == WaitStart && start <= |input|
      modifies this
      ensures Valid() && start <= src <= |input| && heard == old(heard) + input[start..src]
      ensures state == WaitType || src == |input|
      ensures start < |input| ==> start < src
    {
      src := NextEscape(input, start);
      Skip(input[start..src]);
      if src < |input| {
        ghost var was, noise := old(heard), input[start..src];
        SliceOne(input, start, src);
        Regroup(was, noise, [ESCAPE]);
        TakeEscape(WaitType);
        src := src + 1;
      }
    }

    /** Bytes without an escape are passed over in WAIT_START. */
    ghost method Skip(noise: seq<bv8>)
      requires Valid() && state == WaitStart && ESCAPE !in noise
      modifies `heard
      ensures Valid() && heard == old(heard) + noise
    {
      SkipNoise(Current(), noise);
      FeedMore(heard, noise, Current(), sent);
      heard := heard + noise;
    }

    /** An escape seen in WAIT_START or ACCUMULATE only changes the state. */
    method TakeEscape(next: State)
      requires Valid() && (state == WaitStart || state == Accumulate)
      requires next == if state == WaitStart then WaitType else AccumulateEsc
      modifies this`state, this`heard
      ensures Valid() && heard == old(heard) + [ESCAPE] && state == next
    {
      FeedOne(Current(), ESCAPE);
      FeedMore(heard, [ESCAPE], Current(), sent);
      heard := heard + [ESCAPE];
      state := next;
    }

    /** WAIT_TYPE: one byte, Source/Aviation/Beast.cpp:179-189. */
    method TakeType(b: bv8)
      requires Valid() && state == WaitType
      modifies this, frameBuf
      ensures Valid() && heard == old(heard) + [b] && state != AccumulateEsc
    {
      FeedOne(Current(), b);
      FeedMore(heard, [b], Current(), sent);
      heard := heard + [b];
      var ok := StartFrame(b);
      if ok {
        assert frameBuf[..framePos] == [b];
      } else if b != ESCAPE {
        state := WaitStart;
      }
    }

    /** ACCUMULATE: fill the frame; an escape that stops it is consumed, Source/Aviation/Beast.cpp:191-227. */
    method TakeData(input: seq<bv8>, start: nat) returns (src: nat)
      requires Valid() && state == Accumulate && start < |input|
      modifies this, frameBuf
      ensures Valid() && start < src <= |input| && heard == old(heard) + input[start..src]
      ensures state == WaitStart || state == AccumulateEsc || src == |input|
    {
      var done;
      src, done := FillAndSend(input, start);
      if !done && src < |input| {
        TakeEscape(AccumulateEsc);
        src := src + 1;
        SliceOne(input, start, src - 1);
      }
    }

    method FillAndSend(input: seq<bv8>, start: nat) returns (src: nat, done: bool)
      requires Valid() && state == Accumulate && start < |input|
      modifies this, frameBuf
      ensures Valid() && start <= src <= |input| && heard == old(heard) + input[start..src]
      ensures if done then state == WaitStart && start < src
              else state == Accumulate && (src == |input| || input[src] == ESCAPE)
    {
      ghost var d := Current();
      src := Fill(input, start);
      FillFrame(d, input[start..src]);
      FeedMore(heard, input[start..src], d, sent);
      heard := heard + input[start..src];
      done := FrameDone();
    }

    /** ACCUMULATE_ESC: one byte, Source/Aviation/Beast.cpp:229-239. */
    method TakeEscaped(b: bv8)
      requires Valid() && state == AccumulateEsc
      modifies this, frameBuf
      ensures Valid() && heard == old(heard) + [b]
    {
      if b == ESCAPE {
        TakeDoubled();
      } else {
        TakeRestart(b);
      }
    }

    /** The second of two escapes is a data byte. */
    method TakeDoubled()
      requires Valid() && state == AccumulateEsc
      modifies this, frameBuf
      ensures Valid() && heard == old(heard) + [ESCAPE]
    {
      ghost var d, bytes := Current(), heard;
      FeedOne(d, ESCAPE);
      FeedMore(bytes, [ESCAPE], d, sent);
      frameBuf[framePos] := ESCAPE;
      framePos := framePos + 1;
      assert frameBuf[..framePos] == d.frame + [ESCAPE];
      state := Accumulate;
      var done := FrameDone();
      heard := bytes + [ESCAPE];
    }

    /** An escape followed by anything else ends the frame, and may start the next. */
    method TakeRestart(b: bv8)
      requires Valid() && state == AccumulateEsc && b != ESCAPE
      modifies this, frameBuf
      ensures Valid() && heard == old(heard) + [b]
    {
      ghost var d, bytes := Current(), heard;
      FeedOne(d, b);
      FeedMore(bytes, [b], d, sent);
      heard := bytes + [b];
      var ok := StartFrame(b);
      if ok {
        assert frameBuf[..framePos] == [b];
      } else {
        state := WaitStart;
      }
    }

    /** The first two states of one pass of the loop, Source/Aviation/Beast.cpp:171-189. */
    method FindFrame(input: seq<bv8>, start: nat) returns (src: nat)
      requires Valid() && start < |input|
      modifies this, frameBuf
      ensures Valid() && start <= src <= |input| && heard == old(heard) + input[start..src]
      ensures src == start ==> state == Accumulate || state == AccumulateEsc
    {
      src := start;
      if state == WaitStart {
        src := SeekStart(input, src);
      }
      if state == WaitType && src < |input| {
        TakeType(input[src]);
        src := src + 1;
        SliceOne(input, start, src - 1);
      }
    }

    /** The other two states, Source/Aviation/Beast.cpp:191-239. */
    method FillFrames(input: seq<bv8>, start: nat) returns (src: nat)
      requires Valid() && start < |input| && (state == Accumulate || state == AccumulateEsc)
      modifies this, frameBuf
      ensures Valid() && start < src <= |input| && heard == old(heard) + input[start..src]
    {
      src := start;
      if state == Accumulate {
        src := TakeData(input, src);
      }
      if state == AccumulateEsc && src < |input| {
        TakeEscaped(input[src]);
        src := src + 1;
        SliceOne(input, start, src - 1);
      }
    }

    /** One turn of the loop: up to a frame, and through what there is of it. */
    method Round(input: seq<bv8>, start: nat) returns (src: nat)
      requires Valid() && start < |input|
      modifies this, frameBuf
      ensures Valid() && start < src <= |input| && heard == old(heard) + input[start..src]
    {
      src := FindFrame(input, start);
      if src < |input| && (state == Accumulate || state == AccumulateEsc) {
        ghost var was := src;
        src := FillFrames(input, src);
        Slices(input, start, was, src);
      }
    }

    /** Source/Aviation/Beast.cpp:160-242: after any sequence of calls, what was sent is what the automaton sends. */
    method Receive(input: seq<bv8>)
      requires Valid()
      modifies this, frameBuf
      ensures Valid() && heard == old(heard) + input
    {
      var src := 0;
      while src < |input|
        invariant src <= |input| && Valid() && heard == old(heard) + input[0..src]
        decreases |input| - src
      {
        ghost var was := src;
        src := Round(input, src);
        Slices(input, 0, was, src);
      }
      assert input[0..src] == input;
    }

    /** The word loop of Source/Aviation/Beast.cpp:203-219: to the first word with an escape in it. */
    method CopyWords(input: seq<bv8>, start: nat, stop: nat) returns (src: nat)
      requires frameBuf.Length == 24 && start <= stop <= |input| && framePos + (stop - start) <= 22
      modifies frameBuf
      ensures start <= src <= stop && ESCAPE !in input[start..src]
      ensures frameBuf[..framePos + (src - start)] == old(frameBuf[..framePos]) + input[start..src]
    {
      src := start;
      var found := false;
      while !found && src + 8 <= stop
        invariant start <= src <= stop && ESCAPE !in input[start..src]
        invariant frameBuf[..framePos + (src - start)] == old(frameBuf[..framePos]) + input[start..src]
        decreases !found, stop - src
      {
        var step;
        step, found := NextWord(input, src, framePos + (src - start));
        Slices(input, start, src, src + step);
        src := src + step;
      }
    }

    /**
      The copy loops of Source/Aviation/Beast.cpp:192-222: up to the next escape, the frame's end or the
      chunk's end.
    */
    method Fill(input: seq<bv8>, start: nat) returns (src: nat)
      requires frameBuf.Length == 24 && framePos <= frameTotal <= 22 && start <= |input|
      modifies this`framePos, frameBuf
      ensures start <= src <= |input| && framePos == old(framePos) + (src - start) <= frameTotal
      ensures ESCAPE !in input[start..src]
      ensures frameBuf[..framePos] == old(frameBuf[..framePos]) + input[start..src]
      ensures framePos == frameTotal || src == |input| || input[src] == ESCAPE
    {
      var need := frameTotal - framePos;
      var have := |input| - start;
      var stop := start + if need < have then need else have;
      src := CopyWords(input, start, stop);
      var dst := framePos + (src - start);
      while src < stop && input[src] != ESCAPE
        invariant start <= src <= stop && dst == framePos + (src - start) && framePos == old(framePos)
        invariant ESCAPE !in input[start..src]
        invariant frameBuf[..dst] == old(frameBuf[..framePos]) + input[start..src]
      {
        frameBuf[dst] := input[src];
        SliceOne(input, start, src);
        dst := dst + 1;
        src := src + 1;
      }
      framePos := dst;
    }

    /** Copies a word and finds the first escape in it: what to advance by, and whether to stop there. */
    method NextWord(input: seq<bv8>, src: nat, dst: nat) returns (step: nat, found: bool)
      requires src + 8 <= |input| && dst + 8 <= frameBuf.Length
      modifies frameBuf
      ensures step <= 8 && (found ==> step < 8 && input[src + step] == ESCAPE) && (!found ==> step == 8)
      ensures ESCAPE !in input[src..src + step]
      ensures frameBuf[..dst + step] == old(frameBuf[..dst]) + input[src..src + step]
    {
      CopyWord(input, src, dst);
      var hit := HasByte(Load(input[src..src + 8]), Mask(ESCAPE));
      FindEscape(input, src);
      found := hit != 0;
      step := if found then FirstByte(hit) else 8;
      LongerPrefix(frameBuf[..], dst, input[src..src + 8], step);
      SliceOfSlice(input, src, src + 8, step);
    }

    /** The memcpy of one word; it may write bytes past the next escape, which are overwritten or never read. */
    method CopyWord(input: seq<bv8>, src: nat, dst: nat)
      requires src + 8 <= |input| && dst + 8 <= frameBuf.Length
      modifies frameBuf
      ensures frameBuf[..dst] == old(frameBuf[..dst])
      ensures frameBuf[dst..dst + 8] == input[src..src + 8]
    {
      forall k | 0 <= k < 8 {
        frameBuf[dst + k] := input[src + k];
      }
    }
  }

  lemma FeedMore(s: seq<bv8>, t: seq<bv8>, d: Decoder, sent: seq<seq<bv8>>)
    requires FeedAll(INIT, s) == Run(d, sent)
    ensures FeedAll(INIT, s + t) == Run(FeedAll(d, t).decoder, sent + FeedAll(d, t).sent)
  {
    FeedConcat(INIT, s, t);
  }

  lemma LongerPrefix<T>(buffer: seq<T>, dst: nat, word: seq<T>, step: nat)
    requires step <= |word| && dst + |word| <= |buffer| && buffer[dst..dst + |word|] == word
    ensures buffer[..dst + step] == buffer[..dst] + word[..step]
  {
    assert buffer[dst..dst + |word|][..step] == buffer[dst..dst + step];
  }

  lemma TypeRange(b: bv8)
    ensures 0x31 <= b <= 0x33 <==> IsType(b)
  {
  }

  /** What the word search says about the input at src. */
  lemma FindEscape(input: seq<bv8>, src: nat)
    requires src + 8 <= |input|
    ensures var hit := HasByte(Load(input[src..src + 8]), Mask(ESCAPE));
            if hit == 0 then ESCAPE !in input[src..src + 8]
            else FirstByte(hit) < 8 && ESCAPE !in input[src..src + FirstByte(hit)]
                 && input[src + FirstByte(hit)] == ESCAPE
  {
    var s := input[src..src + 8];
    var k := FirstTrue(Matches(s, ESCAPE));
    FindInWord(s, ESCAPE);
    assert input[src..src + k] == s[..k];
    if k < 8 {
      assert s[k] == ESCAPE;
    }
    assert forall j :: 0 <= j < k ==> s[j] != ESCAPE;
  }
}
