/**
  Streams cut into frames by a parser that looks at a prefix: shared by the MQTT and the WebSocket
  layer, which both keep the bytes of an unfinished frame until the network delivers the rest.
*/
module Framing {
  import opened Bytes
  import opened Seqs

  /** What a parser finds at the front of some bytes. A complete frame comes with the bytes behind it. */
  datatype Parsed<F> = Incomplete | Refused | Complete(frame: F, rest: seq<byte>)

  datatype Parser<!F> = Parser(parse: seq<byte> -> Parsed<F>)

  /** A frame has bytes, and what was found stays the same when more bytes arrive. */
  ghost predicate Stable<F(!new)>(P: Parser<F>) {
    && P.parse([]).Incomplete?
    && (forall b :: P.parse(b).Complete? ==> |P.parse(b).rest| < |b|)
    && (forall b, more :: P.parse(b).Complete? ==>
          P.parse(b + more) == Complete(P.parse(b).frame, P.parse(b).rest + more))
    && (forall b, more :: P.parse(b).Refused? ==> P.parse(b + more).Refused?)
  }

  /** The complete frames of a stream, the bytes behind them, and whether those are refused. */
  datatype Stream<F> = Stream(frames: seq<F>, rest: seq<byte>, bad: bool)

  ghost function Frames<F(!new)>(P: Parser<F>, b: seq<byte>): Stream<F>
    requires Stable(P)
    decreases |b|
  {
    match P.parse(b)
    case Incomplete => Stream([], b, false)
    case Refused => Stream([], b, true)
    case Complete(f, rest) => var s := Frames(P, rest); Stream([f] + s.frames, s.rest, s.bad)
  }

  ghost function Behind<F>(frames: seq<F>, s: Stream<F>): Stream<F> {
    Stream(frames + s.frames, s.rest, s.bad)
  }

  /** Where a stream is cut into pieces makes no difference. */
  lemma {:induction false} FramesMore<F(!new)>(P: Parser<F>, b: seq<byte>, more: seq<byte>)
    requires Stable(P) && !Frames(P, b).bad
    ensures Frames(P, b + more) == Behind(Frames(P, b).frames, Frames(P, Frames(P, b).rest + more))
    decreases |b|
  {
    if P.parse(b).Complete? {
      var f, rest := P.parse(b).frame, P.parse(b).rest;
      var first, last := Frames(P, rest), Frames(P, Frames(P, rest).rest + more);
      FramesMore(P, rest, more);
      assert P.parse(b + more) == Complete(f, rest + more);
      Regroup([f], first.frames, last.frames);
    } else {
      var whole := Frames(P, b + more);
      assert [] + whole.frames == whole.frames;
    }
  }

  /** A stream that was refused stays refused, with the same frames. */
  lemma {:induction false} BadMore<F(!new)>(P: Parser<F>, b: seq<byte>, more: seq<byte>)
    requires Stable(P) && Frames(P, b).bad
    ensures Frames(P, b + more).bad && Frames(P, b + more).frames == Frames(P, b).frames
    decreases |b|
  {
    match P.parse(b)
    case Incomplete =>
    case Refused =>
    case Complete(f, rest) =>
      BadMore(P, rest, more);
  }

  /** Some frames have been taken off the front of what was heard, and `left` is what is left, now and later. */
  ghost predicate Ahead<F(!new)>(P: Parser<F>, heard: seq<byte>, handled: seq<F>, left: seq<byte>)
    requires Stable(P)
  {
    forall more :: Frames(P, heard + more) == Behind(handled, Frames(P, left + more))
  }

  lemma AheadAtStart<F(!new)>(P: Parser<F>)
    requires Stable(P)
    ensures Ahead(P, [], [], [])
  {
    forall more
      ensures Frames(P, [] + more) == Behind([], Frames(P, [] + more))
    {
      assert [] + Frames(P, [] + more).frames == Frames(P, [] + more).frames;
    }
  }

  lemma AheadAppend<F(!new)>(P: Parser<F>, heard: seq<byte>, handled: seq<F>, left: seq<byte>, chunk: seq<byte>)
    requires Stable(P) && Ahead(P, heard, handled, left)
    ensures Ahead(P, heard + chunk, handled, left + chunk)
  {
    forall more
      ensures Frames(P, heard + chunk + more) == Behind(handled, Frames(P, left + chunk + more))
    {
      ghost var all := chunk + more;
      assert heard + chunk + more == heard + all && left + chunk + more == left + all;
      assert Frames(P, heard + all) == Behind(handled, Frames(P, left + all));
    }
  }

  lemma AheadNext<F(!new)>(P: Parser<F>, heard: seq<byte>, handled: seq<F>, left: seq<byte>)
    requires Stable(P) && Ahead(P, heard, handled, left) && P.parse(left).Complete?
    ensures Ahead(P, heard, handled + [P.parse(left).frame], P.parse(left).rest)
  {
    var f, rest := P.parse(left).frame, P.parse(left).rest;
    forall more
      ensures Frames(P, heard + more) == Behind(handled + [f], Frames(P, rest + more))
    {
      assert P.parse(left + more) == Complete(f, rest + more);
      var s := Frames(P, rest + more);
      assert handled + ([f] + s.frames) == handled + [f] + s.frames;
    }
  }

  lemma AheadNow<F(!new)>(P: Parser<F>, heard: seq<byte>, handled: seq<F>, left: seq<byte>)
    requires Stable(P) && Ahead(P, heard, handled, left)
    ensures Frames(P, heard) == Behind(handled, Frames(P, left))
  {
    assert heard + [] == heard && left + [] == left;
  }

  /** `wires` are the bytes of `frames`, whatever follows them. */
  ghost predicate Spells<F(!new)>(P: Parser<F>, wires: seq<seq<byte>>, frames: seq<F>) {
    && |wires| == |frames|
    && forall i, more :: 0 <= i < |wires| ==> P.parse(wires[i] + more) == Complete(frames[i], more)
  }

  /** The bytes of a list of frames are cut into just those frames. */
  lemma {:induction false} RoundTrip<F(!new)>(P: Parser<F>, wires: seq<seq<byte>>, frames: seq<F>)
    requires Stable(P) && Spells(P, wires, frames)
    ensures Frames(P, Flat(wires)) == Stream(frames, [], false)
  {
    if wires != [] {
      SpellsRest(P, wires, frames);
      FlatFirst(wires);
      RoundTrip(P, wires[1..], frames[1..]);
      assert P.parse(wires[0] + Flat(wires[1..])) == Complete(frames[0], Flat(wires[1..]));
    }
  }

  /** Of a stream of frames with at most n bytes each, never as many as n bytes wait for their frame to be complete. */
  lemma {:induction false} NeverFills<F(!new)>(P: Parser<F>, wires: seq<seq<byte>>, frames: seq<F>, b: seq<byte>,
                                               future: seq<byte>, n: nat)
    requires Stable(P) && Spells(P, wires, frames) && b + future == Flat(wires)
    requires n > 0 && forall i :: 0 <= i < |wires| ==> |wires[i]| <= n
    ensures !Frames(P, b).bad && |Frames(P, b).rest| < n
    decreases |wires|
  {
    if wires == [] {
      assert b == [];
    } else {
      var w, tail := wires[0], Flat(wires[1..]);
      FlatFirst(wires);
      assert P.parse(w + tail) == Complete(frames[0], tail);
      if |b| < |w| {
        CutShort(P, b, future, w, tail, frames[0]);
      } else {
        var left := CutBehind(b, future, w, tail);
        assert P.parse(b) == Complete(frames[0], left);
        SpellsRest(P, wires, frames);
        NeverFills(P, wires[1..], frames[1..], left, future, n);
      }
    }
  }

  lemma CutBehind(b: seq<byte>, future: seq<byte>, w: seq<byte>, tail: seq<byte>) returns (left: seq<byte>)
    requires b + future == w + tail && |b| >= |w|
    ensures b == w + left && left + future == tail
  {
    left := b[|w|..];
    assert b[..|w|] == (b + future)[..|w|] == w && (b + future)[|w|..] == tail;
  }

  lemma SpellsRest<F(!new)>(P: Parser<F>, wires: seq<seq<byte>>, frames: seq<F>)
    requires wires != [] && Spells(P, wires, frames)
    ensures Spells(P, wires[1..], frames[1..])
  {
    forall i, more | 0 <= i < |wires[1..]|
      ensures P.parse(wires[1..][i] + more) == Complete(frames[1..][i], more)
    {
      assert wires[1..][i] == wires[i + 1];
    }
  }

  /** A part of a frame is neither complete nor refused. */
  lemma CutShort<F(!new)>(P: Parser<F>, b: seq<byte>, future: seq<byte>, w: seq<byte>, tail: seq<byte>, f: F)
    requires Stable(P) && b + future == w + tail && |b| < |w| && P.parse(w + tail) == Complete(f, tail)
    ensures P.parse(b).Incomplete?
  {
    assert P.parse(b + future) == Complete(f, tail);
  }
}
