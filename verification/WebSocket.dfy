/**
  The WebSocket layer of Protocol.cpp: frames are built with a masking key and parsed in place from
  a buffer that the network fills in pieces of any size.
*/
module WebSocket {
  import opened Bytes
  import opened Framing
  import opened Seqs

  const MAX_PACKET_SIZE := 16384
  const CONTINUATION := 0
  const TEXT := 1
  const BINARY := 2
  const CLOSE := 8
  const PING := 9
  const PONG := 10

  /** A frame as the receiver sees it, with its payload unmasked. */
  datatype Frame = Frame(opcode: nat, payload: seq<byte>)

  /** Masking and unmasking are the same: byte i is combined with key byte i mod 4. */
  function Masked(s: seq<byte>, key: seq<byte>): (r: seq<byte>)
    requires |key| == 4
    ensures |r| == |s|
    ensures forall i :: 0 <= i < |s| ==> r[i] == Xor(s[i], key[i % 4])
  {
    if s == [] then [] else Masked(s[..|s| - 1], key) + [Xor(s[|s| - 1], key[(|s| - 1) % 4])]
  }

  lemma MaskedTwice(s: seq<byte>, key: seq<byte>)
    requires |key| == 4
    ensures Masked(Masked(s, key), key) == s
  {
    forall i | 0 <= i < |s|
      ensures Masked(Masked(s, key), key)[i] == s[i]
    {
      XorTwice(s[i], key[i % 4]);
    }
  }

  // ---------- sending ----------

  /** A length is in the second byte itself, or in two or eight bytes behind it. */
  predicate WidthFits(length: nat, width: nat) {
    || (width == 0 && length <= 125)
    || (width == 2 && length < 0x1_0000)
    || (width == 8 && length < 0x1_0000_0000_0000_0000)
  }

  /** Second and further header bytes: the mask bit, and the length in `width` bytes of its own. */
  function LengthField(length: nat, width: nat, mask: bool): (r: seq<byte>)
    requires WidthFits(length, width)
    ensures |r| == 1 + width
  {
    var bit := if mask then 128 else 0;
    if width == 0 then [bit + length]
    else if width == 2 then [bit + 126] + BigEndian(length, 2)
    else [bit + 127] + BigEndian(length, 8)
  }

  /** A message: how wide its length is written, and its masking key, which a server leaves out. */
  datatype Message = Message(opcode: nat, payload: seq<byte>, width: nat, key: seq<byte>)

  predicate Sendable(m: Message) {
    m.opcode < 16 && |m.payload| <= MAX_PACKET_SIZE && WidthFits(|m.payload|, m.width) && (m.key == [] || |m.key| == 4)
  }

  /** The payload as it is on the wire. */
  function Shown(m: Message): (r: seq<byte>)
    requires Sendable(m)
    ensures |r| == |m.payload|
  {
    if m.key == [] then m.payload else Masked(m.payload, m.key)
  }

  /** The frame of a message, from a client with a masking key or from a server without one. */
  function Wire(m: Message): (r: seq<byte>)
    requires Sendable(m)
    ensures |r| == 2 + m.width + |m.key| + |m.payload|
  {
    [128 + m.opcode] + (LengthField(|m.payload|, m.width, m.key != []) + (m.key + Shown(m)))
  }

  /** The width of the length of a message that may be sent. */
  function Width(length: nat): nat {
    if length <= 125 then 0 else 2
  }

  /** The message of a client's frame: the shortest length field, and a key. */
  function Sent(opcode: nat, payload: seq<byte>, key: seq<byte>): (m: Message)
    requires opcode < 16 && |payload| <= MAX_PACKET_SIZE && |key| == 4
    ensures Sendable(m)
  {
    Message(opcode, payload, Width(|payload|), key)
  }

  // ---------- parsing ----------

  /** The length and the bytes behind it; no value when more bytes are needed. */
  datatype Length = Short | Length(value: nat, rest: seq<byte>)

  function LengthOf(b: seq<byte>): (l: Length)
    requires |b| >= 2
    ensures l.Length? ==> |l.rest| <= |b| - 2
  {
    var seven := b[1] % 128;
    if seven == 126 then if |b| < 4 then Short else Length(Number(b[2..4]), b[4..])
    else if seven == 127 then if |b| < 10 then Short else Length(Number(b[2..10]), b[10..])
    else Length(seven, b[2..])
  }

  /** The masking key, if there is one, and the payload. */
  function Content(opcode: nat, mask: bool, length: nat, b: seq<byte>): (p: Parsed<Frame>)
    ensures p.Complete? ==> |p.frame.payload| + |p.rest| <= |b|
  {
    if length > MAX_PACKET_SIZE then Refused
    else if !mask then
      if |b| < length then Incomplete else Complete(Frame(opcode, b[..length]), b[length..])
    else if |b| < 4 + length then Incomplete
    else Complete(Frame(opcode, Masked(b[4..][..length], b[..4])), b[4..][length..])
  }

  function Parse(b: seq<byte>): (p: Parsed<Frame>)
    ensures p.Complete? ==> |p.frame.payload| + |p.rest| <= |b| - 2
  {
    if |b| < 2 then Incomplete
    else
      match LengthOf(b)
      case Short => Incomplete
      case Length(length, rest) => Content(b[0] % 16, b[1] >= 128, length, rest)
  }

  lemma LengthMore(b: seq<byte>, more: seq<byte>)
    requires |b| >= 2 && LengthOf(b).Length?
    ensures LengthOf(b + more) == Length(LengthOf(b).value, LengthOf(b).rest + more)
  {
    var c := b + more;
    assert c[1] == b[1];
    if b[1] % 128 == 126 {
      assert c[2..4] == b[2..4] && c[4..] == b[4..] + more;
    } else if b[1] % 128 == 127 {
      assert c[2..10] == b[2..10] && c[10..] == b[10..] + more;
    } else {
      assert c[2..] == b[2..] + more;
    }
  }

  lemma ContentMore(opcode: nat, mask: bool, length: nat, b: seq<byte>, more: seq<byte>)
    requires Content(opcode, mask, length, b).Complete?
    ensures var p := Content(opcode, mask, length, b);
      Content(opcode, mask, length, b + more) == Complete(p.frame, p.rest + more)
  {
    var c := b + more;
    if mask {
      assert c[4..] == b[4..] + more && c[..4] == b[..4];
      assert c[4..][..length] == b[4..][..length] && c[4..][length..] == b[4..][length..] + more;
    } else {
      assert c[..length] == b[..length] && c[length..] == b[length..] + more;
    }
  }

  /** A frame that is complete stays the same when more bytes arrive, and so does one that is too long. */
  lemma ParseMore(b: seq<byte>, more: seq<byte>)
    ensures Parse(b).Complete? ==> Parse(b + more) == Complete(Parse(b).frame, Parse(b).rest + more)
    ensures Parse(b).Refused? ==> Parse(b + more).Refused?
  {
    if |b| >= 2 && LengthOf(b).Length? {
      LengthMore(b, more);
      var l := LengthOf(b);
      if Parse(b).Complete? {
        ContentMore(b[0] % 16, b[1] >= 128, l.value, l.rest, more);
      }
    }
  }

  lemma Cuts(head: seq<byte>, middle: seq<byte>, rest: seq<byte>)
    ensures (head + (middle + rest))[|head|..|head| + |middle|] == middle
    ensures (head + (middle + rest))[|head| + |middle|..] == rest
  {
  }

  /** A length in n bytes behind the two bytes of the header. */
  lemma LongLength(first: byte, second: byte, length: nat, n: nat, rest: seq<byte>)
    requires (second % 128 == 126 && n == 2) || (second % 128 == 127 && n == 8)
    requires length < Capacity(n)
    ensures LengthOf([first, second] + (BigEndian(length, n) + rest)) == Length(length, rest)
  {
    Cuts([first, second], BigEndian(length, n), rest);
    NumberOfBigEndian(length, n);
  }

  lemma LengthOfField(first: byte, length: nat, width: nat, mask: bool, rest: seq<byte>)
    requires WidthFits(length, width)
    ensures var b := [first] + (LengthField(length, width, mask) + rest);
      |b| >= 2 && b[0] == first && (b[1] >= 128 <==> mask) && LengthOf(b) == Length(length, rest)
  {
    var bit := if mask then 128 else 0;
    var b := [first] + (LengthField(length, width, mask) + rest);
    if width == 0 {
      assert b[1] == bit + length && b[2..] == rest;
    } else {
      Capacities();
      var second: byte := bit + if width == 2 then 126 else 127;
      var own := BigEndian(length, width);
      Regroup([second], own, rest);
      Regroup([first], [second], own + rest);
      assert [first] + [second] == [first, second];
      LongLength(first, second, length, width, rest);
    }
  }

  lemma Capacities()
    ensures Capacity(2) == 0x1_0000 && Capacity(8) == 0x1_0000_0000_0000_0000
  {
    assert Capacity(1) == 256 && Capacity(4) == 0x1_0000_0000 && Capacity(6) == 0x1_0000_0000_0000;
  }

  lemma ContentMasked(opcode: nat, payload: seq<byte>, key: seq<byte>, more: seq<byte>)
    requires |key| == 4 && |payload| <= MAX_PACKET_SIZE
    ensures Content(opcode, true, |payload|, key + (Masked(payload, key) + more))
         == Complete(Frame(opcode, payload), more)
  {
    var raw := Masked(payload, key);
    var b := key + (raw + more);
    assert b[..4] == key && b[4..] == raw + more;
    assert (raw + more)[..|payload|] == raw && (raw + more)[|payload|..] == more;
    MaskedTwice(payload, key);
  }

  lemma ContentPlain(opcode: nat, payload: seq<byte>, more: seq<byte>)
    requires |payload| <= MAX_PACKET_SIZE
    ensures Content(opcode, false, |payload|, [] + (payload + more)) == Complete(Frame(opcode, payload), more)
  {
    assert [] + (payload + more) == payload + more;
    assert (payload + more)[..|payload|] == payload && (payload + more)[|payload|..] == more;
  }

  lemma ParseParts(first: byte, field: seq<byte>, mask: bool, length: nat, rest: seq<byte>, p: Parsed<Frame>)
    requires var b := [first] + (field + rest);
      |b| >= 2 && b[0] == first && (b[1] >= 128 <==> mask) && LengthOf(b) == Length(length, rest)
    requires Content(first % 16, mask, length, rest) == p
    ensures Parse([first] + (field + rest)) == p
  {
  }

  lemma OpcodeStays(opcode: nat)
    requires opcode < 16
    ensures (128 + opcode) % 16 == opcode
  {
  }

  lemma WireParts(m: Message, more: seq<byte>)
    requires Sendable(m)
    ensures Wire(m) + more
         == [128 + m.opcode] + (LengthField(|m.payload|, m.width, m.key != []) + (m.key + (Shown(m) + more)))
  {
    Regroup5([128 + m.opcode], LengthField(|m.payload|, m.width, m.key != []), m.key, Shown(m), more);
  }

  lemma ContentOf(m: Message, more: seq<byte>)
    requires Sendable(m)
    ensures Content(m.opcode, m.key != [], |m.payload|, m.key + (Shown(m) + more))
         == Complete(Frame(m.opcode, m.payload), more)
  {
    if m.key == [] {
      ContentPlain(m.opcode, m.payload, more);
    } else {
      ContentMasked(m.opcode, m.payload, m.key, more);
    }
  }

  /** The parser gets back what was framed, masked with any key or not at all, and whatever follows. */
  lemma WireParses(m: Message, more: seq<byte>)
    requires Sendable(m)
    ensures Parse(Wire(m) + more) == Complete(Frame(m.opcode, m.payload), more)
  {
    var first: byte := 128 + m.opcode;
    var mask, length, rest := m.key != [], |m.payload|, m.key + (Shown(m) + more);
    OpcodeStays(m.opcode);
    LengthOfField(first, length, m.width, mask, rest);
    ContentOf(m, more);
    var p := Complete(Frame(m.opcode, m.payload), more);
    ParseParts(first, LengthField(length, m.width, mask), mask, length, rest, p);
    WireParts(m, more);
  }

  // ---------- a whole stream ----------

  function WsParser(): Parser<Frame> {
    Parser(b => Parse(b))
  }

  lemma WsIsStable()
    ensures Stable(WsParser())
  {
    var P := WsParser();
    forall b, more: seq<byte>
      ensures P.parse(b).Complete? ==> P.parse(b + more) == Complete(P.parse(b).frame, P.parse(b).rest + more)
      ensures P.parse(b).Refused? ==> P.parse(b + more).Refused?
    {
      ParseMore(b, more);
    }
  }

  ghost function FramesOf(b: seq<byte>): Stream<Frame> {
    WsIsStable();
    Frames(WsParser(), b)
  }

  predicate AllSendable(ms: seq<Message>) {
    forall i :: 0 <= i < |ms| ==> Sendable(ms[i])
  }

  function Wires(ms: seq<Message>): (r: seq<seq<byte>>)
    requires AllSendable(ms)
    ensures |r| == |ms| && forall i :: 0 <= i < |ms| ==> r[i] == Wire(ms[i])
  {
    if ms == [] then [] else [Wire(ms[0])] + Wires(ms[1..])
  }

  function AsFrames(ms: seq<Message>): (r: seq<Frame>)
    ensures |r| == |ms| && forall i :: 0 <= i < |ms| ==> r[i] == Frame(ms[i].opcode, ms[i].payload)
  {
    if ms == [] then [] else [Frame(ms[0].opcode, ms[0].payload)] + AsFrames(ms[1..])
  }

  lemma WiresSpell(ms: seq<Message>)
    requires AllSendable(ms)
    ensures Spells(WsParser(), Wires(ms), AsFrames(ms))
  {
    forall i, more | 0 <= i < |ms|
      ensures WsParser().parse(Wires(ms)[i] + more) == Complete(AsFrames(ms)[i], more)
    {
      WireParses(ms[i], more);
    }
  }

  /** Every list of messages comes back as sent, whatever the masking keys and the widths of the lengths. */
  lemma MessagesRoundTrip(ms: seq<Message>)
    requires AllSendable(ms)
    ensures FramesOf(Flat(Wires(ms))) == Stream(AsFrames(ms), [], false)
  {
    WsIsStable();
    WiresSpell(ms);
    RoundTrip(WsParser(), Wires(ms), AsFrames(ms));
  }

  /** The payloads of the data frames, joined. */
  function DataOf(frames: seq<Frame>): seq<byte> {
    if frames == [] then []
    else
      var f := frames[|frames| - 1];
      DataOf(frames[..|frames| - 1]) + if f.opcode == TEXT || f.opcode == BINARY then f.payload else []
  }

  /** How much of the reader's buffer is used, and whether no frame has been dropped. */
  datatype Space = Space(used: nat, whole: bool)

  /** A data frame goes to the reader whole, or, without room for it, is dropped whole. */
  function Put(s: Space, f: Frame): Space {
    if f.opcode != TEXT && f.opcode != BINARY then s
    else if s.used + |f.payload| <= MAX_PACKET_SIZE then s.(used := s.used + |f.payload|)
    else s.(whole := false)
  }

  function PutAll(s: Space, frames: seq<Frame>): Space {
    if frames == [] then s else Put(PutAll(s, frames[..|frames| - 1]), frames[|frames| - 1])
  }

  lemma PutOneMore(s: Space, frames: seq<Frame>, f: Frame)
    ensures PutAll(s, frames + [f]) == Put(PutAll(s, frames), f)
  {
    assert (frames + [f])[..|frames|] == frames;
  }

  /** Some frame is dropped exactly when what waits and all their data together are more than the buffer holds. */
  lemma {:induction false} DroppedIff(s: Space, frames: seq<Frame>)
    requires s.used <= MAX_PACKET_SIZE
    ensures PutAll(s, frames).whole <==> s.whole && s.used + |DataOf(frames)| <= MAX_PACKET_SIZE
    ensures s.used + |DataOf(frames)| <= MAX_PACKET_SIZE ==> PutAll(s, frames).used == s.used + |DataOf(frames)|
    ensures s.used + |DataOf(frames)| > MAX_PACKET_SIZE ==> !PutAll(s, frames).whole
  {
    if frames != [] {
      DroppedIff(s, frames[..|frames| - 1]);
    }
  }

  /** What the receiver must answer: a ping with its own payload, a close with its status code. */
  function Answer(f: Frame): seq<Frame> {
    if f.opcode == PING && |f.payload| <= 125 then [Frame(PONG, f.payload)]
    else if f.opcode == CLOSE then [Frame(CLOSE, if |f.payload| < 2 then f.payload else f.payload[..2])]
    else []
  }

  function Answers(frames: seq<Frame>): seq<Frame> {
    if frames == [] then [] else Answers(frames[..|frames| - 1]) + Answer(frames[|frames| - 1])
  }

  /**
    What frames mean (section 5.2 and 5.5 of RFC 6455): texts 1 and binaries 2 are data, a close 8 is echoed with
    its status code, a ping 9 of at most 125 bytes is answered by a pong 10 with its payload, others by nothing.
  */
  lemma FramesMean(f: Frame)
    ensures DataOf([f]) == if f.opcode == 1 || f.opcode == 2 then f.payload else []
    ensures Answers([f]) ==
      if f.opcode == 9 && |f.payload| <= 125 then [Frame(10, f.payload)]
      else if f.opcode == 8 then [Frame(8, f.payload[..if |f.payload| < 2 then |f.payload| else 2])]
      else []
  {
    DataOfMore([], f);
    assert [] + [f] == [f] && [] + f.payload == f.payload && [] + Answer(f) == Answer(f);
    assert f.payload[..|f.payload|] == f.payload;
  }

  predicate Spelled(sent: seq<seq<byte>>, frames: seq<Frame>) {
    |sent| == |frames| && forall i :: 0 <= i < |sent| ==> Parse(sent[i]) == Complete(frames[i], [])
  }

  lemma DataOfMore(frames: seq<Frame>, f: Frame)
    ensures DataOf(frames + [f]) == DataOf(frames) + if f.opcode == TEXT || f.opcode == BINARY then f.payload else []
    ensures Answers(frames + [f]) == Answers(frames) + Answer(f)
  {
    assert (frames + [f])[..|frames|] == frames;
  }

  /** A control frame delivers nothing, and at most one answer is due. */
  lemma ControlFrame(frames: seq<Frame>, f: Frame)
    requires f.opcode != TEXT && f.opcode != BINARY
    ensures DataOf(frames + [f]) == DataOf(frames) && Answers(frames + [f]) == Answers(frames) + Answer(f)
    ensures Answer(f) == [] ==> Answers(frames + [f]) == Answers(frames)
  {
    DataOfMore(frames, f);
    assert DataOf(frames) + [] == DataOf(frames) && Answers(frames) + [] == Answers(frames);
  }

  /** A data frame adds its payload to what is delivered, and nothing to the answers. */
  lemma DataFrame(frames: seq<Frame>, f: Frame)
    requires f.opcode == TEXT || f.opcode == BINARY
    ensures DataOf(frames + [f]) == DataOf(frames) + f.payload && Answers(frames + [f]) == Answers(frames)
  {
    DataOfMore(frames, f);
    assert Answer(f) == [];
  }

  /** The payload between `at` and at + length, as the receiver sees it. */
  function PayloadIn(b: seq<byte>, mask: bool, at: nat, length: nat): seq<byte>
    requires 4 <= at + (if mask then 0 else 4) && at + length <= |b|
  {
    if mask then Masked(b[at..at + length], b[at - 4..at]) else b[at..at + length]
  }

  lemma ContentAt(b: seq<byte>, opcode: nat, mask: bool, ptr: nat, length: nat)
    requires length <= MAX_PACKET_SIZE && ptr + (if mask then 4 else 0) + length <= |b|
    ensures var at := ptr + if mask then 4 else 0;
      Content(opcode, mask, length, b[ptr..])
      == Complete(Frame(opcode, PayloadIn(b, mask, at, length)), b[at + length..])
  {
    var rest := b[ptr..];
    if mask {
      var at := ptr + 4;
      assert rest[..4] == b[at - 4..at] && rest[4..][..length] == b[at..at + length];
      assert rest[4..][length..] == b[at + length..];
    } else {
      assert rest[..length] == b[ptr..ptr + length] && rest[length..] == b[ptr + length..];
    }
  }

  /** What the bytes behind a header of ptr bytes make of the frame. */
  lemma FrontIs(b: seq<byte>, ptr: nat, length: nat)
    requires |b| >= 2 && ptr <= |b| && LengthOf(b) == Length(length, b[ptr..])
    ensures var mask := b[1] >= 128; var at := ptr + if mask then 4 else 0;
      && at >= 2 + (if mask then 4 else 0)
      && (length > MAX_PACKET_SIZE ==> Parse(b).Refused?)
      && (length <= MAX_PACKET_SIZE && |b| < at + length ==> Parse(b).Incomplete?)
      && (length <= MAX_PACKET_SIZE && |b| >= at + length ==>
            Parse(b) == Complete(Frame(b[0] % 16, PayloadIn(b, mask, at, length)), b[at + length..]))
  {
    var mask := b[1] >= 128;
    if length <= MAX_PACKET_SIZE && |b| >= ptr + (if mask then 4 else 0) + length {
      ContentAt(b, b[0] % 16, mask, ptr, length);
    }
  }

  /** The front frame moves from the stream that is left to the frames that were handled. */
  lemma NextFrame(P: Parser<Frame>, handled: seq<Frame>, b: seq<byte>)
    requires Stable(P) && P.parse(b).Complete?
    ensures Behind(handled, Frames(P, b)) == Behind(handled + [P.parse(b).frame], Frames(P, P.parse(b).rest))
  {
    var s := Frames(P, P.parse(b).rest);
    assert handled + ([P.parse(b).frame] + s.frames) == handled + [P.parse(b).frame] + s.frames;
  }

  lemma TwoByteLength(length: nat)
    requires length < 65536
    ensures LengthField(length, 2, true) == [128 + 126, length / 256, length % 256]
  {
    assert BigEndian(length / 256, 1) == BigEndian(0, 0) + [length / 256];
    assert BigEndian(length, 2) == BigEndian(length / 256, 1) + [length % 256];
  }

  lemma TakeOff(taken: seq<byte>, waiting: seq<byte>, l: nat)
    requires l <= |waiting|
    ensures (taken + waiting[..l]) + waiting[l..] == taken + waiting
  {
    Regroup(taken, waiting[..l], waiting[l..]);
    assert waiting[..l] + waiting[l..] == waiting;
  }

  /** One more frame has been taken off the front of the stream. */
  lemma OneTaken(all: Stream<Frame>, before: seq<Frame>, was: seq<byte>, s: Space, handled: seq<Frame>)
    returns (frames: seq<Frame>)
    requires Parse(was).Complete? && all == Behind(before, FramesOf(was))
    ensures frames == before + [Parse(was).frame]
    ensures all == Behind(frames, FramesOf(Parse(was).rest))
    ensures PutAll(s, frames) == Put(PutAll(s, before), Parse(was).frame)
    ensures handled + frames == (handled + before) + [Parse(was).frame]
  {
    frames := before + [Parse(was).frame];
    WsIsStable();
    assert WsParser().parse(was) == Parse(was);
    NextFrame(WsParser(), before, was);
    PutOneMore(s, before, Parse(was).frame);
    Regroup(handled, before, [Parse(was).frame]);
  }

  class WebSocket {
    const buffer: array<byte>
    var bufferPtr: nat
    const received: array<byte>
    var receivedPtr: nat
    var connected: bool
    /** Frames sent in answer to pings and closes. */
    var replies: seq<seq<byte>>

    /** All bytes from the network, the frames handled, and the data handed to the reader. */
    ghost var heard: seq<byte>
    ghost var handled: seq<Frame>
    ghost var taken: seq<byte>
    /** No frame had to be dropped for lack of room. */
    ghost var whole: bool

    ghost predicate Shape()
      reads this
    {
      && buffer.Length == MAX_PACKET_SIZE && received.Length == MAX_PACKET_SIZE && buffer != received
      && bufferPtr <= buffer.Length && receivedPtr <= received.Length
    }

    ghost function Used(): Space
      reads this
    {
      Space(receivedPtr, whole)
    }

    /** What the reader has got and what waits for it. */
    ghost function Data(): seq<byte>
      requires Shape()
      reads this, received
    {
      taken + received[..receivedPtr]
    }

    /** What the handled frames left with the reader and with the peer. */
    ghost predicate Delivers()
      requires Shape()
      reads this, received
    {
      && (whole ==> Data() == DataOf(handled))
      && (!whole ==> |Data()| < |DataOf(handled)|)
      && Spelled(replies, Answers(handled))
    }

    /** The bytes heard are the frames handled and those in the buffer. */
    ghost predicate Follows()
      requires Shape()
      reads this, buffer
    {
      FramesOf(heard) == Behind(handled, FramesOf(buffer[..bufferPtr]))
    }

    ghost predicate Valid()
      reads this, buffer, received
    {
      Shape() && Delivers() && Follows()
      && (connected ==> FramesOf(buffer[..bufferPtr]) == Stream([], buffer[..bufferPtr], false))
    }

    constructor ()
      ensures Valid() && connected && heard == [] && handled == [] && taken == [] && whole
      ensures fresh(buffer) && fresh(received)
    {
      buffer, received := new byte[MAX_PACKET_SIZE](_ => 0), new byte[MAX_PACKET_SIZE](_ => 0);
      bufferPtr, receivedPtr, connected, replies := 0, 0, true, [];
      heard, handled, taken, whole := [], [], [], true;
      new;
      WsIsStable();
    }

    static method AppendMasked(head: seq<byte>, payload: seq<byte>, key: seq<byte>) returns (frame: seq<byte>)
      requires |key| == 4
      ensures frame == head + Masked(payload, key)
    {
      frame := head;
      for i := 0 to |payload|
        invariant frame == head + Masked(payload[..i], key)
      {
        assert payload[..i + 1][..i] == payload[..i];
        frame := frame + [Xor(payload[i], key[i % 4])];
      }
      assert payload[..|payload|] == payload;
    }

    /** What send hands to the network for one message, and what it answers with. */
    static method Build(opcode: nat, payload: seq<byte>, key: seq<byte>) returns (frame: seq<byte>)
      requires opcode < 16 && |key| == 4 && |payload| <= MAX_PACKET_SIZE
      ensures frame == Wire(Sent(opcode, payload, key))
    {
      frame := BuildHeader(opcode, |payload|);
      frame := AppendMasked(frame + key, payload, key);
      Regroup([128 + opcode], LengthField(|payload|, Width(|payload|), true), key + Masked(payload, key));
      Regroup([128 + opcode] + LengthField(|payload|, Width(|payload|), true), key, Masked(payload, key));
    }

    static method BuildHeader(opcode: nat, length: nat) returns (head: seq<byte>)
      requires opcode < 16 && length <= MAX_PACKET_SIZE
      ensures head == [128 + opcode] + LengthField(length, Width(length), true)
    {
      head := [128 + opcode];
      if length <= 125 {
        head := head + [128 + length];
      } else {
        head := head + [128 + 126] + [length / 256] + [length % 256];
        TwoByteLength(length);
      }
    }

    /** Move the elements from n on and below m to the front. */
    static method MoveDown(a: array<byte>, n: nat, m: nat)
      requires n <= m <= a.Length
      modifies a
      ensures a[..m - n] == old(a[n..m])
    {
      forall i | 0 <= i < m - n {
        a[i] := a[n + i];
      }
    }

    method PopulateData(length: nat) returns (data: seq<byte>)
      requires Valid()
      modifies `receivedPtr, `taken, received
      ensures Valid() && taken == old(taken) + data
      ensures |data| == if old(receivedPtr) < length then old(receivedPtr) else length
      ensures receivedPtr == old(receivedPtr) - |data|
    {
      data := Take(if receivedPtr < length then receivedPtr else length);
    }

    /** The first l waiting bytes go to the reader. */
    method Take(l: nat) returns (data: seq<byte>)
      requires Shape() && l <= receivedPtr
      modifies `receivedPtr, `taken, received
      ensures Shape() && Data() == old(Data()) && taken == old(taken) + data
      ensures |data| == l && receivedPtr == old(receivedPtr) - l
    {
      TakeOff(taken, received[..receivedPtr], l);
      data := PopFront(l);
      taken := taken + data;
    }

    method PopFront(l: nat) returns (data: seq<byte>)
      requires l <= receivedPtr <= received.Length
      modifies `receivedPtr, received
      ensures data == old(received[..receivedPtr])[..l]
      ensures receivedPtr == old(receivedPtr) - l && received[..receivedPtr] == old(received[..receivedPtr])[l..]
    {
      ghost var all := received[..receivedPtr];
      data := received[..l];
      assert data == all[..l] && received[l..receivedPtr] == all[l..];
      MoveDown(received, l, receivedPtr);
      receivedPtr := receivedPtr - l;
    }

    /** The length field of the frame that b begins with. */
    static method Header(b: seq<byte>) returns (ok: bool, length: nat, ptr: nat)
      requires |b| >= 2
      ensures ok ==> ptr <= |b| && LengthOf(b) == Length(length, b[ptr..])
      ensures !ok ==> LengthOf(b) == Short
    {
      ok, length, ptr := true, b[1] % 128, 2;
      if length == 126 {
        if |b| < 4 {
          return false, 0, 0;
        }
        TwoBytes(b[2..4]);
        length := (b[2] as int) * 256 + b[3] as int;
        ptr := 4;
      } else if length == 127 {
        if |b| < 10 {
          return false, 0, 0;
        }
        length := 0;
        for i := 0 to 8
          invariant length == Number(b[2..2 + i])
        {
          assert b[2..2 + i + 1][..i] == b[2..2 + i];
          length := 256 * length + b[ptr + i];
        }
        ptr := 10;
      }
    }

    /** A data frame goes to the reader's buffer if there is room, else it is dropped. */
    method Deliver(at: nat, length: nat)
      requires Shape() && at + length <= buffer.Length
      modifies `receivedPtr, `whole, received
      ensures Shape()
      ensures old(receivedPtr) + length <= received.Length ==>
        whole == old(whole) && receivedPtr == old(receivedPtr) + length
        && Data() == old(Data()) + buffer[at..at + length]
      ensures old(receivedPtr) + length > received.Length ==> !whole && receivedPtr == old(receivedPtr)
    {
      if receivedPtr + length <= received.Length {
        forall i | 0 <= i < length {
          received[receivedPtr + i] := buffer[at + i];
        }
        ghost var was := received[..receivedPtr];
        receivedPtr := receivedPtr + length;
        Regroup(taken, was, buffer[at..at + length]);
        assert received[..receivedPtr] == was + buffer[at..at + length];
      } else {
        whole := false;
      }
    }

    static method RandomKey() returns (key: seq<byte>)
      ensures |key| == 4
    {
      var a: byte, b: byte, c: byte, d: byte := *, *, *, *;
      key := [a, b, c, d];
    }

    /** Answer with a frame of its own, masked with a new key. */
    method Reply(opcode: nat, payload: seq<byte>, ghost frames: seq<Frame>)
      requires opcode < 16 && |payload| <= 125 && Spelled(replies, frames)
      modifies `replies
      ensures Spelled(replies, frames + [Frame(opcode, payload)])
    {
      var key := RandomKey();
      var frame := Build(opcode, payload, key);
      WireParses(Sent(opcode, payload, key), []);
      assert frame + [] == frame;
      replies := replies + [frame];
    }

    /** How many bytes of a payload are unmasked: those that will be looked at. */
    static function Looked(opcode: nat, length: nat): nat {
      if opcode == TEXT || opcode == BINARY then length
      else if opcode == CLOSE then if length < 2 then length else 2
      else if opcode == PING && length <= 125 then length
      else 0
    }

    method HandleData(ghost f: Frame, at: nat, length: nat)
      requires Shape() && Delivers() && at + length <= buffer.Length
      requires f.opcode == TEXT || f.opcode == BINARY
      requires buffer[at..at + length] == f.payload
      modifies `receivedPtr, `whole, `handled, received
      ensures Shape() && Delivers() && handled == old(handled) + [f]
      ensures Used() == Put(old(Used()), f)
    {
      ghost var next := handled + [f];
      DataFrame(handled, f);
      assert DataOf(next) == DataOf(handled) + f.payload && Answers(next) == Answers(handled);
      Deliver(at, length);
      handled := next;
    }

    method HandleClose(ghost f: Frame, echo: seq<byte>)
      requires Shape() && Delivers() && f.opcode == CLOSE
      requires echo == if |f.payload| < 2 then f.payload else f.payload[..2]
      modifies `replies, `connected, `handled
      ensures Delivers() && handled == old(handled) + [f] && !connected
    {
      ghost var next := handled + [f];
      ControlFrame(handled, f);
      assert DataOf(next) == DataOf(handled) && Answers(next) == Answers(handled) + [Frame(CLOSE, echo)];
      Reply(CLOSE, echo, Answers(handled));
      connected := false;
      handled := next;
    }

    method HandlePing(ghost f: Frame, payload: seq<byte>)
      requires Shape() && Delivers() && f.opcode == PING && f.payload == payload && |payload| <= 125
      modifies `replies, `handled
      ensures Delivers() && handled == old(handled) + [f]
    {
      ghost var next := handled + [f];
      ControlFrame(handled, f);
      assert DataOf(next) == DataOf(handled) && Answers(next) == Answers(handled) + [Frame(PONG, payload)];
      Reply(PONG, payload, Answers(handled));
      handled := next;
    }

    ghost method HandleNothing(f: Frame)
      requires Shape() && Delivers() && f.opcode !in {TEXT, BINARY, CLOSE} && (f.opcode == PING ==> |f.payload| > 125)
      modifies `handled
      ensures Delivers() && handled == old(handled) + [f]
    {
      ControlFrame(handled, f);
      handled := handled + [f];
    }

    /** The frame at the front of the buffer, of whose payload the part that matters is unmasked. */
    method Handle(ghost f: Frame, opcode: nat, at: nat, length: nat)
      requires Shape() && Delivers() && at + length <= buffer.Length
      requires f.opcode == opcode && |f.payload| == length
      requires buffer[at..at + Looked(opcode, length)] == f.payload[..Looked(opcode, length)]
      modifies `receivedPtr, `whole, `replies, `connected, `handled, received
      ensures Shape() && Delivers() && handled == old(handled) + [f]
      ensures Used() == Put(old(Used()), f)
      ensures connected ==> old(connected)
    {
      assert f.payload[..length] == f.payload;
      if opcode == TEXT || opcode == BINARY {
        HandleData(f, at, length);
      } else if opcode == CLOSE {
        HandleClose(f, buffer[at..at + Looked(opcode, length)]);
      } else if opcode == PING && length <= 125 {
        HandlePing(f, buffer[at..at + length]);
      } else {
        HandleNothing(f);
      }
    }

    /** The payload between `at` and at + length, as the receiver sees it. */
    function PayloadAt(mask: bool, at: nat, length: nat): seq<byte>
      requires 4 <= at + (if mask then 0 else 4) && at + length <= bufferPtr <= buffer.Length
      reads `bufferPtr, buffer
    {
      PayloadIn(buffer[..bufferPtr], mask, at, length)
    }

    /** Look for a complete frame at the front of b. */
    static method Front(b: seq<byte>)
      returns (found: bool, refused: bool, mask: bool, opcode: nat, at: nat, length: nat)
      ensures found ==> !refused
      ensures !found ==> if refused then Parse(b).Refused? else Parse(b).Incomplete?
      ensures found ==> (if mask then 4 else 2) <= at <= at + length <= |b| && length <= MAX_PACKET_SIZE
      ensures found ==> Parse(b) == Complete(Frame(opcode, PayloadIn(b, mask, at, length)), b[at + length..])
    {
      found, refused, mask, opcode, at, length := false, false, false, 0, 0, 0;
      if |b| < 2 {
        return;
      }
      var ok, ptr;
      ok, length, ptr := Header(b);
      if !ok {
        return;
      }
      opcode, mask := b[0] % 16, b[1] >= 128;
      at := ptr + if mask then 4 else 0;
      FrontIs(b, ptr, length);
      if length > MAX_PACKET_SIZE {
        refused := true;
      } else if |b| >= at + length {
        found := true;
      }
    }

    /** Unmask the first n bytes of the payload between `at` and at + length, in place. */
    method Unmask(at: nat, length: nat, n: nat)
      requires n <= length && 4 <= at && at + length <= bufferPtr <= buffer.Length
      modifies buffer
      ensures buffer[at..at + n] == old(PayloadAt(true, at, length))[..n]
      ensures forall j :: at + n <= j < buffer.Length ==> buffer[j] == old(buffer[j])
    {
      var key := buffer[at - 4..at];
      ghost var raw, payload := buffer[at..at + length], PayloadAt(true, at, length);
      assert buffer[..bufferPtr][at..at + length] == raw && buffer[..bufferPtr][at - 4..at] == key;
      UnmaskWith(at, key, n);
      assert buffer[at..at + n] == payload[..n] by {
        forall k | 0 <= k < n
          ensures buffer[at..at + n][k] == payload[k]
        {
          assert payload[k] == Xor(raw[k], key[k % 4]);
        }
      }
    }

    method UnmaskWith(at: nat, key: seq<byte>, n: nat)
      requires |key| == 4 && at + n <= buffer.Length
      modifies buffer
      ensures forall k :: 0 <= k < n ==> buffer[at..at + n][k] == Xor(old(buffer[at..at + n])[k], key[k % 4])
      ensures forall j :: at + n <= j < buffer.Length ==> buffer[j] == old(buffer[j])
    {
      for i := 0 to n
        invariant forall j :: at <= j < at + i ==> buffer[j] == Xor(old(buffer[j]), key[(j - at) % 4])
        invariant forall j :: at + i <= j < buffer.Length ==> buffer[j] == old(buffer[j])
      {
        buffer[at + i] := Xor(buffer[at + i], key[i % 4]);
      }
    }

    /** The part of a payload that will be looked at, masked or not. */
    method Reveal(mask: bool, at: nat, length: nat, n: nat, ghost payload: seq<byte>)
      requires n <= length && (if mask then 4 else 0) <= at && at + length <= bufferPtr <= buffer.Length
      requires payload == PayloadAt(mask, at, length)
      modifies buffer
      ensures buffer[at..at + n] == payload[..n]
      ensures buffer[at + length..bufferPtr] == old(buffer[..bufferPtr][at + length..])
    {
      if mask {
        Unmask(at, length, n);
      } else {
        assert |payload| == length;
        forall k | 0 <= k < n
          ensures payload[..n][k] == buffer[at..at + n][k]
        {
          assert payload[k] == buffer[..bufferPtr][at + k] == buffer[at + k];
        }
      }
    }

    /** A frame that ends at `end` leaves the buffer. */
    method Drop(end: nat)
      requires end <= bufferPtr <= buffer.Length
      modifies `bufferPtr, buffer
      ensures bufferPtr == old(bufferPtr) - end && buffer[..bufferPtr] == old(buffer[end..bufferPtr])
    {
      MoveDown(buffer, end, bufferPtr);
      bufferPtr := bufferPtr - end;
    }

    /** Take the frame that Front found, and whose payload is ready, off the buffer. */
    method TakeFrame(opcode: nat, at: nat, length: nat, ghost payload: seq<byte>)
      requires Shape() && Delivers() && 2 <= at <= at + length <= bufferPtr && |payload| == length
      requires buffer[at..at + Looked(opcode, length)] == payload[..Looked(opcode, length)]
      modifies `bufferPtr, `receivedPtr, `whole, `replies, `connected, `handled, buffer, received
      ensures Shape() && Delivers() && handled == old(handled) + [Frame(opcode, payload)]
      ensures bufferPtr == old(bufferPtr) - at - length
      ensures buffer[..bufferPtr] == old(buffer[at + length..bufferPtr])
      ensures Used() == Put(old(Used()), Frame(opcode, payload))
      ensures connected ==> old(connected)
    {
      Handle(Frame(opcode, payload), opcode, at, length);
      Drop(at + length);
    }

    method Remove(mask: bool, opcode: nat, at: nat, length: nat, ghost payload: seq<byte>, ghost rest: seq<byte>)
      requires Shape() && Delivers() && (if mask then 4 else 2) <= at <= at + length <= bufferPtr
      requires payload == PayloadAt(mask, at, length) && rest == buffer[..bufferPtr][at + length..]
      modifies `bufferPtr, `receivedPtr, `whole, `replies, `connected, `handled, buffer, received
      ensures Shape() && Delivers() && handled == old(handled) + [Frame(opcode, payload)]
      ensures bufferPtr == old(bufferPtr) - at - length && buffer[..bufferPtr] == rest
      ensures Used() == Put(old(Used()), Frame(opcode, payload))
      ensures connected ==> old(connected)
    {
      Reveal(mask, at, length, Looked(opcode, length), payload);
      TakeFrame(opcode, at, length, payload);
    }

    /** The stream that is left loses its first frame, which counts as handled. */
    method Consume(mask: bool, opcode: nat, at: nat, length: nat)
      requires Shape() && Delivers() && Follows() && (if mask then 4 else 2) <= at <= at + length <= bufferPtr
      requires WsParser().parse(buffer[..bufferPtr])
        == Complete(Frame(opcode, PayloadAt(mask, at, length)), buffer[..bufferPtr][at + length..])
      modifies `bufferPtr, `receivedPtr, `whole, `replies, `connected, `handled, buffer, received
      ensures Shape() && Delivers() && Follows()
      ensures bufferPtr == old(bufferPtr) - at - length
      ensures var f := Frame(opcode, old(PayloadAt(mask, at, length)));
        handled == old(handled) + [f] && Used() == Put(old(Used()), f)
      ensures buffer[..bufferPtr] == old(buffer[..bufferPtr])[at + length..]
      ensures connected ==> old(connected)
    {
      WsIsStable();
      NextFrame(WsParser(), handled, buffer[..bufferPtr]);
      Remove(mask, opcode, at, length, PayloadAt(mask, at, length), buffer[..bufferPtr][at + length..]);
    }

    /** One turn of the parse loop: `more` says that a frame was taken off the buffer. */
    method Step() returns (more: bool)
      requires Shape() && Delivers() && Follows()
      modifies `bufferPtr, `receivedPtr, `whole, `replies, `connected, `handled, buffer, received
      ensures Shape() && Delivers() && Follows()
      ensures more ==> bufferPtr < old(bufferPtr) && receivedPtr + bufferPtr < old(receivedPtr) + old(bufferPtr)
      ensures more <==> Parse(old(buffer[..bufferPtr])).Complete?
      ensures more ==>
        var p := Parse(old(buffer[..bufferPtr]));
        && handled == old(handled) + [p.frame] && Used() == Put(old(Used()), p.frame)
        && buffer[..bufferPtr] == p.rest
      ensures !more ==> receivedPtr == old(receivedPtr) && bufferPtr == old(bufferPtr)
      ensures !more ==> Used() == old(Used()) && handled == old(handled)
      ensures !more ==> buffer[..bufferPtr] == old(buffer[..bufferPtr])
      ensures !more ==> !connected || Parse(buffer[..bufferPtr]).Incomplete?
      ensures old(receivedPtr) + old(bufferPtr) <= MAX_PACKET_SIZE ==> whole == old(whole)
      ensures connected ==> old(connected)
    {
      var refused, mask, opcode, at, length;
      more, refused, mask, opcode, at, length := Front(buffer[..bufferPtr]);
      if refused {
        connected := false;
      }
      if more {
        Consume(mask, opcode, at, length);
      }
    }

    method CopyBehind(chunk: seq<byte>)
      requires bufferPtr + |chunk| <= buffer.Length
      modifies `bufferPtr, buffer
      ensures bufferPtr == old(bufferPtr) + |chunk| && buffer[..bufferPtr] == old(buffer[..bufferPtr]) + chunk
    {
      forall i | 0 <= i < |chunk| {
        buffer[bufferPtr + i] := chunk[i];
      }
      bufferPtr := bufferPtr + |chunk|;
    }

    /** The bytes of one network read go behind those that wait. */
    method Append(chunk: seq<byte>)
      requires Valid() && connected && |chunk| <= buffer.Length - bufferPtr
      modifies `bufferPtr, `heard, buffer
      ensures Shape() && Delivers() && Follows()
      ensures bufferPtr == old(bufferPtr) + |chunk| && heard == old(heard) + chunk
      ensures buffer[..bufferPtr] == old(buffer[..bufferPtr]) + chunk
    {
      WsIsStable();
      FramesMore(WsParser(), heard, chunk);
      assert handled + [] == handled;
      CopyBehind(chunk);
      heard := heard + chunk;
    }

    /** The parse loop takes every complete frame off the buffer. */
    method ParseAll() returns (ghost frames: seq<Frame>)
      requires Shape() && Delivers() && Follows()
      modifies `bufferPtr, `receivedPtr, `whole, `replies, `connected, `handled, buffer, received
      ensures Valid()
      ensures frames == FramesOf(old(buffer[..bufferPtr])).frames
      ensures handled == old(handled) + frames && Used() == PutAll(old(Used()), frames)
      ensures old(receivedPtr) + old(bufferPtr) <= MAX_PACKET_SIZE ==> whole == old(whole)
    {
      ghost var all := FramesOf(buffer[..bufferPtr]);
      frames := [];
      assert [] + all.frames == all.frames;
      var more := true;
      while more
        invariant Shape() && Delivers() && Follows()
        invariant receivedPtr + bufferPtr <= old(receivedPtr) + old(bufferPtr)
        invariant old(receivedPtr) + old(bufferPtr) <= MAX_PACKET_SIZE ==> whole == old(whole)
        invariant handled == old(handled) + frames && Used() == PutAll(old(Used()), frames)
        invariant all == Behind(frames, FramesOf(buffer[..bufferPtr]))
        invariant !more ==> !Parse(buffer[..bufferPtr]).Complete?
        invariant !more ==> !connected || Parse(buffer[..bufferPtr]).Incomplete?
        decreases bufferPtr, more
      {
        ghost var was, before := buffer[..bufferPtr], frames;
        more := Step();
        if more {
          frames := OneTaken(all, before, was, old(Used()), old(handled));
        }
      }
      assert frames + [] == frames;
    }

    /** Whatever arrives is parsed as far as it goes; a frame for which the reader has no room is dropped. */
    method GetFrames(chunk: seq<byte>)
      requires Valid() && connected && |chunk| <= buffer.Length - bufferPtr
      modifies `heard, `bufferPtr, `receivedPtr, `whole, `replies, `connected, `handled, buffer, received
      ensures Valid() && heard == old(heard) + chunk
      ensures var frames := FramesOf(old(buffer[..bufferPtr]) + chunk).frames;
        handled == old(handled) + frames && Used() == PutAll(old(Used()), frames)
      ensures old(receivedPtr) + old(bufferPtr) + |chunk| <= MAX_PACKET_SIZE ==> whole == old(whole)
    {
      Append(chunk);
      ghost var frames := ParseAll();
    }

    /**
      What the reader asked for, from what is there or from the network. A reader that asks for at
      least MAX_PACKET_SIZE bytes at a time always empties the buffer, so nothing is ever dropped.
    */
    method Read(dataLen: nat, chunk: seq<byte>) returns (data: seq<byte>)
      requires Valid() && |chunk| <= buffer.Length - bufferPtr
      modifies this, buffer, received
      ensures Valid() && taken == old(taken) + data && |data| <= dataLen
      ensures heard == old(heard) || heard == old(heard) + chunk
      ensures dataLen >= MAX_PACKET_SIZE ==> receivedPtr == 0
      ensures old(receivedPtr) == 0 ==> whole == old(whole)
      ensures var asks := old(connected) && (dataLen == 0 || old(receivedPtr) < dataLen);
        && heard == (if asks then old(heard) + chunk else old(heard))
        && (whole <==> old(whole) && (asks ==>
             old(receivedPtr) + |DataOf(FramesOf(old(buffer[..bufferPtr]) + chunk).frames)| <= MAX_PACKET_SIZE))
    {
      if dataLen > 0 && receivedPtr >= dataLen {
        data := PopulateData(dataLen);
        return;
      }
      if connected {
        DroppedIff(Used(), FramesOf(buffer[..bufferPtr] + chunk).frames);
        GetFrames(chunk);
      }
      data := PopulateData(dataLen);
    }

    /**
      While frames arrive that fit the buffer it never is full of a frame that is not complete, so
      there is always room for the bytes that complete it.
    */
    lemma NeverStalls(ms: seq<Message>, future: seq<byte>)
      requires Valid() && connected && AllSendable(ms)
      requires forall i :: 0 <= i < |ms| ==> |Wire(ms[i])| <= MAX_PACKET_SIZE
      requires heard + future == Flat(Wires(ms))
      ensures bufferPtr < buffer.Length
    {
      WsIsStable();
      WiresSpell(ms);
      NeverFills(WsParser(), Wires(ms), AsFrames(ms), heard, future, MAX_PACKET_SIZE);
    }

    /** The reader gets the payloads of all data frames heard, in order, exactly as long as none was dropped. */
    lemma Delivered()
      requires Valid() && connected
      ensures whole <==> taken + received[..receivedPtr] == DataOf(FramesOf(heard).frames)
    {
      assert FramesOf(heard).frames == handled + [];
      assert handled + [] == handled;
    }

    /** Of messages framed by a server or a client, however the network cut them, it gets the payloads of all data. */
    lemma MessagesDelivered(ms: seq<Message>)
      requires Valid() && connected && AllSendable(ms) && heard == Flat(Wires(ms))
      ensures whole <==> taken + received[..receivedPtr] == DataOf(AsFrames(ms))
    {
      MessagesRoundTrip(ms);
      Delivered();
    }
  }

  /** A frame of send fits the receiver's buffer up to 16376 bytes of payload, although send accepts 16384. */
  lemma FitsIff(opcode: nat, payload: seq<byte>, key: seq<byte>)
    requires opcode < 16 && |key| == 4 && |payload| <= MAX_PACKET_SIZE
    ensures |Wire(Sent(opcode, payload, key))| <= MAX_PACKET_SIZE <==> |payload| <= 16376
  {
  }

  /** Of a longer frame the full buffer never holds all: the reader waits for ever. */
  lemma TooLongWaits(m: Message, n: nat)
    requires Sendable(m) && n <= MAX_PACKET_SIZE < |Wire(m)|
    ensures Parse(Wire(m)[..n]).Incomplete?
  {
    var b := Wire(m);
    var front, back := b[..n], b[n..];
    assert front + back == b == b + [] && back != [];
    WireParses(m, []);
    ParseMore(front, back);
  }
}
