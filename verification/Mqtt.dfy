/**
  The MQTT layer of Protocol.cpp: the variable-length number of section 2.2.3 of MQTT 3.1.1, PUBLISH
  packets, and the reader that returns one payload at a time from what the network delivers.
*/
module Mqtt {
  import opened Arith
  import opened Bytes
  import opened Framing
  import opened Seqs

  const MAX_MQTT_PACKET_SIZE := 1048576
  const BUFFER_SIZE := 16384

  // ---------- remaining length ----------

  /** Seven bits per byte, least significant first; the top bit says that more follow. */
  function VarLen(n: nat): (s: seq<byte>)
    ensures |s| > 0
  {
    if n < 128 then [n] else [128 + n % 128] + VarLen(n / 128)
  }

  lemma VarLenCons(low: nat, high: nat)
    requires low < 128 && high > 0
    ensures VarLen(low + 128 * high) == [128 + low] + VarLen(high)
  {
    var n := low + 128 * high;
    assert n >= 128 && n % 128 == low && n / 128 == high;
    assert VarLen(n) == [128 + n % 128] + VarLen(n / 128);
  }

  /** The bytes of a length of up to four digits to the base 128 (section 2.2.3 of MQTT 3.1.1). */
  lemma LengthBytes(a: nat, b: nat, c: nat, d: nat)
    requires a < 128 && b < 128 && c < 128 && d < 128
    ensures VarLen(a) == [a]
    ensures b > 0 ==> VarLen(a + 128 * b) == [128 + a, b]
    ensures c > 0 ==> VarLen(a + 128 * (b + 128 * c)) == [128 + a, 128 + b, c]
    ensures d > 0 ==> VarLen(a + 128 * (b + 128 * (c + 128 * d))) == [128 + a, 128 + b, 128 + c, d]
  {
    if b > 0 {
      VarLenCons(a, b);
    }
    if c > 0 {
      VarLenCons(b, c);
      VarLenCons(a, b + 128 * c);
    }
    if d > 0 {
      VarLenCons(c, d);
      VarLenCons(b, c + 128 * d);
      VarLenCons(a, b + 128 * (c + 128 * d));
    }
  }

  function Limit(k: nat): (l: nat)
    ensures l > 0
  {
    if k == 0 then 1 else 128 * Limit(k - 1)
  }

  /** A number and the bytes behind it; Bad when a fifth byte is needed. */
  datatype Var = Short | Bad | Var(value: nat, rest: seq<byte>)

  /** Read on, with room for k more bytes. */
  function ReadVar(b: seq<byte>, k: nat): (v: Var)
    ensures v.Var? ==> |v.rest| < |b| <= |v.rest| + k && v.value < Limit(k)
    decreases k
  {
    if b == [] then Short
    else if k == 0 then Bad
    else if b[0] < 128 then Var(b[0], b[1..])
    else
      match ReadVar(b[1..], k - 1)
      case Short => Short
      case Bad => Bad
      case Var(value, rest) => Var(b[0] - 128 + 128 * value, rest)
  }

  lemma {:induction false} VarLenRoundTrip(n: nat, k: nat, more: seq<byte>)
    requires 0 < k && n < Limit(k)
    ensures |VarLen(n)| <= k && ReadVar(VarLen(n) + more, k) == Var(n, more)
    decreases k
  {
    if n >= 128 {
      VarLenRoundTrip(n / 128, k - 1, more);
      assert (VarLen(n) + more)[1..] == VarLen(n / 128) + more;
    } else {
      assert (VarLen(n) + more)[1..] == more;
    }
  }

  lemma {:induction false} ReadVarMore(b: seq<byte>, k: nat, more: seq<byte>)
    ensures ReadVar(b, k).Var? ==> ReadVar(b + more, k) == Var(ReadVar(b, k).value, ReadVar(b, k).rest + more)
    ensures ReadVar(b, k).Bad? ==> ReadVar(b + more, k).Bad?
    decreases k
  {
    if b != [] && k > 0 {
      assert (b + more)[1..] == b[1..] + more;
      ReadVarMore(b[1..], k - 1, more);
    }
  }

  /** Every length a packet can have takes at most four bytes and is read back. */
  lemma LengthRoundTrip(n: nat, more: seq<byte>)
    requires n < LENGTH_LIMIT
    ensures |VarLen(n)| <= 4 && ReadVar(VarLen(n) + more, 4) == Var(n, more)
  {
    assert Limit(4) == 128 * Limit(3) && Limit(3) == 128 * Limit(2) && Limit(2) == 128 * Limit(1);
    VarLenRoundTrip(n, 4, more);
  }

  const LENGTH_LIMIT := 0x1000_0000

  /** Appends the length, or nothing to a packet that is too long for one. */
  method PushVariableLength(packet: seq<byte>, length: nat) returns (r: seq<byte>, ok: bool)
    ensures ok <==> length < LENGTH_LIMIT
    ensures r == packet + if ok then VarLen(length) else []
  {
    r := packet;
    if length >= 128 * 128 * 128 * 128 {
      return r, false;
    }
    var n := length;
    while n >= 128
      invariant r + VarLen(n) == packet + VarLen(length)
    {
      assert r + ([128 + n % 128] + VarLen(n / 128)) == (r + [128 + n % 128]) + VarLen(n / 128);
      r := r + [128 + n % 128];
      n := n / 128;
    }
    r, ok := r + [n], true;
  }

  /** A read number as part of one of which the lower digits are known. */
  function Shifted(v: Var, low: nat, p: nat): Var {
    if v.Var? then Var(low + p * v.value, v.rest) else v
  }

  lemma ShiftedNext(b: seq<byte>, k: nat, low: nat, p: nat)
    requires b != [] && b[0] >= 128 && k > 0
    ensures Shifted(ReadVar(b, k), low, p) == Shifted(ReadVar(b[1..], k - 1), low + p * (b[0] as int - 128), p * 128)
  {
    var v := ReadVar(b[1..], k - 1);
    if v.Var? {
      MulAssoc(p, 128, v.value);
      MulAdd(b[0] as int - 128, 128 * v.value, p);
    }
  }

  /** The same number, added up from the front. */
  function Added(b: seq<byte>, k: nat, low: nat, p: nat): Var
    decreases k
  {
    if b == [] then Short
    else if k == 0 then Bad
    else if b[0] < 128 then Var(low + p * b[0] as int, b[1..])
    else Added(b[1..], k - 1, low + p * (b[0] as int - 128), p * 128)
  }

  lemma {:induction false} AddedIsRead(b: seq<byte>, k: nat, low: nat, p: nat)
    ensures Added(b, k, low, p) == Shifted(ReadVar(b, k), low, p)
    decreases k
  {
    if b != [] && k > 0 && b[0] >= 128 {
      AddedIsRead(b[1..], k - 1, low + p * (b[0] as int - 128), p * 128);
      ShiftedNext(b, k, low, p);
    }
  }

  /** The loop over the length bytes stops where the number ends. */
  method AddUp(b: seq<byte>) returns (status: Var)
    ensures status == Added(b, 4, 0, 1)
  {
    var length: nat, i: nat, p: nat := 0, 0, 1;
    assert b[0..] == b;
    while i < |b| && i < 4 && b[i] >= 128
      invariant i <= 4 && i <= |b|
      invariant Added(b[i..], 4 - i, length, p) == Added(b, 4, 0, 1)
      decreases 4 - i
    {
      assert b[i..][0] == b[i] && b[i..][1..] == b[i + 1..];
      MulMonotone(0, p, b[i] as int - 128);
      length := length + p * (b[i] as int - 128);
      p := p * 128;
      i := i + 1;
    }
    if i >= |b| {
      return Short;
    }
    if i == 4 {
      return Bad;
    }
    MulMonotone(0, p, b[i] as int);
    status := Var(length + p * b[i] as int, b[i + 1..]);
  }

  /** What the loop adds up is the number. */
  method ReadLength(b: seq<byte>) returns (status: Var)
    ensures status == ReadVar(b, 4)
  {
    status := AddUp(b);
    AddedIsRead(b, 4, 0, 1);
  }

  // ---------- packets ----------

  const PUBLISH := 3
  const PUBREC := 5
  const PUBREL := 6
  const PINGREQ := 12

  /** The first byte and everything behind the remaining length. */
  datatype Packet = Packet(first: byte, body: seq<byte>)

  function Kind(p: Packet): nat {
    p.first / 16
  }

  function Qos(p: Packet): nat {
    (p.first / 2) % 4
  }

  /** Topic, its length and, with a quality of service, the packet number. */
  function HeaderSize(p: Packet): nat
    requires |p.body| >= 2
  {
    2 + Number(p.body[..2]) + if Qos(p) > 0 then 2 else 0
  }

  predicate Acceptable(p: Packet) {
    if Kind(p) == PUBLISH then |p.body| >= 2 && HeaderSize(p) <= |p.body|
    else if Kind(p) == PUBREC || Kind(p) == PUBREL then |p.body| >= 2
    else true
  }

  /** The packet with this first byte and length, if its body is there. */
  function Content(first: byte, length: nat, rest: seq<byte>): (r: Parsed<Packet>)
    ensures r.Complete? ==> |r.rest| <= |rest| && Acceptable(r.frame)
  {
    if length > MAX_MQTT_PACKET_SIZE then Refused
    else if |rest| < length then Incomplete
    else
      var p := Packet(first, rest[..length]);
      if Acceptable(p) then Complete(p, rest[length..]) else Refused
  }

  function Parse(b: seq<byte>): (r: Parsed<Packet>)
    ensures r.Complete? ==> |r.rest| <= |b| - 2 && Acceptable(r.frame)
  {
    if |b| < 2 then Incomplete
    else
      match ReadVar(b[1..], 4)
      case Short => Incomplete
      case Bad => Refused
      case Var(length, rest) => Content(b[0], length, rest)
  }

  lemma ContentMore(first: byte, length: nat, rest: seq<byte>, more: seq<byte>)
    ensures var r := Content(first, length, rest);
      && (r.Complete? ==> Content(first, length, rest + more) == Complete(r.frame, r.rest + more))
      && (r.Refused? ==> Content(first, length, rest + more).Refused?)
  {
    if length <= |rest| {
      assert (rest + more)[..length] == rest[..length];
      assert (rest + more)[length..] == rest[length..] + more;
    }
  }

  lemma ParseMore(b: seq<byte>, more: seq<byte>)
    ensures Parse(b).Complete? ==> Parse(b + more) == Complete(Parse(b).frame, Parse(b).rest + more)
    ensures Parse(b).Refused? ==> Parse(b + more).Refused?
  {
    if |b| >= 2 {
      assert (b + more)[1..] == b[1..] + more;
      ReadVarMore(b[1..], 4, more);
      var v := ReadVar(b[1..], 4);
      if v.Var? {
        ContentMore(b[0], v.value, v.rest, more);
      }
    }
  }

  function MqttParser(): Parser<Packet> {
    Parser(b => Parse(b))
  }

  lemma MqttIsStable()
    ensures Stable(MqttParser())
  {
    var P := MqttParser();
    forall b, more: seq<byte>
      ensures P.parse(b).Complete? ==> P.parse(b + more) == Complete(P.parse(b).frame, P.parse(b).rest + more)
      ensures P.parse(b).Refused? ==> P.parse(b + more).Refused?
    {
      ParseMore(b, more);
    }
  }

  // ---------- publishing ----------

  datatype Message = Message(topic: seq<byte>, payload: seq<byte>, qos: nat, id: nat)

  /** What a PUBLISH packet can carry: a topic's length has two bytes. */
  predicate Sendable(m: Message) {
    |m.topic| < 65536 && |m.payload| <= 2048 && m.qos <= 2
  }

  predicate AllSendable(ms: seq<Message>) {
    forall i {:trigger ms[i]} :: 0 <= i < |ms| ==> Sendable(ms[i])
  }

  function Body(m: Message): seq<byte> {
    BigEndian(|m.topic|, 2) + (m.topic + ((if m.qos > 0 then BigEndian(m.id, 2) else []) + m.payload))
  }

  function First(m: Message): byte
    requires m.qos <= 2
  {
    16 * PUBLISH + 2 * m.qos
  }

  function Wire(m: Message): seq<byte>
    requires m.qos <= 2
  {
    [First(m)] + (VarLen(|Body(m)|) + Body(m))
  }

  function PayloadOf(p: Packet): seq<byte>
    requires Kind(p) == PUBLISH && Acceptable(p)
  {
    p.body[HeaderSize(p)..]
  }

  lemma TopicLength(m: Message)
    ensures |Body(m)| == 2 + |m.topic| + (if m.qos > 0 then 2 else 0) + |m.payload|
    ensures Number(Body(m)[..2]) == |m.topic| % 65536
  {
    NumberOfTwo(|m.topic|);
    assert Body(m)[..2] == BigEndian(|m.topic|, 2);
  }

  lemma WireParts(m: Message)
    requires m.qos <= 2
    ensures |Body(m)| == 2 + |m.topic| + |m.payload| + if m.qos > 0 then 2 else 0
    ensures ([First(m)] + VarLen(|Body(m)|)) + Body(m) == Wire(m)
    ensures ([First(m)] + []) + Body(m) == [First(m)] + Body(m)
  {
    Regroup([First(m)], VarLen(|Body(m)|), Body(m));
    assert [First(m)] + [] == [First(m)];
  }

  lemma FirstByte(m: Message, body: seq<byte>)
    requires m.qos <= 2
    ensures Kind(Packet(First(m), body)) == PUBLISH && Qos(Packet(First(m), body)) == m.qos
  {
    assert First(m) == 48 + 2 * m.qos;
    assert First(m) / 2 == 24 + m.qos;
  }

  /** The packet of a message has the message's payload behind its header exactly when its topic is short enough. */
  lemma PayloadIsBack(m: Message)
    requires m.qos <= 2
    ensures var p := Packet(First(m), Body(m));
      && p.first == 0x30 + 2 * m.qos && Kind(p) == PUBLISH && Qos(p) == m.qos && Acceptable(p)
      && (PayloadOf(p) == m.payload <==> |m.topic| < 65536)
  {
    FirstByte(m, Body(m));
    TopicLength(m);
    var head := 2 + |m.topic| + if m.qos > 0 then 2 else 0;
    assert Body(m)[head..] == m.payload;
    assert |m.topic| < 65536 <==> |m.topic| % 65536 == |m.topic|;
  }

  lemma ContentOf(first: byte, body: seq<byte>, more: seq<byte>)
    requires |body| <= MAX_MQTT_PACKET_SIZE && Acceptable(Packet(first, body))
    ensures Content(first, |body|, body + more) == Complete(Packet(first, body), more)
  {
    assert (body + more)[..|body|] == body && (body + more)[|body|..] == more;
  }

  lemma ParseParts(first: byte, length: seq<byte>, body: seq<byte>, more: seq<byte>)
    requires |length| > 0 && ReadVar(length + (body + more), 4) == Var(|body|, body + more)
    requires |body| <= MAX_MQTT_PACKET_SIZE && Acceptable(Packet(first, body))
    ensures Parse([first] + (length + (body + more))) == Complete(Packet(first, body), more)
  {
    var tail := length + (body + more);
    ContentOf(first, body, more);
    assert ([first] + tail)[1..] == tail;
  }

  /** A PUBLISH packet is read back as one packet, whatever follows it. */
  lemma PublishParses(m: Message, more: seq<byte>)
    requires m.qos <= 2 && |Body(m)| <= 0x10_0000
    ensures Parse(Wire(m) + more) == Complete(Packet(First(m), Body(m)), more)
  {
    PayloadIsBack(m);
    TopicLength(m);
    LengthRoundTrip(|Body(m)|, Body(m) + more);
    ParseParts(First(m), VarLen(|Body(m)|), Body(m), more);
    Regroup4([First(m)], VarLen(|Body(m)|), Body(m), more);
  }

  /** A packet of more than 1 MiB is refused as soon as its length has been read. */
  lemma TooLongRefused(first: byte, n: nat, more: seq<byte>)
    requires 0x10_0000 < n < 0x1000_0000
    ensures Parse([first] + (VarLen(n) + more)).Refused?
  {
    LengthRoundTrip(n, more);
    assert ([first] + (VarLen(n) + more))[1..] == VarLen(n) + more;
  }

  function Wires(ms: seq<Message>): (r: seq<seq<byte>>)
    requires AllSendable(ms)
    ensures |r| == |ms| && forall i :: 0 <= i < |ms| ==> r[i] == Wire(ms[i])
  {
    if ms == [] then [] else [Wire(ms[0])] + Wires(ms[1..])
  }

  function Packets(ms: seq<Message>): (r: seq<Packet>)
    requires AllSendable(ms)
    ensures |r| == |ms| && forall i :: 0 <= i < |ms| ==> r[i] == Packet(First(ms[i]), Body(ms[i]))
  {
    if ms == [] then [] else [Packet(First(ms[0]), Body(ms[0]))] + Packets(ms[1..])
  }

  /** Published messages, one after the other, are cut into just their packets. */
  lemma MessagesRoundTrip(ms: seq<Message>)
    requires AllSendable(ms)
    ensures Stable(MqttParser())
    ensures Frames(MqttParser(), Flat(Wires(ms))) == Stream(Packets(ms), [], false)
  {
    var P := MqttParser();
    MqttIsStable();
    forall i, more | 0 <= i < |ms|
      ensures P.parse(Wires(ms)[i] + more) == Complete(Packets(ms)[i], more)
    {
      TopicLength(ms[i]);
      PublishParses(ms[i], more);
    }
    RoundTrip(P, Wires(ms), Packets(ms));
  }

  // ---------- reading ----------

  /** What a packet gives a reader with this much room. */
  function Returned(p: Packet, room: nat): seq<byte>
    requires Acceptable(p)
  {
    if Kind(p) == PUBLISH && Qos(p) < 3 && |PayloadOf(p)| <= room then PayloadOf(p) else []
  }

  /** What the broker is answered: an acknowledgement with the packet's number, or a ping response. */
  function ReplyTo(p: Packet, room: nat): seq<seq<byte>>
    requires Acceptable(p)
  {
    if Kind(p) == PUBLISH then
      if 0 < Qos(p) < 3 && |PayloadOf(p)| <= room then
        var at := HeaderSize(p) - 2;
        [[if Qos(p) == 1 then 64 else 80, 2, p.body[at], p.body[at + 1]]]
      else []
    else if Kind(p) == PINGREQ then [[208, 0]]
    else if Kind(p) == PUBREC then [[98, 2, p.body[0], p.body[1]]]
    else if Kind(p) == PUBREL then [[112, 2, p.body[0], p.body[1]]]
    else []
  }

  /**
    The reader gets the message's payload, and the broker an acknowledgement with the message's own number; of
    a message that is too long for the reader nothing is returned and nothing acknowledged.
  */
  lemma Acknowledged(m: Message, room: nat)
    requires Sendable(m)
    ensures var p := Packet(First(m), Body(m));
      && Acceptable(p) && Returned(p, room) == (if |m.payload| <= room then m.payload else [])
      && ReplyTo(p, room) == if m.qos == 0 || |m.payload| > room then []
                             else [[if m.qos == 1 then 64 else 80, 2] + BigEndian(m.id, 2)]
  {
    PayloadIsBack(m);
    TopicLength(m);
    if m.qos > 0 {
      var at := 2 + |m.topic|;
      assert Body(m)[at..at + 2] == BigEndian(m.id, 2);
      var id := BigEndian(m.id, 2);
      assert Body(m)[at] == Body(m)[at..at + 2][0] == id[0] && Body(m)[at + 1] == Body(m)[at..at + 2][1] == id[1];
      var kind: byte := if m.qos == 1 then 64 else 80;
      assert [kind, 2, Body(m)[at], Body(m)[at + 1]] == [kind, 2] + id;
    }
  }

  lemma ControlParses(first: byte, body: seq<byte>)
    requires |body| < 128 && Acceptable(Packet(first, body))
    ensures Parse([first, |body|] + body) == Complete(Packet(first, body), [])
  {
    LengthRoundTrip(|body|, body);
    assert body + [] == body && VarLen(|body|) == [|body|];
    ParseParts(first, VarLen(|body|), body, []);
    assert [first] + ([|body|] + body) == [first, |body|] + body;
  }

  /**
    The exchange that delivers a message exactly once (section 4.3.3 of MQTT 3.1.1): whichever side of it a
    peer of this implementation is on, it answers a publication, its receipt and its release with the
    packet that is due next, in the message's own number, and the completion with nothing.
  */
  lemma ExchangeEnds(m: Message, room: nat)
    requires Sendable(m) && m.qos == 2 && |m.payload| <= room
    ensures var id := BigEndian(m.id, 2);
      && Acceptable(Packet(First(m), Body(m))) && ReplyTo(Packet(First(m), Body(m)), room) == [[0x50, 2] + id]
      && Parse([0x50, 2] + id) == Complete(Packet(0x50, id), []) && ReplyTo(Packet(0x50, id), room) == [[0x62, 2] + id]
      && Parse([0x62, 2] + id) == Complete(Packet(0x62, id), []) && ReplyTo(Packet(0x62, id), room) == [[0x70, 2] + id]
      && Parse([0x70, 2] + id) == Complete(Packet(0x70, id), []) && ReplyTo(Packet(0x70, id), room) == []
  {
    var id := BigEndian(m.id, 2);
    Acknowledged(m, room);
    ControlParses(0x50, id);
    ControlParses(0x62, id);
    ControlParses(0x70, id);
    assert [0x62, 2] + id == [0x62, 2, id[0], id[1]] && [0x70, 2] + id == [0x70, 2, id[0], id[1]];
  }

  /** A ping of the broker (section 3.12 of MQTT 3.1.1) is answered. */
  lemma PingAnswered(room: nat)
    ensures Parse([0xC0, 0]) == Complete(Packet(0xC0, []), []) && ReplyTo(Packet(0xC0, []), room) == [[0xD0, 0]]
  {
    ControlParses(0xC0, []);
    assert [0xC0, 0] + [] == [0xC0, 0];
  }

  predicate AllAcceptable(ps: seq<Packet>) {
    forall i :: 0 <= i < |ps| ==> Acceptable(ps[i])
  }

  /** The payloads a reader gets from some packets, in order; empty ones are not returned. */
  function Payloads(ps: seq<Packet>, room: nat): seq<seq<byte>>
    requires AllAcceptable(ps)
  {
    if ps == [] then []
    else
      var n := |ps| - 1;
      Payloads(ps[..n], room) + if Returned(ps[n], room) == [] then [] else [Returned(ps[n], room)]
  }

  function Replies(ps: seq<Packet>, room: nat): seq<seq<byte>>
    requires AllAcceptable(ps)
  {
    if ps == [] then [] else Replies(ps[..|ps| - 1], room) + ReplyTo(ps[|ps| - 1], room)
  }

  lemma HandledMore(ps: seq<Packet>, p: Packet, room: nat)
    requires AllAcceptable(ps) && Acceptable(p)
    ensures AllAcceptable(ps + [p])
    ensures Payloads(ps + [p], room) == Payloads(ps, room) + if Returned(p, room) == [] then [] else [Returned(p, room)]
    ensures Replies(ps + [p], room) == Replies(ps, room) + ReplyTo(p, room)
  {
    assert (ps + [p])[..|ps|] == ps;
  }

  /** How many of the packets waiting one call of read takes: all up to the first whose payload is returned. */
  function Turn(ps: seq<Packet>, room: nat): (n: nat)
    requires AllAcceptable(ps)
    ensures n <= |ps| && (ps != [] ==> n > 0)
  {
    if ps == [] then 0
    else if Returned(ps[0], room) != [] then 1
    else 1 + Turn(ps[1..], room)
  }

  /** Packets stay behind exactly when one before the last has a payload for the reader. */
  lemma {:induction false} TurnStops(ps: seq<Packet>, room: nat)
    requires AllAcceptable(ps)
    ensures Turn(ps, room) < |ps| <==> exists i :: 0 <= i < |ps| - 1 && Returned(ps[i], room) != []
  {
    if ps != [] {
      TurnStops(ps[1..], room);
      if i :| 0 <= i < |ps| - 1 && Returned(ps[i], room) != [] {
        if i > 0 {
          assert ps[1..][i - 1] == ps[i];
        } else {
          assert Turn(ps, room) == 1;
        }
      }
      if i :| 0 <= i < |ps[1..]| - 1 && Returned(ps[1..][i], room) != [] {
        assert ps[i + 1] == ps[1..][i];
      }
      if Returned(ps[0], room) != [] && |ps| > 1 {
        assert 0 <= 0 < |ps| - 1;
      }
    }
  }

  /** The complete packets at the front of some bytes. */
  ghost function Waiting(b: seq<byte>): seq<Packet>
    requires Stable(MqttParser())
  {
    Frames(MqttParser(), b).frames
  }

  /** What one call of read does with the bytes in its buffer: the packets it handles, and what it leaves. */
  datatype Served = Served(taken: seq<Packet>, data: seq<byte>, left: seq<byte>, connected: bool)

  function ServedFrom(b: seq<byte>, room: nat): Served
    decreases |b|
  {
    match Parse(b)
    case Incomplete => Served([], [], b, true)
    case Refused => Served([], [], b, false)
    case Complete(p, rest) =>
      if Returned(p, room) != [] then Served([p], Returned(p, room), rest, true)
      else After([p], ServedFrom(rest, room))
  }

  function After(ps: seq<Packet>, v: Served): Served {
    v.(taken := ps + v.taken)
  }

  /** One packet, or none, is what one turn of the loop takes off the front. */
  lemma ServedNext(handled: seq<Packet>, b: seq<byte>, room: nat)
    ensures Parse(b).Complete? ==>
      var p, rest := Parse(b).frame, Parse(b).rest;
      After(handled, ServedFrom(b, room)) ==
        if Returned(p, room) != [] then Served(handled + [p], Returned(p, room), rest, true)
        else After(handled + [p], ServedFrom(rest, room))
    ensures !Parse(b).Complete? ==>
      After(handled, ServedFrom(b, room)) == Served(handled, [], b, Parse(b).Incomplete?)
  {
    if Parse(b).Complete? {
      Regroup(handled, [Parse(b).frame], ServedFrom(Parse(b).rest, room).taken);
    } else {
      assert handled + [] == handled;
    }
  }

  lemma WaitingCons(b: seq<byte>)
    requires Stable(MqttParser()) && Parse(b).Complete?
    ensures Waiting(b) == [Parse(b).frame] + Waiting(Parse(b).rest)
    ensures Frames(MqttParser(), b).bad == Frames(MqttParser(), Parse(b).rest).bad
  {
    assert MqttParser().parse(b) == Parse(b);
  }

  lemma NothingWaiting(b: seq<byte>)
    requires Stable(MqttParser()) && !Parse(b).Complete?
    ensures Waiting(b) == [] && Frames(MqttParser(), b).bad == Parse(b).Refused?
  {
    assert MqttParser().parse(b) == Parse(b);
  }

  /** What one turn takes of some packets and leaves, with one more in front that is not returned. */
  lemma TurnCons(p: Packet, ps: seq<Packet>, room: nat)
    requires Acceptable(p) && AllAcceptable(ps)
    ensures AllAcceptable([p] + ps)
    ensures var n := if Returned(p, room) != [] then 0 else Turn(ps, room);
      && Turn([p] + ps, room) == n + 1
      && ([p] + ps)[..n + 1] == [p] + ps[..n] && ([p] + ps)[n + 1..] == ps[n..]
      && ([p] + ps)[n] == if n == 0 then p else ps[n - 1]
  {
    assert ([p] + ps)[1..] == ps;
  }

  /** Those are the packets up to the first whose payload is returned. */
  lemma {:induction false} ServedIsTurn(b: seq<byte>, room: nat)
    requires Stable(MqttParser())
    ensures AllAcceptable(Waiting(b))
    ensures var v, ps := ServedFrom(b, room), Waiting(b); var n := Turn(ps, room);
      && v.taken == ps[..n] && Waiting(v.left) == ps[n..]
      && v.data == (if n == 0 then [] else Returned(ps[n - 1], room))
      && (v.connected <==> v.data != [] || !Frames(MqttParser(), b).bad)
    decreases |b|
  {
    if Parse(b).Complete? {
      var p, rest := Parse(b).frame, Parse(b).rest;
      ServedIsTurn(rest, room);
      WaitingCons(b);
      TurnCons(p, Waiting(rest), room);
      assert [p] + [] == [p];
    } else {
      NothingWaiting(b);
    }
  }

  lemma ServedMeans(before: seq<Packet>, b: seq<byte>, room: nat, now: Served)
    requires Stable(MqttParser()) && After(before, ServedFrom(b, room)) == now
    ensures AllAcceptable(Waiting(b))
    ensures var ps := Waiting(b); var n := Turn(ps, room);
      && now.taken == before + ps[..n] && Waiting(now.left) == ps[n..]
      && now.data == (if n == 0 then [] else Returned(ps[n - 1], room))
      && (Parse(now.left).Complete? <==> exists i :: 0 <= i < |ps| - 1 && Returned(ps[i], room) != [])
    ensures now.connected <==> now.data != [] || !Frames(MqttParser(), b).bad
  {
    ServedIsTurn(b, room);
    TurnStops(Waiting(b), room);
    if Parse(now.left).Complete? {
      WaitingCons(now.left);
    } else {
      NothingWaiting(now.left);
    }
  }

  /** An unfinished length has at most four bytes. */
  lemma ShortIsShort(b: seq<byte>)
    requires ReadVar(b, 4).Short?
    ensures |b| <= 4
  {
    ShortWithin(b, 4);
  }

  lemma {:induction false} ShortWithin(b: seq<byte>, k: nat)
    requires ReadVar(b, k).Short?
    ensures |b| <= k
    decreases k
  {
    if b != [] {
      ShortWithin(b[1..], k - 1);
    }
  }

  lemma {:induction false} FramesAreAcceptable(b: seq<byte>)
    requires Stable(MqttParser())
    ensures AllAcceptable(Frames(MqttParser(), b).frames)
    decreases |b|
  {
    var P := MqttParser();
    if P.parse(b).Complete? {
      assert P.parse(b) == Parse(b);
      FramesAreAcceptable(P.parse(b).rest);
    }
  }

  lemma {:induction false} PayloadsConcat(a: seq<Packet>, b: seq<Packet>, room: nat)
    requires AllAcceptable(a) && AllAcceptable(b)
    ensures AllAcceptable(a + b)
    ensures Payloads(a + b, room) == Payloads(a, room) + Payloads(b, room)
    decreases |b|
  {
    if b == [] {
      assert a + b == a;
    } else {
      var n := |b| - 1;
      PayloadsConcat(a, b[..n], room);
      var last := if Returned(b[n], room) == [] then [] else [Returned(b[n], room)];
      LastApart(a, b);
      HandledMore(a + b[..n], b[n], room);
      Regroup(Payloads(a, room), Payloads(b[..n], room), last);
    }
  }

  /** The payloads a reader with this much room gets of published messages; empty ones are not returned. */
  function Texts(ms: seq<Message>, room: nat): seq<seq<byte>> {
    if ms == [] then []
    else
      (if ms[0].payload == [] || |ms[0].payload| > room then [] else [ms[0].payload]) + Texts(ms[1..], room)
  }

  lemma ReturnedOf(m: Message, room: nat)
    requires Sendable(m)
    ensures var p := Packet(First(m), Body(m));
      Acceptable(p) && Returned(p, room) == if |m.payload| <= room then m.payload else []
  {
    PayloadIsBack(m);
  }

  lemma PayloadsCons(m: Message, rest: seq<Packet>, room: nat)
    requires Sendable(m) && AllAcceptable(rest)
    ensures var ps := [Packet(First(m), Body(m))] + rest;
      && AllAcceptable(ps)
      && Payloads(ps, room)
         == (if m.payload == [] || |m.payload| > room then [] else [m.payload]) + Payloads(rest, room)
  {
    var p := Packet(First(m), Body(m));
    ReturnedOf(m, room);
    HandledMore([], p, room);
    assert [] + [p] == [p];
    PayloadsConcat([p], rest, room);
  }

  lemma {:induction false} PayloadsOfPackets(ms: seq<Message>, room: nat)
    requires AllSendable(ms)
    ensures AllAcceptable(Packets(ms)) && Payloads(Packets(ms), room) == Texts(ms, room)
  {
    if ms != [] {
      PayloadsOfPackets(ms[1..], room);
      PayloadsCons(ms[0], Packets(ms[1..]), room);
    }
  }

  ghost predicate Kept(heard: seq<byte>, handled: seq<Packet>, left: seq<byte>, delivered: seq<seq<byte>>,
                       replies: seq<seq<byte>>, room: nat) {
    && Stable(MqttParser()) && Ahead(MqttParser(), heard, handled, left)
    && AllAcceptable(handled) && delivered == Payloads(handled, room) && replies == Replies(handled, room)
  }

  lemma KeptNext(heard: seq<byte>, handled: seq<Packet>, left: seq<byte>, delivered: seq<seq<byte>>,
                 replies: seq<seq<byte>>, room: nat)
    requires Kept(heard, handled, left, delivered, replies, room) && Parse(left).Complete?
    ensures var p := Parse(left).frame;
      Kept(heard, handled + [p], Parse(left).rest,
           delivered + (if Returned(p, room) == [] then [] else [Returned(p, room)]),
           replies + ReplyTo(p, room), room)
  {
    assert MqttParser().parse(left) == Parse(left);
    AheadNext(MqttParser(), heard, handled, left);
    HandledMore(handled, Parse(left).frame, room);
  }

  class MQTT {
    /** The size of the array the caller reads into. */
    const room: nat
    /** The part of the buffer in use, and the size the buffer has grown to. */
    var buffer: seq<byte>
    var size: nat
    var connected: bool
    var replies: seq<seq<byte>>

    ghost var heard: seq<byte>
    ghost var handled: seq<Packet>
    ghost var delivered: seq<seq<byte>>

    /** The bytes heard are the packets handled and those in the buffer; the reader and the broker got theirs. */
    ghost predicate Follows()
      reads this
    {
      Kept(heard, handled, buffer, delivered, replies, room)
    }

    /** There is always room for more bytes, so reading cannot get stuck. */
    ghost predicate Valid()
      reads this
    {
      Follows() && size >= BUFFER_SIZE && (connected ==> |buffer| < size)
    }

    constructor (room: nat)
      ensures Valid() && connected && heard == [] && handled == [] && delivered == [] && this.room == room
      ensures buffer == [] && size == BUFFER_SIZE
    {
      this.room := room;
      buffer, size, connected, replies := [], BUFFER_SIZE, true, [];
      heard, handled, delivered := [], [], [];
      new;
      MqttIsStable();
      AheadAtStart(MqttParser());
    }

    /**
      A PUBLISH packet, as send hands it to the network; a payload that is too long is skipped. A
      packet too long for a length goes out without one, and the connection ends.
    */
    static method Publish(m: Message) returns (packet: seq<byte>, connected: bool)
      requires m.qos <= 2
      ensures connected <==> |m.payload| > 2048 || |Body(m)| < LENGTH_LIMIT
      ensures packet == if |m.payload| > 2048 then [] else if connected then Wire(m) else [First(m)] + Body(m)
    {
      if |m.payload| > 2048 {
        return [], true;
      }
      var length := 2 + |m.topic| + |m.payload| + if m.qos > 0 then 2 else 0;
      ghost var first := [First(m)];
      WireParts(m);
      packet := [16 * PUBLISH + 2 * m.qos];
      assert packet == first && length == |Body(m)|;
      packet, connected := PushVariableLength(packet, length);
      packet := AddBody(packet, m);
    }

    static method AddBody(head: seq<byte>, m: Message) returns (packet: seq<byte>)
      ensures packet == head + Body(m)
    {
      packet := head + BigEndian(|m.topic|, 2) + m.topic;
      ghost var number := if m.qos > 0 then BigEndian(m.id, 2) else [];
      if m.qos > 0 {
        packet := packet + BigEndian(m.id, 2);
      }
      assert packet == head + BigEndian(|m.topic|, 2) + m.topic + number;
      packet := packet + m.payload;
      Regroup5(head, BigEndian(|m.topic|, 2), m.topic, number, m.payload);
    }

    /** What the switch over packet types gives the reader and answers the broker. */
    method Dispatch(first: byte, body: seq<byte>) returns (data: seq<byte>, answer: seq<seq<byte>>)
      requires Acceptable(Packet(first, body))
      ensures data == Returned(Packet(first, body), room) && answer == ReplyTo(Packet(first, body), room)
    {
      data, answer := [], [];
      var kind := first / 16;
      if kind == PUBLISH {
        TwoBytes(body[..2]);
        var topic: nat := (body[0] as int) * 256 + body[1] as int;
        var q := (first / 2) % 4;
        var header: nat := 2 + topic + if q > 0 then 2 else 0;
        if room < |body| - header {
          return;
        }
        if q == 0 {
          data := body[2 + topic..];
        } else if q == 1 || q == 2 {
          data := body[4 + topic..];
          answer := [[if q == 1 then 64 else 80, 2, body[2 + topic], body[3 + topic]]];
        }
      } else if kind == PINGREQ {
        answer := [[208, 0]];
      } else if kind == PUBREC {
        answer := [[98, 2, body[0], body[1]]];
      } else if kind == PUBREL {
        answer := [[112, 2, body[0], body[1]]];
      }
    }

    /** One packet off the front of the buffer, and what it gives the reader. */
    method Handle(first: byte, body: seq<byte>, rest: seq<byte>) returns (data: seq<byte>)
      requires Follows() && Parse(buffer) == Complete(Packet(first, body), rest)
      modifies `buffer, `replies, `handled, `delivered
      ensures Follows() && buffer == rest
      ensures handled == old(handled) + [Packet(first, body)] && data == Returned(Packet(first, body), room)
      ensures delivered == if data == [] then old(delivered) else old(delivered) + [data]
    {
      var answer;
      data, answer := Dispatch(first, body);
      Note(Packet(first, body), rest, data, answer);
    }

    method Note(ghost p: Packet, rest: seq<byte>, data: seq<byte>, answer: seq<seq<byte>>)
      requires Follows() && Parse(buffer) == Complete(p, rest)
      requires data == Returned(p, room) && answer == ReplyTo(p, room)
      modifies `buffer, `replies, `handled, `delivered
      ensures Follows() && buffer == rest && handled == old(handled) + [p]
      ensures delivered == if data == [] then old(delivered) else old(delivered) + [data]
    {
      KeptNext(heard, handled, buffer, delivered, replies, room);
      assert delivered + [] == delivered;
      replies := replies + answer;
      buffer := rest;
      handled := handled + [p];
      delivered := if data == [] then delivered else delivered + [data];
    }

    /** One turn of the loop: a packet is handled, more bytes are needed, or the connection ends. */
    method Step() returns (more: bool, data: seq<byte>)
      requires Follows() && size >= BUFFER_SIZE && connected && |buffer| <= size
      modifies `buffer, `size, `connected, `replies, `handled, `delivered
      ensures Follows() && size >= BUFFER_SIZE
      ensures more ==> connected && |buffer| < |old(buffer)| && |buffer| < size
      ensures !more ==> buffer == old(buffer) && handled == old(handled) && data == []
      ensures !more && connected ==> |buffer| < size
      ensures more <==> Parse(old(buffer)).Complete?
      ensures connected <==> !Parse(old(buffer)).Refused?
      ensures more ==>
        && Parse(old(buffer)).rest == buffer
        && handled == old(handled) + [Parse(old(buffer)).frame]
        && data == Returned(Parse(old(buffer)).frame, room)
      ensures delivered == if data == [] then old(delivered) else old(delivered) + [data]
    {
      more, data := false, [];
      if |buffer| < 2 {
        return;
      }
      var v := ReadLength(buffer[1..]);
      match v {
        case Short =>
          ShortIsShort(buffer[1..]);
        case Bad =>
          connected := false;
        case Var(length, rest) =>
          if length > MAX_MQTT_PACKET_SIZE {
            connected := false;
            return;
          }
          var header := |buffer| - |rest|;
          if size < header + length {
            size := header + length;
          }
          if |rest| < length {
            return;
          }
          var packet := Packet(buffer[0], rest[..length]);
          var good := Check(packet.first, packet.body);
          if !good {
            connected := false;
            return;
          }
          data := Handle(packet.first, packet.body, rest[length..]);
          more := true;
      }
    }

    /** The length checks that end the connection. */
    static method Check(first: byte, body: seq<byte>) returns (good: bool)
      ensures good == Acceptable(Packet(first, body))
    {
      var kind := first / 16;
      if kind == PUBLISH {
        if |body| < 2 {
          return false;
        }
        TwoBytes(body[..2]);
        var topic: nat := (body[0] as int) * 256 + body[1] as int;
        var q := (first / 2) % 4;
        return 2 + topic + (if q > 0 then 2 else 0) <= |body|;
      }
      good := (kind != PUBREC && kind != PUBREL) || |body| >= 2;
    }

    method Append(chunk: seq<byte>)
      requires Valid() && |chunk| <= size - |buffer|
      modifies `buffer, `heard
      ensures Follows() && |buffer| <= size && heard == old(heard) + chunk && buffer == old(buffer) + chunk
    {
      AheadAppend(MqttParser(), heard, handled, buffer, chunk);
      buffer := buffer + chunk;
      heard := heard + chunk;
    }

    /** Packets are handled until one has a payload for the reader. */
    method Serve() returns (data: seq<byte>)
      requires Follows() && size >= BUFFER_SIZE && connected && |buffer| <= size
      modifies `buffer, `size, `connected, `replies, `handled, `delivered
      ensures Valid()
      ensures delivered == if data == [] then old(delivered) else old(delivered) + [data]
      ensures After(old(handled), ServedFrom(old(buffer), room)) == Served(handled, data, buffer, connected)
    {
      ghost var goal := After(handled, ServedFrom(buffer, room));
      var more := true;
      data := [];
      while more && data == []
        invariant Follows() && size >= BUFFER_SIZE && (more ==> connected)
        invariant connected ==> |buffer| <= size && (|buffer| < size || (more && data == []))
        invariant goal == if more && data == [] then After(handled, ServedFrom(buffer, room))
                          else Served(handled, data, buffer, connected)
        invariant delivered == if data == [] then old(delivered) else old(delivered) + [data]
        decreases |buffer|, more
      {
        ServedNext(handled, buffer, room);
        more, data := Step();
      }
    }

    /**
      Bytes arrive, and at most one payload is returned: the first there is. The packets up to it
      are handled, and those behind it stay in the buffer.
    */
    method Read(chunk: seq<byte>) returns (data: seq<byte>)
      requires Valid() && connected && 0 < |chunk| <= size - |buffer|
      modifies this
      ensures Valid() && heard == old(heard) + chunk
      ensures delivered == if data == [] then old(delivered) else old(delivered) + [data]
      ensures AllAcceptable(Waiting(old(buffer) + chunk))
      ensures var ps := Waiting(old(buffer) + chunk); var n := Turn(ps, room);
        && handled == old(handled) + ps[..n] && Waiting(buffer) == ps[n..]
        && data == if n == 0 then [] else Returned(ps[n - 1], room)
      ensures connected <==> data != [] || !Frames(MqttParser(), old(buffer) + chunk).bad
      ensures var ps := Waiting(old(buffer) + chunk);
        Parse(buffer).Complete? <==> exists i :: 0 <= i < |ps| - 1 && Returned(ps[i], room) != []
    {
      ghost var all := buffer + chunk;
      Append(chunk);
      data := Serve();
      ServedMeans(old(handled), all, room, Served(handled, data, buffer, connected));
    }

    /**
      Whatever the network's pieces were, the payloads returned so far and those of the complete
      packets still in the buffer are the payloads of all packets heard, in order.
    */
    lemma NothingLost()
      requires Valid()
      ensures AllAcceptable(Frames(MqttParser(), buffer).frames) && AllAcceptable(Frames(MqttParser(), heard).frames)
      ensures delivered + Payloads(Frames(MqttParser(), buffer).frames, room)
        == Payloads(Frames(MqttParser(), heard).frames, room)
    {
      AheadNow(MqttParser(), heard, handled, buffer);
      FramesAreAcceptable(buffer);
      PayloadsConcat(handled, Frames(MqttParser(), buffer).frames, room);
    }

    /** Of messages published by this implementation every payload that fits is returned or still waits, in order. */
    lemma Delivers(ms: seq<Message>)
      requires Valid() && AllSendable(ms) && heard == Flat(Wires(ms))
      ensures AllAcceptable(Waiting(buffer))
      ensures delivered + Payloads(Waiting(buffer), room) == Texts(ms, room)
    {
      NothingLost();
      MessagesRoundTrip(ms);
      PayloadsOfPackets(ms, room);
    }
  }

  /** Two messages in one piece of network data: the first is returned, the second waits although it is complete. */
  method SecondWaits(a: Message, b: Message, room: nat) returns (m: MQTT, data: seq<byte>)
    requires Sendable(a) && Sendable(b) && 0 < |a.payload| <= room && |Wire(a) + Wire(b)| <= BUFFER_SIZE
    ensures m.Valid() && m.connected && data == a.payload
    ensures Parse(m.buffer).Complete? && Parse(m.buffer).frame == Packet(First(b), Body(b))
  {
    TwoPackets(a, b, room);
    var chunk := Wire(a) + Wire(b);
    assert [] + chunk == chunk;
    m := new MQTT(room);
    data := m.Read(chunk);
    OneLeft(m.buffer, Packet(First(b), Body(b)));
  }

  lemma OneLeft(b: seq<byte>, q: Packet)
    requires Stable(MqttParser()) && Waiting(b) == [q]
    ensures Parse(b).Complete? && Parse(b).frame == q
  {
    if Parse(b).Complete? {
      WaitingCons(b);
      assert Waiting(b)[0] == q;
    } else {
      NothingWaiting(b);
    }
  }

  lemma TwoPackets(a: Message, b: Message, room: nat)
    requires Sendable(a) && Sendable(b) && 0 < |a.payload| <= room
    ensures Stable(MqttParser())
    ensures var p, q := Packet(First(a), Body(a)), Packet(First(b), Body(b));
      && Acceptable(p) && Acceptable(q) && Waiting(Wire(a) + Wire(b)) == [p, q]
      && Turn([p, q], room) == 1 && Returned(p, room) == a.payload && |Wire(a)| > 0
  {
    var p, q := Packet(First(a), Body(a)), Packet(First(b), Body(b));
    MessagesRoundTrip([a, b]);
    assert Wires([a, b]) == [Wire(a), Wire(b)] && Packets([a, b]) == [p, q];
    FlatFirst([Wire(a), Wire(b)]);
    FlatFirst([Wire(b)]);
    assert [Wire(a), Wire(b)][1..] == [Wire(b)] && Wire(b) + [] == Wire(b);
    ReturnedOf(a, room);
    ReturnedOf(b, room);
  }
}
