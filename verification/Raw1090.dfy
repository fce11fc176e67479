/**
  The AVR text decoder of Source/Aviation/Beast.cpp:40-109: messages as hex digits between an
  asterisk and a semicolon. The loop takes two digits at a time where it can; it is proved to be a
  machine that looks at one character, and that machine to undo the encoding.
*/
module Raw1090 {
  import opened Bytes
  import opened Seqs

  const MAX_NIBBLES := 28

  /** Util::Convert::hexValue: a digit in either case, or -1. */
  function HexValue(c: char): (v: int)
    ensures -1 <= v < 16
  {
    if '0' <= c <= '9' then c as int - '0' as int
    else if 'A' <= c <= 'F' then c as int - 'A' as int + 10
    else if 'a' <= c <= 'f' then c as int - 'a' as int + 10
    else -1
  }

  type nibble = x: int | 0 <= x < 16

  /** Waiting for an asterisk, or the digits since the last one. */
  datatype Machine = Waiting | Collecting(digits: seq<nibble>)

  datatype Run = Run(machine: Machine, sent: seq<seq<byte>>)

  /** Digits in pairs; an odd one at the end is dropped. */
  function Paired(d: seq<nibble>): (b: seq<byte>)
    ensures |b| == |d| / 2
  {
    if |d| < 2 then [] else [16 * (d[0] as int) + d[1] as int] + Paired(d[2..])
  }

  function Feed(m: Machine, c: char): Run {
    match m
    case Waiting => Run(if c == '*' then Collecting([]) else Waiting, [])
    case Collecting(d) =>
      if c == ';' then Run(Waiting, if |d| < 2 then [] else [Paired(d)])
      else if c == '*' then Run(Collecting([]), [])
      else if HexValue(c) < 0 || |d| >= MAX_NIBBLES then Run(Waiting, [])
      else Run(Collecting(d + [HexValue(c)]), [])
  }

  function FeedAll(m: Machine, s: string): Run {
    if s == "" then Run(m, [])
    else
      var r := FeedAll(m, s[..|s| - 1]);
      var q := Feed(r.machine, s[|s| - 1]);
      Run(q.machine, r.sent + q.sent)
  }

  lemma FeedOne(m: Machine, c: char)
    ensures FeedAll(m, [c]) == Feed(m, c)
  {
    assert [c][..0] == "";
  }

  lemma {:induction false} FeedConcat(m: Machine, s: string, t: string)
    ensures var r := FeedAll(m, s);
      FeedAll(m, s + t) == Run(FeedAll(r.machine, t).machine, r.sent + FeedAll(r.machine, t).sent)
    decreases |t|
  {
    if t == "" {
      assert s + t == s;
    } else {
      var n := |t| - 1;
      assert (s + t)[..|s| + n] == s + t[..n];
      FeedConcat(m, s, t[..n]);
    }
  }

  lemma {:induction false} FeedNoise(s: string)
    requires '*' !in s
    ensures FeedAll(Waiting, s) == Run(Waiting, [])
  {
    if s != "" {
      FeedNoise(s[..|s| - 1]);
    }
  }

  // ---------------------------------------------------------------- the encoding

  function Digit(v: nibble): (c: char)
    ensures HexValue(c) == v && c != ';' && c != '*'
  {
    if v < 10 then ('0' as int + v) as char else ('A' as int + v - 10) as char
  }

  function Digits(d: seq<nibble>): (s: string)
    ensures |s| == |d|
  {
    if d == [] then "" else Digits(d[..|d| - 1]) + [Digit(d[|d| - 1])]
  }

  function Nibbles(b: seq<byte>): (d: seq<nibble>)
    ensures |d| == 2 * |b|
  {
    if b == [] then [] else [b[0] / 16, b[0] % 16] + Nibbles(b[1..])
  }

  lemma {:induction false} PairedNibbles(b: seq<byte>)
    ensures Paired(Nibbles(b)) == b
  {
    if b != [] {
      assert Nibbles(b)[2..] == Nibbles(b[1..]);
      PairedNibbles(b[1..]);
    }
  }

  function Encode(b: seq<byte>): string {
    "*" + Digits(Nibbles(b)) + ";"
  }

  function EncodeAll(ms: seq<seq<byte>>): string {
    if ms == [] then "" else EncodeAll(ms[..|ms| - 1]) + Encode(ms[|ms| - 1])
  }

  lemma {:induction false} FeedDigits(d: seq<nibble>)
    requires |d| <= MAX_NIBBLES
    ensures FeedAll(Collecting([]), Digits(d)) == Run(Collecting(d), [])
  {
    if d != [] {
      var n := |d| - 1;
      FeedDigits(d[..n]);
      assert Digits(d)[..n] == Digits(d[..n]) && d[..n] + [d[n]] == d;
    }
  }

  /** An encoded message is decoded whatever came before it. */
  lemma DecodeOne(m: Machine, b: seq<byte>)
    requires 0 < |b| <= MAX_NIBBLES / 2
    ensures FeedAll(m, Encode(b)) == Run(Waiting, [b])
  {
    var d := Nibbles(b);
    FeedOne(m, '*');
    FeedConcat(m, "*", Digits(d));
    FeedDigits(d);
    FeedConcat(m, "*" + Digits(d), ";");
    FeedOne(Collecting(d), ';');
    PairedNibbles(b);
  }

  /** Decoding the encoding of any list of messages returns exactly those messages, from every state. */
  lemma {:induction false} RoundTrip(m: Machine, ms: seq<seq<byte>>)
    requires forall i :: 0 <= i < |ms| ==> 0 < |ms[i]| <= MAX_NIBBLES / 2
    ensures FeedAll(m, EncodeAll(ms)).sent == ms
  {
    if ms != [] {
      var before, last := ms[..|ms| - 1], ms[|ms| - 1];
      RoundTrip(m, before);
      var r := FeedAll(m, EncodeAll(before));
      DecodeOne(r.machine, last);
      FeedConcat(m, EncodeAll(before), Encode(last));
      assert EncodeAll(ms) == EncodeAll(before) + Encode(last);
      assert ms == before + [last];
    }
  }

  /** The digits in order. */
  const HEX := "0123456789ABCDEF"

  lemma HexValueIs(c: char, v: nibble)
    ensures HexValue(c) == v <==> Upper(c) == HEX[v]
  {
  }

  /** The text spells these digits, in either case. */
  predicate Spells(text: string, d: seq<nibble>) {
    |text| == |d| && forall i :: 0 <= i < |d| ==> Upper(text[i]) == HEX[d[i]]
  }

  lemma {:induction false} FeedSpelled(text: string, d: seq<nibble>)
    requires Spells(text, d) && |d| <= 28
    ensures FeedAll(Collecting([]), text) == Run(Collecting(d), [])
  {
    if d != [] {
      var n := |d| - 1;
      FeedSpelled(text[..n], d[..n]);
      HexValueIs(text[n], d[n]);
      assert d[..n] + [d[n]] == d;
    }
  }

  lemma {:induction false} FeedUnspelled(text: string) returns (d: seq<nibble>)
    requires '*' !in text && ';' !in text
    ensures FeedAll(Collecting([]), text).sent == []
    ensures FeedAll(Collecting([]), text).machine in {Waiting, Collecting(d)}
    ensures FeedAll(Collecting([]), text).machine.Collecting? ==> Spells(text, d) && |d| <= 28
  {
    d := [];
    if text != "" {
      var n := |text| - 1;
      assert forall c :: c in text[..n] ==> c in text;
      var before := FeedUnspelled(text[..n]);
      var v := HexValue(text[n]);
      if v >= 0 {
        HexValueIs(text[n], v);
        d := before + [v];
      }
    }
  }

  /**
    Between an asterisk and the next semicolon a message is delivered exactly if the text is 2 to 28
    hexadecimal digits, and then the bytes they spell in pairs; otherwise nothing is.
  */
  lemma MessageIff(m: Machine, text: string)
    requires '*' !in text && ';' !in text
    ensures forall d: seq<nibble> :: Spells(text, d) && 2 <= |d| <= 28 ==>
              FeedAll(m, "*" + text + ";").sent == [Paired(d)]
    ensures (forall d: seq<nibble> :: Spells(text, d) ==> !(2 <= |d| <= 28)) ==>
              FeedAll(m, "*" + text + ";").sent == []
  {
    FeedOne(m, '*');
    FeedConcat(m, "*", text);
    FeedConcat(m, "*" + text, ";");
    var now := FeedAll(Collecting([]), text);
    FeedOne(now.machine, ';');
    var all := FeedUnspelled(text);
    forall d: seq<nibble> | Spells(text, d) && 2 <= |d| <= 28
      ensures FeedAll(m, "*" + text + ";").sent == [Paired(d)]
    {
      FeedSpelled(text, d);
    }
  }

  /** The hexadecimal digits in upper case. */
  function Upper(c: char): char {
    match c
    case 'a' => 'A' case 'b' => 'B' case 'c' => 'C' case 'd' => 'D' case 'e' => 'E' case 'f' => 'F'
    case _ => c
  }

  predicate SameButCase(s: string, t: string) {
    |s| == |t| && forall i :: 0 <= i < |s| ==> Upper(s[i]) == Upper(t[i])
  }

  /** The case of the digits does not matter. */
  lemma {:induction false} CaseIgnored(m: Machine, s: string, t: string)
    requires SameButCase(s, t)
    ensures FeedAll(m, s) == FeedAll(m, t)
  {
    if s != "" {
      var k := |s| - 1;
      CaseIgnored(m, s[..k], t[..k]);
      assert Upper(s[k]) == Upper(t[k]);
    }
  }

  /** So messages written in digits of either case are decoded. */
  lemma RoundTripAnyCase(m: Machine, ms: seq<seq<byte>>, text: string)
    requires forall i :: 0 <= i < |ms| ==> 0 < |ms[i]| <= MAX_NIBBLES / 2
    requires SameButCase(text, EncodeAll(ms))
    ensures FeedAll(m, text).sent == ms
  {
    RoundTrip(m, ms);
    CaseIgnored(m, text, EncodeAll(ms));
  }

  // ---------------------------------------------------------------- the decoder itself

  /** The array holds the digits: whole bytes, then perhaps a high half with nothing below it. */
  ghost predicate Holds(msg: seq<byte>, d: seq<nibble>) {
    && |d| <= MAX_NIBBLES && |msg| > MAX_NIBBLES / 2
    && msg[..|d| / 2] == Paired(d)
    && (|d| % 2 == 1 ==> msg[|d| / 2] == 16 * (d[|d| - 1] as int))
  }

  lemma {:induction false} PairedMore(d: seq<nibble>, high: nibble, low: nibble)
    requires |d| % 2 == 0
    ensures Paired(d + [high, low]) == Paired(d) + [16 * (high as int) + low as int]
  {
    if d == [] {
      assert d + [high, low] == [high, low];
    } else {
      assert (d + [high, low])[2..] == d[2..] + [high, low];
      PairedMore(d[2..], high, low);
    }
  }

  lemma {:induction false} PairedOdd(d: seq<nibble>, last: nibble)
    requires |d| % 2 == 0
    ensures Paired(d + [last]) == Paired(d)
  {
    if d != [] {
      assert (d + [last])[2..] == d[2..] + [last];
      PairedOdd(d[2..], last);
    }
  }

  /** One more character of the input. */
  lemma FeedMore(m: Machine, input: string, start: nat, src: nat, now: Machine)
    requires start <= src < |input| && FeedAll(m, input[start..src]).machine == now
    ensures var r := FeedAll(m, input[start..src]);
      FeedAll(m, input[start..src + 1]) == Run(Feed(now, input[src]).machine, r.sent + Feed(now, input[src]).sent)
  {
    SliceOne(input, start, src);
    FeedConcat(m, input[start..src], [input[src]]);
    FeedOne(now, input[src]);
  }

  /** A high half begins a byte. */
  lemma HoldsHigh(msg: seq<byte>, d: seq<nibble>, v: nibble)
    requires Holds(msg, d) && |d| % 2 == 0 && |d| < MAX_NIBBLES
    ensures Holds(msg[|d| / 2 := 16 * (v as int)], d + [v])
  {
    var k := |d| / 2;
    PairedOdd(d, v);
    assert |d + [v]| / 2 == k && msg[k := 16 * (v as int)][..k] == msg[..k];
  }

  /** A low half completes it. */
  lemma HoldsLow(msg: seq<byte>, d: seq<nibble>, v: nibble)
    requires Holds(msg, d) && |d| % 2 == 1
    ensures msg[|d| / 2] as int + v as int < 256
    ensures Holds(msg[|d| / 2 := msg[|d| / 2] as int + v as int], d + [v])
  {
    var n, k := |d| - 1, |d| / 2;
    assert d == d[..n] + [d[n]];
    PairedOdd(d[..n], d[n]);
    PairedMore(d[..n], d[n], v);
    assert d + [v] == d[..n] + [d[n], v] && |d + [v]| / 2 == k + 1;
    var x: byte := msg[k] as int + v as int;
    assert msg[k := x][..k + 1] == msg[..k] + [x];
  }

  /** Two halves make a byte at once. */
  lemma HoldsPair(msg: seq<byte>, d: seq<nibble>, v1: nibble, v2: nibble)
    requires Holds(msg, d) && |d| % 2 == 0 && |d| < MAX_NIBBLES
    ensures Holds(msg[|d| / 2 := 16 * (v1 as int) + v2 as int], d + [v1, v2])
  {
    var k := |d| / 2;
    var x: byte := 16 * (v1 as int) + v2 as int;
    PairedMore(d, v1, v2);
    assert |d + [v1, v2]| / 2 == k + 1 && msg[k := x][..k + 1] == msg[..k] + [x];
  }

  lemma FeedLast(m: Machine, input: string, start: nat, src: nat, now: Machine)
    requires start <= src < |input| && FeedAll(m, input[start..src]) == Run(now, [])
    ensures FeedAll(m, input[start..src + 1]) == Feed(now, input[src])
  {
    FeedMore(m, input, start, src, now);
    assert [] + Feed(now, input[src]).sent == Feed(now, input[src]).sent;
  }

  /** Two steps of the machine take two digits, as long as there is room for the first. */
  lemma FeedPair(m: Machine, input: string, start: nat, src: nat, d: seq<nibble>)
    requires start <= src && src + 1 < |input| && FeedAll(m, input[start..src]) == Run(Collecting(d), [])
    requires HexValue(input[src]) >= 0 && HexValue(input[src + 1]) >= 0 && |d| + 1 < MAX_NIBBLES
    ensures FeedAll(m, input[start..src + 2])
         == Run(Collecting(d + [HexValue(input[src]), HexValue(input[src + 1])]), [])
  {
    var v1, v2 := HexValue(input[src]), HexValue(input[src + 1]);
    FeedMore(m, input, start, src, Collecting(d));
    FeedMore(m, input, start, src + 1, Collecting(d + [v1]));
    assert d + [v1] + [v2] == d + [v1, v2];
  }

  lemma FeedStar(input: string, start: nat, src: nat)
    requires start <= src < |input| && '*' !in input[start..src] && input[src] == '*'
    ensures FeedAll(Waiting, input[start..src + 1]) == Run(Collecting([]), [])
  {
    FeedNoise(input[start..src]);
    FeedMore(Waiting, input, start, src, Waiting);
  }

  class Decoder {
    const msg: array<byte>
    var len: nat
    var collecting: bool
    var sent: seq<seq<byte>>
    ghost var heard: string
    ghost var digits: seq<nibble>

    ghost function Current(): Machine
      reads this
    {
      if collecting then Collecting(digits) else Waiting
    }

    ghost predicate Shape()
      reads this, msg
    {
      msg.Length == MAX_NIBBLES / 2 + 4 && (collecting ==> len == |digits| && Holds(msg[..], digits))
    }

    ghost predicate Valid()
      reads this, msg
    {
      Shape() && FeedAll(Waiting, heard) == Run(Current(), sent)
    }

    constructor ()
      ensures Valid() && heard == "" && sent == [] && fresh(msg)
    {
      msg := new byte[MAX_NIBBLES / 2 + 4](_ => 0);
      len, collecting, sent, heard, digits := 0, false, [], "", [];
    }

    method Reset()
      requires msg.Length == MAX_NIBBLES / 2 + 4
      modifies `len, `digits, `collecting
      ensures Shape() && Current() == Collecting([])
    {
      len, digits, collecting := 0, [], true;
    }

    /** Two digits at once, where the next one is the high half of a byte. */
    method TakePair(v1: nibble, v2: nibble)
      requires Shape() && collecting && len % 2 == 0 && len < MAX_NIBBLES
      modifies `len, `digits, msg
      ensures Shape() && digits == old(digits) + [v1, v2]
    {
      HoldsPair(msg[..], digits, v1, v2);
      msg[len / 2] := 16 * (v1 as int) + v2 as int;
      len := len + 2;
      digits := digits + [v1, v2];
    }

    /** One digit, the high or the low half of a byte. */
    method TakeDigit(v: nibble)
      requires Shape() && collecting && len < MAX_NIBBLES
      modifies `len, `digits, msg
      ensures Shape() && digits == old(digits) + [v]
    {
      if len % 2 == 0 {
        HoldsHigh(msg[..], digits, v);
        msg[len / 2] := 16 * (v as int);
      } else {
        HoldsLow(msg[..], digits, v);
        msg[len / 2] := msg[len / 2] as int + v as int;
      }
      len := len + 1;
      digits := digits + [v];
    }

    /** memchr: the first asterisk from `start` on, or the end. */
    static method Asterisk(input: string, start: nat) returns (p: nat)
      requires start <= |input|
      ensures start <= p <= |input| && (p < |input| ==> input[p] == '*')
      ensures '*' !in input[start..p]
    {
      p := start;
      while p < |input| && input[p] != '*'
        invariant start <= p <= |input|
        invariant forall k :: start <= k < p ==> input[k] != '*'
      {
        p := p + 1;
      }
    }

    /** To the next asterisk, or to the end of the chunk. */
    method FindStart(input: string, start: nat) returns (src: nat)
      requires Shape() && !collecting && start < |input|
      modifies `len, `digits, `collecting
      ensures Shape() && start < src <= |input| && (collecting || src == |input|)
      ensures FeedAll(Waiting, input[start..src]) == Run(Current(), [])
    {
      src := Asterisk(input, start);
      if src == |input| {
        FeedNoise(input[start..src]);
      } else {
        Begin(input, start, src);
        src := src + 1;
      }
    }

    /** At the first asterisk a message begins. */
    method Begin(input: string, ghost start: nat, ghost src: nat)
      requires Shape() && start <= src < |input| && input[src] == '*' && '*' !in input[start..src]
      modifies `len, `digits, `collecting
      ensures Shape() && collecting
      ensures FeedAll(Waiting, input[start..src + 1]) == Run(Current(), [])
    {
      FeedStar(input, start, src);
      Reset();
    }

    /** Two characters that are digits, taken as one byte; m is where the machine was at `start`. */
    method TryPair(input: string, start: nat, src: nat, ghost m: Machine) returns (ok: bool)
      requires Shape() && collecting && len % 2 == 0 && start <= src && src + 1 < |input|
      requires FeedAll(m, input[start..src]) == Run(Current(), [])
      modifies `len, `digits, msg
      ensures Shape() && len == old(len) + if ok then 2 else 0
      ensures FeedAll(m, input[start..if ok then src + 2 else src]) == Run(Current(), [])
    {
      var v1, v2 := HexValue(input[src]), HexValue(input[src + 1]);
      ok := v1 >= 0 && v2 >= 0 && len < MAX_NIBBLES;
      if ok {
        FeedPair(m, input, start, src, digits);
        TakePair(v1, v2);
      }
    }

    /** The two-digit loop. */
    method TakePairs(input: string, start: nat) returns (src: nat)
      requires Shape() && collecting && start <= |input|
      modifies `len, `digits, msg
      ensures Shape() && start <= src <= |input|
      ensures FeedAll(Collecting(old(digits)), input[start..src]) == Run(Current(), [])
    {
      src := start;
      ghost var m := Collecting(digits);
      var ok := true;
      while ok && src + 1 < |input| && len % 2 == 0
        invariant Shape() && start <= src <= |input|
        invariant FeedAll(m, input[start..src]) == Run(Current(), [])
        decreases ok, |input| - src
      {
        ok := TryPair(input, start, src, m);
        src := if ok then src + 2 else src;
      }
    }

    /** The character at which the loop stopped, or any other. */
    method TakeChar(c: char)
      requires Shape() && collecting
      modifies `len, `digits, `collecting, `sent, msg
      ensures Shape()
      ensures Current() == Feed(old(Current()), c).machine && sent == old(sent) + Feed(old(Current()), c).sent
    {
      if c == ';' {
        len := len / 2;
        if len > 0 {
          sent := sent + [msg[..len]];
        }
        collecting := false;
      } else if c == '*' {
        Reset();
      } else if c == '\r' || c == '\n' {
        collecting := false;
      } else {
        var v := HexValue(c);
        if v < 0 || len >= MAX_NIBBLES {
          collecting := false;
        } else {
          TakeDigit(v);
        }
      }
    }

    /** The digits from here on, and the character behind them. */
    method Collect(input: string, start: nat) returns (src: nat)
      requires Shape() && collecting && start <= |input|
      modifies `len, `digits, `collecting, `sent, msg
      ensures Shape() && start <= src <= |input| && (start < |input| ==> start < src)
      ensures var r := FeedAll(old(Current()), input[start..src]);
        Current() == r.machine && sent == old(sent) + r.sent
    {
      ghost var m := Current();
      src := TakePairs(input, start);
      if src < |input| {
        TakeLast(input, start, src, m);
        src := src + 1;
      }
    }

    /** The character behind the digits; m is where the machine was at `start`. */
    method TakeLast(input: string, ghost start: nat, src: nat, ghost m: Machine)
      requires Shape() && collecting && start <= src < |input|
      requires FeedAll(m, input[start..src]) == Run(Current(), [])
      modifies `len, `digits, `collecting, `sent, msg
      ensures Shape()
      ensures var r := FeedAll(m, input[start..src + 1]); Current() == r.machine && sent == old(sent) + r.sent
    {
      FeedLast(m, input, start, src, Current());
      TakeChar(input[src]);
    }

    /** One turn of the loop over a chunk. */
    method Turn(input: string, start: nat) returns (src: nat)
      requires Shape() && start < |input|
      modifies `len, `digits, `collecting, `sent, msg
      ensures Shape() && start < src <= |input|
      ensures var r := FeedAll(old(Current()), input[start..src]);
        Current() == r.machine && sent == old(sent) + r.sent
    {
      if collecting {
        src := Collect(input, start);
      } else {
        src := FindStart(input, start);
        if collecting {
          ghost var began := src;
          src := Collect(input, src);
          Slices(input, start, began, src);
          FeedConcat(Waiting, input[start..began], input[began..src]);
        }
      }
    }

    /** A chunk of the stream. */
    method Receive(input: string)
      requires Valid()
      modifies this, msg
      ensures Valid() && heard == old(heard) + input
    {
      var src := 0;
      assert heard + input[..0] == heard;
      while src < |input|
        invariant Shape() && 0 <= src <= |input| && heard == old(heard)
        invariant FeedAll(Waiting, heard + input[..src]) == Run(Current(), sent)
      {
        ghost var was := src;
        src := Turn(input, src);
        assert heard + input[..src] == (heard + input[..was]) + input[was..src];
        FeedConcat(Waiting, heard + input[..was], input[was..src]);
      }
      assert input[..src] == input;
      heard := heard + input;
    }

    /** Encoded messages come out as they went in, whatever the pieces in which they arrived. */
    lemma Decodes(ms: seq<seq<byte>>)
      requires Valid() && heard == EncodeAll(ms)
      requires forall i :: 0 <= i < |ms| ==> 0 < |ms[i]| <= MAX_NIBBLES / 2
      ensures sent == ms
    {
      RoundTrip(Waiting, ms);
    }
  }
}
