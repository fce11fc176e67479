/**
  The line splitter of Source/Aviation/Basestation.cpp:303-363: a copy loop that looks for two
  different bytes a word at a time, proved to be a one-byte automaton, and that automaton to
  deliver exactly the short lines of the stream.
*/
module LineSplitter {
  import opened Swar

  const MAX_LINE: nat := 8192
  const LF: bv8 := 10
  const CR: bv8 := 13

  /** A carriage return or a line feed. */
  predicate Break(b: bv8) {
    b == 0x0D || b == 0x0A
  }

  predicate Plain(s: seq<bv8>) {
    forall i :: 0 <= i < |s| ==> !Break(s[i])
  }

  // ---------------------------------------------------------------- one byte at a time

  /** What was copied of the line begun, and whether the line has already been too long. */
  datatype Splitter = Splitter(line: seq<bv8>, dropping: bool)

  datatype Run = Run(splitter: Splitter, sent: seq<seq<bv8>>)

  const INIT: Splitter := Splitter([], false)

  /** A full buffer is given up when one more byte comes. */
  function MakeRoom(p: Splitter): Splitter {
    if |p.line| == MAX_LINE then Splitter([], true) else p
  }

  function Feed(p: Splitter, b: bv8): Run {
    var q := MakeRoom(p);
    if Break(b) then Run(INIT, if !q.dropping && q.line != [] then [q.line] else [])
    else Run(q.(line := q.line + [b]), [])
  }

  function FeedAll(p: Splitter, s: seq<bv8>): Run {
    if s == [] then Run(p, [])
    else
      var r := FeedAll(p, s[..|s| - 1]);
      var q := Feed(r.splitter, s[|s| - 1]);
      Run(q.splitter, r.sent + q.sent)
  }

  lemma FeedSnoc(p: Splitter, s: seq<bv8>, b: bv8)
    ensures var r := FeedAll(p, s);
      FeedAll(p, s + [b]) == Run(Feed(r.splitter, b).splitter, r.sent + Feed(r.splitter, b).sent)
  {
    assert (s + [b])[..|s|] == s;
  }

  lemma {:induction false} FeedConcat(p: Splitter, s: seq<bv8>, t: seq<bv8>)
    ensures var r := FeedAll(p, s);
      FeedAll(p, s + t) == Run(FeedAll(r.splitter, t).splitter, r.sent + FeedAll(r.splitter, t).sent)
    decreases |t|
  {
    if t == [] {
      assert s + t == s;
    } else {
      var n := |t| - 1;
      assert (s + t)[..|s| + n] == s + t[..n];
      FeedConcat(p, s, t[..n]);
    }
  }

  lemma {:induction false} FeedPlain(p: Splitter, s: seq<bv8>)
    requires Plain(s) && |p.line| + |s| <= MAX_LINE
    ensures FeedAll(p, s) == Run(Splitter(p.line + s, p.dropping), [])
    decreases |s|
  {
    if s == [] {
      assert p.line + s == p.line;
    } else {
      var n := |s| - 1;
      FeedPlain(p, s[..n]);
      assert p.line + s[..n] + [s[n]] == p.line + s;
    }
  }

  lemma {:induction false} FeedBreaks(s: seq<bv8>)
    requires forall i :: 0 <= i < |s| ==> Break(s[i])
    ensures FeedAll(INIT, s) == Run(INIT, [])
  {
    if s != [] {
      FeedBreaks(s[..|s| - 1]);
    }
  }

  /** Whether a full buffer is given up now or when the next byte comes makes no difference. */
  lemma {:induction false} FeedEither(p: Splitter, q: Splitter, s: seq<bv8>)
    requires MakeRoom(p) == MakeRoom(q)
    ensures FeedAll(p, s).sent == FeedAll(q, s).sent
    ensures MakeRoom(FeedAll(p, s).splitter) == MakeRoom(FeedAll(q, s).splitter)
  {
    if s != [] {
      FeedEither(p, q, s[..|s| - 1]);
    }
  }

  /** The end of a line with the line breaks behind it. */
  lemma FeedLine(p: Splitter, a: seq<bv8>, b: seq<bv8>)
    requires Plain(a) && |p.line| + |a| < MAX_LINE && b != [] && forall i :: 0 <= i < |b| ==> Break(b[i])
    ensures FeedAll(p, a + b) == Run(INIT, if p.dropping || p.line + a == [] then [] else [p.line + a])
  {
    var q := Splitter(p.line + a, p.dropping);
    FeedPlain(p, a);
    FeedConcat(p, a, b);
    FeedSnoc(q, [], b[0]);
    assert [] + [b[0]] == [b[0]] && b == [b[0]] + b[1..];
    FeedConcat(q, [b[0]], b[1..]);
    FeedBreaks(b[1..]);
  }

  // ---------------------------------------------------------------- the lines of a stream

  /** The text since the last line break. */
  function Partial(s: seq<bv8>): seq<bv8> {
    if s == [] then [] else if Break(s[|s| - 1]) then [] else Partial(s[..|s| - 1]) + [s[|s| - 1]]
  }

  /** The nonempty lines of fewer than 8192 bytes that were ended by a line break, in order. */
  function ShortLines(s: seq<bv8>): seq<seq<bv8>> {
    if s == [] then []
    else
      var n := |s| - 1;
      ShortLines(s[..n]) + if Break(s[n]) && 0 < |Partial(s[..n])| < 8192 then [Partial(s[..n])] else []
  }

  /** The splitter delivers the short lines, whole and in order, and never holds more than MAX_LINE bytes. */
  lemma {:induction false} DeliversShortLines(s: seq<bv8>)
    ensures var r := FeedAll(INIT, s);
      && r.sent == ShortLines(s) && |r.splitter.line| <= MAX_LINE
      && (if r.splitter.dropping then |Partial(s)| > MAX_LINE else r.splitter.line == Partial(s))
  {
    if s != [] {
      DeliversShortLines(s[..|s| - 1]);
    }
  }

  // ---------------------------------------------------------------- the copy loop

  lemma JoinedSearch(s: seq<bv8>, a: bv64, b: bv64)
    requires |s| == 8
    requires Found(a) == FirstTrue(Matches(s, LF)) && Found(b) == FirstTrue(Matches(s, CR))
    ensures var k := Found(a | b);
      k <= 8 && Plain(s[..k]) && if k < 8 then Break(s[k]) else Plain(s)
  {
    FoundOr(a, b);
    FirstOfTwo(s, Found(a | b));
  }

  lemma FirstOfBoth(s: seq<bv8>, a: bv64, b: bv64)
    requires |s| == 8 && a == HasByte(Load(s), Mask(LF)) && b == HasByte(Load(s), Mask(CR))
    ensures var k := Found(a | b);
      k <= 8 && Plain(s[..k]) && if k < 8 then Break(s[k]) else Plain(s)
  {
    FindInWord(s, LF);
    FindInWord(s, CR);
    JoinedSearch(s, a, b);
  }

  /** SWAR::first_byte_pos of a hit is where the first line break is; no hit, no line break. */
  method FirstBreak(s: seq<bv8>) returns (found: bool, k: nat)
    requires |s| == 8
    ensures k <= 8 && Plain(s[..k])
    ensures if found then k < 8 && Break(s[k]) else k == 8
  {
    var word := Load(s);
    var a, b := HasByte(word, Mask(LF)), HasByte(word, Mask(CR));
    var hit := a | b;
    FirstOfBoth(s, a, b);
    found := hit != 0;
    k := if found then FirstByte(hit) else 8;
  }

  lemma FirstOfTwo(s: seq<bv8>, k: nat)
    requires |s| == 8
    requires var i, j := FirstTrue(Matches(s, LF)), FirstTrue(Matches(s, CR));
      k == if i < j then i else j
    ensures k <= 8 && Plain(s[..k]) && (k < 8 ==> Break(s[k]))
    ensures k == 8 ==> Plain(s)
  {
    forall i | 0 <= i < k
      ensures !Break(s[i])
    {
      assert !Matches(s, LF)[i] && !Matches(s, CR)[i];
    }
  }

  class Basestation {
    const line: array<bv8>
    var lineEnd: nat
    var dropping: bool
    /** Every byte received, and the lines handed to processLine. */
    ghost var heard: seq<bv8>
    var sent: seq<seq<bv8>>

    ghost function Current(): Splitter
      requires lineEnd <= line.Length
      reads this, line
    {
      Splitter(line[..lineEnd], dropping)
    }

    ghost predicate Valid()
      reads this, line
    {
      && line.Length == MAX_LINE && lineEnd <= MAX_LINE
      && FeedAll(INIT, heard).sent == sent
      && MakeRoom(FeedAll(INIT, heard).splitter) == MakeRoom(Current())
    }

    constructor ()
      ensures Valid() && heard == [] && sent == [] && fresh(line)
    {
      line := new bv8[MAX_LINE];
      lineEnd, dropping, heard, sent := 0, false, [], [];
    }

    /** Copies a word and finds the first line break in it: what to advance by, and whether to stop there. */
    method NextWord(input: seq<bv8>, src: nat, dst: nat) returns (step: nat, found: bool)
      requires src + 8 <= |input| && dst + 8 <= line.Length
      modifies line
      ensures step <= 8 && (found ==> step < 8 && Break(input[src + step])) && (!found ==> step == 8)
      ensures Plain(input[src..src + step])
      ensures line[..dst + step] == old(line[..dst]) + input[src..src + step]
    {
      var word := input[src..src + 8];
      forall k | 0 <= k < 8 {
        line[dst + k] := word[k];
      }
      found, step := FirstBreak(word);
      assert word[..step] == input[src..src + step];
    }

    /** The word loop: to the first word with a line break in it. */
    method CopyWords(input: seq<bv8>, start: nat, stop: nat) returns (src: nat)
      requires start <= stop <= |input| && lineEnd + (stop - start) <= line.Length
      modifies line
      ensures start <= src <= stop && Plain(input[start..src])
      ensures line[..lineEnd + (src - start)] == old(line[..lineEnd]) + input[start..src]
    {
      src := start;
      var found := false;
      while !found && src + 8 <= stop
        invariant start <= src <= stop && Plain(input[start..src])
        invariant line[..lineEnd + (src - start)] == old(line[..lineEnd]) + input[start..src]
        decreases !found, stop - src
      {
        var step;
        step, found := NextWord(input, src, lineEnd + (src - start));
        assert input[start..src + step] == input[start..src] + input[src..src + step];
        src := src + step;
      }
    }

    /** Up to the next line break or to `stop`; nothing is written past the end of the buffer. */
    method Copy(input: seq<bv8>, start: nat, stop: nat) returns (src: nat)
      requires start <= stop <= |input| && lineEnd + (stop - start) <= line.Length
      modifies `lineEnd, line
      ensures start <= src <= stop && Plain(input[start..src]) && (src < stop ==> Break(input[src]))
      ensures lineEnd == old(lineEnd) + (src - start) <= line.Length
      ensures line[..lineEnd] == old(line[..lineEnd]) + input[start..src]
    {
      src := CopyWords(input, start, stop);
      var dst := lineEnd + (src - start);
      while src < stop && input[src] != LF && input[src] != CR
        invariant start <= src <= stop && dst == lineEnd + (src - start) && lineEnd == old(lineEnd)
        invariant Plain(input[start..src])
        invariant line[..dst] == old(line[..lineEnd]) + input[start..src]
      {
        line[dst] := input[src];
        assert input[start..src + 1] == input[start..src] + [input[src]];
        dst := dst + 1;
        src := src + 1;
      }
      lineEnd := dst;
    }

    /** A line break was found: the line is delivered unless it is empty or its beginning is gone. */
    method EndLine(input: seq<bv8>, at: nat) returns (src: nat)
      requires line.Length == MAX_LINE && lineEnd < MAX_LINE && at < |input| && Break(input[at])
      modifies `lineEnd, `dropping, `sent
      ensures at < src <= |input| && lineEnd == 0 && !dropping
      ensures forall k :: at <= k < src ==> Break(input[k])
      ensures sent == old(sent) + if old(dropping) || old(lineEnd) == 0 then [] else [old(line[..lineEnd])]
    {
      if !dropping && lineEnd > 0 {
        sent := sent + [line[..lineEnd]];
      }
      src := at + 1;
      while src < |input| && (input[src] == LF || input[src] == CR)
        invariant at < src <= |input|
        invariant forall k :: at <= k < src ==> Break(input[k])
      {
        src := src + 1;
      }
      lineEnd := 0;
      dropping := false;
    }

    /** The rest of a line and the line breaks behind it, from where the copy loop stopped. */
    method Ended(input: seq<bv8>, start: nat, at: nat, ghost p: Splitter) returns (src: nat)
      requires line.Length == MAX_LINE && lineEnd < MAX_LINE && start <= at < |input| && Break(input[at])
      requires Plain(input[start..at]) && Current() == Splitter(p.line + input[start..at], p.dropping)
      modifies `lineEnd, `dropping, `sent
      ensures at < src <= |input| && lineEnd == 0
      ensures FeedAll(p, input[start..src]).splitter == Current()
      ensures sent == old(sent) + FeedAll(p, input[start..src]).sent
    {
      ghost var a, whole := input[start..at], line[..lineEnd];
      assert p.line + a == whole && |whole| == lineEnd;
      src := EndLine(input, at);
      FeedLine(p, a, input[at..src]);
      assert input[start..src] == a + input[at..src];
      assert Current() == INIT by {
        assert line[..0] == [];
      }
    }

    /** One turn of the loop over a chunk. */
    method Turn(input: seq<bv8>, start: nat) returns (src: nat)
      requires line.Length == MAX_LINE && lineEnd <= MAX_LINE && start < |input|
      modifies `lineEnd, `dropping, `sent, line
      ensures start <= src <= |input| && lineEnd <= MAX_LINE
      ensures src == start ==> lineEnd < old(lineEnd)
      ensures sent == old(sent) + FeedAll(old(Current()), input[start..src]).sent
      ensures MakeRoom(FeedAll(old(Current()), input[start..src]).splitter) == MakeRoom(Current())
    {
      var avail, room := |input| - start, MAX_LINE - lineEnd;
      var stop := start + if avail < room then avail else room;
      ghost var p := Current();
      src := Copy(input, start, stop);
      FeedPlain(p, input[start..src]);
      if src < stop {
        src := Ended(input, start, src, p);
      } else if stop < |input| {
        dropping := true;
        lineEnd := 0;
        assert Current() == Splitter([], true);
      }
    }

    /** A chunk of the stream. */
    method Receive(input: seq<bv8>)
      requires Valid()
      modifies this, line
      ensures Valid() && heard == old(heard) + input
    {
      var src := 0;
      assert heard + input[..0] == heard;
      while src < |input|
        invariant 0 <= src <= |input| && heard == old(heard)
        invariant line.Length == MAX_LINE && lineEnd <= MAX_LINE
        invariant sent == FeedAll(INIT, heard + input[..src]).sent
        invariant MakeRoom(FeedAll(INIT, heard + input[..src]).splitter) == MakeRoom(Current())
        decreases |input| - src, lineEnd
      {
        ghost var was, before := src, heard + input[..src];
        ghost var p, q := FeedAll(INIT, before).splitter, Current();
        src := Turn(input, src);
        ghost var part := input[was..src];
        assert heard + input[..src] == before + part;
        FeedConcat(INIT, before, part);
        FeedEither(p, q, part);
      }
      assert input[..src] == input;
      heard := heard + input;
    }

    /** Whatever the pieces were, processLine gets exactly the short lines of all that was received. */
    lemma Delivered()
      requires Valid()
      ensures sent == ShortLines(heard)
    {
      DeliversShortLines(heard);
    }
  }
}