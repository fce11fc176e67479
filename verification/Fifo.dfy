/**
 The block FIFO of Source/Library/FIFO.h between one producer and one consumer. Every method body runs under the
 lock and is one step; a Push that waits for space lets the consumer take any finite number of steps in between.
 */
module Fifo {
  import opened Arith
  import opened Seqs

  // ---------------------------------------------------------------- a ring in a sequence

  /** pos + n around a ring of `size` places. */
  function Advance(pos: nat, n: nat, size: nat): (r: nat)
    requires pos < size && n <= size
    ensures r < size
  {
    if pos + n >= size then pos + n - size else pos + n
  }

  /** The len elements that start at head. */
  ghost function Ring<T>(d: seq<T>, head: nat, len: nat): (s: seq<T>)
    requires head < |d| && len <= |d|
    ensures |s| == len
  {
    if len == 0 then [] else Ring(d, head, len - 1) + [d[Advance(head, len - 1, |d|)]]
  }

  /** w is d with src written from pos on, around the end if need be. */
  ghost predicate Stored<T>(d: seq<T>, pos: nat, src: seq<T>, w: seq<T>) {
    && pos < |d| == |w| && |src| <= |d|
    && (forall i: nat {:trigger Advance(pos, i, |d|)} :: i < |src| ==> w[Advance(pos, i, |d|)] == src[i])
    && (forall i: nat {:trigger Advance(pos, i, |d|)} :: |src| <= i < |d| ==>
          w[Advance(pos, i, |d|)] == d[Advance(pos, i, |d|)])
  }

  lemma {:induction false} RingAt<T>(d: seq<T>, head: nat, len: nat, i: nat)
    requires head < |d| && len <= |d| && i < len
    ensures Ring(d, head, len)[i] == d[Advance(head, i, |d|)]
  {
    if i < len - 1 {
      RingAt(d, head, len - 1, i);
    }
  }

  /** Writing behind the pending elements appends, and touches none of them. */
  lemma RingPush<T>(d: seq<T>, head: nat, tail: nat, len: nat, src: seq<T>, w: seq<T>)
    requires head < |d| && len + |src| <= |d| && tail == Advance(head, len, |d|) && Stored(d, tail, src, w)
    ensures Ring(w, head, len) == Ring(d, head, len)
    ensures Ring(w, head, len + |src|) == Ring(d, head, len) + src
  {
    var n := |d|;
    var before, after, longer := Ring(d, head, len), Ring(w, head, len), Ring(w, head, len + |src|);
    forall i | 0 <= i < len
      ensures after[i] == before[i] && longer[i] == before[i]
    {
      RingAt(d, head, len, i);
      RingAt(w, head, len, i);
      RingAt(w, head, len + |src|, i);
      // place i of the ring is place n - len + i counted from the tail
      assert Advance(tail, n - len + i, n) == Advance(head, i, n);
    }
    forall i | 0 <= i < |src|
      ensures longer[len + i] == src[i]
    {
      RingAt(w, head, len + |src|, len + i);
      assert Advance(tail, i, n) == Advance(head, len + i, n);
    }
    assert longer == before + src;
  }

  /** A store behind the pending elements leaves them pending, and the new ones behind them. */
  lemma RingStored<T>(d: seq<T>, head: nat, tail: nat, p: seq<T>, src: seq<T>, w: seq<T>)
    requires head < |d| && |p| + |src| <= |d| && tail == Advance(head, |p|, |d|) && p == Ring(d, head, |p|)
    requires Stored(d, tail, src, w)
    ensures Advance(tail, |src|, |d|) == Advance(head, |p + src|, |d|)
    ensures Ring(w, head, |p|) == p && Ring(w, head, |p + src|) == p + src
  {
    AdvanceTwice(head, |p|, |src|, |d|);
    RingPush(d, head, tail, |p|, src, w);
  }

  lemma RingPop<T>(d: seq<T>, head: nat, len: nat, n: nat)
    requires head < |d| && n <= len <= |d|
    ensures Ring(d, Advance(head, n, |d|), len - n) == Ring(d, head, len)[n..]
  {
    var h := Advance(head, n, |d|);
    var rest := Ring(d, head, len)[n..];
    forall i | 0 <= i < len - n
      ensures Ring(d, h, len - n)[i] == rest[i]
    {
      RingAt(d, h, len - n, i);
      RingAt(d, head, len, n + i);
      assert Advance(h, i, |d|) == Advance(head, n + i, |d|);
    }
  }

  // ---------------------------------------------------------------- counting in blocks

  /** The number of elements in so many blocks of bs. */
  function Elements(blocks: nat, bs: nat): nat {
    if blocks == 0 then 0 else Elements(blocks - 1, bs) + bs
  }

  lemma {:induction false} ElementsIsProduct(blocks: nat, bs: nat)
    ensures Elements(blocks, bs) == blocks * bs
  {
    if blocks != 0 {
      ElementsIsProduct(blocks - 1, bs);
      MulAdd(blocks - 1, 1, bs);
    }
  }

  lemma {:induction false} ElementsAdd(a: nat, b: nat, bs: nat)
    ensures Elements(a + b, bs) == Elements(a, bs) + Elements(b, bs)
  {
    if b != 0 {
      ElementsAdd(a, b - 1, bs);
    }
  }

  lemma ElementsMonotone(a: nat, b: nat, bs: nat)
    requires a <= b
    ensures Elements(a, bs) <= Elements(b, bs)
    ensures a < b ==> Elements(a, bs) + bs <= Elements(b, bs)
  {
    ElementsAdd(a, b - a, bs);
  }

  lemma PartOf(b: nat, bs: nat, part: nat)
    requires part < bs
    ensures (Elements(b, bs) + part) % bs == part
  {
    ElementsIsProduct(b, bs);
    DivModUnique(b, bs, part);
  }

  /** The block the tail stands in. */
  lemma TailBlock(bs: nat, n: nat, hb: nat, filled: nat, part: nat) returns (b: nat)
    requires bs > 0 && hb < n && part < bs && Elements(filled, bs) + part <= Elements(n, bs)
    ensures Elements(hb, bs) < Elements(n, bs)
    ensures Advance(Elements(hb, bs), Elements(filled, bs) + part, Elements(n, bs)) == Elements(b, bs) + part
  {
    ElementsMonotone(hb, n, bs);
    ElementsAdd(hb, filled, bs);
    if hb + filled < n {
      ElementsMonotone(hb + filled, n, bs);
      b := hb + filled;
    } else {
      b := hb + filled - n;
      ElementsAdd(b, n, bs);
    }
  }

  /** The number of blocks that hold x > 0 elements. */
  function BlocksFor(x: nat, bs: nat): nat
    requires bs > 0
  {
    if x <= bs then 1 else 1 + BlocksFor(x - bs, bs)
  }

  /** The formula of Source/Library/FIFO.h:147. */
  lemma {:induction false} BlocksForIsQuotient(x: nat, bs: nat)
    requires bs > 0 && x > 0
    ensures BlocksFor(x, bs) == (x - 1) / bs + 1
    decreases x
  {
    if x <= bs {
      DivModUnique(0, bs, x - 1);
    } else {
      BlocksForIsQuotient(x - bs, bs);
      DivMod(x - bs - 1, bs);
      var q := (x - bs - 1) / bs;
      MulAdd(q, 1, bs);
      DivModUnique(q + 1, bs, (x - bs - 1) % bs);
    }
  }

  lemma {:induction false} BlocksForIsLeast(x: nat, bs: nat, k: nat)
    requires bs > 0 && x > 0
    ensures BlocksFor(x, bs) <= k <==> x <= Elements(k, bs)
    decreases x
  {
    if x <= bs {
      if k != 0 {
        ElementsMonotone(1, k, bs);
      }
    } else if k != 0 {
      BlocksForIsLeast(x - bs, bs, k - 1);
    }
  }

  /** The space check of Source/Library/FIFO.h:153 asks exactly whether the elements fit. */
  lemma FitsExactly(bs: nat, n: nat, filled: nat, part: nat, sz: nat)
    requires bs > 0 && sz > 0 && filled <= n
    ensures filled + BlocksFor(part + sz, bs) <= n <==> Elements(filled, bs) + part + sz <= Elements(n, bs)
  {
    BlocksForIsLeast(part + sz, bs, n - filled);
    ElementsAdd(filled, n - filled, bs);
  }

  /** Blocks completed by x elements, and what is left over. */
  lemma WholeBlocks(x: nat, bs: nat)
    requires bs > 0
    ensures x == Elements(x / bs, bs) + x % bs && 0 <= x % bs < bs
  {
    DivMod(x, bs);
    ElementsIsProduct(x / bs, bs);
  }

  lemma CompletedFit(bs: nat, n: nat, filled: nat, ready: nat)
    requires bs > 0 && Elements(filled, bs) + Elements(ready, bs) <= Elements(n, bs)
    ensures filled + ready <= n
  {
    ElementsAdd(filled, ready, bs);
    FilledAtLeast(n, 0, filled + ready, bs);
  }

  lemma PopNumbers(bs: nat, n: nat, hb: nat, filled: nat, count: nat)
    requires bs > 0 && hb < n && count <= filled <= n
    ensures Elements(filled, bs) == Elements(count, bs) + Elements(filled - count, bs)
    ensures Elements(hb, bs) < Elements(n, bs) && Elements(count, bs) <= Elements(n, bs)
    ensures var hb' := if hb + count >= n then hb + count - n else hb + count;
            && hb' < n && Elements(hb', bs) < Elements(n, bs)
            && Advance(Elements(hb, bs), Elements(count, bs), Elements(n, bs)) == Elements(hb', bs)
            && (Elements(hb, bs) + Elements(count, bs)) % Elements(n, bs) == Elements(hb', bs)
  {
    ElementsAdd(count, filled - count, bs);
    ElementsMonotone(hb, n, bs);
    ElementsMonotone(count, n, bs);
    ElementsAdd(hb, count, bs);
    var hb' := if hb + count >= n then hb + count - n else hb + count;
    ElementsMonotone(hb', n, bs);
    if hb + count >= n {
      ElementsAdd(hb', n, bs);
      DivModUnique(1, Elements(n, bs), Elements(hb', bs));
    } else {
      DivModUnique(0, Elements(n, bs), Elements(hb', bs));
    }
  }

  lemma AdvanceTwice(pos: nat, m: nat, n: nat, size: nat)
    requires pos < size && m + n <= size
    ensures Advance(Advance(pos, m, size), n, size) == Advance(pos, m + n, size)
  {
  }

  lemma AdvanceIsMod(pos: nat, n: nat, size: nat)
    requires pos < size && n <= size
    ensures Advance(pos, n, size) == (pos + n) % size
  {
    DivModUnique(if pos + n >= size then 1 else 0, size, Advance(pos, n, size));
  }

  lemma BlocksToWrap(bs: nat, n: nat, hb: nat)
    requires bs > 0 && hb < n
    ensures Elements(hb, bs) < Elements(n, bs) && (Elements(n, bs) - Elements(hb, bs)) / bs == n - hb
  {
    ElementsMonotone(hb, n, bs);
    ElementsAdd(hb, n - hb, bs);
    ElementsIsProduct(n - hb, bs);
    DivModUnique(n - hb, bs, 0);
  }

  lemma RegionFits(bs: nat, n: nat, hb: nat, count: nat)
    requires bs > 0 && hb < n
    ensures Elements(hb, bs) + Elements(count, bs) <= Elements(n, bs) <==> count <= n - hb
  {
    ElementsAdd(hb, count, bs);
    if count <= n - hb {
      ElementsMonotone(hb + count, n, bs);
    } else {
      ElementsMonotone(n, hb + count, bs);
    }
  }

  // ---------------------------------------------------------------- the FIFO

  /** The blocks that x elements complete and the blocks they touch. */
  method CountBlocks(x: nat, bs: nat) returns (ready: nat, needed: nat, ghost rest: nat)
    requires bs > 0 && x > 0
    ensures x == Elements(ready, bs) + rest && rest < bs && needed == BlocksFor(x, bs)
  {
    ready := x / bs;
    needed := (x - 1) / bs + 1;
    rest := x % bs;
    WholeBlocks(x, bs);
    BlocksForIsQuotient(x, bs);
  }

  /** One step of the consumer while a producer waits for space. */
  datatype Turn = Pops(count: int) | Halts

  datatype Outcome = Accepted | Refused | StillWaiting

  // ---------------------------------------------------------------- waiting for space

  /** What is pending when up to `count` whole blocks have left, one after the other. */
  function AfterPop(pending: nat, bs: nat, count: int): nat
    requires bs > 0
    decreases pending
  {
    if count <= 0 || pending < bs then pending else AfterPop(pending - bs, bs, count - 1)
  }

  /** What is pending after the consumer's turns. */
  function PendingAfter(pending: nat, bs: nat, turns: seq<Turn>): nat
    requires bs > 0
    decreases |turns|
  {
    if turns == [] then pending
    else PendingAfter(if turns[0].Pops? then AfterPop(pending, bs, turns[0].count) else pending, bs, turns[1..])
  }

  /** The first k turns have no halt in them and leave room for sz elements among `cap`. */
  predicate RoomAt(pending: nat, sz: nat, cap: nat, bs: nat, turns: seq<Turn>, k: nat)
    requires bs > 0
  {
    k <= |turns| && Halts !in turns[..k] && PendingAfter(pending, bs, turns[..k]) + sz <= cap
  }

  /** There is room at once, or before any halt the consumer pops enough. */
  ghost predicate RoomComes(pending: nat, sz: nat, cap: nat, bs: nat, turns: seq<Turn>)
    requires bs > 0
  {
    exists k: nat :: RoomAt(pending, sz, cap, bs, turns, k)
  }

  /** How a wait for room ends, turn by turn. */
  function Verdict(pending: nat, sz: nat, cap: nat, bs: nat, turns: seq<Turn>): Outcome
    requires bs > 0
    decreases |turns|
  {
    if pending + sz <= cap then Accepted
    else if turns == [] then StillWaiting
    else if turns[0] == Halts then Refused
    else Verdict(AfterPop(pending, bs, turns[0].count), sz, cap, bs, turns[1..])
  }

  /** What becomes of a push into a FIFO that is not halted. */
  function Answer(wait: bool, pending: nat, sz: nat, cap: nat, bs: nat, turns: seq<Turn>): Outcome
    requires bs > 0
  {
    if wait then Verdict(pending, sz, cap, bs, turns)
    else if pending + sz <= cap then Accepted else Refused
  }

  /** A wait is accepted exactly if room comes; otherwise a halt refuses it, and nothing else does. */
  lemma {:induction false} VerdictIs(pending: nat, sz: nat, cap: nat, bs: nat, turns: seq<Turn>)
    requires bs > 0
    ensures Verdict(pending, sz, cap, bs, turns) == Accepted <==> RoomComes(pending, sz, cap, bs, turns)
    ensures Verdict(pending, sz, cap, bs, turns) == Refused
      <==> Halts in turns && !RoomComes(pending, sz, cap, bs, turns)
    decreases |turns|
  {
    RoomAtOnce(pending, sz, cap, bs, turns);
    if pending + sz > cap && turns != [] {
      assert turns == [turns[0]] + turns[1..];
      if turns[0].Pops? {
        VerdictIs(AfterPop(pending, bs, turns[0].count), sz, cap, bs, turns[1..]);
        RoomLater(pending, sz, cap, bs, turns);
      } else {
        NoRoomAfterHalt(pending, sz, cap, bs, turns);
      }
    }
  }

  /**
    What becomes of a push, from what is pending and the consumer's turns alone: accepted exactly if
    it fits, or, when it waits, if room comes; a push that waits is refused exactly if a halt comes
    first, and waits on exactly if neither comes.
  */
  lemma AnswerIs(wait: bool, pending: nat, sz: nat, cap: nat, bs: nat, turns: seq<Turn>)
    requires bs > 0
    ensures var r := Answer(wait, pending, sz, cap, bs, turns);
      && (!wait ==> r == if pending + sz <= cap then Accepted else Refused)
      && (wait ==> (r == Accepted <==> RoomComes(pending, sz, cap, bs, turns)))
      && (wait ==> (r == Refused <==> Halts in turns && !RoomComes(pending, sz, cap, bs, turns)))
  {
    VerdictIs(pending, sz, cap, bs, turns);
  }

  lemma RoomAtOnce(pending: nat, sz: nat, cap: nat, bs: nat, turns: seq<Turn>)
    requires bs > 0
    ensures pending + sz <= cap <==> RoomAt(pending, sz, cap, bs, turns, 0)
    ensures pending + sz > cap && turns == [] ==> !RoomComes(pending, sz, cap, bs, turns)
  {
    assert turns[..0] == [];
  }

  lemma NoRoomAfterHalt(pending: nat, sz: nat, cap: nat, bs: nat, turns: seq<Turn>)
    requires bs > 0 && turns != [] && turns[0] == Halts && pending + sz > cap
    ensures !RoomComes(pending, sz, cap, bs, turns)
  {
    forall k: nat | 0 < k <= |turns|
      ensures !RoomAt(pending, sz, cap, bs, turns, k)
    {
      assert turns[..k][0] == Halts;
    }
    RoomAtOnce(pending, sz, cap, bs, turns);
  }

  lemma RoomLater(pending: nat, sz: nat, cap: nat, bs: nat, turns: seq<Turn>)
    requires bs > 0 && turns != [] && turns[0].Pops? && pending + sz > cap
    ensures var next := AfterPop(pending, bs, turns[0].count);
            RoomComes(pending, sz, cap, bs, turns) <==> RoomComes(next, sz, cap, bs, turns[1..])
  {
    var next := AfterPop(pending, bs, turns[0].count);
    RoomAtOnce(pending, sz, cap, bs, turns);
    forall k: nat | k < |turns|
      ensures RoomAt(pending, sz, cap, bs, turns, k + 1) <==> RoomAt(next, sz, cap, bs, turns[1..], k)
    {
      assert turns[..k + 1] == [turns[0]] + turns[1..][..k];
    }
    if k: nat :| RoomAt(pending, sz, cap, bs, turns, k) {
      assert RoomAt(next, sz, cap, bs, turns[1..], k - 1);
    }
    if k: nat :| RoomAt(next, sz, cap, bs, turns[1..], k) {
      assert RoomAt(pending, sz, cap, bs, turns, k + 1);
    }
  }

  /** Blocks filled and blocks asked for, the fewer of them, leave one by one. */
  lemma {:induction false} AfterPopIs(filled: nat, part: nat, bs: nat, count: int)
    requires part < bs
    ensures var left := if count <= 0 then filled else filled - Min(filled, count);
            AfterPop(Elements(filled, bs) + part, bs, count) == Elements(left, bs) + part
  {
    if count > 0 && filled > 0 {
      AfterPopIs(filled - 1, part, bs, count - 1);
    }
  }

  class FIFO<T(0)> {
    var data: array<T>
    var head: nat
    var tail: nat
    var lastInput: bool
    var blocksFilled: int
    var blockSize: nat
    var nBlocks: nat
    // the block the head stands at, and how many elements stand past the last whole block
    ghost var headBlock: nat
    ghost var part: nat
    // the elements pushed and not popped, oldest first
    ghost var pending: seq<T>
    // everything accepted by Push and everything released by Pop since Init
    ghost var accepted: seq<T>
    ghost var popped: seq<T>

    ghost predicate Shaped()
      reads this
    {
      && blockSize > 0 && data.Length == Elements(nBlocks, blockSize)
      && headBlock < nBlocks && head == Elements(headBlock, blockSize)
      && head < data.Length && tail < data.Length
      && -1 <= blocksFilled <= nBlocks
    }

    ghost predicate Halted()
      reads this
    {
      blocksFilled == -1
    }

    /** Halting loses the count of whole blocks and nothing else. */
    ghost predicate Valid()
      reads this, data
    {
      && Shaped()
      && part < blockSize && |pending| <= data.Length
      && tail == Advance(head, |pending|, data.Length)
      && pending == Ring(data[..], head, |pending|)
      && accepted == popped + pending
      && (!Halted() ==> |pending| == Elements(blocksFilled, blockSize) + part)
    }

    constructor (bs: nat, fs: nat)
      requires bs > 0 && fs > 0
      ensures Valid() && !Halted() && accepted == popped == [] && blockSize == bs && nBlocks == fs && head == 0
      ensures fresh(data)
    {
      blockSize, nBlocks := bs, fs;
      blocksFilled, head, tail, lastInput := 0, 0, 0, false;
      headBlock, part, pending, accepted, popped := 0, 0, [], [], [];
      ElementsIsProduct(fs, bs);
      ElementsMonotone(0, fs, bs);
      data := new T[fs * bs];
    }

    /** Source/Library/FIFO.h:66-73 */
    method Halt()
      requires Valid()
      modifies this`blocksFilled
      ensures Valid() && Halted()
    {
      blocksFilled := -1;
    }

    /** Source/Library/FIFO.h:75-80 */
    method PushFinished()
      requires Valid()
      modifies this`lastInput
      ensures Valid() && lastInput
    {
      lastInput := true;
    }

    /** What Wait returns once it stops waiting, Source/Library/FIFO.h:91: whether a whole block is pending. */
    method Wait() returns (ready: bool)
      requires Valid()
      ensures ready <==> !Halted() && |pending| >= blockSize
    {
      ready := blocksFilled > 0;
      if ready {
        ElementsMonotone(1, blocksFilled, blockSize);
      }
    }

    /** `head = (head + count * BLOCK_SIZE) % size`, Source/Library/FIFO.h:120. */
    method AdvanceHead(k: nat)
      requires Shaped() && k <= blocksFilled
      modifies this`head, this`headBlock
      ensures Shaped() && Elements(k, blockSize) <= data.Length
      ensures head == Advance(old(head), Elements(k, blockSize), data.Length)
      ensures Elements(blocksFilled, blockSize) == Elements(k, blockSize) + Elements(blocksFilled - k, blockSize)
    {
      ElementsIsProduct(k, blockSize);
      PopNumbers(blockSize, nBlocks, headBlock, blocksFilled, k);
      head := (head + k * blockSize) % data.Length;
      headBlock := if headBlock + k >= nBlocks then headBlock + k - nBlocks else headBlock + k;
    }

    /** Source/Library/FIFO.h:111-125. Releases whole blocks from the front, or nothing once halted. */
    method Pop(count: int)
      requires Valid()
      modifies this`head, this`blocksFilled, this`headBlock, this`pending, this`popped
      ensures Valid()
      ensures if old(blocksFilled) <= 0 || count <= 0 then
                && head == old(head) && blocksFilled == old(blocksFilled)
                && pending == old(pending) && popped == old(popped)
              else
                var k := Min(old(blocksFilled), count);
                && blocksFilled == old(blocksFilled) - k
                && Elements(k, blockSize) <= |old(pending)|
                && head == Advance(old(head), Elements(k, blockSize), data.Length)
                && popped == old(popped) + old(pending)[..Elements(k, blockSize)]
                && pending == old(pending)[Elements(k, blockSize)..]
    {
      var k := if blocksFilled < count then blocksFilled else count;
      if k > 0 {
        Release(k);
      }
    }

    /** Moves the head over k whole pending blocks. */
    method Release(k: nat)
      requires Valid() && k <= blocksFilled
      modifies this`head, this`blocksFilled, this`headBlock, this`pending, this`popped
      ensures Valid() && blocksFilled == old(blocksFilled) - k && Elements(k, blockSize) <= |old(pending)|
      ensures head == Advance(old(head), Elements(k, blockSize), data.Length)
      ensures popped == old(popped) + old(pending)[..Elements(k, blockSize)]
      ensures pending == old(pending)[Elements(k, blockSize)..]
    {
      ghost var n, from := Elements(k, blockSize), head;
      AdvanceHead(k);
      RingReleased(data[..], from, pending, n, popped);
      popped := popped + pending[..n];
      blocksFilled := blocksFilled - k;
      pending := pending[n..];
    }

    /**
     Source/Library/FIFO.h:99-109. Asked for as much as possible it hands out the pending blocks up to the end of
     the buffer. Asked for a number, it may hand out more: the region lies inside the buffer exactly when the
     blocks asked for, or all that are filled, are no more than the whole blocks before the end.
     */
    method Front(requested: int) returns (offset: nat, count: int)
      requires Valid()
      ensures offset == head && count <= blocksFilled && (Halted() ==> count == -1)
      ensures requested < 0 ==> count == Min(Room(), blocksFilled)
      ensures 0 <= requested ==> count == Min(requested, blocksFilled)
      ensures !Halted() ==>
                && 0 <= count && Elements(count, blockSize) <= |pending|
                && (offset + Elements(count, blockSize) <= data.Length
                    <==> requested < 0 || Min(requested, blocksFilled) <= Room())
      ensures !Halted() && offset + Elements(count, blockSize) <= data.Length ==>
                data[offset..offset + Elements(count, blockSize)] == pending[..Elements(count, blockSize)]
    {
      count := Granted(requested);
      offset := head;
      if blocksFilled != -1 {
        ElementsMonotone(count, blocksFilled, blockSize);
        RegionFits(blockSize, nBlocks, headBlock, count);
        RegionIfInside(data[..], head, pending, Elements(count, blockSize));
      }
    }

    /** The count of Source/Library/FIFO.h:101-106. */
    method Granted(requested: int) returns (count: int)
      requires Shaped()
      ensures requested < 0 ==> count == Min(Room(), blocksFilled)
      ensures 0 <= requested ==> count == Min(requested, blocksFilled)
      ensures -1 <= count <= blocksFilled && (0 <= blocksFilled ==> 0 <= count)
      ensures count <= nBlocks - headBlock <==> requested < 0 || Min(requested, blocksFilled) <= Room()
    {
      BlocksToWrap(blockSize, nBlocks, headBlock);
      var wanted := requested;
      if requested < 0 {
        wanted := ToWrap();
      }
      count := if blocksFilled < wanted then blocksFilled else wanted;
    }

    /** The whole blocks between the head and the end of the buffer. */
    ghost function Room(): nat
      requires Shaped()
      reads this
    {
      (data.Length - head) / blockSize
    }

    /** `(_data.size() - head) / BLOCK_SIZE`, the whole blocks before the end of the buffer. */
    method ToWrap() returns (k: nat)
      requires Shaped()
      ensures k == Room() == nBlocks - headBlock
    {
      BlocksToWrap(blockSize, nBlocks, headBlock);
      k := (data.Length - head) / blockSize;
    }

    /** The two copies of Source/Library/FIFO.h:173-181. */
    method CopyIn(src: seq<T>)
      requires tail < data.Length && |src| <= data.Length
      modifies data
      ensures Stored(old(data[..]), tail, src, data[..])
    {
      var wrap := tail + |src| - data.Length;
      if wrap <= 0 {
        forall i | 0 <= i < |src| {
          data[tail + i] := src[i];
        }
      } else {
        forall i | 0 <= i < |src| - wrap {
          data[tail + i] := src[i];
        }
        forall i | 0 <= i < wrap {
          data[i] := src[|src| - wrap + i];
        }
      }
    }

    /** `tail = (tail + sz) % size`, Source/Library/FIFO.h:183. */
    method AdvanceTail(sz: nat)
      requires tail < data.Length && sz <= data.Length
      modifies this`tail
      ensures tail == Advance(old(tail), sz, data.Length)
    {
      AdvanceIsMod(tail, sz, data.Length);
      tail := (tail + sz) % data.Length;
    }

    /** The part of Push after the space check, Source/Library/FIFO.h:173-190; `ready` was computed before any wait. */
    method Store(src: seq<T>, ready: nat, ghost rest: nat)
      requires Valid() && !Halted()
      requires part + |src| == Elements(ready, blockSize) + rest && rest < blockSize
      requires |pending| + |src| <= data.Length && blocksFilled + ready <= nBlocks
      modifies this`tail, this`blocksFilled, this`part, this`pending, this`accepted, data
      ensures Valid() && !Halted() && accepted == old(accepted) + src
      ensures pending == old(pending) + src
      ensures Ring(data[..], head, |old(pending)|) == old(pending)
    {
      ghost var before := data[..];
      ElementsAdd(blocksFilled, ready, blockSize);
      Regroup(popped, pending, src);
      ghost var from := tail;
      CopyIn(src);
      AdvanceTail(|src|);
      RingStored(before, head, from, pending, src, data[..]);
      part := rest;
      blocksFilled := blocksFilled + ready;
      pending := pending + src;
      accepted := accepted + src;
    }

    /** What the consumer may do while the producer waits. */
    method Take(turn: Turn)
      requires Valid()
      modifies this`head, this`blocksFilled, this`headBlock, this`pending, this`popped
      ensures Valid() && old(popped) <= popped
      ensures old(Halted()) ==> Halted() && popped == old(popped)
      ensures !old(Halted()) ==> (Halted() <==> turn == Halts)
      ensures !Halted() ==> |pending| == AfterPop(|old(pending)|, blockSize, turn.count)
    {
      match turn {
        case Pops(count) =>
          if blocksFilled != -1 {
            AfterPopIs(blocksFilled, part, blockSize, count);
          }
          Pop(count);
        case Halts => Halt();
      }
    }

    /** The wait for space, Source/Library/FIFO.h:157-160, against any finite number of steps of the consumer. */
    method AwaitSpace(ghost sz: nat, needed: nat, turns: seq<Turn>) returns (space: bool)
      requires Valid() && !Halted() && sz > 0 && needed == BlocksFor(part + sz, blockSize)
      modifies this`head, this`blocksFilled, this`headBlock, this`pending, this`popped
      ensures Valid() && old(popped) <= popped
      ensures turns == [] ==> popped == old(popped) && head == old(head) && blocksFilled == old(blocksFilled)
      ensures space <==> Halted() || blocksFilled + needed <= nBlocks
      ensures Verdict(|old(pending)|, sz, data.Length, blockSize, turns)
        == if !space then StillWaiting else if Halted() then Refused else Accepted
    {
      var i := 0;
      ghost var verdict := Verdict(|pending|, sz, data.Length, blockSize, turns);
      assert turns[0..] == turns;
      while blocksFilled != -1 && blocksFilled + needed > nBlocks && i < |turns|
        invariant Valid() && old(popped) <= popped
        invariant turns == [] ==> popped == old(popped) && head == old(head) && blocksFilled == old(blocksFilled)
        invariant i <= |turns| && (Halted() ==> verdict == Refused)
        invariant !Halted() ==> verdict == Verdict(|pending|, sz, data.Length, blockSize, turns[i..])
        decreases |turns| - i
      {
        FitsExactly(blockSize, nBlocks, blocksFilled, part, sz);
        assert turns[i..][1..] == turns[i + 1..];
        Take(turns[i]);
        i := i + 1;
      }
      if blocksFilled != -1 {
        FitsExactly(blockSize, nBlocks, blocksFilled, part, sz);
      }
      space := blocksFilled == -1 || blocksFilled + needed <= nBlocks;
    }

    /** The numbers of Source/Library/FIFO.h:146-147; they depend on the tail alone. */
    method Numbers(sz: nat) returns (ready: nat, needed: nat, ghost rest: nat)
      requires Valid() && !Halted() && sz > 0
      ensures part + sz == Elements(ready, blockSize) + rest && rest < blockSize
      ensures needed == BlocksFor(part + sz, blockSize)
    {
      ghost var b := TailBlock(blockSize, nBlocks, headBlock, blocksFilled, part);
      PartOf(b, blockSize, part);
      ready, needed, rest := CountBlocks(tail % blockSize + sz, blockSize);
    }

    /**
     Source/Library/FIFO.h:138-191. `turns` is what the consumer does while the producer waits for space; when it
     has nothing left to do and there is still no space the producer is still waiting. The numbers computed on
     entry are used after the wait: they stay right because only the producer moves the tail.
     */
    method Push(src: seq<T>, wait: bool, turns: seq<Turn>) returns (r: Outcome)
      requires Valid()
      modifies this`head, this`headBlock, this`popped, this`pending, this`blocksFilled
      modifies this`tail, this`part, this`accepted, data
      ensures Valid() && old(popped) <= popped
      ensures !wait || turns == [] ==> popped == old(popped) && head == old(head) && Halted() == old(Halted())
      ensures accepted == old(accepted) + if r == Accepted then src else []
      ensures r != Accepted ==> data[..] == old(data[..]) && tail == old(tail)
      ensures src != [] && r != Refused ==> !Halted()
      ensures old(Halted()) ==> Halted()
      ensures r == if src == [] then Accepted else if old(Halted()) then Refused
                   else Answer(wait, |old(pending)|, |src|, data.Length, blockSize, turns)
      ensures Survives(old(pending), |popped| - |old(popped)|, pending, if r == Accepted then src else [],
                       data[..], head)
    {
      r := PushAny(src, wait, turns);
      ghost var added := if r == Accepted then src else [];
      PendingSurvives(old(popped), old(pending), popped, pending, added, data[..], head);
    }

    method PushAny(src: seq<T>, wait: bool, turns: seq<Turn>) returns (r: Outcome)
      requires Valid()
      modifies this`head, this`headBlock, this`popped, this`pending, this`blocksFilled
      modifies this`tail, this`part, this`accepted, data
      ensures Valid() && old(popped) <= popped
      ensures !wait || turns == [] ==> popped == old(popped) && head == old(head) && Halted() == old(Halted())
      ensures accepted == old(accepted) + (if r == Accepted then src else []) && (r == Accepted ==> |src| <= |pending|)
      ensures r != Accepted ==> data[..] == old(data[..]) && tail == old(tail)
      ensures src != [] && r != Refused ==> !Halted()
      ensures old(Halted()) ==> Halted()
      ensures r == if src == [] then Accepted else if old(Halted()) then Refused
                   else Answer(wait, |old(pending)|, |src|, data.Length, blockSize, turns)
    {
      ghost var answer := Answer(wait, |pending|, |src|, data.Length, blockSize, turns);
      if |src| == 0 {
        assert src == [];
        r := Accepted;
      } else if blocksFilled == -1 {
        r := Refused;
      } else {
        r := PushSome(src, wait, turns, answer);
      }
    }

    method PushSome(src: seq<T>, wait: bool, turns: seq<Turn>, ghost answer: Outcome) returns (r: Outcome)
      requires Valid() && !Halted() && |src| > 0
      requires answer == Answer(wait, |pending|, |src|, data.Length, blockSize, turns)
      modifies this`head, this`headBlock, this`popped, this`pending, this`blocksFilled
      modifies this`tail, this`part, this`accepted, data
      ensures Valid() && old(popped) <= popped
      ensures !wait || turns == [] ==> popped == old(popped) && head == old(head) && Halted() == old(Halted())
      ensures accepted == old(accepted) + (if r == Accepted then src else []) && (r == Accepted ==> |src| <= |pending|)
      ensures r != Accepted ==> data[..] == old(data[..]) && tail == old(tail)
      ensures r != Refused ==> !Halted()
      ensures r == answer
    {
      var ready;
      ghost var rest;
      r, ready, rest := Reserve(|src|, wait, turns, answer);
      if r == Accepted {
        StoreChecked(src, ready, rest);
      }
    }

    /** The numbers, computed on entry, and the space for them. */
    method Reserve(sz: nat, wait: bool, turns: seq<Turn>, ghost answer: Outcome)
      returns (r: Outcome, ready: nat, ghost rest: nat)
      requires Valid() && !Halted() && sz > 0
      requires answer == Answer(wait, |pending|, sz, data.Length, blockSize, turns)
      modifies this`head, this`blocksFilled, this`headBlock, this`pending, this`popped
      ensures Valid() && old(popped) <= popped && r == answer && (r != Refused ==> !Halted())
      ensures !wait || turns == [] ==> popped == old(popped) && head == old(head) && Halted() == old(Halted())
      ensures r == Accepted ==> blocksFilled + BlocksFor(part + sz, blockSize) <= nBlocks
      ensures part + sz == Elements(ready, blockSize) + rest && rest < blockSize
    {
      var needed;
      ready, needed, rest := Numbers(sz);
      r := FindSpace(sz, needed, wait, turns, answer);
    }

    /** The decisions of Source/Library/FIFO.h:153-171: go on and store, give up, or keep waiting. */
    method FindSpace(ghost sz: nat, needed: nat, wait: bool, turns: seq<Turn>, ghost answer: Outcome)
      returns (r: Outcome)
      requires Valid() && !Halted() && sz > 0 && needed == BlocksFor(part + sz, blockSize)
      requires answer == Answer(wait, |pending|, sz, data.Length, blockSize, turns)
      modifies this`head, this`blocksFilled, this`headBlock, this`pending, this`popped
      ensures Valid() && old(popped) <= popped
      ensures !wait || turns == [] ==> popped == old(popped) && head == old(head) && blocksFilled == old(blocksFilled)
      ensures r == Accepted ==> !Halted() && blocksFilled + needed <= nBlocks
      ensures r == StillWaiting ==> !Halted()
      ensures r == answer
    {
      if blocksFilled + needed > nBlocks {
        if !wait {
          FitsExactly(blockSize, nBlocks, blocksFilled, part, sz);
          return Refused;
        }
        var space := AwaitSpace(sz, needed, turns);
        r := if !space then StillWaiting else if blocksFilled == -1 then Refused else Accepted;
      } else {
        FitsExactly(blockSize, nBlocks, blocksFilled, part, sz);
        r := Accepted;
      }
    }

    /** The space check is what Store needs; whatever the consumer was handed stays as it was until it pops. */
    method StoreChecked(src: seq<T>, ready: nat, ghost rest: nat)
      requires Valid() && !Halted() && |src| > 0
      requires part + |src| == Elements(ready, blockSize) + rest && rest < blockSize
      requires blocksFilled + BlocksFor(part + |src|, blockSize) <= nBlocks
      modifies this`tail, this`blocksFilled, this`part, this`pending, this`accepted, data
      ensures Valid() && !Halted() && accepted == old(accepted) + src && pending == old(pending) + src
      ensures |old(pending)| <= data.Length && Ring(data[..], head, |old(pending)|) == old(pending)
    {
      FitsExactly(blockSize, nBlocks, blocksFilled, part, |src|);
      CompletedFit(blockSize, nBlocks, blocksFilled, ready);
      Store(src, ready, rest);
    }

    /**
     A consumer takes a region with Front, the producer does what it likes while the consumer reads it, and Pop
     gives it back: no element of the region changes before the Pop, and what Pop releases is what Front handed
     out, or nothing if the FIFO was halted meanwhile.
     */
    method ReadFront(requested: int, meanwhile: seq<Step<T>>) returns (offset: nat, count: nat, ghost n: nat)
      requires Valid() && !Halted() && (requested < 0 || Min(requested, blocksFilled) <= Room())
      modifies this`head, this`headBlock, this`popped, this`pending, this`blocksFilled
      modifies this`tail, this`part, this`accepted, this`lastInput, data
      ensures Valid() && n == Elements(count, blockSize) <= |old(pending)| && offset + n <= data.Length
      ensures old(data[..])[offset..offset + n] == old(pending)[..n]
      ensures data[offset..offset + n] == old(pending)[..n]
      ensures popped == old(popped) + if Halted() then [] else old(pending)[..n]
    {
      offset, count := Front(requested);
      n := Elements(count, blockSize);
      InterleaveAll(meanwhile, n);
      GiveBack(count, n);
    }

    /** The consumer's Pop of the region it was handed. */
    method GiveBack(count: nat, ghost n: nat)
      requires Valid() && n == Elements(count, blockSize) <= |pending|
      modifies this`head, this`headBlock, this`popped, this`pending, this`blocksFilled
      ensures Valid() && Halted() == old(Halted())
      ensures popped == old(popped) + if Halted() then [] else old(pending)[..n]
    {
      if blocksFilled != -1 {
        FilledAtLeast(blocksFilled, part, count, blockSize);
      }
      Pop(count);
    }

    /** Any steps of the producer while the consumer holds the first n pending elements. */
    method InterleaveAll(meanwhile: seq<Step<T>>, ghost n: nat)
      requires Valid() && n <= |pending| && head + n <= data.Length
      modifies this`head, this`headBlock, this`popped, this`pending, this`blocksFilled
      modifies this`tail, this`part, this`accepted, this`lastInput, data
      ensures Valid() && head == old(head) && popped == old(popped) && n <= |pending|
      ensures data[head..head + n] == pending[..n] == old(pending)[..n]
    {
      for i := 0 to |meanwhile|
        invariant Valid() && head == old(head) && popped == old(popped) && old(pending) <= pending
      {
        Interleave(meanwhile[i]);
      }
      RegionIfInside(data[..], head, pending, n);
    }

    /** One step of the producer while the consumer pops nothing: the pending elements stay at the front. */
    method Interleave(step: Step<T>)
      requires Valid()
      modifies this`head, this`headBlock, this`popped, this`pending, this`blocksFilled
      modifies this`tail, this`part, this`accepted, this`lastInput, data
      ensures Valid() && head == old(head) && popped == old(popped) && old(pending) <= pending
    {
      match step
      case Pushes(src, wait) => var _ := Push(src, wait, []);
      case HaltsNow => Halt();
      case Finishes => PushFinished();
    }
  }

  /** What the other side may do while the consumer reads. */
  datatype Step<T> = Pushes(src: seq<T>, wait: bool) | HaltsNow | Finishes

  /**
   With two blocks filled and the head at the second, a request for two blocks is answered with both, although
   the region leaves the buffer after the first.
   */
  method FrontPassesTheEnd<T(0)>(block: seq<T>) returns (f: FIFO<T>, offset: nat, count: int)
    requires block != []
    ensures f.Valid() && !f.Halted() && f.blockSize == |block| && f.pending == block + block
    ensures count == 2 && offset + Elements(2, f.blockSize) == f.data.Length + |block|
  {
    f := Filled(block);
    PopOne(f, block);
    var _ := f.Push(block, false, []);
    FilledIs(f.blocksFilled, f.part, 2, |block|);
    offset, count := f.Front(2);
  }

  method Filled<T(0)>(block: seq<T>) returns (f: FIFO<T>)
    requires block != []
    ensures fresh(f) && fresh(f.data)
    ensures f.Valid() && !f.Halted() && f.blockSize == |block| && f.nBlocks == 2 && f.head == 0
    ensures f.pending == block + block && f.blocksFilled == 2
  {
    f := new FIFO<T>(|block|, 2);
    var _ := f.Push(block + block, false, []);
    FilledIs(f.blocksFilled, f.part, 2, |block|);
  }

  method PopOne<T(0)>(f: FIFO<T>, block: seq<T>)
    requires f.Valid() && !f.Halted() && f.blockSize == |block| && f.nBlocks == 2 && f.head == 0
    requires f.pending == block + block && f.blocksFilled == 2
    modifies f
    ensures f.data == old(f.data) && f.blockSize == |block| && f.nBlocks == 2
    ensures f.Valid() && !f.Halted() && f.pending == block && f.head == |block|
  {
    assert Elements(1, |block|) == |block|;
    f.Pop(1);
    assert (block + block)[|block|..] == block;
  }

  lemma FilledAtLeast(filled: nat, part: nat, count: nat, bs: nat)
    requires part < bs && Elements(filled, bs) + part >= Elements(count, bs)
    ensures filled >= count
  {
    if filled < count {
      ElementsMonotone(filled, count, bs);
    }
  }

  lemma FilledIs(filled: nat, part: nat, count: nat, bs: nat)
    requires part < bs && Elements(filled, bs) + part == Elements(count, bs)
    ensures filled == count && part == 0
  {
    FilledAtLeast(filled, part, count, bs);
    ElementsMonotone(count, filled, bs);
    if filled > count {
      ElementsMonotone(count, filled, bs);
    }
  }

  lemma RingPrefix<T>(d: seq<T>, head: nat, len: nat, m: nat)
    requires head < |d| && m <= len <= |d|
    ensures Ring(d, head, m) == Ring(d, head, len)[..m]
  {
    var prefix := Ring(d, head, len)[..m];
    forall i | 0 <= i < m
      ensures Ring(d, head, m)[i] == prefix[i]
    {
      RingAt(d, head, m, i);
      RingAt(d, head, len, i);
    }
  }

  lemma Suffix<T>(popped0: seq<T>, pending0: seq<T>, popped: seq<T>, pending: seq<T>, src: seq<T>)
    requires popped0 <= popped && popped + pending == (popped0 + pending0) + src && |src| <= |pending|
    ensures |popped| - |popped0| <= |pending0| && pending == pending0[|popped| - |popped0|..] + src
  {
    var n := |popped| - |popped0|;
    var all := popped + pending;
    assert pending == all[|popped|..];
    assert all[|popped0|..] == pending0 + src;
    assert all[|popped|..] == all[|popped0|..][n..];
    assert (pending0 + src)[n..] == pending0[n..] + src;
  }

  /** What was pending, less the n elements popped, is where it was in the buffer, and what was added is behind it. */
  ghost predicate Survives<T>(was: seq<T>, n: int, pending: seq<T>, added: seq<T>, d: seq<T>, head: nat)
    requires head < |d|
  {
    0 <= n <= |was| && |was| - n <= |d| && pending == was[n..] + added && Ring(d, head, |was| - n) == was[n..]
  }

  lemma PendingSurvives<T>(popped0: seq<T>, pending0: seq<T>, popped: seq<T>, pending: seq<T>, src: seq<T>,
                           d: seq<T>, head: nat)
    requires popped0 <= popped && popped + pending == (popped0 + pending0) + src && |src| <= |pending|
    requires head < |d| && |pending| <= |d| && pending == Ring(d, head, |pending|)
    ensures Survives(pending0, |popped| - |popped0|, pending, src, d, head)
  {
    Suffix(popped0, pending0, popped, pending, src);
    var left := pending0[|popped| - |popped0|..];
    RingPrefix(d, head, |pending|, |left|);
    assert pending[..|left|] == left;
  }

  lemma RegionIfInside<T>(d: seq<T>, head: nat, p: seq<T>, n: nat)
    requires head < |d| && n <= |p| <= |d| && p == Ring(d, head, |p|)
    ensures head + n <= |d| ==> d[head..head + n] == p[..n]
  {
    if head + n <= |d| {
      RegionIsPrefix(d, head, |p|, n);
    }
  }

  /** A region that stays inside the buffer is the first part of the ring. */
  lemma RegionIsPrefix<T>(d: seq<T>, head: nat, len: nat, n: nat)
    requires head < |d| && n <= len <= |d| && head + n <= |d|
    ensures d[head..head + n] == Ring(d, head, len)[..n]
  {
    var prefix := Ring(d, head, len)[..n];
    forall i | 0 <= i < n
      ensures d[head..head + n][i] == prefix[i]
    {
      RingAt(d, head, len, i);
    }
  }

  /** Moving the head past n pending elements splits them there and leaves the tail where it is. */
  lemma RingReleased<T>(d: seq<T>, head: nat, p: seq<T>, n: nat, popped: seq<T>)
    requires head < |d| && n <= |p| <= |d| && p == Ring(d, head, |p|)
    ensures var h := Advance(head, n, |d|);
            && Advance(h, |p[n..]|, |d|) == Advance(head, |p|, |d|)
            && Ring(d, h, |p[n..]|) == p[n..]
            && popped + p == (popped + p[..n]) + p[n..]
  {
    RingPop(d, head, |p|, n);
  }
}
