/**
  The state table behind the CSV backend: one row per target in memory, a snapshot file and a
  journal of changed rows on disk. After a crash the snapshot is read, then the journal, and the
  last row of a target wins. What a row is and how it is written is left to a codec.
*/
module CsvState {
  import opened CsvText
  import opened Seqs
  import opened Wrappers

  const KEYS := 0x1_0000_0000
  const JOURNAL_INTERVAL := 600
  const JOURNAL_MAX_PENDING := 4096
  const JOURNAL_FLOOR := 1048576

  /**
    A way to write a row as a line and to read a line, what survives of a row, which rows fit their
    arrays, the empty row, a target's row before its first report, and the merging of a report.
  */
  datatype Codec<!T, !U> = Codec(print_: (nat, T) -> string, load: string -> Option<(nat, T)>, flat: T -> T,
                                 fits: T -> bool, blank: T, first: U -> T, merge: (T, U) -> T)

  ghost predicate Faithful<T(!new), U(!new)>(C: Codec<T, U>) {
    && (forall key, r :: 0 < key < KEYS && C.fits(r) ==> C.load(C.print_(key, r)) == Some((key, C.flat(r))))
    && (forall line :: C.load(line).Some? ==> 0 < C.load(line).value.0 < KEYS && C.fits(C.load(line).value.1))
    && (forall r :: C.flat(C.flat(r)) == C.flat(r))
    && C.fits(C.blank)
    && (forall u :: C.fits(C.first(u)))
    && (forall r, u :: C.fits(r) ==> C.fits(C.merge(r, u)))
  }

  /** Each target with its last row in the lines. */
  function Replay<T(!new), U(!new)>(C: Codec<T, U>, lines: seq<string>): map<nat, T> {
    if lines == [] then map[]
    else
      var m := Replay(C, lines[..|lines| - 1]);
      match C.load(lines[|lines| - 1])
      case None => m
      case Some(kr) => m[kr.0 := kr.1]
  }

  lemma {:induction false} ReplayConcat<T(!new), U(!new)>(C: Codec<T, U>, a: seq<string>, b: seq<string>)
    ensures Replay(C, a + b) == Replay(C, a) + Replay(C, b)
    decreases |b|
  {
    if b == [] {
      assert a + b == a;
    } else {
      var n := |b| - 1;
      assert (a + b)[..|a| + n] == a + b[..n];
      ReplayConcat(C, a, b[..n]);
    }
  }

  // ---------- the table ----------

  /** One slot: key 0 while it was never claimed. */
  datatype Entry<T> = Entry(key: nat, row: T)

  predicate Distinct(s: seq<nat>) {
    forall i, j :: 0 <= i < j < |s| ==> s[i] != s[j]
  }

  /** s without its element h. */
  function Without(s: seq<nat>, h: nat): (r: seq<nat>)
    ensures forall x :: x in r <==> x in s && x != h
  {
    if s == [] then [] else if s[0] == h then Without(s[1..], h) else [s[0]] + Without(s[1..], h)
  }

  lemma {:induction false} WithoutDistinct(s: seq<nat>, h: nat)
    requires Distinct(s)
    ensures Distinct(Without(s, h))
    ensures |Without(s, h)| == |s| - (if h in s then 1 else 0)
  {
    if s != [] {
      WithoutDistinct(s[1..], h);
      if s[0] != h {
        assert s[0] !in Without(s[1..], h);
      } else {
        assert h !in s[1..];
      }
    }
  }

  function Reversed(s: seq<nat>): (r: seq<nat>)
    ensures |r| == |s| && forall i :: 0 <= i < |s| ==> r[i] == s[|s| - 1 - i]
  {
    if s == [] then [] else Reversed(s[1..]) + [s[0]]
  }

  lemma ReversedHas(s: seq<nat>, h: nat)
    requires h in s
    ensures h in Reversed(s)
  {
    var i :| 0 <= i < |s| && s[i] == h;
    assert Reversed(s)[|s| - 1 - i] == h;
  }

  lemma ReversedDistinct(s: seq<nat>)
    requires Distinct(s)
    ensures Distinct(Reversed(s))
  {
  }

  /** Different slots hold different targets, and every row fits its arrays. */
  predicate Sane<T, U>(C: Codec<T, U>, table: seq<Entry<T>>) {
    && (forall h :: 0 <= h < |table| ==> table[h].key < KEYS && C.fits(table[h].row))
    && (forall g, h :: 0 <= g < h < |table| && table[g].key != 0 ==> table[g].key != table[h].key)
  }

  /** The recency list holds every slot once: the claimed ones in `live`, the others in `free`. */
  ghost predicate Listed<T>(table: seq<Entry<T>>, live: seq<nat>, free: seq<nat>) {
    && Distinct(live) && Distinct(free) && |live| + |free| == |table|
    && (forall h: nat :: h in live <==> h < |table| && table[h].key != 0)
    && (forall h: nat :: h in free <==> h < |table| && table[h].key == 0)
  }

  predicate SlotsOf<T>(table: seq<Entry<T>>, slots: seq<nat>) {
    forall i :: 0 <= i < |slots| ==> slots[i] < |table| && table[slots[i]].key != 0
  }

  function LinesOf<T(!new), U(!new)>(C: Codec<T, U>, table: seq<Entry<T>>, slots: seq<nat>): (r: seq<string>)
    requires SlotsOf(table, slots)
    ensures |r| == |slots|
  {
    if slots == [] then []
    else
      var h := slots[|slots| - 1];
      LinesOf(C, table, slots[..|slots| - 1]) + [C.print_(table[h].key, table[h].row)]
  }

  lemma LinesOfMore<T(!new), U(!new)>(C: Codec<T, U>, table: seq<Entry<T>>, slots: seq<nat>, h: nat)
    requires SlotsOf(table, slots) && h < |table| && table[h].key != 0
    ensures SlotsOf(table, slots + [h])
    ensures LinesOf(C, table, slots + [h]) == LinesOf(C, table, slots) + [C.print_(table[h].key, table[h].row)]
  {
    assert (slots + [h])[..|slots|] == slots;
  }

  lemma ReplayMore<T(!new), U(!new)>(C: Codec<T, U>, table: seq<Entry<T>>, slots: seq<nat>)
    requires Faithful(C) && Sane(C, table) && SlotsOf(table, slots) && slots != []
    ensures var n := |slots| - 1;
      var e := table[slots[n]];
      Replay(C, LinesOf(C, table, slots)) == Replay(C, LinesOf(C, table, slots[..n]))[e.key := C.flat(e.row)]
  {
    var n := |slots| - 1;
    var e := table[slots[n]];
    var lines := LinesOf(C, table, slots);
    assert lines[..n] == LinesOf(C, table, slots[..n]) && lines[n] == C.print_(e.key, e.row);
    assert C.load(C.print_(e.key, e.row)) == Some((e.key, C.flat(e.row)));
  }

  lemma StillThere<T>(m: map<nat, T>, k: nat, r: T, k0: nat, r0: T)
    requires if k0 == k then r0 == r else (k0, r0) in m.Items
    ensures (k0, r0) in m[k := r].Items
  {
    assert m[k := r][k0] == r0;
  }

  lemma KeysApart<T, U>(C: Codec<T, U>, table: seq<Entry<T>>, g: nat, h: nat)
    requires Sane(C, table) && g < |table| && h < |table| && g != h && table[g].key != 0
    ensures table[g].key != table[h].key
  {
  }

  lemma {:induction false} ReplayHas<T(!new), U(!new)>(C: Codec<T, U>, table: seq<Entry<T>>, slots: seq<nat>, i: nat)
    requires Faithful(C) && Sane(C, table) && SlotsOf(table, slots) && Distinct(slots) && i < |slots|
    ensures (table[slots[i]].key, C.flat(table[slots[i]].row)) in Replay(C, LinesOf(C, table, slots)).Items
    decreases |slots|
  {
    var n := |slots| - 1;
    var init, e := slots[..n], table[slots[n]];
    var m := Replay(C, LinesOf(C, table, init));
    ReplayMore(C, table, slots);
    if i < n {
      KeysApart(C, table, slots[i], slots[n]);
      ReplayHas(C, table, init, i);
    }
    StillThere(m, e.key, C.flat(e.row), table[slots[i]].key, C.flat(table[slots[i]].row));
  }

  /** The files, replayed, give this slot's row, up to what a file cannot hold. */
  predicate Recovers<T(==), U>(C: Codec<T, U>, m: map<nat, T>, e: Entry<T>) {
    e.key in m && C.flat(m[e.key]) == C.flat(e.row)
  }

  /** A row that has just been written out is recovered, whatever the files said before. */
  lemma WrittenIsRecovered<T(!new), U(!new)>(C: Codec<T, U>, table: seq<Entry<T>>, disk: seq<string>,
                                             slots: seq<nat>, h: nat)
    requires Faithful(C) && Sane(C, table) && SlotsOf(table, slots) && Distinct(slots) && h in slots
    ensures Recovers(C, Replay(C, disk + LinesOf(C, table, slots)), table[h])
  {
    var i :| 0 <= i < |slots| && slots[i] == h;
    ReplayHas(C, table, slots, i);
    ReplayConcat(C, disk, LinesOf(C, table, slots));
  }

  lemma {:induction false} OthersUnwritten<T(!new), U(!new)>(C: Codec<T, U>, table: seq<Entry<T>>, slots: seq<nat>,
                                                             h: nat)
    requires Faithful(C) && Sane(C, table) && SlotsOf(table, slots) && h < |table| && table[h].key != 0 && h !in slots
    ensures table[h].key !in Replay(C, LinesOf(C, table, slots))
    decreases |slots|
  {
    if slots != [] {
      var n := |slots| - 1;
      assert slots[n] in slots;
      KeysApart(C, table, h, slots[n]);
      ReplayMore(C, table, slots);
      OthersUnwritten(C, table, slots[..n], h);
    }
  }

  /** Lines about other targets leave a recoverable row recoverable. */
  lemma OthersStay<T(!new), U(!new)>(C: Codec<T, U>, table: seq<Entry<T>>, disk: seq<string>, slots: seq<nat>, h: nat)
    requires Faithful(C) && Sane(C, table) && SlotsOf(table, slots) && h < |table| && table[h].key != 0 && h !in slots
    requires Recovers(C, Replay(C, disk), table[h])
    ensures Recovers(C, Replay(C, disk + LinesOf(C, table, slots)), table[h])
  {
    ReplayConcat(C, disk, LinesOf(C, table, slots));
    OthersUnwritten(C, table, slots, h);
  }

  /** A file of all claimed slots recovers each of them. */
  lemma SnapshotRecovers<T(!new), U(!new)>(C: Codec<T, U>, table: seq<Entry<T>>, live: seq<nat>, h: nat)
    requires Faithful(C) && Sane(C, table) && Distinct(live) && h in live && h < |table|
    requires SlotsOf(table, Reversed(live))
    ensures Recovers(C, Replay(C, LinesOf(C, table, Reversed(live))), table[h])
  {
    var lines := LinesOf(C, table, Reversed(live));
    ReversedHas(live, h);
    ReversedDistinct(live);
    WrittenIsRecovered(C, table, [], Reversed(live), h);
    assert [] + lines == lines;
  }

  lemma MapGrows<T>(m: map<nat, T>, key: nat, row: T)
    ensures |m[key := row]| == |m| + (if key in m then 0 else 1)
  {
    assert m[key := row].Keys == m.Keys + {key};
    assert |m[key := row].Keys| == |m| + (if key in m then 0 else 1);
  }

  /** Slots with different keys are at most as many as the keys. */
  lemma {:induction false} SlotsWithinKeys<T, U>(C: Codec<T, U>, table: seq<Entry<T>>, slots: seq<nat>, keys: set<nat>)
    requires Sane(C, table) && SlotsOf(table, slots) && Distinct(slots)
    requires forall i :: 0 <= i < |slots| ==> table[slots[i]].key in keys
    ensures |slots| <= |keys|
    decreases |slots|
  {
    if slots != [] {
      var n := |slots| - 1;
      var k := table[slots[n]].key;
      forall i | 0 <= i < n
        ensures table[slots[..n][i]].key in keys - {k}
      {
        KeysApart(C, table, slots[i], slots[n]);
      }
      SlotsWithinKeys(C, table, slots[..n], keys - {k});
    }
  }

  /** `drained` lists the slots that were marked and are not any more. */
  ghost predicate Written<T>(table: seq<Entry<T>>, was: seq<bool>, dirty: seq<bool>, drained: seq<nat>) {
    && |was| == |dirty| == |table| && Distinct(drained) && SlotsOf(table, drained)
    && (forall h: nat :: h < |table| ==> dirty[h] == (was[h] && h !in drained))
    && (forall h :: h in drained ==> h < |table| && was[h])
  }

  lemma WrittenMore<T>(table: seq<Entry<T>>, was: seq<bool>, dirty: seq<bool>, drained: seq<nat>, h: nat)
    requires Written(table, was, dirty, drained) && h < |table| && dirty[h] && table[h].key != 0
    ensures Written(table, was, dirty[h := false], drained + [h])
  {
  }

  /** One more marked row is written: what is listed then, and what the journal holds. */
  /** The size of some lines in a file, each with its line feed. */
  function Bytes(lines: seq<string>): nat {
    if lines == [] then 0 else Bytes(lines[..|lines| - 1]) + |lines[|lines| - 1]| + 1
  }

  lemma NoBytes(lines: seq<string>)
    ensures Bytes(lines) == 0 <==> lines == []
  {
  }

  lemma BytesOneMore(lines: seq<string>, line: string)
    ensures Bytes(lines + [line]) == Bytes(lines) + |line| + 1
  {
    assert (lines + [line])[..|lines|] == lines;
  }

  lemma OneWritten<T(!new), U(!new)>(C: Codec<T, U>, table: seq<Entry<T>>, was: seq<bool>, dirty: seq<bool>,
                                     drained: seq<nat>, base: seq<string>, h: nat)
    returns (more: seq<nat>)
    requires Written(table, was, dirty, drained) && h < |table| && dirty[h] && table[h].key != 0
    ensures Written(table, was, dirty[h := false], more) && forall g :: g in more <==> g in drained || g == h
    ensures base + LinesOf(C, table, more)
         == (base + LinesOf(C, table, drained)) + [C.print_(table[h].key, table[h].row)]
    ensures Bytes(LinesOf(C, table, more))
         == Bytes(LinesOf(C, table, drained)) + |C.print_(table[h].key, table[h].row)| + 1
  {
    more := drained + [h];
    WrittenMore(table, was, dirty, drained, h);
    LinesOfMore(C, table, drained, h);
    BytesOneMore(LinesOf(C, table, drained), C.print_(table[h].key, table[h].row));
    Regroup(base, LinesOf(C, table, drained), [C.print_(table[h].key, table[h].row)]);
  }

  // ---------- the recency list ----------

  lemma TouchKeepsList<T>(table: seq<Entry<T>>, live: seq<nat>, free: seq<nat>, h: nat)
    requires Listed(table, live, free) && h in live
    ensures Listed(table, [h] + Without(live, h), free)
  {
    WithoutDistinct(live, h);
  }

  /** A slot never used is claimed for a key. */
  lemma ClaimFreeKeepsList<T>(table: seq<Entry<T>>, live: seq<nat>, free: seq<nat>, h: nat, e: Entry<T>)
    requires Listed(table, live, free) && h in free && e.key != 0
    ensures Listed(table[h := e], [h] + live, Without(free, h))
  {
    WithoutDistinct(free, h);
    assert h !in live;
  }

  /** The key and row of a claimed slot are replaced. */
  lemma ReplaceKeepsList<T>(table: seq<Entry<T>>, live: seq<nat>, free: seq<nat>, h: nat, e: Entry<T>)
    requires Listed(table, live, free) && h in live && e.key != 0
    ensures Listed(table[h := e], live, free)
  {
  }

  lemma ReplaceKeepsSane<T, U>(C: Codec<T, U>, table: seq<Entry<T>>, h: nat, e: Entry<T>)
    requires Sane(C, table) && h < |table| && e.key < KEYS && C.fits(e.row)
    requires forall g :: 0 <= g < |table| && g != h && table[g].key != 0 ==> table[g].key != e.key
    ensures Sane(C, table[h := e])
  {
  }

  lemma AllRecovered<T(!new), U(!new)>(C: Codec<T, U>, table: seq<Entry<T>>, live: seq<nat>, free: seq<nat>)
    requires Faithful(C) && Sane(C, table) && Listed(table, live, free)
    ensures SlotsOf(table, live) && SlotsOf(table, Reversed(live))
    ensures forall h: nat :: h < |table| && table[h].key != 0 ==>
      Recovers(C, Replay(C, LinesOf(C, table, Reversed(live))), table[h])
  {
    assert forall k :: 0 <= k < |live| ==> live[k] in live;
    forall h: nat | h < |table| && table[h].key != 0
      ensures Recovers(C, Replay(C, LinesOf(C, table, Reversed(live))), table[h])
    {
      SnapshotRecovers(C, table, live, h);
    }
  }

  predicate HasKey<T>(table: seq<Entry<T>>, key: nat) {
    exists h: nat :: h < |table| && table[h].key == key
  }

  /** Each claimed slot holds its target's row in m. */
  ghost predicate Loaded<T>(table: seq<Entry<T>>, m: map<nat, T>) {
    0 !in m && forall h: nat :: h < |table| && table[h].key != 0 ==> (table[h].key, table[h].row) in m.Items
  }

  /** Every target of m has a slot, unless there are more targets than slots. */
  ghost predicate NoneLost<T>(table: seq<Entry<T>>, m: map<nat, T>) {
    |m| <= |table| ==> forall key :: key in m ==> HasKey(table, key)
  }

  lemma LoadedMore<T>(table: seq<Entry<T>>, h: nat, e: Entry<T>, m: map<nat, T>)
    requires Loaded(table, m) && h < |table| && e.key != 0
    requires forall g :: 0 <= g < |table| && g != h && table[g].key != 0 ==> table[g].key != e.key
    ensures Loaded(table[h := e], m[e.key := e.row])
  {
    var next, after := m[e.key := e.row], table[h := e];
    forall g: nat | g < |after| && after[g].key != 0
      ensures (after[g].key, after[g].row) in next.Items
    {
      StillThere(m, e.key, e.row, after[g].key, after[g].row);
    }
  }

  /** Replacing a slot that was unused, or held this very target, loses no target. */
  lemma NoneLostMore<T>(table: seq<Entry<T>>, h: nat, e: Entry<T>, m: map<nat, T>)
    requires NoneLost(table, m) && h < |table| && table[h].key in {0, e.key} && 0 !in m
    ensures NoneLost(table[h := e], m[e.key := e.row])
  {
    MapGrows(m, e.key, e.row);
    var next := m[e.key := e.row];
    if |next| <= |table| {
      forall k | k in next
        ensures HasKey(table[h := e], k)
      {
        if k == e.key {
          assert table[h := e][h].key == k;
        } else {
          var g: nat :| g < |table| && table[g].key == k;
          assert table[h := e][g].key == k;
        }
      }
    }
  }

  lemma OneMoreSeen(before: seq<string>, lines: seq<string>, i: nat)
    requires i < |lines|
    ensures before + lines[0..i + 1] == (before + lines[0..i]) + [lines[i]]
  {
    SliceOne(lines, 0, i);
    Regroup(before, lines[0..i], [lines[i]]);
  }

  /** A full table that lacks a new target: there are more targets than slots. */
  lemma FullMeansMany<T, U>(C: Codec<T, U>, table: seq<Entry<T>>, live: seq<nat>, e: Entry<T>, m: map<nat, T>)
    requires Sane(C, table) && SlotsOf(table, live) && Distinct(live) && |live| == |table|
    requires Loaded(table, m) && NoneLost(table, m) && !HasKey(table, e.key)
    ensures |m[e.key := e.row]| > |table|
  {
    SlotsWithinKeys(C, table, live, m.Keys);
    MapGrows(m, e.key, e.row);
  }

  lemma ReplayNext<T(!new), U(!new)>(C: Codec<T, U>, lines: seq<string>, line: string)
    ensures var m := Replay(C, lines);
      Replay(C, lines + [line]) == match C.load(line) case None => m case Some(kr) => m[kr.0 := kr.1]
  {
    assert (lines + [line])[..|lines|] == lines;
  }

  class State<T(!new), U(!new)> {
    const C: Codec<T, U>
    const capacity: nat
    /** The slots, and which of them changed since they were last written out. */
    var table: seq<Entry<T>>
    var dirty: seq<bool>
    var dirtySlots: seq<nat>
    /** The recency list, newest first: claimed slots, then those never claimed. */
    var live: seq<nat>
    var free: seq<nat>
    /** The rows of the two files, and the journal's bookkeeping. */
    var snapshot: seq<string>
    var journal: seq<string>
    var journalBytes: nat
    var compacted: nat
    var journalDrained: int

    ghost predicate Layout()
      reads `table, `dirty, `live, `free
    {
      capacity > 0 && |table| == |dirty| == capacity && Listed(table, live, free) && Sane(C, table)
    }

    function Disk(): seq<string>
      reads `snapshot, `journal
    {
      snapshot + journal
    }

    /** A changed row is on the list of those to write. */
    ghost predicate DirtyListed()
      reads `table, `dirty, `dirtySlots
    {
      && |dirty| == |table|
      && (forall i :: 0 <= i < |dirtySlots| ==> dirtySlots[i] < |table| && table[dirtySlots[i]].key != 0)
      && (forall h: nat :: h < |table| && dirty[h] ==> h in dirtySlots)
    }

    /** Every clean row but this one can be recovered from the files. */
    ghost predicate OnDiskBut(slot: int)
      requires |dirty| == |table|
      reads `table, `dirty, `snapshot, `journal
    {
      forall h: nat :: h < |table| && h != slot && table[h].key != 0 && !dirty[h] ==>
        Recovers(C, Replay(C, Disk()), table[h])
    }

    ghost predicate Valid()
      reads this
    {
      Faithful(C) && Layout() && DirtyListed() && OnDiskBut(-1) && (journalBytes == 0 ==> journal == [])
    }

    /** An empty table and no files. */
    constructor (C: Codec<T, U>, capacity: nat)
      requires Faithful(C) && capacity > 0
      ensures Valid() && this.C == C && this.capacity == capacity
      ensures live == [] && snapshot == [] && journal == [] && dirtySlots == []
      ensures forall h: nat :: h < capacity ==> table[h].key == 0 && !dirty[h]
    {
      this.C, this.capacity := C, capacity;
      table := seq(capacity, _ => Entry(0, C.blank));
      dirty := seq(capacity, _ => false);
      live, free, dirtySlots := [], seq(capacity, i => i), [];
      snapshot, journal := [], [];
      journalBytes, compacted, journalDrained := 0, 0, 0;
      new;
      forall h: nat
        ensures h in free <==> h < capacity
      {
        if h < capacity {
          assert free[h] == h;
        }
      }
    }

    method Find(key: nat) returns (h: int)
      requires |table| == capacity
      ensures h == -1 || (0 <= h < capacity && table[h].key == key)
      ensures h == -1 ==> forall g :: 0 <= g < capacity ==> table[g].key != key
    {
      h := 0;
      while h < capacity
        invariant 0 <= h <= capacity
        invariant forall g :: 0 <= g < h ==> table[g].key != key
      {
        if table[h].key == key {
          return;
        }
        h := h + 1;
      }
      h := -1;
    }

    method Touch(h: nat)
      requires Layout() && h in live
      modifies `live
      ensures Layout() && live != [] && live[0] == h
    {
      TouchKeepsList(table, live, free, h);
      live := [h] + Without(live, h);
    }

    /** Claim a slot for a new key: one never used if there is any, else the least recent one. */
    method Create(key: nat, row: T) returns (h: nat)
      requires Layout() && 0 < key < KEYS && C.fits(row)
      requires forall g :: 0 <= g < capacity ==> table[g].key != key
      modifies `table, `live, `free
      ensures Layout() && h in live && live != [] && live[0] == h
      ensures table == old(table)[h := Entry(key, row)]
      ensures if old(free) != [] then old(table)[h].key == 0 else h == old(live[|live| - 1])
    {
      var e := Entry(key, row);
      if |free| > 0 {
        h := free[|free| - 1];
        assert h in free;
        ClaimFreeKeepsList(table, live, free, h, e);
        free := Without(free, h);
        live := [h] + live;
      } else {
        h := live[|live| - 1];
        assert h in live;
        TouchKeepsList(table, live, free, h);
        live := [h] + Without(live, h);
        ReplaceKeepsList(table, live, free, h, e);
      }
      ReplaceKeepsSane(C, table, h, e);
      table := table[h := e];
    }

    /** The slot of a target, claimed and cleared if the target is new. */
    method Claim(key: nat, u: U) returns (h: nat)
      requires Valid() && 0 < key < KEYS
      modifies `table, `live, `free, `dirty
      ensures Layout() && DirtyListed() && OnDiskBut(h) && h in live
      ensures table == old(table)[h := Entry(key, Base(key, u, old(table)[h]))]
      ensures old(table)[h].key !in {0, key} ==> old(free) == [] && h == old(live[|live| - 1])
    {
      var found := Find(key);
      if found != -1 {
        return found;
      }
      h := Create(key, C.first(u));
      dirty := dirty[h := false];
    }

    function Base(key: nat, u: U, was: Entry<T>): T {
      if was.key == key then was.row else C.first(u)
    }

    method Mark(h: nat, row: T)
      requires Layout() && DirtyListed() && OnDiskBut(h) && h in live && C.fits(row)
      modifies `table, `dirtySlots, `dirty
      ensures Layout() && DirtyListed() && OnDiskBut(-1) && dirty[h]
      ensures table == old(table)[h := Entry(old(table[h].key), row)]
    {
      var e := Entry(table[h].key, row);
      ReplaceKeepsList(table, live, free, h, e);
      ReplaceKeepsSane(C, table, h, e);
      if !dirty[h] {
        dirty := dirty[h := true];
        dirtySlots := dirtySlots + [h];
      }
      table := table[h := e];
    }

    /**
      One report about a target. Its row is merged and marked; every other row stays, except that a
      new target takes the slot of the least recent one when the table is full.
    */
    method Report(key: nat, u: U) returns (h: nat)
      requires Valid() && 0 < key < KEYS
      modifies `table, `live, `free, `dirty, `dirtySlots
      ensures Valid() && h < capacity && live != [] && live[0] == h && dirty[h]
      ensures table == old(table)[h := Entry(key, C.merge(Base(key, u, old(table)[h]), u))]
      ensures old(table)[h].key !in {0, key} ==> old(free) == [] && h == old(live[|live| - 1])
    {
      h := Claim(key, u);
      var row := C.merge(table[h].row, u);
      Mark(h, row);
      Touch(h);
    }

    /** A report whose number is no target's is ignored. */
    method MergeState(number: int, u: U) returns (h: int)
      requires Valid()
      modifies `table, `live, `free, `dirty, `dirtySlots
      ensures Valid() && (h == -1 <==> number % KEYS == 0)
      ensures h == -1 ==> table == old(table) && live == old(live) && dirty == old(dirty)
      ensures h != -1 ==> 0 <= h < capacity && live != [] && live[0] == h && dirty[h]
      ensures h != -1 ==>
        table == old(table)[h := Entry(number % KEYS, C.merge(Base(number % KEYS, u, old(table)[h]), u))]
    {
      var mmsi := number % KEYS;
      if mmsi == 0 {
        return -1;
      }
      h := Report(mmsi, u);
    }

    method AppendJournal(h: nat)
      requires h < |table|
      modifies `journal, `journalBytes
      ensures journal == old(journal) + [C.print_(table[h].key, table[h].row)]
      ensures journalBytes == old(journalBytes) + |C.print_(table[h].key, table[h].row)| + 1
    {
      var row := C.print_(table[h].key, table[h].row);
      journal := journal + [row];
      journalBytes := journalBytes + |row| + 1;
    }

    method WriteSlot(h: nat, ghost was: seq<bool>, ghost base: seq<string>, ghost bytes: nat, ghost drained: seq<nat>)
      returns (ghost more: seq<nat>)
      requires h < |table| && table[h].key != 0
      requires Written(table, was, dirty, drained) && journal == base + LinesOf(C, table, drained)
      requires journalBytes == bytes + Bytes(LinesOf(C, table, drained))
      modifies `dirty, `journal, `journalBytes
      ensures Written(table, was, dirty, more) && journal == base + LinesOf(C, table, more)
      ensures journalBytes == bytes + Bytes(LinesOf(C, table, more))
      ensures forall g: nat :: g < |table| && dirty[g] ==> old(dirty)[g] && g != h
    {
      more := drained;
      if dirty[h] {
        more := WriteDirty(h, was, base, bytes, drained);
      }
    }

    method WriteDirty(h: nat, ghost was: seq<bool>, ghost base: seq<string>, ghost bytes: nat, ghost drained: seq<nat>)
      returns (ghost more: seq<nat>)
      requires h < |table| && table[h].key != 0
      requires Written(table, was, dirty, drained) && dirty[h] && journal == base + LinesOf(C, table, drained)
      requires journalBytes == bytes + Bytes(LinesOf(C, table, drained))
      modifies `dirty, `journal, `journalBytes
      ensures Written(table, was, dirty, more) && journal == base + LinesOf(C, table, more)
      ensures journalBytes == bytes + Bytes(LinesOf(C, table, more))
      ensures !dirty[h] && forall g :: g in more <==> g in drained || g == h
    {
      more := OneWritten(C, table, was, dirty, drained, base, h);
      dirty := dirty[h := false];
      AppendJournal(h);
    }

    /** Write every marked row once, in the order in which the rows were first marked. */
    method WriteMarked() returns (ghost drained: seq<nat>)
      requires DirtyListed()
      modifies `dirty, `dirtySlots, `journal, `journalBytes
      ensures dirtySlots == [] && |dirty| == |table| && forall h: nat :: h < |table| ==> !dirty[h]
      ensures Written(table, old(dirty), dirty, drained)
      ensures journal == old(journal) + LinesOf(C, table, drained)
      ensures journalBytes == old(journalBytes) + Bytes(LinesOf(C, table, drained))
    {
      ghost var was, base, bytes, slots := dirty, journal, journalBytes, dirtySlots;
      drained := [];
      assert journal == base + LinesOf(C, table, drained);
      var i := 0;
      while i < |dirtySlots|
        invariant 0 <= i <= |dirtySlots| && dirtySlots == slots
        invariant Written(table, was, dirty, drained)
        invariant forall h: nat :: h < |table| && dirty[h] ==> h in slots[i..]
        invariant journal == base + LinesOf(C, table, drained)
        invariant journalBytes == bytes + Bytes(LinesOf(C, table, drained))
      {
        assert slots[i..] == [slots[i]] + slots[i + 1..];
        drained := WriteSlot(dirtySlots[i], was, base, bytes, drained);
        i := i + 1;
      }
      dirtySlots := [];
    }

    /** One journal line for each changed row; afterwards every row can be recovered. */
    method Drain() returns (ghost drained: seq<nat>)
      requires Valid()
      modifies `dirty, `dirtySlots, `journal, `journalBytes
      ensures Valid() && dirtySlots == [] && forall h: nat :: h < capacity ==> !dirty[h]
      ensures Distinct(drained) && SlotsOf(table, drained)
      ensures forall h: nat :: h in drained <==> h < |old(dirty)| && old(dirty)[h]
      ensures journal == old(journal) + LinesOf(C, table, drained)
      ensures journalBytes == old(journalBytes) + Bytes(LinesOf(C, table, drained))
    {
      ghost var before, disk := dirty, Disk();
      drained := WriteMarked();
      assert Disk() == disk + LinesOf(C, table, drained);
      NoBytes(LinesOf(C, table, drained));
      forall h: nat | h < |table| && table[h].key != 0
        ensures Recovers(C, Replay(C, Disk()), table[h])
      {
        if before[h] {
          WrittenIsRecovered(C, table, disk, drained, h);
        } else {
          OthersStay(C, table, disk, drained, h);
        }
      }
    }

    /** The rows of a clean file: every live row once, the least recent first. */
    method SnapshotLines() returns (out: seq<string>, size: nat)
      requires SlotsOf(table, live)
      ensures SlotsOf(table, Reversed(live)) && out == LinesOf(C, table, Reversed(live)) && size == Bytes(out)
    {
      out, size := [], 0;
      var i := |live|;
      while i > 0
        invariant 0 <= i <= |live|
        invariant SlotsOf(table, Reversed(live[i..]))
        invariant out == LinesOf(C, table, Reversed(live[i..])) && size == Bytes(out)
      {
        i := i - 1;
        var h := live[i];
        assert live[i..][1..] == live[i + 1..] && live[i..][0] == h;
        LinesOfMore(C, table, Reversed(live[i + 1..]), h);
        var row := C.print_(table[h].key, table[h].row);
        BytesOneMore(out, row);
        out := out + [row];
        size := size + |row| + 1;
      }
      assert live[0..] == live;
    }

    method CleanMarked()
      requires DirtyListed()
      modifies `dirty, `dirtySlots
      ensures dirtySlots == [] && Clean() && DirtyListed()
    {
      var i := 0;
      while i < |dirtySlots|
        invariant 0 <= i <= |dirtySlots| && |dirty| == |table|
        invariant dirtySlots == old(dirtySlots)
        invariant forall h: nat :: h < |table| && dirty[h] ==> old(dirty)[h] && h !in dirtySlots[..i]
      {
        var h := dirtySlots[i];
        dirty := dirty[h := false];
        i := i + 1;
      }
      assert dirtySlots[..i] == dirtySlots;
      dirtySlots := [];
    }

    method ReplaceFiles(out: seq<string>, size: nat)
      modifies `snapshot, `journal, `journalBytes, `compacted
      ensures snapshot == Disk() == out && journal == [] && journalBytes == 0 && compacted == size
    {
      snapshot, journal := out, [];
      compacted, journalBytes := size, 0;
      assert Disk() == out;
    }

    /** The snapshot holds every row and the journal is gone. */
    method Rewrite()
      requires Valid()
      modifies `dirty, `dirtySlots, `snapshot, `journal, `journalBytes, `compacted
      ensures Valid() && dirtySlots == [] && journal == [] && journalBytes == 0 && Clean()
      ensures SlotsOf(table, Reversed(live)) && snapshot == LinesOf(C, table, Reversed(live))
      ensures compacted == Bytes(snapshot)
    {
      AllListed(table, live, free);
      var out, size := SnapshotLines();
      ReplaceFiles(out, size);
      CleanMarked();
      AllRecovered(C, table, live, free);
    }

    /** The snapshot is rewritten unless nothing changed since the last time. */
    method Compact()
      requires Valid()
      modifies `dirty, `dirtySlots, `snapshot, `journal, `journalBytes, `compacted
      ensures Valid() && dirtySlots == [] && journal == [] && journalBytes == 0 && Clean()
      ensures if old(journalBytes) == 0 && old(dirtySlots) == []
        then snapshot == old(snapshot) && compacted == old(compacted)
        else
          && SlotsOf(table, Reversed(live)) && snapshot == LinesOf(C, table, Reversed(live))
          && compacted == Bytes(snapshot)
    {
      if journalBytes != 0 || dirtySlots != [] {
        Rewrite();
      }
    }

    /**
      The end of a batch. Every ten minutes, or once 4096 rows are marked, the marked rows go to the
      journal; once that is longer than 1 MiB and four times the last snapshot, the files are rewritten.
    */
    method Flushed(now: int) returns (ghost drained: seq<nat>, ghost lines: seq<string>)
      requires Valid()
      modifies `dirty, `dirtySlots, `snapshot, `journal, `journalBytes, `compacted, `journalDrained
      ensures Valid() && Distinct(drained) && SlotsOf(table, drained) && lines == LinesOf(C, table, drained)
      ensures var due := now - old(journalDrained) >= 600 || |old(dirtySlots)| >= 4096;
        && journalDrained == (if due then now else old(journalDrained))
        && (forall h: nat :: h in drained <==> due && h < |old(dirty)| && old(dirty)[h])
        && (due ==> Clean() && dirtySlots == [])
      ensures var size := old(journalBytes) + Bytes(lines);
        if size > 1048576 && size > 4 * old(compacted) then
          && journal == [] && journalBytes == 0 && Clean() && dirtySlots == [] && compacted == Bytes(snapshot)
          && SlotsOf(table, Reversed(live)) && snapshot == LinesOf(C, table, Reversed(live))
        else
          && journal == old(journal) + lines && journalBytes == size
          && snapshot == old(snapshot) && compacted == old(compacted)
          && (now - old(journalDrained) < 600 && |old(dirtySlots)| < 4096 ==>
                dirty == old(dirty) && dirtySlots == old(dirtySlots))
    {
      drained, lines := DrainIfDue(now);
      ghost var size := journalBytes;
      CompactIfLong();
    }

    method DrainIfDue(now: int) returns (ghost drained: seq<nat>, ghost lines: seq<string>)
      requires Valid()
      modifies `dirty, `dirtySlots, `journal, `journalBytes, `journalDrained
      ensures Valid() && Distinct(drained) && SlotsOf(table, drained) && lines == LinesOf(C, table, drained)
      ensures journal == old(journal) + lines && journalBytes == old(journalBytes) + Bytes(lines)
      ensures var due := now - old(journalDrained) >= 600 || |old(dirtySlots)| >= 4096;
        && journalDrained == (if due then now else old(journalDrained))
        && (forall h: nat :: h in drained <==> due && h < |old(dirty)| && old(dirty)[h])
        && if due then Clean() && dirtySlots == [] else dirty == old(dirty) && dirtySlots == old(dirtySlots)
    {
      drained := [];
      if now - journalDrained >= JOURNAL_INTERVAL || |dirtySlots| >= JOURNAL_MAX_PENDING {
        journalDrained := now;
        drained := Drain();
      }
      lines := LinesOf(C, table, drained);
    }

    method CompactIfLong()
      requires Valid()
      modifies `dirty, `dirtySlots, `snapshot, `journal, `journalBytes, `compacted
      ensures Valid()
      ensures if old(journalBytes) > 1048576 && old(journalBytes) > 4 * old(compacted) then
          && journal == [] && journalBytes == 0 && Clean() && dirtySlots == [] && compacted == Bytes(snapshot)
          && SlotsOf(table, Reversed(live)) && snapshot == LinesOf(C, table, Reversed(live))
        else
          && journal == old(journal) && journalBytes == old(journalBytes)
          && snapshot == old(snapshot) && compacted == old(compacted)
          && dirty == old(dirty) && dirtySlots == old(dirtySlots)
    {
      if journalBytes > JOURNAL_FLOOR && journalBytes > 4 * compacted {
        Compact();
      }
    }

    // ---------- starting up ----------

    predicate Clean()
      reads `dirty
    {
      forall h: nat :: h < |dirty| ==> !dirty[h]
    }

    method LoadRow(key: nat, row: T, ghost m: map<nat, T>)
      requires Layout() && Loaded(table, m) && NoneLost(table, m) && 0 < key < KEYS && C.fits(row)
      modifies `table, `live, `free
      ensures Layout() && Loaded(table, m[key := row]) && NoneLost(table, m[key := row])
    {
      var e := Entry(key, row);
      var h := Find(key);
      if h == -1 {
        if free == [] {
          assert forall i :: 0 <= i < |live| ==> live[i] in live;
          FullMeansMany(C, table, live, e, m);
        }
        ghost var was := table;
        h := Create(key, row);
        LoadedMore(was, h, e, m);
        if was[h].key == 0 {
          NoneLostMore(was, h, e, m);
        }
      } else {
        LoadedMore(table, h, e, m);
        NoneLostMore(table, h, e, m);
        ReplaceKeepsList(table, live, free, h, e);
        ReplaceKeepsSane(C, table, h, e);
        table := table[h := e];
        Touch(h);
      }
    }

    /** What the lines so far said about the table. */
    ghost predicate Holds(lines: seq<string>)
      reads `table, `live, `free, `dirty
    {
      Layout() && Loaded(table, Replay(C, lines)) && NoneLost(table, Replay(C, lines))
    }

    /** A corrupt line is skipped. */
    method LoadLine(line: string, ghost before: seq<string>)
      requires Faithful(C) && Holds(before)
      modifies `table, `live, `free
      ensures Holds(before + [line])
    {
      var kr := C.load(line);
      ReplayNext(C, before, line);
      if kr.Some? {
        LoadRow(kr.value.0, kr.value.1, Replay(C, before));
      }
    }

    method LoadFile(lines: seq<string>, ghost before: seq<string>)
      requires Faithful(C) && Holds(before)
      modifies `table, `live, `free
      ensures Holds(before + lines)
    {
      ghost var seen := before;
      for i := 0 to |lines|
        invariant Holds(seen) && seen == before + lines[0..i]
      {
        OneMoreSeen(before, lines, i);
        LoadLine(lines[i], seen);
        seen := seen + [lines[i]];
      }
      assert lines[0..|lines|] == lines;
    }

    /** The snapshot is read, then the journal. */
    method LoadState(older: seq<string>, newer: seq<string>)
      requires Faithful(C) && Layout() && Loaded(table, map[])
      modifies `table, `live, `free
      ensures Holds(older + newer)
    {
      assert Replay(C, []) == map[];
      LoadFile(older, []);
      assert [] + older == older;
      LoadFile(newer, older);
    }

    /** Start-up: an empty table reads the snapshot, then the journal, if there is one. */
    static method Open(C: Codec<T, U>, capacity: nat, snapshot: seq<string>, journal: seq<string>)
      returns (s: State<T, U>)
      requires Faithful(C) && capacity > 0
      ensures s.Valid() && fresh(s) && s.C == C && s.capacity == capacity
      ensures s.snapshot == snapshot && s.journal == journal
      ensures s.Clean() && Loaded(s.table, Replay(C, s.Disk())) && NoneLost(s.table, Replay(C, s.Disk()))
    {
      s := new State(C, capacity);
      s.LoadState(snapshot, journal);
      s.snapshot, s.journal := snapshot, journal;
      s.journalBytes := if journal == [] then 0 else 1;
    }

    /** Slot g was clean, and slot h of the next table holds the same target. */
    predicate Survives(g: nat, next: State<T, U>, h: nat)
      requires g < |table| == |dirty| && h < |next.table|
      reads this, next
    {
      table[g].key == next.table[h].key != 0 && !dirty[g]
    }

    /**
      Whatever ran before the process ended, a table opened from its files holds the row of every
      target that was clean, and lacks none of them unless the files name more targets than fit.
    */
    lemma RestartRecovers(next: State<T, U>)
      requires Valid()
      requires Loaded(next.table, Replay(C, Disk())) && NoneLost(next.table, Replay(C, Disk()))
      ensures forall g: nat, h: nat :: g < |table| && h < |next.table| && Survives(g, next, h) ==>
        C.flat(next.table[h].row) == C.flat(table[g].row)
      ensures |Replay(C, Disk())| <= |next.table| ==>
        forall g: nat :: g < |table| && table[g].key != 0 && !dirty[g] ==> HasKey(next.table, table[g].key)
    {
    }

    /** The file that Rewrite puts in the snapshot's place before it removes the journal. */
    ghost function NewSnapshot(): seq<string>
      requires Layout()
      reads this
    {
      AllListed(table, live, free);
      LinesOf(C, table, Reversed(live))
    }

    /**
      If the process ends between writing the snapshot and removing the journal, the old journal is
      replayed on top of the new snapshot. A clean row is recovered. A marked one is recovered
      exactly when the journal does not name its target, or its last row for it is the same.
    */
    lemma CrashWhileCompacting(h: nat)
      requires Valid() && h < capacity && table[h].key != 0
      ensures Recovers(C, Replay(C, NewSnapshot() + journal), table[h]) <==>
        || !dirty[h]
        || table[h].key !in Replay(C, journal)
        || C.flat(Replay(C, journal)[table[h].key]) == C.flat(table[h].row)
    {
      AllListed(table, live, free);
      SnapshotRecovers(C, table, live, h);
      ReplayConcat(C, NewSnapshot(), journal);
      ReplayConcat(C, snapshot, journal);
    }
  }

  lemma AllListed<T>(table: seq<Entry<T>>, live: seq<nat>, free: seq<nat>)
    requires Listed(table, live, free)
    ensures SlotsOf(table, live) && SlotsOf(table, Reversed(live))
  {
    assert forall k :: 0 <= k < |live| ==> live[k] in live;
  }

  /** A target's row after its first report. */
  function Once<T, U>(C: Codec<T, U>, u: U): T {
    C.merge(C.first(u), u)
  }

  /**
    A run that loses a merged report: it is made after the row was written to the journal, and then
    the process ends between writing the snapshot, which has it, and removing the journal.
  */
  method CrashLosesReport<T(!new), U(!new)>(C: Codec<T, U>, capacity: nat, key: nat, u: U, v: U)
    returns (s: State<T, U>, h: nat)
    requires Faithful(C) && capacity > 0 && 0 < key < KEYS
    requires C.flat(C.merge(Once(C, u), v)) != C.flat(Once(C, u))
    ensures s.Valid() && s.C == C && h < |s.table| && s.table[h] == Entry(key, C.merge(Once(C, u), v))
    ensures Recovers(C, Replay(C, s.NewSnapshot()), s.table[h])
    ensures var m := Replay(C, s.NewSnapshot() + s.journal); key in m && m[key] == C.flat(Once(C, u))
  {
    s := new State(C, capacity);
    h := s.Report(key, u);
    ghost var drained := s.Drain();
    OnlyOne(drained, h);
    JournalOf(C, s.table, h);
    ghost var first := h;
    ghost var lines := s.journal;
    h := s.Report(key, v);
    SameKeySameSlot(C, s.table, first, h);
    AllListed(s.table, s.live, s.free);
    SnapshotRecovers(C, s.table, s.live, h);
    ReplayConcat(C, s.NewSnapshot(), s.journal);
  }

  lemma SameKeySameSlot<T, U>(C: Codec<T, U>, table: seq<Entry<T>>, g: nat, h: nat)
    requires Sane(C, table) && g < |table| && h < |table| && table[g].key == table[h].key != 0
    ensures g == h
  {
  }

  lemma SecondIsOther(slots: seq<nat>, h: nat)
    requires Distinct(slots) && |slots| > 1 && slots[0] == h
    ensures exists g: nat :: g in slots && g != h
  {
    assert slots[1] in slots;
  }

  lemma OnlyOne(slots: seq<nat>, h: nat)
    requires Distinct(slots) && forall g: nat :: g in slots <==> g == h
    ensures slots == [h]
  {
    assert h in slots;
    assert slots[0] in slots;
    if |slots| > 1 {
      SecondIsOther(slots, h);
    }
  }

  lemma JournalOf<T(!new), U(!new)>(C: Codec<T, U>, table: seq<Entry<T>>, h: nat)
    requires Faithful(C) && Sane(C, table) && h < |table| && table[h].key != 0
    ensures Replay(C, LinesOf(C, table, [h])) == map[table[h].key := C.flat(table[h].row)]
  {
    ReplayMore(C, table, [h]);
    assert [h][..0] == [];
  }
}
