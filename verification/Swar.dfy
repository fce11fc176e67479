/**
 The word-at-a-time byte search of Source/Library/SWAR.h:43-85: eight bytes are loaded into one
 64-bit word (least significant first) and the first match is found without looking at the bytes.
 */
module Swar {

  const ONES: bv64 := 0x0101010101010101
  const HIGHS: bv64 := 0x8080808080808080

  /** SWAR::mask: the byte repeated in every lane. */
  function Mask(target: bv8): bv64 {
    ONES * (target as bv64)
  }

  /** SWAR::has_byte. Only the lowest set lane of the result is meaningful. */
  function HasByte(word: bv64, mask: bv64): bv64 {
    var v := word ^ mask;
    (v - ONES) & !v & HIGHS
  }

  /** SWAR::first_byte: the lane of the lowest set bit, that is ctz(m) >> 3. */
  function FirstByte(m: bv64): (k: nat)
    ensures k < 8
  {
    if m & 0xff != 0 then 0
    else if m & 0xff00 != 0 then 1
    else if m & 0xff0000 != 0 then 2
    else if m & 0xff000000 != 0 then 3
    else if m & 0xff00000000 != 0 then 4
    else if m & 0xff0000000000 != 0 then 5
    else if m & 0xff000000000000 != 0 then 6
    else 7
  }

  /** The memcpy of (up to eight) bytes into a word on a little-endian machine. */
  function Load(s: seq<bv8>): bv64 {
    if |s| == 0 then 0 else (Load(s[1..]) << 8) | (s[0] as bv64)
  }

  // ---------------------------------------------------------------- lanes

  /** The bytes in the lanes of a word. */
  function Lanes(w: bv64): (s: seq<bv8>)
    ensures |s| == 8
  {
    [((w >> 0) & 0xff) as bv8, ((w >> 8) & 0xff) as bv8, ((w >> 16) & 0xff) as bv8, ((w >> 24) & 0xff) as bv8,
     ((w >> 32) & 0xff) as bv8, ((w >> 40) & 0xff) as bv8, ((w >> 48) & 0xff) as bv8, ((w >> 56) & 0xff) as bv8]
  }

  /** Which lanes are zero. */
  function ZeroLanes(v: bv64): (b: seq<bool>)
    ensures |b| == 8
  {
    [v & 0xff == 0, v & 0xff00 == 0, v & 0xff0000 == 0, v & 0xff000000 == 0,
     v & 0xff00000000 == 0, v & 0xff0000000000 == 0, v & 0xff000000000000 == 0, v & 0xff00000000000000 == 0]
  }

  function Matches<B(==)>(s: seq<B>, t: B): (b: seq<bool>)
    ensures |b| == |s| && forall k :: 0 <= k < |s| ==> b[k] == (s[k] == t)
  {
    seq(|s|, k requires 0 <= k < |s| => s[k] == t)
  }

  /** The index of the first true entry, or the length. */
  function FirstTrue(b: seq<bool>): (k: nat)
    ensures k <= |b| && (k < |b| ==> b[k]) && forall j :: 0 <= j < k ==> !b[j]
  {
    if |b| == 0 || b[0] then 0 else 1 + FirstTrue(b[1..])
  }

  function FirstOfEight(b: seq<bool>): nat
    requires |b| == 8
  {
    if b[0] then 0 else if b[1] then 1 else if b[2] then 2 else if b[3] then 3
    else if b[4] then 4 else if b[5] then 5 else if b[6] then 6 else if b[7] then 7 else 8
  }

  lemma FirstOfEightIsFirst(b: seq<bool>)
    requires |b| == 8
    ensures FirstOfEight(b) == FirstTrue(b)
  {
  }

  /** The lane a search result stands for; no lane when no flag is set. */
  function Found(hit: bv64): nat {
    if hit == 0 then 8 else FirstByte(hit)
  }

  /** Below the first zero lane nothing is borrowed, so the lowest flag marks the first zero lane. */
  lemma NoBorrow(v: bv64)
    ensures Found((v - ONES) & !v & HIGHS) == FirstOfEight(ZeroLanes(v))
  {
  }

  lemma SameLane0(w: bv64, t: bv8)
    ensures ZeroLanes(w ^ Mask(t))[0] == Matches(Lanes(w), t)[0]
  {
  }

  lemma SameLane1(w: bv64, t: bv8)
    ensures ZeroLanes(w ^ Mask(t))[1] == Matches(Lanes(w), t)[1]
  {
  }

  lemma SameLane2(w: bv64, t: bv8)
    ensures ZeroLanes(w ^ Mask(t))[2] == Matches(Lanes(w), t)[2]
  {
  }

  lemma SameLane3(w: bv64, t: bv8)
    ensures ZeroLanes(w ^ Mask(t))[3] == Matches(Lanes(w), t)[3]
  {
  }

  lemma SameLane4(w: bv64, t: bv8)
    ensures ZeroLanes(w ^ Mask(t))[4] == Matches(Lanes(w), t)[4]
  {
  }

  lemma SameLane5(w: bv64, t: bv8)
    ensures ZeroLanes(w ^ Mask(t))[5] == Matches(Lanes(w), t)[5]
  {
  }

  lemma SameLane6(w: bv64, t: bv8)
    ensures ZeroLanes(w ^ Mask(t))[6] == Matches(Lanes(w), t)[6]
  {
  }

  lemma SameLane7(w: bv64, t: bv8)
    ensures ZeroLanes(w ^ Mask(t))[7] == Matches(Lanes(w), t)[7]
  {
  }

  lemma EightEqual(a: seq<bool>, b: seq<bool>)
    requires |a| == 8 && |b| == 8 && a[0] == b[0] && a[1] == b[1] && a[2] == b[2] && a[3] == b[3]
    requires a[4] == b[4] && a[5] == b[5] && a[6] == b[6] && a[7] == b[7]
    ensures a == b
  {
  }

  lemma MatchLanes(w: bv64, t: bv8)
    ensures ZeroLanes(w ^ Mask(t)) == Matches(Lanes(w), t)
  {
    SameLane0(w, t);
    SameLane1(w, t);
    SameLane2(w, t);
    SameLane3(w, t);
    SameLane4(w, t);
    SameLane5(w, t);
    SameLane6(w, t);
    SameLane7(w, t);
    EightEqual(ZeroLanes(w ^ Mask(t)), Matches(Lanes(w), t));
  }

  /** Eight bytes shifted into place, the last byte highest. */
  function Packed(a: bv8, b: bv8, c: bv8, d: bv8, e: bv8, f: bv8, g: bv8, h: bv8): bv64 {
    (a as bv64) | ((b as bv64) << 8) | ((c as bv64) << 16) | ((d as bv64) << 24)
    | ((e as bv64) << 32) | ((f as bv64) << 40) | ((g as bv64) << 48) | ((h as bv64) << 56)
  }

  lemma Shifted(a: bv8, b: bv8, c: bv8, d: bv8, e: bv8, f: bv8, g: bv8, h: bv8)
    ensures Packed(a, b, c, d, e, f, g, h) == (Packed(b, c, d, e, f, g, h, 0) << 8) | (a as bv64)
  {
  }

  lemma LoadOne(s: seq<bv8>, k: nat)
    requires k < |s|
    ensures Load(s[k..]) == (Load(s[k + 1..]) << 8) | (s[k] as bv64)
  {
    assert s[k..][1..] == s[k + 1..];
  }

  lemma LoadIsPacked(s: seq<bv8>)
    requires |s| == 8
    ensures Load(s) == Packed(s[0], s[1], s[2], s[3], s[4], s[5], s[6], s[7])
  {
    LoadOne(s, 7); Shifted(s[7], 0, 0, 0, 0, 0, 0, 0);
    assert Load(s[8..]) == Packed(0, 0, 0, 0, 0, 0, 0, 0);
    LoadOne(s, 6); Shifted(s[6], s[7], 0, 0, 0, 0, 0, 0);
    LoadOne(s, 5); Shifted(s[5], s[6], s[7], 0, 0, 0, 0, 0);
    LoadOne(s, 4); Shifted(s[4], s[5], s[6], s[7], 0, 0, 0, 0);
    LoadOne(s, 3); Shifted(s[3], s[4], s[5], s[6], s[7], 0, 0, 0);
    LoadOne(s, 2); Shifted(s[2], s[3], s[4], s[5], s[6], s[7], 0, 0);
    LoadOne(s, 1); Shifted(s[1], s[2], s[3], s[4], s[5], s[6], s[7], 0);
    LoadOne(s, 0); Shifted(s[0], s[1], s[2], s[3], s[4], s[5], s[6], s[7]);
    assert s[0..] == s;
  }

  lemma PackedLanes(a: bv8, b: bv8, c: bv8, d: bv8, e: bv8, f: bv8, g: bv8, h: bv8)
    ensures Lanes(Packed(a, b, c, d, e, f, g, h)) == [a, b, c, d, e, f, g, h]
  {
  }

  lemma EightBytes(s: seq<bv8>)
    requires |s| == 8
    ensures s == [s[0], s[1], s[2], s[3], s[4], s[5], s[6], s[7]]
  {
  }

  lemma SameLanes(v: bv64, w: bv64)
    requires v == w
    ensures Lanes(v) == Lanes(w)
  {
  }

  lemma LoadLanes(s: seq<bv8>)
    requires |s| == 8
    ensures Lanes(Load(s)) == s
  {
    EightBytes(s);
    PackedLanes(s[0], s[1], s[2], s[3], s[4], s[5], s[6], s[7]);
    LoadIsPacked(s);
    SameLanes(Load(s), Packed(s[0], s[1], s[2], s[3], s[4], s[5], s[6], s[7]));
  }

  lemma SearchWord(w: bv64, m: bv64)
    ensures Found(HasByte(w, m)) == FirstOfEight(ZeroLanes(w ^ m))
  {
    NoBorrow(w ^ m);
  }

  lemma SearchMatches(w: bv64, t: bv8)
    ensures Found(HasByte(w, Mask(t))) == FirstOfEight(Matches(Lanes(w), t))
  {
    SearchWord(w, Mask(t));
    MatchLanes(w, t);
  }

  /** The search finds the first occurrence of the target among the eight bytes, or none. */
  lemma FindInWord(s: seq<bv8>, t: bv8)
    requires |s| == 8
    ensures Found(HasByte(Load(s), Mask(t))) == FirstTrue(Matches(s, t))
  {
    LoadLanes(s);
    SearchMatches(Load(s), t);
    FirstOfEightIsFirst(Matches(s, t));
  }

  /** Two searches joined by a bitwise or find whichever comes first. */
  lemma FoundOr(a: bv64, b: bv64)
    ensures Found(a | b) == if Found(a) < Found(b) then Found(a) else Found(b)
  {
  }
}
