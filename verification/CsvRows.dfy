/** The rows of the CSV state table: how reports are merged into them, and how they are written as text. */
module CsvRows {
  import opened CsvText
  import opened CsvState
  import opened Wrappers

  const FIELDS := 25

  /** What the standard library does with numbers, and the bitwise or of two masks. */
  datatype Numbers = Numbers(print_: int -> string, parse: string -> Option<int>, or: (int, int) -> int)

  ghost predicate Sound(N: Numbers) {
    forall n :: N.parse(N.print_(n)) == Some(n) && !NeedsQuotes(N.print_(n))
  }

  /** first_seen, received_at, station_id, level, ppm and the twenty columns; then the numbers. */
  datatype Row = Row(fields: seq<string>, count: int, types: int, channels: int)

  /** The size of the character array that holds field i. */
  function Width(i: nat): nat {
    if i == 2 then 12 else if i == 3 || i == 4 then 16 else 24
  }

  function Cut(s: string, width: nat): (r: string)
    requires width > 0
    ensures |r| < width && (|s| < width ==> r == s)
  {
    if |s| < width then s else s[..width - 1]
  }

  predicate Fits(r: Row) {
    |r.fields| == FIELDS && forall i :: 0 <= i < FIELDS ==> |r.fields[i]| < Width(i)
  }

  function SpacedAll(fs: seq<string>): (r: seq<string>)
    ensures |r| == |fs| && forall i :: 0 <= i < |fs| ==> r[i] == Spaced(fs[i])
  {
    if fs == [] then [] else [Spaced(fs[0])] + SpacedAll(fs[1..])
  }

  /** A row with its line breaks turned into spaces. */
  function FlatRow(r: Row): Row {
    r.(fields := SpacedAll(r.fields))
  }

  lemma FlatTwice(r: Row)
    ensures FlatRow(FlatRow(r)) == FlatRow(r)
  {
    forall i | 0 <= i < |r.fields|
      ensures SpacedAll(SpacedAll(r.fields))[i] == SpacedAll(r.fields)[i]
    {
      var s := Spaced(r.fields[i]);
      assert Spaced(s) == s;
    }
  }

  // ---------- rows as text ----------

  function Texts(fs: seq<string>): (r: seq<Option<string>>)
    ensures |r| == |fs| && forall i :: 0 <= i < |fs| ==> r[i] == Some(fs[i])
  {
    if fs == [] then [] else [Some(fs[0])] + Texts(fs[1..])
  }

  function Record(N: Numbers, key: nat, r: Row): seq<string> {
    [N.print_(key)] + r.fields + [N.print_(r.count), N.print_(r.types), N.print_(r.channels)]
  }

  function StateLine(N: Numbers, key: nat, r: Row): string {
    Join(Texts(Record(N, key, r)))
  }

  function CutAll(fs: seq<string>, n: nat): (r: seq<string>)
    requires n <= |fs|
    ensures |r| == n && forall i :: 0 <= i < n ==> r[i] == Cut(fs[i], Width(i))
  {
    if n == 0 then [] else CutAll(fs, n - 1) + [Cut(fs[n - 1], Width(n - 1))]
  }

  /** A number that does not parse leaves it and the numbers behind it at zero. */
  function Counted(N: Numbers, fields: seq<string>, f: seq<string>): Row
    requires |f| == 3
  {
    match N.parse(f[0])
    case None => Row(fields, 0, 0, 0)
    case Some(count) =>
      match N.parse(f[1])
      case None => Row(fields, count, 0, 0)
      case Some(types) => Row(fields, count, types, match N.parse(f[2]) case None => 0 case Some(c) => c)
  }

  function Parsed(N: Numbers, f: seq<string>): Option<(nat, Row)> {
    if |f| != FIELDS + 4 then None
    else
      match N.parse(f[0])
      case None => None
      case Some(v) =>
        var key := v % KEYS;
        if key == 0 then None
        else Some((key, Counted(N, CutAll(f[1..], FIELDS), f[FIELDS + 1..])))
  }

  /** The target and row of one line of a file; a corrupt line gives none. */
  function LoadLine(N: Numbers, line: string): Option<(nat, Row)> {
    var (f, ok) := Split(line, [], "", false);
    if ok then Parsed(N, f) else None
  }

  lemma FlatTexts(fs: seq<string>)
    requires fs != []
    ensures Split(Join(Texts(fs)), [], "", false) == (SpacedAll(fs), true)
  {
    RoundTrip(Texts(fs));
    forall i | 0 <= i < |fs|
      ensures FlatFrom(Texts(fs), 0)[i] == Spaced(fs[i])
    {
      FlatAt(Texts(fs), 0, i);
    }
    assert FlatFrom(Texts(fs), 0) == SpacedAll(fs);
  }

  lemma PlainStays(s: string)
    requires !NeedsQuotes(s)
    ensures Spaced(s) == s
  {
    forall i | 0 <= i < |s|
      ensures Spaced(s)[i] == s[i]
    {
      assert !Special(s[i]);
    }
  }

  lemma SpacedRecord(N: Numbers, key: nat, r: Row)
    requires Sound(N) && |r.fields| == FIELDS
    ensures SpacedAll(Record(N, key, r)) == Record(N, key, FlatRow(r))
  {
    PlainStays(N.print_(key));
    PlainStays(N.print_(r.count));
    PlainStays(N.print_(r.types));
    PlainStays(N.print_(r.channels));
  }

  lemma ParsedRecord(N: Numbers, key: nat, r: Row)
    requires Sound(N) && 0 < key < KEYS && Fits(r)
    ensures Parsed(N, Record(N, key, r)) == Some((key, r))
  {
    var f := Record(N, key, r);
    var tail := [N.print_(r.count), N.print_(r.types), N.print_(r.channels)];
    assert f[1..] == r.fields + tail && f[FIELDS + 1..] == tail;
    assert CutAll(f[1..], FIELDS) == r.fields;
    assert key % KEYS == key;
  }

  /** A row written to a file is read back as that row, flattened. */
  lemma LoadPrinted(N: Numbers, key: nat, r: Row)
    requires Sound(N) && 0 < key < KEYS && Fits(r)
    ensures LoadLine(N, StateLine(N, key, r)) == Some((key, FlatRow(r)))
  {
    FlatTexts(Record(N, key, r));
    SpacedRecord(N, key, r);
    ParsedRecord(N, key, FlatRow(r));
  }

  // ---------- merging ----------

  /** One report about a target: time, station, level, ppm and the twenty columns, then the masks. */
  datatype Report = Report(fields: seq<Option<string>>, types: int, channels: int)

  predicate Complete(u: Report) {
    |u.fields| == FIELDS - 1
  }

  function Text(v: Option<string>): string {
    match v case None => "" case Some(s) => s
  }

  function BlankFields(n: nat): (r: seq<string>)
    ensures |r| == n && forall i :: 0 <= i < n ==> r[i] == ""
  {
    seq(n, _ => "")
  }

  function Blank(): (r: Row)
    ensures Fits(r)
  {
    Row(BlankFields(FIELDS), 0, 0, 0)
  }

  /** A target's row before its first report is merged: only the time of that report is set. */
  function FirstRow(u: Report): (r: Row)
    requires Complete(u)
    ensures Fits(r)
  {
    Blank().(fields := BlankFields(FIELDS)[0 := Cut(Text(u.fields[0]), Width(0))])
  }

  /** Time and station always follow the report; a missing other value never erases a held one. */
  function MergedField(was: string, u: Report, i: nat): string
    requires Complete(u) && 0 < i < FIELDS
  {
    if i <= 2 then Cut(Text(u.fields[i - 1]), Width(i))
    else match u.fields[i - 1] case None => was case Some(s) => Cut(s, Width(i))
  }

  function MergedFields(was: seq<string>, u: Report, n: nat): (r: seq<string>)
    requires |was| == FIELDS && Complete(u) && 0 < n <= FIELDS
    ensures |r| == n && r[0] == was[0] && forall i :: 0 < i < n ==> r[i] == MergedField(was[i], u, i)
  {
    if n == 1 then [was[0]] else MergedFields(was, u, n - 1) + [MergedField(was[n - 1], u, n - 1)]
  }

  function Merged(or: (int, int) -> int, was: Row, u: Report): (r: Row)
    requires Fits(was) && Complete(u)
    ensures Fits(r)
  {
    Row(MergedFields(was.fields, u, FIELDS), was.count + 1, or(was.types, u.types), or(was.channels, u.channels))
  }

  /** A row after several reports. */
  function MergedAll(or: (int, int) -> int, was: Row, us: seq<Report>): (r: Row)
    requires Fits(was) && forall k :: 0 <= k < |us| ==> Complete(us[k])
    ensures Fits(r)
  {
    if us == [] then was else Merged(or, MergedAll(or, was, us[..|us| - 1]), us[|us| - 1])
  }

  /** The last value reported for field i, or the one held before. */
  function LastReported(was: string, us: seq<Report>, i: nat): string
    requires 3 <= i < FIELDS && forall k :: 0 <= k < |us| ==> Complete(us[k])
  {
    if us == [] then was
    else
      assert Complete(us[|us| - 1]);
      match us[|us| - 1].fields[i - 1]
      case Some(s) => Cut(s, if i <= 4 then 16 else 24)
      case None => LastReported(was, us[..|us| - 1], i)
  }

  /** A missing value never erases a held one, the time first seen never changes, and every report counts. */
  lemma {:induction false} HoldsLastReported(or: (int, int) -> int, was: Row, us: seq<Report>, i: nat)
    requires Fits(was) && 3 <= i < FIELDS && forall k :: 0 <= k < |us| ==> Complete(us[k])
    ensures MergedAll(or, was, us).fields[i] == LastReported(was.fields[i], us, i)
    ensures MergedAll(or, was, us).fields[0] == was.fields[0]
    ensures MergedAll(or, was, us).count == was.count + |us|
  {
    if us != [] {
      HoldsLastReported(or, was, us[..|us| - 1], i);
    }
  }

  /** The time of the first report stays that at which the target was first seen. */
  lemma FirstSeen(or: (int, int) -> int, us: seq<Report>)
    requires us != [] && forall k :: 0 <= k < |us| ==> Complete(us[k])
    ensures Complete(us[0])
    ensures MergedAll(or, FirstRow(us[0]), us).fields[0]
         == match us[0].fields[0] case None => "" case Some(s) => Cut(s, 24)
  {
    HoldsLastReported(or, FirstRow(us[0]), us, 3);
    assert Cut("", 24) == "";
  }

  /** Time and station are those of the last report, empty where it has none. */
  lemma FollowsLastReport(or: (int, int) -> int, was: Row, us: seq<Report>, i: nat)
    requires Fits(was) && us != [] && 1 <= i <= 2 && forall k :: 0 <= k < |us| ==> Complete(us[k])
    ensures MergedAll(or, was, us).fields[i]
         == match us[|us| - 1].fields[i - 1] case None => "" case Some(s) => Cut(s, if i == 1 then 24 else 12)
  {
    var last := us[|us| - 1];
    assert Complete(last);
    assert Cut("", Width(i)) == "";
    assert MergedAll(or, was, us) == Merged(or, MergedAll(or, was, us[..|us| - 1]), last);
  }

  /** The state table of the CSV backend, with its text format. */
  function TextCodec(N: Numbers): Codec<Row, Report> {
    Codec((key: nat, r: Row) => StateLine(N, key, r), (line: string) => LoadLine(N, line),
          (r: Row) => FlatRow(r), (r: Row) => Fits(r), Blank(),
          (u: Report) => if Complete(u) then FirstRow(u) else Blank(),
          (r: Row, u: Report) => if Fits(r) && Complete(u) then Merged(N.or, r, u) else Blank())
  }

  /** The files of the CSV backend read back what was written, whatever was merged. */
  lemma TextIsFaithful(N: Numbers)
    requires Sound(N)
    ensures Faithful(TextCodec(N))
  {
    var C := TextCodec(N);
    forall key, r | 0 < key < KEYS && C.fits(r)
      ensures C.load(C.print_(key, r)) == Some((key, C.flat(r)))
    {
      LoadPrinted(N, key, r);
    }
    forall r
      ensures C.flat(C.flat(r)) == C.flat(r)
    {
      FlatTwice(r);
    }
  }

  /** A second report makes another row of the first one: the count says so. */
  lemma SecondReportDiffers(N: Numbers, u: Report, v: Report)
    requires Complete(u) && Complete(v)
    ensures var C := TextCodec(N); C.flat(C.merge(Once(C, u), v)) != C.flat(Once(C, u))
  {
    var C := TextCodec(N);
    assert C.merge(Once(C, u), v).count == Once(C, u).count + 1;
  }

  /** In the CSV backend's own format, the crash puts a target's count back by one. */
  method CrashForgetsReport(N: Numbers, capacity: nat, key: nat, u: Report, v: Report)
    returns (s: State<Row, Report>, h: nat)
    requires Sound(N) && Complete(u) && Complete(v) && capacity > 0 && 0 < key < KEYS
    ensures s.Valid() && h < |s.table| && s.table[h].key == key && s.table[h].row.count == 2
    ensures var m := Replay(s.C, s.NewSnapshot() + s.journal); key in m && m[key].count == 1
  {
    TextIsFaithful(N);
    SecondReportDiffers(N, u, v);
    s, h := CrashLosesReport(TextCodec(N), capacity, key, u, v);
  }
}
