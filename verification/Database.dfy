/**
  The database writer: decoder threads queue entries, a worker writes them in batches to a backend
  whose every call may fail. An entry is named by its place in the order of arrival, and a row by
  its entry and its table. What the backend would answer in a cycle is a parameter of the cycle.
*/
module Database {
  import opened Seqs

  const MAX_QUEUE_SIZE := 2048
  const TABLES := 4

  /** The tables an entry goes to: message, position, static and state, in this order. */
  datatype Entry = Entry(tables: set<nat>)

  datatype Row = Row(entry: nat, table: nat)

  /** The rows of an entry for the first t tables. */
  function RowsUpTo(e: Entry, id: nat, t: nat): seq<Row> {
    if t == 0 then []
    else RowsUpTo(e, id, t - 1) + if t - 1 in e.tables then [Row(id, t - 1)] else []
  }

  /** The rows of the entries from lo on and below hi. */
  function RowsOfRange(entries: seq<Entry>, lo: nat, hi: nat): seq<Row>
    requires lo <= hi <= |entries|
    decreases hi - lo
  {
    if lo == hi then [] else RowsOfRange(entries, lo, hi - 1) + RowsUpTo(entries[hi - 1], hi - 1, TABLES)
  }

  /** The rows of the entries that were delivered, in order of arrival. */
  function RowsOfAll(entries: seq<Entry>, delivered: set<nat>, n: nat): seq<Row>
    requires n <= |entries|
  {
    if n == 0 then []
    else
      RowsOfAll(entries, delivered, n - 1)
      + if n - 1 in delivered then RowsUpTo(entries[n - 1], n - 1, TABLES) else []
  }

  predicate Before(a: Row, b: Row) {
    a.entry < b.entry || (a.entry == b.entry && a.table < b.table)
  }

  /** Rows in order of arrival, none twice. */
  predicate InOrder(rows: seq<Row>) {
    forall i, j :: 0 <= i < j < |rows| ==> Before(rows[i], rows[j])
  }

  predicate AllBelow(rows: seq<Row>, id: nat) {
    forall i :: 0 <= i < |rows| ==> rows[i].entry < id
  }

  lemma {:induction false} RowsUpToInOrder(e: Entry, id: nat, t: nat)
    ensures InOrder(RowsUpTo(e, id, t))
    ensures forall i :: 0 <= i < |RowsUpTo(e, id, t)| ==>
      RowsUpTo(e, id, t)[i].entry == id && RowsUpTo(e, id, t)[i].table < t
  {
    if t > 0 {
      RowsUpToInOrder(e, id, t - 1);
    }
  }

  lemma AppendEntry(rows: seq<Row>, e: Entry, id: nat, t: nat)
    requires InOrder(rows) && AllBelow(rows, id)
    ensures InOrder(rows + RowsUpTo(e, id, t)) && AllBelow(rows + RowsUpTo(e, id, t), id + 1)
  {
    RowsUpToInOrder(e, id, t);
  }

  /** Whole entries give rows in order. */
  lemma {:induction false} WholeIsInOrder(entries: seq<Entry>, delivered: set<nat>, n: nat)
    requires n <= |entries|
    ensures InOrder(RowsOfAll(entries, delivered, n)) && AllBelow(RowsOfAll(entries, delivered, n), n)
  {
    if n > 0 {
      WholeIsInOrder(entries, delivered, n - 1);
      AppendEntry(RowsOfAll(entries, delivered, n - 1), entries[n - 1], n - 1, TABLES);
    }
  }

  /** Entries that arrive later do not change the rows of earlier ones. */
  lemma {:induction false} RowsOfGrown(entries: seq<Entry>, e: Entry, delivered: set<nat>, n: nat)
    requires n <= |entries|
    ensures RowsOfAll(entries + [e], delivered, n) == RowsOfAll(entries, delivered, n)
  {
    if n > 0 {
      RowsOfGrown(entries, e, delivered, n - 1);
    }
  }

  function Span(lo: nat, hi: nat): (s: set<nat>)
    requires lo <= hi
    ensures forall i :: i in s <==> lo <= i < hi
    decreases hi - lo
  {
    if lo == hi then {} else Span(lo, hi - 1) + {hi - 1}
  }

  lemma {:induction false} RowsOfSame(entries: seq<Entry>, a: set<nat>, b: set<nat>, n: nat)
    requires n <= |entries| && forall i :: 0 <= i < n ==> (i in a <==> i in b)
    ensures RowsOfAll(entries, a, n) == RowsOfAll(entries, b, n)
  {
    if n > 0 {
      RowsOfSame(entries, a, b, n - 1);
    }
  }

  /** Delivering everything from lo on and below hi appends just those rows. */
  lemma {:induction false} DeliverRange(entries: seq<Entry>, delivered: set<nat>, lo: nat, hi: nat)
    requires lo <= hi <= |entries|
    ensures RowsOfAll(entries, delivered + Span(lo, hi), hi)
      == RowsOfAll(entries, delivered, lo) + RowsOfRange(entries, lo, hi)
    decreases hi - lo
  {
    if lo < hi {
      DeliverRange(entries, delivered, lo, hi - 1);
      RowsOfSame(entries, delivered + Span(lo, hi), delivered + Span(lo, hi - 1), hi - 1);
    } else {
      RowsOfSame(entries, delivered + Span(lo, hi), delivered, hi);
    }
  }

  /** Entries that were not delivered add nothing. */
  lemma {:induction false} SkipRange(entries: seq<Entry>, delivered: set<nat>, lo: nat, hi: nat)
    requires lo <= hi <= |entries| && forall i :: lo <= i < hi ==> i !in delivered
    ensures RowsOfAll(entries, delivered, hi) == RowsOfAll(entries, delivered, lo)
    decreases hi - lo
  {
    if lo < hi {
      SkipRange(entries, delivered, lo, hi - 1);
    }
  }

  lemma {:induction false} RangeSame(a: seq<Entry>, b: seq<Entry>, lo: nat, hi: nat)
    requires lo <= hi <= |a| && hi <= |b| && a[..hi] == b[..hi]
    ensures RowsOfRange(a, lo, hi) == RowsOfRange(b, lo, hi)
    decreases hi - lo
  {
    if lo < hi {
      assert a[..hi - 1] == a[..hi][..hi - 1] == b[..hi][..hi - 1] == b[..hi - 1];
      assert a[hi - 1] == a[..hi][hi - 1] == b[..hi][hi - 1] == b[hi - 1];
      RangeSame(a, b, lo, hi - 1);
    }
  }

  lemma RangeOfOne(entries: seq<Entry>, n: nat, e: Entry)
    requires n < |entries| && entries[n] == e
    ensures RowsOfRange(entries, n, n + 1) == RowsUpTo(e, n, TABLES)
  {
    assert RowsOfRange(entries, n, n) == [];
  }

  lemma RangeOneMore(was: seq<Entry>, entries: seq<Entry>, lo: nat, hi: nat, e: Entry)
    requires lo <= hi < |was| && was <= entries && entries[hi] == e
    ensures RowsOfRange(entries, lo, hi) == RowsOfRange(was, lo, hi)
    ensures RowsOfRange(entries, lo, hi + 1) == RowsOfRange(was, lo, hi) + RowsUpTo(e, hi, TABLES)
  {
    RangeSame(was, entries, lo, hi);
  }

  /** Among the rows of whole entries is a given row exactly when its entry was delivered and goes to its table. */
  lemma {:induction false} RowsUpToHas(e: Entry, id: nat, t: nat, r: Row)
    ensures r in RowsUpTo(e, id, t) <==> r.entry == id && r.table < t && r.table in e.tables
  {
    if t > 0 {
      RowsUpToHas(e, id, t - 1, r);
    }
  }

  lemma {:induction false} RowsOfAllHas(entries: seq<Entry>, delivered: set<nat>, n: nat, r: Row)
    requires n <= |entries|
    ensures r in RowsOfAll(entries, delivered, n) <==>
      r.entry < n && r.entry in delivered && r.table < TABLES && r.table in entries[r.entry].tables
  {
    if n > 0 {
      RowsOfAllHas(entries, delivered, n - 1, r);
      RowsUpToHas(entries[n - 1], n - 1, TABLES, r);
    }
  }

  datatype Fate = Written | Dropped

  // ---------- what a backend answers, and what comes of it ----------

  /**
    The answers to one transaction: to its begin, its statements by table, and its commit. `lands`
    says whether a commit that reports failure has nevertheless landed.
  */
  datatype Attempt = Attempt(begins: bool, refuses: set<nat>, commits: bool, lands: bool)

  /**
    The answers to one cycle: whether the connection is usable, the answers to the transaction of
    the whole batch, whose statements are named by their place in the batch, and those to the
    transaction of every replayed entry.
  */
  datatype Answers = Answers(usable: bool, begins: bool, refuses: nat -> set<nat>, commits: bool, lands: bool,
                             again: nat -> Attempt)

  /** No statement of the entry is refused. */
  predicate Takes(e: Entry, refused: set<nat>) {
    forall t: nat :: t < TABLES && t in e.tables ==> t !in refused
  }

  /** The statements of the entry succeed for the first n tables, and for no more. */
  predicate StopsAt(e: Entry, refused: set<nat>, n: nat) {
    && n <= TABLES
    && (forall t: nat :: t < n && t in e.tables ==> t !in refused)
    && (n < TABLES ==> n in e.tables && n in refused)
  }

  function Stop(e: Entry, refused: set<nat>, from: nat): (n: nat)
    requires from <= TABLES && forall t: nat :: t < from && t in e.tables ==> t !in refused
    ensures StopsAt(e, refused, n)
    decreases TABLES - from
  {
    if from == TABLES || (from in e.tables && from in refused) then from else Stop(e, refused, from + 1)
  }

  lemma StopsOnce(e: Entry, refused: set<nat>, n: nat)
    requires StopsAt(e, refused, n)
    ensures n == Stop(e, refused, 0) && (n == TABLES <==> Takes(e, refused))
  {
    var m := Stop(e, refused, 0);
    assert m >= n;
  }

  /** No statement of the batch is refused. */
  ghost predicate AllTaken(batch: seq<Entry>, answers: Answers) {
    forall i: nat :: i < |batch| ==> Takes(batch[i], answers.refuses(i))
  }

  /** The replay gets as far as the statements of entry i, and all of them succeed. */
  ghost predicate TakenAgain(batch: seq<Entry>, answers: Answers, i: nat)
    requires i < |batch|
  {
    (forall k: nat :: k <= i ==> answers.again(k).begins) && Takes(batch[i], answers.again(i).refuses)
  }

  /** A commit has landed; of an honest backend only one that reports it. */
  predicate Lands(honest: bool, commits: bool, lands: bool) {
    commits || (lands && !honest)
  }

  /** Whether entry i of a batch counts as written. */
  ghost predicate WrittenIn(transactional: bool, batch: seq<Entry>, answers: Answers, i: nat)
    requires i < |batch|
  {
    if !transactional then Takes(batch[i], answers.refuses(i))
    else if !answers.begins then false
    else if AllTaken(batch, answers) then answers.commits
    else TakenAgain(batch, answers, i) && answers.again(i).commits
  }

  /** For how many tables the rows of entry i land for good: for all or none where statements can be rolled back. */
  ghost function ReachedIn(transactional: bool, honest: bool, batch: seq<Entry>, answers: Answers, i: nat): nat
    requires i < |batch|
  {
    var a := answers.again(i);
    if !transactional then Stop(batch[i], answers.refuses(i), 0)
    else if !answers.begins then 0
    else if AllTaken(batch, answers) then if Lands(honest, answers.commits, answers.lands) then TABLES else 0
    else if TakenAgain(batch, answers, i) && Lands(honest, a.commits, a.lands) then TABLES else 0
  }

  datatype Outcome = Outcome(fate: Fate, reached: nat)

  /** What becomes of every entry of a batch. */
  ghost function Outcomes(transactional: bool, honest: bool, batch: seq<Entry>, answers: Answers): (r: seq<Outcome>)
    ensures |r| == |batch|
    ensures forall i: nat :: i < |batch| ==>
      r[i] == Outcome(if WrittenIn(transactional, batch, answers, i) then Written else Dropped,
                      ReachedIn(transactional, honest, batch, answers, i))
  {
    seq(|batch|, i requires 0 <= i < |batch| =>
      Outcome(if WrittenIn(transactional, batch, answers, i) then Written else Dropped,
              ReachedIn(transactional, honest, batch, answers, i)))
  }

  /** A cycle after which the failure count is zero: something was written, and no replay broke off. */
  ghost predicate Serves(transactional: bool, batch: seq<Entry>, answers: Answers) {
    || batch == []
    || ((exists i: nat :: i < |batch| && WrittenIn(transactional, batch, answers, i))
        && (transactional && !AllTaken(batch, answers) ==>
              forall k: nat :: k < |batch| ==> answers.again(k).begins))
  }

  /** How every entry of a batch fares that is committed at once. */
  function AtOnce(honest: bool, answers: Answers): Outcome {
    Outcome(if answers.commits then Written else Dropped,
            if Lands(honest, answers.commits, answers.lands) then TABLES else 0)
  }

  /** With a batch that is committed at once the cycle serves exactly if the commit does. */
  lemma WholeFaresAlike(honest: bool, batch: seq<Entry>, answers: Answers)
    requires batch != [] && answers.begins && AllTaken(batch, answers)
    ensures forall k :: 0 <= k < |batch| ==> Outcomes(true, honest, batch, answers)[k] == AtOnce(honest, answers)
    ensures Serves(true, batch, answers) <==> answers.commits
  {
    assert WrittenIn(true, batch, answers, 0) <==> answers.commits;
  }

  /** Without a transaction the whole batch is dropped, and the cycle does not serve. */
  lemma NoneFares(honest: bool, batch: seq<Entry>, answers: Answers)
    requires batch != [] && !answers.begins
    ensures forall k :: 0 <= k < |batch| ==> Outcomes(true, honest, batch, answers)[k] == Outcome(Dropped, 0)
    ensures !Serves(true, batch, answers)
  {
  }

  /** The replay gets as far as the begin of entry i. */
  ghost predicate Reaches(answers: Answers, i: nat) {
    forall k: nat :: k < i ==> answers.again(k).begins
  }

  /** How a replayed entry fares; if its transaction cannot begin, it and all behind it are dropped. */
  ghost predicate FaresAgain(honest: bool, batch: seq<Entry>, answers: Answers, i: nat, outcomes: seq<Outcome>)
    requires i < |batch| == |outcomes|
  {
    var a := answers.again(i);
    var taken := Takes(batch[i], a.refuses);
    if a.begins then
      outcomes[i] == Outcome(if taken && a.commits then Written else Dropped,
                             if taken && Lands(honest, a.commits, a.lands) then TABLES else 0)
    else forall k :: i <= k < |batch| ==> outcomes[k] == Outcome(Dropped, 0)
  }

  ghost predicate AllFareAgain(honest: bool, batch: seq<Entry>, answers: Answers, outcomes: seq<Outcome>) {
    |outcomes| == |batch| && forall i: nat :: i < |batch| && Reaches(answers, i) ==>
      FaresAgain(honest, batch, answers, i, outcomes)
  }

  /** With a batch that is replayed the cycle serves exactly if no begin failed and something was written. */
  lemma ReplayFares(honest: bool, batch: seq<Entry>, answers: Answers)
    requires batch != [] && answers.begins && !AllTaken(batch, answers)
    ensures AllFareAgain(honest, batch, answers, Outcomes(true, honest, batch, answers))
    ensures Serves(true, batch, answers) <==>
      Reaches(answers, |batch|) && Drops(Outcomes(true, honest, batch, answers)) < |batch|
  {
    var outcomes := Outcomes(true, honest, batch, answers);
    forall i: nat | i < |batch| && Reaches(answers, i)
      ensures FaresAgain(honest, batch, answers, i, outcomes)
    {
    }
    AllDropped(outcomes);
  }

  predicate Meets(fate: map<nat, Fate>, id: nat, outcome: Outcome) {
    id in fate && fate[id] == outcome.fate
  }

  /** The entries of a batch, the first of which is entry `first`, meet their fates. */
  ghost predicate Settled(fate: map<nat, Fate>, first: nat, outcomes: seq<Outcome>) {
    forall i: nat :: i < |outcomes| ==> Meets(fate, first + i, outcomes[i])
  }

  /** The rows of the batch's entries, of each for as many tables as it reached. */
  function RowsReached(batch: seq<Entry>, first: nat, outcomes: seq<Outcome>): seq<Row>
    requires |outcomes| <= |batch|
  {
    if outcomes == [] then []
    else
      var i := |outcomes| - 1;
      RowsReached(batch, first, outcomes[..i]) + RowsUpTo(batch[i], first + i, outcomes[i].reached)
  }

  /** How many entries are dropped. */
  function Drops(outcomes: seq<Outcome>): nat {
    if outcomes == [] then 0
    else Drops(outcomes[..|outcomes| - 1]) + if outcomes[|outcomes| - 1].fate == Dropped then 1 else 0
  }

  lemma {:induction false} AllDropped(outcomes: seq<Outcome>)
    ensures Drops(outcomes) <= |outcomes|
    ensures Drops(outcomes) == |outcomes| <==> forall i :: 0 <= i < |outcomes| ==> outcomes[i].fate == Dropped
  {
    if outcomes != [] {
      AllDropped(outcomes[..|outcomes| - 1]);
    }
  }

  /** The first i entries of the batch have met their fates, and their rows are behind `rows` in the tables. */
  ghost predicate Through(batch: seq<Entry>, first: nat, outcomes: seq<Outcome>, i: nat, fate: map<nat, Fate>,
                          rows: seq<Row>, landed: seq<Row>)
    requires i <= |outcomes| <= |batch|
  {
    Settled(fate, first, outcomes[..i]) && landed == rows + RowsReached(batch, first, outcomes[..i])
  }

  /** All of them have. */
  ghost predicate Done(batch: seq<Entry>, first: nat, outcomes: seq<Outcome>, fate: map<nat, Fate>, rows: seq<Row>,
                       landed: seq<Row>)
    requires |outcomes| <= |batch|
  {
    Settled(fate, first, outcomes) && landed == rows + RowsReached(batch, first, outcomes)
  }

  lemma AllThrough(batch: seq<Entry>, first: nat, outcomes: seq<Outcome>, fate: map<nat, Fate>, rows: seq<Row>,
                   landed: seq<Row>)
    requires |outcomes| <= |batch| && Through(batch, first, outcomes, |outcomes|, fate, rows, landed)
    ensures Done(batch, first, outcomes, fate, rows, landed) && outcomes[..|outcomes|] == outcomes
  {
    assert outcomes[..|outcomes|] == outcomes;
  }

  lemma OneThrough(batch: seq<Entry>, first: nat, outcomes: seq<Outcome>, i: nat, was: map<nat, Fate>,
                   fate: map<nat, Fate>, rows: seq<Row>, before: seq<Row>, landed: seq<Row>)
    requires i < |outcomes| <= |batch| && Through(batch, first, outcomes, i, was, rows, before)
    requires Kept(was, fate) && first + i in fate && fate[first + i] == outcomes[i].fate
    requires landed == before + RowsUpTo(batch[i], first + i, outcomes[i].reached)
    ensures Through(batch, first, outcomes, i + 1, fate, rows, landed)
    ensures Drops(outcomes[..i + 1]) == Drops(outcomes[..i]) + if outcomes[i].fate == Dropped then 1 else 0
  {
    ghost var most := outcomes[..i + 1];
    assert most[..i] == outcomes[..i] && most[i] == outcomes[i];
    Regroup(rows, RowsReached(batch, first, outcomes[..i]), RowsUpTo(batch[i], first + i, outcomes[i].reached));
    forall k: nat | k < i + 1
      ensures Meets(fate, first + k, most[k])
    {
      assert k < i ==> most[k] == outcomes[..i][k];
    }
  }

  /** Entries that reach no table add no row. */
  lemma {:induction false} NoMoreReached(batch: seq<Entry>, first: nat, outcomes: seq<Outcome>, i: nat)
    requires i <= |outcomes| <= |batch| && forall k :: i <= k < |outcomes| ==> outcomes[k].reached == 0
    ensures RowsReached(batch, first, outcomes) == RowsReached(batch, first, outcomes[..i])
    decreases |outcomes|
  {
    if i < |outcomes| {
      var last := |outcomes| - 1;
      NoMoreReached(batch, first, outcomes[..last], i);
      assert outcomes[..last][..i] == outcomes[..i];
    } else {
      assert outcomes[..i] == outcomes;
    }
  }

  /** The rest of the batch is dropped and reaches no table. */
  lemma RestDropped(batch: seq<Entry>, first: nat, outcomes: seq<Outcome>, i: nat, was: map<nat, Fate>,
                    rows: seq<Row>, landed: seq<Row>)
    requires i <= |outcomes| <= |batch| && Through(batch, first, outcomes, i, was, rows, landed)
    requires forall k :: i <= k < |outcomes| ==> outcomes[k] == Outcome(Dropped, 0)
    requires forall k :: k in was ==> !(first + i <= k < first + |outcomes|)
    ensures Done(batch, first, outcomes, Marked(was, first + i, first + |outcomes|, Dropped), rows, landed)
    ensures Kept(was, Marked(was, first + i, first + |outcomes|, Dropped))
  {
    ghost var fate := Marked(was, first + i, first + |outcomes|, Dropped);
    NoMoreReached(batch, first, outcomes, i);
    forall k: nat | k < |outcomes|
      ensures Meets(fate, first + k, outcomes[k])
    {
      assert k < i ==> outcomes[k] == outcomes[..i][k];
    }
  }

  /** The whole batch is committed at once. */
  lemma CommittedDone(batch: seq<Entry>, entries: seq<Entry>, first: nat, outcomes: seq<Outcome>, was: map<nat, Fate>,
                      rows: seq<Row>, landed: seq<Row>, o: Outcome)
    requires |outcomes| == |batch| && first + |batch| <= |entries| && o.reached in {0, TABLES}
    requires forall k :: 0 <= k < |batch| ==> batch[k] == entries[first + k] && outcomes[k] == o
    requires landed == if o.reached == 0 then rows else rows + RowsOfRange(entries, first, first + |batch|)
    requires forall k :: k in was ==> !(first <= k < first + |batch|)
    ensures Done(batch, first, outcomes, Marked(was, first, first + |batch|, o.fate), rows, landed)
    ensures Kept(was, Marked(was, first, first + |batch|, o.fate))
  {
    if o.reached == 0 {
      NoMoreReached(batch, first, outcomes, 0);
    } else {
      AllReached(batch, entries, first, outcomes);
    }
  }

  /** If every entry reaches every table, the rows are those of a stretch of entries. */
  lemma {:induction false} AllReached(batch: seq<Entry>, entries: seq<Entry>, first: nat, outcomes: seq<Outcome>)
    requires |outcomes| <= |batch| && first + |outcomes| <= |entries|
    requires forall k :: 0 <= k < |outcomes| ==> batch[k] == entries[first + k] && outcomes[k].reached == TABLES
    ensures RowsReached(batch, first, outcomes) == RowsOfRange(entries, first, first + |outcomes|)
    decreases |outcomes|
  {
    if outcomes != [] {
      AllReached(batch, entries, first, outcomes[..|outcomes| - 1]);
    }
  }

  /** The entries from lo on and below hi meet fate f. */
  function Marked(fate: map<nat, Fate>, lo: nat, hi: nat, f: Fate): (m: map<nat, Fate>)
    requires lo <= hi
    ensures forall i :: i in m <==> i in fate || lo <= i < hi
    ensures forall i :: i in m ==> m[i] == if lo <= i < hi then f else fate[i]
    decreases hi - lo
  {
    if lo == hi then fate else Marked(fate, lo, hi - 1, f)[hi - 1 := f]
  }

  /** A fate is final. */
  predicate Kept(was: map<nat, Fate>, now: map<nat, Fate>) {
    forall i :: i in was ==> i in now && now[i] == was[i]
  }

  /** The queue is the end of what was received; every entry before it and not in the batch has met its fate. */
  ghost predicate Accounts(entries: seq<Entry>, queue: seq<Entry>, fate: map<nat, Fate>, next: nat, taken: nat) {
    && |queue| <= MAX_QUEUE_SIZE && |queue| <= |entries| && queue == entries[|entries| - |queue|..]
    && next <= taken <= |entries| - |queue|
    && forall i :: i in fate <==> 0 <= i < |entries| - |queue| && !(next <= i < taken)
  }

  lemma SettleAccounts(entries: seq<Entry>, queue: seq<Entry>, fate: map<nat, Fate>, next: nat, taken: nat, k: nat,
                       f: Fate)
    requires Accounts(entries, queue, fate, next, taken) && next + k <= taken
    ensures Accounts(entries, queue, Marked(fate, next, next + k, f), next + k, taken)
  {
  }

  /**
    The tables hold rows of the first n entries in order; with transactions those of the delivered
    entries, whole, among them all that count as written, and of an honest backend only those.
  */
  ghost predicate TablesOk(transactional: bool, honest: bool, entries: seq<Entry>, landed: seq<Row>,
                           delivered: set<nat>, fate: map<nat, Fate>, n: nat)
    requires n <= |entries|
  {
    && InOrder(landed) && AllBelow(landed, n)
    && (transactional ==> landed == RowsOfAll(entries, delivered, n))
    && (forall i :: i in delivered ==> i < n)
    && (transactional ==> forall i :: i in fate && fate[i] == Written ==> i in delivered)
    && (transactional && honest ==> forall i :: i in delivered ==> i in fate && fate[i] == Written)
  }

  /** Giving up the next k entries leaves the tables as they are. */
  lemma DropKeepsTables(transactional: bool, honest: bool, entries: seq<Entry>, landed: seq<Row>, delivered: set<nat>,
                        fate: map<nat, Fate>, n: nat, k: nat)
    requires n + k <= |entries| && TablesOk(transactional, honest, entries, landed, delivered, fate, n)
    ensures TablesOk(transactional, honest, entries, landed, delivered, Marked(fate, n, n + k, Dropped), n + k)
  {
    SkipRange(entries, delivered, n, n + k);
  }

  /** A transaction with the rows of the next k entries lands: they are delivered, whatever it reported. */
  lemma LandKeepsTables(honest: bool, entries: seq<Entry>, landed: seq<Row>, delivered: set<nat>,
                        fate: map<nat, Fate>, n: nat, k: nat, f: Fate)
    requires n + k <= |entries| && TablesOk(true, honest, entries, landed, delivered, fate, n)
    requires honest ==> f == Written
    ensures TablesOk(true, honest, entries, landed + RowsOfRange(entries, n, n + k), delivered + Span(n, n + k),
                     Marked(fate, n, n + k, f), n + k)
  {
    DeliverRange(entries, delivered, n, n + k);
    WholeIsInOrder(entries, delivered + Span(n, n + k), n + k);
  }

  lemma SettleKeeps(transactional: bool, honest: bool, entries: seq<Entry>, queue: seq<Entry>, landed: seq<Row>,
                    delivered: set<nat>, fate: map<nat, Fate>, n: nat, taken: nat, k: nat)
    returns (fates: map<nat, Fate>)
    requires Accounts(entries, queue, fate, n, taken) && n + k <= taken
    requires TablesOk(transactional, honest, entries, landed, delivered, fate, n)
    ensures fates == Marked(fate, n, n + k, Dropped) && Accounts(entries, queue, fates, n + k, taken)
    ensures TablesOk(transactional, honest, entries, landed, delivered, fates, n + k)
  {
    DropKeepsTables(transactional, honest, entries, landed, delivered, fate, n, k);
    SettleAccounts(entries, queue, fate, n, taken, k, Dropped);
    fates := Marked(fate, n, n + k, Dropped);
  }

  lemma LandKeeps(transactional: bool, honest: bool, entries: seq<Entry>, queue: seq<Entry>, rows: seq<Row>,
                  landed: seq<Row>, delivered: set<nat>, fate: map<nat, Fate>, n: nat, taken: nat, k: nat, f: Fate)
    returns (fates: map<nat, Fate>, done: set<nat>)
    requires Accounts(entries, queue, fate, n, taken) && n + k <= taken && (honest ==> f == Written)
    requires transactional && TablesOk(transactional, honest, entries, rows, delivered, fate, n)
    requires landed == rows + RowsOfRange(entries, n, n + k)
    ensures fates == Marked(fate, n, n + k, f) && Accounts(entries, queue, fates, n + k, taken)
    ensures TablesOk(transactional, honest, entries, landed, done, fates, n + k)
  {
    LandKeepsTables(honest, entries, rows, delivered, fate, n, k, f);
    SettleAccounts(entries, queue, fate, n, taken, k, f);
    fates, done := Marked(fate, n, n + k, f), delivered + Span(n, n + k);
  }

  class DatabaseOutput {
    const transactional: bool
    /** Whether a commit that reports failure has really landed nothing. */
    const honest: bool

    var queue: seq<Entry>
    var connFails: nat

    /** Every entry ever received. The queue is the end of it; [next, taken) is the batch being written. */
    ghost var entries: seq<Entry>
    ghost var next: nat
    ghost var taken: nat
    ghost var fate: map<nat, Fate>

    /** The backend: what the open transaction holds, and what is in the tables for good. */
    ghost var staged: seq<Row>
    ghost var landed: seq<Row>
    /** Entries whose rows are in the tables, kept for a transactional backend. */
    ghost var delivered: set<nat>

    ghost predicate Queues()
      reads this
    {
      Accounts(entries, queue, fate, next, taken)
    }

    ghost predicate Landed()
      reads this
    {
      next <= |entries| && TablesOk(transactional, honest, entries, landed, delivered, fate, next)
    }

    ghost predicate Valid()
      reads this
    {
      Queues() && Landed()
    }

    constructor (transactional: bool, honest: bool)
      ensures Valid() && entries == [] && next == taken == 0
      ensures this.transactional == transactional && this.honest == honest
    {
      this.transactional, this.honest := transactional, honest;
      queue, entries, connFails := [], [], 0;
      next, taken, fate := 0, 0, map[];
      staged, landed, delivered := [], [], {};
    }

    /** A decoder thread queues an entry. A full queue first loses its oldest quarter. */
    method Receive(e: Entry)
      requires Valid()
      modifies `queue, `entries, `fate
      ensures Valid() && entries == old(entries) + [e] && |queue| > 0
      ensures forall i :: i in old(fate) ==> i in fate && fate[i] == old(fate)[i]
      ensures |queue| == if |old(queue)| < 2048 then |old(queue)| + 1 else 1537
    {
      ghost var first := |entries| - |queue|;
      RowsOfGrown(entries, e, delivered, next);
      if |queue| >= MAX_QUEUE_SIZE {
        var drop := MAX_QUEUE_SIZE / 4;
        queue := queue[drop..];
        fate := Marked(fate, first, first + drop, Dropped);
      }
      queue := queue + [e];
      entries := entries + [e];
    }

    /** Other threads run: any number of entries arrive. */
    method Meanwhile()
      requires Valid()
      modifies `queue, `entries, `fate
      ensures Valid() && old(entries) <= entries && Kept(old(fate), fate)
    {
      var n: int := *;
      while 0 < n
        invariant Valid() && old(entries) <= entries && Kept(old(fate), fate)
        decreases n
      {
        var tables: set<nat> := *;
        Receive(Entry(tables));
        n := n - 1;
      }
    }

    // ---------- the backend ----------

    method Begin(answer: bool) returns (ok: bool)
      modifies `staged
      ensures ok == answer && (ok ==> staged == [])
    {
      ok := answer;
      if ok {
        staged := [];
      }
    }

    /** One statement. Without transactions it lands at once. */
    method Exec(ghost row: Row, answer: bool) returns (ok: bool)
      modifies `staged, `landed
      ensures ok == answer
      ensures !ok ==> staged == old(staged) && landed == old(landed)
      ensures ok && transactional ==> staged == old(staged) + [row] && landed == old(landed)
      ensures ok && !transactional ==> landed == old(landed) + [row] && staged == old(staged)
    {
      ok := answer;
      if ok {
        if transactional {
          staged := staged + [row];
        } else {
          landed := landed + [row];
        }
      }
    }

    /** A failed commit lands nothing, or, of a backend that is not honest, perhaps everything. */
    method Commit(answer: bool, ghost lands: bool) returns (ok: bool)
      modifies `staged, `landed
      ensures ok == answer
      ensures landed == if Lands(honest, answer, lands) then old(landed) + old(staged) else old(landed)
    {
      ok := answer;
      if Lands(honest, answer, lands) {
        landed := landed + staged;
      }
      staged := [];
    }

    method Rollback()
      modifies `staged
      ensures staged == []
    {
      staged := [];
    }

    /** The statements of one entry, up to the first that is refused. */
    method WriteEntry(e: Entry, ghost id: nat, refused: set<nat>) returns (ok: bool)
      modifies `staged, `landed
      ensures ok <==> Takes(e, refused)
      ensures var rows := RowsUpTo(e, id, Stop(e, refused, 0));
        if transactional then staged == old(staged) + rows && landed == old(landed)
        else landed == old(landed) + rows && staged == old(staged)
      ensures ok ==> Stop(e, refused, 0) == TABLES
    {
      ok := true;
      var t := 0;
      while t < TABLES
        invariant 0 <= t <= TABLES && ok
        invariant forall k: nat :: k < t && k in e.tables ==> k !in refused
        invariant if transactional then staged == old(staged) + RowsUpTo(e, id, t) && landed == old(landed)
          else landed == old(landed) + RowsUpTo(e, id, t) && staged == old(staged)
      {
        if t in e.tables {
          ok := Exec(Row(id, t), t !in refused);
          if !ok {
            StopsOnce(e, refused, t);
            return;
          }
        }
        t := t + 1;
      }
      StopsOnce(e, refused, TABLES);
    }

    // ---------- one cycle of the worker ----------

    ghost predicate Idle()
      reads this
    {
      Valid() && next == taken
    }

    /** The worker holds the rest of its batch: the entries from `next` on. */
    ghost predicate Holds(batch: seq<Entry>)
      reads this
    {
      Valid() && |batch| == taken - next && forall j :: 0 <= j < |batch| ==> batch[j] == entries[next + j]
    }

    method TakeBatch() returns (batch: seq<Entry>)
      requires Idle()
      modifies `queue, `next, `taken
      ensures Holds(batch) && queue == [] && taken == |entries| && batch == old(queue)
    {
      ghost var first := |entries| - |queue|;
      SkipRange(entries, delivered, next, first);
      batch := queue;
      queue := [];
      next, taken := first, |entries|;
    }

    /** The next k entries of the batch meet their fate without a row in the tables. */
    ghost method Settle(k: nat)
      requires Valid() && next + k <= taken
      modifies `next, `fate
      ensures Valid() && next == old(next) + k
      ensures fate == Marked(old(fate), old(next), old(next) + k, Dropped)
    {
      var fates := SettleKeeps(transactional, honest, entries, queue, landed, delivered, fate, next, taken, k);
      fate := fates;
      next := next + k;
    }

    /** The rows of the next k entries have landed behind `rows`. */
    ghost method Land(k: nat, rows: seq<Row>, ok: bool)
      requires Queues() && transactional && next + k <= taken && (honest ==> ok)
      requires TablesOk(transactional, honest, entries, rows, delivered, fate, next)
      requires landed == rows + RowsOfRange(entries, next, next + k)
      modifies `next, `fate, `delivered
      ensures Valid() && next == old(next) + k
      ensures fate == Marked(old(fate), old(next), old(next) + k, if ok then Written else Dropped)
    {
      var f := if ok then Written else Dropped;
      var fates, done :=
        LandKeeps(transactional, honest, entries, queue, rows, landed, delivered, fate, next, taken, k, f);
      delivered := done;
      fate := fates;
      next := next + k;
    }

    /** The open transaction holds exactly the next k entries; it is committed, and that settles them. */
    method CommitNext(ghost k: nat, answer: bool, ghost lands: bool) returns (ok: bool)
      requires Valid() && transactional && next + k <= taken && staged == RowsOfRange(entries, next, next + k)
      modifies `staged, `landed, `next, `fate, `delivered
      ensures Valid() && next == old(next) + k && ok == answer
      ensures fate == Marked(old(fate), old(next), old(next) + k, if ok then Written else Dropped)
      ensures landed == if Lands(honest, answer, lands) then old(landed) + old(staged) else old(landed)
    {
      ghost var rows := landed;
      ok := Commit(answer, lands);
      if Lands(honest, answer, lands) {
        Land(k, rows, ok);
      } else {
        Settle(k);
      }
    }

    /** The statements of the batch's entry i, behind those of the entries before it. */
    method WriteNext(batch: seq<Entry>, i: nat, refused: set<nat>) returns (ok: bool)
      requires Holds(batch) && transactional && i < |batch| && staged == RowsOfRange(entries, next, next + i)
      modifies `queue, `entries, `fate, `staged, `landed
      ensures Holds(batch) && old(entries) <= entries && Kept(old(fate), fate) && landed == old(landed)
      ensures ok <==> Takes(batch[i], refused)
      ensures ok ==> staged == RowsOfRange(entries, next, next + i + 1)
    {
      Meanwhile();
      RangeOneMore(old(entries), entries, next, next + i, batch[i]);
      ok := WriteEntry(batch[i], next + i, refused);
    }

    /** All statements of the batch, in one transaction that has begun. */
    method WriteAll(batch: seq<Entry>, answers: Answers) returns (ok: bool)
      requires Holds(batch) && transactional && staged == []
      modifies `queue, `entries, `fate, `staged, `landed
      ensures Holds(batch) && old(entries) <= entries && Kept(old(fate), fate) && landed == old(landed)
      ensures ok <==> AllTaken(batch, answers)
      ensures ok ==> staged == RowsOfRange(entries, next, taken)
    {
      ok := true;
      for i := 0 to |batch|
        invariant Holds(batch) && old(entries) <= entries && Kept(old(fate), fate) && landed == old(landed)
        invariant staged == RowsOfRange(entries, next, next + i)
        invariant ok && forall k: nat :: k < i ==> Takes(batch[k], answers.refuses(k))
      {
        ok := WriteNext(batch, i, answers.refuses(i));
        if !ok {
          return;
        }
      }
    }

    /** The rest of the batch is lost. */
    method GiveUp(ghost batch: seq<Entry>, ghost outcomes: seq<Outcome>, ghost i: nat, ghost rows: seq<Row>)
      requires i <= |outcomes| == |batch| && Valid() && taken - next == |batch| - i && next >= i
      requires Through(batch, next - i, outcomes, i, fate, rows, landed)
      requires forall k :: i <= k < |outcomes| ==> outcomes[k] == Outcome(Dropped, 0)
      modifies `next, `fate
      ensures Idle() && Kept(old(fate), fate) && Done(batch, old(next) - i, outcomes, fate, rows, landed)
    {
      RestDropped(batch, next - i, outcomes, i, fate, rows, landed);
      Settle(taken - next);
    }

    /** Commit or roll back the transaction of the batch's next entry. */
    method Finish(written: bool, a: Attempt) returns (ok: bool)
      requires Valid() && transactional && next < taken
      requires written ==> staged == RowsOfRange(entries, next, next + 1)
      modifies `staged, `landed, `next, `fate, `delivered
      ensures Valid() && next == old(next) + 1 && (ok <==> written && a.commits)
      ensures fate == Marked(old(fate), old(next), old(next) + 1, if ok then Written else Dropped)
      ensures landed == if written && Lands(honest, a.commits, a.lands) then old(landed) + old(staged) else old(landed)
    {
      ok := false;
      if written {
        ok := CommitNext(1, a.commits, a.lands);
      } else {
        Rollback();
        Settle(1);
      }
    }

    /** The statements of the batch's next entry in a transaction that has begun, and its end. */
    method TryNext(ghost batch: seq<Entry>, e: Entry, a: Attempt) returns (ok: bool)
      requires Holds(batch) && transactional && batch != [] && e == batch[0] && staged == []
      modifies `fate, `staged, `landed, `next, `delivered
      ensures Holds(batch[1..]) && next == old(next) + 1 && (ok <==> Takes(e, a.refuses) && a.commits)
      ensures fate == Marked(old(fate), old(next), old(next) + 1, if ok then Written else Dropped)
      ensures landed == old(landed) +
                        RowsUpTo(e, old(next),
                                 if Takes(e, a.refuses) && Lands(honest, a.commits, a.lands) then TABLES else 0)
    {
      RangeOfOne(entries, next, e);
      ok := WriteEntry(e, next, a.refuses);
      ok := Finish(ok, a);
    }

    /** One entry of the batch in a transaction of its own. */
    method ReplayNext(ghost batch: seq<Entry>, e: Entry, a: Attempt) returns (begun: bool, ok: bool)
      requires Holds(batch) && transactional && batch != [] && e == batch[0]
      modifies `queue, `entries, `fate, `staged, `landed, `next, `delivered
      ensures old(entries) <= entries && Kept(old(fate), fate) && begun == a.begins
      ensures !begun ==> Holds(batch) && next == old(next) && landed == old(landed)
      ensures begun ==> Holds(batch[1..]) && next == old(next) + 1 && old(next) in fate
      ensures begun ==> fate[old(next)] == if ok then Written else Dropped
      ensures begun ==> (ok <==> Takes(e, a.refuses) && a.commits)
      ensures var n := if Takes(e, a.refuses) && Lands(honest, a.commits, a.lands) then TABLES else 0;
        begun ==> landed == old(landed) + RowsUpTo(e, old(next), n)
    {
      Meanwhile();
      ok := false;
      begun := Begin(a.begins);
      if begun {
        ok := TryNext(batch, e, a);
      }
    }

    /** One turn of the replay; if it cannot begin, the rest of the batch is lost. */
    method ReplayOne(batch: seq<Entry>, answers: Answers, i: nat, ghost outcomes: seq<Outcome>, ghost rows: seq<Row>)
      returns (begun: bool, ok: bool)
      requires i < |batch| == |outcomes| && Holds(batch[i..]) && transactional && i <= next
      requires FaresAgain(honest, batch, answers, i, outcomes)
      requires Through(batch, next - i, outcomes, i, fate, rows, landed)
      modifies `queue, `entries, `fate, `staged, `landed, `next, `delivered
      ensures old(entries) <= entries && Kept(old(fate), fate) && begun == answers.again(i).begins
      ensures begun ==> Holds(batch[i + 1..]) && next == old(next) + 1
      ensures begun ==> Through(batch, old(next) - i, outcomes, i + 1, fate, rows, landed)
      ensures begun ==> Drops(outcomes[..i + 1]) == Drops(outcomes[..i]) + if ok then 0 else 1
      ensures !begun ==> Idle() && Done(batch, old(next) - i, outcomes, fate, rows, landed)
    {
      ghost var was, before := fate, landed;
      begun, ok := ReplayNext(batch[i..], batch[i], answers.again(i));
      assert batch[i..][1..] == batch[i + 1..];
      if begun {
        OneThrough(batch, old(next) - i, outcomes, i, was, fate, rows, before, landed);
      } else {
        GiveUp(batch, outcomes, i, rows);
      }
    }

    /** Row by row: one refused entry does not block those behind it. */
    method Replay(batch: seq<Entry>, answers: Answers, ghost outcomes: seq<Outcome>)
      returns (failed: nat, through: bool)
      requires Holds(batch) && transactional && AllFareAgain(honest, batch, answers, outcomes)
      modifies `queue, `entries, `fate, `staged, `landed, `next, `delivered
      ensures Idle() && old(entries) <= entries && Kept(old(fate), fate)
      ensures Done(batch, old(next), outcomes, fate, old(landed), landed)
      ensures (through <==> Reaches(answers, |batch|)) && (through ==> failed == Drops(outcomes))
    {
      failed, through := 0, true;
      for i := 0 to |batch|
        invariant Holds(batch[i..]) && old(entries) <= entries && Kept(old(fate), fate) && next == old(next) + i
        invariant Through(batch, old(next), outcomes, i, fate, old(landed), landed)
        invariant through && Reaches(answers, i) && failed == Drops(outcomes[..i])
      {
        var ok;
        through, ok := ReplayOne(batch, answers, i, outcomes, old(landed));
        if !through {
          return;
        }
        if !ok {
          failed := failed + 1;
        }
      }
      AllThrough(batch, old(next), outcomes, fate, old(landed), landed);
    }

    /** One entry written to a backend that cannot take anything back. */
    method SkipNext(ghost batch: seq<Entry>, e: Entry, refused: set<nat>) returns (ok: bool)
      requires Holds(batch) && !transactional && batch != [] && e == batch[0]
      modifies `queue, `entries, `fate, `staged, `landed, `next
      ensures Holds(batch[1..]) && old(entries) <= entries && Kept(old(fate), fate)
      ensures next == old(next) + 1 && old(next) in fate && fate[old(next)] == if ok then Written else Dropped
      ensures (ok <==> Takes(e, refused)) && landed == old(landed) + RowsUpTo(e, old(next), Stop(e, refused, 0))
    {
      Meanwhile();
      ghost var id := next;
      AppendEntry(landed, e, id, TABLES);
      AppendEntry(landed, e, id, Stop(e, refused, 0));
      ok := WriteEntry(e, id, refused);
      fate := Marked(fate, id, id + 1, if ok then Written else Dropped);
      next := id + 1;
    }

    /** No replay where nothing can be rolled back: entries that fail are skipped. */
    method SkipFailed(batch: seq<Entry>, answers: Answers) returns (failed: nat)
      requires Holds(batch) && !transactional
      modifies `queue, `entries, `fate, `staged, `landed, `next
      ensures Idle() && old(entries) <= entries && Kept(old(fate), fate)
      ensures var outcomes := Outcomes(transactional, honest, batch, answers);
        Done(batch, old(next), outcomes, fate, old(landed), landed) && failed == Drops(outcomes)
    {
      ghost var outcomes, first := Outcomes(transactional, honest, batch, answers), next;
      failed := 0;
      for i := 0 to |batch|
        invariant Holds(batch[i..]) && old(entries) <= entries && Kept(old(fate), fate) && next == first + i
        invariant Through(batch, first, outcomes, i, fate, old(landed), landed)
        invariant failed == Drops(outcomes[..i])
      {
        ghost var was, before := fate, landed;
        var ok := SkipNext(batch[i..], batch[i], answers.refuses(i));
        assert batch[i..][1..] == batch[i + 1..];
        OneThrough(batch, first, outcomes, i, was, fate, old(landed), before, landed);
        if !ok {
          failed := failed + 1;
        }
      }
      AllThrough(batch, first, outcomes, fate, old(landed), landed);
    }

    /** A failed commit is not tried again: the batch is lost, never written twice. */
    method CommitBatch(ghost batch: seq<Entry>, answers: Answers, ghost outcomes: seq<Outcome>)
      requires Holds(batch) && transactional && staged == RowsOfRange(entries, next, taken)
      requires |outcomes| == |batch| && forall k :: 0 <= k < |batch| ==> outcomes[k] == AtOnce(honest, answers)
      modifies `staged, `landed, `next, `fate, `delivered, `connFails
      ensures Idle() && Kept(old(fate), fate) && Done(batch, old(next), outcomes, fate, old(landed), landed)
      ensures connFails == if answers.commits then 0 else old(connFails) + 1
    {
      ghost var was, rows := fate, landed;
      var committed := CommitNext(taken - next, answers.commits, answers.lands);
      CommittedDone(batch, entries, old(next), outcomes, was, rows, landed, AtOnce(honest, answers));
      if !committed {
        Rollback();
      }
      connFails := if committed then 0 else connFails + 1;
    }

    method ReplayBatch(batch: seq<Entry>, answers: Answers, ghost outcomes: seq<Outcome>)
      requires Holds(batch) && transactional && AllFareAgain(honest, batch, answers, outcomes)
      modifies `queue, `entries, `fate, `staged, `landed, `next, `delivered, `connFails
      ensures Idle() && old(entries) <= entries && Kept(old(fate), fate)
      ensures Done(batch, old(next), outcomes, fate, old(landed), landed)
      ensures connFails ==
        if Reaches(answers, |batch|) && Drops(outcomes) != |batch| then 0 else old(connFails) + 1
    {
      Rollback();
      var failed, through := Replay(batch, answers, outcomes);
      connFails := if !through || failed == |batch| then connFails + 1 else 0;
    }

    /** The batch in one transaction; only if a statement fails, entry by entry. */
    method WriteBatch(batch: seq<Entry>, answers: Answers)
      requires Holds(batch) && transactional && batch != []
      modifies `queue, `entries, `fate, `staged, `landed, `next, `delivered, `connFails
      ensures Idle() && old(entries) <= entries && Kept(old(fate), fate)
      ensures Done(batch, old(next), Outcomes(true, honest, batch, answers), fate, old(landed), landed)
      ensures connFails == if Serves(true, batch, answers) then 0 else old(connFails) + 1
    {
      var begun := Begin(answers.begins);
      if begun {
        WriteBegun(batch, answers, Outcomes(true, honest, batch, answers));
      } else {
        NotBegun(batch, answers, Outcomes(true, honest, batch, answers));
      }
    }

    method NotBegun(ghost batch: seq<Entry>, answers: Answers, ghost outcomes: seq<Outcome>)
      requires Holds(batch) && transactional && batch != [] && !answers.begins
      requires outcomes == Outcomes(true, honest, batch, answers)
      modifies `next, `fate, `connFails
      ensures Idle() && Kept(old(fate), fate) && Done(batch, old(next), outcomes, fate, landed, landed)
      ensures connFails == if Serves(true, batch, answers) then 0 else old(connFails) + 1
    {
      NoneFares(honest, batch, answers);
      connFails := connFails + 1;
      GiveUp(batch, outcomes, 0, landed);
    }

    method WriteBegun(batch: seq<Entry>, answers: Answers, ghost outcomes: seq<Outcome>)
      requires Holds(batch) && transactional && batch != [] && staged == [] && answers.begins
      requires outcomes == Outcomes(true, honest, batch, answers)
      modifies `queue, `entries, `fate, `staged, `landed, `next, `delivered, `connFails
      ensures Idle() && old(entries) <= entries && Kept(old(fate), fate)
      ensures Done(batch, old(next), outcomes, fate, old(landed), landed)
      ensures connFails == if Serves(true, batch, answers) then 0 else old(connFails) + 1
    {
      var ok := WriteAll(batch, answers);
      if ok {
        WholeFaresAlike(honest, batch, answers);
        CommitBatch(batch, answers, outcomes);
      } else {
        ReplayFares(honest, batch, answers);
        AllDropped(outcomes);
        ReplayBatch(batch, answers, outcomes);
      }
    }

    /**
      One cycle: everything queued at its beginning meets the fate the answers decide, its rows land
      behind all earlier ones, and the failure count says whether anything was written. A backend that
      cannot be used costs nothing but the count.
    */
    method Post(answers: Answers)
      requires Idle()
      modifies this
      ensures Idle() && old(entries) <= entries && Kept(old(fate), fate)
      ensures answers.usable ==>
        var batch, first := old(queue), |old(entries)| - |old(queue)|;
        var outcomes := Outcomes(transactional, honest, batch, answers);
        && Done(batch, first, outcomes, fate, old(landed), landed)
        && connFails == if Serves(transactional, batch, answers) then 0 else old(connFails) + 1
      ensures !answers.usable ==>
        entries == old(entries) && queue == old(queue) && landed == old(landed) && connFails == old(connFails) + 1
    {
      if !answers.usable {
        connFails := connFails + 1;
        return;
      }
      var batch := TakeBatch();
      if batch == [] {
        connFails := 0;
      } else if transactional {
        WriteBatch(batch, answers);
      } else {
        var failed := SkipFailed(batch, answers);
        AllDropped(Outcomes(transactional, honest, batch, answers));
        connFails := if failed == |batch| then connFails + 1 else 0;
      }
    }

    /** No row is ever in the tables twice. */
    lemma AtMostOnce(i: nat, j: nat)
      requires Valid() && i < |landed| && j < |landed| && landed[i] == landed[j]
      ensures i == j
    {
    }

    /** Every entry is written, dropped, in the batch or in the queue, and in one of them only. */
    lemma Accounted(i: nat)
      requires Valid() && i < |entries|
      ensures i in fate <==> i < |entries| - |queue| && !(next <= i < taken)
      ensures i >= |entries| - |queue| ==> entries[i] == queue[i - (|entries| - |queue|)]
    {
    }

    /** With transactions an entry is in the tables whole or not at all, in an honest backend just the written ones. */
    lemma AllOrNothing(i: nat, table: nat)
      requires Valid() && transactional && i in fate && i < |entries| && table < TABLES && table in entries[i].tables
      ensures Row(i, table) in landed <==> i in delivered
      ensures fate[i] == Written ==> Row(i, table) in landed
      ensures honest ==> (fate[i] == Written <==> Row(i, table) in landed)
    {
      RowsOfAllHas(entries, delivered, next, Row(i, table));
    }
  }
}
