/**
  One slot of the TCP server: a connection with its output buffer, and the clients that use the
  slot one after the other. `Conn` is the slot together with the history of each incarnation;
  class TCPServerConnection is the object that TCPServer.cpp updates.
*/
module Connection {

  const MAX_BUFFER_SIZE := 8 * 1024 * 1024
  const OUT_COMPACT_THRESHOLD := 64 * 1024
  const GENERATIONS := 0x1_0000_0000

  /** What one call of the socket's send does: takes some bytes, asks to wait, or fails. */
  datatype Net = Took(n: nat) | WouldBlock | Failed

  /**
    Entry i of `offered` is all data given to Send for incarnation i, entry i of `wire` what the
    socket took of it. The current incarnation is the last.
  */
  datatype Conn = Conn(open: bool, out: string, outPos: nat, offered: seq<string>, wire: seq<string>)

  predicate WellFormed(c: Conn) {
    && c.outPos <= |c.out| && |c.offered| == |c.wire|
    && (c.open ==> |c.wire| > 0)
  }

  function Pending(c: Conn): string
    requires WellFormed(c)
  {
    c.out[c.outPos..]
  }

  function Incarnation(c: Conn): nat {
    |c.wire|
  }

  /** The 32-bit counter that Start bumps. */
  function Generation(c: Conn): nat {
    |c.wire| % GENERATIONS
  }

  function Add(logs: seq<string>, data: string): (r: seq<string>)
    requires |logs| > 0
    ensures |r| == |logs|
  {
    logs[|logs| - 1 := logs[|logs| - 1] + data]
  }

  function Last(logs: seq<string>): string
    requires |logs| > 0
  {
    logs[|logs| - 1]
  }

  /** A slot that has never been used. */
  function Unused(): Conn {
    Conn(false, "", 0, [], [])
  }

  function Started(c: Conn): Conn {
    Conn(true, "", 0, c.offered + [""], c.wire + [""])
  }

  function Closed(c: Conn): Conn {
    c.(open := false, out := "", outPos := 0)
  }

  /** SendBuffer: one attempt to put the backlog on the socket. */
  function Drained(c: Conn, net: Net): Conn
    requires WellFormed(c) && (net.Took? ==> net.n <= |Pending(c)|)
  {
    if !c.open || c.outPos == |c.out| then c
    else
      match net
      case WouldBlock => c
      case Failed => Closed(c)
      case Took(n) =>
        var d := c.(outPos := c.outPos + n, wire := Add(c.wire, c.out[c.outPos..c.outPos + n]));
        if d.outPos == |d.out| then d.(out := "", outPos := 0) else d
  }

  function Compacted(c: Conn): Conn
    requires WellFormed(c)
  {
    if c.outPos >= OUT_COMPACT_THRESHOLD then c.(out := c.out[c.outPos..], outPos := 0) else c
  }

  /** What is left to queue of data of which the socket took n bytes. */
  function Queued(c: Conn, rest: string): (Conn, bool)
    requires WellFormed(c)
  {
    var d := Compacted(c);
    if |Pending(d)| + |rest| > MAX_BUFFER_SIZE then (Closed(d), false)
    else (d.(out := d.out + rest), true)
  }

  function SentTo(c: Conn, data: string, net: Net): (Conn, bool)
    requires WellFormed(c) && (net.Took? ==> net.n <= |data|)
  {
    if !c.open then (c, false)
    else
      var d := c.(offered := Add(c.offered, data));
      if c.outPos < |c.out| then
        if data == "" then (d, true) else Queued(d, data)
      else
        match net
        case Failed => (Closed(d), false)
        case WouldBlock => if data == "" then (d, true) else Queued(d, data)
        case Took(n) =>
          var e := d.(wire := Add(d.wire, data[..n]));
          if n == |data| then (e, true) else Queued(e, data[n..])
  }

  // ---------- what every operation keeps ----------

  datatype Op = Start | Close | Flush(net: Net) | Send(data: string, net: Net)

  /** A socket never takes more than it is given. */
  predicate Possible(c: Conn, op: Op)
    requires WellFormed(c)
  {
    match op
    case Flush(net) => net.Took? ==> net.n <= |Pending(c)|
    case Send(data, net) => net.Took? ==> net.n <= |data|
    case _ => true
  }

  function Do(c: Conn, op: Op): Conn
    requires WellFormed(c) && Possible(c, op)
  {
    match op
    case Start => Started(c)
    case Close => Closed(c)
    case Flush(net) => Drained(c, net)
    case Send(data, net) => SentTo(c, data, net).0
  }

  predicate Prefixes(a: seq<string>, b: seq<string>) {
    |a| == |b| && forall i :: 0 <= i < |a| ==> a[i] <= b[i]
  }

  /**
    Nothing is lost, repeated or reordered: an open connection's data is on the wire or pending,
    and no client ever got anything but a prefix of its own data.
  */
  predicate Conserved(c: Conn) {
    && WellFormed(c)
    && (c.open ==> Last(c.offered) == Last(c.wire) + Pending(c))
    && Prefixes(c.wire, c.offered)
    && |Pending(c)| <= MAX_BUFFER_SIZE
    && (c.outPos == |c.out| ==> c.out == "" && c.outPos == 0)
    && (!c.open ==> c.out == "")
  }

  lemma CompactKeepsPending(c: Conn)
    requires WellFormed(c)
    ensures WellFormed(Compacted(c)) && Pending(Compacted(c)) == Pending(c)
  {
  }

  lemma StartKeeps(c: Conn)
    requires Conserved(c)
    ensures Conserved(Started(c))
  {
  }

  lemma DrainKeeps(c: Conn, net: Net)
    requires Conserved(c) && Possible(c, Flush(net))
    ensures Conserved(Drained(c, net))
  {
    if c.open && c.outPos < |c.out| && net.Took? {
      var sent := c.out[c.outPos..c.outPos + net.n];
      var left := c.out[c.outPos + net.n..];
      assert Pending(c) == sent + left;
      assert Last(c.wire) + (sent + left) == (Last(c.wire) + sent) + left;
      assert Last(Add(c.wire, sent)) + left == Last(c.offered);
    }
  }

  /** Data of which a part may already be on the wire is queued behind the backlog, or the connection closes. */
  lemma QueueKeeps(c: Conn, rest: string)
    requires WellFormed(c) && c.open && rest != "" && Prefixes(c.wire, c.offered)
    requires Last(c.offered) == Last(c.wire) + (Pending(c) + rest)
    ensures Conserved(Queued(c, rest).0)
  {
    CompactKeepsPending(c);
    var d := Compacted(c);
    assert (d.out + rest)[d.outPos..] == Pending(d) + rest;
  }

  lemma SendKeeps(c: Conn, data: string, net: Net)
    requires Conserved(c) && Possible(c, Send(data, net))
    ensures Conserved(SentTo(c, data, net).0)
  {
    if c.open {
      var d := c.(offered := Add(c.offered, data));
      assert Last(d.offered) == Last(c.wire) + (Pending(c) + data);
      if c.outPos < |c.out| {
        if data != "" {
          QueueKeeps(d, data);
        }
      } else {
        assert Pending(c) == "" && "" + data == data;
        match net
        case Failed =>
        case WouldBlock =>
          if data != "" {
            QueueKeeps(d, data);
          }
        case Took(n) =>
          var e := d.(wire := Add(d.wire, data[..n]));
          assert data == data[..n] + data[n..];
          assert Last(e.wire) + data[n..] == Last(d.offered);
          if n < |data| {
            assert "" + data[n..] == data[n..];
            QueueKeeps(e, data[n..]);
          }
      }
    }
  }

  lemma StepKeeps(c: Conn, op: Op)
    requires Conserved(c) && Possible(c, op)
    ensures Conserved(Do(c, op))
  {
    match op
    case Start => StartKeeps(c);
    case Close =>
    case Flush(net) => DrainKeeps(c, net);
    case Send(data, net) => SendKeeps(c, data, net);
  }

  /** What one incarnation was offered and sent is not touched once the next has begun. */
  predicate Extends(c: Conn, d: Conn) {
    && |c.wire| <= |d.wire| && |c.offered| <= |d.offered|
    && (forall i :: 0 <= i < |c.wire| - 1 ==> d.wire[i] == c.wire[i])
    && (forall i :: 0 <= i < |c.offered| - 1 ==> d.offered[i] == c.offered[i])
  }

  lemma StepExtends(c: Conn, op: Op)
    requires WellFormed(c) && Possible(c, op)
    ensures Extends(c, Do(c, op))
  {
  }

  /** How much of some data the socket takes before anything is queued: none behind a backlog. */
  function Taken(c: Conn, net: Net): nat
    requires WellFormed(c)
  {
    if Pending(c) == "" && net.Took? then net.n else 0
  }

  lemma SendMeans(c: Conn, data: string, net: Net)
    requires Conserved(c) && Possible(c, Send(data, net))
    ensures var (d, ok) := SentTo(c, data, net);
      && Conserved(d) && Extends(c, d) && ok == d.open
      && d.offered == (if c.open then Add(c.offered, data) else c.offered)
      && (ok ==> c.open && Last(d.wire) + Pending(d) == Last(c.wire) + Pending(c) + data)
      && (ok <==>
        && c.open
        && (Pending(c) == "" ==> !net.Failed?)
        && |Pending(c)| + |data| - Taken(c, net) <= 8388608)
  {
    SendKeeps(c, data, net);
    StepExtends(c, Send(data, net));
    CompactKeepsPending(c);
  }

  // ---------- the object ----------

  class TCPServerConnection {
    var open: bool
    var out: string
    var outPos: nat
    var generation: nat
    ghost var offered: seq<string>
    ghost var wire: seq<string>

    ghost function View(): Conn
      reads this
    {
      Conn(open, out, outPos, offered, wire)
    }

    /** What holds even while data is on its way through Send. */
    ghost predicate Shaped()
      reads this
    {
      WellFormed(View()) && generation == Generation(View())
    }

    ghost predicate Valid()
      reads this
    {
      Shaped() && Conserved(View())
    }

    constructor ()
      ensures Valid() && View() == Unused()
    {
      open, out, outPos, generation := false, "", 0, 0;
      offered, wire := [], [];
    }

    /** The slot's next client begins with nothing, and what earlier ones got stays as it is. */
    method Start()
      requires Valid()
      modifies this
      ensures Valid() && View() == Started(old(View()))
      ensures open && Pending(View()) == "" && Last(offered) == Last(wire) == ""
      ensures Incarnation(View()) == old(Incarnation(View())) + 1
      ensures wire[..|wire| - 1] == old(wire) && offered[..|offered| - 1] == old(offered)
    {
      StartKeeps(View());
      out, outPos := "", 0;
      generation := (generation + 1) % GENERATIONS;
      open := true;
      offered, wire := offered + [""], wire + [""];
    }

    method Close()
      requires Shaped()
      modifies this
      ensures Shaped() && View() == Closed(old(View()))
    {
      if open {
        open := false;
      }
      out, outPos := "", 0;
    }

    /**
      What the socket takes moves from the front of the backlog to the end of the wire, so the two
      together stay as they are; the connection closes exactly when the socket fails.
    */
    method SendBuffer(net: Net)
      requires Valid() && (net.Took? ==> net.n <= |Pending(View())|)
      modifies this
      ensures Valid() && View() == Drained(old(View()), net)
      ensures offered == old(offered) && Extends(old(View()), View())
      ensures open == (old(open) && (net.Failed? ==> old(Pending(View())) == ""))
      ensures open ==> Last(wire) + Pending(View()) == old(Last(wire) + Pending(View()))
      ensures open && net.Took? ==> |Last(wire)| == |old(Last(wire))| + net.n
      ensures open && !net.Took? ==> wire == old(wire)
    {
      DrainKeeps(View(), net);
      if open && outPos < |out| {
        match net
        case WouldBlock =>
        case Failed => Close();
        case Took(n) =>
          wire := Add(wire, out[outPos..outPos + n]);
          outPos := outPos + n;
          if outPos == |out| {
            out := "";
            outPos := 0;
          }
      }
    }

    method Compact()
      requires Shaped()
      modifies this
      ensures Shaped() && View() == old(View()).(out := old(Pending(View())), outPos := 0)
    {
      if outPos == 0 {
        return;
      }
      out := out[outPos..];
      outPos := 0;
    }

    /** Behind the backlog, compacted or not, or refused exactly when the two exceed 8 MiB. */
    method Queue(data: string) returns (ok: bool)
      requires Shaped() && data != ""
      modifies this
      ensures Shaped()
      ensures ok == (|old(Pending(View()))| + |data| <= MAX_BUFFER_SIZE)
      ensures View() == if ok then Queued(old(View()), data).0 else Compacted(old(View()))
      ensures Pending(View()) == old(Pending(View())) + if ok then data else ""
    {
      if outPos >= OUT_COMPACT_THRESHOLD {
        Compact();
      }
      if |out| - outPos + |data| > MAX_BUFFER_SIZE {
        return false;
      }
      out := out + data;
      ok := true;
    }

    /**
      An accepted send leaves exactly the data behind what was on the wire or waiting; a refused
      one leaves the connection closed. It is refused exactly when the connection was closed, the
      socket fails, or more than 8 MiB would wait.
    */
    method Send(data: string, net: Net) returns (ok: bool)
      requires Valid() && (net.Took? ==> net.n <= |data|)
      modifies this
      ensures Valid() && (View(), ok) == SentTo(old(View()), data, net)
      ensures offered == (if old(open) then Add(old(offered), data) else old(offered))
      ensures ok == open && Extends(old(View()), View())
      ensures ok ==> old(open) && Last(wire) + Pending(View()) == old(Last(wire) + Pending(View())) + data
      ensures ok <==>
        && old(open)
        && (old(Pending(View())) == "" ==> !net.Failed?)
        && |old(Pending(View()))| + |data| - old(Taken(View(), net)) <= 8388608
    {
      SendMeans(View(), data, net);
      if !open {
        return false;
      }
      var bytes := 0;
      offered := Add(offered, data);
      if outPos == |out| {
        match net
        case Failed =>
          Close();
          return false;
        case WouldBlock =>
        case Took(n) =>
          bytes := n;
          wire := Add(wire, data[..n]);
      }
      if bytes < |data| {
        assert data[0..] == data;
        var queued := Queue(data[bytes..]);
        if !queued {
          Close();
          return false;
        }
      }
      ok := true;
    }

    /** One operation: the object does what `Do` says, so all that holds on every run of a slot holds of it. */
    method Perform(op: Op)
      requires Valid() && Possible(View(), op)
      modifies this
      ensures Valid() && View() == Do(old(View()), op) && Extends(old(View()), View())
    {
      StepExtends(View(), op);
      StepKeeps(View(), op);
      match op
      case Start => Start();
      case Close => Close();
      case Flush(net) => SendBuffer(net);
      case Send(data, net) => var _ := Send(data, net);
    }
  }

  // ---------- every run of a slot ----------

  /** Slot contents after some possible operations. */
  ghost predicate Reaches(c: Conn, ops: seq<Op>, d: Conn)
    decreases |ops|
  {
    if ops == [] then c == d
    else WellFormed(c) && Possible(c, ops[0]) && Reaches(Do(c, ops[0]), ops[1..], d)
  }

  /** On every run: conservation, the bound on the backlog, and earlier clients' data left alone. */
  lemma {:induction false} RunConserves(c: Conn, ops: seq<Op>, d: Conn)
    requires Conserved(c) && Reaches(c, ops, d)
    ensures Conserved(d) && Extends(c, d)
    decreases |ops|
  {
    if ops != [] {
      StepKeeps(c, ops[0]);
      StepExtends(c, ops[0]);
      RunConserves(Do(c, ops[0]), ops[1..], d);
    }
  }
}
