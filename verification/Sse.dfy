/**
  Server-sent events over the reused slots of the TCP server. A subscriber keeps a slot number and
  the generation the slot had when it subscribed; the slot may since have been closed and given to
  another client.
*/
module Sse {
  import opened Connection
  import opened Seqs

  /** `since` is the incarnation that subscribed. No operation looks at it. */
  datatype Handle = Handle(slot: nat, gen: nat, mask: set<nat>, since: nat)

  predicate Live(h: Handle, client: seq<Conn>) {
    h.slot < |client| && client[h.slot].open && Generation(client[h.slot]) == h.gen
  }

  predicate Genuine(h: Handle, client: seq<Conn>) {
    h.slot < |client| && h.gen == h.since % GENERATIONS && h.since <= Incarnation(client[h.slot])
  }

  /** The 32-bit generation tells the incarnations of a slot apart unless 2^32 of them have passed. */
  lemma LiveIsOwn(h: Handle, client: seq<Conn>)
    requires Genuine(h, client) && Live(h, client)
    ensures h.since == Incarnation(client[h.slot]) <==> Incarnation(client[h.slot]) - h.since < 0x1_0000_0000
  {
    var n := Incarnation(client[h.slot]);
    assert n % GENERATIONS == h.since % GENERATIONS;
  }

  /** A handle to an earlier incarnation is dead, unless 2^32 of them have passed. */
  lemma OldIsDead(h: Handle, client: seq<Conn>)
    requires Genuine(h, client)
    requires 0 < Incarnation(client[h.slot]) - h.since < GENERATIONS
    ensures !Live(h, client)
  {
    if Live(h, client) {
      LiveIsOwn(h, client);
    }
  }

  /** No slot has had 2^32 clients yet. */
  predicate Young(client: seq<Conn>) {
    forall k :: 0 <= k < |client| ==> Incarnation(client[k]) < GENERATIONS
  }

  /** The slot's present client is one that subscribed. */
  predicate Subscribed(client: seq<Conn>, sse: seq<Handle>, slot: nat)
    requires slot < |client|
  {
    exists h :: h in sse && h.slot == slot && h.since == Incarnation(client[slot])
  }

  /** While generations have not wrapped around, a live handle belongs to the client that made it. */
  lemma LiveIsSubscribed(client: seq<Conn>, sse: seq<Handle>, h: Handle)
    requires Young(client) && h in sse && Genuine(h, client) && Live(h, client)
    ensures Subscribed(client, sse, h.slot)
  {
    if h.since < Incarnation(client[h.slot]) {
      OldIsDead(h, client);
    }
  }

  function Topics(sse: seq<Handle>): set<nat> {
    if sse == [] then {} else Topics(sse[..|sse| - 1]) + sse[|sse| - 1].mask
  }

  lemma {:induction false} TopicsIff(sse: seq<Handle>, id: nat)
    ensures id in Topics(sse) <==> exists h :: h in sse && id in h.mask
  {
    if sse != [] {
      var n := |sse| - 1;
      TopicsIff(sse[..n], id);
      assert sse == sse[..n] + [sse[n]];
    }
  }

  function Reaped(client: seq<Conn>, sse: seq<Handle>): (r: seq<Handle>)
    ensures forall h :: h in r <==> h in sse && Live(h, client)
    ensures |r| <= |sse| && (|r| == |sse| ==> r == sse)
  {
    if sse == [] then []
    else
      var n := |sse| - 1;
      Reaped(client, sse[..n]) + if Live(sse[n], client) then [sse[n]] else []
  }

  /** Whether one of the first n handles is live and for this slot. */
  predicate HeldBy(client: seq<Conn>, sse: seq<Handle>, slot: nat, n: nat)
    requires n <= |sse|
  {
    n > 0 && (HeldBy(client, sse, slot, n - 1) || (sse[n - 1].slot == slot && Live(sse[n - 1], client)))
  }

  lemma {:induction false} HeldByIff(client: seq<Conn>, sse: seq<Handle>, slot: nat, n: nat)
    requires n <= |sse|
    ensures HeldBy(client, sse, slot, n) <==> exists i :: 0 <= i < n && sse[i].slot == slot && Live(sse[i], client)
  {
    if n > 0 {
      HeldByIff(client, sse, slot, n - 1);
    }
  }

  /** Who is held has a live handle, and, while generations have not wrapped around, a client that subscribed. */
  lemma HeldByMeans(client: seq<Conn>, sse: seq<Handle>)
    requires forall h :: h in sse ==> Genuine(h, client)
    ensures forall k: nat :: k < |client| ==>
      (HeldBy(client, sse, k, |sse|) <==> exists h :: h in sse && h.slot == k && Live(h, client))
    ensures Young(client) ==> forall k: nat :: k < |client| && HeldBy(client, sse, k, |sse|) ==>
      Subscribed(client, sse, k)
  {
    forall k: nat | k < |client|
      ensures HeldBy(client, sse, k, |sse|) <==> exists h :: h in sse && h.slot == k && Live(h, client)
    {
      HeldByIff(client, sse, k, |sse|);
    }
    forall h | h in sse && Young(client) && Live(h, client)
      ensures Subscribed(client, sse, h.slot)
    {
      LiveIsSubscribed(client, sse, h);
    }
  }

  predicate Fits(data: string, net: Net) {
    net.Took? ==> net.n <= |data|
  }

  predicate AllWellFormed(client: seq<Conn>) {
    forall k :: 0 <= k < |client| ==> WellFormed(client[k])
  }

  /** One send through a handle: nothing happens unless the handle is live. */
  function Through(client: seq<Conn>, h: Handle, data: string, net: Net): (r: seq<Conn>)
    requires AllWellFormed(client) && Fits(data, net)
    ensures |r| == |client|
  {
    if Live(h, client) then client[h.slot := SentTo(client[h.slot], data, net).0] else client
  }

  lemma SendStaysWellFormed(c: Conn, data: string, net: Net)
    requires WellFormed(c) && Fits(data, net)
    ensures WellFormed(SentTo(c, data, net).0) && Incarnation(SentTo(c, data, net).0) == Incarnation(c)
  {
  }

  lemma ThroughStaysWellFormed(client: seq<Conn>, h: Handle, data: string, net: Net)
    requires AllWellFormed(client) && Fits(data, net)
    ensures AllWellFormed(Through(client, h, data, net))
    ensures forall k :: 0 <= k < |client| ==> Incarnation(Through(client, h, data, net)[k]) == Incarnation(client[k])
  {
    if Live(h, client) {
      SendStaysWellFormed(client[h.slot], data, net);
    }
  }

  predicate AllFit(data: string, nets: seq<Net>) {
    forall i :: 0 <= i < |nets| ==> Fits(data, nets[i])
  }

  /** A frame to the first n handles that subscribed to its topic, in the order of the list. */
  function FanOut(client: seq<Conn>, sse: seq<Handle>, id: nat, frame: string, nets: seq<Net>, n: nat): (r: seq<Conn>)
    requires AllWellFormed(client) && n <= |sse| <= |nets| && AllFit(frame, nets)
    ensures |r| == |client| && AllWellFormed(r)
  {
    if n == 0 then client
    else
      var so := FanOut(client, sse, id, frame, nets, n - 1);
      if id !in sse[n - 1].mask then so
      else ThroughStaysWellFormed(so, sse[n - 1], frame, nets[n - 1]); Through(so, sse[n - 1], frame, nets[n - 1])
  }

  function Repeat(data: string, m: nat): string {
    if m == 0 then "" else Repeat(data, m - 1) + data
  }

  /** How many of the first n handles are for this slot's present client and this topic. */
  function Subscriptions(client: seq<Conn>, sse: seq<Handle>, id: nat, slot: nat, n: nat): nat
    requires n <= |sse|
  {
    if n == 0 then 0
    else
      var h := sse[n - 1];
      Subscriptions(client, sse, id, slot, n - 1)
      + if h.slot == slot && Live(h, client) && id in h.mask then 1 else 0
  }

  /**
    What a slot was given: the frame as often as its client subscribed. Only a connection that the
    sending itself closed may have got it fewer times, but then it got it at least once.
  */
  predicate Given(was: Conn, now: Conn, frame: string, times: nat) {
    && Incarnation(now) == Incarnation(was)
    && (times == 0 ==> now == was)
    && (times > 0 ==> was.open && |was.offered| > 0)
    && (times > 0 && now.open ==> now.offered == Add(was.offered, Repeat(frame, times)))
    && (times > 0 && !now.open ==>
          exists m: nat :: 1 <= m <= times && now.offered == Add(was.offered, Repeat(frame, m)))
  }

  lemma SendOffers(c: Conn, data: string, net: Net)
    requires WellFormed(c) && Fits(data, net) && c.open
    ensures SentTo(c, data, net).0.offered == Add(c.offered, data)
  {
  }

  lemma GivenMore(was: Conn, now: Conn, frame: string, times: nat, net: Net)
    requires WellFormed(was) && WellFormed(now) && was.open && Fits(frame, net) && Given(was, now, frame, times)
    ensures now.open ==> Given(was, SentTo(now, frame, net).0, frame, times + 1)
    ensures !now.open ==> Given(was, now, frame, times + 1)
  {
    if now.open {
      var next := SentTo(now, frame, net).0;
      SendStaysWellFormed(now, frame, net);
      SendOffers(now, frame, net);
      assert next.offered == Add(was.offered, Repeat(frame, times + 1)) by {
        if times == 0 {
          assert Repeat(frame, 1) == frame;
        } else {
          assert Last(was.offered) + Repeat(frame, times) + frame == Last(was.offered) + (Repeat(frame, times) + frame);
        }
      }
    }
  }

  /** Every subscriber gets every frame of its topics exactly once, and nobody else gets anything. */
  lemma {:induction false} FanOutGives(client: seq<Conn>, sse: seq<Handle>, id: nat, frame: string, nets: seq<Net>,
                                       slot: nat, n: nat)
    requires AllWellFormed(client) && n <= |sse| <= |nets| && AllFit(frame, nets) && slot < |client|
    ensures Given(client[slot], FanOut(client, sse, id, frame, nets, n)[slot], frame,
                  Subscriptions(client, sse, id, slot, n))
  {
    if n > 0 {
      var h := sse[n - 1];
      var so := FanOut(client, sse, id, frame, nets, n - 1);
      FanOutGives(client, sse, id, frame, nets, slot, n - 1);
      if h.slot == slot && id in h.mask {
        if Live(h, client) {
          GivenMore(client[slot], so[slot], frame, Subscriptions(client, sse, id, slot, n - 1), nets[n - 1]);
        }
      }
    }
  }

  /** Who has not subscribed gets nothing. */
  lemma {:induction false} NotSubscribedNoFrame(client: seq<Conn>, sse: seq<Handle>, id: nat, slot: nat, n: nat)
    requires Young(client) && n <= |sse| && slot < |client| && !Subscribed(client, sse, slot)
    requires forall h :: h in sse ==> Genuine(h, client)
    ensures Subscriptions(client, sse, id, slot, n) == 0
  {
    if n > 0 {
      NotSubscribedNoFrame(client, sse, id, slot, n - 1);
      var h := sse[n - 1];
      if h.slot == slot && Live(h, client) {
        LiveIsSubscribed(client, sse, h);
      }
    }
  }

  lemma ThroughConserves(client: seq<Conn>, h: Handle, data: string, net: Net)
    requires AllWellFormed(client) && Fits(data, net)
    requires forall k :: 0 <= k < |client| ==> Conserved(client[k])
    ensures forall k :: 0 <= k < |client| ==> Conserved(Through(client, h, data, net)[k])
  {
    if Live(h, client) {
      SendKeeps(client[h.slot], data, net);
    }
  }

  lemma CloseLast(client: seq<Conn>, h: Handle, net: Net)
    requires Live(h, client) && Conserved(client[h.slot]) && Fits("\r\n", net)
    ensures var c := Closed(SentTo(client[h.slot], "\r\n", net).0);
      Conserved(c) && !c.open && Incarnation(c) == Incarnation(client[h.slot])
  {
    SendKeeps(client[h.slot], "\r\n", net);
    SendStaysWellFormed(client[h.slot], "\r\n", net);
  }

  class HTTPServer {
    var client: seq<Conn>
    var sse: seq<Handle>
    /** Read by producers on other threads, which then do not build frames nobody wants. */
    var topics: set<nat>

    ghost predicate Valid()
      reads this
    {
      && (forall k :: 0 <= k < |client| ==> Conserved(client[k]))
      && (forall h :: h in sse ==> Genuine(h, client))
      && topics == Topics(sse)
    }

    constructor (slots: nat)
      ensures Valid() && |client| == slots && sse == []
    {
      client := seq(slots, _ => Unused());
      sse, topics := [], {};
    }

    method RepublishTopics()
      modifies `topics
      ensures topics == Topics(sse)
    {
      var m: set<nat> := {};
      for i := 0 to |sse|
        invariant m == Topics(sse[..i])
      {
        assert sse[..i + 1][..i] == sse[..i];
        m := m + sse[i].mask;
      }
      assert sse[..|sse|] == sse;
      topics := m;
    }

    method CleanupSSE()
      requires Valid()
      modifies `sse, `topics
      ensures Valid() && sse == Reaped(client, old(sse))
    {
      var before := |sse|;
      var kept: seq<Handle> := [];
      for i := 0 to |sse|
        invariant kept == Reaped(client, sse[..i])
      {
        assert sse[..i + 1][..i] == sse[..i];
        if Live(sse[i], client) {
          kept := kept + [sse[i]];
        }
      }
      assert sse[..|sse|] == sse;
      sse := kept;
      if |sse| != before {
        RepublishTopics();
      }
    }

    /** A new connection takes the first free slot; with none free it is refused. */
    method Accept() returns (slot: int)
      requires Valid()
      modifies `client
      ensures Valid()
      ensures if slot == -1 then client == old(client) && forall k :: 0 <= k < |client| ==> client[k].open
        else
          && 0 <= slot < |old(client)| && !old(client)[slot].open
          && client == old(client)[slot := Started(old(client)[slot])]
    {
      slot := 0;
      while slot < |client|
        invariant 0 <= slot <= |client|
        invariant forall k :: 0 <= k < slot ==> client[k].open
      {
        if !client[slot].open {
          StartKeeps(client[slot]);
          client := client[slot := Started(client[slot])];
          return;
        }
        slot := slot + 1;
      }
      slot := -1;
    }

    /** Anything else the server's loop does to a slot: answer, flush, or close it. */
    method Operate(slot: nat, op: Op)
      requires Valid() && slot < |client| && Possible(client[slot], op) && !op.Start?
      modifies `client
      ensures Valid() && client == old(client)[slot := Do(old(client)[slot], op)]
    {
      StepKeeps(client[slot], op);
      client := client[slot := Do(client[slot], op)];
    }

    /** A queued frame: dead subscribers are removed, the others get it once each. */
    method OnCommand(id: nat, frame: string, nets: seq<Net>)
      requires Valid() && |nets| >= |sse| && AllFit(frame, nets)
      modifies `client, `sse, `topics
      ensures Valid() && sse == Reaped(old(client), old(sse)) && |client| == |old(client)|
      ensures forall k :: 0 <= k < |client| ==>
        Given(old(client)[k], client[k], frame, Subscriptions(old(client), sse, id, k, |sse|))
      ensures Young(old(client)) ==> forall k ::
        0 <= k < |client| && !Subscribed(old(client), old(sse), k) ==> client[k] == old(client)[k]
    {
      CleanupSSE();
      ghost var was := client;
      for i := 0 to |sse|
        invariant sse == Reaped(was, old(sse)) && topics == Topics(sse) && |sse| <= |nets|
        invariant AllWellFormed(was) && client == FanOut(was, sse, id, frame, nets, i)
        invariant forall k :: 0 <= k < |client| ==> Conserved(client[k])
      {
        if id in sse[i].mask {
          ThroughConserves(client, sse[i], frame, nets[i]);
          if Live(sse[i], client) {
            client := client[sse[i].slot := SentTo(client[sse[i].slot], frame, nets[i]).0];
          }
        }
      }
      forall k | 0 <= k < |client|
        ensures Given(was[k], client[k], frame, Subscriptions(was, sse, id, k, |sse|))
      {
        FanOutGives(was, sse, id, frame, nets, k, |sse|);
      }
      forall k | 0 <= k < |client| && Young(was) && !Subscribed(was, old(sse), k)
        ensures client[k] == was[k]
      {
        NotSubscribedNoFrame(was, sse, id, k, |sse|);
      }
    }

    /** Send a list of frames through one handle. */
    method Feed(h: Handle, frames: seq<string>, nets: seq<Net>)
      requires Valid() && Genuine(h, client) && |nets| == |frames|
      requires forall i :: 0 <= i < |frames| ==> Fits(frames[i], nets[i])
      modifies `client
      ensures Valid() && |client| == |old(client)|
      ensures forall k :: 0 <= k < |client| && k != h.slot ==> client[k] == old(client)[k]
      ensures Incarnation(client[h.slot]) == Incarnation(old(client)[h.slot])
      ensures !Live(h, old(client)) ==> client == old(client)
      ensures Live(h, old(client)) && client[h.slot].open ==>
        |old(client)[h.slot].offered| > 0 && client[h.slot].offered == Add(old(client)[h.slot].offered, Flat(frames))
    {
      ghost var was := client;
      assert Live(h, was) ==> Last(was[h.slot].offered) + "" == Last(was[h.slot].offered);
      assert Live(h, was) ==> Add(was[h.slot].offered, "") == was[h.slot].offered;
      for i := 0 to |frames|
        invariant Valid() && |client| == |was| && sse == old(sse)
        invariant forall k :: 0 <= k < |client| && k != h.slot ==> client[k] == was[k]
        invariant Incarnation(client[h.slot]) == Incarnation(was[h.slot])
        invariant !Live(h, was) ==> client == was
        invariant Live(h, was) ==> |was[h.slot].offered| > 0
        invariant Live(h, was) && client[h.slot].open ==>
          client[h.slot].offered == Add(was[h.slot].offered, Flat(frames[..i]))
      {
        assert frames[..i + 1][..i] == frames[..i];
        if Live(h, client) {
          SendKeeps(client[h.slot], frames[i], nets[i]);
          SendStaysWellFormed(client[h.slot], frames[i], nets[i]);
          SendOffers(client[h.slot], frames[i], nets[i]);
          Regroup(Last(was[h.slot].offered), Flat(frames[..i]), frames[i]);
          client := client[h.slot := SentTo(client[h.slot], frames[i], nets[i]).0];
        }
      }
      assert frames[..|frames|] == frames;
    }

    /**
      A request becomes a subscription: its connection gets the headers and then the backlog, no
      other connection anything, and the topics are published anew.
    */
    method UpgradeSSE(slot: nat, mask: set<nat>, headers: string, backlog: seq<string>, nets: seq<Net>)
      requires Valid() && slot < |client| && |nets| == |backlog| + 1
      requires forall i :: 0 <= i <= |backlog| ==> Fits(([headers] + backlog)[i], nets[i])
      modifies `client, `sse, `topics
      ensures Valid() && |client| == |old(client)|
      ensures var h := Handle(slot, Generation(old(client)[slot]), mask, Incarnation(old(client)[slot]));
        sse == Reaped(old(client), old(sse)) + [h]
      ensures forall k :: 0 <= k < |client| && k != slot ==> client[k] == old(client)[k]
      ensures old(client)[slot].open && client[slot].open ==>
        |old(client)[slot].offered| > 0
        && client[slot].offered == Add(old(client)[slot].offered, Flat([headers] + backlog))
    {
      CleanupSSE();
      var h := Handle(slot, Generation(client[slot]), mask, Incarnation(client[slot]));
      Feed(h, [headers] + backlog, nets);
      sse := sse + [h];
      RepublishTopics();
    }

    /** Every subscriber's connection is closed, and no other. */
    method CloseAllSSE(nets: seq<Net>)
      requires Valid() && |nets| >= |sse| && AllFit("\r\n", nets)
      modifies `client, `sse, `topics
      ensures Valid() && sse == [] && topics == {} && |client| == |old(client)|
      ensures forall k :: 0 <= k < |client| ==> Incarnation(client[k]) == Incarnation(old(client)[k])
      ensures forall k :: 0 <= k < |client| ==>
        if exists h :: h in old(sse) && h.slot == k && Live(h, old(client)) then !client[k].open
        else client[k] == old(client)[k]
      ensures Young(old(client)) ==> forall k ::
        0 <= k < |client| && !Subscribed(old(client), old(sse), k) ==> client[k] == old(client)[k]
    {
      HeldByMeans(client, sse);
      CloseHeld(nets);
      sse := [];
      RepublishTopics();
    }

    /** The connection behind every live handle gets its last bytes and is closed. */
    method CloseHeld(nets: seq<Net>)
      requires Valid() && |nets| >= |sse| && AllFit("\r\n", nets)
      modifies `client
      ensures Valid() && |client| == |old(client)|
      ensures forall k: nat :: k < |client| ==> Incarnation(client[k]) == Incarnation(old(client)[k])
      ensures forall k: nat :: k < |client| ==>
        if HeldBy(old(client), sse, k, |sse|) then !client[k].open else client[k] == old(client)[k]
    {
      ghost var was, all := client, sse;
      for i := 0 to |sse|
        invariant Valid() && |client| == |was| && sse == all
        invariant forall k: nat :: k < |client| ==> Incarnation(client[k]) == Incarnation(was[k])
        invariant forall k: nat :: k < |client| ==>
          if HeldBy(was, all, k, i) then !client[k].open else client[k] == was[k]
      {
        var h := sse[i];
        if Live(h, client) {
          CloseLast(client, h, nets[i]);
          client := client[h.slot := Closed(SentTo(client[h.slot], "\r\n", nets[i]).0)];
        }
      }
    }
  }
}
