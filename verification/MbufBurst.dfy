/** Packet buffers in bursts: the server's receive and transmit arrays with their cursors, and the burst of the
    macswap engine.  Every buffer has exactly one end. */
module MbufBurst {

  const MAX_BURST_SIZE: nat := 128

  /** A packet buffer in one use: as a received packet, with what its ether type says, or as an allocated
      one. */
  datatype Mbuf = Rx(serial: nat, ipv4: bool) | Tx(serial: nat)

  predicate IsOurs(m: Mbuf) { m.Rx? && m.ipv4 }

  /** Those of the first n packets that the server takes as its own, in order of arrival. */
  function OursTo(packets: seq<Mbuf>, n: nat): seq<Mbuf>
    requires n <= |packets|
  {
    if n == 0 then [] else OursTo(packets, n - 1) + if IsOurs(packets[n - 1]) then [packets[n - 1]] else []
  }

  /** The others. */
  function StrangersTo(packets: seq<Mbuf>, n: nat): seq<Mbuf>
    requires n <= |packets|
  {
    if n == 0 then [] else StrangersTo(packets, n - 1) + if IsOurs(packets[n - 1]) then [] else [packets[n - 1]]
  }

  function Ours(packets: seq<Mbuf>): seq<Mbuf> { OursTo(packets, |packets|) }

  function Strangers(packets: seq<Mbuf>): seq<Mbuf> { StrangersTo(packets, |packets|) }

  lemma {:induction false} OursFirst(packets: seq<Mbuf>, more: seq<Mbuf>, n: nat)
    requires n <= |packets| && packets <= more
    ensures OursTo(more, n) == OursTo(packets, n) && StrangersTo(more, n) == StrangersTo(packets, n)
  {
    if n > 0 { OursFirst(packets, more, n - 1); }
  }

  lemma OursSnoc(packets: seq<Mbuf>, m: Mbuf)
    ensures Ours(packets + [m]) == Ours(packets) + if IsOurs(m) then [m] else []
    ensures Strangers(packets + [m]) == Strangers(packets) + if IsOurs(m) then [] else [m]
  {
    OursFirst(packets, packets + [m], |packets|);
  }

  lemma {:induction false} OursAndStrangers(packets: seq<Mbuf>)
    ensures multiset(packets) == multiset(Ours(packets)) + multiset(Strangers(packets))
  {
    if packets != [] {
      var n := |packets| - 1;
      OursAndStrangers(packets[..n]);
      OursSnoc(packets[..n], packets[n]);
      assert packets == packets[..n] + [packets[n]];
    }
  }

  lemma {:induction false} OursConcat(a: seq<Mbuf>, b: seq<Mbuf>)
    ensures Ours(a + b) == Ours(a) + Ours(b)
  {
    if b == [] {
      assert a + b == a;
    } else {
      var n := |b| - 1;
      OursConcat(a, b[..n]);
      assert a + b == (a + b[..n]) + [b[n]] && b == b[..n] + [b[n]];
      OursSnoc(a + b[..n], b[n]);
      OursSnoc(b[..n], b[n]);
    }
  }

  /** Numbered packets, as they come from the NIC. */
  ghost predicate InOrder(packets: seq<Mbuf>) {
    && (forall i :: 0 <= i < |packets| ==> packets[i].Rx?)
    && (forall i, j :: 0 <= i < j < |packets| ==> packets[i].serial < packets[j].serial)
  }

  /** The IPv4 packets among those received, each of them once, in the order of their numbers; and no other. */
  ghost predicate Ipv4Only(packets: seq<Mbuf>, ours: seq<Mbuf>) {
    && (forall i :: 0 <= i < |ours| ==> ours[i].Rx? && ours[i].ipv4 && ours[i] in packets)
    && (forall i :: 0 <= i < |packets| && packets[i].Rx? && packets[i].ipv4 ==> packets[i] in ours)
    && (forall i, j :: 0 <= i < j < |ours| ==> ours[i].serial < ours[j].serial)
  }

  lemma Ipv4Snoc(packets: seq<Mbuf>, ours: seq<Mbuf>, m: Mbuf)
    requires InOrder(packets + [m]) && Ipv4Only(packets, ours)
    ensures m.Rx? && Ipv4Only(packets + [m], if m.ipv4 then ours + [m] else ours)
  {
    var all := packets + [m];
    assert all[|packets|] == m;
    forall i | 0 <= i < |ours| ensures ours[i] in all && ours[i].serial < m.serial {
      var k :| 0 <= k < |packets| && packets[k] == ours[i];
      assert all[k] == ours[i];
    }
    forall i | 0 <= i < |all| && all[i].ipv4 ensures all[i] in (if m.ipv4 then ours + [m] else ours) {
      if i < |packets| { assert all[i] == packets[i]; }
    }
  }

  lemma InOrderFront(packets: seq<Mbuf>, m: Mbuf)
    requires InOrder(packets + [m])
    ensures InOrder(packets)
  {
    var all := packets + [m];
    forall i | 0 <= i < |packets| ensures packets[i] == all[i] && packets[i].Rx? { assert packets[i] == all[i]; }
  }

  lemma {:induction false} OursAreIpv4(packets: seq<Mbuf>)
    requires InOrder(packets)
    ensures Ipv4Only(packets, Ours(packets))
  {
    if packets != [] {
      var n := |packets| - 1;
      assert packets == packets[..n] + [packets[n]];
      InOrderFront(packets[..n], packets[n]);
      OursAreIpv4(packets[..n]);
      OursSnoc(packets[..n], packets[n]);
      Ipv4Snoc(packets[..n], Ours(packets[..n]), packets[n]);
    }
  }

  /** The NIC and the buffer pool, and the record of what became of each buffer.  `arrivals` are the ether types
      of the packets waiting at each receive call, `room` what the NIC takes at each transmit call. */
  class Driver {
    const arrivals: nat -> seq<bool>
    const room: nat -> nat
    var calls: nat
    var received: seq<Mbuf>
    var claimed: seq<Mbuf>
    var accepted: seq<Mbuf>
    var freed: seq<Mbuf>

    constructor (arrivals: nat -> seq<bool>, room: nat -> nat)
      ensures received == claimed == accepted == freed == []
    {
      this.arrivals, this.room := arrivals, room;
      calls, received, claimed, accepted, freed := 0, [], [], [], [];
    }

    /** Serial numbers tell all uses of buffers apart. */
    ghost predicate Numbered()
      reads this`received, this`claimed
    {
      && (forall i :: 0 <= i < |received| ==> received[i].Rx? && received[i].serial == i)
      && (forall i :: 0 <= i < |claimed| ==> claimed[i] == Tx(i))
    }

    method RxBurst(max: nat) returns (packets: seq<Mbuf>)
      requires Numbered()
      modifies this`calls, this`received
      ensures Numbered() && received == old(received) + packets && calls == old(calls) + 1
      ensures var types := arrivals(old(calls));
        && |packets| == (if |types| < max then |types| else max)
        && forall i :: 0 <= i < |packets| ==> packets[i] == Rx(|old(received)| + i, types[i])
    {
      var types := arrivals(calls);
      calls := calls + 1;
      var n := if |types| < max then |types| else max;
      var first := |received|;
      packets := seq(n, i requires 0 <= i < n => Rx(first + i, types[i]));
      received := received + packets;
    }

    /** rte_pktmbuf_alloc_bulk, when it succeeds. */
    method AllocBulk(n: nat) returns (mbufs: seq<Mbuf>)
      requires Numbered()
      modifies this`claimed
      ensures Numbered() && |mbufs| == n && claimed == old(claimed) + mbufs
      ensures forall i :: 0 <= i < n ==> mbufs[i].Tx?
    {
      var first := |claimed|;
      mbufs := seq(n, i requires 0 <= i < n => Tx(first + i));
      claimed := claimed + mbufs;
    }

    /** Takes the first packets of a burst. */
    method TxBurst(mbufs: seq<Mbuf>) returns (sent: nat)
      modifies this`calls, this`accepted
      ensures sent <= |mbufs| && accepted == old(accepted) + mbufs[..sent] && calls == old(calls) + 1
    {
      var want := room(calls);
      calls := calls + 1;
      sent := if want < |mbufs| then want else |mbufs|;
      accepted := accepted + mbufs[..sent];
    }

    method Free(m: Mbuf)
      modifies this`freed
      ensures freed == old(freed) + [m]
    {
      freed := freed + [m];
    }

    method FreeBulk(mbufs: seq<Mbuf>)
      modifies this`freed
      ensures freed == old(freed) + mbufs
    {
      freed := freed + mbufs;
    }
  }

  /** Every buffer that came into use was either accepted by the NIC or freed. */
  ghost predicate Balanced(received: seq<Mbuf>, claimed: seq<Mbuf>, accepted: seq<Mbuf>, freed: seq<Mbuf>) {
    && multiset(received) + multiset(claimed) == multiset(accepted) + multiset(freed)
    && forall i :: 0 <= i < |accepted| ==> accepted[i].Tx?
  }

  lemma BurstKeepsBalance(received: seq<Mbuf>, claimed: seq<Mbuf>, accepted: seq<Mbuf>, freed: seq<Mbuf>,
                          packets: seq<Mbuf>, mbufs: seq<Mbuf>, sent: nat)
    requires Balanced(received, claimed, accepted, freed) && sent <= |mbufs|
    requires forall i :: 0 <= i < |mbufs| ==> mbufs[i].Tx?
    ensures Balanced(received + packets, claimed + mbufs, accepted + mbufs[..sent],
                     freed + Strangers(packets) + Ours(packets) + mbufs[sent..])
  {
    var ours, others, sentOnes, rest := Ours(packets), Strangers(packets), mbufs[..sent], mbufs[sent..];
    OursAndStrangers(packets);
    assert mbufs == sentOnes + rest;
    var r, c, a, f := multiset(received), multiset(claimed), multiset(accepted), multiset(freed);
    assert multiset(received + packets) == r + multiset(packets);
    assert multiset(claimed + mbufs) == c + (multiset(sentOnes) + multiset(rest));
    assert multiset(accepted + sentOnes) == a + multiset(sentOnes);
    assert multiset(freed + others + ours + rest) == f + multiset(others) + multiset(ours) + multiset(rest);
    Regroup(r, c, a, f, multiset(ours), multiset(others), multiset(sentOnes), multiset(rest));
  }

  lemma Regroup(r: multiset<Mbuf>, c: multiset<Mbuf>, a: multiset<Mbuf>, f: multiset<Mbuf>,
                ours: multiset<Mbuf>, others: multiset<Mbuf>, sent: multiset<Mbuf>, rest: multiset<Mbuf>)
    requires r + c == a + f
    ensures r + (ours + others) + (c + (sent + rest)) == a + sent + (f + others + ours + rest)
  {
    assert r + (ours + others) + (c + (sent + rest)) == (r + c) + (ours + others + sent + rest);
    assert a + sent + (f + others + ours + rest) == (a + f) + (ours + others + sent + rest);
  }

  lemma {:induction false} OnceInDistinct(s: seq<Mbuf>, i: nat)
    requires i < |s| && forall j, k :: 0 <= j < k < |s| ==> s[j] != s[k]
    ensures multiset(s)[s[i]] == 1
  {
    assert s == s[..i] + [s[i]] + s[i + 1..];
    assert s[i] !in s[..i] && s[i] !in s[i + 1..];
  }

  /** Each received packet was freed exactly once and never sent, and each transmit buffer was either accepted
      or freed, exactly once. */
  ghost predicate EachOnce(received: seq<Mbuf>, claimed: seq<Mbuf>, accepted: seq<Mbuf>, freed: seq<Mbuf>) {
    && (forall i :: 0 <= i < |received| ==> multiset(freed)[received[i]] == 1 && received[i] !in accepted)
    && (forall i :: 0 <= i < |claimed| ==> multiset(accepted)[claimed[i]] + multiset(freed)[claimed[i]] == 1)
  }

  lemma ExactlyOnce(received: seq<Mbuf>, claimed: seq<Mbuf>, accepted: seq<Mbuf>, freed: seq<Mbuf>)
    requires Balanced(received, claimed, accepted, freed)
    requires forall i :: 0 <= i < |received| ==> received[i].Rx? && received[i].serial == i
    requires forall i :: 0 <= i < |claimed| ==> claimed[i] == Tx(i)
    ensures EachOnce(received, claimed, accepted, freed)
  {
    forall i | 0 <= i < |received| ensures multiset(freed)[received[i]] == 1 && received[i] !in accepted {
      OnceInDistinct(received, i);
      assert received[i] !in claimed && received[i] !in accepted;
      assert (multiset(received) + multiset(claimed))[received[i]] == 1;
    }
    forall i | 0 <= i < |claimed| ensures multiset(accepted)[claimed[i]] + multiset(freed)[claimed[i]] == 1 {
      OnceInDistinct(claimed, i);
      assert claimed[i] !in received;
      assert (multiset(received) + multiset(claimed))[claimed[i]] == 1;
    }
  }

  class DPDKObj {
    const driver: Driver
    var rxBurstSize: nat
    var rxBurstPtr: nat
    const rxMbufs: array<Mbuf>
    var txBurstSize: nat
    var txBurstPtr: nat
    const txMbufs: array<Mbuf>
    ghost var delivered: seq<Mbuf>      // the packets handed to the server
    ghost var handedOut: seq<Mbuf>      // the transmit buffers handed to the server

    ghost predicate Valid()
      reads this, driver
    {
      && rxMbufs.Length == txMbufs.Length == MAX_BURST_SIZE && rxMbufs != txMbufs
      && rxBurstPtr <= rxBurstSize <= MAX_BURST_SIZE && txBurstPtr <= txBurstSize <= MAX_BURST_SIZE
      && driver.Numbered()
    }

    constructor (driver: Driver)
      requires driver.Numbered()
      ensures Valid() && this.driver == driver && delivered == [] && handedOut == []
      ensures fresh(rxMbufs) && fresh(txMbufs) && rxBurstSize == 0
    {
      this.driver := driver;
      rxBurstSize, rxBurstPtr, txBurstSize, txBurstPtr := 0, 0, 0, 0;
      rxMbufs := new Mbuf[MAX_BURST_SIZE](_ => Tx(0));
      txMbufs := new Mbuf[MAX_BURST_SIZE](_ => Tx(0));
      delivered, handedOut := [], [];
    }

    /** The received packets that have not been handed out. */
    ghost function Waiting(): seq<Mbuf>
      reads this, driver, rxMbufs
      requires Valid()
    {
      rxMbufs[rxBurstPtr..rxBurstSize]
    }

    /** Puts the packets of a burst that are IPv4 into the receive array, and frees the others. */
    method KeepOurs(burst: seq<Mbuf>)
      requires Valid() && |burst| <= MAX_BURST_SIZE
      modifies this`rxBurstSize, this`rxBurstPtr, rxMbufs, driver`freed
      ensures Valid() && rxBurstPtr == 0 && Waiting() == Ours(burst)
      ensures driver.freed == old(driver.freed) + Strangers(burst)
    {
      rxBurstSize := 0;
      rxBurstPtr := 0;
      for i := 0 to |burst|
        invariant rxBurstPtr == 0 && rxBurstSize <= i
        invariant driver.Numbered()
        invariant rxMbufs[..rxBurstSize] == OursTo(burst, i)
        invariant driver.freed == old(driver.freed) + StrangersTo(burst, i)
      {
        if !IsOurs(burst[i]) {
          driver.Free(burst[i]);
        } else {
          ghost var before := rxMbufs[..rxBurstSize];
          rxMbufs[rxBurstSize] := burst[i];
          rxBurstSize := rxBurstSize + 1;
          assert rxMbufs[..rxBurstSize] == before + [burst[i]];
        }
      }
    }

    /** Receives a burst; packets that are not IPv4 are freed at once. */
    method RecvOverDPDK() returns (n: nat, ghost packets: seq<Mbuf>)
      requires Valid() && Waiting() == []
      modifies this`rxBurstSize, this`rxBurstPtr, rxMbufs, driver`calls, driver`received, driver`freed
      ensures Valid() && n == |Waiting()|
      ensures driver.received == old(driver.received) + packets
      ensures Waiting() == Ours(packets) && driver.freed == old(driver.freed) + Strangers(packets)
      ensures var types := driver.arrivals(old(driver.calls));
        && |packets| == (if |types| < MAX_BURST_SIZE then |types| else MAX_BURST_SIZE)
        && forall i :: 0 <= i < |packets| ==> packets[i] == Rx(|old(driver.received)| + i, types[i])
      ensures forall i :: 0 <= i < |Waiting()| ==> Waiting()[i].Rx? && Waiting()[i].ipv4 && Waiting()[i] in packets
      ensures forall i :: 0 <= i < |packets| && packets[i].ipv4 ==> packets[i] in Waiting()
    {
      var burst := driver.RxBurst(MAX_BURST_SIZE);
      packets := burst;
      OursAreIpv4(packets);
      if |burst| == 0 {
        return 0, packets;
      }
      KeepOurs(burst);
      n := rxBurstSize;
    }

    /** Allocates the buffers of a transmit burst; false when it is too large or the pool has too few. */
    method AllocateDPDKTxBuffers(batchSize: nat, available: bool) returns (ok: bool)
      requires Valid()
      modifies this`txBurstSize, this`txBurstPtr, txMbufs, driver`claimed
      ensures Valid() && ok == (batchSize <= MAX_BURST_SIZE && available)
      ensures ok ==> txBurstPtr == 0 && txBurstSize == batchSize
      ensures ok ==> driver.claimed == old(driver.claimed) + txMbufs[..batchSize]
      ensures ok ==> forall i :: 0 <= i < batchSize ==> txMbufs[i].Tx?
      ensures !ok ==> driver.claimed == old(driver.claimed) && txMbufs[..] == old(txMbufs[..])
      ensures !ok ==> txBurstSize == old(txBurstSize) && txBurstPtr == old(txBurstPtr)
    {
      if batchSize > MAX_BURST_SIZE || !available {
        return false;
      }
      var mbufs := driver.AllocBulk(batchSize);
      for i := 0 to batchSize
        invariant txMbufs[..i] == mbufs[..i]
        invariant driver.Numbered() && driver.claimed == old(driver.claimed) + mbufs
      {
        txMbufs[i] := mbufs[i];
        assert txMbufs[..i + 1] == mbufs[..i] + [mbufs[i]];
      }
      assert mbufs[..batchSize] == mbufs;
      txBurstSize := batchSize;
      txBurstPtr := 0;
      ok := true;
    }

    /** The next transmit buffer, or none. */
    method GetNextDPDKTxBuffer() returns (mbuf: seq<Mbuf>)
      requires Valid()
      modifies this`txBurstPtr, this`handedOut
      ensures Valid()
      ensures mbuf == if old(txBurstPtr) < txBurstSize then [txMbufs[old(txBurstPtr)]] else []
      ensures txBurstPtr == old(txBurstPtr) + |mbuf| && handedOut == old(handedOut) + mbuf
    {
      if txBurstPtr >= txBurstSize {
        return [];
      }
      mbuf := [txMbufs[txBurstPtr]];
      txBurstPtr := txBurstPtr + 1;
      handedOut := handedOut + mbuf;
    }

    /** The next received packet, or none. */
    method GetNextDPDKRxBuffer() returns (mbuf: seq<Mbuf>)
      requires Valid()
      modifies this`rxBurstPtr, this`delivered
      ensures Valid() && (mbuf == [] <==> old(Waiting()) == [])
      ensures |mbuf| <= 1 && old(Waiting()) == mbuf + Waiting() && delivered == old(delivered) + mbuf
    {
      if rxBurstPtr >= rxBurstSize {
        return [];
      }
      mbuf := [rxMbufs[rxBurstPtr]];
      rxBurstPtr := rxBurstPtr + 1;
      delivered := delivered + mbuf;
    }

    /** Sends the burst; what the NIC does not take is freed. */
    method SendBatch() returns (res: int, ghost sent: nat)
      requires Valid()
      modifies this`txBurstPtr, driver`calls, driver`accepted, driver`freed
      ensures Valid() && txBurstSize == old(txBurstSize) && res in {-1, 0}
      ensures sent <= txBurstSize && (res == 0 <==> sent == txBurstSize)
      ensures driver.accepted == old(driver.accepted) + txMbufs[..sent]
      ensures driver.freed == old(driver.freed) + txMbufs[sent..txBurstSize]
    {
      var pcktSent := driver.TxBurst(txMbufs[..txBurstSize]);
      sent := pcktSent;
      assert txMbufs[..txBurstSize][..pcktSent] == txMbufs[..pcktSent];
      if pcktSent != txBurstSize {
        driver.FreeBulk(txMbufs[pcktSent..txBurstSize]);
        return -1, sent;
      }
      assert txMbufs[pcktSent..txBurstSize] == [];
      txBurstPtr := 0;
      res := 0;
    }
  }

  // ----- The server loop -----

  /** Handles the i-th packet of a burst and frees it.  Yields the packet and the buffer of its reply. */
  method HandlePacket(o: DPDKObj) returns (rx: Mbuf, tx: Mbuf)
    requires o.Valid() && o.Waiting() != [] && o.txBurstPtr < o.txBurstSize
    modifies o`rxBurstPtr, o`txBurstPtr, o`delivered, o`handedOut, o.driver`freed
    ensures o.Valid() && old(o.Waiting()) == [rx] + o.Waiting() && tx == o.txMbufs[old(o.txBurstPtr)]
    ensures o.txBurstPtr == old(o.txBurstPtr) + 1
    ensures o.delivered == old(o.delivered) + [rx] && o.handedOut == old(o.handedOut) + [tx]
    ensures o.driver.freed == old(o.driver.freed) + [rx]
  {
    var rxMbuf := o.GetNextDPDKRxBuffer();
    var txMbuf := o.GetNextDPDKTxBuffer();
    assert |rxMbuf| == 1 && |txMbuf| == 1;
    rx, tx := rxMbuf[0], txMbuf[0];
    o.driver.Free(rx);
  }

  /** Handles a burst, packet by packet. */
  method HandleBurst(o: DPDKObj, n: nat)
    requires o.Valid() && n == |o.Waiting()| == o.txBurstSize && o.txBurstPtr == 0
    modifies o`rxBurstPtr, o`txBurstPtr, o`delivered, o`handedOut, o.driver`freed
    ensures o.Valid() && o.Waiting() == []
    ensures o.delivered == old(o.delivered) + old(o.Waiting()) && o.handedOut == old(o.handedOut) + o.txMbufs[..n]
    ensures o.driver.freed == old(o.driver.freed) + old(o.Waiting())
  {
    ghost var ours, mbufs := o.Waiting(), o.txMbufs[..n];
    for i := 0 to n
      invariant o.Valid() && o.Waiting() == ours[i..] && o.txBurstPtr == i
      invariant o.delivered == old(o.delivered) + ours[..i] && o.handedOut == old(o.handedOut) + mbufs[..i]
      invariant o.driver.freed == old(o.driver.freed) + ours[..i]
    {
      var rx, tx := HandlePacket(o);
      assert rx == ours[i] && tx == mbufs[i];
      assert ours[..i + 1] == ours[..i] + [rx];
      assert mbufs[..i + 1] == mbufs[..i] + [tx];
    }
    assert mbufs[..n] == mbufs && ours[..n] == ours;
  }

  /** One round of the server loop: a burst comes in, each of its packets is handled with a buffer of its own
      for the reply, and the replies go out. */
  method ServeBurst(o: DPDKObj)
    returns (ghost packets: seq<Mbuf>, ghost mbufs: seq<Mbuf>, ghost sent: nat)
    requires o.Valid() && o.Waiting() == []
    modifies o, o.rxMbufs, o.txMbufs, o.driver
    ensures o.Valid() && o.Waiting() == []
    ensures o.driver.received == old(o.driver.received) + packets
    ensures o.driver.claimed == old(o.driver.claimed) + mbufs && |mbufs| == |Ours(packets)| && sent <= |mbufs|
    ensures forall i :: 0 <= i < |mbufs| ==> mbufs[i].Tx?
    ensures o.delivered == old(o.delivered) + Ours(packets) && o.handedOut == old(o.handedOut) + mbufs
    ensures o.driver.accepted == old(o.driver.accepted) + mbufs[..sent]
    ensures o.driver.freed == old(o.driver.freed) + Strangers(packets) + Ours(packets) + mbufs[sent..]
  {
    mbufs, sent := [], 0;
    var receivedPcktCnt;
    receivedPcktCnt, packets := o.RecvOverDPDK();
    if receivedPcktCnt == 0 {
      return;
    }
    var ok := o.AllocateDPDKTxBuffers(receivedPcktCnt, true);
    mbufs := o.txMbufs[..receivedPcktCnt];
    HandleBurst(o, receivedPcktCnt);
    var res;
    res, sent := o.SendBatch();
  }

  lemma DeliveredOnce(received: seq<Mbuf>)
    requires InOrder(received)
    ensures Ipv4Only(received, Ours(received))
    ensures forall i :: 0 <= i < |received| ==>
              multiset(Ours(received))[received[i]] == if received[i].ipv4 then 1 else 0
  {
    OursAreIpv4(received);
    var ours := Ours(received);
    forall i | 0 <= i < |received| ensures multiset(ours)[received[i]] == if received[i].ipv4 then 1 else 0 {
      if received[i].ipv4 {
        var k :| 0 <= k < |ours| && ours[k] == received[i];
        OnceInDistinct(ours, k);
      } else {
        assert received[i] !in ours;
      }
    }
  }

  /** Any number of rounds.  The packets of this server are delivered in their order of arrival, each with the
      next transmit buffer; every received packet is freed exactly once, and every transmit buffer is accepted
      by the NIC or freed, exactly once. */
  method Serve(o: DPDKObj, rounds: nat)
    requires o.Valid() && o.Waiting() == [] && o.delivered == o.handedOut == []
    requires o.driver.received == o.driver.claimed == o.driver.accepted == o.driver.freed == []
    modifies o, o.rxMbufs, o.txMbufs, o.driver
    ensures o.delivered == Ours(o.driver.received) && o.handedOut == o.driver.claimed
    ensures |o.driver.claimed| == |o.delivered|
    ensures EachOnce(o.driver.received, o.driver.claimed, o.driver.accepted, o.driver.freed)
    ensures forall i :: 0 <= i < |o.delivered| ==> o.delivered[i].Rx? && o.delivered[i].ipv4
    ensures forall i :: 0 <= i < |o.driver.received| ==>
              && o.driver.received[i].Rx?
              && multiset(o.delivered)[o.driver.received[i]] == if o.driver.received[i].ipv4 then 1 else 0
    ensures forall i, j :: 0 <= i < j < |o.delivered| ==> o.delivered[i].serial < o.delivered[j].serial
  {
    for i := 0 to rounds
      invariant o.Valid() && o.Waiting() == []
      invariant o.delivered == Ours(o.driver.received) && o.handedOut == o.driver.claimed
      invariant |o.driver.claimed| == |o.delivered|
      invariant Balanced(o.driver.received, o.driver.claimed, o.driver.accepted, o.driver.freed)
    {
      ghost var packets, mbufs, sent;
      ghost var r, c, a, f := o.driver.received, o.driver.claimed, o.driver.accepted, o.driver.freed;
      packets, mbufs, sent := ServeBurst(o);
      OursConcat(r, packets);
      BurstKeepsBalance(r, c, a, f, packets, mbufs, sent);
    }
    ExactlyOnce(o.driver.received, o.driver.claimed, o.driver.accepted, o.driver.freed);
    DeliveredOnce(o.driver.received);
  }

  // ----- The macswap engine -----

  /** The counters of a forwarding stream. */
  class Stream {
    const retryEnabled: bool
    const retryNum: nat             // burst_tx_retry_num
    var rxPackets: nat
    var txPackets: nat
    var fwdDropped: nat

    constructor (retryEnabled: bool, retryNum: nat)
      ensures rxPackets == txPackets == fwdDropped == 0
    {
      this.retryEnabled, this.retryNum := retryEnabled, retryNum;
      rxPackets, txPackets, fwdDropped := 0, 0, 0;
    }

    /** Every packet received was sent or dropped. */
    ghost predicate Settled()
      reads this
    {
      rxPackets == txPackets + fwdDropped
    }

    /** Offers what is left of a burst again, a limited number of times. */
    method Retry(d: Driver, pktsBurst: seq<Mbuf>, sent: nat) returns (nbTx: nat)
      requires sent <= |pktsBurst|
      modifies d`calls, d`accepted
      ensures sent <= nbTx <= |pktsBurst|
      ensures old(d.accepted) + pktsBurst[sent..nbTx] == d.accepted
      ensures d.calls <= old(d.calls) + (if retryEnabled then retryNum else 0)
    {
      nbTx := sent;
      var nbRx := |pktsBurst|;
      if nbTx < nbRx && retryEnabled {
        var retry := 0;
        while nbTx < nbRx && retry < retryNum
          invariant sent <= nbTx <= nbRx && retry <= retryNum
          invariant d.accepted == old(d.accepted) + pktsBurst[sent..nbTx]
          invariant d.calls == old(d.calls) + retry
        {
          retry := retry + 1;
          var more := d.TxBurst(pktsBurst[nbTx..]);
          assert pktsBurst[sent..nbTx] + pktsBurst[nbTx..][..more] == pktsBurst[sent..nbTx + more];
          nbTx := nbTx + more;
        }
      }
    }

    /** Frees what is left of a burst. */
    method DropRest(d: Driver, pktsBurst: seq<Mbuf>, sent: nat)
      requires sent <= |pktsBurst|
      modifies this`fwdDropped, d`freed
      ensures fwdDropped == old(fwdDropped) + |pktsBurst| - sent
      ensures d.freed == old(d.freed) + pktsBurst[sent..]
    {
      var nbTx := sent;
      fwdDropped := fwdDropped + (|pktsBurst| - nbTx);
      while nbTx < |pktsBurst|
        invariant sent <= nbTx <= |pktsBurst|
        invariant fwdDropped == old(fwdDropped) + |pktsBurst| - sent
        invariant d.freed == old(d.freed) + pktsBurst[sent..nbTx]
      {
        d.Free(pktsBurst[nbTx]);
        nbTx := nbTx + 1;
      }
    }

    /** Forwards a burst: what the NIC does not take, at once or on a limited number of retries, is dropped.
        Packets leave in the order in which they came, and the dropped ones are the last of the burst. */
    method PktBurst(d: Driver, nbPktPerBurst: nat) returns (ghost packets: seq<Mbuf>, ghost sent: nat)
      requires d.Numbered() && Settled()
      modifies this`rxPackets, this`txPackets, this`fwdDropped
      modifies d`calls, d`received, d`accepted, d`freed
      ensures d.Numbered() && Settled() && sent <= |packets|
      ensures d.received == old(d.received) + packets
      ensures d.accepted == old(d.accepted) + packets[..sent] && d.freed == old(d.freed) + packets[sent..]
      ensures rxPackets == old(rxPackets) + |packets| && txPackets == old(txPackets) + sent
      ensures d.calls <= old(d.calls) + 2 + (if retryEnabled then retryNum else 0)
    {
      var pktsBurst := d.RxBurst(nbPktPerBurst);
      packets, sent := pktsBurst, 0;
      var nbRx := |pktsBurst|;
      if nbRx == 0 {
        return;
      }
      rxPackets := rxPackets + nbRx;
      var first := d.TxBurst(pktsBurst);
      var nbTx := Retry(d, pktsBurst, first);
      assert pktsBurst[..first] + pktsBurst[first..nbTx] == pktsBurst[..nbTx];
      sent := nbTx;
      txPackets := txPackets + nbTx;
      if nbTx < nbRx {
        DropRest(d, pktsBurst, nbTx);
      }
    }
  }
}
