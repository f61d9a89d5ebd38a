/** Sending over UDP: a response leaves as a series of numbered datagrams. */
module UdpOutput {
  import opened Bytes
  import opened BigEndian
  import opened OutputPipeline
  import opened TcpOutput

  const UDP_MAX_PAYLOAD_SIZE: nat := 1400
  const UDP_HEADER_SIZE: nat := 8
  const UDP_DATA_SIZE: nat := 1392
  const USHRT_MAX: nat := 65535

  datatype Datagram = Datagram(addr: nat, header: seq<byte>, payload: seq<byte>)

  /** The header of a datagram: request id, number of this datagram, number of datagrams. */
  function Header(requestId: nat, sequence: nat, total: nat): (h: seq<byte>)
    ensures |h| == UDP_HEADER_SIZE
  {
    Put16(requestId) + Put16(sequence) + Put16(total) + [0, 0]
  }

  /** What a receiver reads in a header. */
  lemma HeaderReads(requestId: nat, sequence: nat, total: nat)
    ensures var h := Header(requestId, sequence, total);
      && Get16(h[..2]) == requestId % 65536 && Get16(h[2..4]) == sequence % 65536
      && Get16(h[4..6]) == total % 65536 && h[6..] == [0, 0]
  {
    var a, b, c := Put16(requestId), Put16(sequence), Put16(total);
    HeaderParts(a, b, c);
    Reads16(requestId);
    Reads16(sequence);
    Reads16(total);
  }

  lemma HeaderParts(a: seq<byte>, b: seq<byte>, c: seq<byte>)
    requires |a| == |b| == |c| == 2
    ensures var h := a + b + c + [0, 0]; h[..2] == a && h[2..4] == b && h[4..6] == c && h[6..] == [0, 0]
  {
  }

  lemma Reads16(n: nat)
    ensures Get16(Put16(n)) == n % 65536
  {
  }

  /** How many datagrams n bytes need. */
  function Needed(n: nat): nat {
    (n + UDP_DATA_SIZE - 1) / UDP_DATA_SIZE
  }

  lemma NeededIsCeiling(n: nat)
    ensures Needed(n) == n / UDP_DATA_SIZE + if n % UDP_DATA_SIZE != 0 then 1 else 0
    ensures n > UDP_DATA_SIZE ==> Needed(n) == 1 + Needed(n - UDP_DATA_SIZE)
    ensures 0 < n <= UDP_DATA_SIZE ==> Needed(n) == 1
  {
  }

  /** Numbers the datagram and, the first time, fixes how many there will be. */
  method BuildUdpHeader(x: Resp) returns (hdr: seq<byte>)
    requires x.tosend >= 0
    modifies x`udpTotal, x`udpSequence
    ensures x.udpTotal == if old(x.udpTotal) != 0 then old(x.udpTotal)
                          else if Needed(x.tosend) > USHRT_MAX then USHRT_MAX else Needed(x.tosend)
    ensures x.udpSequence == (old(x.udpSequence) + 1) % 65536
    ensures hdr == Header(x.requestId, old(x.udpSequence), x.udpTotal)
    ensures Get16(hdr[..2]) == x.requestId % 65536 && Get16(hdr[2..4]) == old(x.udpSequence) % 65536
    ensures Get16(hdr[4..6]) == x.udpTotal % 65536 && hdr[6..] == [0, 0]
  {
    if x.udpTotal == 0 {
      var total := x.tosend / UDP_DATA_SIZE;
      if x.tosend % UDP_DATA_SIZE != 0 {
        total := total + 1;
      }
      if total > USHRT_MAX {
        total := USHRT_MAX;
      }
      NeededIsCeiling(x.tosend);
      x.udpTotal := total;
    }
    hdr := [x.requestId / 256 % 256, x.requestId % 256, x.udpSequence / 256 % 256, x.udpSequence % 256,
            x.udpTotal / 256 % 256, x.udpTotal % 256, 0, 0];
    HeaderReads(x.requestId, x.udpSequence, x.udpTotal);
    x.udpSequence := (x.udpSequence + 1) % 65536;
  }

  /** Clips the I/O vector to the size of a datagram. */
  method Clip(iovs: seq<Slice>) returns (v: seq<Slice>)
    requires AllOk(iovs)
    ensures AllOk(v)
    ensures Gather(v) == if |Gather(iovs)| < UDP_MAX_PAYLOAD_SIZE then Gather(iovs)
                         else Gather(iovs)[..UDP_MAX_PAYLOAD_SIZE]
  {
    v := iovs;
    var len := 0;
    var x := 0;
    while x < |v|
      invariant v == iovs && x <= |v| && len == |Gather(v[..x])| < UDP_MAX_PAYLOAD_SIZE
      decreases |v| - x
    {
      GatherStep(v, x);
      if len + v[x].len >= UDP_MAX_PAYLOAD_SIZE {
        GatherPrefix(iovs, x + 1);
        var s := v[x].(len := UDP_MAX_PAYLOAD_SIZE - len);
        assert s.Bytes() == v[x].Bytes()[..s.len];
        GatherAppend(iovs[..x], s);
        v := v[..x] + [s];
        return;
      } else {
        len := len + v[x].len;
      }
      x := x + 1;
    }
    assert v[..x] == v;
  }

  /** A datagram socket.  A call of sendmsg takes the whole datagram (script >= 0), would block (-1), or
      fails. */
  class DatagramSocket {
    const script: nat -> int
    var calls: nat
    var sent: seq<Datagram>

    constructor (script: nat -> int)
      ensures this.script == script && calls == 0 && sent == []
    {
      this.script := script;
      calls, sent := 0, [];
    }

    method SendMsg(addr: nat, v: seq<Slice>) returns (res: int)
      requires AllOk(v) && |Gather(v)| >= UDP_HEADER_SIZE
      modifies this`calls, this`sent
      ensures calls == old(calls) + 1
      ensures res == if script(old(calls)) >= 0 then |Gather(v)| else script(old(calls))
      ensures sent == old(sent) + if res < 0 then [] else
                [Datagram(addr, Gather(v)[..UDP_HEADER_SIZE], Gather(v)[UDP_HEADER_SIZE..])]
    {
      var data := Gather(v);
      res := if script(calls) >= 0 then |data| else script(calls);
      calls := calls + 1;
      if res >= 0 {
        sent := sent + [Datagram(addr, data[..UDP_HEADER_SIZE], data[UDP_HEADER_SIZE..])];
      }
    }
  }

  /** The numbering fields do not affect what a response has to send. */
  lemma NumberingKeepsPending(r: Rec, r': Rec)
    requires RecOk(r) && r' == r.(udpSequence := r'.udpSequence, udpTotal := r'.udpTotal)
    ensures RecOk(r') && Pending(r') == Pending(r)
  {
    forall x | 0 <= x < |r.iov| ensures IovOk(r', x) && IovBytes(r', x) == IovBytes(r, x) { assert IovOk(r, x); }
    assert Entries(r') == Entries(r);
  }

  /** The head response once a header has been built for its next datagram. */
  function Numbered(r: Rec): Rec
    requires r.tosend >= 0
  {
    r.(udpSequence := (r.udpSequence + 1) % 65536, udpTotal := TotalOf(r))
  }

  function TotalOf(r: Rec): nat
    requires r.tosend >= 0
  {
    if r.udpTotal != 0 then r.udpTotal
    else if Needed(r.tosend) > USHRT_MAX then USHRT_MAX else Needed(r.tosend)
  }

  method NumberFields(c: Conn) returns (hdr: seq<byte>)
    requires c.Valid() && c.chain != []
    modifies c.respHead`udpTotal, c.respHead`udpSequence
    ensures c.AgreesBut(0) && |c.recs| > 0 && c.recs[0].tosend >= 0
    ensures c.chain[0].Value() == Numbered(c.recs[0])
    ensures hdr == Header(c.recs[0].requestId, c.recs[0].udpSequence, TotalOf(c.recs[0]))
  {
    assert c.Link(0) && Owes(c.recs[0], c.pend[0]);
    hdr := BuildUdpHeader(c.respHead);
    forall i | 0 <= i < |c.chain| && i != 0 ensures c.Link(i) { assert old(c.Link(i)); }
  }

  method NumberHead(c: Conn) returns (hdr: seq<byte>)
    requires c.Valid() && c.chain != []
    modifies c`recs, c`pend, c.respHead`udpTotal, c.respHead`udpSequence
    ensures c.Valid() && c.pend == old(c.pend) && 0 < |c.recs| == |old(c.recs)| && old(c.recs)[0].tosend >= 0
    ensures c.recs == old(c.recs)[0 := Numbered(old(c.recs)[0])]
    ensures hdr == Header(c.recs[0].requestId, old(c.recs)[0].udpSequence, c.recs[0].udpTotal)
  {
    assert Owes(c.recs[0], c.pend[0]);
    hdr := NumberFields(c);
    NumberingKeepsPending(c.recs[0], c.chain[0].Value());
    c.Record(0, c.pend[0]);
  }

  /** What a datagram that is sent now carries of data. */
  function FirstPart(data: seq<byte>): seq<byte> {
    if |data| < UDP_DATA_SIZE then data else data[..UDP_DATA_SIZE]
  }

  /** Header and payload of a vector that starts with a header. */
  lemma ClippedDatagram(hdr: seq<byte>, w: seq<Slice>, v: seq<Slice>)
    requires |hdr| == UDP_HEADER_SIZE && AllOk(w) && AllOk(v)
    requires var all := Gather([Slice(hdr, 0, UDP_HEADER_SIZE)] + w);
             Gather(v) == if |all| < UDP_MAX_PAYLOAD_SIZE then all else all[..UDP_MAX_PAYLOAD_SIZE]
    ensures Gather(v) == hdr + FirstPart(Gather(w))
  {
    var h := Slice(hdr, 0, UDP_HEADER_SIZE);
    assert Gather([h]) == hdr by {
      GatherAppend([], h);
      assert [] + [h] == [h];
      assert h.Bytes() == hdr;
    }
    GatherConcat([h], w);
    ClipSum(hdr, Gather(w));
  }

  lemma ClipSum(hdr: seq<byte>, data: seq<byte>)
    requires |hdr| == UDP_HEADER_SIZE
    ensures (if |hdr + data| < UDP_MAX_PAYLOAD_SIZE then hdr + data else (hdr + data)[..UDP_MAX_PAYLOAD_SIZE]) ==
            hdr + FirstPart(data)
  {
  }

  /** Forms the next datagram of the head response: a header and a part p of what is pending. */
  method FormDatagram(c: Conn) returns (v: seq<Slice>, ghost p: seq<byte>)
    requires c.Valid() && c.chain != [] && !c.recs[0].skip
    modifies c`recs, c`pend, c.respHead`udpTotal, c.respHead`udpSequence
    ensures c.Valid() && c.pend == old(c.pend) && 0 < |c.recs| == |old(c.recs)| && |c.pend| == |c.recs|
    ensures old(c.recs)[0].tosend == |c.pend[0]|
    ensures c.recs == old(c.recs)[0 := Numbered(old(c.recs)[0])]
    ensures AllOk(v)
    ensures Gather(v) == Header(c.recs[0].requestId, old(c.recs)[0].udpSequence, c.recs[0].udpTotal) + p
    ensures p <= c.pend[0] && (c.pend[0] != [] ==> p != [])
    ensures c.recs[0].chunkedDataIov == 0 ==> p == FirstPart(c.pend[0])
  {
    assert Owes(c.recs[0], c.pend[0]);
    var hdr := NumberHead(c);
    var w := c.TransmitPre(1, true);
    FlattenHead(c.pend[..1]);
    v := Clip([Slice(hdr, 0, UDP_HEADER_SIZE)] + w);
    ClippedDatagram(hdr, w, v);
    p := FirstPart(Gather(w));
  }

  /** The next datagram of a response, carrying p. */
  function DatagramOf(r: Rec, p: seq<byte>): Datagram
    requires r.tosend >= 0
  {
    Datagram(r.requestAddr, Header(r.requestId, r.udpSequence, TotalOf(r)), p)
  }

  /** A response of which p has been sent: finished, or still the head with p less to send. */
  ghost predicate Moved(r: Rec, b: seq<byte>, p: seq<byte>, recs: seq<Rec>, pend: seq<seq<byte>>) {
    p <= b && p != b && recs != [] && pend != [] && pend[0] == b[|p|..] &&
    recs[0] == r.(iov := recs[0].iov, tosend := |b| - |p|)
  }

  /** The front p of what the head response owes has been sent. */
  method Delivered(c: Conn, ghost p: seq<byte>, res: nat) returns (last: bool)
    requires c.Valid() && c.chain != [] && !c.recs[0].skip && res == |p|
    requires p <= c.pend[0] && (c.pend[0] != [] ==> p != [])
    modifies c`respHead, c`resp, c`chain, c`recs, c`pend, c`finished, c.chain`iov, c.chain`tosend
    ensures c.Valid() && |old(c.recs)| > 0 && |old(c.pend)| > 0
    ensures c.finished + c.chain == old(c.finished) + old(c.chain) && (last <==> c.chain == [])
    ensures c.Stream() == Rest(old(c.Stream()), |p|)
    ensures p == old(c.pend)[0] ==> |c.finished| > |old(c.finished)|
    ensures p != old(c.pend)[0] ==>
              c.chain == old(c.chain) && c.finished == old(c.finished) &&
              Moved(old(c.recs)[0], old(c.pend)[0], p, c.recs, c.pend)
  {
    assert Owes(c.recs[0], c.pend[0]);
    ghost var k := c.TransmitPost(res);
    MoveOver(old(c.finished), old(c.chain), k);
    if c.respHead != null {
      assert Owes(c.recs[0], c.pend[0]);
    }
    last := c.respHead == null;
  }

  /** Sends one datagram of the head response, carrying p.  A datagram that the socket does not take
      costs its number. */
  method SendDatagram(c: Conn, s: DatagramSocket) returns (r: TransmitResult, ghost p: seq<byte>)
    requires c.Valid() && c.chain != [] && !c.recs[0].skip
    modifies c`respHead, c`resp, c`chain, c`recs, c`pend, c`finished, c.chain`iov, c.chain`tosend
    modifies c.chain`udpTotal, c.chain`udpSequence, s`calls, s`sent
    ensures c.Valid() && 0 < |old(c.recs)| == |old(c.pend)| && old(c.recs)[0].tosend == |old(c.pend)[0]|
    ensures s.calls == old(s.calls) + 1
    ensures c.finished + c.chain == old(c.finished) + old(c.chain)
    ensures r.SoftError? || r.HardError? <==> s.script(old(s.calls)) < 0
    ensures r.SoftError? <==> s.script(old(s.calls)) == -1
    ensures (r.Complete? ==> c.chain == []) && (r.Incomplete? ==> c.chain != [])
    ensures s.script(old(s.calls)) < 0 ==>
              s.sent == old(s.sent) && c.pend == old(c.pend) && c.finished == old(c.finished) &&
              c.chain == old(c.chain) && c.recs == old(c.recs)[0 := Numbered(old(c.recs)[0])]
    ensures p <= old(c.pend)[0] && (old(c.pend)[0] != [] ==> p != [])
    ensures old(c.recs)[0].chunkedDataIov == 0 ==> p == FirstPart(old(c.pend)[0])
    ensures s.script(old(s.calls)) >= 0 ==> s.sent == old(s.sent) + [DatagramOf(old(c.recs)[0], p)]
    ensures s.script(old(s.calls)) >= 0 ==> c.Stream() == Rest(old(c.Stream()), |p|)
    ensures s.script(old(s.calls)) >= 0 && p == old(c.pend)[0] ==> |c.finished| > |old(c.finished)|
    ensures s.script(old(s.calls)) >= 0 && p != old(c.pend)[0] ==>
              c.chain == old(c.chain) && c.finished == old(c.finished) &&
              Moved(Numbered(old(c.recs)[0]), old(c.pend)[0], p, c.recs, c.pend)
  {
    var head := c.respHead;
    assert c.Link(0);
    var v;
    v, p := FormDatagram(c);
    var res := s.SendMsg(head.requestAddr, v);
    if res >= 0 {
      var last := Delivered(c, p, res - UDP_HEADER_SIZE);
      return if last then Complete else Incomplete, p;
    }
    if res == -1 {
      return SoftError, p;
    }
    return HardError, p;
  }

  /** One step of sending over UDP. */
  method TransmitUdp(c: Conn, s: DatagramSocket) returns (r: TransmitResult)
    requires c.Valid()
    modifies c`respHead, c`resp, c`chain, c`recs, c`pend, c`finished, c.chain`iov, c.chain`tosend
    modifies c.chain`udpTotal, c.chain`udpSequence, s`calls, s`sent
    ensures c.Valid()
    ensures c.finished + c.chain == old(c.finished) + old(c.chain)
    ensures r.Complete? ==> c.chain == []
    ensures old(c.chain) == [] ==> r == Complete && s.sent == old(s.sent)
    ensures old(c.chain) != [] && old(c.recs)[0].skip ==>
              r == Incomplete && c.chain == old(c.chain)[1..] && s.calls == old(s.calls)
    ensures old(c.chain) != [] && !old(c.recs)[0].skip ==>
              && s.calls == old(s.calls) + 1 && (r.SoftError? <==> s.script(old(s.calls)) == -1)
              && (r.HardError? <==> s.script(old(s.calls)) < -1)
    ensures r.SoftError? || r.HardError? ==> s.sent == old(s.sent) && c.Stream() == old(c.Stream())
    ensures r.Complete? || r.Incomplete? ==>
              (s.sent == old(s.sent) && c.Stream() == old(c.Stream())) ||
              (|s.sent| == |old(s.sent)| + 1 && s.sent[..|old(s.sent)|] == old(s.sent) &&
               s.sent[|old(s.sent)|].payload + c.Stream() == old(c.Stream()))
  {
    if c.respHead == null {
      return Complete;
    }
    assert c.Link(0) && Owes(c.recs[0], c.pend[0]);
    FlattenHead(c.pend);
    if c.respHead.skip {
      c.FinishHead();
      MoveOver(old(c.finished), old(c.chain), 1);
      return Incomplete;
    }
    ghost var p;
    r, p := SendDatagram(c, s);
  }

  // ----- A whole response -----

  /** The datagrams that carry `data`, numbered from n on. */
  function Fragments(addr: nat, requestId: nat, total: nat, n: nat, data: seq<byte>): seq<Datagram>
    decreases |data|
  {
    var d := Datagram(addr, Header(requestId, n, total), FirstPart(data));
    if |data| <= UDP_DATA_SIZE then [d]
    else [d] + Fragments(addr, requestId, total, n + 1, data[UDP_DATA_SIZE..])
  }

  function Payloads(ds: seq<Datagram>): seq<byte> {
    if ds == [] then [] else ds[0].payload + Payloads(ds[1..])
  }

  lemma {:induction false} FragmentsPayload(addr: nat, requestId: nat, total: nat, n: nat, data: seq<byte>)
    requires data != []
    ensures var ds := Fragments(addr, requestId, total, n, data);
      |ds| == Needed(|data|) && Payloads(ds) == data
    decreases |data|
  {
    NeededIsCeiling(|data|);
    var ds := Fragments(addr, requestId, total, n, data);
    if |data| <= UDP_DATA_SIZE {
      assert ds[1..] == [];
    } else {
      var rest := data[UDP_DATA_SIZE..];
      FragmentsPayload(addr, requestId, total, n + 1, rest);
      assert ds[1..] == Fragments(addr, requestId, total, n + 1, rest);
      assert data == FirstPart(data) + rest;
    }
  }

  lemma {:induction false} FragmentAt(addr: nat, requestId: nat, total: nat, n: nat, data: seq<byte>, k: nat)
    requires data != [] && k < |Fragments(addr, requestId, total, n, data)|
    ensures var ds := Fragments(addr, requestId, total, n, data);
      && ds[k].addr == addr && ds[k].header == Header(requestId, n + k, total)
      && 0 < |ds[k].payload| <= UDP_DATA_SIZE
      && (k < |ds| - 1 ==> |ds[k].payload| == UDP_DATA_SIZE)
    decreases |data|
  {
    if k > 0 {
      FragmentAt(addr, requestId, total, n + 1, data[UDP_DATA_SIZE..], k - 1);
    }
  }

  /** The header of d reads like this. */
  predicate Reads(d: Datagram, requestId: nat, number: nat, total: nat) {
    && |d.header| == 8
    && Get16(d.header[..2]) == requestId % 65536 && Get16(d.header[2..4]) == number % 65536
    && Get16(d.header[4..6]) == total % 65536 && d.header[6..] == [0, 0]
  }

  /** What the receiver sees: exactly as many datagrams as the data needs, numbered one after the
      other, all but the last one full, and their payloads are the data. */
  lemma FragmentsShape(addr: nat, requestId: nat, total: nat, n: nat, data: seq<byte>)
    requires data != []
    ensures var ds := Fragments(addr, requestId, total, n, data);
      && |ds| == Needed(|data|)
      && Payloads(ds) == data
      && (forall k :: 0 <= k < |ds| ==> ds[k].addr == addr && ds[k].header == Header(requestId, n + k, total))
      && (forall k {:trigger ds[k]} :: 0 <= k < |ds| ==> Reads(ds[k], requestId, n + k, total))
      && (forall k :: 0 <= k < |ds| ==> 0 < |ds[k].payload| <= UDP_DATA_SIZE)
      && (forall k :: 0 <= k < |ds| - 1 ==> |ds[k].payload| == UDP_DATA_SIZE)
  {
    FragmentsPayload(addr, requestId, total, n, data);
    var ds := Fragments(addr, requestId, total, n, data);
    forall k | 0 <= k < |ds|
      ensures ds[k].addr == addr && ds[k].header == Header(requestId, n + k, total)
      ensures Reads(ds[k], requestId, n + k, total)
      ensures 0 < |ds[k].payload| <= UDP_DATA_SIZE && (k < |ds| - 1 ==> |ds[k].payload| == UDP_DATA_SIZE)
    {
      FragmentAt(addr, requestId, total, n, data, k);
      HeaderReads(requestId, n + k, total);
    }
  }

  // ----- The receiver -----

  /** The number in its header. */
  function NumberOf(d: Datagram): nat {
    if |d.header| == 8 then Get16(d.header[2..4]) else 65536
  }

  /** The payload of the first datagram with this number. */
  function Pick(ds: seq<Datagram>, number: nat): seq<byte> {
    if ds == [] then [] else if NumberOf(ds[0]) == number then ds[0].payload else Pick(ds[1..], number)
  }

  /** The payloads of the datagrams 0 to n - 1, by their numbers. */
  function Assembled(ds: seq<Datagram>, n: nat): seq<byte> {
    if n == 0 then [] else Assembled(ds, n - 1) + Pick(ds, n - 1)
  }

  lemma {:induction false} PickIs(ds: seq<Datagram>, d: Datagram)
    requires d in ds && forall o :: o in ds && NumberOf(o) == NumberOf(d) ==> o == d
    ensures Pick(ds, NumberOf(d)) == d.payload
  {
    if ds[0] != d { PickIs(ds[1..], d); }
  }

  lemma {:induction false} AssembledPrefix(ds: seq<Datagram>, fs: seq<Datagram>, n: nat)
    requires n <= |fs| && forall k :: 0 <= k < n ==> Pick(ds, k) == fs[k].payload
    ensures Assembled(ds, n) == Payloads(fs[..n])
  {
    if n > 0 {
      AssembledPrefix(ds, fs, n - 1);
      PayloadsSnoc(fs[..n - 1], fs[n - 1]);
      assert fs[..n] == fs[..n - 1] + [fs[n - 1]];
    }
  }

  /** Datagrams in some order, numbered from 0 on. */
  ghost predicate Shuffled(ds: seq<Datagram>, fs: seq<Datagram>) {
    multiset(ds) == multiset(fs) && forall k :: 0 <= k < |fs| ==> NumberOf(fs[k]) == k
  }

  lemma ShuffledMember(ds: seq<Datagram>, fs: seq<Datagram>, o: Datagram)
    requires Shuffled(ds, fs)
    ensures o in ds <==> o in fs
    ensures o in ds ==> NumberOf(o) < |fs| && o == fs[NumberOf(o)]
  {
    assert o in ds <==> o in multiset(ds);
    assert o in fs <==> o in multiset(fs);
    if o in fs {
      var k :| 0 <= k < |fs| && fs[k] == o;
    }
  }

  lemma ShuffledAssembled(ds: seq<Datagram>, fs: seq<Datagram>)
    requires Shuffled(ds, fs)
    ensures Assembled(ds, |fs|) == Payloads(fs)
  {
    forall k | 0 <= k < |fs| ensures Pick(ds, k) == fs[k].payload {
      ShuffledMember(ds, fs, fs[k]);
      forall o | o in ds && NumberOf(o) == k ensures o == fs[k] { ShuffledMember(ds, fs, o); }
      PickIs(ds, fs[k]);
    }
    AssembledPrefix(ds, fs, |fs|);
    assert fs[..|fs|] == fs;
  }

  lemma NumberRead(d: Datagram, requestId: nat, k: nat, total: nat)
    requires d.header == Header(requestId, k, total) && k < 65536 && total < 65536
    ensures |d.header| == 8 && NumberOf(d) == k && Get16(d.header[4..6]) == total
  {
    HeaderReads(requestId, k, total);
  }

  lemma FragmentReads(addr: nat, requestId: nat, data: seq<byte>, k: nat)
    requires data != [] && Needed(|data|) <= USHRT_MAX
    requires k < |Fragments(addr, requestId, Needed(|data|), 0, data)|
    ensures var d := Fragments(addr, requestId, Needed(|data|), 0, data)[k];
      NumberOf(d) == k && |d.header| == 8 && Get16(d.header[4..6]) == Needed(|data|)
  {
    var total := Needed(|data|);
    var ds := Fragments(addr, requestId, total, 0, data);
    FragmentsPayload(addr, requestId, total, 0, data);
    FragmentAt(addr, requestId, total, 0, data, k);
    NumberRead(ds[k], requestId, 0 + k, total);
  }

  /** A receiver that takes the datagrams in whatever order they arrive, reads the count in any of them, and puts the
      payloads together by number, gets the response. */
  lemma ReceiverGetsResponse(addr: nat, requestId: nat, data: seq<byte>, ds: seq<Datagram>, d: Datagram)
    requires data != [] && Needed(|data|) <= USHRT_MAX
    requires multiset(ds) == multiset(Fragments(addr, requestId, Needed(|data|), 0, data)) && d in ds
    ensures |d.header| == 8 && Assembled(ds, Get16(d.header[4..6])) == data
  {
    var total := Needed(|data|);
    var fs := Fragments(addr, requestId, total, 0, data);
    FragmentsPayload(addr, requestId, total, 0, data);
    forall k | 0 <= k < |fs| ensures NumberOf(fs[k]) == k { FragmentReads(addr, requestId, data, k); }
    ShuffledMember(ds, fs, d);
    FragmentReads(addr, requestId, data, NumberOf(d));
    ShuffledAssembled(ds, fs);
  }

  /** The head of the chain is a response without chunked data, n datagrams of which are out. */
  ghost predicate Under(r: Rec, addr: nat, requestId: nat, total: nat, n: nat, left: nat) {
    && !r.skip && r.chunkedDataIov == 0 && r.requestAddr == addr && r.requestId == requestId
    && r.udpSequence == n && r.tosend == left
    && (if n == 0 then r.udpTotal == 0 && Needed(left) == total else r.udpTotal == total)
    && n + Needed(left) == total <= USHRT_MAX
  }

  lemma UnderStep(r: Rec, addr: nat, requestId: nat, total: nat, n: nat, left: nat, r': Rec)
    requires Under(r, addr, requestId, total, n, left) && left > UDP_DATA_SIZE
    requires r' == Numbered(r).(iov := r'.iov, tosend := left - UDP_DATA_SIZE)
    ensures Under(r', addr, requestId, total, n + 1, left - UDP_DATA_SIZE)
  {
    NeededIsCeiling(left);
  }

  /** Sending the first of several fragments leaves the others to send. */
  lemma FragmentsStep(sent: seq<Datagram>, r: Rec, addr: nat, requestId: nat, total: nat, n: nat, b: seq<byte>)
    requires Under(r, addr, requestId, total, n, |b|) && b != []
    ensures |b| > UDP_DATA_SIZE ==>
              sent + [DatagramOf(r, FirstPart(b))] + Fragments(addr, requestId, total, n + 1, b[UDP_DATA_SIZE..]) ==
              sent + Fragments(addr, requestId, total, n, b)
    ensures |b| <= UDP_DATA_SIZE ==>
              sent + [DatagramOf(r, FirstPart(b))] == sent + Fragments(addr, requestId, total, n, b)
  {
  }

  lemma RestTwice(s: seq<byte>, a: nat, b: int)
    ensures b >= 0 ==> Rest(Rest(s, a), b) == Rest(s, a + b)
  {
  }

  /** The head response is under way: with its remaining fragments the peer will have got `goal`, and `rest` will be
      pending. */
  ghost predicate UnderWay(recs: seq<Rec>, pend: seq<seq<byte>>, sent: seq<Datagram>,
                           addr: nat, id: nat, total: nat, n: nat, goal: seq<Datagram>, rest: seq<byte>) {
    && recs != [] && pend != [] && pend[0] != [] && Under(recs[0], addr, id, total, n, |pend[0]|)
    && sent + Fragments(addr, id, total, n, pend[0]) == goal && Rest(Flatten(pend), |pend[0]|) == rest
  }

  lemma UnderWayStep(recs: seq<Rec>, pend: seq<seq<byte>>, sent: seq<Datagram>,
                     addr: nat, id: nat, total: nat, n: nat, goal: seq<Datagram>, rest: seq<byte>,
                     recs': seq<Rec>, pend': seq<seq<byte>>)
    requires UnderWay(recs, pend, sent, addr, id, total, n, goal, rest) && |pend[0]| > UDP_DATA_SIZE
    requires Moved(Numbered(recs[0]), pend[0], FirstPart(pend[0]), recs', pend')
    requires Flatten(pend') == Rest(Flatten(pend), UDP_DATA_SIZE)
    ensures UnderWay(recs', pend', sent + [DatagramOf(recs[0], FirstPart(pend[0]))],
                     addr, id, total, n + 1, goal, rest)
  {
    FragmentsStep(sent, recs[0], addr, id, total, n, pend[0]);
    RestTwice(Flatten(pend), UDP_DATA_SIZE, |pend[0]| - UDP_DATA_SIZE);
    UnderStep(recs[0], addr, id, total, n, |pend[0]|, recs'[0]);
  }

  /** Sends one fragment of a response of plain memory: the last one finishes it. */
  method SendFragment(c: Conn, s: DatagramSocket, ghost addr: nat, ghost id: nat, ghost total: nat, ghost n: nat,
                      ghost goal: seq<Datagram>, ghost rest: seq<byte>)
    returns (last: bool)
    requires c.Valid() && s.script(s.calls) >= 0
    requires UnderWay(c.recs, c.pend, s.sent, addr, id, total, n, goal, rest)
    modifies c`respHead, c`resp, c`chain, c`recs, c`pend, c`finished, c.chain`iov, c.chain`tosend
    modifies c.chain`udpTotal, c.chain`udpSequence, s`calls, s`sent
    ensures c.Valid() && c.finished + c.chain == old(c.finished) + old(c.chain) && |old(c.pend)| > 0
    ensures last ==> |c.finished| > |old(c.finished)| && s.sent == goal && c.Stream() == rest
    ensures !last ==> c.chain == old(c.chain) && c.finished == old(c.finished)
    ensures !last ==> UnderWay(c.recs, c.pend, s.sent, addr, id, total, n + 1, goal, rest)
    ensures !last ==> c.pend != [] && |c.pend[0]| < |old(c.pend)[0]|
  {
    ghost var recs, pend, sent := c.recs, c.pend, s.sent;
    assert c.Link(0);
    last := c.respHead.tosend <= UDP_DATA_SIZE;
    var res;
    ghost var p;
    res, p := SendDatagram(c, s);
    if last {
      assert p == pend[0];
      FragmentsStep(sent, recs[0], addr, id, total, n, pend[0]);
    } else {
      UnderWayStep(recs, pend, sent, addr, id, total, n, goal, rest, c.recs, c.pend);
    }
  }

  lemma UnderWayStart(recs: seq<Rec>, pend: seq<seq<byte>>, sent: seq<Datagram>)
    requires recs != [] && pend != [] && Owes(recs[0], pend[0]) && !recs[0].skip && recs[0].chunkedDataIov == 0
    requires recs[0].udpTotal == 0 && recs[0].udpSequence == 0 && 0 < recs[0].tosend <= USHRT_MAX * UDP_DATA_SIZE
    ensures var addr, id, total := recs[0].requestAddr, recs[0].requestId, Needed(|pend[0]|);
      UnderWay(recs, pend, sent, addr, id, total, 0, sent + Fragments(addr, id, total, 0, pend[0]),
               Rest(Flatten(pend), |pend[0]|))
  {
  }

  /** All of them, one after the other. */
  method SendFragments(c: Conn, s: DatagramSocket, ghost addr: nat, ghost id: nat, ghost total: nat,
                       ghost goal: seq<Datagram>, ghost rest: seq<byte>)
    requires c.Valid() && forall k :: s.script(k) >= 0
    requires UnderWay(c.recs, c.pend, s.sent, addr, id, total, 0, goal, rest)
    modifies c`respHead, c`resp, c`chain, c`recs, c`pend, c`finished, c.chain`iov, c.chain`tosend
    modifies c.chain`udpTotal, c.chain`udpSequence, s`calls, s`sent
    ensures c.Valid() && c.finished + c.chain == old(c.finished) + old(c.chain)
    ensures |c.finished| > |old(c.finished)| && s.sent == goal && c.Stream() == rest
  {
    ghost var n := 0;
    var last := false;
    while !last
      invariant c.Valid() && c.finished + c.chain == old(c.finished) + old(c.chain)
      invariant !last ==> c.chain == old(c.chain) && c.finished == old(c.finished)
      invariant !last ==> UnderWay(c.recs, c.pend, s.sent, addr, id, total, n, goal, rest)
      invariant last ==> |c.finished| > |old(c.finished)| && c.Stream() == rest && s.sent == goal
      decreases !last, if last || c.pend == [] then 0 else |c.pend[0]|
    {
      last := SendFragment(c, s, addr, id, total, n, goal, rest);
      n := n + 1;
    }
  }

  lemma SentReads(before: seq<Datagram>, addr: nat, id: nat, data: seq<byte>, after: seq<Datagram>)
    requires data != [] && after == before + Fragments(addr, id, Needed(|data|), 0, data)
    ensures |after| == |before| + Needed(|data|)
    ensures forall k {:trigger after[k]} :: |before| <= k < |after| ==>
              Reads(after[k], id, k - |before|, Needed(|data|))
  {
    FragmentsShape(addr, id, Needed(|data|), 0, data);
    var ds := Fragments(addr, id, Needed(|data|), 0, data);
    forall k | |before| <= k < |after| ensures Reads(after[k], id, k - |before|, Needed(|data|)) {
      assert after[k] == ds[k - |before|];
    }
  }

  /** A response of plain memory leaves as the fragments of its bytes when the socket takes every
      datagram and it needs at most 65535 of them. */
  method SendResponse(c: Conn, s: DatagramSocket)
    requires c.Valid() && c.chain != []
    requires !c.recs[0].skip && c.recs[0].chunkedDataIov == 0
    requires c.recs[0].udpTotal == 0 && c.recs[0].udpSequence == 0
    requires 0 < c.recs[0].tosend <= USHRT_MAX * UDP_DATA_SIZE
    requires forall k :: s.script(k) >= 0
    modifies c`respHead, c`resp, c`chain, c`recs, c`pend, c`finished, c.chain`iov, c.chain`tosend
    modifies c.chain`udpTotal, c.chain`udpSequence, s`calls, s`sent
    ensures c.Valid() && 0 < |old(c.recs)| == |old(c.pend)| == |old(c.chain)|
    ensures s.sent == old(s.sent) + Fragments(old(c.recs)[0].requestAddr, old(c.recs)[0].requestId,
                                              Needed(|old(c.pend)[0]|), 0, old(c.pend)[0])
    ensures |s.sent| == |old(s.sent)| + Needed(|old(c.pend)[0]|)
    ensures forall k {:trigger s.sent[k]} :: |old(s.sent)| <= k < |s.sent| ==>
              Reads(s.sent[k], old(c.recs)[0].requestId, k - |old(s.sent)|, Needed(|old(c.pend)[0]|))
    ensures c.Stream() == Rest(old(c.Stream()), |old(c.pend)[0]|)
    ensures c.finished + c.chain == old(c.finished) + old(c.chain) && |c.finished| > |old(c.finished)|
  {
    assert Owes(c.recs[0], c.pend[0]);
    ghost var addr, id, data := c.recs[0].requestAddr, c.recs[0].requestId, c.pend[0];
    ghost var total := Needed(|data|);
    ghost var goal, rest := s.sent + Fragments(addr, id, total, 0, data), Rest(c.Stream(), |data|);
    UnderWayStart(c.recs, c.pend, s.sent);
    SendFragments(c, s, addr, id, total, goal, rest);
    SentReads(old(s.sent), addr, id, data, goal);
  }

  // ----- What a socket that would block does to the numbering -----

  /** The numbers of the datagrams that got out, when attempt i of a response got out iff taken[i]. */
  function Numbers(taken: seq<bool>): seq<nat> {
    if taken == [] then []
    else
      var n := |taken| - 1;
      Numbers(taken[..n]) + if taken[n] then [n % 65536] else []
  }

  /** No attempt fails before one that succeeds. */
  predicate NoRetry(taken: seq<bool>) {
    forall i, j :: 0 <= i < j < |taken| && taken[j] ==> taken[i]
  }

  predicate Consecutive(ns: seq<nat>) {
    forall k :: 0 <= k < |ns| ==> ns[k] == k
  }

  lemma {:induction false} NumbersBound(taken: seq<bool>)
    ensures |Numbers(taken)| <= |taken|
    ensures |Numbers(taken)| == |taken| <==> forall i :: 0 <= i < |taken| ==> taken[i]
  {
    if taken != [] {
      NumbersBound(taken[..|taken| - 1]);
    }
  }

  lemma ConsecutiveSnoc(ns: seq<nat>, m: nat)
    ensures Consecutive(ns + [m]) <==> Consecutive(ns) && m == |ns|
  {
    var all := ns + [m];
    assert all[|ns|] == m && forall k :: 0 <= k < |ns| ==> all[k] == ns[k];
  }

  lemma NoRetrySnoc(taken: seq<bool>, t: bool)
    ensures NoRetry(taken + [t]) <==> NoRetry(taken) && (t ==> forall i :: 0 <= i < |taken| ==> taken[i])
  {
    var all := taken + [t];
    assert all[|taken|] == t && forall k :: 0 <= k < |taken| ==> all[k] == taken[k];
  }

  /** The receiver sees consecutive numbers exactly when no datagram had to be retried. */
  lemma {:induction false} NumberingSurvives(taken: seq<bool>)
    requires |taken| <= USHRT_MAX
    ensures Consecutive(Numbers(taken)) <==> NoRetry(taken)
  {
    if taken != [] {
      var n := |taken| - 1;
      var init := taken[..n];
      NumberingSurvives(init);
      NumbersBound(init);
      NoRetrySnoc(init, taken[n]);
      assert taken == init + [taken[n]];
      if taken[n] {
        assert Numbers(taken) == Numbers(init) + [n];
        ConsecutiveSnoc(Numbers(init), n);
      } else {
        assert Numbers(taken) == Numbers(init);
      }
    }
  }

  /** How many attempts got out. */
  function Successes(taken: seq<bool>): nat {
    if taken == [] then 0 else Successes(taken[..|taken| - 1]) + if taken[|taken| - 1] then 1 else 0
  }

  lemma {:induction false} SuccessesBound(taken: seq<bool>)
    ensures Successes(taken) == |Numbers(taken)| <= |taken|
    ensures Successes(taken) == |taken| <==> forall i :: 0 <= i < |taken| ==> taken[i]
  {
    if taken != [] { SuccessesBound(taken[..|taken| - 1]); }
  }

  /** After a series whose last attempt got out, the numbers are consecutive exactly when all attempts did. */
  lemma SeriesSurvives(taken: seq<bool>)
    requires |taken| <= USHRT_MAX && taken != [] && taken[|taken| - 1]
    ensures Consecutive(Numbers(taken)) <==> |taken| == Successes(taken)
  {
    NumberingSurvives(taken);
    SuccessesBound(taken);
  }

  /** A response without chunked data after i attempts, with `left` bytes to send. */
  ghost predicate Tried(r: Rec, requestId: nat, total: nat, i: nat, left: nat) {
    && !r.skip && r.chunkedDataIov == 0 && r.requestId == requestId && r.udpSequence == i % 65536
    && r.tosend == left && TotalOf(r) == total
  }

  lemma TriedStep(r: Rec, requestId: nat, total: nat, i: nat, left: nat, r': Rec)
    requires Tried(r, requestId, total, i, left) && (left > 0 || r'.tosend == 0)
    requires r' == Numbered(r).(iov := r'.iov, tosend := r'.tosend) && r'.tosend >= 0
    ensures Tried(r', requestId, total, i + 1, r'.tosend)
  {
    NeededIsCeiling(left);
  }

  /** The datagrams carry these numbers, in order. */
  ghost predicate Carry(ds: seq<Datagram>, requestId: nat, total: nat, ns: seq<nat>) {
    |ds| == |ns| && forall k :: 0 <= k < |ns| ==> ds[k].header == Header(requestId, ns[k], total)
  }

  lemma NumbersSnoc(taken: seq<bool>, t: bool)
    ensures Numbers(taken + [t]) == Numbers(taken) + if t then [|taken| % 65536] else []
    ensures Successes(taken + [t]) == Successes(taken) + if t then 1 else 0
  {
    assert (taken + [t])[..|taken|] == taken;
  }

  lemma {:induction false} PayloadsSnoc(ds: seq<Datagram>, d: Datagram)
    ensures Payloads(ds + [d]) == Payloads(ds) + d.payload
  {
    if ds == [] {
      assert [d][1..] == [];
    } else {
      assert (ds + [d])[1..] == ds[1..] + [d];
      PayloadsSnoc(ds[1..], d);
    }
  }

  /** How many datagrams a response of n bytes takes: one even for an empty one. */
  function Shots(n: nat): nat {
    if n == 0 then 1 else Needed(n)
  }

  /** Where the data of a response is after some attempts: in the datagrams sent, and still pending. */
  ghost predicate Split(ds: seq<Datagram>, pend: seq<byte>, data: seq<byte>) {
    Payloads(ds) + pend == data
  }

  lemma SplitStep(ds: seq<Datagram>, pend: seq<byte>, data: seq<byte>, d: Datagram)
    requires Split(ds, pend, data) && d.payload <= pend
    ensures Split(ds + [d], pend[|d.payload|..], data)
  {
    PayloadsSnoc(ds, d);
    assert d.payload + pend[|d.payload|..] == pend;
  }

  lemma CarryReads(ds: seq<Datagram>, requestId: nat, total: nat, ns: seq<nat>)
    requires Carry(ds, requestId, total, ns)
    ensures |ds| == |ns| && forall k :: 0 <= k < |ds| ==> Reads(ds[k], requestId, ns[k], total)
  {
    forall k | 0 <= k < |ds| ensures Reads(ds[k], requestId, ns[k], total) { HeaderReads(requestId, ns[k], total); }
  }

  lemma CarryStep(ds: seq<Datagram>, requestId: nat, total: nat, ns: seq<nat>, d: Datagram, n: nat)
    requires Carry(ds, requestId, total, ns) && d.header == Header(requestId, n, total)
    ensures Carry(ds + [d], requestId, total, ns + [n])
  {
  }

  /** What is left once the attempt took place. */
  function After(took: bool, rest: seq<byte>): seq<byte> {
    if took then rest[|FirstPart(rest)|..] else rest
  }

  /** One attempt: number i.  The datagram goes out or not; the last one finishes the response. */
  method TryOnce(c: Conn, s: DatagramSocket, ghost id: nat, ghost total: nat, ghost i: nat)
    returns (done: bool, ghost sent: seq<Datagram>)
    requires c.Valid() && c.chain != [] && Tried(c.recs[0], id, total, i, |c.pend[0]|)
    modifies c`respHead, c`resp, c`chain, c`recs, c`pend, c`finished, c.chain`iov, c.chain`tosend
    modifies c.chain`udpTotal, c.chain`udpSequence, s`calls, s`sent
    ensures c.Valid() && |old(c.pend)| > 0
    ensures s.calls == old(s.calls) + 1 && s.sent == old(s.sent) + sent
    ensures Shot(s.script(old(s.calls)) >= 0, sent, id, total, i, old(c.pend)[0])
    ensures done <==> sent != [] && |old(c.pend)[0]| <= UDP_DATA_SIZE
    ensures done ==> |c.finished| > |old(c.finished)|
    ensures !done ==> c.chain == old(c.chain) && c.finished == old(c.finished)
    ensures !done ==> |c.recs| == |c.pend| == |c.chain|
    ensures !done ==> Tried(c.recs[0], id, total, i + 1, |c.pend[0]|)
    ensures !done ==> c.pend[0] == After(s.script(old(s.calls)) >= 0, old(c.pend)[0])
  {
    ghost var h, left := c.recs[0], |c.pend[0]|;
    assert c.Link(0);
    var last := c.respHead.tosend <= UDP_DATA_SIZE;
    var r;
    ghost var p;
    r, p := SendDatagram(c, s);
    done := last && !r.SoftError? && !r.HardError?;
    sent := if s.script(old(s.calls)) < 0 then [] else [DatagramOf(h, p)];
    if !done {
      assert Owes(c.recs[0], c.pend[0]);
      TriedStep(h, id, total, i, left, c.recs[0]);
    }
  }

  /** Call j from `start` on succeeds. */
  predicate Took(script: nat -> int, start: nat, j: nat) {
    script(start + j) >= 0
  }

  /** Attempt i got out iff taken[i]. */
  ghost predicate TakenAs(script: nat -> int, start: nat, taken: seq<bool>) {
    forall i {:trigger Took(script, start, i)} :: 0 <= i < |taken| ==> taken[i] == Took(script, start, i)
  }

  lemma TakenSnoc(script: nat -> int, start: nat, taken: seq<bool>)
    requires TakenAs(script, start, taken)
    ensures TakenAs(script, start, taken + [Took(script, start, |taken|)])
  {
  }

  /** What a series of attempts leads to: which of them got out, and the datagrams that did. */
  ghost predicate Series(taken: seq<bool>, ds: seq<Datagram>, id: nat, total: nat, data: seq<byte>, pend: seq<byte>) {
    && Carry(ds, id, total, Numbers(taken)) && Split(ds, pend, data)
  }

  /** What attempt i sends of the data that is pending. */
  ghost predicate Shot(took: bool, sent: seq<Datagram>, id: nat, total: nat, i: nat, pend: seq<byte>) {
    if took then
      |sent| == 1 && sent[0].header == Header(id, i % 65536, total) && sent[0].payload == FirstPart(pend)
    else
      sent == []
  }

  lemma SeriesStep(taken: seq<bool>, ds: seq<Datagram>, id: nat, total: nat, data: seq<byte>, pend: seq<byte>,
                   took: bool, sent: seq<Datagram>)
    requires Series(taken, ds, id, total, data, pend)
    requires Shot(took, sent, id, total, |taken|, pend)
    ensures Series(taken + [took], ds + sent, id, total, data, if took then pend[|FirstPart(pend)|..] else pend)
  {
    NumbersSnoc(taken, took);
    if took {
      assert sent == [sent[0]];
      CarryStep(ds, id, total, Numbers(taken), sent[0], |taken| % 65536);
      SplitStep(ds, pend, data, sent[0]);
    } else {
      assert ds + [] == ds && Numbers(taken) + [] == Numbers(taken);
    }
  }

  /** A series of attempts on a response, finished or with `rest` still to be sent. */
  ghost predicate Stage(script: nat -> int, start: nat, taken: seq<bool>, ds: seq<Datagram>,
                        id: nat, total: nat, data: seq<byte>, rest: seq<byte>, done: bool) {
    && TakenAs(script, start, taken) && Series(taken, ds, id, total, data, rest)
    && if done then rest == [] && Successes(taken) == Shots(|data|) && taken != [] && taken[|taken| - 1]
       else Successes(taken) + Shots(|rest|) == Shots(|data|)
  }

  lemma StageStep(script: nat -> int, start: nat, taken: seq<bool>, ds: seq<Datagram>,
                  id: nat, total: nat, data: seq<byte>, rest: seq<byte>, sent: seq<Datagram>)
    requires Stage(script, start, taken, ds, id, total, data, rest, false)
    requires Shot(Took(script, start, |taken|), sent, id, total, |taken|, rest)
    ensures var took := Took(script, start, |taken|);
            Stage(script, start, taken + [took], ds + sent, id, total, data, After(took, rest),
                  took && |rest| <= UDP_DATA_SIZE)
  {
    var took := Took(script, start, |taken|);
    SeriesStep(taken, ds, id, total, data, rest, took, sent);
    NumbersSnoc(taken, took);
    TakenSnoc(script, start, taken);
    NeededIsCeiling(|rest|);
  }

  /** It is done exactly when as many datagrams as the response takes got out. */
  lemma StageEnd(script: nat -> int, start: nat, taken: seq<bool>, ds: seq<Datagram>,
                 id: nat, total: nat, data: seq<byte>, rest: seq<byte>, done: bool)
    requires Stage(script, start, taken, ds, id, total, data, rest, done)
    ensures |ds| == Successes(taken) && Payloads(ds) <= data
    ensures done <==> Successes(taken) == Shots(|data|)
    ensures done ==> Payloads(ds) == data
    ensures done && |taken| <= USHRT_MAX ==> (Consecutive(Numbers(taken)) <==> |taken| == Shots(|data|))
  {
    SuccessesBound(taken);
    NeededIsCeiling(|rest|);
    if done {
      assert Payloads(ds) + [] == Payloads(ds);
      if |taken| <= USHRT_MAX { SeriesSurvives(taken); }
    }
  }

  /** The loop of attempts. */
  method TrySeries(c: Conn, s: DatagramSocket, m: nat, ghost id: nat, ghost total: nat)
    returns (done: bool, ghost taken: seq<bool>, ghost ds: seq<Datagram>, ghost rest: seq<byte>)
    requires c.Valid() && c.chain != [] && |c.recs| == |c.pend| && Tried(c.recs[0], id, total, 0, |c.pend[0]|)
    modifies c`respHead, c`resp, c`chain, c`recs, c`pend, c`finished, c.chain`iov, c.chain`tosend
    modifies c.chain`udpTotal, c.chain`udpSequence, s`calls, s`sent
    ensures c.Valid() && |old(c.pend)| > 0
    ensures Stage(s.script, old(s.calls), taken, ds, id, total, old(c.pend)[0], rest, done)
    ensures |taken| <= m && (!done ==> |taken| == m) && s.sent == old(s.sent) + ds
    ensures done ==> |c.finished| > |old(c.finished)|
  {
    ghost var data, start := c.pend[0], s.calls;
    rest := data;
    done, taken, ds := false, [], [];
    var i := 0;
    while !done && i < m
      invariant c.Valid() && |taken| == i <= m && s.calls == start + i && s.sent == old(s.sent) + ds
      invariant Stage(s.script, start, taken, ds, id, total, data, rest, done)
      invariant !done ==> c.chain == old(c.chain) && c.finished == old(c.finished)
      invariant !done ==> |c.recs| == |c.chain| == |c.pend| && rest == c.pend[0]
      invariant !done ==> Tried(c.recs[0], id, total, i, |rest|)
      invariant done ==> |c.finished| > |old(c.finished)|
      decreases m - i
    {
      ghost var sent;
      done, sent := TryOnce(c, s, id, total, i);
      StageStep(s.script, start, taken, ds, id, total, data, rest, sent);
      ghost var took := Took(s.script, start, i);
      taken, ds, rest := taken + [took], ds + sent, After(took, rest);
      i := i + 1;
    }
  }

  /** Up to m attempts to send a plain response, until it is done.  It is done exactly when as many datagrams as
      it takes got out; their payloads are the response then.  They are numbered by attempt, so that the numbers
      are consecutive exactly when no attempt failed: for one datagram as for many. */
  method Attempts(c: Conn, s: DatagramSocket, m: nat)
    returns (done: bool, ghost taken: seq<bool>, ghost ds: seq<Datagram>)
    requires c.Valid() && c.chain != []
    requires !c.recs[0].skip && c.recs[0].chunkedDataIov == 0
    requires c.recs[0].udpTotal == 0 && c.recs[0].udpSequence == 0
    modifies c`respHead, c`resp, c`chain, c`recs, c`pend, c`finished, c.chain`iov, c.chain`tosend
    modifies c.chain`udpTotal, c.chain`udpSequence, s`calls, s`sent
    ensures c.Valid() && |taken| <= m && (!done ==> |taken| == m) && TakenAs(s.script, old(s.calls), taken)
    ensures 0 < |old(c.recs)| == |old(c.pend)| && old(c.recs)[0].tosend == |old(c.pend)[0]|
    ensures s.sent == old(s.sent) + ds && |ds| == Successes(taken)
    ensures Carry(ds, old(c.recs)[0].requestId, TotalOf(old(c.recs)[0]), Numbers(taken)) && |Numbers(taken)| == |ds|
    ensures forall k :: 0 <= k < |ds| ==>
              Reads(ds[k], old(c.recs)[0].requestId, Numbers(taken)[k], TotalOf(old(c.recs)[0]))
    ensures Payloads(ds) <= old(c.pend)[0]
    ensures done <==> Successes(taken) == Shots(|old(c.pend)[0]|)
    ensures done ==> Payloads(ds) == old(c.pend)[0] && |c.finished| > |old(c.finished)|
    ensures done && |taken| <= USHRT_MAX ==> (Consecutive(Numbers(taken)) <==> |taken| == Shots(|old(c.pend)[0]|))
  {
    assert Owes(c.recs[0], c.pend[0]);
    ghost var id, total, data, start := c.recs[0].requestId, TotalOf(c.recs[0]), c.pend[0], s.calls;
    assert Payloads([]) + data == data;
    ghost var rest;
    done, taken, ds, rest := TrySeries(c, s, m, id, total);
    StageEnd(s.script, start, taken, ds, id, total, data, rest, done);
    CarryReads(ds, id, total, Numbers(taken));
  }
}
