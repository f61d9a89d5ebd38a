/** Sending over a stream socket: whatever prefixes the socket accepts, the peer reads exactly the
    responses, in order. */
module TcpOutput {
  import opened Bytes
  import opened OutputPipeline

  datatype TransmitResult = Complete | Incomplete | SoftError | HardError

  /** A stream socket.  `script` says how many bytes each call of sendmsg would take, or that it fails:
      -1 for a call that would block, anything lower for every other error. */
  class StreamSocket {
    const script: nat -> int
    var calls: nat
    var sent: seq<byte>     // what the peer gets to read

    constructor (script: nat -> int)
      ensures this.script == script && calls == 0 && sent == []
    {
      this.script := script;
      calls, sent := 0, [];
    }

    method SendMsg(v: seq<Slice>) returns (res: int)
      requires AllOk(v)
      modifies this`calls, this`sent
      ensures calls == old(calls) + 1
      ensures res == var want := script(old(calls)); if want < |Gather(v)| then want else |Gather(v)|
      ensures sent == old(sent) + if res < 0 then [] else Gather(v)[..res]
    {
      var data := Gather(v);
      var want := script(calls);
      calls := calls + 1;
      res := if want < |data| then want else |data|;
      if res >= 0 {
        sent := sent + data[..res];
      }
    }
  }

  /** A socket that takes res bytes of an offered prefix of the stream leaves sent plus pending as it
      was. */
  lemma SentPlusPending(sent: seq<byte>, stream: seq<byte>, offered: seq<byte>, res: nat)
    requires offered <= stream && res <= |offered|
    ensures sent + offered[..res] + Rest(stream, res) == sent + stream
  {
    assert offered[..res] == stream[..res];
  }

  lemma NothingPending(pend: seq<seq<byte>>)
    requires Flatten(pend) == []
    ensures pend != [] ==> pend[0] == []
  {
    if pend != [] { FlattenHead(pend); }
  }

  /** Drops from the chain what a socket took of the vector it was offered. */
  method DropSent(c: Conn, ghost offered: seq<byte>, res: nat, ghost sent: seq<byte>)
    requires c.Valid() && offered <= c.Stream() && res <= |offered|
    requires c.pend != [] && c.pend[0] != [] ==> offered != []
    modifies c`respHead, c`resp, c`chain, c`recs, c`pend, c`finished, c.chain`iov, c.chain`tosend
    ensures c.Valid() && sent + offered[..res] + c.Stream() == sent + old(c.Stream())
    ensures c.finished + c.chain == old(c.finished) + old(c.chain)
    ensures exists k :: 0 <= k <= |old(c.chain)| && c.chain == old(c.chain)[k..]
    ensures res > 0 || offered == [] ==> c.chain == [] || |c.Stream()| + |c.chain| < |old(c.Stream())| + |old(c.chain)|
    ensures offered == old(c.Stream()) && res == |offered| ==> c.chain == [] && c.Stream() == []
  {
    SentPlusPending(sent, c.Stream(), offered, res);
    ghost var k := c.TransmitPost(res);
    MoveOver(old(c.finished), old(c.chain), k);
    if c.Stream() == [] { NothingPending(c.pend); }
  }

  /** One attempt to send what is pending.  No byte is lost, repeated or reordered, and responses are
      finished in the order of the chain. */
  method Transmit(c: Conn, s: StreamSocket) returns (r: TransmitResult)
    requires c.Valid()
    modifies c`respHead, c`resp, c`chain, c`recs, c`pend, c`finished, c.chain`iov, c.chain`tosend
    modifies s`calls, s`sent
    ensures c.Valid()
    ensures s.sent + c.Stream() == old(s.sent) + old(c.Stream())
    ensures c.finished + c.chain == old(c.finished) + old(c.chain)
    ensures |c.chain| <= |old(c.chain)| && forall i :: 0 <= i < |c.chain| ==> c.chain[i] in old(c.chain)
    ensures r == Complete ==> c.chain == [] && c.Stream() == []
    ensures r == Incomplete ==> c.chain != []
    ensures r == Incomplete && s.script(old(s.calls)) != 0 ==>
              |c.Stream()| + |c.chain| < |old(c.Stream())| + |old(c.chain)|
    ensures r.SoftError? || r.HardError? ==>
              c.recs == old(c.recs) && c.pend == old(c.pend) && s.sent == old(s.sent)
    ensures if s.calls == old(s.calls) then r == Complete && old(c.Stream()) == []
            else s.calls == old(s.calls) + 1 && (r.SoftError? <==> s.script(old(s.calls)) == -1) &&
                 (r.HardError? <==> s.script(old(s.calls)) < -1)
  {
    ghost var stream, pend := c.Stream(), c.pend;
    var v := c.TransmitPre(0, false);
    ghost var offered := Gather(v);
    assert pend[..|pend|] == pend;
    if |v| == 0 {
      // Only skipped or empty responses: no system call.
      DropSent(c, offered, 0, s.sent);
      return Complete;
    }
    var res := s.SendMsg(v);
    if res >= 0 {
      DropSent(c, offered, res, old(s.sent));
      return if c.respHead != null then Incomplete else Complete;
    }
    return if res == -1 then SoftError else HardError;
  }

  /** Sending until everything is out, the socket would block, or it fails, as the connection state
      machine does.  Each send takes at least one byte or fails. */
  method Flush(c: Conn, s: StreamSocket) returns (r: TransmitResult)
    requires c.Valid() && forall k :: s.script(k) != 0
    modifies c`respHead, c`resp, c`chain, c`recs, c`pend, c`finished, c.chain`iov, c.chain`tosend
    modifies s`calls, s`sent
    ensures c.Valid() && !r.Incomplete?
    ensures s.sent + c.Stream() == old(s.sent) + old(c.Stream())
    ensures c.finished + c.chain == old(c.finished) + old(c.chain)
    ensures r == Complete ==> c.chain == [] && c.Stream() == []
  {
    r := Transmit(c, s);
    while r.Incomplete?
      invariant c.Valid()
      invariant s.sent + c.Stream() == old(s.sent) + old(c.Stream())
      invariant c.finished + c.chain == old(c.finished) + old(c.chain)
      invariant forall i :: 0 <= i < |c.chain| ==> c.chain[i] in old(c.chain)
      invariant r == Complete ==> c.chain == [] && c.Stream() == []
      decreases |c.Stream()| + |c.chain|, r.Incomplete?
    {
      r := Transmit(c, s);
    }
  }
}
