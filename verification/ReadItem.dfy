/** Reading the value of a storage command from a TCP connection, and throwing away what is left of it
    when the memory runs out. */
module ReadItem {
  import opened Bytes
  import opened ChunkCopy

  /** What a read gives: bytes, the end of the stream, or one of the failures.  OutOfMemory comes from the
      chunk allocator. */
  datatype ReadResult = Got(n: nat) | EndOfStream | WouldBlock | Failed | OutOfMemory

  /** The value may still become complete, or has to be swallowed. */
  predicate Goes(res: ReadResult) {
    res.Got? || res.WouldBlock? || res.OutOfMemory?
  }

  /** The receiving end of a stream.  `script` says how many bytes each read would return: 0 at the end of
      the stream, -1 when it would block, anything lower for other errors. */
  class Source {
    const stream: seq<byte>
    const script: nat -> int
    var pos: nat
    var calls: nat

    constructor (stream: seq<byte>, script: nat -> int)
      ensures this.stream == stream && this.script == script && pos == 0 && calls == 0
    {
      this.stream, this.script := stream, script;
      pos, calls := 0, 0;
    }

    /** The bytes that have not been read. */
    ghost function Rest(): seq<byte>
      reads this`pos
      requires pos <= |stream|
    {
      stream[pos..]
    }

    /** The stream does not end and does not fail: every read brings something or would block. */
    ghost predicate Flows() {
      forall k :: script(k) > 0 || script(k) == -1
    }

    /** Reads took place, the last of which would block, failed, or met the end, if that is the result. */
    twostate predicate Went(res: ReadResult)
      reads this`calls
    {
      && calls >= old(calls)
      && (res.WouldBlock? ==> calls > old(calls) && script(calls - 1) == -1)
      && (res.Failed? ==> calls > old(calls) && script(calls - 1) < -1)
      && (res.EndOfStream? ==> calls > old(calls) && script(calls - 1) >= 0)
    }

    method Read(room: nat) returns (res: ReadResult, bytes: seq<byte>)
      requires pos <= |stream|
      modifies this`pos, this`calls
      ensures pos <= |stream| && calls == old(calls) + 1
      ensures old(Rest()) == bytes + Rest()
      ensures res == if bytes != [] then Got(|bytes|) else if script(old(calls)) >= 0 then EndOfStream
                     else if script(old(calls)) == -1 then WouldBlock else Failed
      ensures |bytes| <= room && Went(res)
      ensures Flows() && room > 0 && old(Rest()) != [] ==> Goes(res)
    {
      var want := script(calls);
      calls := calls + 1;
      if want < 0 {
        return if want == -1 then WouldBlock else Failed, [];
      }
      var n := if want < room then want else room;
      if |stream| - pos < n {
        n := |stream| - pos;
      }
      bytes := stream[pos..pos + n];
      pos := pos + n;
      res := if n == 0 then EndOfStream else Got(n);
    }
  }

  /** The states of a connection that receives a value.  Complete: the item is handed to the command that
      wants it. */
  datatype State = Nread | Swallow | Complete | NewCmd | Closing

  class Connection {
    const binary: bool
    var state: State
    var rbuf: seq<byte>
    var rcurr: nat          // where the unparsed part of rbuf begins
    var rbytes: nat         // how long it is
    var rlbytes: int        // bytes of the value still to be read
    var sbytes: int         // bytes still to be swallowed
    var item: Item
    var at: nat             // ritem for a flat item
    var ritem: Chunk?       // ritem for a chunked item
    ghost var swallowed: seq<byte>

    ghost predicate Valid()
      reads this, item, item.objs
    {
      && rcurr + rbytes <= |rbuf| && item.Valid()
      && (state == Nread ==> swallowed == [] && if item.chunked then
            && item.chain != [] && ritem == item.chain[|item.chain| - 1]
            && (rlbytes > 0 ==> item.Packed())
          else at + rlbytes <= |item.flat|)
      && (!item.chunked ==> at <= |item.flat|)
    }

    /** After running out of memory there is no chunk to go on with. */
    ghost predicate After(res: ReadResult)
      reads this, item, item.objs
    {
      if res.OutOfMemory? then rcurr + rbytes <= |rbuf| && item.Valid() else Valid()
    }

    /** What has arrived in the item. */
    ghost function Stored(): seq<byte>
      reads this`item, this`at, item`flat, item`bytes
      requires !item.chunked ==> at <= |item.flat|
    {
      if item.chunked then item.bytes else item.flat[..at]
    }

    /** The input that has arrived in the read buffer only. */
    ghost function Unread(): seq<byte>
      reads this`rbuf, this`rcurr, this`rbytes
      requires rcurr + rbytes <= |rbuf|
    {
      rbuf[rcurr..rcurr + rbytes]
    }

    /** How much of the value is still to come. */
    function Left(): int
      reads this`state, this`rlbytes, this`sbytes
    {
      if state == Nread || state == Complete then rlbytes else sbytes
    }

    /** A connection that is about to receive a value of n bytes into an item; without an item, it is to
        swallow the value. */
    constructor (binary: bool, rbuf: seq<byte>, rbytes: nat, item: Item, n: nat, noMemory: bool)
      requires rbytes <= |rbuf| && item.Valid() && item.Packed()
      requires if item.chunked then item.Data() == [] else n <= |item.flat|
      ensures Valid() && fresh(this) && this.item == item && Stored() == [] && swallowed == [] && Left() == n
      ensures Unread() == rbuf[..rbytes] && state == if noMemory then Swallow else Nread
    {
      this.binary, this.rbuf, this.rcurr, this.rbytes, this.item := binary, rbuf, 0, rbytes, item;
      state := if noMemory then Swallow else Nread;
      rlbytes, sbytes, at := n, n, 0;
      ritem := item.head;
      swallowed := [];
      new;
      if item.chunked {
        this.ritem := LastChunk(item);
      }
    }

    /** Takes up to n bytes from the read buffer. */
    method TakeLeftover(n: nat) returns (bytes: seq<byte>)
      requires rcurr + rbytes <= |rbuf|
      modifies this`rcurr, this`rbytes
      ensures rcurr + rbytes <= |rbuf| && old(Unread()) == bytes + Unread()
      ensures |bytes| == if old(rbytes) > n then n else old(rbytes)
    {
      var tocopy := if rbytes > n then n else rbytes;
      bytes := rbuf[rcurr..rcurr + tocopy];
      rcurr := rcurr + tocopy;
      rbytes := rbytes - tocopy;
    }

    /** The bytes of the input that neither the item nor the void has got yet. */
    ghost function Upcoming(s: Source): seq<byte>
      reads this`rbuf, this`rcurr, this`rbytes, s`pos
      requires rcurr + rbytes <= |rbuf| && s.pos <= |s.stream|
    {
      Unread() + s.Rest()
    }

    /** The next bytes of the input: from the read buffer if there are any, otherwise from the socket.
        `total` bytes have been read before. */
    method NextBytes(room: nat, total: nat, s: Source) returns (res: ReadResult, bytes: seq<byte>)
      requires rcurr + rbytes <= |rbuf| && s.pos <= |s.stream| && room > 0
      modifies this`rcurr, this`rbytes, s`pos, s`calls
      ensures rcurr + rbytes <= |rbuf| && s.pos <= |s.stream|
      ensures old(Upcoming(s)) == bytes + Upcoming(s) && |bytes| <= room
      ensures res.Got? <==> bytes != []
      ensures res.Got? ==> res.n > 0
      ensures !res.Got? ==> Unread() == [] && !res.OutOfMemory?
      ensures s.Went(res)
      ensures s.Flows() && old(Upcoming(s)) != [] ==> Goes(res)
    {
      if rbytes > 0 {
        bytes := TakeLeftover(room);
        res := Got(|bytes|);
      } else {
        res, bytes := s.Read(room);
        if res.Got? {
          res := Got(total + res.n);
        }
      }
    }

    /** Brings bytes to the last chunk, which has room. */
    method ReadIntoChunk(ch: Chunk, total: nat, s: Source) returns (res: ReadResult, ghost bytes: seq<byte>)
      requires Valid() && s.pos <= |s.stream| && state == Nread && item.chunked && ch == ritem
      requires ch.used < |ch.data| && rlbytes > 0
      modifies this`rcurr, this`rbytes, this`rlbytes, s`pos, s`calls
      modifies item`content, item`bytes, ch`data, ch`used
      ensures Valid() && s.pos <= |s.stream| && item.chain == old(item.chain)
      ensures item.bytes == old(item.bytes) + bytes && old(Upcoming(s)) == bytes + Upcoming(s)
      ensures rlbytes == old(rlbytes) - |bytes| && 0 <= rlbytes
      ensures res.Got? <==> bytes != []
      ensures res.Got? ==> res.n > 0
      ensures s.Went(res)
      ensures !res.OutOfMemory? && (s.Flows() && old(Upcoming(s)) != [] ==> Goes(res))
    {
      assert item.Link(|item.chain| - 1);
      var unused := |ch.data| - ch.used;
      var taken;
      res, taken := NextBytes(if rlbytes > unused then unused else rlbytes, total, s);
      bytes := taken;
      Fill(item, ch, taken);
      rlbytes := rlbytes - |taken|;
    }

    /** A round either reads something or makes room for reading. */
    ghost function Work(): int
      reads this`rlbytes, this`ritem, ritem
    {
      2 * rlbytes + if ritem != null && ritem.used < |ritem.data| then 0 else 1
    }

    /** One round: chains another chunk behind a full one, or reads into the last chunk. */
    method ReadRound(total: nat, s: Source, m: ChunkMemory) returns (res: ReadResult, ghost bytes: seq<byte>)
      requires Valid() && s.pos <= |s.stream| && state == Nread && item.chunked && rlbytes > 0 && m.max > 0
      modifies this`rcurr, this`rbytes, this`rlbytes, this`ritem, s`pos, s`calls, m`pulls, m`fails
      modifies item`chain, item`content, item`objs, item`bytes, ritem`data, ritem`used, ritem`next
      ensures After(res) && s.pos <= |s.stream|
      ensures item.objs >= old(item.objs) && fresh(item.objs - old(item.objs))
      ensures item.bytes == old(item.bytes) + bytes && old(Upcoming(s)) == bytes + Upcoming(s)
      ensures rlbytes == old(rlbytes) - |bytes| && 0 <= rlbytes
      ensures m.fails == old(m.fails) + if res.OutOfMemory? then 1 else 0
      ensures res.Got? ==> Work() < old(Work()) && (rlbytes == 0 ==> res.n > 0)
      ensures s.Went(res)
      ensures s.Flows() && old(Upcoming(s)) != [] ==> Goes(res)
    {
      var ch: Chunk := ritem;
      assert ch in item.objs && item.Link(|item.chain| - 1);
      if |ch.data| == ch.used {
        bytes := [];
        res := Got(total);
        ritem := AllocChunk(item, ch, rlbytes + (if binary then 2 else 0), m);
        if ritem == null {
          res := OutOfMemory;
        }
      } else {
        res, bytes := ReadIntoChunk(ch, total, s);
      }
    }

    /** Another round, after `before` has moved from the input into the item. */
    method FillOn(n: nat, s: Source, m: ChunkMemory, ghost had: seq<byte>, ghost input: seq<byte>,
                  ghost before: seq<byte>)
      returns (res: ReadResult, ghost bytes: seq<byte>)
      requires Valid() && s.pos <= |s.stream| && state == Nread && item.chunked && rlbytes > 0 && m.max > 0
      requires item.bytes == had + before && input == before + Upcoming(s)
      modifies this`rcurr, this`rbytes, this`rlbytes, this`ritem, s`pos, s`calls, m`pulls, m`fails
      modifies item`chain, item`content, item`objs, item`bytes, ritem`data, ritem`used, ritem`next
      ensures After(res) && s.pos <= |s.stream|
      ensures item.objs >= old(item.objs) && fresh(item.objs - old(item.objs))
      ensures item.bytes == had + bytes && input == bytes + Upcoming(s)
      ensures rlbytes == old(rlbytes) + |before| - |bytes| && 0 <= rlbytes
      ensures m.fails == old(m.fails) + if res.OutOfMemory? then 1 else 0
      ensures res.Got? ==> Work() < old(Work()) && (rlbytes == 0 ==> res.n > 0)
      ensures s.Went(res)
      ensures s.Flows() && |input| >= old(rlbytes) + |before| ==> Goes(res)
    {
      ghost var more;
      res, more := ReadRound(n, s, m);
      Regroup(had, before, more, Upcoming(s));
      bytes := before + more;
    }

    /** Fills the chunks of an item, chaining more as needed, until the value is complete or something
        stands in the way. */
    method FillChunks(s: Source, m: ChunkMemory) returns (total: ReadResult, ghost bytes: seq<byte>)
      requires Valid() && s.pos <= |s.stream| && state == Nread && item.chunked && rlbytes > 0 && m.max > 0
      modifies this`rcurr, this`rbytes, this`rlbytes, this`ritem, s`pos, s`calls, m`pulls, m`fails
      modifies item`chain, item`content, item`objs, item`bytes, item.objs`data, item.objs`used, item.objs`next
      ensures After(total) && s.pos <= |s.stream|
      ensures fresh(item.objs - old(item.objs))
      ensures item.bytes == old(item.bytes) + bytes && old(Upcoming(s)) == bytes + Upcoming(s)
      ensures rlbytes == old(rlbytes) - |bytes| && 0 <= rlbytes
      ensures m.fails == old(m.fails) + if total.OutOfMemory? then 1 else 0
      ensures total.Got? ==> rlbytes == 0 && total.n > 0
      ensures s.Went(total)
      ensures s.Flows() && |old(Upcoming(s))| >= old(rlbytes) ==> Goes(total)
    {
      total, bytes := Got(0), [];
      while rlbytes > 0 && total.Got?
        invariant After(total) && s.pos <= |s.stream|
        invariant item.objs >= old(item.objs) && fresh(item.objs - old(item.objs))
        invariant item.bytes == old(item.bytes) + bytes && old(Upcoming(s)) == bytes + Upcoming(s)
        invariant rlbytes == old(rlbytes) - |bytes| && 0 <= rlbytes
        invariant m.fails == old(m.fails) + if total.OutOfMemory? then 1 else 0
        invariant rlbytes == 0 && total.Got? ==> total.n > 0
        invariant s.Went(total)
        invariant s.Flows() && |old(Upcoming(s))| >= old(rlbytes) ==> Goes(total)
        decreases if total.Got? then 1 else 0, Work()
      {
        assert ritem in item.objs;
        total, bytes := FillOn(total.n, s, m, old(item.bytes), old(Upcoming(s)), bytes);
      }
    }

    /** The whole of reading into a chunked item: a value of the binary protocol needs room for two more
        bytes behind it. */
    method ReadIntoChunkedItem(s: Source, m: ChunkMemory) returns (total: ReadResult, ghost bytes: seq<byte>)
      requires Valid() && s.pos <= |s.stream| && state == Nread && item.chunked && rlbytes > 0 && m.max > 0
      modifies this`rcurr, this`rbytes, this`rlbytes, this`ritem, s`pos, s`calls, m`pulls, m`fails
      modifies item`chain, item`content, item`objs, item`bytes, item.objs`data, item.objs`used, item.objs`next
      ensures After(total) && s.pos <= |s.stream|
      ensures fresh(item.objs - old(item.objs))
      ensures item.bytes == old(item.bytes) + bytes && old(Upcoming(s)) == bytes + Upcoming(s)
      ensures rlbytes == old(rlbytes) - |bytes| && 0 <= rlbytes
      ensures m.fails == old(m.fails) + if total.OutOfMemory? then 1 else 0
      ensures total.Got? ==> rlbytes == 0 && total.n > 0
      ensures total.Got? && binary && m.max >= 2 ==> ritem != null && |ritem.data| - ritem.used >= 2
      ensures s.Went(total)
      ensures s.Flows() && |old(Upcoming(s))| >= old(rlbytes) ==> Goes(total)
    {
      total, bytes := FillChunks(s, m);
      if rlbytes == 0 && binary && total.Got? {
        total := ReserveCrlf(total.n, m);
      }
    }

    /** Makes sure that there is room for two bytes behind the value. */
    method ReserveCrlf(n: nat, m: ChunkMemory) returns (total: ReadResult)
      requires item.Valid() && item.chunked && item.chain != [] && ritem == item.chain[|item.chain| - 1]
      requires m.max > 0 && n > 0
      modifies this`ritem, m`pulls, m`fails
      modifies item`chain, item`content, item`objs, item.objs`next
      ensures item.Valid() && item.bytes == old(item.bytes) && fresh(item.objs - old(item.objs))
      ensures m.fails == old(m.fails) + if total.OutOfMemory? then 1 else 0
      ensures total == OutOfMemory || (total == Got(n) && item.chain != [] && ritem == item.chain[|item.chain| - 1])
      ensures total.Got? && m.max >= 2 ==> ritem != null && |ritem.data| - ritem.used >= 2
    {
      total := Got(n);
      var ch: Chunk := ritem;
      assert ch in item.objs && item.Link(|item.chain| - 1);
      if |ch.data| - ch.used < 2 {
        ritem := AllocChunk(item, ch, 2, m);
        if ritem == null {
          total := OutOfMemory;
        }
      }
    }

    /** Where the input has gone: into the item, then into the void, and the rest is still to come.  What
        has gone and what is left make up the n bytes of the value. */
    ghost predicate Received(input: seq<byte>, n: int, s: Source)
      reads this, item, item.objs, s`pos
    {
      && Valid() && s.pos <= |s.stream|
      && Stored() + swallowed + Upcoming(s) == input
      && (state != Closing ==> |Stored()| + |swallowed| + Left() == n)
      && (state == Complete ==> rlbytes == 0 && swallowed == [])
      && (state == Swallow ==> sbytes >= 0)
      && (state == NewCmd ==> sbytes == 0)
    }

    /** Reads into a flat item: first what is in the read buffer, then from the socket. */
    method ReadIntoFlatItem(s: Source) returns (res: ReadResult, ghost bytes: seq<byte>)
      requires Valid() && s.pos <= |s.stream| && state == Nread && !item.chunked && rlbytes > 0
      modifies this`rcurr, this`rbytes, this`rlbytes, this`at, s`pos, s`calls, item`flat
      ensures Valid() && s.pos <= |s.stream|
      ensures Stored() == old(Stored()) + bytes && old(Upcoming(s)) == bytes + Upcoming(s)
      ensures rlbytes == old(rlbytes) - |bytes| && 0 <= rlbytes
      ensures !res.OutOfMemory? && (res.Got? ==> bytes != [])
      ensures s.Went(res)
      ensures s.Flows() && |old(Upcoming(s))| >= old(rlbytes) ==> Goes(res)
    {
      var taken := TakeLeftover(rlbytes);
      PutFlat(taken);
      bytes := taken;
      if rlbytes == 0 {
        return Got(|taken|), bytes;
      }
      assert Unread() == [] || rlbytes == 0;
      var more;
      res, more := PutFromSocket(s);
      bytes := bytes + more;
    }

    /** What the socket has comes next, once the read buffer is empty. */
    method PutFromSocket(s: Source) returns (res: ReadResult, bytes: seq<byte>)
      requires Valid() && s.pos <= |s.stream| && state == Nread && !item.chunked && rlbytes > 0
      modifies this`rlbytes, this`at, s`pos, s`calls, item`flat
      ensures Valid() && s.pos <= |s.stream|
      ensures Stored() == old(Stored()) + bytes && old(s.Rest()) == bytes + s.Rest()
      ensures rlbytes == old(rlbytes) - |bytes| && 0 <= rlbytes
      ensures !res.OutOfMemory? && (res.Got? <==> bytes != [])
      ensures s.Went(res)
      ensures s.Flows() && old(s.Rest()) != [] ==> Goes(res)
    {
      res, bytes := s.Read(rlbytes);
      PutFlat(bytes);
    }

    /** Appends bytes to a flat item. */
    method PutFlat(bytes: seq<byte>)
      requires Valid() && state == Nread && !item.chunked && |bytes| <= rlbytes
      modifies this`rlbytes, this`at, item`flat
      ensures Valid() && Stored() == old(Stored()) + bytes && rlbytes == old(rlbytes) - |bytes|
    {
      item.flat := Overwrite(item.flat, at, bytes);
      at := at + |bytes|;
      rlbytes := rlbytes - |bytes|;
      assert item.flat[..at] == old(item.flat[..at]) + bytes;
    }

    method ReadIntoItem(s: Source, m: ChunkMemory) returns (res: ReadResult, ghost bytes: seq<byte>)
      requires Valid() && s.pos <= |s.stream| && state == Nread && rlbytes > 0 && m.max > 0
      modifies this`rcurr, this`rbytes, this`rlbytes, this`at, this`ritem
      modifies s`pos, s`calls, m`pulls, m`fails, item, item.objs
      ensures After(res) && s.pos <= |s.stream| && fresh(item.objs - old(item.objs))
      ensures !item.chunked ==> at <= |item.flat|
      ensures Stored() == old(Stored()) + bytes && old(Upcoming(s)) == bytes + Upcoming(s)
      ensures rlbytes == old(rlbytes) - |bytes| && 0 <= rlbytes
      ensures m.fails == old(m.fails) + if res.OutOfMemory? then 1 else 0
      ensures res.Got? ==> bytes != []
      ensures s.Went(res)
      ensures s.Flows() && |old(Upcoming(s))| >= old(rlbytes) ==> Goes(res)
    {
      if !item.chunked {
        res, bytes := ReadIntoFlatItem(s);
      } else {
        res, bytes := ReadIntoChunkedItem(s, m);
      }
    }

    /** What the state machine makes of the result of a read. */
    method Settle(res: ReadResult, eventOk: bool) returns (stop: bool)
      requires After(res) && state == Nread && swallowed == [] && (!item.chunked ==> at <= |item.flat|)
      modifies this`state, this`sbytes
      ensures Valid() && (stop <==> res.WouldBlock? && eventOk)
      ensures state == if res.OutOfMemory? then Swallow else if res.Got? || stop then Nread else Closing
      ensures state == Swallow ==> sbytes == rlbytes
    {
      stop := false;
      match res {
        case Got(_) =>
        case EndOfStream =>
          state := Closing;
        case WouldBlock =>
          if eventOk { stop := true; } else { state := Closing; }
        case OutOfMemory =>
          sbytes := rlbytes;
          state := Swallow;
        case Failed =>
          state := Closing;
      }
    }

    /** Reads what there is of the value. */
    method ReadMore(s: Source, m: ChunkMemory, eventOk: bool) returns (stop: bool, ghost bytes: seq<byte>)
      requires Valid() && s.pos <= |s.stream| && state == Nread && rlbytes > 0 && m.max > 0
      modifies this`state, this`rcurr, this`rbytes, this`rlbytes, this`sbytes, this`at, this`ritem
      modifies s`pos, s`calls, m`pulls, m`fails, item, item.objs
      ensures Valid() && s.pos <= |s.stream| && fresh(item.objs - old(item.objs))
      ensures Stored() == old(Stored()) + bytes && old(Upcoming(s)) == bytes + Upcoming(s)
      ensures rlbytes == old(rlbytes) - |bytes| && 0 <= rlbytes
      ensures state in {Nread, Swallow, Closing} && m.fails == old(m.fails) + (if state == Swallow then 1 else 0)
      ensures state == Swallow ==> sbytes == rlbytes
      ensures if stop then state == Nread else state == Nread ==> bytes != []
      ensures s.calls >= old(s.calls) && (stop ==> s.calls > old(s.calls) && s.script(s.calls - 1) == -1)
      ensures stop ==> eventOk
      ensures state == Closing ==> s.calls > old(s.calls) && (s.script(s.calls - 1) != -1 || !eventOk)
      ensures s.Flows() && eventOk && |old(Upcoming(s))| >= old(rlbytes) ==> state != Closing
    {
      var res;
      res, bytes := ReadIntoItem(s, m);
      stop := Settle(res, eventOk);
    }

    /** The state conn_nread of the connection's state machine.  `stop` asks to wait for more input. */
    method NreadStep(s: Source, m: ChunkMemory, eventOk: bool, ghost input: seq<byte>, ghost n: int)
      returns (stop: bool)
      requires Received(input, n, s) && state == Nread && m.max > 0
      modifies this`state, this`rcurr, this`rbytes, this`rlbytes, this`sbytes, this`at, this`ritem
      modifies s`pos, s`calls, m`pulls, m`fails, item, item.objs
      ensures Received(input, n, s) && (stop ==> state == Nread)
      ensures fresh(item.objs - old(item.objs))
      ensures state in {Nread, Complete, Swallow, Closing}
      ensures m.fails == old(m.fails) + if state == Swallow then 1 else 0
      ensures state == Complete ==> old(rlbytes) == 0
      ensures rlbytes <= old(rlbytes) && (state == Nread && !stop ==> rlbytes < old(rlbytes))
      ensures (old(rlbytes) >= 0 ==> rlbytes >= 0) && (state == Swallow ==> sbytes == rlbytes)
      ensures s.calls >= old(s.calls) && (stop ==> s.calls > old(s.calls) && s.script(s.calls - 1) == -1)
      ensures stop ==> eventOk
      ensures state == Closing && old(rlbytes) >= 0 ==>
                s.calls > old(s.calls) && (s.script(s.calls - 1) != -1 || !eventOk)
      ensures s.Flows() && eventOk && 0 <= n <= |input| && old(rlbytes) >= 0 ==> state != Closing
    {
      stop := false;
      if rlbytes == 0 {
        state := Complete;
        return;
      }
      if rlbytes < 0 {
        state := Closing;
        return;
      }
      ghost var stored, bytes := Stored(), [];
      stop, bytes := ReadMore(s, m, eventOk);
      MovedIn(stored, swallowed, bytes, Upcoming(s));
    }

    /** Reads up to sbytes bytes and throws them away. */
    method SwallowSome(s: Source) returns (res: ReadResult, ghost bytes: seq<byte>)
      requires rcurr + rbytes <= |rbuf| && s.pos <= |s.stream| && sbytes > 0
      modifies this`rbuf, this`rcurr, this`rbytes, this`sbytes, this`swallowed, s`pos, s`calls
      ensures rcurr + rbytes <= |rbuf| && s.pos <= |s.stream|
      ensures swallowed == old(swallowed) + bytes && old(Upcoming(s)) == bytes + Upcoming(s)
      ensures sbytes == old(sbytes) - |bytes| && 0 <= sbytes && |rbuf| == |old(rbuf)|
      ensures !res.OutOfMemory? && (res.Got? ==> bytes != [])
      ensures s.Went(res)
      ensures s.Flows() && |rbuf| > 0 && old(Upcoming(s)) != [] ==> res.Got? || res.WouldBlock?
    {
      var taken;
      if rbytes > 0 {
        taken := TakeLeftover(sbytes);
        res := Got(|taken|);
      } else {
        res, taken := s.Read(if |rbuf| > sbytes then sbytes else |rbuf|);
        rbuf := Overwrite(rbuf, 0, taken);
      }
      bytes := taken;
      sbytes := sbytes - |taken|;
      swallowed := swallowed + taken;
    }

    /** The state conn_swallow of the connection's state machine. */
    method SwallowStep(s: Source, eventOk: bool, ghost input: seq<byte>, ghost n: int) returns (stop: bool)
      requires Received(input, n, s) && state == Swallow
      modifies this`state, this`rbuf, this`rcurr, this`rbytes, this`sbytes, this`swallowed, s`pos, s`calls
      ensures Received(input, n, s) && (stop ==> state == Swallow)
      ensures state in {Swallow, NewCmd, Closing} && Stored() == old(Stored()) && |rbuf| == |old(rbuf)|
      ensures sbytes <= old(sbytes) && (state == Swallow && !stop ==> sbytes < old(sbytes))
      ensures s.calls >= old(s.calls) && (stop ==> s.calls > old(s.calls) && s.script(s.calls - 1) == -1)
      ensures stop ==> eventOk
      ensures state == Closing ==> s.calls > old(s.calls) && (s.script(s.calls - 1) != -1 || !eventOk)
      ensures s.Flows() && eventOk && |rbuf| > 0 && n <= |input| ==> state != Closing
    {
      stop := false;
      if sbytes <= 0 {
        state := NewCmd;
        return;
      }
      ghost var gone := Stored() + swallowed;
      var res;
      ghost var bytes;
      res, bytes := SwallowSome(s);
      Moved(gone, bytes, Upcoming(s), old(Upcoming(s)));
      assert Stored() + swallowed == gone + bytes;
      stop := SettleSwallow(res, eventOk);
    }

    /** What the state machine makes of that. */
    method SettleSwallow(res: ReadResult, eventOk: bool) returns (stop: bool)
      requires state == Swallow
      modifies this`state
      ensures stop <==> res.WouldBlock? && eventOk
      ensures state == if res.Got? || stop then Swallow else Closing
    {
      stop := res.WouldBlock? && eventOk;
      if !stop && !res.Got? {
        state := Closing;
      }
    }

    /** How many more rounds there can be that do not wait. */
    function Due(): int
      reads this`state, this`rlbytes, this`sbytes
    {
      if state == Nread then rlbytes + 2 else if state == Swallow then sbytes + 1 else 0
    }

    /** One round of the state machine. */
    method Round(s: Source, m: ChunkMemory, eventOk: bool, ghost input: seq<byte>, ghost n: int) returns (stop: bool)
      requires Received(input, n, s) && m.max > 0 && n >= 0
      modifies this`state, this`rbuf, this`rcurr, this`rbytes, this`rlbytes, this`sbytes, this`at, this`ritem
      modifies this`swallowed, s`pos, s`calls, m`pulls, m`fails, item, item.objs
      ensures Received(input, n, s) && fresh(item.objs - old(item.objs)) && |rbuf| == |old(rbuf)|
      ensures m.fails >= old(m.fails) && (state == Swallow && old(state) == Nread ==> m.fails > old(m.fails))
      ensures state == Nread ==> old(state) == Nread
      ensures state == Swallow ==> old(state) in {Nread, Swallow}
      ensures state == NewCmd ==> old(state) in {Swallow, NewCmd}
      ensures state in {Nread, Swallow} ==> Due() + (if stop then 0 else 1) <= old(Due())
      ensures s.calls >= old(s.calls) && (stop ==> s.calls > old(s.calls) && s.script(s.calls - 1) == -1)
      ensures s.Flows() && eventOk && |rbuf| > 0 && n <= |input| && old(state) != Closing && old(Left()) >= 0 ==>
                state != Closing && Left() >= 0
    {
      stop := false;
      if state == Nread {
        stop := NreadStep(s, m, eventOk, input, n);
      } else if state == Swallow {
        stop := SwallowStep(s, eventOk, input, n);
      }
    }

    /** The same, with the reads that would block counted from call `start` on. */
    method CountedRound(s: Source, m: ChunkMemory, eventOk: bool, ghost input: seq<byte>, ghost n: int,
                        ghost start: nat)
      returns (stop: bool)
      requires Received(input, n, s) && m.max > 0 && n >= 0 && start <= s.calls
      modifies this`state, this`rbuf, this`rcurr, this`rbytes, this`rlbytes, this`sbytes, this`at, this`ritem
      modifies this`swallowed, s`pos, s`calls, m`pulls, m`fails, item, item.objs
      ensures Received(input, n, s) && fresh(item.objs - old(item.objs)) && |rbuf| == |old(rbuf)|
      ensures m.fails >= old(m.fails) && (state == Swallow && old(state) == Nread ==> m.fails > old(m.fails))
      ensures state == NewCmd ==> old(state) in {Swallow, NewCmd}
      ensures s.calls >= old(s.calls)
      ensures state in {Nread, Swallow} ==>
                && old(state) in {Nread, Swallow}
                && Due() + 1 + Blocked(s.script, start, old(s.calls)) <= old(Due()) + Blocked(s.script, start, s.calls)
      ensures s.Flows() && eventOk && |rbuf| > 0 && n <= |input| && old(state) != Closing && old(Left()) >= 0 ==>
                state != Closing && Left() >= 0
    {
      ghost var calls := s.calls;
      stop := Round(s, m, eventOk, input, n);
      BlockedGrows(s.script, start, calls, s.calls);
    }
  }

  /** Nothing that can go wrong does: the stream flows, the event loop obliges, and there is a read buffer. */
  ghost predicate AllWell(s: Source, events: nat -> bool, rbuf: seq<byte>) {
    s.Flows() && (forall i :: events(i)) && |rbuf| > 0
  }

  /** How many of the calls from a up to b would block. */
  function Blocked(script: nat -> int, a: nat, b: nat): nat
    decreases b
  {
    if b <= a then 0 else Blocked(script, a, b - 1) + if script(b - 1) == -1 then 1 else 0
  }

  lemma {:induction false} BlockedGrows(script: nat -> int, a: nat, b: nat, c: nat)
    requires a <= b <= c
    ensures Blocked(script, a, b) <= Blocked(script, a, c)
    ensures b < c && script(c - 1) == -1 ==> Blocked(script, a, b) < Blocked(script, a, c)
    decreases c
  {
    if b < c { BlockedGrows(script, a, b, c - 1); }
  }

  lemma {:induction false} NeverBlocked(script: nat -> int, a: nat, b: nat)
    requires forall k :: script(k) != -1
    ensures Blocked(script, a, b) == 0
  {
    if b > a { NeverBlocked(script, a, b - 1); }
  }

  /** The rounds.  While the value is not done with, each of them comes nearer to its end or has met a read that
      would block. */
  method ReceiveRounds(c: Connection, s: Source, m: ChunkMemory, events: nat -> bool, rounds: nat,
                       ghost input: seq<byte>, ghost n: nat)
    requires c.Received(input, n, s) && m.max > 0 && c.state in {Nread, Swallow} && c.Left() == n
    modifies c`state, c`rbuf, c`rcurr, c`rbytes, c`rlbytes, c`sbytes, c`at, c`ritem, c`swallowed
    modifies s`pos, s`calls, m`pulls, m`fails, c.item, c.item.objs
    ensures c.Received(input, n, s) && s.calls >= old(s.calls)
    ensures c.state in {Swallow, NewCmd} && old(c.state) == Nread ==> m.fails > old(m.fails)
    ensures c.state in {Nread, Swallow} ==> c.Due() + rounds <= n + 2 + Blocked(s.script, old(s.calls), s.calls)
    ensures AllWell(s, events, old(c.rbuf)) && n <= |input| ==> c.state != Closing && c.Left() >= 0
  {
    ghost var start, well := s.calls, AllWell(s, events, c.rbuf) && n <= |input|;
    for i := 0 to rounds
      invariant c.Received(input, n, s) && fresh(c.item.objs - old(c.item.objs)) && |c.rbuf| == |old(c.rbuf)|
      invariant m.fails >= old(m.fails) && s.calls >= start
      invariant c.state in {Swallow, NewCmd} && old(c.state) == Nread ==> m.fails > old(m.fails)
      invariant c.state in {Nread, Swallow} ==> c.Due() + i <= n + 2 + Blocked(s.script, start, s.calls)
      invariant well ==> c.state != Closing && c.Left() >= 0
    {
      var stop := c.CountedRound(s, m, events(i), input, n, start);
    }
  }

  /** Any number of rounds of the state machine.  However the value is split between the read buffer and the
      reads from the socket, and wherever the memory runs out: the item gets exactly the first n bytes of
      the input, or its beginning, with the rest of the n bytes swallowed; and the input goes on right
      behind them.  When all is well and the input is long enough, the value is done with after n + 2 rounds
      and one more for each read that would block; it is complete then unless an allocation has failed. */
  method ReceiveValue(c: Connection, s: Source, m: ChunkMemory, events: nat -> bool, rounds: nat)
    requires c.Valid() && s.pos <= |s.stream| && m.max > 0 && c.state in {Nread, Swallow}
    requires c.swallowed == [] && c.Stored() == [] && c.Left() >= 0
    modifies c`state, c`rbuf, c`rcurr, c`rbytes, c`rlbytes, c`sbytes, c`at, c`ritem, c`swallowed
    modifies s`pos, s`calls, m`pulls, m`fails, c.item, c.item.objs
    ensures c.Valid() && s.pos <= |s.stream| && s.calls >= old(s.calls)
    ensures var input, n := old(c.Upcoming(s)), old(c.Left());
      && (c.state == Complete ==> n <= |input| && c.Stored() == input[..n] && c.Upcoming(s) == input[n..])
      && (c.state == NewCmd ==> n <= |input| && c.Stored() + c.swallowed == input[..n] && c.Upcoming(s) == input[n..])
      && c.Stored() + c.swallowed + c.Upcoming(s) == input
      && (c.state == NewCmd && old(c.state) == Nread ==> m.fails > old(m.fails))
    ensures AllWell(s, events, old(c.rbuf)) && old(c.Left()) <= |old(c.Upcoming(s))| &&
            rounds >= old(c.Left()) + 2 + Blocked(s.script, old(s.calls), s.calls) ==>
              c.state in {Complete, NewCmd}
    ensures AllWell(s, events, old(c.rbuf)) && old(c.Left()) <= |old(c.Upcoming(s))| &&
            rounds >= old(c.Left()) + 2 && (forall k :: s.script(k) != -1) ==>
              c.state in {Complete, NewCmd}
  {
    ghost var input, n, start := c.Upcoming(s), c.Left(), s.calls;
    ReceiveRounds(c, s, m, events, rounds, input, n);
    if forall k :: s.script(k) != -1 { NeverBlocked(s.script, start, s.calls); }
    assert c.state == Complete ==> c.Stored() + c.swallowed == c.Stored();
    SplitAt(c.Stored() + c.swallowed, c.Upcoming(s), input);
  }

  lemma MovedIn(stored: seq<byte>, swallowed: seq<byte>, bytes: seq<byte>, rest: seq<byte>)
    requires swallowed == []
    ensures stored + bytes + swallowed + rest == stored + swallowed + (bytes + rest)
  {
  }

  lemma Regroup(stored: seq<byte>, bytes: seq<byte>, more: seq<byte>, rest: seq<byte>)
    ensures stored + bytes + more == stored + (bytes + more)
    ensures bytes + (more + rest) == bytes + more + rest
  {
  }

  lemma SplitAt(a: seq<byte>, b: seq<byte>, s: seq<byte>)
    requires a + b == s
    ensures |a| <= |s| && a == s[..|a|] && b == s[|a|..]
  {
  }

  /** Bytes that move from the input to the item change neither taken together. */
  lemma Moved(stored: seq<byte>, bytes: seq<byte>, rest: seq<byte>, input: seq<byte>)
    requires input == bytes + rest
    ensures stored + bytes + rest == stored + input
  {
  }
}
