/** Copying item data between flat items and chains of chunks. */
module ChunkCopy {
  import opened Bytes

  /** A piece of the storage of a large item. */
  class Chunk {
    var next: Chunk?
    var data: seq<byte>     // the whole buffer; its length is the size of the chunk
    var used: nat

    constructor (buffer: seq<byte>)
      ensures next == null && used == 0 && data == buffer
    {
      next, used, data := null, 0, buffer;
    }
  }

  /** The item data of an item: one flat buffer, or a chain of chunks. */
  class Item {
    const chunked: bool
    const nbytes: nat               // the size the item was allocated for
    var flat: seq<byte>             // what ITEM_data points at: the data of a flat item, or a chunk header
                                    // and what lies behind it
    var head: Chunk?                // the first chunk of a chunked item
    ghost var chain: seq<Chunk>
    ghost var content: seq<seq<byte>>
    ghost var objs: set<Chunk>      // the chunks of the chain
    ghost var bytes: seq<byte>      // the data of a chunked item

    /** What chunk i holds, and which one comes after it. */
    ghost predicate Link(i: nat)
      reads this, if i < |chain| then {chain[i]} else {}
      requires i < |chain| == |content|
    {
      && chain[i].used <= |chain[i].data| && content[i] == chain[i].data[..chain[i].used]
      && chain[i].next == if i + 1 < |chain| then chain[i + 1] else null
    }

    /** The chain of a chunked item. */
    ghost predicate Valid()
      reads this, objs
    {
      && |chain| == |content| && bytes == Flatten(content)
      && (chunked <==> chain != []) && |flat| == nbytes
      && head == (if chain == [] then null else chain[0])
      && (forall i :: 0 <= i < |chain| ==> chain[i] in objs)
      && (forall i, j :: 0 <= i < j < |chain| ==> chain[i] != chain[j])
      && (forall i: nat {:trigger Link(i)} :: i < |chain| ==> Link(i))
    }

    /** A chain that is being filled: only its last chunk has room. */
    ghost predicate Packed()
      requires Valid()
      reads this, objs
    {
      forall i :: 0 <= i < |chain| - 1 ==> chain[i].used == |chain[i].data|
    }

    ghost function Data(): seq<byte>
      reads this`flat, this`bytes
    {
      if chunked then bytes else flat
    }

    /** The storage of a new item: a flat buffer, or a header chunk without room. */
    constructor (chunked: bool, buffer: seq<byte>)
      ensures Valid() && Packed() && this.chunked == chunked && flat == buffer && nbytes == |buffer|
      ensures chunked ==> Data() == [] && fresh(objs)
    {
      this.chunked := chunked;
      flat, nbytes, bytes := buffer, |buffer|, [];
      if chunked {
        var c := new Chunk([]);
        head, chain, content, objs := c, [c], [[]], {c};
        assert Flatten([[]]) == Flattened([[]], 0) + [];
      } else {
        head, chain, content, objs := null, [], [], {};
      }
    }
  }

  /** The memory that do_item_alloc_chunk draws from.  `script` says which attempts to get a buffer
      succeed; `max` is the room in a chunk of the largest size. */
  class ChunkMemory {
    const max: nat
    const script: nat -> bool
    var pulls: nat
    var fails: nat          // how many allocations have failed

    constructor (max: nat, script: nat -> bool)
      requires max > 0
      ensures this.max == max && this.script == script && pulls == 0 && fails == 0
    {
      this.max, this.script := max, script;
      pulls, fails := 0, 0;
    }

    method Pull() returns (ok: bool)
      modifies this`pulls
      ensures ok == script(old(pulls)) && pulls == old(pulls) + 1
    {
      ok := script(pulls);
      pulls := pulls + 1;
    }

    /** Room for a chunk: as much as remains or, failing that, as much as a chunk can have. */
    method Pages(remain: nat) returns (ok: bool, size: nat)
      modifies this`pulls, this`fails
      ensures size in {if remain < max then remain else max, max}
      ensures script(old(pulls)) ==> ok && size == if remain < max then remain else max
      ensures !script(old(pulls)) ==> ok == (remain < max && script(old(pulls) + 1)) && size == max
      ensures fails == old(fails) + if ok then 0 else 1
    {
      size := if remain < max then remain else max;
      ok := Pull();
      if !ok && size != max {
        size := max;
        ok := Pull();
      }
      if !ok {
        fails := fails + 1;
      }
    }
  }

  /** Links a new chunk behind the last one. */
  method LinkChunk(it: Item, ch: Chunk, nch: Chunk)
    requires it.Valid() && it.chain != [] && ch == it.chain[|it.chain| - 1]
    requires nch !in it.objs && nch.used == 0 && nch.next == null
    modifies it`chain, it`content, it`objs, ch`next
    ensures it.Valid() && (old(it.Packed() && ch.used == |ch.data|) ==> it.Packed())
    ensures it.bytes == old(it.bytes)
    ensures it.objs == old(it.objs) + {nch} && it.chain == old(it.chain) + [nch]
  {
    FlattenSnoc(it.content, []);
    ghost var n := |it.chain| - 1;
    assert it.Link(n);
    ch.next := nch;
    it.chain, it.content, it.objs := it.chain + [nch], it.content + [[]], it.objs + {nch};
    forall i: nat | i < |it.chain| ensures it.Link(i) { assert i < n ==> old(it.Link(i)); }
  }

  /** Chains another chunk onto the last chunk of an item: one that fits what remains or, failing that,
      one of the largest size.  Asked for 0 bytes it can return a chunk without room. */
  method AllocChunk(it: Item, ch: Chunk, remain: nat, m: ChunkMemory) returns (nch: Chunk?)
    requires it.Valid() && it.chain != [] && ch == it.chain[|it.chain| - 1] && m.max > 0
    modifies it`chain, it`content, it`objs, ch`next, m`pulls, m`fails
    ensures it.Valid() && (old(it.Packed() && ch.used == |ch.data|) ==> it.Packed())
    ensures it.bytes == old(it.bytes) && m.fails == old(m.fails) + if nch == null then 1 else 0
    ensures nch == null ==> it.chain == old(it.chain) && it.objs == old(it.objs)
    ensures nch != null <==> m.script(old(m.pulls)) || (remain < m.max && m.script(old(m.pulls) + 1))
    ensures m.script(old(m.pulls)) && nch != null ==> |nch.data| == if remain < m.max then remain else m.max
    ensures nch != null ==>
      && fresh(nch) && it.objs == old(it.objs) + {nch} && it.chain == old(it.chain) + [nch]
      && nch.used == 0 && |nch.data| in {if remain < m.max then remain else m.max, m.max}
  {
    nch := null;
    var ok, size := m.Pages(remain);
    if ok {
      nch := new Chunk(seq(size, _ => 0));
      LinkChunk(it, ch, nch);
    }
  }

  /** memcpy(dst + at, src, |src|). */
  function Overwrite(dst: seq<byte>, at: nat, src: seq<byte>): (r: seq<byte>)
    requires at + |src| <= |dst|
    ensures |r| == |dst| && r[at..at + |src|] == src && r[..at] == dst[..at]
    ensures r[at + |src|..] == dst[at + |src|..]
  {
    dst[..at] + src + dst[at + |src|..]
  }

  /** Appends bytes to the last chunk of an item. */
  method Fill(it: Item, ch: Chunk, bytes: seq<byte>)
    requires it.Valid() && it.Packed() && it.chain != [] && ch == it.chain[|it.chain| - 1]
    requires ch.used + |bytes| <= |ch.data|
    modifies it`content, it`bytes, ch`data, ch`used
    ensures it.Valid() && it.Packed() && it.chain == old(it.chain)
    ensures |it.content| == |old(it.content)| > 0
    ensures it.content == old(it.content)[|it.content| - 1 := old(it.content)[|it.content| - 1] + bytes]
    ensures it.bytes == old(it.bytes) + bytes
    ensures ch.used == old(ch.used) + |bytes| && |ch.data| == old(|ch.data|)
  {
    ghost var n := |it.chain| - 1;
    assert it.Link(n);
    ReplaceLast(it.content, bytes);
    ch.data := Overwrite(ch.data, ch.used, bytes);
    ch.used := ch.used + |bytes|;
    it.content := it.content[n := it.content[n] + bytes];
    it.bytes := it.bytes + bytes;
    assert ch.data[..ch.used] == old(ch.data[..ch.used]) + bytes;
    forall i: nat | i < |it.chain| ensures it.Link(i) { assert old(it.Link(i)); }
  }

  /** Appends a piece to the last chunk and, when that fills it, chains the next one: `remain` bytes are
      still to come.  Returns the new last chunk, or null when there is no memory for it. */
  method FillAndExtend(d: Item, dch: Chunk, piece: seq<byte>, remain: nat, m: ChunkMemory) returns (next: Chunk?)
    requires d.Valid() && d.Packed() && d.chain != [] && dch == d.chain[|d.chain| - 1] && m.max > 0
    requires dch.used + |piece| <= |dch.data|
    modifies d`chain, d`content, d`objs, d`bytes, dch`data, dch`used, dch`next, m`pulls, m`fails
    ensures d.Valid() && d.Packed() && d.chain != [] && old(d.chain) <= d.chain
    ensures fresh(d.objs - old(d.objs))
    ensures d.objs >= old(d.objs)
    ensures d.bytes == old(d.bytes) + piece
    ensures m.fails == old(m.fails) + if next == null then 1 else 0
    ensures next == null ==> d.chain == old(d.chain) && dch.used == |dch.data|
    ensures next != null ==> next == d.chain[|d.chain| - 1] && (remain > 0 ==> next.used < |next.data|)
  {
    Fill(d, dch, piece);
    if |dch.data| == dch.used {
      next := AllocChunk(d, dch, remain, m);
    } else {
      next := dch;
    }
  }

  /** A copy returns 0 when it is complete and no allocation has failed, and -1 when one has.  The last chunk is
      full then; the copy can still be complete, when the allocation was asked for 0 bytes. */
  ghost predicate Verdict(d: Item, r: int, complete: bool, fails: int)
    reads d, d.objs
    requires d.Valid()
  {
    if fails == 0 then r == 0 && complete
    else r == -1 && fails == 1 && LastFull(d)
  }

  ghost predicate LastFull(d: Item)
    reads d, d.objs
    requires d.Valid()
  {
    d.chain != [] && d.chain[|d.chain| - 1].used == |d.chain[|d.chain| - 1].data|
  }

  /** Appends the first len bytes of a flat buffer to a chunked item. */
  method CopyFromFlat(d: Item, data: seq<byte>, len: nat, m: ChunkMemory) returns (r: int, ghost k: nat)
    requires d.Valid() && d.Packed() && d.chunked && len <= |data| && m.max > 0
    modifies d`chain, d`content, d`objs, d`bytes, d.objs`data, d.objs`used, d.objs`next, m`pulls, m`fails
    ensures d.Valid() && d.Packed()
    ensures fresh(d.objs - old(d.objs))
    ensures k <= len && d.bytes == old(d.bytes) + data[..k]
    ensures Verdict(d, r, k == len, m.fails - old(m.fails))
  {
    var dch: Chunk := LastChunk(d);
    var done := 0;
    k := 0;
    ghost var before := d.bytes;
    while len > done
      invariant d.Valid() && d.Packed() && d.chain != [] && dch == d.chain[|d.chain| - 1]
      invariant fresh(d.objs - old(d.objs))
      invariant k == done <= len && m.fails == old(m.fails)
      invariant d.bytes == before + data[..done]
      decreases len - done, if dch.used == |dch.data| then 1 else 0
    {
      assert d.Link(|d.chain| - 1);
      var todo := if |dch.data| - dch.used < len - done then |dch.data| - dch.used else len - done;
      CopyOn(before, data, done, todo);
      done := done + todo;
      k := done;
      assert dch in d.objs;
      var next := FillAndExtend(d, dch, data[done - todo..done], len - done, m);
      if next == null {
        return -1, k;
      }
      dch := next;
    }
    return 0, k;
  }

  /** A cursor into a chain: `copied` bytes of chunk i are behind it, `done` bytes in all. */
  ghost predicate Cursor(content: seq<seq<byte>>, i: nat, copied: nat, done: nat) {
    && i <= |content|
    && (if i < |content| then copied <= |content[i]| else copied == 0)
    && done == |Flatten(content[..i])| + copied <= |Flatten(content)|
  }

  lemma CursorMoves(content: seq<seq<byte>>, i: nat, copied: nat, done: nat, todo: nat)
    requires Cursor(content, i, copied, done) && i < |content| && copied + todo <= |content[i]|
    ensures done + todo <= |Flatten(content)|
    ensures content[i][copied..copied + todo] == Flatten(content)[done..done + todo]
    ensures Cursor(content, i, copied + todo, done + todo)
    ensures copied + todo == |content[i]| ==> Cursor(content, i + 1, 0, done + todo)
  {
    ChunkInFlatten(content, i);
  }

  lemma SliceOfPrefix(s: seq<byte>, n: nat, a: nat, k: nat)
    requires a + k <= n <= |s|
    ensures s[a..a + k] == s[..n][a..a + k]
  {
  }

  /** A chain of chunks that is only read: the chunks and what they hold. */
  datatype Chain = Chain(chunks: seq<Chunk>, content: seq<seq<byte>>, bytes: seq<byte>)
  {
    function Chunk(i: nat): Chunk? { if i < |chunks| then chunks[i] else null }

    /** The cursor, with the chunk it stands on. */
    ghost predicate At(sch: Chunk?, i: nat, copied: nat, done: nat) {
      |chunks| == |content| && Cursor(content, i, copied, done) && sch == Chunk(i)
    }

    /** Chunk i is as the chain says. */
    ghost predicate Holds(i: nat)
      reads if i < |chunks| then {chunks[i]} else {}
      requires i < |chunks| == |content|
    {
      && chunks[i].used <= |chunks[i].data| && content[i] == chunks[i].data[..chunks[i].used]
      && chunks[i].next == Chunk(i + 1)
    }
  }

  lemma ItemChunk(s: Item, i: nat)
    requires s.Valid() && i < |s.chain|
    ensures Chain(s.chain, s.content, s.bytes).Holds(i)
  {
    assert s.Link(i);
  }

  /** A cursor that stands on no chunk has passed everything. */
  lemma AtEnd(s: Chain, i: nat, copied: nat, done: nat)
    requires s.At(null, i, copied, done) && s.bytes == Flatten(s.content)
    ensures done == |s.bytes|
  {
    assert s.content[..|s.content|] == s.content;
  }

  /** Takes the piece under the cursor that fits `space` and `remain`, and moves the cursor behind it,
      over to the next chunk when this one is used up. */
  method TakePiece(ghost s: Chain, sch: Chunk, copied: nat, space: nat, remain: nat, ghost i: nat, ghost done: nat)
    returns (piece: seq<byte>, sch': Chunk?, copied': nat, ghost i': nat)
    requires s.At(sch, i, copied, done) && s.Holds(i) && s.bytes == Flatten(s.content)
    ensures s.At(sch', i', copied', done + |piece|) && i <= i' <= |s.chunks|
    ensures |piece| <= space && |piece| <= remain && done + |piece| <= |s.bytes|
    ensures piece == s.bytes[done..done + |piece|]
    ensures piece == [] && space > 0 && remain > 0 ==> i < i'
  {
    var todo := if space < sch.used - copied then space else sch.used - copied;
    if remain < todo {
      todo := remain;
    }
    CursorMoves(s.content, i, copied, done, todo);
    piece := sch.data[copied..copied + todo];
    SliceOfPrefix(sch.data, sch.used, copied, todo);
    sch', copied', i' := sch, copied + todo, i;
    if copied' == sch.used {
      copied' := 0;
      sch' := sch.next;
      i' := i + 1;
    }
  }

  /** The first k bytes of a source have been appended. */
  predicate Gained(bytes: seq<byte>, before: seq<byte>, source: seq<byte>, k: nat) {
    k <= |source| && bytes == before + source[..k]
  }

  /** One round of copying between chains: n bytes, counted by `done`. */
  method CopyPiece(d: Item, dch: Chunk, ghost s: Chain, sch: Chunk, copied: nat, remain: nat, m: ChunkMemory,
                   ghost i: nat, ghost done: nat, ghost before: seq<byte>)
    returns (next: Chunk?, sch': Chunk?, copied': nat, n: nat, ghost i': nat)
    requires d.Valid() && d.Packed() && d.chain != [] && dch == d.chain[|d.chain| - 1] && m.max > 0
    requires s.At(sch, i, copied, done) && s.Holds(i) && s.bytes == Flatten(s.content)
    requires remain > 0 && Gained(d.bytes, before, s.bytes, done)
    modifies d`chain, d`content, d`objs, d`bytes, dch`data, dch`used, dch`next, m`pulls, m`fails
    ensures d.Valid() && d.Packed() && d.chain != [] && d.objs >= old(d.objs) && fresh(d.objs - old(d.objs))
    ensures s.At(sch', i', copied', done + n) && i <= i' <= |s.chunks|
    ensures n <= remain && done + n <= |s.bytes|
    ensures Gained(d.bytes, before, s.bytes, done + n)
    ensures m.fails == old(m.fails) + if next == null then 1 else 0
    ensures if next == null then LastFull(d) else next == d.chain[|d.chain| - 1]
    ensures next != null && n < remain ==> next.used < |next.data|
    ensures n == 0 && next != null ==> i < i' || (old(dch.used == |dch.data|) && next.used < |next.data|)
  {
    assert dch in d.objs && d.Link(|d.chain| - 1);
    var piece;
    piece, sch', copied', i' := TakePiece(s, sch, copied, |dch.data| - dch.used, remain, i, done);
    n := |piece|;
    CopyOn(before, s.bytes, done, n);
    next := FillAndExtend(d, dch, piece, remain - n, m);
  }

  /** Appends the first len bytes of a chunked item to another chunked item. */
  method CopyFromChunks(d: Item, s: Item, len: nat, m: ChunkMemory) returns (r: int, ghost k: nat)
    requires d.Valid() && d.Packed() && d.chunked && s.Valid() && s.chunked && m.max > 0
    requires d != s && s.objs !! d.objs && len <= |s.bytes|
    modifies d`chain, d`content, d`objs, d`bytes, d.objs`data, d.objs`used, d.objs`next, m`pulls, m`fails
    ensures d.Valid() && d.Packed()
    ensures fresh(d.objs - old(d.objs))
    ensures k <= len && d.bytes == old(d.bytes) + s.bytes[..k]
    ensures Verdict(d, r, k == len, m.fails - old(m.fails))
  {
    var dch: Chunk := LastChunk(d);
    var remain: nat := len;
    var sch := s.head;
    var copied: nat := 0;
    k := 0;
    ghost var i: nat, before := 0, d.bytes;
    ghost var src := Chain(s.chain, s.content, s.bytes);
    while sch != null && remain != 0
      invariant d.Valid() && d.Packed() && d.chain != [] && dch == d.chain[|d.chain| - 1]
      invariant m.fails == old(m.fails) && fresh(d.objs - old(d.objs))
      invariant k + remain == len && i <= |src.chunks|
      invariant src.At(sch, i, copied, k)
      invariant Gained(d.bytes, before, src.bytes, k)
      decreases remain, |src.chunks| - i, if dch.used < |dch.data| then 0 else 1
    {
      var next;
      var n;
      assert dch in d.objs;
      ItemChunk(s, i);
      next, sch, copied, n, i := CopyPiece(d, dch, src, sch, copied, remain, m, i, k, before);
      k := k + n;
      if next == null {
        return -1, k;
      }
      remain := remain - n;
      dch := next;
    }
    if sch == null { AtEnd(src, i, copied, k); }
    return 0, k;
  }

  /** The chunk that a copy into a packed chain starts with: the first one with room, or the last. */
  method LastChunk(d: Item) returns (dch: Chunk)
    requires d.Valid() && d.Packed() && d.chunked
    ensures d.chain != [] && dch == d.chain[|d.chain| - 1]
  {
    dch := d.head;
    ghost var i := 0;
    while |dch.data| == dch.used
      invariant 0 <= i < |d.chain| && dch == d.chain[i]
      decreases |d.chain| - i
    {
      assert d.Link(i);
      if dch.next != null {
        dch := dch.next;
        i := i + 1;
      } else {
        break;
      }
    }
  }

  /** Appends the first len bytes of item s to the chunked item d, however s is stored.  Returns -1 when
      an allocation failed: then only k bytes may have been copied. */
  method StoreItemCopyChunks(d: Item, s: Item, len: nat, m: ChunkMemory) returns (r: int, ghost k: nat)
    requires d.Valid() && d.Packed() && d.chunked && s.Valid() && m.max > 0
    requires d != s && s.objs !! d.objs && len <= |s.Data()|
    modifies d`chain, d`content, d`objs, d`bytes, d.objs`data, d.objs`used, d.objs`next, m`pulls, m`fails
    ensures d.Valid() && d.Packed()
    ensures fresh(d.objs - old(d.objs))
    ensures k <= len && d.Data() == old(d.Data()) + s.Data()[..k]
    ensures Verdict(d, r, k == len, m.fails - old(m.fails))
    ensures m.fails == old(m.fails) ==> r == 0 && k == len
    ensures m.fails != old(m.fails) ==> r == -1 && m.fails == old(m.fails) + 1
  {
    if s.chunked {
      r, k := CopyFromChunks(d, s, len, m);
    } else {
      r, k := CopyFromFlat(d, s.flat, len, m);
    }
  }

  datatype Command = Append | AppendViv | Prepend | PrependViv

  /** What append and prepend make of two values that end in CRLF. */
  function Joined(comm: Command, prev: seq<byte>, add: seq<byte>): seq<byte>
    requires |prev| >= 2 && |add| >= 2
  {
    if comm.Append? || comm.AppendViv? then prev[..|prev| - 2] + add else add[..|add| - 2] + prev
  }

  /** The two copies into a flat buffer: the second one starts on the CRLF of the first. */
  method CopyFlat(newIt: Item, first: seq<byte>, second: seq<byte>)
    requires !newIt.chunked && |first| >= 2 && |second| >= 2
    requires |newIt.flat| == |first| + |second| - 2
    modifies newIt`flat
    ensures newIt.flat == first[..|first| - 2] + second
  {
    var n := |first| - 2;
    newIt.flat := Overwrite(newIt.flat, 0, first);
    assert newIt.flat[..|first|] == first;
    assert newIt.flat[..n] == first[..n];
    newIt.flat := Overwrite(newIt.flat, n, second);
    assert newIt.flat[n..] == second;
    assert newIt.flat == newIt.flat[..n] + newIt.flat[n..];
  }

  lemma JoinFromNothing(a: seq<byte>, n: nat, b: seq<byte>)
    requires n <= |a|
    ensures [] + a[..n] + b[..|b|] == a[..n] + b
  {
  }

  /** The two copies into a chunked item. */
  method CopyChunked(newIt: Item, first: Item, second: Item, m: ChunkMemory) returns (r: int)
    requires first.Valid() && second.Valid() && newIt.Valid() && newIt.Packed() && m.max > 0
    requires newIt != first && newIt != second && newIt.objs !! first.objs && newIt.objs !! second.objs
    requires newIt.chunked && newIt.Data() == []
    requires first.nbytes == |first.Data()| >= 2 && second.nbytes == |second.Data()|
    modifies newIt`chain, newIt`content, newIt`objs, newIt`bytes
    modifies newIt.objs`data, newIt.objs`used, newIt.objs`next, m`pulls, m`fails
    ensures newIt.Valid()
    ensures r == (if m.fails == old(m.fails) then 0 else -1)
    ensures r == 0 ==> newIt.Data() == old(first.Data())[..first.nbytes - 2] + old(second.Data())
  {
    ghost var a, b := first.Data(), second.Data();
    ghost var k;
    r, k := StoreItemCopyChunks(newIt, first, first.nbytes - 2, m);
    assert second.Valid() && second.Data() == b;
    if r == 0 {
      JoinFromNothing(a, |a| - 2, b);
      r, k := StoreItemCopyChunks(newIt, second, second.nbytes, m);
    }
  }

  /** What a join reads of an item: its data when the new item is chunked.  Otherwise it reads what ITEM_data
      points at, which is the data of a flat item only. */
  ghost function ReadFor(newIt: Item, it: Item): seq<byte>
    reads it`flat, it`bytes
  {
    if newIt.chunked then it.Data() else it.flat
  }

  /** Fills a new item with what it reads of the first item, without its CRLF, and of the second. */
  method CopyBoth(newIt: Item, first: Item, second: Item, m: ChunkMemory) returns (r: int)
    requires first.Valid() && second.Valid() && newIt.Valid() && newIt.Packed() && m.max > 0
    requires newIt != first && newIt != second && newIt.objs !! first.objs && newIt.objs !! second.objs
    requires first.nbytes == |first.Data()| >= 2 && second.nbytes == |second.Data()| >= 2
    requires newIt.nbytes == first.nbytes + second.nbytes - 2 && (newIt.chunked ==> newIt.Data() == [])
    modifies newIt`chain, newIt`content, newIt`objs, newIt`bytes, newIt`flat
    modifies newIt.objs`data, newIt.objs`used, newIt.objs`next, m`pulls, m`fails
    ensures newIt.Valid()
    ensures r == (if m.fails == old(m.fails) then 0 else -1) && (!newIt.chunked ==> r == 0)
    ensures |old(ReadFor(newIt, first))| == first.nbytes
    ensures r == 0 ==>
              newIt.Data() == old(ReadFor(newIt, first))[..first.nbytes - 2] + old(ReadFor(newIt, second))
  {
    if newIt.chunked {
      r := CopyChunked(newIt, first, second, m);
    } else {
      CopyFlat(newIt, first.flat, second.flat);
      r := 0;
    }
  }

  /** Fills a new item with the join of two others, as it reads them.  FlatJoinHasFlatSources says when a flat
      new item reads flat items only. */
  method StoreItemCopyData(comm: Command, oldIt: Item, newIt: Item, addIt: Item, m: ChunkMemory) returns (r: int)
    requires oldIt.Valid() && addIt.Valid() && newIt.Valid() && newIt.Packed() && m.max > 0
    requires newIt != oldIt && newIt != addIt && newIt.objs !! oldIt.objs && newIt.objs !! addIt.objs
    requires oldIt.nbytes == |oldIt.Data()| >= 2 && addIt.nbytes == |addIt.Data()| >= 2
    requires newIt.nbytes == oldIt.nbytes + addIt.nbytes - 2 && (newIt.chunked ==> newIt.Data() == [])
    modifies newIt`chain, newIt`content, newIt`objs, newIt`bytes, newIt`flat
    modifies newIt.objs`data, newIt.objs`used, newIt.objs`next, m`pulls, m`fails
    ensures newIt.Valid()
    ensures r == (if m.fails == old(m.fails) then 0 else -1) && (!newIt.chunked ==> r == 0)
    ensures |old(ReadFor(newIt, oldIt))| >= 2 && |old(ReadFor(newIt, addIt))| >= 2
    ensures r == 0 ==> newIt.Data() == Joined(comm, old(ReadFor(newIt, oldIt)), old(ReadFor(newIt, addIt)))
    ensures r == 0 && newIt.chunked && comm in {Append, AppendViv} ==>
              newIt.Data() == old(oldIt.Data())[..oldIt.nbytes - 2] + old(addIt.Data())
    ensures r == 0 && newIt.chunked && comm in {Prepend, PrependViv} ==>
              newIt.Data() == old(addIt.Data())[..addIt.nbytes - 2] + old(oldIt.Data())
    ensures !newIt.chunked && comm in {Append, AppendViv} ==>
              newIt.flat == old(oldIt.flat)[..oldIt.nbytes - 2] + old(addIt.flat)
    ensures !newIt.chunked && comm in {Prepend, PrependViv} ==>
              newIt.flat == old(addIt.flat)[..addIt.nbytes - 2] + old(oldIt.flat)
  {
    if comm == Append || comm == AppendViv {
      r := CopyBoth(newIt, oldIt, addIt, m);
    } else {
      r := CopyBoth(newIt, addIt, oldIt, m);
    }
  }

  // ----- Which items are chunked -----

  /** What decides how an item is stored: the size of its header, the size above which it is stored in chunks,
      and whether cas ids are in use. */
  datatype Limits = Limits(header: nat, chunkMax: nat, useCas: bool)
  {
    /** The slab memory an item takes: its header, the key with its terminator, client flags if they are not 0,
        the value, and 8 bytes for a cas. */
    function Total(nkey: nat, flags: nat, nbytes: nat): nat {
      header + nkey + 1 + (if flags == 0 then 0 else 4) + nbytes + (if useCas then 8 else 0)
    }

    predicate Chunked(nkey: nat, flags: nat, nbytes: nat) {
      Total(nkey, flags, nbytes) > chunkMax
    }
  }

  /** The new item of an append or prepend takes its flags from the old one.  If it is flat, the old item is
      flat; the added item is flat too unless it has flags of its own, the old item has none, and the old value
      is shorter than four bytes without its CRLF. */
  lemma FlatJoinReads(lim: Limits, nkey: nat, oldFlags: nat, oldBytes: nat, addFlags: nat, addBytes: nat)
    requires oldBytes >= 2 && addBytes >= 2 && !lim.Chunked(nkey, oldFlags, oldBytes + addBytes - 2)
    ensures !lim.Chunked(nkey, oldFlags, oldBytes)
    ensures lim.Chunked(nkey, addFlags, addBytes) ==> addFlags != 0 && oldFlags == 0 && oldBytes < 6
  {
  }

  /** An item is flat as long as all of it fits into the largest chunk: header, key and its terminator, 4 bytes for
      client flags, the value, and 8 bytes for a cas. */
  lemma FlatIff(lim: Limits, nkey: nat, flags: nat, nbytes: nat)
    ensures flags == 0 && !lim.useCas ==>
              (lim.Chunked(nkey, flags, nbytes) <==> lim.header + nkey + nbytes >= lim.chunkMax)
    ensures flags != 0 && !lim.useCas ==> (lim.Chunked(nkey, flags, nbytes) <==> lim.Chunked(nkey, 0, nbytes + 4))
    ensures lim.useCas ==>
              (lim.Chunked(nkey, flags, nbytes) <==> lim.(useCas := false).Chunked(nkey, flags, nbytes + 8))
  {
  }

  const SIZEOF_ITEM: nat := 48
  const SLAB_CHUNK_SIZE_MAX: nat := 512 * 1024

  /** With the sizes of a 64-bit server and its default settings, that case does occur: some flat join has a
      chunked added item exactly when the added item has flags, the old one has none, and the old value is
      shorter than four bytes without its CRLF. */
  lemma FlatJoinHasFlatSources(nkey: nat, oldFlags: nat, oldBytes: nat, addFlags: nat, useCas: bool)
    requires nkey <= 250 && oldBytes >= 2
    ensures var lim := Limits(SIZEOF_ITEM, SLAB_CHUNK_SIZE_MAX, useCas);
      (exists addBytes: nat {:trigger lim.Chunked(nkey, addFlags, addBytes)} :: addBytes >= 2 &&
        !lim.Chunked(nkey, oldFlags, oldBytes + addBytes - 2) && lim.Chunked(nkey, addFlags, addBytes)) <==>
      addFlags != 0 && oldFlags == 0 && oldBytes < 6
  {
    var lim := Limits(SIZEOF_ITEM, SLAB_CHUNK_SIZE_MAX, useCas);
    if addFlags != 0 && oldFlags == 0 && oldBytes < 6 {
      var addBytes := SLAB_CHUNK_SIZE_MAX - lim.Total(nkey, 0, 0) + 2 - oldBytes;
      assert lim.Chunked(nkey, addFlags, addBytes);
    }
  }
}
