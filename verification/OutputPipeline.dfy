/** The output side of a connection: a chain of responses, each a small array of memory slices, sent
    through a socket that may accept any prefix of what it is offered. */
module OutputPipeline {
  import opened Bytes

  const MC_RESP_IOVCOUNT: nat := 4
  const IOV_MAX: nat := 1024

  /** What an iovec of a response points at: plain memory, or the header of a chunked item. */
  datatype Base = Memory(bytes: seq<byte>, off: nat) | ItemHeader(chunks: seq<seq<byte>>)

  datatype Iov = Iov(base: Base, len: nat)

  /** The fields of one response.  `iov` holds the `iovcnt` entries in use.  Entry
      `chunkedDataIov`, when that is not 0, stands for the last `len` of the first `chunkedTotal`
      bytes of the item it points at. */
  datatype Rec = Rec(iov: seq<Iov>, tosend: int, chunkedDataIov: nat, chunkedTotal: nat, skip: bool,
                     requestId: nat, requestAddr: nat, udpSequence: nat, udpTotal: nat)

  /** The lengths of the first n entries, added up. */
  function SumLen(iov: seq<Iov>, n: nat): nat
    requires n <= |iov|
  {
    if n == 0 then 0 else SumLen(iov, n - 1) + iov[n - 1].len
  }

  predicate IovOk(r: Rec, x: nat)
    requires x < |r.iov|
  {
    if r.chunkedDataIov != 0 && x == r.chunkedDataIov then
      r.iov[x].base.ItemHeader? && r.iov[x].len <= r.chunkedTotal <= |Flatten(r.iov[x].base.chunks)|
    else
      r.iov[x].base.Memory? && r.iov[x].base.off + r.iov[x].len <= |r.iov[x].base.bytes|
  }

  /** What resp_add_iov and resp_add_chunked_iov build, and every transmission keeps. */
  predicate RecOk(r: Rec) {
    && |r.iov| <= MC_RESP_IOVCOUNT
    && (r.chunkedDataIov != 0 ==> r.chunkedDataIov < |r.iov|)
    && (forall x {:trigger IovOk(r, x)} :: 0 <= x < |r.iov| ==> IovOk(r, x))
    && r.tosend == SumLen(r.iov, |r.iov|)
  }

  /** The bytes that entry x still has to put on the wire. */
  function IovBytes(r: Rec, x: nat): (b: seq<byte>)
    ensures x < |r.iov| && IovOk(r, x) ==> |b| == r.iov[x].len
  {
    if x >= |r.iov| || !IovOk(r, x) then []
    else if r.chunkedDataIov != 0 && x == r.chunkedDataIov then
      Flatten(r.iov[x].base.chunks)[r.chunkedTotal - r.iov[x].len..r.chunkedTotal]
    else
      r.iov[x].base.bytes[r.iov[x].base.off..r.iov[x].base.off + r.iov[x].len]
  }

  /** The bytes of each entry. */
  function Entries(r: Rec): (es: seq<seq<byte>>)
    ensures |es| == |r.iov| && forall x :: 0 <= x < |r.iov| ==> es[x] == IovBytes(r, x)
  {
    seq(|r.iov|, (x: nat) => IovBytes(r, x))
  }

  lemma {:induction false} EntriesLength(r: Rec, n: nat)
    requires RecOk(r) && n <= |r.iov|
    ensures |Flatten(Entries(r)[..n])| == SumLen(r.iov, n)
  {
    if n > 0 {
      EntriesLength(r, n - 1);
      FlattenStep(Entries(r), n - 1);
      assert IovOk(r, n - 1);
    }
  }

  /** The bytes of a response that are still to be sent. */
  function Pending(r: Rec): (b: seq<byte>)
    requires RecOk(r)
    ensures |b| == if r.skip then 0 else r.tosend
  {
    EntriesLength(r, |r.iov|);
    assert Entries(r)[..|r.iov|] == Entries(r);
    if r.skip then [] else Flatten(Entries(r))
  }

  /** A response in good order has exactly the bytes b still to send. */
  predicate Owes(r: Rec, b: seq<byte>) {
    RecOk(r) && b == Pending(r)
  }

  /** The responses that one call of _transmit_pre may draw from. */
  function Scope(recs: seq<Rec>, oneResp: bool): (n: nat)
    ensures n <= |recs|
    ensures !oneResp ==> n == |recs|
    ensures oneResp && n < |recs| ==> n > 0
  {
    if recs == [] then 0
    else if oneResp && !recs[0].skip then 1
    else 1 + Scope(recs[1..], oneResp)
  }

  // ----- Filling the I/O vector -----

  /** What the entries put into the vector must be: a prefix of `want`, all of it unless the slots
      ran out. */
  predicate Emitted(v: seq<Slice>, want: seq<byte>, full: bool) {
    AllOk(v) && Gather(v) <= want && (full || Gather(v) == want)
  }

  /** How much of the unsent part, `want`, lies before offset pos of the item; the unsent part
      begins at offset `start`. */
  function Before(want: seq<byte>, start: nat, pos: nat): (k: nat)
    ensures k <= |want|
  {
    if pos < start then 0 else if pos - start < |want| then pos - start else |want|
  }

  /** The copying cursor stands at offset pos of the item. */
  predicate CopiedUpTo(want: seq<byte>, start: nat, pos: nat, done: int, todo: int, out: seq<byte>) {
    && done == (if pos < start then start - pos else 0)
    && todo == |want| - (if pos < start then 0 else pos - start)
    && out == want[..Before(want, start, pos)]
  }

  /** A chunk at offset pos of the item agrees with the unsent part, `want`, at offset `start`. */
  predicate LiesAt(chunk: seq<byte>, pos: nat, want: seq<byte>, start: nat) {
    forall k :: 0 <= k < |chunk| && start <= pos + k < start + |want| ==> chunk[k] == want[pos + k - start]
  }

  lemma LiesAgree(chunk: seq<byte>, pos: nat, want: seq<byte>, start: nat, skip: nat, k: nat, n: nat)
    requires LiesAt(chunk, pos, want, start) && pos + skip == start + k && skip + n <= |chunk| && k + n <= |want|
    ensures want[..k] + chunk[skip..skip + n] == want[..k + n]
  {
    forall j | k <= j < k + n ensures want[j] == chunk[j - k + skip] {
      assert chunk[j - k + skip] == want[pos + (j - k + skip) - start];
    }
    assert chunk[skip..skip + n] == want[k..k + n];
  }

  lemma ChunkLies(chunks: seq<seq<byte>>, c: nat, total: nat, len: nat)
    requires c < |chunks| && len <= total <= |Flatten(chunks)|
    ensures |Flatten(chunks[..c + 1])| == |Flatten(chunks[..c])| + |chunks[c]|
    ensures LiesAt(chunks[c], |Flatten(chunks[..c])|, Flatten(chunks)[total - len..total], total - len)
  {
    ChunkInFlatten(chunks, c);
  }

  lemma CopyStart(want: seq<byte>, start: nat)
    ensures CopiedUpTo(want, start, 0, start, |want|, [])
  {
  }

  lemma CopyEnd(want: seq<byte>, start: nat, pos: nat, done: int, todo: int, out: seq<byte>)
    requires CopiedUpTo(want, start, pos, done, todo, out)
    ensures out <= want && (todo <= 0 || pos >= start + |want| ==> out == want)
  {
  }

  /** Decides what the chunk under the cursor contributes: nothing when it is empty or was sent
      before, otherwise one slice. */
  method NextSlice(chunk: seq<byte>, done: int, todo: int,
                   ghost want: seq<byte>, ghost start: nat, ghost pos: nat, ghost out: seq<byte>)
    returns (slice: seq<Slice>, done': int, todo': int)
    requires CopiedUpTo(want, start, pos, done, todo, out) && todo > 0
    requires LiesAt(chunk, pos, want, start)
    ensures |slice| <= 1 && AllOk(slice)
    ensures CopiedUpTo(want, start, pos + |chunk|, done', todo',
                       out + if slice == [] then [] else slice[0].Bytes())
    ensures slice != [] ==> slice[0].len > 0
  {
    slice, done', todo' := [], done, todo;
    var skip := 0;
    if |chunk| == 0 {
      return;
    }
    if done >= |chunk| {
      done' := done - |chunk|;
      return;
    } else if done != 0 {
      skip := done;
      done' := 0;
    }
    var n := if |chunk| - skip > todo then todo else |chunk| - skip;
    ghost var k := Before(want, start, pos);
    LiesAgree(chunk, pos, want, start, skip, k, n);
    slice, todo' := [Slice(chunk, skip, n)], todo - (|chunk| - skip);
  }

  /** The entries for the unsent part of a chunked item, one a chunk, when iovused slots are taken. */
  method EmitItem(chunks: seq<seq<byte>>, total: nat, len: nat, iovused: nat) returns (v: seq<Slice>)
    requires len <= total <= |Flatten(chunks)| && iovused < IOV_MAX - 1
    ensures iovused + |v| <= IOV_MAX - 1
    ensures Emitted(v, Flatten(chunks)[total - len..total], iovused + |v| == IOV_MAX - 1)
    ensures v != [] ==> Gather(v) != []
  {
    v := [];
    var done: int, todo: int := total - len, len;
    var c := 0;
    ghost var want, pos, out := Flatten(chunks)[total - len..total], 0, [];
    assert |want| == len;
    CopyStart(want, total - len);
    while c < |chunks| && todo > 0 && iovused + |v| < IOV_MAX - 1
      invariant 0 <= c <= |chunks| && iovused + |v| <= IOV_MAX - 1
      invariant pos == |Flatten(chunks[..c])|
      invariant AllOk(v) && Gather(v) == out && (v != [] ==> out != [])
      invariant CopiedUpTo(want, total - len, pos, done, todo, out)
      decreases |chunks| - c
    {
      ChunkLies(chunks, c, total, len);
      var slice;
      slice, done, todo := NextSlice(chunks[c], done, todo, want, total - len, pos, out);
      if slice != [] {
        GatherAppend(v, slice[0]);
        v, out := v + [slice[0]], out + slice[0].Bytes();
      }
      pos := pos + |chunks[c]|;
      c := c + 1;
    }
    if c == |chunks| { assert chunks[..c] == chunks; }
    CopyEnd(want, total - len, pos, done, todo, out);
  }

  /** The slice that entry x of a response contributes when it points at plain memory. */
  function PlainSlice(r: Rec, x: nat): (s: Slice)
    requires x < |r.iov| && IovOk(r, x) && !(r.chunkedDataIov != 0 && x == r.chunkedDataIov)
    ensures s.Ok() && s.Bytes() == IovBytes(r, x)
  {
    Slice(r.iov[x].base.bytes, r.iov[x].base.off, r.iov[x].len)
  }

  /** The entries of a response without chunked data. */
  method EmitPlain(r: Rec) returns (v: seq<Slice>)
    requires RecOk(r) && r.chunkedDataIov == 0
    ensures |v| == |r.iov| && Emitted(v, Flatten(Entries(r)), false)
  {
    v := [];
    ghost var es := Entries(r);
    for x := 0 to |r.iov|
      invariant |v| == x && AllOk(v) && Gather(v) == Flatten(es[..x])
    {
      assert IovOk(r, x);
      FlattenStep(es, x);
      GatherAppend(v, PlainSlice(r, x));
      v := v + [PlainSlice(r, x)];
    }
    assert es[..|es|] == es;
  }

  /** The entries for entry x of a response with chunked data. */
  method EmitEntry(r: Rec, x: nat, iovused: nat) returns (v: seq<Slice>)
    requires RecOk(r) && r.chunkedDataIov != 0 && x < |r.iov| && iovused < IOV_MAX - 1
    ensures iovused + |v| <= IOV_MAX - 1
    ensures IovOk(r, x) && Emitted(v, IovBytes(r, x), iovused + |v| == IOV_MAX - 1)
    ensures Gather(v) == [] ==> |v| <= 1
  {
    assert IovOk(r, x);
    if x == r.chunkedDataIov {
      v := EmitItem(r.iov[x].base.chunks, r.chunkedTotal, r.iov[x].len, iovused);
    } else {
      GatherAppend([], PlainSlice(r, x));
      v := [] + [PlainSlice(r, x)];
    }
  }

  lemma JoinEmitted(v: seq<Slice>, a: seq<byte>, w: seq<Slice>, b: seq<byte>, full: bool)
    requires AllOk(v) && Gather(v) == a && Emitted(w, b, full)
    ensures Emitted(v + w, a + b, full) && Gather(v + w) == a + Gather(w)
  {
    GatherConcat(v, w);
    PrefixSum(a, Gather(w), b);
  }

  lemma JoinEntry(v: seq<Slice>, es: seq<seq<byte>>, x: nat, w: seq<Slice>, full: bool)
    requires x < |es| && AllOk(v) && Gather(v) == Flatten(es[..x]) && Emitted(w, es[x], full)
    ensures AllOk(v + w) && Gather(v + w) == Gather(v) + Gather(w)
    ensures Emitted(v + w, Flatten(es), true)
    ensures !full ==> Gather(v + w) == Flatten(es[..x + 1])
  {
    FlattenStep(es, x);
    JoinEmitted(v, Flatten(es[..x]), w, es[x], full);
    FlattenPrefix(es, x + 1);
  }

  lemma WidenEmitted(v: seq<Slice>, a: seq<byte>, b: seq<byte>)
    requires Emitted(v, a, true) && a <= b
    ensures Emitted(v, b, true)
  {
  }

  /** The entries of a response with chunked data, the item expanded in its place, until the slots
      run out. */
  method EmitChunked(r: Rec, iovused: nat) returns (v: seq<Slice>)
    requires RecOk(r) && r.chunkedDataIov != 0 && iovused + |r.iov| < IOV_MAX - 1
    ensures iovused + |v| <= IOV_MAX - 1
    ensures Emitted(v, Flatten(Entries(r)), iovused + |v| == IOV_MAX - 1)
    ensures Gather(v) == [] ==> iovused + |v| < IOV_MAX - 1
  {
    v := [];
    ghost var es := Entries(r);
    for x := 0 to |r.iov|
      invariant iovused + |v| < IOV_MAX - 1
      invariant AllOk(v) && Gather(v) == Flatten(es[..x])
      invariant Gather(v) == [] ==> |v| <= x
    {
      var w := EmitEntry(r, x, iovused + |v|);
      JoinEntry(v, es, x, w, iovused + |v| + |w| == IOV_MAX - 1);
      v := v + w;
      if iovused + |v| >= IOV_MAX - 1 {
        return;
      }
    }
    assert es[..|es|] == es;
  }

  /** The entries of one response that is not skipped. */
  method EmitResp(r: Rec, iovused: nat) returns (v: seq<Slice>)
    requires RecOk(r) && !r.skip && iovused + |r.iov| < IOV_MAX - 1
    ensures iovused + |v| <= IOV_MAX - 1
    ensures Emitted(v, Pending(r), iovused + |v| == IOV_MAX - 1)
    ensures Gather(v) == [] ==> Pending(r) == []
    ensures r.chunkedDataIov == 0 ==> Gather(v) == Pending(r)
  {
    if r.chunkedDataIov != 0 {
      v := EmitChunked(r, iovused);
    } else {
      v := EmitPlain(r);
    }
  }

  /** The entries of a response that is looked at when iovused slots are taken: none when it is skipped, and it has
      to wait when its own entries might not fit. */
  method OfferResp(r: Rec, iovused: nat) returns (fits: bool, v: seq<Slice>)
    requires RecOk(r) && iovused <= IOV_MAX - 1
    ensures fits <==> iovused + |r.iov| < IOV_MAX - 1
    ensures !fits ==> v == []
    ensures fits ==> iovused + |v| <= IOV_MAX - 1 && Emitted(v, Pending(r), iovused + |v| == IOV_MAX - 1)
    ensures fits && Gather(v) == [] ==> Pending(r) == []
    ensures fits && r.chunkedDataIov == 0 ==> Gather(v) == Pending(r)
  {
    if iovused + |r.iov| >= IOV_MAX - 1 {
      return false, [];
    }
    if r.skip {
      return true, [];
    }
    v := EmitResp(r, iovused);
    fits := true;
  }

  /** What has been put into the vector once the first i responses have been looked at; `pend` is what
      each response has to send. */
  predicate Offered(v: seq<Slice>, pend: seq<seq<byte>>, i: nat, full: bool) {
    && i <= |pend|
    && Emitted(v, Flatten(pend[..i]), full)
    && (i == 0 ==> v == [])
    && (i > 0 && pend[0] != [] ==> Gather(v) != [])
  }

  lemma OfferedJoin(v: seq<Slice>, pend: seq<seq<byte>>, i: nat, w: seq<Slice>, full: bool)
    requires Offered(v, pend, i, false) && i < |pend| && Emitted(w, pend[i], full)
    requires Gather(w) == [] ==> pend[i] == []
    ensures Offered(v + w, pend, i + 1, full)
    ensures i == 0 ==> Gather(v + w) == Gather(w)
  {
    FlattenStep(pend, i);
    JoinEmitted(v, Flatten(pend[..i]), w, pend[i], full);
  }

  lemma OfferedWiden(v: seq<Slice>, pend: seq<seq<byte>>, i: nat, n: nat)
    requires Offered(v, pend, i, true) && i <= n <= |pend|
    ensures Emitted(v, Flatten(pend[..n]), true)
  {
    assert pend[..n][..i] == pend[..i];
    FlattenPrefix(pend[..n], i);
    WidenEmitted(v, Flatten(pend[..i]), Flatten(pend[..n]));
  }

  /** The walk has come to response i, or has stopped before it. */
  predicate Walked(recs: seq<Rec>, oneResp: bool, i: nat, stop: bool) {
    i <= |recs| && Scope(recs, oneResp) == i + if stop then 0 else Scope(recs[i..], oneResp)
  }

  lemma WalkOn(recs: seq<Rec>, oneResp: bool, i: nat)
    requires Walked(recs, oneResp, i, false) && i < |recs|
    ensures Walked(recs, oneResp, i + 1, oneResp && !recs[i].skip)
  {
    assert recs[i..][1..] == recs[i + 1..];
  }

  // ----- Moving a response forward -----

  predicate IsItem(r: Rec, x: nat) {
    r.chunkedDataIov != 0 && x == r.chunkedDataIov
  }

  /** Entry x of a response after its first n bytes have been sent. */
  function CutIov(r: Rec, x: nat, n: nat): Iov
    requires x < |r.iov| && IovOk(r, x) && n <= r.iov[x].len
  {
    if IsItem(r, x) then r.iov[x].(len := r.iov[x].len - n)
    else Iov(Memory(r.iov[x].base.bytes, r.iov[x].base.off + n), r.iov[x].len - n)
  }

  /** A response whose first x entries have been sent, and n bytes of the next one. */
  predicate Advanced(r: Rec, x: nat, n: nat, r': Rec)
    requires RecOk(r) && x < |r.iov|
  {
    && r' == r.(iov := r'.iov, tosend := r.tosend - SumLen(r.iov, x) - n)
    && |r'.iov| == |r.iov|
    && (forall k :: 0 <= k < x ==> r'.iov[k] == r.iov[k].(len := 0))
    && IovOk(r, x) && n <= r.iov[x].len && r'.iov[x] == CutIov(r, x, n)
    && (forall k :: x < k < |r.iov| ==> r'.iov[k] == r.iov[k])
  }

  lemma AdvancedEntry(r: Rec, x: nat, n: nat, r': Rec, k: nat)
    requires RecOk(r) && x < |r.iov| && Advanced(r, x, n, r') && k < |r.iov|
    ensures IovOk(r', k)
    ensures k < x ==> IovBytes(r', k) == []
    ensures k == x ==> n <= |IovBytes(r, x)| && IovBytes(r', k) == IovBytes(r, x)[n..]
    ensures k > x ==> IovBytes(r', k) == IovBytes(r, k)
  {
    assert IovOk(r, k);
  }

  lemma {:induction false} AdvancedSum(r: Rec, x: nat, n: nat, r': Rec, m: nat)
    requires RecOk(r) && x < |r.iov| && Advanced(r, x, n, r') && m <= |r.iov|
    ensures SumLen(r'.iov, m) == if m <= x then 0 else SumLen(r.iov, m) - SumLen(r.iov, x) - n
  {
    if m > 0 { AdvancedSum(r, x, n, r', m - 1); }
  }

  lemma {:induction false} FlattenEmpty(s: seq<seq<byte>>, n: nat)
    requires n <= |s| && forall k :: 0 <= k < n ==> s[k] == []
    ensures Flatten(s[..n]) == []
  {
    if n > 0 {
      FlattenEmpty(s, n - 1);
      FlattenStep(s, n - 1);
    }
  }

  /** The stream once the first k parts and n bytes of the next one are gone. */
  lemma StreamAfter(pend: seq<seq<byte>>, k: nat, n: nat)
    requires k < |pend| && n <= |pend[k]|
    ensures Flatten(pend[k..][0 := pend[k][n..]]) == Rest(Flatten(pend), |Flatten(pend[..k])| + n)
  {
    FlattenSplit(pend, k);
    FlattenHead(pend[k..]);
    var tail := pend[k..][0 := pend[k][n..]];
    FlattenHead(tail);
    assert tail[1..] == pend[k..][1..];
    DropInto(pend[k], Flatten(tail[1..]), n);
    DropPast(Flatten(pend[..k]), Flatten(pend[k..]), n);
  }

  /** The parts s once those before part x are gone and n bytes of part x. */
  predicate CutAt(s: seq<seq<byte>>, x: nat, n: nat, s': seq<seq<byte>>) {
    && x < |s| == |s'| && n <= |s[x]| && s'[x] == s[x][n..]
    && (forall k :: 0 <= k < x ==> s'[k] == [])
    && s'[x + 1..] == s[x + 1..]
  }

  lemma CutFlatten(s: seq<seq<byte>>, x: nat, n: nat, s': seq<seq<byte>>)
    requires CutAt(s, x, n, s')
    ensures Flatten(s') == Rest(Flatten(s), |Flatten(s[..x])| + n)
  {
    StreamAfter(s, x, n);
    FlattenSplit(s', x);
    FlattenEmpty(s', x);
    assert s'[x..] == [s'[x]] + s'[x + 1..];
    assert s[x..][0 := s[x][n..]] == [s[x][n..]] + s[x + 1..];
  }

  lemma AdvancedParts(r: Rec, x: nat, n: nat, r': Rec)
    requires RecOk(r) && x < |r.iov| && Advanced(r, x, n, r')
    ensures CutAt(Entries(r), x, n, Entries(r'))
  {
    AdvancedEntry(r, x, n, r', x);
    forall k | 0 <= k < x ensures Entries(r')[k] == [] { AdvancedEntry(r, x, n, r', k); }
    forall k | x < k < |r.iov| ensures Entries(r')[k] == Entries(r)[k] { AdvancedEntry(r, x, n, r', k); }
  }

  lemma AdvancedOk(r: Rec, x: nat, n: nat, r': Rec)
    requires RecOk(r) && x < |r.iov| && Advanced(r, x, n, r')
    ensures RecOk(r')
  {
    forall k | 0 <= k < |r'.iov| ensures IovOk(r', k) { AdvancedEntry(r, x, n, r', k); }
    AdvancedSum(r, x, n, r', |r.iov|);
  }

  lemma AdvancedFlatten(r: Rec, x: nat, n: nat, s': seq<seq<byte>>)
    requires RecOk(r) && CutAt(Entries(r), x, n, s')
    ensures Flatten(s') == Rest(Flatten(Entries(r)), SumLen(r.iov, x) + n)
  {
    var es := Entries(r);
    var k := |Flatten(es[..x])|;
    assert k == SumLen(r.iov, x) by { EntriesLength(r, x); }
    CutFlatten(es, x, n, s');
  }

  /** Sending some bytes of a response leaves exactly the others pending. */
  lemma AdvancedPending(r: Rec, x: nat, n: nat, r': Rec)
    requires RecOk(r) && !r.skip && x < |r.iov| && Advanced(r, x, n, r')
    ensures RecOk(r') && Pending(r') == Rest(Pending(r), SumLen(r.iov, x) + n)
  {
    AdvancedOk(r, x, n, r');
    AdvancedParts(r, x, n, r');
    AdvancedFlatten(r, x, n, Entries(r'));
  }

  /** The entries of a response whose first k entries have been sent. */
  predicate SentUpTo(r: Rec, k: nat, iov: seq<Iov>) {
    && k <= |r.iov| == |iov|
    && (forall j :: 0 <= j < k ==> iov[j] == r.iov[j].(len := 0))
    && (forall j :: k <= j < |iov| ==> iov[j] == r.iov[j])
  }

  /** Then n bytes of the next entry are sent. */
  lemma SentInto(r: Rec, b: seq<byte>, k: nat, iov: seq<Iov>, n: nat)
    requires Owes(r, b) && !r.skip && SentUpTo(r, k, iov) && k < |iov| && n < iov[k].len
    ensures IovOk(r, k) && iov[k].base == r.iov[k].base
    ensures var r' := r.(iov := iov[k := CutIov(r, k, n)], tosend := r.tosend - SumLen(r.iov, k) - n);
            Owes(r', Rest(b, SumLen(r.iov, k) + n))
  {
    assert IovOk(r, k);
    var r' := r.(iov := iov[k := CutIov(r, k, n)], tosend := r.tosend - SumLen(r.iov, k) - n);
    AdvancedPending(r, k, n, r');
  }

  // ----- Building a response -----

  lemma {:induction false} SameSums(a: seq<Iov>, b: seq<Iov>, n: nat)
    requires n <= |a| && a <= b
    ensures SumLen(a, n) == SumLen(b, n)
  {
    if n > 0 { SameSums(a, b, n - 1); }
  }

  /** The response with one more entry. */
  function WithIov(r: Rec, e: Iov): Rec {
    r.(iov := r.iov + [e], tosend := r.tosend + e.len)
  }

  function WithItem(r: Rec, e: Iov): Rec {
    WithIov(r, e).(chunkedDataIov := |r.iov|, chunkedTotal := e.len)
  }

  /** r' has the entry e as well. */
  predicate Extended(r: Rec, r': Rec, e: Iov) {
    && |r.iov| < MC_RESP_IOVCOUNT && |r'.iov| == |r.iov| + 1 && IovOk(r', |r.iov|)
    && (r' == WithIov(r, e) || (r' == WithItem(r, e) && r.chunkedDataIov == 0 && r.iov != []))
  }

  lemma ExtendedEntry(r: Rec, r': Rec, e: Iov, x: nat)
    requires RecOk(r) && Extended(r, r', e) && x < |r.iov|
    ensures IovOk(r', x) && IovBytes(r', x) == IovBytes(r, x)
  {
    assert IovOk(r, x);
  }

  lemma ExtendedOk(r: Rec, r': Rec, e: Iov)
    requires RecOk(r) && Extended(r, r', e)
    ensures RecOk(r')
  {
    forall x | 0 <= x < |r'.iov| ensures IovOk(r', x) {
      if x < |r.iov| { ExtendedEntry(r, r', e, x); }
    }
    SameSums(r.iov, r'.iov, |r.iov|);
  }

  lemma ExtendedEntries(r: Rec, r': Rec, e: Iov)
    requires RecOk(r) && Extended(r, r', e)
    ensures Entries(r') == Entries(r) + [IovBytes(r', |r.iov|)]
  {
    forall x | 0 <= x < |r.iov| ensures Entries(r')[x] == Entries(r)[x] { ExtendedEntry(r, r', e, x); }
  }

  lemma ExtendedPending(r: Rec, r': Rec, e: Iov)
    requires RecOk(r) && Extended(r, r', e)
    ensures RecOk(r') && Pending(r') == Pending(r) + if r.skip then [] else IovBytes(r', |r.iov|)
  {
    ExtendedOk(r, r', e);
    ExtendedEntries(r, r', e);
    FlattenSnoc(Entries(r), IovBytes(r', |r.iov|));
  }

  /** A slice of memory makes a response owe its bytes as well. */
  lemma MemoryOwes(r: Rec, b: seq<byte>, buf: seq<byte>, len: nat)
    requires Owes(r, b) && |r.iov| < MC_RESP_IOVCOUNT && len <= |buf|
    ensures Owes(WithIov(r, Iov(Memory(buf, 0), len)), b + if r.skip then [] else buf[..len])
  {
    var r' := WithIov(r, Iov(Memory(buf, 0), len));
    assert IovOk(r', |r.iov|) && IovBytes(r', |r.iov|) == buf[..len];
    ExtendedPending(r, r', Iov(Memory(buf, 0), len));
  }

  /** A chunked item makes it owe its first len bytes. */
  lemma ItemOwes(r: Rec, b: seq<byte>, chunks: seq<seq<byte>>, len: nat)
    requires Owes(r, b) && 0 < |r.iov| < MC_RESP_IOVCOUNT && r.chunkedDataIov == 0 && len <= |Flatten(chunks)|
    ensures Owes(WithItem(r, Iov(ItemHeader(chunks), len)), b + if r.skip then [] else Flatten(chunks)[..len])
  {
    var r' := WithItem(r, Iov(ItemHeader(chunks), len));
    assert IovOk(r', |r.iov|) && IovBytes(r', |r.iov|) == Flatten(chunks)[..len];
    ExtendedPending(r, r', Iov(ItemHeader(chunks), len));
  }

  // ----- The connection -----

  /** Response i has still to send pend[i]. */
  ghost predicate AllOwe(recs: seq<Rec>, pend: seq<seq<byte>>) {
    && |pend| == |recs|
    && forall i {:trigger Owes(recs[i], pend[i])} :: 0 <= i < |recs| ==> Owes(recs[i], pend[i])
  }

  lemma OweUpdate(recs: seq<Rec>, pend: seq<seq<byte>>, k: nat, r: Rec, b: seq<byte>)
    requires AllOwe(recs, pend) && k < |recs| && Owes(r, b)
    ensures AllOwe(recs[k := r], pend[k := b])
  {
    var rs, ps := recs[k := r], pend[k := b];
    forall i | 0 <= i < |rs| ensures Owes(rs[i], ps[i]) {
      if i != k { assert Owes(recs[i], pend[i]); }
    }
  }

  lemma OweSnoc(recs: seq<Rec>, pend: seq<seq<byte>>, r: Rec, b: seq<byte>)
    requires AllOwe(recs, pend) && Owes(r, b)
    ensures AllOwe(recs + [r], pend + [b])
  {
    var rs, ps := recs + [r], pend + [b];
    forall i | 0 <= i < |rs| ensures Owes(rs[i], ps[i]) {
      if i < |recs| { assert Owes(recs[i], pend[i]); }
    }
  }

  lemma OweTail(recs: seq<Rec>, pend: seq<seq<byte>>)
    requires AllOwe(recs, pend) && recs != []
    ensures AllOwe(recs[1..], pend[1..])
  {
    var rs, ps := recs[1..], pend[1..];
    forall i | 0 <= i < |rs| ensures Owes(rs[i], ps[i]) {
      assert Owes(recs[i + 1], pend[i + 1]);
    }
  }

  /** A response that has nothing to send yet. */
  function Started(udp: bool, requestId: nat, requestAddr: nat): (r: Rec)
    ensures Owes(r, [])
  {
    if udp then Rec([], 0, 0, 0, false, requestId, requestAddr, 0, 0) else Rec([], 0, 0, 0, false, 0, 0, 0, 0)
  }

  /** A response object of the chain. */
  class Resp {
    var next: Resp?
    var iov: seq<Iov>
    var tosend: int
    var chunkedDataIov: nat
    var chunkedTotal: nat
    var skip: bool
    var requestId: nat
    var requestAddr: nat
    var udpSequence: nat
    var udpTotal: nat

    constructor ()
      ensures next == null && Value() == Rec([], 0, 0, 0, false, 0, 0, 0, 0)
    {
      next := null;
      iov, tosend, chunkedDataIov, chunkedTotal, skip := [], 0, 0, 0, false;
      requestId, requestAddr, udpSequence, udpTotal := 0, 0, 0, 0;
    }

    function Value(): Rec
      reads this`iov, this`tosend, this`chunkedDataIov, this`chunkedTotal, this`skip
      reads this`requestId, this`requestAddr, this`udpSequence, this`udpTotal
    {
      Rec(iov, tosend, chunkedDataIov, chunkedTotal, skip, requestId, requestAddr, udpSequence, udpTotal)
    }
  }

  class Conn {
    var respHead: Resp?
    var resp: Resp?               // the response being built, the last of the chain
    ghost var chain: seq<Resp>    // the objects hanging off respHead
    ghost var recs: seq<Rec>      // their fields
    ghost var pend: seq<seq<byte>> // what each of them still has to send
    ghost var finished: seq<Resp> // the objects given back so far

    /** Object i of the chain holds the fields recs[i] and points to the next object. */
    ghost predicate Link(i: nat)
      reads this`chain, this`recs, chain
    {
      && i < |chain| && i < |recs| && chain[i].Value() == recs[i]
      && chain[i].next == if i + 1 < |chain| then chain[i + 1] else null
    }

    ghost predicate Ends()
      reads this`respHead, this`resp, this`chain
    {
      && respHead == (if chain == [] then null else chain[0])
      && resp == (if chain == [] then null else chain[|chain| - 1])
      && (forall i, j :: 0 <= i < j < |chain| ==> chain[i] != chain[j])
    }

    ghost predicate Agrees()
      reads this, chain
    {
      && |chain| == |recs| && Ends()
      && (forall i {:trigger Link(i)} :: 0 <= i < |chain| ==> Link(i))
    }

    /** As Agrees, but the fields of object n have changed. */
    ghost predicate AgreesBut(n: nat)
      reads this, chain
    {
      && n < |chain| == |recs| && Ends()
      && (forall i {:trigger Link(i)} :: 0 <= i < |chain| && i != n ==> Link(i))
      && chain[n].next == if n + 1 < |chain| then chain[n + 1] else null
    }

    ghost predicate Valid()
      reads this, chain
    {
      && Agrees()
      && AllOwe(recs, pend)
    }

    /** The bytes that are still to be sent, in order. */
    ghost function Stream(): seq<byte>
      reads this`pend
    {
      Flatten(pend)
    }

    constructor ()
      ensures Valid() && chain == [] && finished == [] && Stream() == []
    {
      respHead, resp := null, null;
      chain, recs, pend, finished := [], [], [], [];
    }

    /** Takes down the fields of object n, which owes b now. */
    ghost method Record(n: nat, b: seq<byte>)
      requires AgreesBut(n) && AllOwe(recs, pend) && Owes(chain[n].Value(), b)
      modifies this`recs, this`pend
      ensures Valid() && n < |old(recs)| == |old(pend)|
      ensures recs == old(recs)[n := chain[n].Value()] && pend == old(pend)[n := b]
    {
      OweUpdate(recs, pend, n, chain[n].Value(), b);
      recs, pend := recs[n := chain[n].Value()], pend[n := b];
      forall i | 0 <= i < |chain| ensures Link(i) { assert i != n ==> old(Link(i)); }
    }

    /** Hangs x on the end of the chain. */
    method Append(x: Resp)
      requires Valid() && x !in chain && x.next == null && Owes(x.Value(), [])
      modifies this`respHead, this`resp, this`chain, this`recs, this`pend, chain`next
      ensures Valid() && resp == x && chain == old(chain) + [x]
      ensures recs == old(recs) + [x.Value()] && pend == old(pend) + [[]]
    {
      ghost var n := |chain|;
      if respHead == null {
        respHead := x;
      }
      if resp == null {
        resp := x;
      } else {
        assert Link(n - 1);
        resp.next := x;
        resp := x;
      }
      OweSnoc(recs, pend, x.Value(), []);
      chain, recs, pend := chain + [x], recs + [x.Value()], pend + [[]];
      assert Link(n);
      forall i | 0 <= i < n ensures Link(i) { assert old(Link(i)); }
    }

    /** Starts the next response of the connection, unless no response object can be had.  Only a UDP response
        has to know where to go. */
    method RespStart(available: bool, udp: bool, requestId: nat, requestAddr: nat) returns (ok: bool)
      requires Valid()
      modifies this`respHead, this`resp, this`chain, this`recs, this`pend, chain`next
      ensures Valid() && (ok <==> available)
      ensures !ok ==> chain == old(chain) && recs == old(recs) && pend == old(pend)
      ensures ok ==> fresh(resp) && chain == old(chain) + [resp] && pend == old(pend) + [[]]
      ensures ok ==> recs == old(recs) + [Started(udp, requestId, requestAddr)]
      ensures ok ==> resp.requestId == if udp then requestId else 0
      ensures ok ==> resp.requestAddr == if udp then requestAddr else 0
      ensures ok ==> resp.iov == [] && resp.tosend == 0 && !resp.skip && resp.udpTotal == resp.udpSequence == 0
    {
      if !available {
        return false;
      }
      var x := new Resp();
      if udp {
        x.requestId, x.requestAddr := requestId, requestAddr;
      }
      Append(x);
      return true;
    }

    /** Adds len bytes of memory to the response being built. */
    method RespAddIov(buf: seq<byte>, len: nat)
      requires Valid() && resp != null && len <= |buf| && |resp.iov| < MC_RESP_IOVCOUNT
      modifies this`recs, this`pend, resp`iov, resp`tosend
      ensures Valid() && chain == old(chain) && |pend| == |old(pend)| > 0
      ensures pend == old(pend)[|pend| - 1 := old(pend)[|pend| - 1] + if resp.skip then [] else buf[..len]]
      ensures Stream() == old(Stream()) + if resp.skip then [] else buf[..len]
    {
      ghost var n, b := |chain| - 1, if resp.skip then [] else buf[..len];
      ghost var r := WithIov(recs[n], Iov(Memory(buf, 0), len));
      assert Link(n) && Owes(recs[n], pend[n]);
      MemoryOwes(recs[n], pend[n], buf, len);
      ReplaceLast(pend, b);
      resp.iov := resp.iov + [Iov(Memory(buf, 0), len)];
      resp.tosend := resp.tosend + len;
      assert resp.Value() == r;
      forall i | 0 <= i < |chain| && i != n ensures Link(i) { assert old(Link(i)); }
      Record(n, pend[n] + b);
    }

    /** Adds the first len bytes of a chunked item to the response being built.  A chunked item cannot
        be the first entry: chunkedDataIov would be 0, which means that there is none. */
    method RespAddChunkedIov(chunks: seq<seq<byte>>, len: nat)
      requires Valid() && resp != null && len <= |Flatten(chunks)|
      requires 0 < |resp.iov| < MC_RESP_IOVCOUNT && resp.chunkedDataIov == 0
      modifies this`recs, this`pend, resp`iov, resp`tosend, resp`chunkedDataIov, resp`chunkedTotal
      ensures Valid() && chain == old(chain) && |pend| == |old(pend)| > 0
      ensures pend == old(pend)[|pend| - 1 := old(pend)[|pend| - 1] + if resp.skip then [] else Flatten(chunks)[..len]]
      ensures Stream() == old(Stream()) + if resp.skip then [] else Flatten(chunks)[..len]
    {
      ghost var n, b := |chain| - 1, if resp.skip then [] else Flatten(chunks)[..len];
      ghost var r := WithItem(recs[n], Iov(ItemHeader(chunks), len));
      assert Link(n) && Owes(recs[n], pend[n]);
      ItemOwes(recs[n], pend[n], chunks, len);
      ReplaceLast(pend, b);
      resp.chunkedDataIov := |resp.iov|;
      resp.chunkedTotal := len;
      resp.iov := resp.iov + [Iov(ItemHeader(chunks), len)];
      resp.tosend := resp.tosend + len;
      assert resp.Value() == r;
      forall i | 0 <= i < |chain| && i != n ensures Link(i) { assert old(Link(i)); }
      Record(n, pend[n] + b);
    }

    /** What out_string does to the response of a "noreply" command: resets it and has it skipped. */
    method RespSkip()
      requires Valid() && resp != null
      modifies this`recs, this`pend
      modifies resp`iov, resp`tosend, resp`chunkedDataIov, resp`chunkedTotal, resp`skip
      ensures Valid() && chain == old(chain)
      ensures |pend| == |old(pend)| > 0 && pend == old(pend)[|pend| - 1 := []] && recs[|pend| - 1].skip
    {
      ghost var n := |chain| - 1;
      assert Link(n);
      resp.tosend := 0;
      resp.iov := [];
      resp.chunkedDataIov, resp.chunkedTotal := 0, 0;
      resp.skip := true;
      forall i | 0 <= i < |chain| && i != n ensures Link(i) { assert old(Link(i)); }
      Record(n, []);
    }

    /** Offers response i as well, unless its entries might not fit. */
    method OfferNext(resp: Resp, iovused: nat, v: seq<Slice>, ghost i: nat) returns (fits: bool, v': seq<Slice>)
      requires Valid() && i < |chain| && resp == chain[i] && iovused + |v| <= IOV_MAX - 1
      requires Offered(v, pend, i, iovused + |v| == IOV_MAX - 1)
      ensures !fits ==> v' == v && iovused + |v| + MC_RESP_IOVCOUNT >= IOV_MAX - 1
      ensures fits ==> iovused + |v'| <= IOV_MAX - 1 && Offered(v', pend, i + 1, iovused + |v'| == IOV_MAX - 1)
      ensures fits && i == 0 && recs[0].chunkedDataIov == 0 ==> Gather(v') == pend[0]
    {
      assert Link(i) && Owes(recs[i], pend[i]);
      var w;
      fits, w := OfferResp(resp.Value(), iovused + |v|);
      v' := v + w;
      if fits {
        OfferedJoin(v, pend, i, w, iovused + |v'| == IOV_MAX - 1);
      }
    }

    /** The walk of _transmit_pre down the chain: the first i responses have been offered when it stops
        at the end of the chain, after one response, or for want of slots. */
    method OfferChain(iovused: nat, oneResp: bool) returns (v: seq<Slice>, ghost i: nat)
      requires Valid() && iovused <= 1
      ensures iovused + |v| <= IOV_MAX - 1 && i <= |recs|
      ensures Offered(v, pend, i, iovused + |v| == IOV_MAX - 1)
      ensures i == Scope(recs, oneResp) || (i < Scope(recs, oneResp) && iovused + |v| + MC_RESP_IOVCOUNT >= IOV_MAX - 1)
      ensures i == 1 && recs[0].chunkedDataIov == 0 ==> Gather(v) == pend[0]
    {
      v, i := [], 0;
      assert recs[0..] == recs;
      var resp, fits, stop := respHead, true, false;
      while resp != null && !stop
        invariant i <= |chain| && resp == (if i < |chain| then chain[i] else null)
        invariant iovused + |v| <= IOV_MAX - 1 && Walked(recs, oneResp, i, stop)
        invariant Offered(v, pend, i, iovused + |v| == IOV_MAX - 1)
        invariant i == 1 && recs[0].chunkedDataIov == 0 ==> Gather(v) == pend[0]
        decreases |chain| - i
      {
        assert Link(i);
        fits, v := OfferNext(resp, iovused, v, i);
        if !fits {
          break;
        }
        WalkOn(recs, oneResp, i);
        stop := oneResp && !resp.skip;
        resp, i := resp.next, i + 1;
      }
    }

    /** Fills the I/O vector from the chain, when iovused slots are taken.  The entries are a prefix of
        what is pending; they stop short of it only when the slots run out. */
    method TransmitPre(iovused: nat, oneResp: bool) returns (v: seq<Slice>)
      requires Valid() && iovused <= 1
      ensures iovused + |v| <= IOV_MAX - 1 && AllOk(v)
      ensures Emitted(v, Flatten(pend[..Scope(recs, oneResp)]), iovused + |v| + MC_RESP_IOVCOUNT >= IOV_MAX - 1)
      ensures recs != [] && pend[0] != [] ==> Gather(v) != []
      ensures oneResp && recs != [] && !recs[0].skip && recs[0].chunkedDataIov == 0 ==> Gather(v) == pend[0]
    {
      ghost var i;
      v, i := OfferChain(iovused, oneResp);
      OfferedWiden(v, pend, i, Scope(recs, oneResp));
    }

    /** Unchains the head response and gives its object back. */
    method FinishHead()
      requires Valid() && chain != []
      modifies this`respHead, this`resp, this`chain, this`recs, this`pend, this`finished
      ensures Valid()
      ensures chain == old(chain)[1..] && recs == old(recs)[1..] && pend == old(pend)[1..]
      ensures finished == old(finished) + [old(chain)[0]]
    {
      ghost var x := chain[0];
      var head := respHead;
      var next := head.next;
      assert Link(0);
      respHead := next;
      if resp == head {
        resp := null;
      }
      OweTail(recs, pend);
      chain, recs, pend := chain[1..], recs[1..], pend[1..];
      finished := finished + [x];
      forall i | 0 <= i < |chain| ensures Link(i) { assert old(Link(i + 1)); }
    }

    /** Moves entry k, the first that has not been sent, forward by n bytes. */
    method AdvanceInto(x: Resp, k: nat, n: nat, ghost r: Rec, ghost b: seq<byte>)
      requires Owes(r, b) && !r.skip && SentUpTo(r, k, x.iov) && k < |x.iov| && n < x.iov[k].len
      requires x.Value() == r.(iov := x.iov, tosend := r.tosend - SumLen(r.iov, k))
      modifies x`iov, x`tosend
      ensures Owes(x.Value(), Rest(b, SumLen(r.iov, k) + n))
      ensures x.Value() == r.(iov := x.iov, tosend := r.tosend - SumLen(r.iov, k) - n)
    {
      SentInto(r, b, k, x.iov, n);
      var entry := x.iov[k];
      var base := entry.base;
      if x.chunkedDataIov == 0 || k != x.chunkedDataIov {
        base := Memory(base.bytes, base.off + n);
      }
      x.iov := x.iov[k := Iov(base, entry.len - n)];
      x.tosend := x.tosend - n;
    }

    /** The loop over the entries of a response that was sent in part. */
    method Advance(x: Resp, res: nat, ghost b: seq<byte>)
      requires Owes(x.Value(), b) && !x.skip && res < x.tosend
      modifies x`iov, x`tosend
      ensures Owes(x.Value(), Rest(b, res))
      ensures x.Value() == old(x.Value()).(iov := x.iov, tosend := old(x.tosend) - res)
    {
      ghost var r := x.Value();
      var rem: nat := res;
      var k := 0;
      while k < |x.iov|
        invariant SentUpTo(r, k, x.iov) && SumLen(r.iov, k) + rem == res
        invariant x.Value() == r.(iov := x.iov, tosend := r.tosend - SumLen(r.iov, k))
      {
        var entry := x.iov[k];
        if rem >= entry.len {
          x.tosend := x.tosend - entry.len;
          rem := rem - entry.len;
          x.iov := x.iov[k := entry.(len := 0)];
          k := k + 1;
        } else {
          AdvanceInto(x, k, rem, r, b);
          return;
        }
      }
      assert false;
    }

    /** The head response has been sent in part. */
    method AdvanceHead(res: nat)
      requires Valid() && chain != [] && !recs[0].skip && res < recs[0].tosend
      modifies this`recs, this`pend, respHead`iov, respHead`tosend
      ensures Valid() && |recs| == |old(recs)| == |old(pend)| > 0
      ensures pend == old(pend)[0 := Rest(old(pend)[0], res)]
      ensures recs == old(recs)[0 := old(recs)[0].(iov := recs[0].iov, tosend := old(recs)[0].tosend - res)]
    {
      AdvanceFields(res);
      Record(0, Rest(pend[0], res));
    }

    method AdvanceFields(res: nat)
      requires Valid() && chain != [] && !recs[0].skip && res < recs[0].tosend
      modifies respHead`iov, respHead`tosend
      ensures AgreesBut(0) && Owes(chain[0].Value(), Rest(pend[0], res))
      ensures chain[0].Value() == recs[0].(iov := chain[0].iov, tosend := recs[0].tosend - res)
    {
      assert Link(0) && Owes(recs[0], pend[0]);
      Advance(respHead, res, pend[0]);
      forall i | 0 <= i < |chain| && i != 0 ensures Link(i) { assert old(Link(i)); }
    }

    /** Finishes the head response if it is skipped or covered by rem bytes that were sent. */
    method FinishIfSent(rem: nat) returns (done: bool, left: nat)
      requires Valid() && chain != []
      modifies this`respHead, this`resp, this`chain, this`recs, this`pend, this`finished
      ensures Valid() && 0 < |old(recs)| == |old(pend)|
      ensures done <==> old(recs)[0].skip || rem >= old(recs)[0].tosend
      ensures done ==> chain == old(chain)[1..] && recs == old(recs)[1..] && pend == old(pend)[1..]
      ensures done ==> finished == old(finished) + [old(chain)[0]] && left + |old(pend)[0]| == rem
      ensures !done ==> chain == old(chain) && recs == old(recs) && pend == old(pend) && finished == old(finished)
      ensures !done ==> left == rem && !recs[0].skip && rem < recs[0].tosend == |pend[0]|
    {
      assert Link(0) && Owes(recs[0], pend[0]);
      if respHead.skip {
        FinishHead();
        return true, rem;
      }
      if rem >= respHead.tosend {
        left := rem - respHead.tosend;
        FinishHead();
        return true, left;
      }
      return false, rem;
    }

    /** Finishes skipped and completely sent responses, in order, as long as the head is one.  k counts
        them; `rem` bytes belong to the response that is the head then. */
    method FinishSent(res: nat) returns (rem: nat, ghost k: nat)
      requires Valid()
      modifies this`respHead, this`resp, this`chain, this`recs, this`pend, this`finished
      ensures Valid() && k <= |old(chain)| && rem <= res
      ensures chain == old(chain)[k..] && recs == old(recs)[k..] && pend == old(pend)[k..]
      ensures finished == old(finished) + old(chain)[..k]
      ensures |Flatten(old(pend)[..k])| + rem == res
      ensures chain != [] ==> !recs[0].skip && rem < recs[0].tosend == |pend[0]|
      ensures k > 0 ==> old(recs)[0].skip || res >= old(recs)[0].tosend
    {
      ghost var pend0 := pend;
      rem, k := res, 0;
      var done := true;
      while done && respHead != null
        invariant Valid() && k <= |old(chain)|
        invariant chain == old(chain)[k..] && recs == old(recs)[k..] && pend == pend0[k..]
        invariant finished == old(finished) + old(chain)[..k]
        invariant |Flatten(pend0[..k])| + rem == res
        invariant k > 0 ==> old(recs)[0].skip || res >= old(recs)[0].tosend
        invariant !done ==> chain != [] && !recs[0].skip && rem < recs[0].tosend == |pend[0]|
        decreases |chain|, done
      {
        FlattenStep(pend0, k);
        done, rem := FinishIfSent(rem);
        if done {
          k := k + 1;
        }
      }
    }

    /** Drops what a successful sendmsg has sent: finishes the responses sent in full, in order, and
        moves the next one forward.  k counts the finished ones. */
    method TransmitPost(res: nat) returns (ghost k: nat)
      requires Valid()
      modifies this`respHead, this`resp, this`chain, this`recs, this`pend, this`finished
      modifies chain`iov, chain`tosend
      ensures Valid() && Stream() == Rest(old(Stream()), res)
      ensures k <= |old(chain)| && chain == old(chain)[k..] && finished == old(finished) + old(chain)[..k]
      ensures old(pend) != [] && old(pend)[0] == [] ==> k > 0
      ensures old(recs) != [] && !old(recs)[0].skip ==> (k > 0 <==> res >= old(recs)[0].tosend)
      ensures k == 0 && chain != [] ==> res < |old(pend)[0]| && pend == old(pend)[0 := old(pend)[0][res..]]
      ensures |recs| == |chain| && forall i :: 1 <= i < |recs| ==> recs[i] == old(recs)[k + i]
      ensures chain != [] ==> !recs[0].skip && recs[0].tosend > 0 && pend[0] != []
      ensures chain != [] ==>
                recs[0] == old(recs)[k].(iov := recs[0].iov, tosend := recs[0].tosend)
    {
      var rem;
      rem, k := FinishSent(res);
      if respHead != null {
        StreamAfter(old(pend), k, rem);
        AdvanceHead(rem);
        // tosend cannot have reached 0: this response is the new head.
        assert recs[0].tosend > 0;
      } else {
        assert old(pend)[..k] == old(pend);
      }
    }
  }
}
