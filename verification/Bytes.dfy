/** Bytes, slices of memory and chains of chunks, as the rest of the model sees them. */
module Bytes {

  type byte = n: nat | n < 256

  lemma PrefixSum<T>(a: seq<T>, b: seq<T>, c: seq<T>)
    requires b <= c
    ensures a + b <= a + c
  {
  }

  lemma MoveOver<T>(f: seq<T>, s: seq<T>, k: nat)
    requires k <= |s|
    ensures f + s[..k] + s[k..] == f + s
  {
  }

  lemma CopyOn<T>(base: seq<T>, src: seq<T>, k: nat, n: nat)
    requires k + n <= |src|
    ensures base + src[..k] + src[k..k + n] == base + src[..k + n]
  {
  }

  lemma DropInto<T>(a: seq<T>, b: seq<T>, k: nat)
    requires k <= |a|
    ensures (a + b)[k..] == a[k..] + b
  {
  }

  lemma DropPast<T>(a: seq<T>, b: seq<T>, n: nat)
    requires n <= |b|
    ensures (a + b)[|a| + n..] == b[n..]
  {
  }

  /** The contents of the first n chunks of a chain: their used parts, in order. */
  function Flattened(chunks: seq<seq<byte>>, n: nat): seq<byte>
    requires n <= |chunks|
  {
    if n == 0 then [] else Flattened(chunks, n - 1) + chunks[n - 1]
  }

  /** The contents of a chain of chunks. */
  function Flatten(chunks: seq<seq<byte>>): seq<byte> {
    Flattened(chunks, |chunks|)
  }

  lemma {:induction false} FlattenedFirst(a: seq<seq<byte>>, b: seq<seq<byte>>, n: nat)
    requires n <= |a| && a <= b
    ensures Flattened(b, n) == Flattened(a, n)
  {
    if n > 0 { FlattenedFirst(a, b, n - 1); }
  }

  lemma FlattenSnoc(s: seq<seq<byte>>, b: seq<byte>)
    ensures Flatten(s + [b]) == Flatten(s) + b
  {
    FlattenedFirst(s, s + [b], |s|);
  }

  lemma FlattenStep(chunks: seq<seq<byte>>, c: nat)
    requires c < |chunks|
    ensures Flatten(chunks[..c + 1]) == Flatten(chunks[..c]) + chunks[c]
  {
    FlattenSnoc(chunks[..c], chunks[c]);
    assert chunks[..c] + [chunks[c]] == chunks[..c + 1];
  }

  /** The contents of the first c chunks are a prefix of the contents of the chain. */
  lemma {:induction false} FlattenPrefix(chunks: seq<seq<byte>>, c: nat)
    requires c <= |chunks|
    ensures Flatten(chunks[..c]) <= Flatten(chunks)
    decreases |chunks| - c
  {
    if c < |chunks| {
      FlattenStep(chunks, c);
      FlattenPrefix(chunks, c + 1);
    } else {
      assert chunks[..c] == chunks;
    }
  }

  lemma {:induction false} FlattenConcat(a: seq<seq<byte>>, b: seq<seq<byte>>)
    ensures Flatten(a + b) == Flatten(a) + Flatten(b)
  {
    if b == [] {
      assert a + b == a;
    } else {
      var n := |b| - 1;
      FlattenConcat(a, b[..n]);
      FlattenSnoc(b[..n], b[n]);
      FlattenSnoc(a + b[..n], b[n]);
      assert b[..n] + [b[n]] == b;
      assert a + b[..n] + [b[n]] == a + b;
    }
  }

  lemma FlattenSplit(s: seq<seq<byte>>, i: nat)
    requires i <= |s|
    ensures Flatten(s) == Flatten(s[..i]) + Flatten(s[i..])
  {
    FlattenConcat(s[..i], s[i..]);
    assert s[..i] + s[i..] == s;
  }

  lemma FlattenHead(s: seq<seq<byte>>)
    requires s != []
    ensures Flatten(s) == s[0] + Flatten(s[1..])
  {
    FlattenSplit(s, 1);
    FlattenStep(s, 0);
  }

  lemma ReplaceLast(chunks: seq<seq<byte>>, b: seq<byte>)
    requires chunks != []
    ensures var n := |chunks| - 1; Flatten(chunks[n := chunks[n] + b]) == Flatten(chunks) + b
  {
    var n := |chunks| - 1;
    FlattenSnoc(chunks[..n], chunks[n]);
    FlattenSnoc(chunks[..n], chunks[n] + b);
    assert chunks[..n] + [chunks[n]] == chunks;
    assert chunks[..n] + [chunks[n] + b] == chunks[n := chunks[n] + b];
  }

  /** What is left of s once n bytes are gone. */
  function Rest(s: seq<byte>, n: nat): seq<byte> {
    if n >= |s| then [] else s[n..]
  }

  lemma Within(a: seq<byte>, b: seq<byte>, whole: seq<byte>)
    requires a + b <= whole
    ensures forall k :: 0 <= k < |b| ==> b[k] == whole[|a| + k]
  {
    forall k | 0 <= k < |b| ensures b[k] == whole[|a| + k] { assert (a + b)[|a| + k] == b[k]; }
  }

  /** Where chunk c lies in the contents of its chain. */
  lemma ChunkInFlatten(chunks: seq<seq<byte>>, c: nat)
    requires c < |chunks|
    ensures var pos := |Flatten(chunks[..c])|;
      && |Flatten(chunks[..c + 1])| == pos + |chunks[c]| <= |Flatten(chunks)|
      && forall k :: 0 <= k < |chunks[c]| ==> chunks[c][k] == Flatten(chunks)[pos + k]
  {
    FlattenStep(chunks, c);
    FlattenPrefix(chunks, c + 1);
    Within(Flatten(chunks[..c]), chunks[c], Flatten(chunks));
  }

  /** One entry of an I/O vector: len bytes at offset off of some piece of memory. */
  datatype Slice = Slice(memory: seq<byte>, off: nat, len: nat)
  {
    predicate Ok() {
      off + len <= |memory|
    }

    function Bytes(): (b: seq<byte>)
      requires Ok()
      ensures |b| == len
    {
      memory[off..off + len]
    }
  }

  predicate AllOk(v: seq<Slice>) {
    forall i :: 0 <= i < |v| ==> v[i].Ok()
  }

  /** The bytes the first n entries of an I/O vector stand for. */
  function Gathered(v: seq<Slice>, n: nat): seq<byte>
    requires AllOk(v) && n <= |v|
  {
    if n == 0 then [] else Gathered(v, n - 1) + v[n - 1].Bytes()
  }

  /** The bytes an I/O vector stands for. */
  function Gather(v: seq<Slice>): seq<byte>
    requires AllOk(v)
  {
    Gathered(v, |v|)
  }

  lemma {:induction false} GatheredFirst(v: seq<Slice>, w: seq<Slice>, n: nat)
    requires AllOk(v) && AllOk(w) && n <= |v| && v <= w
    ensures Gathered(w, n) == Gathered(v, n)
  {
    if n > 0 { GatheredFirst(v, w, n - 1); }
  }

  lemma GatherAppend(v: seq<Slice>, s: Slice)
    requires AllOk(v) && s.Ok()
    ensures AllOk(v + [s]) && Gather(v + [s]) == Gather(v) + s.Bytes()
  {
    GatheredFirst(v, v + [s], |v|);
  }

  lemma {:induction false} GatherConcat(v: seq<Slice>, w: seq<Slice>)
    requires AllOk(v) && AllOk(w)
    ensures AllOk(v + w) && Gather(v + w) == Gather(v) + Gather(w)
  {
    if w == [] {
      assert v + w == v;
    } else {
      var n := |w| - 1;
      GatherConcat(v, w[..n]);
      GatherAppend(w[..n], w[n]);
      GatherAppend(v + w[..n], w[n]);
      assert w[..n] + [w[n]] == w;
      assert v + w[..n] + [w[n]] == v + w;
    }
  }

  lemma GatherStep(v: seq<Slice>, x: nat)
    requires AllOk(v) && x < |v|
    ensures Gather(v[..x + 1]) == Gather(v[..x]) + v[x].Bytes()
  {
    GatherAppend(v[..x], v[x]);
    assert v[..x] + [v[x]] == v[..x + 1];
  }

  lemma GatherPrefix(v: seq<Slice>, x: nat)
    requires AllOk(v) && x <= |v|
    ensures Gather(v[..x]) <= Gather(v)
  {
    GatherConcat(v[..x], v[x..]);
    assert v[..x] + v[x..] == v;
  }
}
