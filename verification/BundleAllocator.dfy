/** The per-thread allocator of response objects.

    Response objects live in the slots of bundles, each bundle occupying one read buffer.  A thread
    links its non-full bundles into a doubly linked list, allocates from the head bundle only, and
    gives a bundle back when its last slot is freed, unless it is the only one on the list. */
module BundleAllocator {
  import opened Arith
  import opened Options

  const READ_BUFFER_SIZE: nat := 16384

  class Bundle {
    var refcount: nat
    var nextCheck: nat
    var next: Bundle?
    var prev: Bundle?
    var free: seq<bool>

    constructor (max: nat)
      requires max >= 1
      ensures refcount == 1 && nextCheck == 1 && next == null && prev == null
      ensures free == seq(max, i => i != 0)
    {
      nextCheck := 1;
      refcount := 1;
      next, prev := null, null;
      new;
      free := seq(max, _ => true);
      free := free[0 := false];
    }

    ghost function Value(): Rec
      reads this
    {
      Rec(refcount, nextCheck, next, prev, free)
    }
  }

  /** The address of a response object: a slot of a bundle. */
  datatype Slot = Slot(bundle: Bundle, index: nat)

  /** The fields of one bundle. */
  datatype Rec = Rec(refcount: nat, nextCheck: nat, next: Bundle?, prev: Bundle?, free: seq<bool>)

  /** The state of one thread's allocator: its live bundles, the list of bundles hanging off the
      head pointer, and the response objects handed out and not yet freed. */
  datatype Heap = Heap(max: nat, recs: map<Bundle, Rec>, open: seq<Bundle>, slots: set<Slot>)

  ghost function Head(h: Heap): Bundle? {
    if h.open == [] then null else h.open[0]
  }

  /** The slots in use. */
  ghost function Used(free: seq<bool>): set<nat> {
    set x: nat | x < |free| && !free[x]
  }

  // ----- The invariant -----

  /** `open` is an acyclic doubly linked list of live bundles. */
  ghost predicate Listed(h: Heap) {
    && (forall i, j :: 0 <= i < j < |h.open| ==> h.open[i] != h.open[j])
    && (forall i :: 0 <= i < |h.open| ==> h.open[i] in h.recs)
    && (h.open != [] ==> h.recs[h.open[0]].prev == null && h.recs[h.open[|h.open| - 1]].next == null)
    && (forall i, j :: 0 <= i && j == i + 1 && j < |h.open| ==>
        h.recs[h.open[i]].next == h.open[j] && h.recs[h.open[j]].prev == h.open[i])
  }

  /** The reference count of a bundle is the number of its slots in use. */
  ghost predicate Counted(h: Heap) {
    && 2 <= h.max <= 255
    && (forall b {:trigger h.recs[b].free} :: b in h.recs ==>
        && |h.recs[b].free| == h.max
        && h.recs[b].refcount == |Used(h.recs[b].free)|
        && h.recs[b].nextCheck <= h.max)
  }

  /** The list holds exactly the bundles that are not full.  The links of `pending` may be stale. */
  ghost predicate Linked(h: Heap, pending: Bundle?) {
    forall b {:trigger b in h.open} :: b in h.recs ==>
      && (b != pending ==> (b in h.open <==> h.recs[b].refcount < h.max))
      && (b !in h.open ==> h.recs[b].next == null && h.recs[b].prev == null)
  }

  /** At most one bundle is unused, and it is the last of the list. */
  ghost predicate UnusedIsLast(h: Heap, pending: Bundle?) {
    forall b {:trigger h.recs[b].refcount} :: b in h.recs && b != pending && h.recs[b].refcount == 0 ==>
      h.open != [] && b == h.open[|h.open| - 1]
  }

  /** A slot is in use exactly when its response object has been handed out and not freed. */
  ghost predicate SlotsMatch(h: Heap) {
    && (forall s :: s in h.slots ==> s.bundle in h.recs && s.index < |h.recs[s.bundle].free|)
    && (forall b, x {:trigger Slot(b, x)} :: b in h.recs && 0 <= x < |h.recs[b].free| ==>
        (!h.recs[b].free[x] <==> Slot(b, x) in h.slots))
  }

  ghost predicate HeapExcept(h: Heap, pending: Bundle?) {
    Listed(h) && Counted(h) && Linked(h, pending) && UnusedIsLast(h, pending) && SlotsMatch(h)
  }

  ghost predicate HeapOk(h: Heap) {
    HeapExcept(h, null)
  }

  lemma Neighbours(h: Heap, i: nat)
    requires Listed(h) && i < |h.open|
    ensures h.recs[h.open[i]].next == if i + 1 < |h.open| then h.open[i + 1] else null
    ensures h.recs[h.open[i]].prev == if i == 0 then null else h.open[i - 1]
  {
    if i + 1 < |h.open| { assert h.recs[h.open[i]].next == h.open[i + 1]; }
    if i > 0 { assert h.recs[h.open[i]].prev == h.open[i - 1]; }
  }

  // ----- The steps of resp_allocate and resp_free on that state -----

  ghost function MarkUsed(h: Heap, s: Slot): Heap
    requires s.bundle in h.recs && s.index < |h.recs[s.bundle].free|
  {
    var r := h.recs[s.bundle];
    h.(recs := h.recs[s.bundle := r.(refcount := r.refcount + 1, nextCheck := s.index + 1,
                                     free := r.free[s.index := false])],
       slots := h.slots + {s})
  }

  ghost function UnlinkHead(h: Heap): Heap
    requires Listed(h) && h.open != []
  {
    var b := h.open[0];
    var recs := if |h.open| == 1 then h.recs
                else h.recs[h.open[1] := h.recs[h.open[1]].(prev := null)][b := h.recs[b].(next := null)];
    h.(recs := recs, open := h.open[1..])
  }

  ghost function AddBundle(h: Heap, b: Bundle): Heap {
    h.(recs := h.recs[b := Rec(1, 1, null, null, seq(h.max, i => i != 0))],
       open := [b], slots := h.slots + {Slot(b, 0)})
  }

  ghost function MarkFree(h: Heap, s: Slot): Heap
    requires s.bundle in h.recs && s.index < |h.recs[s.bundle].free| && h.recs[s.bundle].refcount > 0
  {
    var r := h.recs[s.bundle];
    h.(recs := h.recs[s.bundle := r.(refcount := r.refcount - 1, free := r.free[s.index := true])],
       slots := h.slots - {s})
  }

  /** The records after the neighbours of b have been joined. */
  ghost function Join(h: Heap, b: Bundle): map<Bundle, Rec>
    requires b in h.recs
    requires h.recs[b].next != null ==> h.recs[b].next in h.recs
    requires h.recs[b].prev != null ==> h.recs[b].prev in h.recs
  {
    var r := h.recs[b];
    var m := if r.next == null then h.recs else h.recs[r.next := h.recs[r.next].(prev := r.prev)];
    if r.prev == null then m else m[r.prev := m[r.prev].(next := r.next)]
  }

  ghost function DropBundle(h: Heap, i: nat): Heap
    requires Listed(h) && i < |h.open|
  {
    Neighbours(h, i);
    h.(recs := Join(h, h.open[i]) - {h.open[i]}, open := h.open[..i] + h.open[i + 1..])
  }

  ghost function PushHead(h: Heap, b: Bundle): Heap
    requires Listed(h) && b in h.recs
  {
    var m := h.recs[b := h.recs[b].(prev := null, next := Head(h))];
    h.(recs := if h.open == [] then m else m[h.open[0] := m[h.open[0]].(prev := b)],
       open := [b] + h.open)
  }

  // ----- Every step keeps the invariant -----

  /** A bundle whose slots are all in use has as many slots in use as it has slots, and no other
      bundle does. */
  lemma {:induction false} FullMeansNoFreeSlot(free: seq<bool>)
    ensures |Used(free)| <= |free|
    ensures |Used(free)| == |free| <==> forall x :: 0 <= x < |free| ==> !free[x]
  {
    if free != [] {
      var n := |free| - 1;
      var front := free[..n];
      FullMeansNoFreeSlot(front);
      assert Used(free) == Used(front) + (if free[n] then {} else {n});
    }
  }

  lemma MarkUsedCounts(h: Heap, s: Slot)
    requires Counted(h) && s.bundle in h.recs && s.index < h.max && h.recs[s.bundle].free[s.index]
    ensures h.recs[s.bundle].refcount < h.max
    ensures Counted(MarkUsed(h, s))
  {
    var free := h.recs[s.bundle].free;
    FullMeansNoFreeSlot(free);
    assert Used(free[s.index := false]) == Used(free) + {s.index};
    assert s.index !in Used(free);
  }

  lemma MarkUsedSlots(h: Heap, s: Slot)
    requires SlotsMatch(h) && s.bundle in h.recs && s.index < |h.recs[s.bundle].free|
    requires h.recs[s.bundle].free[s.index]
    ensures s !in h.slots
    ensures SlotsMatch(MarkUsed(h, s))
  {
    assert s == Slot(s.bundle, s.index);
  }

  lemma MarkUsedKeeps(h: Heap, s: Slot)
    requires HeapOk(h) && s.bundle in h.open && s.index < h.max && h.recs[s.bundle].free[s.index]
    ensures HeapExcept(MarkUsed(h, s), s.bundle)
    ensures h.recs[s.bundle].refcount < h.max && s !in h.slots
  {
    MarkUsedCounts(h, s);
    MarkUsedSlots(h, s);
  }

  lemma UnlinkHeadList(h: Heap)
    requires h.open != [] && Listed(h)
    ensures Listed(UnlinkHead(h))
    ensures h.open[0] !in UnlinkHead(h).open && UnlinkHead(h).recs.Keys == h.recs.Keys
    ensures UnlinkHead(h).recs[h.open[0]].next == null && UnlinkHead(h).recs[h.open[0]].prev == null
  {
    Neighbours(h, 0);
  }

  lemma UnlinkHeadRest(h: Heap)
    requires h.open != [] && Listed(h) && Counted(h) && SlotsMatch(h)
    requires UnusedIsLast(h, h.open[0]) && h.recs[h.open[0]].refcount == h.max
    ensures Counted(UnlinkHead(h)) && SlotsMatch(UnlinkHead(h)) && UnusedIsLast(UnlinkHead(h), null)
  {
  }

  lemma UnlinkHeadKeeps(h: Heap)
    requires h.open != [] && HeapExcept(h, h.open[0]) && h.recs[h.open[0]].refcount == h.max
    ensures HeapOk(UnlinkHead(h))
  {
    forall b ensures b in h.open[1..] <==> b in h.open && b != h.open[0] {
      RemoveAt(h.open, 0, b);
    }
    UnlinkHeadList(h);
    UnlinkHeadRest(h);
  }

  lemma AddBundleKeeps(h: Heap, b: Bundle)
    requires HeapOk(h) && h.open == [] && b !in h.recs
    ensures HeapOk(AddBundle(h, b))
  {
    var free := seq(h.max, i => i != 0);
    assert Used(free) == {0};
  }

  lemma MarkFreeCounts(h: Heap, s: Slot)
    requires Counted(h) && s.bundle in h.recs && s.index < h.max && !h.recs[s.bundle].free[s.index]
    ensures h.recs[s.bundle].refcount > 0
    ensures Counted(MarkFree(h, s)) && MarkFree(h, s).recs[s.bundle].refcount < h.max
  {
    var free := h.recs[s.bundle].free;
    assert s.index in Used(free);
    FullMeansNoFreeSlot(free);
    assert Used(free[s.index := true]) == Used(free) - {s.index};
  }

  lemma MarkFreeSlots(h: Heap, s: Slot)
    requires SlotsMatch(h) && s in h.slots && h.recs[s.bundle].refcount > 0
    ensures SlotsMatch(MarkFree(h, s))
  {
    assert s == Slot(s.bundle, s.index);
  }

  lemma MarkFreeKeeps(h: Heap, s: Slot)
    requires HeapOk(h) && s in h.slots
    ensures h.recs[s.bundle].refcount > 0 && !h.recs[s.bundle].free[s.index]
    ensures HeapExcept(MarkFree(h, s), s.bundle) && MarkFree(h, s).recs[s.bundle].refcount < h.max
  {
    assert s == Slot(s.bundle, s.index);
    MarkFreeCounts(h, s);
    MarkFreeSlots(h, s);
  }

  lemma DropBundleList(h: Heap, i: nat)
    requires Listed(h) && i < |h.open|
    ensures Listed(DropBundle(h, i))
    ensures DropBundle(h, i).recs.Keys == h.recs.Keys - {h.open[i]}
  {
    Neighbours(h, i);
  }

  lemma DropBundleRest(h: Heap, i: nat)
    requires Listed(h) && Counted(h) && SlotsMatch(h) && i < |h.open| && h.recs[h.open[i]].refcount == 0
    ensures Counted(DropBundle(h, i)) && SlotsMatch(DropBundle(h, i))
  {
    Neighbours(h, i);
    var b := h.open[i];
    forall s | s in h.slots ensures s.bundle != b {
      assert s == Slot(s.bundle, s.index);
      assert s.index in Used(h.recs[s.bundle].free);
    }
  }

  /** Leaving out entry i of a sequence without repetitions removes exactly that value. */
  lemma RemoveAt<T>(s: seq<T>, i: nat, x: T)
    requires i < |s| && forall j, k :: 0 <= j < k < |s| ==> s[j] != s[k]
    ensures x in s[..i] + s[i + 1..] <==> x in s && x != s[i]
  {
    var t := s[..i] + s[i + 1..];
    if x in s && x != s[i] {
      var k :| 0 <= k < |s| && s[k] == x;
      assert t[if k < i then k else k - 1] == x;
    }
  }

  lemma DropBundleLinks(h: Heap, i: nat)
    requires i < |h.open| && HeapExcept(h, h.open[i])
    ensures Linked(DropBundle(h, i), null)
  {
    Neighbours(h, i);
    var h' := DropBundle(h, i);
    forall o ensures o in h'.open <==> o in h.open && o != h.open[i] {
      RemoveAt(h.open, i, o);
    }
  }

  lemma DropBundleUnused(h: Heap, i: nat)
    requires i < |h.open| && HeapExcept(h, h.open[i])
    ensures UnusedIsLast(DropBundle(h, i), null)
  {
    Neighbours(h, i);
  }

  lemma DropBundleKeeps(h: Heap, i: nat)
    requires i < |h.open| && HeapExcept(h, h.open[i]) && h.recs[h.open[i]].refcount == 0
    ensures HeapOk(DropBundle(h, i))
  {
    DropBundleList(h, i);
    DropBundleRest(h, i);
    DropBundleLinks(h, i);
    DropBundleUnused(h, i);
  }

  lemma PushHeadKeeps(h: Heap, b: Bundle)
    requires HeapExcept(h, b) && b in h.recs && b !in h.open && 0 < h.recs[b].refcount < h.max
    ensures HeapOk(PushHead(h, b))
  {
  }

  // ----- The allocator itself -----

  /** The slot looked at in step i of a search that starts at the hint. */
  function Probe(i: nat, start: nat, n: nat): nat
    requires n > 0
  {
    (i + start) % n
  }

  /** It begins at the hint and goes on slot by slot, round the end. */
  lemma ProbeSteps(i: nat, start: nat, n: nat)
    requires 0 < n && start <= n
    ensures Probe(0, start, n) == if start < n then start else 0
    ensures Probe(i + 1, start, n) == if Probe(i, start, n) + 1 < n then Probe(i, start, n) + 1 else 0
  {
    var m := Probe(i, start, n);
    if m + 1 < n {
      DivModUnique(i + 1 + start, n, (i + start) / n, m + 1);
    } else {
      DivModUnique(i + 1 + start, n, (i + start) / n + 1, 0);
    }
    DivModUnique(start, n, if start < n then 0 else 1, if start < n then start else 0);
  }

  /** The rotating search reaches every slot. */
  lemma ProbeReaches(w: nat, start: nat, n: nat) returns (k: nat)
    requires w < n
    ensures k < n && Probe(k, start, n) == w
  {
    var m := start % n;
    k := if w >= m then w - m else w + n - m;
    DivModUnique(k + start, n, if w >= m then start / n else start / n + 1, w);
  }

  /** What one successful allocation does: it hands out the first free slot after the hint of the
      head bundle, or, when the list is empty, slot 0 of a fresh bundle. */
  ghost predicate AllocStep(h: Heap, s: Slot, h': Heap) {
    if h.open == [] then
      s.index == 0 && s.bundle !in h.recs && h' == AddBundle(h, s.bundle)
    else
      && Listed(h) && s.bundle == h.open[0]
      && var r := h.recs[s.bundle];
      && s.index < |r.free| && r.free[s.index]
      && (exists i: nat :: i < |r.free| && Probe(i, r.nextCheck, |r.free|) == s.index &&
            forall k :: 0 <= k < i ==> !r.free[Probe(k, r.nextCheck, |r.free|)])
      && Listed(MarkUsed(h, s))
      && h' == if r.refcount + 1 == h.max then UnlinkHead(MarkUsed(h, s)) else MarkUsed(h, s)
  }

  /** No live response object is handed out twice, and the invariant is kept. */
  lemma AllocStepKeeps(h: Heap, s: Slot, h': Heap)
    requires HeapOk(h) && AllocStep(h, s, h')
    ensures HeapOk(h') && s !in h.slots && h'.slots == h.slots + {s}
    ensures |h'.slots| == |h.slots| + 1
  {
    if h.open == [] {
      AddBundleKeeps(h, s.bundle);
    } else {
      MarkUsedKeeps(h, s);
      var m := MarkUsed(h, s);
      if h.recs[s.bundle].refcount + 1 == h.max { UnlinkHeadKeeps(m); }
    }
  }

  /** What freeing s does: an emptied bundle is kept when it is the whole list and given back
      otherwise; a bundle that was full goes to the head of the list. */
  ghost predicate FreeStep(h: Heap, s: Slot, h': Heap) {
    && s.bundle in h.recs && s.index < |h.recs[s.bundle].free| && h.recs[s.bundle].refcount > 0
    && var m := MarkFree(h, s);
    && var b := s.bundle;
    && Listed(m)
    && if m.recs[b].refcount > 0 then
         h' == if b in m.open then m else PushHead(m, b)
       else if m.open == [b] then
         h' == m.(recs := m.recs[b := m.recs[b].(nextCheck := 0)])
       else
         exists i :: 0 <= i < |m.open| && m.open[i] == b && h' == DropBundle(m, i)
  }

  /** Freeing takes exactly that response object out, and the invariant is kept. */
  lemma FreeStepKeeps(h: Heap, s: Slot, h': Heap)
    requires HeapOk(h) && s in h.slots && FreeStep(h, s, h')
    ensures HeapOk(h') && h'.slots == h.slots - {s} && |h'.slots| == |h.slots| - 1
  {
    MarkFreeKeeps(h, s);
    var m, b := MarkFree(h, s), s.bundle;
    if m.recs[b].refcount > 0 {
      if b !in m.open { PushHeadKeeps(m, b); }
    } else if m.open != [b] {
      var i :| 0 <= i < |m.open| && m.open[i] == b && h' == DropBundle(m, i);
      DropBundleKeeps(m, i);
    } else {
      KeptBundleOk(m, b);
    }
  }

  /** When the buffer of a bundle is given back, and what becomes of the list: a bundle whose last slot is freed goes,
      unless it is all there is on the list; a bundle that was full comes to the head; otherwise the list stays. */
  lemma FreeStepMeaning(h: Heap, s: Slot, h': Heap)
    requires HeapOk(h) && s in h.slots && FreeStep(h, s, h')
    ensures var b, n := s.bundle, h.recs[s.bundle].refcount;
      && h'.recs.Keys == (if n > 1 || h.open == [b] then h.recs.Keys else h.recs.Keys - {b})
      && (n == h.max ==> h'.open == [b] + h.open)
      && (n < h.max && (n > 1 || h.open == [b]) ==> h'.open == h.open)
      && (n == 1 && h.open != [b] ==>
            exists i :: 0 <= i < |h.open| && h.open[i] == b && h'.open == h.open[..i] + h.open[i + 1..])
      && (n > 1 || h.open == [b] ==>
            && h'.recs[b].refcount == n - 1 && h'.recs[b].free == h.recs[b].free[s.index := true]
            && h'.recs[b].nextCheck == if n == 1 then 0 else h.recs[b].nextCheck)
  {
    MarkFreeKeeps(h, s);
    var m, b := MarkFree(h, s), s.bundle;
    assert b in h.recs && (b in h.open <==> h.recs[b].refcount < h.max);
    if m.recs[b].refcount == 0 && m.open != [b] {
      var i :| 0 <= i < |m.open| && m.open[i] == b && h' == DropBundle(m, i);
      DropBundleList(m, i);
    }
  }

  /** What an allocation hands out: slot 0 of a new bundle when the list is empty, otherwise the first free slot of
      the head bundle from its hint on, round its end; the hint moves behind it, and a bundle that is full then
      leaves the list. */
  lemma AllocStepMeaning(h: Heap, s: Slot, h': Heap)
    requires HeapOk(h) && AllocStep(h, s, h')
    ensures h.open == [] ==>
      && s.bundle !in h.recs && s.index == 0 && h'.open == [s.bundle]
      && h'.recs[s.bundle].refcount == 1 && h'.recs[s.bundle].nextCheck == 1
      && forall x :: 0 < x < h.max ==> h'.recs[s.bundle].free[x]
    ensures h.open != [] ==>
      && s.bundle == h.open[0] && s.index < h.max && h.recs[s.bundle].free[s.index]
      && h'.open == (if h.recs[s.bundle].refcount + 1 == h.max then h.open[1..] else h.open)
      && h'.recs[s.bundle].nextCheck == s.index + 1
      && h'.recs[s.bundle].free == h.recs[s.bundle].free[s.index := false]
      && exists i: nat :: i < h.max && Probe(i, h.recs[s.bundle].nextCheck, h.max) == s.index &&
           forall k :: 0 <= k < i ==> !h.recs[s.bundle].free[Probe(k, h.recs[s.bundle].nextCheck, h.max)]
  {
  }

  lemma KeptBundleOk(m: Heap, b: Bundle)
    requires HeapExcept(m, b) && m.open == [b] && m.recs[b].refcount == 0
    ensures HeapOk(m.(recs := m.recs[b := m.recs[b].(nextCheck := 0)]))
  {
  }

  /** The tests of resp_free for "still on the list" are right. */
  lemma OnListTest(h: Heap, b: Bundle)
    requires Listed(h) && Linked(h, b) && b in h.recs
    ensures b in h.open <==> b == Head(h) || h.recs[b].prev != null || h.recs[b].next != null
    ensures h.open == [b] <==> b == Head(h) && h.recs[b].next == null
    ensures h.recs[b].next != b && h.recs[b].prev != b
    ensures b == Head(h) ==> h.recs[b].prev == null
  {
    if b in h.open {
      var i :| 0 <= i < |h.open| && h.open[i] == b;
      Neighbours(h, i);
    }
  }

  class Thread {
    const maxResp: nat            // MAX_RESP_PER_BUNDLE
    var openBundle: Bundle?
    var responseObjBytes: nat
    var responseObjCount: nat
    var responseObjOom: nat
    ghost var heap: Heap          // what the bundles reachable from this thread look like

    /** The bundles that hold a read buffer. */
    ghost function Live(): set<Bundle>
      reads this`heap
    {
      heap.recs.Keys
    }

    ghost predicate Mirrors(b: Bundle)
      reads this`heap, b
    {
      b in heap.recs && heap.recs[b] == b.Value()
    }

    /** The fields of every live bundle are as `heap` says. */
    ghost predicate Agrees()
      reads this`heap, this`openBundle, Live()
    {
      && heap.max == maxResp
      && openBundle == Head(heap)
      && forall b {:trigger Mirrors(b)} :: b in heap.recs ==> Mirrors(b)
    }

    /** Holds between any two calls, also when a response object is allocated but not yet counted. */
    ghost predicate Consistent()
      reads this`heap, this`openBundle, this`responseObjBytes, Live()
    {
      Agrees() && HeapOk(heap) && responseObjBytes == READ_BUFFER_SIZE * |heap.recs|
    }

    ghost predicate Valid()
      reads this, Live()
    {
      Consistent() && responseObjCount == |heap.slots|
    }

    constructor (maxResp: nat)
      requires 2 <= maxResp <= 255
      ensures Valid() && heap == Heap(maxResp, map[], [], {})
    {
      this.maxResp := maxResp;
      openBundle := null;
      responseObjBytes, responseObjCount, responseObjOom := 0, 0, 0;
      heap := Heap(maxResp, map[], [], {});
    }

    /** The search loop of resp_allocate. */
    method FindFree(b: Bundle) returns (r: Option<nat>)
      requires |b.free| == maxResp && 0 < maxResp
      ensures r.None? ==> forall x :: 0 <= x < maxResp ==> !b.free[x]
      ensures r.Some? ==> r.value < maxResp && b.free[r.value]
      ensures r.Some? ==> exists i: nat :: i < maxResp && Probe(i, b.nextCheck, maxResp) == r.value &&
                            forall k :: 0 <= k < i ==> !b.free[Probe(k, b.nextCheck, maxResp)]
    {
      for i := 0 to maxResp
        invariant forall k :: 0 <= k < i ==> !b.free[Probe(k, b.nextCheck, maxResp)]
      {
        var x := Probe(i, b.nextCheck, maxResp);
        if b.free[x] { return Some(x); }
      }
      forall x | 0 <= x < maxResp ensures !b.free[x] {
        var k := ProbeReaches(x, b.nextCheck, maxResp);
      }
      r := None;
    }

    /** Hands out slot x of bundle b. */
    method TakeSlot(b: Bundle, x: nat)
      requires Agrees() && b in heap.recs && x < |b.free| && b.free[x]
      modifies this`heap, b`nextCheck, b`refcount, b`free
      ensures Agrees() && b in old(heap).recs && x < |old(heap).recs[b].free|
      ensures heap == MarkUsed(old(heap), Slot(b, x))
    {
      assert Mirrors(b);
      b.nextCheck := x + 1;
      b.refcount := b.refcount + 1;
      b.free := b.free[x := false];
      heap := MarkUsed(heap, Slot(b, x));
      forall o | o in heap.recs ensures Mirrors(o) { assert old(Mirrors(o)); }
    }

    /** Takes the head bundle, which has become full, off the list. */
    method UnlinkFull(b: Bundle)
      requires Agrees() && Listed(heap) && b == openBundle
      modifies this`openBundle, this`heap, Live()`next, Live()`prev
      ensures Listed(old(heap)) && old(heap).open != [] && heap == UnlinkHead(old(heap))
      ensures Agrees()
    {
      Neighbours(heap, 0);
      assert Mirrors(b);
      assert b.prev == null && (b.next != null ==> Mirrors(b.next));
      openBundle := b.next;
      if b.next != null {
        b.next.prev := null;
        b.next := null;
      }
      heap := UnlinkHead(heap);
      forall o | o in heap.recs ensures Mirrors(o) { assert old(Mirrors(o)); }
    }

    /** A fresh bundle with its first slot handed out becomes the list. */
    method AllocateBundle() returns (s: Slot)
      requires Consistent() && openBundle == null
      modifies this`openBundle, this`heap, this`responseObjBytes
      ensures fresh(s.bundle) && s.index == 0 && s.bundle !in old(heap).recs
      ensures Agrees() && heap == AddBundle(old(heap), s.bundle)
      ensures responseObjBytes == READ_BUFFER_SIZE * |heap.recs|
    {
      var b := new Bundle(maxResp);
      responseObjBytes := responseObjBytes + READ_BUFFER_SIZE;
      openBundle := b;
      s := Slot(b, 0);
      assert heap.recs.Keys + {b} == AddBundle(heap, b).recs.Keys;
      heap := AddBundle(heap, b);
    }

    /** The part of resp_allocate that looks at the head bundle. */
    method AllocateFromHead(b: Bundle) returns (resp: Option<Slot>)
      requires Consistent() && b == openBundle
      modifies this`openBundle, this`heap
      modifies Live()`next, Live()`prev, Live()`nextCheck, Live()`refcount, Live()`free
      ensures resp.Some? && Agrees() && heap.recs.Keys == old(heap).recs.Keys
      ensures AllocStep(old(heap), resp.value, heap)
    {
      resp := None;
      ghost var h := heap;
      assert b == h.open[0] && Mirrors(b) && |h.recs[b].free| == h.max;
      assert h.recs[b].refcount < h.max by { assert b in h.open; }
      var x := FindFree(b);
      FullMeansNoFreeSlot(b.free);
      if x.Some? {
        var s := Slot(b, x.value);
        resp := Some(s);
        MarkUsedKeeps(h, s);
        TakeSlot(b, x.value);
        assert Mirrors(b);
        if b.refcount == maxResp {
          UnlinkHeadList(heap);
          UnlinkFull(b);
        }
      }
    }

    /** Allocates a response object.  Fails only when the list is empty and the read buffer cache,
        whose answer is `bufferAvailable`, has no buffer; nothing changes then. */
    method RespAllocate(bufferAvailable: bool) returns (resp: Option<Slot>)
      requires Consistent()
      modifies this`openBundle, this`heap, this`responseObjBytes
      modifies Live()`next, Live()`prev, Live()`nextCheck, Live()`refcount, Live()`free
      ensures Consistent()
      ensures resp.None? <==> old(openBundle) == null && !bufferAvailable
      ensures resp.None? ==> heap == old(heap)
      ensures resp.Some? ==> resp.value !in old(heap).slots && heap.slots == old(heap).slots + {resp.value}
      ensures resp.Some? ==> |heap.slots| == |old(heap).slots| + 1
      ensures resp.Some? && old(openBundle) != null ==> resp.value.bundle == old(openBundle)
      ensures forall b :: b in heap.recs ==> b in old(heap).recs || fresh(b)
    {
      resp := None;
      ghost var h := heap;
      if openBundle != null {
        resp := AllocateFromHead(openBundle);
      }
      if resp.None? {
        assert openBundle == null;
        if bufferAvailable {
          var s := AllocateBundle();
          resp := Some(s);
        } else {
          return;
        }
      }
      AllocStepKeeps(h, resp.value, heap);
    }

    /** Starts a response: allocates its object and counts it. */
    method RespStart(bufferAvailable: bool) returns (resp: Option<Slot>)
      requires Valid()
      modifies this`openBundle, this`heap, this`responseObjBytes, this`responseObjCount, this`responseObjOom
      modifies Live()`next, Live()`prev, Live()`nextCheck, Live()`refcount, Live()`free
      ensures Valid()
      ensures resp.None? <==> old(openBundle) == null && !bufferAvailable
      ensures resp.None? ==> heap == old(heap) && responseObjOom == old(responseObjOom) + 1
      ensures resp.Some? ==> responseObjOom == old(responseObjOom)
      ensures resp.Some? ==> resp.value !in old(heap).slots && heap.slots == old(heap).slots + {resp.value}
      ensures resp.Some? && old(openBundle) != null ==> resp.value.bundle == old(openBundle)
      ensures forall b :: b in heap.recs ==> b in old(heap).recs || fresh(b)
    {
      resp := RespAllocate(bufferAvailable);
      CountStarted(resp.Some?);
    }

    /** A response has been allocated, or has not. */
    method CountStarted(ok: bool)
      requires Consistent() && responseObjCount + (if ok then 1 else 0) == |heap.slots|
      modifies this`responseObjCount, this`responseObjOom
      ensures Valid() && responseObjOom == old(responseObjOom) + if ok then 0 else 1
    {
      if ok {
        responseObjCount := responseObjCount + 1;
      } else {
        responseObjOom := responseObjOom + 1;
      }
    }

    /** Marks slot x of bundle b free. */
    method GiveSlot(b: Bundle, x: nat)
      requires Agrees() && b in heap.recs && x < |b.free| && b.refcount > 0
      modifies this`heap, b`refcount, b`free
      ensures Agrees() && b in old(heap).recs && x < |old(heap).recs[b].free|
      ensures old(heap).recs[b].refcount > 0 && heap == MarkFree(old(heap), Slot(b, x))
    {
      assert Mirrors(b);
      b.free := b.free[x := true];
      b.refcount := b.refcount - 1;
      heap := MarkFree(heap, Slot(b, x));
      forall o | o in heap.recs ensures Mirrors(o) { assert old(Mirrors(o)); }
    }

    /** Unlinks an emptied bundle from its place i on the list and gives its buffer back. */
    method ReleaseBundle(b: Bundle, ghost i: nat)
      requires Agrees() && Listed(heap)
      requires i < |heap.open| && heap.open[i] == b
      modifies this`openBundle, this`heap, Live()`next, Live()`prev
      ensures Listed(old(heap)) && heap == DropBundle(old(heap), i)
      ensures Agrees()
    {
      Neighbours(heap, i);
      assert Mirrors(b);
      if openBundle == b { openBundle := b.next; }
      assert b.next != b && b.prev != b;
      assert (b.next != null ==> Mirrors(b.next)) && (b.prev != null ==> Mirrors(b.prev));
      if b.next != null { b.next.prev := b.prev; }
      if b.prev != null { b.prev.next := b.next; }
      heap := DropBundle(heap, i);
      forall o | o in heap.recs ensures Mirrors(o) { assert old(Mirrors(o)); }
    }

    /** Puts a bundle that is no longer full at the head of the list. */
    method LinkAtHead(b: Bundle)
      requires Agrees() && Listed(heap) && b in heap.recs && b !in heap.open
      modifies this`openBundle, this`heap, Live()`next, Live()`prev
      ensures Listed(old(heap)) && b in old(heap).recs && heap == PushHead(old(heap), b)
      ensures Agrees()
    {
      assert Mirrors(b) && (openBundle != null ==> Mirrors(openBundle));
      b.prev := null;
      b.next := openBundle;
      if b.next != null { b.next.prev := b; }
      openBundle := b;
      heap := PushHead(heap, b);
      forall o | o in heap.recs ensures Mirrors(o) { assert old(Mirrors(o)); }
    }

    /** The search of an unused bundle starts at its first slot again. */
    method ResetHint(b: Bundle)
      requires Agrees() && b in heap.recs
      modifies this`heap, b`nextCheck
      ensures Agrees() && b in old(heap).recs && heap.recs.Keys == old(heap).recs.Keys
      ensures heap == old(heap).(recs := old(heap).recs[b := old(heap).recs[b].(nextCheck := 0)])
    {
      assert Mirrors(b);
      b.nextCheck := 0;
      heap := heap.(recs := heap.recs[b := heap.recs[b].(nextCheck := 0)]);
      forall o | o in heap.recs ensures Mirrors(o) { assert old(Mirrors(o)); }
    }

    /** Disposes of a bundle whose last slot has been freed. */
    method RetireBundle(b: Bundle)
      requires Agrees() && HeapExcept(heap, b) && b in heap.open && b.refcount == 0
      requires responseObjBytes == READ_BUFFER_SIZE * |heap.recs|
      modifies this`openBundle, this`heap, this`responseObjBytes
      modifies Live()`next, Live()`prev, Live()`nextCheck
      ensures Agrees() && responseObjBytes == READ_BUFFER_SIZE * |heap.recs|
      ensures heap.recs.Keys <= old(heap).recs.Keys && Listed(old(heap))
      ensures var m := old(heap);
              if m.open == [b] then b in m.recs && heap == m.(recs := m.recs[b := m.recs[b].(nextCheck := 0)])
              else exists i :: 0 <= i < |m.open| && m.open[i] == b && heap == DropBundle(m, i)
    {
      ghost var m := heap;
      assert b in m.recs;
      assert Mirrors(b);
      OnListTest(m, b);
      if b == openBundle && b.next == null {
        assert b.prev == null;
        ResetHint(b);
      } else {
        assert (b.next != null || b.prev != null) || b == openBundle;
        ghost var i :| 0 <= i < |m.open| && m.open[i] == b;
        ReleaseBundle(b, i);
        DropBundleList(m, i);
        responseObjBytes := responseObjBytes - READ_BUFFER_SIZE;
      }
    }

    /** Puts a bundle that still has used slots back on the list if it was full. */
    method RelinkBundle(b: Bundle)
      requires Agrees() && HeapExcept(heap, b) && b in heap.recs
      modifies this`openBundle, this`heap, Live()`next, Live()`prev
      ensures Agrees() && Listed(old(heap)) && b in old(heap).recs
      ensures heap == if b in old(heap).open then old(heap) else PushHead(old(heap), b)
    {
      assert Mirrors(b);
      OnListTest(heap, b);
      if b == openBundle || b.prev != null || b.next != null {
        // Already linked: stays in place.
      } else {
        LinkAtHead(b);
      }
    }

    /** Frees a live response object, except for counting it. */
    method FreeObject(resp: Slot)
      requires Consistent() && resp in heap.slots
      modifies this`openBundle, this`heap, this`responseObjBytes
      modifies Live()`next, Live()`prev, Live()`nextCheck, Live()`refcount, Live()`free
      ensures Agrees() && FreeStep(old(heap), resp, heap)
      ensures responseObjBytes == READ_BUFFER_SIZE * |heap.recs|
      ensures heap.recs.Keys <= old(heap).recs.Keys
    {
      ghost var h := heap;
      MarkFreeKeeps(h, resp);
      var b := resp.bundle;
      assert Mirrors(b);
      GiveSlot(b, resp.index);
      assert Mirrors(b);
      assert heap.recs.Keys == h.recs.Keys;
      if b.refcount == 0 {
        RetireBundle(b);
      } else {
        RelinkBundle(b);
      }
    }

    /** The same, said of the live objects and the bundles. */
    method FreeLive(resp: Slot)
      requires Consistent() && resp in heap.slots
      modifies this`openBundle, this`heap, this`responseObjBytes
      modifies Live()`next, Live()`prev, Live()`nextCheck, Live()`refcount, Live()`free
      ensures Consistent() && heap.slots == old(heap).slots - {resp} && |heap.slots| == |old(heap).slots| - 1
      ensures heap.recs.Keys ==
              if old(resp.bundle.refcount) > 1 || old(heap).open == [resp.bundle] then old(heap).recs.Keys
              else old(heap).recs.Keys - {resp.bundle}
    {
      ghost var h := heap;
      assert Slot(resp.bundle, resp.index) == resp && Mirrors(resp.bundle);
      FreeObject(resp);
      FreeStepKeeps(h, resp, heap);
      FreeStepMeaning(h, resp, heap);
    }

    /** Frees a live response object.  The buffer of its bundle is given back when that was the last object in it,
        unless the bundle is all there is on the list. */
    method RespFree(resp: Slot)
      requires Valid() && resp in heap.slots
      modifies this`openBundle, this`heap, this`responseObjBytes, this`responseObjCount
      modifies Live()`next, Live()`prev, Live()`nextCheck, Live()`refcount, Live()`free
      ensures Valid()
      ensures heap.slots == old(heap).slots - {resp}
      ensures heap.recs.Keys ==
              if old(resp.bundle.refcount) > 1 || old(heap).open == [resp.bundle] then old(heap).recs.Keys
              else old(heap).recs.Keys - {resp.bundle}
    {
      FreeLive(resp);
      responseObjCount := responseObjCount - 1;
    }
  }
}
