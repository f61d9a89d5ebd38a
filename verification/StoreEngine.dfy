/** The storage commands on reference-counted items: do_store_item and do_add_delta. */
module StoreEngine {
  import opened Bytes
  import opened Options
  import opened Decimal
  import opened ChunkCopy
  import opened StoreSpec

  /** An item: the header fields and, as one value, its data. */
  class CacheItem {
    const key: Key
    var value: seq<byte>
    var flags: nat
    var exptime: nat
    var cas: nat
    var stale: bool
    var tokenSent: bool
    const chunked: bool
    const hdr: bool
    var refcount: nat
    var linked: bool

    /** slabs_alloc hands out items with one reference. */
    constructor (key: Key, e: Entry)
      ensures Value() == Rec(key, e, 1, false)
    {
      this.key := key;
      value, flags, exptime, cas, stale, tokenSent := e.value, e.flags, e.exptime, e.cas, e.stale, e.tokenSent;
      chunked, hdr := e.chunked, e.hdr;
      refcount, linked := 1, false;
    }

    function Value(): Rec
      reads this
    {
      Rec(key, Entry(value, flags, exptime, cas, stale, tokenSent, chunked, hdr), refcount, linked)
    }
  }

  datatype Rec = Rec(key: Key, entry: Entry, refcount: nat, linked: bool)

  /** All items in existence, the hash table, and who holds references from outside of it. */
  datatype Heap = Heap(lim: Limits, items: map<CacheItem, Rec>, table: map<Key, CacheItem>,
                       held: multiset<CacheItem>, casId: nat)

  ghost function At(h: Heap, it: CacheItem): Rec {
    if it in h.items then h.items[it] else Rec([], Entry([], 0, 0, 0, false, false, false, false), 0, false)
  }

  /** An item has one reference for being linked and one for each outside holder. */
  ghost predicate ItemOk(h: Heap, it: CacheItem) {
    var r := At(h, it);
    && (r.linked <==> r.key in h.table && h.table[r.key] == it)
    && r.refcount == h.held[it] + (if r.linked then 1 else 0)
    && r.refcount > 0
    && |r.key| <= KEY_MAX_LENGTH && EntryOk(r.key, r.entry, h.lim)
  }

  ghost predicate SlotOk(h: Heap, k: Key) {
    k in h.table && h.table[k] in h.items && At(h, h.table[k]).key == k
  }

  ghost predicate HeldOk(h: Heap, it: CacheItem) {
    it in h.items
  }

  ghost predicate HeapOk(h: Heap) {
    && (forall k {:trigger SlotOk(h, k)} :: k in h.table ==> SlotOk(h, k))
    && (forall it {:trigger ItemOk(h, it)} :: it in h.items ==> ItemOk(h, it))
    && (forall it {:trigger HeldOk(h, it)} :: it in h.held ==> HeldOk(h, it))
  }

  predicate Dead(e: Entry, now: nat) {
    e.exptime != 0 && e.exptime <= now
  }

  /** What clients can see: the linked items that have not expired. */
  ghost function Visible(h: Heap, now: nat): Store {
    Store(map k | k in h.table && !Dead(At(h, h.table[k]).entry, now) :: At(h, h.table[k]).entry, h.casId)
  }

  /** The entries of a store that have not expired. */
  ghost function Live(s: Store, now: nat): Store {
    s.(m := map k | k in s.m && !Dead(s.m[k], now) :: s.m[k])
  }

  // ----- Reference counting steps -----

  ghost function Hold(h: Heap, it: CacheItem): Heap {
    h.(items := h.items[it := At(h, it).(refcount := At(h, it).refcount + 1)], held := h.held + multiset{it})
  }

  /** Gives back a reference; an item without references is gone. */
  ghost function Drop(h: Heap, it: CacheItem): Heap {
    var n := At(h, it).refcount;
    h.(items := if n <= 1 then h.items - {it} else h.items[it := At(h, it).(refcount := n - 1)],
       held := h.held - multiset{it})
  }

  ghost function FreshCas(h: Heap): nat {
    if h.lim.useCas then h.casId + 1 else 0
  }

  ghost function NextId(h: Heap): nat {
    if h.lim.useCas then h.casId + 1 else h.casId
  }

  ghost function Linking(h: Heap, it: CacheItem): Heap {
    var r := At(h, it);
    h.(items := h.items[it := Rec(r.key, r.entry.(cas := FreshCas(h)), r.refcount + 1, true)],
       table := h.table[r.key := it], casId := NextId(h))
  }

  /** Unlinking takes the item out of the table and gives the table's reference back. */
  ghost function Unlinking(h: Heap, it: CacheItem): Heap {
    var r := At(h, it);
    h.(items := if r.refcount <= 1 then h.items - {it}
                else h.items[it := r.(refcount := r.refcount - 1, linked := false)],
       table := h.table - {r.key})
  }

  ghost function Edit(h: Heap, it: CacheItem, e: Entry): Heap {
    h.(items := h.items[it := At(h, it).(entry := e)])
  }

  ghost function NewItem(h: Heap, it: CacheItem, key: Key, e: Entry): Heap {
    h.(items := h.items[it := Rec(key, e, 1, false)], held := h.held + multiset{it})
  }

  /** A linked item gets a new value and a fresh cas id in place. */
  ghost function Overwriting(h: Heap, it: CacheItem, value: seq<byte>): Heap {
    Edit(h, it, At(h, it).entry.(value := value, cas := FreshCas(h))).(casId := NextId(h))
  }

  /** Steps that touch nothing but one item and the references to it. */
  ghost predicate OnlyItem(h: Heap, h': Heap, it: CacheItem) {
    && h'.lim == h.lim && h'.table == h.table && it in h'.items
    && h'.items == h.items[it := At(h', it)]
    && h'.held == h.held[it := h'.held[it]]
  }

  lemma OnlyItemOk(h: Heap, h': Heap, it: CacheItem)
    requires HeapOk(h) && OnlyItem(h, h', it) && ItemOk(h', it)
    requires it in h.items ==> At(h', it).key == At(h, it).key
    ensures HeapOk(h')
  {
    forall o | o in h'.items ensures ItemOk(h', o) { if o != it { assert ItemOk(h, o); } }
    forall k | k in h'.table ensures SlotOk(h', k) { assert SlotOk(h, k); }
    forall o | o in h'.held ensures HeldOk(h', o) { if o in h.held { assert HeldOk(h, o); } }
  }

  /** The table still shows the same entries. */
  lemma SameShown(h: Heap, h': Heap, now: nat)
    requires h'.table == h.table && h'.casId == h.casId
    requires forall k :: k in h.table ==> At(h', h.table[k]).entry == At(h, h.table[k]).entry
    ensures Visible(h', now) == Visible(h, now)
  {
  }

  lemma HoldOk(h: Heap, it: CacheItem, now: nat)
    requires HeapOk(h) && it in h.items
    ensures HeapOk(Hold(h, it)) && Visible(Hold(h, it), now) == Visible(h, now)
  {
    var h' := Hold(h, it);
    assert ItemOk(h, it);
    OnlyItemOk(h, h', it);
    SameShown(h, h', now);
  }

  lemma DropOk(h: Heap, it: CacheItem, now: nat)
    requires HeapOk(h) && it in h.held
    ensures it in h.items && At(h, it).refcount > 0
    ensures HeapOk(Drop(h, it)) && Visible(Drop(h, it), now) == Visible(h, now)
  {
    assert HeldOk(h, it) && ItemOk(h, it);
    var h' := Drop(h, it);
    if At(h, it).refcount > 1 {
      OnlyItemOk(h, h', it);
    } else {
      DropLastOk(h, it);
    }
    forall k | k in h.table ensures At(h', h.table[k]).entry == At(h, h.table[k]).entry {
      assert SlotOk(h, k) && ItemOk(h, h.table[k]);
    }
    SameShown(h, h', now);
  }

  lemma DropLastOk(h: Heap, it: CacheItem)
    requires HeapOk(h) && it in h.held && it in h.items && At(h, it).refcount == 1
    ensures HeapOk(Drop(h, it))
  {
    assert ItemOk(h, it);
    var h' := Drop(h, it);
    forall o | o in h'.items ensures ItemOk(h', o) { assert ItemOk(h, o); }
    forall k | k in h'.table ensures SlotOk(h', k) { assert SlotOk(h, k) && ItemOk(h, h.table[k]); }
    forall o | o in h'.held ensures HeldOk(h', o) { if o in h.held { assert HeldOk(h, o); } }
  }

  lemma LinkingOk(h: Heap, it: CacheItem, now: nat)
    requires HeapOk(h) && it in h.items && At(h, it).key !in h.table
    ensures HeapOk(Linking(h, it))
    ensures Visible(Linking(h, it), now) ==
            Live(Put(Visible(h, now), At(h, it).key, At(h, it).entry, h.lim.useCas), now)
  {
    assert ItemOk(h, it);
    var h' := Linking(h, it);
    forall o | o in h'.items ensures ItemOk(h', o) { assert ItemOk(h, o); }
    forall k | k in h'.table ensures SlotOk(h', k) { if k in h.table { assert SlotOk(h, k); } }
    forall o | o in h'.held ensures HeldOk(h', o) { if o in h.held { assert HeldOk(h, o); } }
    LinkingShows(h, it, now);
  }

  lemma LinkingShows(h: Heap, it: CacheItem, now: nat)
    requires HeapOk(h) && it in h.items && At(h, it).key !in h.table && !At(h, it).linked
    ensures Visible(Linking(h, it), now) ==
            Live(Put(Visible(h, now), At(h, it).key, At(h, it).entry, h.lim.useCas), now)
  {
    forall k | k in h.table ensures h.table[k] != it { assert SlotOk(h, k); }
  }

  lemma UnlinkingOk(h: Heap, it: CacheItem, now: nat)
    requires HeapOk(h) && it in h.items && At(h, it).linked
    ensures At(h, it).refcount > 0 && At(h, it).key in h.table && h.table[At(h, it).key] == it
    ensures HeapOk(Unlinking(h, it))
    ensures Visible(Unlinking(h, it), now) == var s := Visible(h, now); s.(m := s.m - {At(h, it).key})
  {
    assert ItemOk(h, it);
    var h' := Unlinking(h, it);
    forall o | o in h'.items ensures ItemOk(h', o) { assert ItemOk(h, o); }
    forall k | k in h'.table ensures SlotOk(h', k) { assert SlotOk(h, k) && ItemOk(h, h.table[k]); }
    forall o | o in h'.held ensures HeldOk(h', o) { if o in h.held { assert HeldOk(h, o); } }
    UnlinkingHides(h, it, now);
  }

  lemma UnlinkingHides(h: Heap, it: CacheItem, now: nat)
    requires HeapOk(h) && it in h.items && At(h, it).key in h.table && h.table[At(h, it).key] == it
    ensures Visible(Unlinking(h, it), now) == var s := Visible(h, now); s.(m := s.m - {At(h, it).key})
  {
    forall k | k in h.table && k != At(h, it).key ensures h.table[k] != it { assert SlotOk(h, k); }
  }

  lemma EditOk(h: Heap, it: CacheItem, e: Entry, now: nat)
    requires HeapOk(h) && it in h.items && EntryOk(At(h, it).key, e, h.lim)
    ensures HeapOk(Edit(h, it, e))
    ensures !At(h, it).linked ==> Visible(Edit(h, it, e), now) == Visible(h, now)
    ensures At(h, it).linked && !Dead(e, now) ==>
              Visible(Edit(h, it, e), now) == var s := Visible(h, now); s.(m := s.m[At(h, it).key := e])
  {
    assert ItemOk(h, it);
    OnlyItemOk(h, Edit(h, it, e), it);
    forall k | k in h.table ensures h.table[k] == it <==> At(h, it).linked && k == At(h, it).key {
      assert SlotOk(h, k);
    }
    if !At(h, it).linked {
      SameShown(h, Edit(h, it, e), now);
    } else if !Dead(e, now) {
      EditShows(h, it, e, now);
    }
  }

  lemma EditShows(h: Heap, it: CacheItem, e: Entry, now: nat)
    requires it in h.items && At(h, it).key in h.table && !Dead(e, now)
    requires forall k :: k in h.table ==> (h.table[k] == it <==> k == At(h, it).key)
    ensures Visible(Edit(h, it, e), now) == var s := Visible(h, now); s.(m := s.m[At(h, it).key := e])
  {
  }

  lemma OverwritingOk(h: Heap, it: CacheItem, value: seq<byte>, now: nat)
    requires HeapOk(h) && it in h.items && At(h, it).linked && |value| == |At(h, it).entry.value|
    requires !Dead(At(h, it).entry, now)
    ensures HeapOk(Overwriting(h, it, value))
    ensures Visible(Overwriting(h, it, value), now) ==
            Put(Visible(h, now), At(h, it).key, At(h, it).entry.(value := value), h.lim.useCas)
  {
    var e := At(h, it).entry.(value := value, cas := FreshCas(h));
    assert ItemOk(h, it);
    EditOk(h, it, e, now);
    var g := Edit(h, it, e);
    CasIdFree(g, NextId(h), now);
  }

  /** The invariant says nothing about the last cas id. */
  lemma CasIdFree(h: Heap, n: nat, now: nat)
    requires HeapOk(h)
    ensures HeapOk(h.(casId := n)) && Visible(h.(casId := n), now) == Visible(h, now).(casId := n)
  {
    var h' := h.(casId := n);
    forall o | o in h'.items ensures ItemOk(h', o) { assert ItemOk(h, o); }
    forall k | k in h'.table ensures SlotOk(h', k) { assert SlotOk(h, k); }
    forall o | o in h'.held ensures HeldOk(h', o) { if o in h.held { assert HeldOk(h, o); } }
  }

  lemma NewItemOk(h: Heap, it: CacheItem, key: Key, e: Entry, now: nat)
    requires HeapOk(h) && it !in h.items && |key| <= KEY_MAX_LENGTH && EntryOk(key, e, h.lim)
    ensures HeapOk(NewItem(h, it, key, e)) && Visible(NewItem(h, it, key, e), now) == Visible(h, now)
  {
    var h' := NewItem(h, it, key, e);
    assert HeldOk(h, it) || it !in h.held;
    forall k | k in h.table ensures h.table[k] != it { assert SlotOk(h, k); }
    OnlyItemOk(h, h', it);
    SameShown(h, h', now);
  }

  // ----- Steps put together -----

  /** What looking a key up finds, and does: an expired item is unlinked on the way. */
  ghost function Found(h: Heap, key: Key, now: nat): CacheItem? {
    if key in h.table && !Dead(At(h, h.table[key]).entry, now) then h.table[key] else null
  }

  ghost function Got(h: Heap, key: Key, now: nat): Heap {
    if key !in h.table then h
    else
      var it := h.table[key];
      var g := Hold(h, it);
      if Dead(At(h, it).entry, now) then Drop(Unlinking(g, it), it) else g
  }

  lemma GotOk(h: Heap, key: Key, now: nat)
    requires HeapOk(h)
    ensures var g, it := Got(h, key, now), Found(h, key, now);
      && HeapOk(g) && Visible(g, now) == Visible(h, now) && g.lim == h.lim && g.casId == h.casId
      && g.held == h.held + (if it == null then multiset{} else multiset{it})
      && (it == null <==> key !in Visible(h, now).m) && (it == null ==> key !in g.table)
      && (it != null ==>
            && it in h.items && it in g.items && At(g, it) == At(h, it).(refcount := At(h, it).refcount + 1)
            && At(h, it).linked && At(h, it).key == key && !Dead(At(h, it).entry, now)
            && Visible(h, now).m[key] == At(h, it).entry)
  {
    if key in h.table {
      var it := h.table[key];
      assert SlotOk(h, key) && ItemOk(h, it);
      HoldOk(h, it, now);
      if Dead(At(h, it).entry, now) { ExpiredOk(h, key, now); }
    }
  }

  /** Dropping an expired item changes nothing that anyone can see or holds. */
  lemma ExpiredOk(h: Heap, key: Key, now: nat)
    requires HeapOk(h) && key in h.table && Dead(At(h, h.table[key]).entry, now)
    ensures var g := Got(h, key, now);
      && HeapOk(g) && Visible(g, now) == Visible(h, now) && g.held == h.held && g.casId == h.casId && key !in g.table
  {
    var it := h.table[key];
    assert SlotOk(h, key) && ItemOk(h, it);
    var g := Hold(h, it);
    HoldOk(h, it, now);
    UnlinkingOk(g, it, now);
    DropOk(Unlinking(g, it), it, now);
    assert key !in Visible(h, now).m;
    HoldThenDrop(h.held, it);
  }

  lemma HoldThenDrop(held: multiset<CacheItem>, it: CacheItem)
    ensures held + multiset{it} - multiset{it} == held
  {
  }

  /** Other items keep their records when a key is looked up. */
  lemma GotKeeps(h: Heap, key: Key, now: nat, o: CacheItem)
    requires key in h.table ==> o != h.table[key]
    ensures At(Got(h, key, now), o) == At(h, o) && (o in Got(h, key, now).items <==> o in h.items)
  {
  }

  /** The target, if any, takes the place of an item. */
  ghost function Placed(h: Heap, oldIt: CacheItem, target: CacheItem?): Heap {
    if target == null then h else Linking(Unlinking(h, oldIt), target)
  }

  lemma PlacedOk(h: Heap, oldIt: CacheItem, target: CacheItem?, now: nat)
    requires HeapOk(h) && oldIt in h.held && At(h, oldIt).linked
    requires target != null ==>
               target in h.held && target != oldIt && At(h, target).key == At(h, oldIt).key && !At(h, target).linked
    ensures var g := Placed(h, oldIt, target);
      && HeapOk(g) && g.held == h.held && g.lim == h.lim
      && Visible(g, now) == if target == null then Visible(h, now) else
           Live(Put(Visible(h, now), At(h, target).key, At(h, target).entry, h.lim.useCas), now)
  {
    if target != null {
      assert HeldOk(h, oldIt) && HeldOk(h, target) && ItemOk(h, oldIt) && ItemOk(h, target);
      UnlinkingOk(h, oldIt, now);
      var g := Unlinking(h, oldIt);
      LinkingOk(g, target, now);
      PutOver(Visible(h, now), At(h, target).key, At(h, target).entry, h.lim.useCas);
    }
  }

  lemma PutOver(s: Store, key: Key, e: Entry, useCas: bool)
    ensures Put(s.(m := s.m - {key}), key, e, useCas) == Put(s, key, e, useCas)
  {
  }

  /** The references taken on the way are given back. */
  ghost function Released(h: Heap, oldIt: CacheItem, newIt: CacheItem?): Heap {
    var g := Drop(h, oldIt);
    if newIt == null then g else Drop(g, newIt)
  }

  lemma ReleasedOk(h: Heap, oldIt: CacheItem, newIt: CacheItem?, now: nat)
    requires HeapOk(h) && oldIt in h.held && (newIt != null ==> newIt in h.held && newIt != oldIt)
    ensures var g := Released(h, oldIt, newIt);
      && HeapOk(g) && Visible(g, now) == Visible(h, now) && g.casId == h.casId && g.table == h.table
      && g.held == h.held - multiset{oldIt} - (if newIt == null then multiset{} else multiset{newIt})
  {
    DropOk(h, oldIt, now);
    if newIt != null { DropOk(Drop(h, oldIt), newIt, now); }
  }

  /** The item that a choice puts in the place of another. */
  ghost function Target(choice: Choice, it: CacheItem, newIt: CacheItem?): CacheItem? {
    match choice
    case Keep(_) => null
    case PutRequest(_) => it
    case PutJoin(enough) => if enough then newIt else null
  }

  /** What is done before that: the request's item is marked stale, or a new item is made. */
  ghost function Prepared(h: Heap, it: CacheItem, oldIt: CacheItem, newIt: CacheItem?,
                          choice: Choice, joined: Entry): Heap
  {
    match choice
    case Keep(_) => h
    case PutRequest(stale) => if stale then Edit(h, it, StaleEntry(At(h, it).entry, At(h, oldIt).entry)) else h
    case PutJoin(_) => if newIt == null then h else NewItem(h, newIt, At(h, it).key, joined)
  }

  lemma PreparedOk(h: Heap, it: CacheItem, oldIt: CacheItem, newIt: CacheItem?, choice: Choice, joined: Entry, now: nat)
    requires HeapOk(h) && it in h.held && oldIt in h.held && it != oldIt && !At(h, it).linked
    requires choice.PutJoin? <==> newIt != null
    requires newIt != null ==> newIt !in h.items && EntryOk(At(h, it).key, joined, h.lim)
    ensures var g := Prepared(h, it, oldIt, newIt, choice, joined);
      && HeapOk(g) && Visible(g, now) == Visible(h, now) && g.lim == h.lim && g.casId == h.casId
      && g.held == h.held + (if newIt == null then multiset{} else multiset{newIt})
      && At(g, oldIt) == At(h, oldIt)
      && At(g, it).key == At(h, it).key && !At(g, it).linked
      && (choice.PutRequest? ==>
            At(g, it).entry ==
              if choice.stale then StaleEntry(At(h, it).entry, At(h, oldIt).entry) else At(h, it).entry)
      && (newIt != null ==> newIt != oldIt && At(g, newIt) == Rec(At(h, it).key, joined, 1, false))
  {
    assert HeldOk(h, it) && HeldOk(h, oldIt) && ItemOk(h, it);
    if newIt != null {
      NewItemOk(h, newIt, At(h, it).key, joined, now);
    } else if choice.PutRequest? && choice.stale {
      EditOk(h, it, StaleEntry(At(h, it).entry, At(h, oldIt).entry), now);
    }
  }

  /** All of it together, for a key that is there. */
  ghost function StoredOver(h: Heap, it: CacheItem, oldIt: CacheItem, newIt: CacheItem?,
                            choice: Choice, joined: Entry): Heap
  {
    Released(Placed(Prepared(h, it, oldIt, newIt, choice, joined), oldIt, Target(choice, it, newIt)), oldIt, newIt)
  }

  /** The entry that a choice stores, if any. */
  ghost function EntryPut(h: Heap, it: CacheItem, oldIt: CacheItem, choice: Choice, joined: Entry): Option<Entry> {
    match choice
    case Keep(_) => None
    case PutRequest(stale) =>
      Some(if stale then StaleEntry(At(h, it).entry, At(h, oldIt).entry) else At(h, it).entry)
    case PutJoin(enough) => if enough then Some(joined) else None
  }

  ghost function PutIf(s: Store, key: Key, e: Option<Entry>, useCas: bool): Store {
    if e.Some? then Put(s, key, e.value, useCas) else s
  }

  ghost function Answer(choice: Choice): Stored {
    match choice
    case Keep(answer) => answer
    case PutRequest(_) => STORED
    case PutJoin(enough) => if enough then STORED else NOT_STORED
  }

  lemma LiveIdempotent(h: Heap, now: nat)
    ensures Live(Visible(h, now), now) == Visible(h, now)
  {
  }

  lemma StoredOverOk(h: Heap, it: CacheItem, oldIt: CacheItem, newIt: CacheItem?,
                     choice: Choice, joined: Entry, now: nat)
    requires HeapOk(h) && it in h.held && oldIt in h.held && it != oldIt && !At(h, it).linked
    requires At(h, oldIt).linked && At(h, oldIt).key == At(h, it).key
    requires choice.PutJoin? <==> newIt != null
    requires newIt != null ==> newIt !in h.items && EntryOk(At(h, it).key, joined, h.lim)
    ensures var g, s, key := StoredOver(h, it, oldIt, newIt, choice, joined), Visible(h, now), At(h, it).key;
      && HeapOk(g) && g.held == h.held - multiset{oldIt}
      && Visible(g, now) == Live(PutIf(s, key, EntryPut(h, it, oldIt, choice, joined), h.lim.useCas), now)
  {
    LiveIdempotent(h, now);
    PreparedOk(h, it, oldIt, newIt, choice, joined, now);
    var p := Prepared(h, it, oldIt, newIt, choice, joined);
    assert HeldOk(h, oldIt) && HeldOk(h, it);
    PlacedOk(p, oldIt, Target(choice, it, newIt), now);
    ReleasedOk(Placed(p, oldIt, Target(choice, it, newIt)), oldIt, newIt, now);
    AddThenTake(h.held, oldIt, if newIt == null then multiset{} else multiset{newIt});
  }

  lemma AddThenTake(held: multiset<CacheItem>, it: CacheItem, more: multiset<CacheItem>)
    requires it !in more
    ensures held + more - multiset{it} - more == held - multiset{it}
  {
  }

  /** The entry of a join; of no consequence for the other commands. */
  ghost function JoinedFor(h: Heap, it: CacheItem, oldIt: CacheItem, comm: Comm, memory: JoinMemory): Entry
    requires |At(h, it).entry.value| >= 2 && |At(h, oldIt).entry.value| >= 2
    requires |memory.raw| == |At(h, it).entry.value|
  {
    var e := At(h, it).entry;
    if comm.Join? then JoinedEntry(comm.how, At(h, it).key, At(h, oldIt).entry, e, memory.raw, h.lim) else e
  }

  /** What a storage command does to the heap when it finds the item oldIt. */
  ghost predicate Chosen(h: Heap, it: CacheItem, oldIt: CacheItem, comm: Comm, casStale: bool, memory: JoinMemory,
                         choice: Choice)
    requires |At(h, it).entry.value| >= 2 && |At(h, oldIt).entry.value| >= 2
  {
    choice == Choose(At(h, it).key, At(h, oldIt).entry, At(h, it).entry, comm, casStale, memory, h.lim)
  }

  lemma JoinedLength(how: Command, a: seq<byte>, b: seq<byte>)
    requires |a| >= 2 && |b| >= 2
    ensures |Joined(how, a, b)| == |a| + |b| - 2
  {
  }

  // ----- The cache -----

  /** The header and the data of a new item. */
  function Allocated(key: Key, flags: nat, exptime: nat, value: seq<byte>, lim: Limits): Entry {
    Entry(value, flags, exptime, 0, false, false, lim.Chunked(|key|, flags, |value|), false)
  }

  class Cache {
    const lim: Limits
    var table: map<Key, CacheItem>  // the hash table
    var casId: nat                  // the cas id handed out last
    var now: nat                    // current_time
    ghost var heap: Heap

    /** The fields of an item are as `heap` says. */
    ghost predicate Mirrors(it: CacheItem)
      reads this`heap, it
    {
      it in heap.items && it.Value() == heap.items[it]
    }

    ghost predicate Agrees()
      reads this, heap.items.Keys
    {
      && table == heap.table && casId == heap.casId && lim == heap.lim
      && forall it {:trigger Mirrors(it)} :: it in heap.items ==> Mirrors(it)
    }

    ghost predicate Valid()
      reads this, heap.items.Keys
    {
      Agrees() && HeapOk(heap) && Roomy(lim)
    }

    constructor (lim: Limits, now: nat)
      requires Roomy(lim)
      ensures Valid() && heap == Heap(lim, map[], map[], multiset{}, 0) && this.lim == lim && this.now == now
    {
      this.lim, this.now := lim, now;
      table, casId, heap := map[], 0, Heap(lim, map[], map[], multiset{}, 0);
    }

    /** The item of a key, linked and not looked at. */
    ghost function Slot(key: Key): set<CacheItem>
      reads this`table
    {
      if key in table then {table[key]} else {}
    }

    method DoItemRemove(it: CacheItem)
      requires Agrees() && it in heap.items && it.refcount > 0
      modifies this`heap, it`refcount
      ensures Agrees() && heap == Drop(old(heap), it)
    {
      assert Mirrors(it);
      it.refcount := it.refcount - 1;
      heap := Drop(heap, it);
      forall o | o in heap.items ensures Mirrors(o) { assert o != it ==> old(Mirrors(o)); }
    }

    method DoItemUnlink(it: CacheItem)
      requires Agrees() && it in heap.items && it.refcount > 0
      modifies this`heap, this`table, it`refcount, it`linked
      ensures Agrees() && heap == if old(it.linked) then Unlinking(old(heap), it) else old(heap)
    {
      assert Mirrors(it);
      if it.linked {
        it.linked := false;
        table := table - {it.key};
        it.refcount := it.refcount - 1;
        heap := Unlinking(heap, it);
        forall o | o in heap.items ensures Mirrors(o) { assert o != it ==> old(Mirrors(o)); }
      }
    }

    /** get_cas_id, if cas ids are in use. */
    method GetCasId() returns (cas: nat)
      modifies this`casId
      ensures cas == (if lim.useCas then old(casId) + 1 else 0)
      ensures casId == if lim.useCas then old(casId) + 1 else old(casId)
    {
      cas := 0;
      if lim.useCas {
        casId := casId + 1;
        cas := casId;
      }
    }

    method DoItemLink(it: CacheItem)
      requires Agrees() && it in heap.items
      modifies this`heap, this`table, this`casId, it`refcount, it`linked, it`cas
      ensures Agrees() && heap == Linking(old(heap), it) && it.cas == FreshCas(old(heap))
    {
      assert Mirrors(it);
      it.linked := true;
      it.cas := GetCasId();
      table := table[it.key := it];
      it.refcount := it.refcount + 1;
      heap := Linking(heap, it);
      forall o | o in heap.items ensures Mirrors(o) { assert o != it ==> old(Mirrors(o)); }
    }

    /** item_replace: the old item leaves the table, the new one takes its place. */
    method DoItemReplace(it: CacheItem, newIt: CacheItem)
      requires Agrees() && it in heap.items && newIt in heap.items && it != newIt && it.linked && it.refcount > 0
      modifies this`heap, this`table, this`casId, it`refcount, it`linked
      modifies newIt`refcount, newIt`linked, newIt`cas
      ensures Agrees() && heap == Placed(old(heap), it, newIt) && newIt.cas == FreshCas(old(heap))
    {
      DoItemUnlink(it);
      DoItemLink(newIt);
    }

    method RefcountIncr(it: CacheItem)
      requires Agrees() && it in heap.items
      modifies this`heap, it`refcount
      ensures Agrees() && heap == Hold(old(heap), it)
    {
      assert Mirrors(it);
      it.refcount := it.refcount + 1;
      heap := Hold(heap, it);
      forall o | o in heap.items ensures Mirrors(o) { assert o != it ==> old(Mirrors(o)); }
    }

    /** Looks a key up and takes a reference.  An expired item is unlinked on the way. */
    method DoItemGet(key: Key) returns (it: CacheItem?)
      requires Valid()
      modifies this`heap, this`table, heap.items.Keys`refcount, heap.items.Keys`linked
      ensures Agrees() && heap == Got(old(heap), key, now) && it == Found(old(heap), key, now)
      ensures key !in old(table) ==> it == null
      ensures key in old(table) ==>
                it == if old(table[key].exptime != 0 && table[key].exptime <= now) then null else old(table)[key]
    {
      if key !in table {
        return null;
      }
      it := table[key];
      assert SlotOk(heap, key) && ItemOk(heap, it) && Mirrors(it);
      RefcountIncr(it);
      assert Mirrors(it);
      if it.exptime != 0 && it.exptime <= now {
        DoItemUnlink(it);
        assert Mirrors(it);
        DoItemRemove(it);
        it := null;
      }
    }

    /** do_item_alloc, and the data: null when there is no memory. */
    method DoItemAlloc(key: Key, flags: nat, exptime: nat, value: seq<byte>, available: bool) returns (it: CacheItem?)
      requires Agrees()
      modifies this`heap
      ensures Agrees() && (it == null <==> !available)
      ensures it == null ==> heap == old(heap)
      ensures it != null ==> fresh(it) && it !in old(heap).items && it.key == key && it.value == value
      ensures it != null ==> heap == NewItem(old(heap), it, key, Allocated(key, flags, exptime, value, lim))
    {
      if !available {
        return null;
      }
      var e := Allocated(key, flags, exptime, value, lim);
      it := new CacheItem(key, e);
      heap := NewItem(heap, it, key, e);
      forall o | o in heap.items ensures Mirrors(o) { assert o != it ==> old(Mirrors(o)); }
    }

    /** The stale form of cas: the new value keeps the expiry of the old one and is marked stale. */
    method MarkStale(it: CacheItem, oldIt: CacheItem)
      requires Agrees() && it in heap.items && oldIt in heap.items && it != oldIt
      modifies this`heap, it`exptime, it`stale, it`tokenSent
      ensures Agrees() && heap == Edit(old(heap), it, StaleEntry(At(old(heap), it).entry, At(old(heap), oldIt).entry))
    {
      ghost var e := StaleEntry(At(heap, it).entry, At(heap, oldIt).entry);
      assert Mirrors(it) && Mirrors(oldIt);
      it.exptime := oldIt.exptime;
      it.stale := true;
      if oldIt.tokenSent {
        it.tokenSent := true;
      }
      heap := Edit(heap, it, e);
      forall o | o in heap.items ensures Mirrors(o) { assert o != it ==> old(Mirrors(o)); }
    }

    /** Decides what a storage command does about the item that is there, and prepares the item that is to take
        its place: `target`, or none.  `newIt` is the item made for a join. */
    method Decide(it: CacheItem, oldIt: CacheItem, comm: Comm, casStale: bool, memory: JoinMemory)
      returns (target: CacheItem?, newIt: CacheItem?, stored: Stored, nbytes: Option<nat>, ghost choice: Choice)
      requires Agrees() && it in heap.items && oldIt in heap.items && it != oldIt && it.key == oldIt.key
      requires |it.value| >= 2 && |oldIt.value| >= 2 && |memory.raw| == |it.value|
      modifies this`heap, it`exptime, it`stale, it`tokenSent
      ensures Agrees() && |At(old(heap), it).entry.value| >= 2 && |At(old(heap), oldIt).entry.value| >= 2
      ensures |memory.raw| == |At(old(heap), it).entry.value|
      ensures Chosen(old(heap), it, oldIt, comm, casStale, memory, choice)
      ensures heap == Prepared(old(heap), it, oldIt, newIt, choice, JoinedFor(old(heap), it, oldIt, comm, memory))
      ensures target == Target(choice, it, newIt) && (newIt != null <==> choice.PutJoin?)
      ensures newIt != null ==> fresh(newIt) && newIt !in old(heap).items
      ensures stored == if choice.Keep? then choice.answer else NOT_STORED
      ensures nbytes ==
              if choice == PutJoin(true) then Some(|JoinedFor(old(heap), it, oldIt, comm, memory).value|) else None
    {
      target, newIt, stored, nbytes := null, null, NOT_STORED, None;
      choice := Keep(NOT_STORED);
      assert Mirrors(it) && Mirrors(oldIt);
      var casRes := CompareCas(it.cas, oldIt.cas, casStale);
      match comm
      case Add =>
      case Cas =>
        if casRes == CasMatch {
          target := it;
          choice := PutRequest(false);
        } else if casRes == CasStale {
          MarkStale(it, oldIt);
          target := it;
          choice := PutRequest(true);
        } else {
          stored := EXISTS;
          choice := Keep(EXISTS);
        }
      case Join(how) =>
        if casRes != CasNone && casRes != CasMatch {
          stored := EXISTS;
          choice := Keep(EXISTS);
        } else if !oldIt.hdr {
          newIt, choice := MakeJoin(it, oldIt, how, memory);
          if newIt != null && (memory.chunks || !newIt.chunked) {
            target := newIt;
            nbytes := Some(|newIt.value|);
          }
        }
      case Replace =>
        target := it;
        choice := PutRequest(false);
      case Set =>
        target := it;
        choice := PutRequest(false);
    }

    /** The item for a join.  When it is in chunks and these run out, what it holds does not matter. */
    method MakeJoin(it: CacheItem, oldIt: CacheItem, how: Command, memory: JoinMemory)
      returns (newIt: CacheItem?, ghost choice: Choice)
      requires Agrees() && it in heap.items && oldIt in heap.items && it.key == oldIt.key
      requires |it.value| >= 2 && |oldIt.value| >= 2 && |memory.raw| == |it.value|
      modifies this`heap
      ensures Agrees() && (newIt == null <==> !memory.item)
      ensures newIt == null ==> heap == old(heap)
      ensures var e, prev := it.Value().entry, oldIt.Value().entry;
        && choice == (if newIt == null then Keep(NOT_STORED) else PutJoin(memory.chunks || !newIt.chunked))
        && (newIt != null ==>
              && fresh(newIt) && newIt !in old(heap).items
              && newIt.chunked == JoinChunked(it.key, prev, e, lim)
              && newIt.value == JoinedEntry(how, it.key, prev, e, memory.raw, lim).value
              && heap == NewItem(old(heap), newIt, it.key, JoinedEntry(how, it.key, prev, e, memory.raw, lim)))
    {
      var e, prev := it.Value().entry, oldIt.Value().entry;
      var joined := JoinedEntry(how, it.key, prev, e, memory.raw, lim);
      JoinedLength(how, prev.value, ReadOf(e, memory.raw, joined.chunked));
      newIt := DoItemAlloc(it.key, oldIt.flags, oldIt.exptime, joined.value, memory.item);
      choice := Keep(NOT_STORED);
      if newIt != null {
        assert Mirrors(newIt);
        choice := PutJoin(memory.chunks || !newIt.chunked);
      }
    }

    /** Gives back the references to the old item and to an item made for a join. */
    method GiveBack(oldIt: CacheItem, newIt: CacheItem?)
      requires Valid() && oldIt in heap.held && (newIt != null ==> newIt in heap.held && newIt != oldIt)
      modifies this`heap, oldIt`refcount, {newIt}`refcount
      ensures Agrees() && heap == Released(old(heap), oldIt, newIt)
    {
      assert HeldOk(heap, oldIt) && Mirrors(oldIt) && ItemOk(heap, oldIt);
      DropOk(heap, oldIt, now);
      DoItemRemove(oldIt);
      if newIt != null {
        assert HeldOk(heap, newIt) && Mirrors(newIt) && ItemOk(heap, newIt);
        DoItemRemove(newIt);
      }
    }

    /** Puts the target, if any, in the place of oldIt and gives back the references taken on the way. */
    method Finish(oldIt: CacheItem, target: CacheItem?, newIt: CacheItem?)
      requires Valid() && oldIt in heap.held && oldIt.linked
      requires target != null ==> target in heap.held && target != oldIt && target.key == oldIt.key && !target.linked
      requires newIt != null ==> newIt in heap.held && newIt != oldIt
      modifies this`heap, this`table, this`casId, oldIt`refcount, oldIt`linked
      modifies {target, newIt}`refcount, {target}`linked, {target}`cas
      ensures Agrees() && heap == Released(Placed(old(heap), oldIt, target), oldIt, newIt)
      ensures target != null ==> target.cas == FreshCas(old(heap))
    {
      assert HeldOk(heap, oldIt) && Mirrors(oldIt) && ItemOk(heap, oldIt);
      if target != null {
        assert HeldOk(heap, target) && Mirrors(target);
        PlacedOk(heap, oldIt, target, now);
        DoItemReplace(oldIt, target);
      }
      GiveBack(oldIt, newIt);
    }

    /** Carries out what a storage command does about the item that is there. */
    method StoreOver(it: CacheItem, oldIt: CacheItem, comm: Comm, casStale: bool, memory: JoinMemory)
      returns (stored: Stored, nbytes: Option<nat>, cas: Option<nat>, ghost choice: Choice, ghost made: CacheItem?)
      requires Valid() && Meet(heap, it, oldIt, memory) && !Dead(At(heap, oldIt).entry, now)
      modifies this`heap, this`table, this`casId, it`exptime, it`stale, it`tokenSent
      modifies it`refcount, it`linked, it`cas, oldIt`refcount, oldIt`linked
      ensures Agrees() && |At(old(heap), it).entry.value| >= 2 && |At(old(heap), oldIt).entry.value| >= 2
      ensures |memory.raw| == |At(old(heap), it).entry.value|
      ensures Chosen(old(heap), it, oldIt, comm, casStale, memory, choice)
      ensures (made != null <==> choice.PutJoin?) && (made != null ==> made !in old(heap).items)
      ensures heap == StoredOver(old(heap), it, oldIt, made, choice, JoinedFor(old(heap), it, oldIt, comm, memory))
      ensures stored == Answer(choice) && cas == (if stored == STORED then Some(FreshCas(old(heap))) else None)
      ensures nbytes ==
              if choice == PutJoin(true) then Some(|JoinedFor(old(heap), it, oldIt, comm, memory).value|) else None
    {
      ghost var h := heap;
      MeetFacts(h, it, oldIt, memory);
      assert Mirrors(it) && Mirrors(oldIt);
      var target, newIt;
      target, newIt, stored, nbytes, choice := Decide(it, oldIt, comm, casStale, memory);
      made := newIt;
      PresentReady(h, it, oldIt, newIt, comm, casStale, memory, choice, now);
      assert Mirrors(oldIt) && (target != null ==> Mirrors(target));
      Finish(oldIt, target, newIt);
      cas := None;
      if target != null {
        stored := STORED;
        cas := Some(target.cas);
      }
    }

    /** do_store_item for a key that is in the table. */
    method StorePresent(it: CacheItem, oldIt: CacheItem, comm: Comm, casStale: bool, memory: JoinMemory)
      returns (stored: Stored, nbytes: Option<nat>, cas: Option<nat>)
      requires Valid() && Meet(heap, it, oldIt, memory) && !Dead(At(heap, oldIt).entry, now)
      modifies this`heap, this`table, this`casId, it`exptime, it`stale, it`tokenSent
      modifies it`refcount, it`linked, it`cas, oldIt`refcount, oldIt`linked
      ensures Valid() && heap.held == old(heap).held - multiset{oldIt}
      ensures var s, key, e := Visible(old(heap), now), At(old(heap), it).key, At(old(heap), it).entry;
        && StoreArgs(s, key, e, memory)
        && (Visible(heap, now), stored, nbytes, cas) == StoreOutcome(s, key, e, comm, casStale, memory, lim, now)
    {
      ghost var h, choice, made := heap, Keep(NOT_STORED), null;
      stored, nbytes, cas, choice, made := StoreOver(it, oldIt, comm, casStale, memory);
      PresentDone(h, it, oldIt, made, comm, casStale, memory, choice, now);
      PresentOutcome(h, it, oldIt, comm, casStale, memory, choice, now);
    }

    /** Links the item when the command creates missing entries. */
    method LinkIfCreated(it: CacheItem, comm: Comm) returns (stored: Stored, cas: Option<nat>)
      requires Agrees() && it in heap.items
      modifies this`heap, this`table, this`casId, it`refcount, it`linked, it`cas
      ensures Agrees() && heap == if Creates(comm) then Linking(old(heap), it) else old(heap)
      ensures stored == AbsentAnswer(comm)
      ensures cas == if Creates(comm) then Some(FreshCas(old(heap))) else None
    {
      var doStore := false;
      stored, cas := NOT_STORED, None;
      match comm {
        case Add => doStore := true;
        case Set => doStore := true;
        case Join(how) => doStore := how.AppendViv? || how.PrependViv?;
        case Cas => stored := NOT_FOUND;
        case Replace =>
      }
      if doStore {
        DoItemLink(it);
        stored := STORED;
        cas := Some(it.cas);
      }
    }

    /** do_store_item for a key that is not in the table. */
    method StoreAbsent(it: CacheItem, comm: Comm, ghost casStale: bool, ghost memory: JoinMemory)
      returns (stored: Stored, nbytes: Option<nat>, cas: Option<nat>)
      requires Valid() && it in heap.held && !At(heap, it).linked && |memory.raw| == |At(heap, it).entry.value|
      requires At(heap, it).key !in heap.table
      modifies this`heap, this`table, this`casId, it`refcount, it`linked, it`cas
      ensures Valid() && heap.held == old(heap).held
      ensures var s, key, e := Visible(old(heap), now), At(old(heap), it).key, At(old(heap), it).entry;
        && StoreArgs(s, key, e, memory)
        && (Visible(heap, now), stored, nbytes, cas) == StoreOutcome(s, key, e, comm, casStale, memory, lim, now)
    {
      AbsentDone(heap, it, comm, casStale, memory, now);
      stored, cas := LinkIfCreated(it, comm);
      nbytes := None;
    }

    /** Stores an item, said as one step on the map. */
    method StoreItem(it: CacheItem, comm: Comm, casStale: bool, memory: JoinMemory)
      returns (stored: Stored, nbytes: Option<nat>, cas: Option<nat>)
      requires Valid() && it in heap.held && !it.linked && |memory.raw| == |it.value|
      modifies this`heap, this`table, this`casId, it`exptime, it`stale, it`tokenSent, it`cas
      modifies heap.items.Keys`refcount, heap.items.Keys`linked
      ensures Valid() && heap.held == old(heap).held
      ensures var s, key, e := Visible(old(heap), now), At(old(heap), it).key, At(old(heap), it).entry;
        && StoreArgs(s, key, e, memory)
        && (Visible(heap, now), stored, nbytes, cas) == StoreOutcome(s, key, e, comm, casStale, memory, lim, now)
    {
      ghost var h := heap;
      assert HeldOk(h, it) && Mirrors(it);
      RequestReady(h, it, memory, now);
      var oldIt := DoItemGet(it.key);
      if oldIt != null {
        stored, nbytes, cas := StorePresent(it, oldIt, comm, casStale, memory);
        HoldThenDrop(h.held, oldIt);
      } else {
        stored, nbytes, cas := StoreAbsent(it, comm, casStale, memory);
      }
    }

    /** Stores an item as one of the storage commands asks.  The caller keeps its reference to the item;
        every reference taken inside is given back. */
    method DoStoreItem(it: CacheItem, comm: Comm, casStale: bool, memory: JoinMemory)
      returns (stored: Stored, nbytes: Option<nat>, cas: Option<nat>)
      requires Valid() && it in heap.held && !it.linked && |memory.raw| == |it.value|
      modifies this`heap, this`table, this`casId, it`exptime, it`stale, it`tokenSent, it`cas
      modifies heap.items.Keys`refcount, heap.items.Keys`linked
      ensures Valid() && heap.held == old(heap).held
      ensures var s, key, e := Visible(old(heap), now), At(old(heap), it).key, At(old(heap), it).entry;
        && StoreArgs(s, key, e, memory)
        && (Visible(heap, now), stored, nbytes, cas) == StoreOutcome(s, key, e, comm, casStale, memory, lim, now)
      ensures stored != STORED ==> Visible(heap, now) == Visible(old(heap), now)
      ensures stored == STORED ==> cas == Some(if lim.useCas then old(casId) + 1 else 0)
      ensures stored == STORED && comm.Join? && it.key in Visible(old(heap), now).m ==>
                nbytes == Some(|Visible(old(heap), now).m[it.key].value| + old(|it.value|) - 2)
      ensures var s, key, token := Visible(old(heap), now), it.key, old(it.cas);
        && (key !in s.m ==>
              && (stored == STORED <==> comm in {Add, Set, Join(AppendViv), Join(PrependViv)})
              && (stored == NOT_FOUND <==> comm == Cas) && stored != EXISTS)
        && (key in s.m ==>
              var prev := s.m[key];
              && stored != NOT_FOUND && (comm in {Set, Replace} ==> stored == STORED)
              && (comm == Add ==> stored == NOT_STORED)
              && (comm == Cas ==> (stored == STORED <==>
                    token != 0 && (token == prev.cas || (casStale && token < prev.cas))))
              && (comm == Cas ==> (stored == EXISTS <==> stored != STORED))
              && (comm.Join? ==> (stored == EXISTS <==> token != 0 && token != prev.cas))
              && (comm.Join? ==> (stored == STORED <==>
                    && (token == 0 || token == prev.cas) && !prev.hdr && memory.item
                    && (memory.chunks || lim.header + |key| + 1 + (if prev.flags == 0 then 0 else 4) + |prev.value| +
                        old(|it.value|) - 2 + (if lim.useCas then 8 else 0) <= lim.chunkMax))))
    {
      ghost var h := heap;
      assert HeldOk(h, it) && Mirrors(it);
      stored, nbytes, cas := StoreItem(it, comm, casStale, memory);
      OutcomeMeaning(Visible(h, now), At(h, it).key, At(h, it).entry, comm, casStale, memory, lim, now);
      StoreStepMeaning(Visible(h, now), At(h, it).key, At(h, it).entry, comm, casStale, memory, lim);
      if stored == STORED {
        StoreStepContents(Visible(h, now), At(h, it).key, At(h, it).entry, comm, casStale, memory, lim);
      }
      LiveIdempotent(h, now);
    }

    /** The number is written over the one before, padded with spaces. */
    method WriteInPlace(it: CacheItem, digits: seq<byte>)
      requires Agrees() && it in heap.items && |digits| + 2 <= |it.value|
      modifies this`heap, this`casId, it`value, it`cas
      ensures Agrees() && |digits| + 2 <= |At(old(heap), it).entry.value|
      ensures heap == Overwriting(old(heap), it, InPlace(At(old(heap), it).entry.value, digits))
      ensures it.cas == FreshCas(old(heap))
    {
      assert Mirrors(it);
      ghost var value := InPlace(it.value, digits);
      it.cas := GetCasId();
      var n := |it.value|;
      it.value := Overwrite(it.value, 0, digits);
      it.value := Overwrite(it.value, |digits|, Spaces(n - |digits| - 2));
      assert it.value == value;
      heap := Overwriting(heap, it, value);
      forall o | o in heap.items ensures Mirrors(o) { assert o != it ==> old(Mirrors(o)); }
    }

    /** ITEM_set_cas. */
    method SetCas(it: CacheItem, cas: nat)
      requires Agrees() && it in heap.items
      modifies this`heap, it`cas
      ensures Agrees() && heap == Edit(old(heap), it, At(old(heap), it).entry.(cas := cas)) && it.cas == cas
    {
      assert Mirrors(it);
      it.cas := cas;
      heap := Edit(heap, it, At(heap, it).entry.(cas := cas));
      forall o | o in heap.items ensures Mirrors(o) { assert o != it ==> old(Mirrors(o)); }
    }

    /** The number goes into a new item, which replaces the old one; the old one takes over its cas id,
        from which the caller is told.  Null when there is no memory. */
    method WriteNewItem(it: CacheItem, digits: seq<byte>, available: bool) returns (newIt: CacheItem?)
      requires Valid() && it in heap.held && it.linked && |digits| <= 20
      modifies this`heap, this`table, this`casId, it`refcount, it`linked, it`cas
      ensures Agrees() && (newIt == null <==> !available)
      ensures newIt == null ==> heap == old(heap)
      ensures newIt != null ==>
                && newIt !in old(heap).items && it.cas == FreshCas(old(heap))
                && heap == Replaced(old(heap), it, newIt, DeltaEntry(At(old(heap), it).entry, digits, false))
    {
      ghost var h, e := heap, DeltaEntry(At(heap, it).entry, digits, false);
      assert HeldOk(h, it) && Mirrors(it) && ItemOk(h, it);
      newIt := DoItemAlloc(it.key, it.flags, it.exptime, digits + CRLF, available);
      if newIt == null {
        return;
      }
      assert Allocated(it.key, it.flags, it.exptime, digits + CRLF, lim) == e;
      assert Mirrors(it) && Mirrors(newIt);
      DoItemReplace(it, newIt);
      assert Mirrors(it) && Mirrors(newIt);
      SetCas(it, if lim.useCas then newIt.cas else 0);
      assert Mirrors(newIt);
      DoItemRemove(newIt);
    }

    /** Reads the number in an item, or says why there is none. */
    method ReadNumber(it: CacheItem, reqCas: Option<nat>, tail: seq<byte>) returns (read: DeltaResult)
      ensures read == DeltaRead(it.Value().entry, Pointee(reqCas), tail)
    {
      if |it.value| <= 2 || it.chunked || it.hdr {
        return NON_NUMERIC;
      }
      if reqCas.Some? && reqCas.value != 0 && it.cas != reqCas.value {
        return DELTA_ITEM_CAS_MISMATCH;
      }
      var parsed := StrToULL(CString(it.value + tail));
      return if parsed.None? then NON_NUMERIC else OK(parsed.value);
    }

    /** Stores the number w: in place when it fits and nobody else can see the item, in a new item
        otherwise. */
    method WriteNumber(it: CacheItem, w: nat, available: bool) returns (ok: bool, ghost made: CacheItem?)
      requires Valid() && it in heap.held && it.linked && w < TWO64
      modifies this`heap, this`table, this`casId, it`refcount, it`linked, it`cas, it`value
      ensures Agrees() && ok == (Fits(old(heap), it, w) || available)
      ensures made != null <==> ok && !Fits(old(heap), it, w)
      ensures made != null ==> made !in old(heap).items
      ensures heap == if ok then Written(old(heap), it, w, made) else old(heap)
      ensures ok ==> it.cas == FreshCas(old(heap))
      ensures old(it.refcount) != 2 ==> it.value == old(it.value)
    {
      made := null;
      assert HeldOk(heap, it) && Mirrors(it) && ItemOk(heap, it);
      var digits := Itoa(w);
      ItoaFits(w);
      if |digits| + 2 <= |it.value| && it.refcount == 2 {
        WriteInPlace(it, digits);
        return true, null;
      } else if it.refcount > 1 {
        var newIt := WriteNewItem(it, digits, available);
        return newIt != null, newIt;
      } else {
        // An item of the table that is held as well has two references.
        assert false;
      }
    }

    /** Adds to or takes from the number in an item, and stores it. */
    method CountAndWrite(it: CacheItem, incr: bool, delta: nat, reqCas: Option<nat>, tail: seq<byte>, available: bool)
      returns (r: DeltaResult, casOut: Option<nat>, ghost read: DeltaResult, ghost made: CacheItem?)
      requires Valid() && it in heap.held && it.linked && delta < TWO64
      modifies this`heap, this`table, this`casId, it`refcount, it`linked, it`cas, it`value
      ensures Agrees() && it in heap.items && it.refcount > 0
      ensures read == DeltaRead(At(old(heap), it).entry, Pointee(reqCas), tail)
      ensures made != null ==> read.OK? && made !in old(heap).items
      ensures read.OK? ==> (made != null <==> !Fits(old(heap), it, Count(incr, read.value, delta)) && available)
      ensures r == Answered(old(heap), it, read, incr, delta, available)
      ensures casOut == if r.OK? && reqCas.Some? then Some(FreshCas(old(heap))) else reqCas
      ensures heap == if r.OK? then Written(old(heap), it, r.value, made) else old(heap)
      ensures old(it.refcount) != 2 ==> it.value == old(it.value)
    {
      ghost var h := heap;
      assert HeldOk(h, it) && Mirrors(it) && ItemOk(h, it);
      casOut, made := reqCas, null;
      r := ReadNumber(it, reqCas, tail);
      read := r;
      if r.OK? {
        var w := Count(incr, r.value, delta);
        var ok;
        ok, made := WriteNumber(it, w, available);
        if ok {
          WrittenHolds(h, it, w, made);
        }
        r := if ok then OK(w) else EOM;
        if ok && reqCas.Some? {
          casOut := Some(it.cas);
        }
      }
      assert Mirrors(it);
    }

    /** The same, with an item that has just been looked up: the caller gets it, or it is given back. */
    method CountItem(it: CacheItem, incr: bool, delta: nat, reqCas: Option<nat>, tail: seq<byte>, available: bool,
                     wantItem: bool)
      returns (r: DeltaResult, casOut: Option<nat>, itRet: CacheItem?, ghost read: DeltaResult, ghost made: CacheItem?)
      requires Valid() && it in heap.held && it.linked && delta < TWO64
      modifies this`heap, this`table, this`casId, it`refcount, it`linked, it`cas, it`value
      ensures Agrees() && read == DeltaRead(At(old(heap), it).entry, Pointee(reqCas), tail)
      ensures made != null ==> read.OK? && made !in old(heap).items
      ensures read.OK? ==> (made != null <==> !Fits(old(heap), it, Count(incr, read.value, delta)) && available)
      ensures r == Answered(old(heap), it, read, incr, delta, available)
      ensures itRet == (if r.OK? && wantItem then it else null)
      ensures old(it.refcount) != 2 ==> it.value == old(it.value)
      ensures casOut == if r.OK? && reqCas.Some? then Some(FreshCas(old(heap))) else reqCas
      ensures heap == var g := if r.OK? then Written(old(heap), it, r.value, made) else old(heap);
                      if itRet == null then Drop(g, it) else g
    {
      r, casOut, read, made := CountAndWrite(it, incr, delta, reqCas, tail, available);
      itRet := null;
      if r.OK? && wantItem {
        itRet := it;
      } else {
        DoItemRemove(it);
      }
    }

    /** The same, with what it comes to for the heap h before the lookup. */
    method CountFound(ghost h: Heap, it: CacheItem, key: Key, incr: bool, delta: nat, reqCas: Option<nat>,
                      tail: seq<byte>, available: bool, wantItem: bool)
      returns (r: DeltaResult, casOut: Option<nat>, itRet: CacheItem?)
      requires Valid() && HeapOk(h) && h.lim == lim && heap == Got(h, key, now) && it == Found(h, key, now)
      requires it in heap.held && it.linked && delta < TWO64
      modifies this`heap, this`table, this`casId, it`refcount, it`linked, it`cas, it`value
      ensures Valid() && heap.held == h.held + if itRet == null then multiset{} else multiset{it}
      ensures itRet == if r.OK? && wantItem then it else null
      ensures old(it.refcount) != 2 ==> it.value == old(it.value)
      ensures (Visible(heap, now), r, casOut) ==
              DeltaOutcome(Visible(h, now), key, incr, delta, reqCas, Sole(h, key), available, tail, lim.useCas, now)
    {
      ghost var g, read, made := heap, NON_NUMERIC, null;
      r, casOut, itRet, read, made := CountItem(it, incr, delta, reqCas, tail, available, wantItem);
      CountHeap(h, g, it, key, r, made, itRet, now);
      CountOutcome(h, g, it, key, incr, delta, reqCas, tail, available, read, now);
    }

    /** Adds to or takes from a number, said as one step on the map.  `reqCas` is the caller's cas pointer: none, or
        what it points at; `casOut` is what it points at afterwards.  `tail` is the memory behind the item. */
    method AddDelta(key: Key, incr: bool, delta: int, reqCas: Option<nat>, tail: seq<byte>, available: bool,
                      wantItem: bool)
      returns (r: DeltaResult, casOut: Option<nat>, itRet: CacheItem?)
      requires Valid()
      modifies this`heap, this`table, this`casId
      modifies heap.items.Keys`refcount, heap.items.Keys`linked, heap.items.Keys`cas, Slot(key)`value
      ensures Valid() && heap.held == old(heap).held + if itRet == null then multiset{} else multiset{itRet}
      ensures itRet != null <==> r.OK? && wantItem
      ensures key in old(table) && old(heap).held[old(table)[key]] > 0 ==>
                old(table)[key].value == old(table[key].value)
      ensures (Visible(heap, now), r, casOut) ==
              DeltaOutcome(Visible(old(heap), now), key, incr, delta % TWO64, reqCas, Sole(old(heap), key), available,
                           tail, lim.useCas, now)
    {
      ghost var h := heap;
      CountReady(h, key, now);
      var it := DoItemGet(key);
      if it == null {
        return DELTA_ITEM_NOT_FOUND, reqCas, null;
      }
      assert Mirrors(it);
      HeldNotAlone(h, key, now);
      r, casOut, itRet := CountFound(h, it, key, incr, delta % TWO64, reqCas, tail, available, wantItem);
    }

    /** Adds to or takes from a number.  A 64-bit number wraps around when it is incremented, and stops at 0 when it
        is decremented.  When the caller wants the item, it gets a reference to it; no other reference is kept.  An
        item that somebody holds is not written to. */
    method DoAddDelta(key: Key, incr: bool, delta: int, reqCas: Option<nat>, tail: seq<byte>, available: bool,
                      wantItem: bool)
      returns (r: DeltaResult, casOut: Option<nat>, itRet: CacheItem?)
      requires Valid()
      modifies this`heap, this`table, this`casId
      modifies heap.items.Keys`refcount, heap.items.Keys`linked, heap.items.Keys`cas, Slot(key)`value
      ensures Valid() && heap.held == old(heap).held + if itRet == null then multiset{} else multiset{itRet}
      ensures itRet != null <==> r.OK? && wantItem
      ensures key in old(table) && old(heap).held[old(table)[key]] > 0 ==>
                old(table)[key].value == old(table[key].value)
      ensures (Visible(heap, now), r, casOut) ==
              DeltaOutcome(Visible(old(heap), now), key, incr, delta % TWO64, reqCas, Sole(old(heap), key), available,
                           tail, lim.useCas, now)
      ensures !r.OK? ==> Visible(heap, now) == Visible(old(heap), now) && casOut == reqCas
      ensures r.OK? && reqCas.Some? ==> casOut == Some(if lim.useCas then old(casId) + 1 else 0)
      ensures r == DELTA_ITEM_NOT_FOUND <==> key !in Visible(old(heap), now).m
      ensures r.OK? ==>
                var parsed, d := StrToULL(CString(Visible(old(heap), now).m[key].value + tail)), delta % TWO64;
                && parsed.Some?
                && (incr && parsed.value + d < TWO64 ==> r.value == parsed.value + d)
                && (incr && parsed.value + d >= TWO64 ==> r.value == parsed.value + d - TWO64)
                && (!incr && d <= parsed.value ==> r.value + d == parsed.value)
                && (!incr && d > parsed.value ==> r.value == 0)
    {
      ghost var s, sole := Visible(heap, now), Sole(heap, key);
      LiveIdempotent(heap, now);
      r, casOut, itRet := AddDelta(key, incr, delta, reqCas, tail, available, wantItem);
      DeltaAnswer(s, key, incr, delta % TWO64, reqCas, sole, available, tail, lim.useCas, now,
                  Visible(heap, now), r, casOut);
    }
  }

  function Pointee(p: Option<nat>): nat { if p.Some? then p.value else 0 }

  /** The number w goes into the item itself. */
  ghost predicate Fits(h: Heap, it: CacheItem, w: nat) {
    |Itoa(w)| + 2 <= |At(h, it).entry.value| && At(h, it).refcount == 2
  }

  /** Nobody has a reference to the item of this key. */
  ghost predicate Sole(h: Heap, key: Key) {
    key in h.table && h.held[h.table[key]] == 0
  }

  ghost function Written(h: Heap, it: CacheItem, w: nat, made: CacheItem?): Heap {
    if Fits(h, it, w) then Overwriting(h, it, InPlace(At(h, it).entry.value, Itoa(w)))
    else if made != null then Replaced(h, it, made, DeltaEntry(At(h, it).entry, Itoa(w), false))
    else h
  }

  ghost function Answered(h: Heap, it: CacheItem, read: DeltaResult, incr: bool, delta: nat,
                          available: bool): DeltaResult
    requires delta < TWO64 && (read.OK? ==> read.value < TWO64)
  {
    if !read.OK? then read
    else
      var w := Count(incr, read.value, delta);
      if Fits(h, it, w) || available then OK(w) else EOM
  }

  lemma WrittenOk(h: Heap, it: CacheItem, w: nat, made: CacheItem?, now: nat)
    requires HeapOk(h) && Roomy(h.lim) && it in h.held && At(h, it).linked && !Dead(At(h, it).entry, now) && w < TWO64
    requires (made != null <==> !Fits(h, it, w)) && (made != null ==> made !in h.items)
    ensures var g := Written(h, it, w, made);
      && HeapOk(g) && g.held == h.held
      && Visible(g, now) == Live(Put(Visible(h, now), At(h, it).key,
                                     DeltaEntry(At(h, it).entry, Itoa(w), Fits(h, it, w)), h.lim.useCas), now)
  {
    assert HeldOk(h, it) && ItemOk(h, it);
    if Fits(h, it, w) {
      OverwritingOk(h, it, InPlace(At(h, it).entry.value, Itoa(w)), now);
      LiveIdempotent(Written(h, it, w, made), now);
    } else {
      DeltaEntryOk(At(h, it).key, At(h, it).entry, w, false, h.lim);
      ReplacedOk(h, it, made, DeltaEntry(At(h, it).entry, Itoa(w), false), now);
    }
  }

  /** The item is still there after that. */
  lemma WrittenHolds(h: Heap, it: CacheItem, w: nat, made: CacheItem?)
    requires HeapOk(h) && Roomy(h.lim) && it in h.held && At(h, it).linked && w < TWO64
    requires (made != null <==> !Fits(h, it, w)) && (made != null ==> made !in h.items)
    ensures var g := Written(h, it, w, made); it in g.items && At(g, it).refcount > 0
  {
    assert HeldOk(h, it) && ItemOk(h, it);
  }

  /** Looking a number up. */
  lemma CountReady(h: Heap, key: Key, now: nat)
    requires HeapOk(h)
    ensures var g, it := Got(h, key, now), Found(h, key, now);
      && HeapOk(g) && g.lim == h.lim && Visible(g, now) == Visible(h, now)
      && Live(Visible(h, now), now) == Visible(h, now)
      && (if it == null then g.held == h.held && key !in Visible(h, now).m
          else it in g.held && it in g.items && At(g, it).linked)
  {
    GotOk(h, key, now);
    LiveIdempotent(h, now);
  }

  /** What an incr or decr must come to: the store that is visible afterwards, the answer, and the caller's
      cas, which is that of the number stored. */
  ghost function DeltaOutcome(s: Store, key: Key, incr: bool, delta: nat, reqCas: Option<nat>, sole: bool, memory: bool,
                              tail: seq<byte>, useCas: bool, now: nat): (Store, DeltaResult, Option<nat>)
    requires delta < TWO64
  {
    var (s', r) := DeltaStep(s, key, incr, delta, Pointee(reqCas), sole, memory, tail, useCas);
    (Live(s', now), r, if r.OK? && reqCas.Some? && key in s'.m then Some(s'.m[key].cas) else reqCas)
  }

  lemma DeltaReported(s: Store, key: Key, incr: bool, delta: nat, reqCas: Option<nat>, sole: bool, memory: bool,
                      tail: seq<byte>, useCas: bool, now: nat)
    requires delta < TWO64 && key in s.m && Live(s, now) == s
    ensures var read := DeltaRead(s.m[key], Pointee(reqCas), tail);
      DeltaOutcome(s, key, incr, delta, reqCas, sole, memory, tail, useCas, now) ==
      if !read.OK? then (s, read, reqCas)
      else
        var w := Count(incr, read.value, delta);
        var inPlace := |Itoa(w)| + 2 <= |s.m[key].value| && sole;
        if !inPlace && !memory then (s, EOM, reqCas)
        else (Live(Put(s, key, DeltaEntry(s.m[key], Itoa(w), inPlace), useCas), now), OK(w),
              if reqCas.Some? then Some(if useCas then s.casId + 1 else 0) else reqCas)
  {
  }

  /** The answer in numbers. */
  lemma DeltaAnswer(s: Store, key: Key, incr: bool, d: nat, reqCas: Option<nat>, sole: bool, memory: bool,
                    tail: seq<byte>, useCas: bool, now: nat, s': Store, r: DeltaResult, casOut: Option<nat>)
    requires d < TWO64 && Live(s, now) == s
    requires (s', r, casOut) == DeltaOutcome(s, key, incr, d, reqCas, sole, memory, tail, useCas, now)
    ensures !r.OK? ==> s' == s && casOut == reqCas
    ensures r.OK? && reqCas.Some? ==> casOut == Some(if useCas then s.casId + 1 else 0)
    ensures r == DELTA_ITEM_NOT_FOUND <==> key !in s.m
    ensures r.OK? ==>
              var parsed := StrToULL(CString(s.m[key].value + tail));
              && parsed.Some?
              && (incr && parsed.value + d < TWO64 ==> r.value == parsed.value + d)
              && (incr && parsed.value + d >= TWO64 ==> r.value == parsed.value + d - TWO64)
              && (!incr && d <= parsed.value ==> r.value + d == parsed.value)
              && (!incr && d > parsed.value ==> r.value == 0)
  {
    DeltaStepMeaning(s, key, incr, d, Pointee(reqCas), sole, memory, tail, useCas);
  }

  /** What the heap is like after a number has been counted, g being the heap after the lookup. */
  lemma CountHeap(h: Heap, g: Heap, it: CacheItem, key: Key, r: DeltaResult, made: CacheItem?,
                  itRet: CacheItem?, now: nat)
    requires HeapOk(h) && Roomy(h.lim) && g == Got(h, key, now) && it == Found(h, key, now)
    requires r.OK? ==> r.value < TWO64 && (made != null <==> !Fits(g, it, r.value))
    requires r.OK? && made != null ==> made !in g.items
    requires itRet != null ==> itRet == it
    ensures var g1 := if r.OK? then Written(g, it, r.value, made) else g;
      var g2 := if itRet == null then Drop(g1, it) else g1;
      && HeapOk(g2) && g2.held == h.held + (if itRet == null then multiset{} else multiset{it})
      && Visible(g2, now) == if !r.OK? then Visible(h, now) else
           Live(Put(Visible(h, now), key, DeltaEntry(At(g, it).entry, Itoa(r.value), Fits(g, it, r.value)),
                    h.lim.useCas), now)
  {
    GotOk(h, key, now);
    var g1 := if r.OK? then Written(g, it, r.value, made) else g;
    if r.OK? { WrittenOk(g, it, r.value, made, now); }
    if itRet == null {
      DropOk(g1, it, now);
      HoldThenDrop(h.held, it);
    }
  }

  /** What an incr or decr must come to, said of the heap after the lookup. */
  lemma CountOutcome(h: Heap, g: Heap, it: CacheItem, key: Key, incr: bool, delta: nat, reqCas: Option<nat>,
                     tail: seq<byte>, available: bool, read: DeltaResult, now: nat)
    requires HeapOk(h) && g == Got(h, key, now) && it == Found(h, key, now) && delta < TWO64
    requires read == DeltaRead(At(g, it).entry, Pointee(reqCas), tail)
    ensures var s, r := Visible(h, now), Answered(g, it, read, incr, delta, available);
      DeltaOutcome(s, key, incr, delta, reqCas, Sole(h, key), available, tail, h.lim.useCas, now) ==
      (if !r.OK? then s else
         Live(Put(s, key, DeltaEntry(At(g, it).entry, Itoa(r.value), Fits(g, it, r.value)), h.lim.useCas), now),
       r, if r.OK? && reqCas.Some? then Some(FreshCas(g)) else reqCas)
  {
    GotOk(h, key, now);
    LiveIdempotent(h, now);
    FoundSole(h, key, now);
    DeltaReported(Visible(h, now), key, incr, delta, reqCas, Sole(h, key), available, tail, h.lim.useCas, now);
  }

  /** Two references after the lookup mean that there was no other holder. */
  lemma FoundSole(h: Heap, key: Key, now: nat)
    requires HeapOk(h) && Found(h, key, now) != null
    ensures At(Got(h, key, now), Found(h, key, now)).refcount == 2 <==> Sole(h, key)
  {
    assert SlotOk(h, key) && ItemOk(h, h.table[key]);
  }

  lemma HeldNotAlone(h: Heap, key: Key, now: nat)
    requires HeapOk(h) && Found(h, key, now) != null
    ensures var it := Found(h, key, now);
      h.held[it] > 0 ==> At(Got(h, key, now), it).refcount != 2
  {
    FoundSole(h, key, now);
  }

  /** A new item takes the place of another, which keeps its cas id up with the new one. */
  ghost function Replaced(h: Heap, it: CacheItem, newIt: CacheItem, e: Entry): Heap {
    var g := Placed(NewItem(h, newIt, At(h, it).key, e), it, newIt);
    Drop(Edit(g, it, At(g, it).entry.(cas := FreshCas(h))), newIt)
  }

  lemma ReplacedOk(h: Heap, it: CacheItem, newIt: CacheItem, e: Entry, now: nat)
    requires HeapOk(h) && it in h.held && At(h, it).linked && newIt !in h.items && EntryOk(At(h, it).key, e, h.lim)
    ensures var g := Replaced(h, it, newIt, e);
      && HeapOk(g) && g.held == h.held
      && Visible(g, now) == Live(Put(Visible(h, now), At(h, it).key, e, h.lim.useCas), now)
  {
    assert HeldOk(h, it) && ItemOk(h, it);
    var a := NewItem(h, newIt, At(h, it).key, e);
    NewItemOk(h, newIt, At(h, it).key, e, now);
    PlacedOk(a, it, newIt, now);
    var g := Placed(a, it, newIt);
    assert HeldOk(g, it) && ItemOk(g, it);
    EditOk(g, it, At(g, it).entry.(cas := FreshCas(h)), now);
    DropOk(Edit(g, it, At(g, it).entry.(cas := FreshCas(h))), newIt, now);
    HoldThenDrop(h.held, newIt);
  }

  predicate Creates(comm: Comm) {
    comm.Add? || comm.Set? || Viv(comm)
  }

  function AbsentAnswer(comm: Comm): Stored {
    if Creates(comm) then STORED else if comm.Cas? then NOT_FOUND else NOT_STORED
  }

  /** Looking the key of a request up leaves its item alone. */
  lemma RequestReady(h: Heap, it: CacheItem, memory: JoinMemory, now: nat)
    requires HeapOk(h) && it in h.held && it in h.items && !At(h, it).linked && |memory.raw| == |At(h, it).entry.value|
    ensures var key := At(h, it).key;
      var g, oldIt := Got(h, key, now), Found(h, key, now);
      && HeapOk(g) && Visible(g, now) == Visible(h, now) && it in g.held && it in g.items && At(g, it) == At(h, it)
      && g.lim == h.lim
      && (if oldIt == null then key !in g.table && g.held == h.held && g.casId == h.casId
          else Meet(g, it, oldIt, memory) && !Dead(At(g, oldIt).entry, now) && g.held == h.held + multiset{oldIt})
  {
    var key := At(h, it).key;
    GotOk(h, key, now);
    if key in h.table { assert SlotOk(h, key) && ItemOk(h, h.table[key]); }
    assert ItemOk(h, it);
    GotKeeps(h, key, now, it);
  }

  /** What a command comes to when the key is not there. */
  lemma AbsentDone(h: Heap, it: CacheItem, comm: Comm, casStale: bool, memory: JoinMemory, now: nat)
    requires HeapOk(h) && it in h.held && !At(h, it).linked && |memory.raw| == |At(h, it).entry.value|
    requires At(h, it).key !in h.table
    ensures var s, key, e := Visible(h, now), At(h, it).key, At(h, it).entry;
      var g := if Creates(comm) then Linking(h, it) else h;
      && it in h.items && StoreArgs(s, key, e, memory) && HeapOk(g) && g.held == h.held
      && (Visible(g, now), AbsentAnswer(comm), None, if Creates(comm) then Some(FreshCas(h)) else None) ==
         StoreOutcome(s, key, e, comm, casStale, memory, h.lim, now)
  {
    assert HeldOk(h, it) && ItemOk(h, it);
    LiveIdempotent(h, now);
    AbsentReported(Visible(h, now), At(h, it).key, At(h, it).entry, comm, casStale, memory, h.lim, now);
    if Creates(comm) { LinkingOk(h, it, now); }
  }

  lemma AbsentReported(s: Store, key: Key, e: Entry, comm: Comm, casStale: bool, memory: JoinMemory, lim: Limits,
                       now: nat)
    requires key !in s.m && |e.value| >= 2 && |memory.raw| == |e.value|
    ensures StoreOutcome(s, key, e, comm, casStale, memory, lim, now) ==
            (Live(if Creates(comm) then Put(s, key, e, lim.useCas) else s, now), AbsentAnswer(comm), None,
             if Creates(comm) then Some(if lim.useCas then s.casId + 1 else 0) else None)
  {
  }

  /** A request's item meets the item that is there. */
  ghost predicate Meet(h: Heap, it: CacheItem, oldIt: CacheItem, memory: JoinMemory) {
    && it in h.held && oldIt in h.held && it != oldIt && At(h, oldIt).linked && !At(h, it).linked
    && At(h, oldIt).key == At(h, it).key && |memory.raw| == |At(h, it).entry.value|
  }

  lemma MeetFacts(h: Heap, it: CacheItem, oldIt: CacheItem, memory: JoinMemory)
    requires HeapOk(h) && Meet(h, it, oldIt, memory)
    ensures it in h.items && oldIt in h.items
    ensures |At(h, it).entry.value| >= 2 && |At(h, oldIt).entry.value| >= 2
  {
    assert HeldOk(h, it) && HeldOk(h, oldIt) && ItemOk(h, it) && ItemOk(h, oldIt);
  }

  /** What holds once the command has been decided. */
  lemma PresentReady(h: Heap, it: CacheItem, oldIt: CacheItem, newIt: CacheItem?, comm: Comm, casStale: bool,
                     memory: JoinMemory, choice: Choice, now: nat)
    requires HeapOk(h) && Meet(h, it, oldIt, memory) && !Dead(At(h, oldIt).entry, now)
    requires |At(h, it).entry.value| >= 2 && |At(h, oldIt).entry.value| >= 2
    requires Chosen(h, it, oldIt, comm, casStale, memory, choice)
    requires (newIt != null <==> choice.PutJoin?) && (newIt != null ==> newIt !in h.items)
    ensures var g := Prepared(h, it, oldIt, newIt, choice, JoinedFor(h, it, oldIt, comm, memory));
      && HeapOk(g) && FreshCas(g) == FreshCas(h)
      && oldIt in g.held && oldIt in g.items && At(g, oldIt).linked
      && (newIt != null ==> newIt in g.held && newIt != oldIt)
      && var target := Target(choice, it, newIt);
         target != null ==> target in g.held && target in g.items && target != oldIt &&
                            At(g, target).key == At(h, it).key && !At(g, target).linked
  {
    MeetFacts(h, it, oldIt, memory);
    JoinedForOk(h, it, oldIt, comm, memory);
    PreparedOk(h, it, oldIt, newIt, choice, JoinedFor(h, it, oldIt, comm, memory), now);
    var g := Prepared(h, it, oldIt, newIt, choice, JoinedFor(h, it, oldIt, comm, memory));
    assert HeldOk(g, oldIt) && HeldOk(g, it);
  }

  /** What the heap is like after the choice has been carried out. */
  lemma PresentDone(h: Heap, it: CacheItem, oldIt: CacheItem, newIt: CacheItem?, comm: Comm, casStale: bool,
                    memory: JoinMemory, choice: Choice, now: nat)
    requires HeapOk(h) && Meet(h, it, oldIt, memory)
    requires |At(h, it).entry.value| >= 2 && |At(h, oldIt).entry.value| >= 2
    requires Chosen(h, it, oldIt, comm, casStale, memory, choice)
    requires (newIt != null <==> choice.PutJoin?) && (newIt != null ==> newIt !in h.items)
    ensures var joined := JoinedFor(h, it, oldIt, comm, memory);
      var g := StoredOver(h, it, oldIt, newIt, choice, joined);
      && HeapOk(g) && g.held == h.held - multiset{oldIt}
      && Visible(g, now) ==
         Live(PutIf(Visible(h, now), At(h, it).key, EntryPut(h, it, oldIt, choice, joined), h.lim.useCas), now)
  {
    MeetFacts(h, it, oldIt, memory);
    JoinedForOk(h, it, oldIt, comm, memory);
    StoredOverOk(h, it, oldIt, newIt, choice, JoinedFor(h, it, oldIt, comm, memory), now);
  }

  /** What the command must come to, by the choice. */
  lemma PresentOutcome(h: Heap, it: CacheItem, oldIt: CacheItem, comm: Comm, casStale: bool, memory: JoinMemory,
                       choice: Choice, now: nat)
    requires HeapOk(h) && Meet(h, it, oldIt, memory) && !Dead(At(h, oldIt).entry, now)
    requires |At(h, it).entry.value| >= 2 && |At(h, oldIt).entry.value| >= 2
    requires Chosen(h, it, oldIt, comm, casStale, memory, choice)
    ensures var joined, s, key := JoinedFor(h, it, oldIt, comm, memory), Visible(h, now), At(h, it).key;
      && StoreArgs(s, key, At(h, it).entry, memory)
      && StoreOutcome(s, key, At(h, it).entry, comm, casStale, memory, h.lim, now) ==
         (Live(PutIf(s, key, EntryPut(h, it, oldIt, choice, joined), h.lim.useCas), now), Answer(choice),
          if choice == PutJoin(true) then Some(|joined.value|) else None,
          if Answer(choice) == STORED then Some(FreshCas(h)) else None)
  {
    MeetFacts(h, it, oldIt, memory);
    var e := EntryPut(h, it, oldIt, choice, JoinedFor(h, it, oldIt, comm, memory));
    StoredIsDone(h, it, oldIt, comm, casStale, memory, choice, now);
    ReportedPut(Visible(h, now), At(h, it).key, comm, e, h.lim.useCas, Answer(choice), now);
  }

  lemma JoinedForOk(h: Heap, it: CacheItem, oldIt: CacheItem, comm: Comm, memory: JoinMemory)
    requires HeapOk(h) && it in h.items && oldIt in h.items && At(h, it).key == At(h, oldIt).key
    requires |memory.raw| == |At(h, it).entry.value|
    ensures |At(h, it).entry.value| >= 2 && |At(h, oldIt).entry.value| >= 2
    ensures comm.Join? ==> EntryOk(At(h, it).key, JoinedFor(h, it, oldIt, comm, memory), h.lim)
  {
    assert ItemOk(h, it) && ItemOk(h, oldIt);
    if comm.Join? {
      var e, prev := At(h, it).entry, At(h, oldIt).entry;
      JoinedLength(comm.how, prev.value, ReadOf(e, memory.raw, JoinChunked(At(h, it).key, prev, e, h.lim)));
    }
  }

  /** The choice is what one step on the map does. */
  lemma StoredIsDone(h: Heap, it: CacheItem, oldIt: CacheItem, comm: Comm, casStale: bool, memory: JoinMemory,
                     choice: Choice, now: nat)
    requires HeapOk(h) && it in h.items && oldIt in h.items && At(h, it).key == At(h, oldIt).key
    requires At(h, oldIt).linked && !Dead(At(h, oldIt).entry, now) && |memory.raw| == |At(h, it).entry.value|
    requires |At(h, it).entry.value| >= 2 && |At(h, oldIt).entry.value| >= 2
    requires Chosen(h, it, oldIt, comm, casStale, memory, choice)
    ensures var s, key, e := Visible(h, now), At(h, it).key, At(h, it).entry;
      && key in s.m && s.m[key] == At(h, oldIt).entry && (choice.Keep? ==> choice.answer != STORED)
      && (choice.PutJoin? ==> comm.Join?) && (comm.Join? ==> !choice.PutRequest?)
      && StoreStep(s, key, e, comm, casStale, memory, h.lim) ==
           (PutIf(s, key, EntryPut(h, it, oldIt, choice, JoinedFor(h, it, oldIt, comm, memory)), h.lim.useCas),
             Answer(choice))
  {
    assert ItemOk(h, oldIt);
  }

  ghost predicate StoreArgs(s: Store, key: Key, e: Entry, memory: JoinMemory) {
    |e.value| >= 2 && |memory.raw| == |e.value| && (key in s.m ==> |s.m[key].value| >= 2)
  }

  /** What a storage command must come to: the store that is visible afterwards, the answer, after a join the size
      of the entry stored, and the cas id of the entry stored. */
  ghost function StoreOutcome(s: Store, key: Key, e: Entry, comm: Comm, casStale: bool, memory: JoinMemory,
                              lim: Limits, now: nat): (Store, Stored, Option<nat>, Option<nat>)
    requires StoreArgs(s, key, e, memory)
  {
    Reported(s, key, comm, StoreStep(s, key, e, comm, casStale, memory, lim), now)
  }

  /** What that means for the answer. */
  lemma OutcomeMeaning(s: Store, key: Key, e: Entry, comm: Comm, casStale: bool, memory: JoinMemory,
                       lim: Limits, now: nat)
    requires StoreArgs(s, key, e, memory)
    ensures var (s', stored, nbytes, cas) := StoreOutcome(s, key, e, comm, casStale, memory, lim, now);
      && (stored != STORED ==> s' == Live(s, now))
      && (stored == STORED ==> cas == Some(if lim.useCas then s.casId + 1 else 0))
      && stored == StoreStep(s, key, e, comm, casStale, memory, lim).1
      && (stored == STORED && comm.Join? && key in s.m ==>
            nbytes == Some(|s.m[key].value| + |e.value| - 2))
  {
  }

  ghost function Reported(s: Store, key: Key, comm: Comm, step: (Store, Stored), now: nat)
    : (Store, Stored, Option<nat>, Option<nat>)
  {
    var (s', r) := step;
    var isNew := r == STORED && key in s'.m;
    (Live(s', now), r, if isNew && comm.Join? && key in s.m then Some(|s'.m[key].value|) else None,
     if isNew then Some(s'.m[key].cas) else None)
  }

  lemma ReportedPut(s: Store, key: Key, comm: Comm, e: Option<Entry>, useCas: bool, answer: Stored, now: nat)
    requires key in s.m && (e.Some? <==> answer == STORED)
    ensures Reported(s, key, comm, (PutIf(s, key, e, useCas), answer), now) ==
            (Live(PutIf(s, key, e, useCas), now), answer,
             if e.Some? && comm.Join? then Some(|e.value.value|) else None,
             if e.Some? then Some(if useCas then s.casId + 1 else 0) else None)
  {
  }
}
