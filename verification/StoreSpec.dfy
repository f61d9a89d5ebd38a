/** What the storage commands mean: steps on a map from keys to entries. */
module StoreSpec {
  import opened Bytes
  import opened Options
  import opened Decimal
  import opened ChunkCopy

  type Key = seq<byte>

  const KEY_MAX_LENGTH: nat := 250

  /** An item as clients see it.  `hdr` marks a value that lives in external storage. */
  datatype Entry = Entry(value: seq<byte>, flags: nat, exptime: nat, cas: nat, stale: bool, tokenSent: bool,
                         chunked: bool, hdr: bool)

  /** The entries by key, and the cas id handed out last. */
  datatype Store = Store(m: map<Key, Entry>, casId: nat)

  /** Every item has room for a CRLF, and is stored in chunks exactly when it is large. */
  predicate EntryOk(key: Key, e: Entry, lim: Limits) {
    && |e.value| >= 2
    && (if e.hdr then !e.chunked else e.chunked == lim.Chunked(|key|, e.flags, |e.value|))
  }

  /** An item that holds a key and a 64-bit number is not large. */
  predicate Roomy(lim: Limits) {
    lim.header + KEY_MAX_LENGTH + 1 + 4 + 22 + 8 <= lim.chunkMax
  }

  datatype Comm = Add | Set | Replace | Cas | Join(how: Command)

  datatype Stored = STORED | NOT_STORED | EXISTS | NOT_FOUND

  datatype CasResult = CasNone | CasMatch | CasBadVal | CasStale

  /** What a join finds: whether there is memory for the item, and for all of its chunks, and what the bytes
      are that ITEM_data of the added item points at.  Those are its value only when it is flat. */
  datatype JoinMemory = JoinMemory(item: bool, chunks: bool, raw: seq<byte>)

  /** How the cas of a request compares with that of the entry it meets. */
  function CompareCas(reqCas: nat, oldCas: nat, casStale: bool): CasResult {
    if reqCas == 0 then CasNone
    else if reqCas == oldCas then CasMatch
    else if casStale && reqCas < oldCas then CasStale
    else CasBadVal
  }

  /** Every link draws a fresh cas id, if cas ids are in use. */
  function NextCas(s: Store, useCas: bool): nat {
    if useCas then s.casId + 1 else s.casId
  }

  function Put(s: Store, key: Key, e: Entry, useCas: bool): Store {
    Store(s.m[key := e.(cas := if useCas then s.casId + 1 else 0)], NextCas(s, useCas))
  }

  /** Whether the join of two entries is stored in chunks. */
  predicate JoinChunked(key: Key, prev: Entry, e: Entry, lim: Limits)
    requires |prev.value| + |e.value| >= 2
  {
    lim.Chunked(|key|, prev.flags, |prev.value| + |e.value| - 2)
  }

  /** What _store_item_copy_data reads of an entry. */
  function ReadOf(e: Entry, raw: seq<byte>, chunked: bool): seq<byte> {
    if e.chunked && !chunked then raw else e.value
  }

  /** The entry that append and prepend put in place of `prev`. */
  function JoinedEntry(how: Command, key: Key, prev: Entry, e: Entry, raw: seq<byte>, lim: Limits): Entry
    requires |prev.value| >= 2 && |e.value| >= 2 && |raw| == |e.value|
  {
    var chunked := JoinChunked(key, prev, e, lim);
    Entry(Joined(how, prev.value, ReadOf(e, raw, chunked)), prev.flags, prev.exptime, 0, false, false, chunked, false)
  }

  /** The previous value always goes into a join as it is, and so does the added value, unless it is in chunks
      and the join is not: that takes an added item with client flags, a previous one without, and a previous
      value of less than four bytes.  Then the join is right only if the memory happens to read like the
      value. */
  lemma JoinRightIff(how: Command, key: Key, prev: Entry, e: Entry, raw: seq<byte>, lim: Limits)
    requires EntryOk(key, prev, lim) && EntryOk(key, e, lim) && !prev.hdr && !e.hdr && |raw| == |e.value|
    ensures var j, n := JoinedEntry(how, key, prev, e, raw, lim), |e.value|;
      && EntryOk(key, j, lim) && (prev.chunked ==> j.chunked)
      && (j.value == Joined(how, prev.value, e.value) <==>
            !e.chunked || j.chunked ||
            (if how.Append? || how.AppendViv? then raw == e.value else raw[..n - 2] == e.value[..n - 2]))
      && (e.chunked && !j.chunked ==> e.flags != 0 && prev.flags == 0 && |prev.value| < 6)
  {
    var n, m := |e.value|, |prev.value|;
    if !JoinChunked(key, prev, e, lim) {
      FlatJoinReads(lim, |key|, prev.flags, m, e.flags, n);
    }
    if how.Append? || how.AppendViv? {
      SameTail(prev.value[..m - 2], raw, e.value);
    } else {
      SameHead(raw[..n - 2], e.value[..n - 2], prev.value);
    }
  }

  lemma SameTail(a: seq<byte>, b: seq<byte>, c: seq<byte>)
    ensures a + b == a + c <==> b == c
  {
    if a + b == a + c {
      assert b == (a + b)[|a|..] == c;
    }
  }

  lemma SameHead(a: seq<byte>, b: seq<byte>, c: seq<byte>)
    requires |a| == |b|
    ensures a + c == b + c <==> a == b
  {
    if a + c == b + c {
      assert a == (a + c)[..|a|] == b;
    }
  }

  /** The item holds the value of this entry. */
  ghost predicate Holds(it: Item, e: Entry)
    reads it, it.objs
  {
    it.Valid() && it.chunked == e.chunked && it.nbytes == |e.value| && it.Data() == e.value
  }

  /** What a join leaves to JoinMemory and JoinedEntry is what _store_item_copy_data does: it fails exactly when a
      chunk allocation fails, and otherwise fills the new item with the value of the joined entry, where `raw` is
      what ITEM_data of the added item points at. */
  method FillJoin(how: Command, key: Key, prev: Entry, e: Entry, lim: Limits,
                  oldIt: Item, newIt: Item, addIt: Item, m: ChunkMemory)
    returns (r: int, ghost memory: JoinMemory)
    requires EntryOk(key, prev, lim) && EntryOk(key, e, lim) && !prev.hdr && !e.hdr
    requires Holds(oldIt, prev) && Holds(addIt, e) && m.max > 0
    requires newIt.Valid() && newIt.Packed() && newIt.nbytes == |prev.value| + |e.value| - 2
    requires newIt.chunked == JoinChunked(key, prev, e, lim) && (newIt.chunked ==> newIt.Data() == [])
    requires newIt != oldIt && newIt != addIt && newIt.objs !! oldIt.objs && newIt.objs !! addIt.objs
    modifies newIt`chain, newIt`content, newIt`objs, newIt`bytes, newIt`flat
    modifies newIt.objs`data, newIt.objs`used, newIt.objs`next, m`pulls, m`fails
    ensures newIt.Valid() && memory == JoinMemory(true, m.fails == old(m.fails), old(addIt.flat))
    ensures |memory.raw| == |e.value|
    ensures r == if memory.chunks || !newIt.chunked then 0 else -1
    ensures r == 0 ==> newIt.Data() == JoinedEntry(how, key, prev, e, memory.raw, lim).value
  {
    if !newIt.chunked {
      FlatJoinReads(lim, |key|, prev.flags, |prev.value|, e.flags, |e.value|);
    }
    ghost var raw := addIt.flat;
    r := StoreItemCopyData(how, oldIt, newIt, addIt, m);
    memory := JoinMemory(true, m.fails == old(m.fails), raw);
  }

  function StaleEntry(e: Entry, prev: Entry): Entry {
    e.(exptime := prev.exptime, stale := true, tokenSent := e.tokenSent || prev.tokenSent)
  }

  predicate Viv(comm: Comm) {
    comm.Join? && (comm.how.AppendViv? || comm.how.PrependViv?)
  }

  /** What a storage command does about the entry it meets: nothing, with this answer; the entry of the request
      takes its place, marked stale or not; or their join does, if there are chunks for it. */
  datatype Choice = Keep(answer: Stored) | PutRequest(stale: bool) | PutJoin(enough: bool)

  function Choose(key: Key, prev: Entry, e: Entry, comm: Comm, casStale: bool, memory: JoinMemory, lim: Limits): Choice
    requires |prev.value| + |e.value| >= 2
  {
    var c := CompareCas(e.cas, prev.cas, casStale);
    match comm
    case Add => Keep(NOT_STORED)
    case Cas => if c.CasMatch? then PutRequest(false) else if c.CasStale? then PutRequest(true) else Keep(EXISTS)
    case Join(_) =>
      if !c.CasNone? && !c.CasMatch? then Keep(EXISTS)
      else if prev.hdr || !memory.item then Keep(NOT_STORED)
      else PutJoin(memory.chunks || !JoinChunked(key, prev, e, lim))
    case Replace => PutRequest(false)
    case Set => PutRequest(false)
  }

  /** One storage command.  `e` is the item of the request, its cas being the token of the request. */
  function StoreStep(s: Store, key: Key, e: Entry, comm: Comm, casStale: bool, memory: JoinMemory, lim: Limits)
    : (r: (Store, Stored))
    requires |e.value| >= 2 && |memory.raw| == |e.value| && (key in s.m ==> |s.m[key].value| >= 2)
  {
    if key in s.m then
      var prev := s.m[key];
      match Choose(key, prev, e, comm, casStale, memory, lim)
      case Keep(answer) => (s, answer)
      case PutRequest(stale) => (Put(s, key, if stale then StaleEntry(e, prev) else e, lim.useCas), STORED)
      case PutJoin(enough) =>
        if !enough || !comm.Join? then (s, NOT_STORED)
        else (Put(s, key, JoinedEntry(comm.how, key, prev, e, memory.raw, lim), lim.useCas), STORED)
    else if comm.Add? || comm.Set? || Viv(comm) then (Put(s, key, e, lim.useCas), STORED)
    else (s, if comm.Cas? then NOT_FOUND else NOT_STORED)
  }

  /** The answer of every command, and what it does to the map as a whole.  A key that is absent is created by add,
      set, and the VIV forms of the joins.  One that is present is replaced by set and replace; by cas exactly on
      the token of its entry or, in stale mode, a lower one; and by the joins on its token or on none, when there is
      memory for the new item, and for its chunks if it is too large for one.  A command that does not store
      changes nothing; storing touches no other key, and draws a new cas id. */
  lemma StoreStepMeaning(s: Store, key: Key, e: Entry, comm: Comm, casStale: bool, memory: JoinMemory, lim: Limits)
    requires |e.value| >= 2 && |memory.raw| == |e.value| && (key in s.m ==> |s.m[key].value| >= 2)
    ensures var (s', r) := StoreStep(s, key, e, comm, casStale, memory, lim);
      && (r != STORED ==> s' == s)
      && (r == STORED ==> s'.m.Keys == s.m.Keys + {key} && forall k :: k in s.m && k != key ==> s'.m[k] == s.m[k])
      && (r == STORED ==> s'.casId == s.casId + if lim.useCas then 1 else 0)
      && (r == STORED ==> s'.m[key].cas == if lim.useCas then s'.casId else 0)
      && (key !in s.m ==>
            && (r == STORED <==> comm in {Add, Set, Join(AppendViv), Join(PrependViv)})
            && (r == NOT_FOUND <==> comm == Cas) && r != EXISTS)
      && (key in s.m ==>
            var prev := s.m[key];
            && r != NOT_FOUND && (comm in {Set, Replace} ==> r == STORED) && (comm == Add ==> r == NOT_STORED)
            && (comm == Cas ==> (r == STORED <==> e.cas != 0 && (e.cas == prev.cas || (casStale && e.cas < prev.cas))))
            && (comm == Cas ==> (r == EXISTS <==> r != STORED))
            && (comm.Join? ==> (r == EXISTS <==> e.cas != 0 && e.cas != prev.cas))
            && (comm.Join? ==> (r == STORED <==>
                  && (e.cas == 0 || e.cas == prev.cas) && !prev.hdr && memory.item
                  && (memory.chunks || lim.header + |key| + 1 + (if prev.flags == 0 then 0 else 4) + |prev.value| +
                      |e.value| - 2 + (if lim.useCas then 8 else 0) <= lim.chunkMax))))
  {
  }

  /** What is stored.  A join keeps flags and expiry of the entry that was there, and has its value and the added one
      with a single CRLF in the end; every other command stores the entry of the request, except that a stale cas
      keeps the expiry that was there, marks the entry, and remembers that its token was sent. */
  lemma StoreStepContents(s: Store, key: Key, e: Entry, comm: Comm, casStale: bool, memory: JoinMemory, lim: Limits)
    requires |e.value| >= 2 && |memory.raw| == |e.value| && (key in s.m ==> |s.m[key].value| >= 2)
    requires StoreStep(s, key, e, comm, casStale, memory, lim).1 == STORED
    ensures var n := StoreStep(s, key, e, comm, casStale, memory, lim).0.m[key];
      if key in s.m && comm.Join? then
        var prev := s.m[key];
        var added := if e.chunked && !n.chunked then memory.raw else e.value;
        var m := |prev.value| - 2;
        && n.flags == prev.flags && n.exptime == prev.exptime && !n.stale && !n.tokenSent && !n.hdr
        && |n.value| == m + |e.value|
        && (comm.how in {Append, AppendViv} ==> n.value[..m] == prev.value[..m] && n.value[m..] == added)
        && (comm.how in {Prepend, PrependViv} ==>
              n.value[..|e.value| - 2] == added[..|e.value| - 2] && n.value[|e.value| - 2..] == prev.value)
      else
        var late := key in s.m && comm == Cas && e.cas != s.m[key].cas;
        && n.value == e.value && n.flags == e.flags && n.chunked == e.chunked && n.hdr == e.hdr
        && n.exptime == (if late then s.m[key].exptime else e.exptime)
        && n.stale == (e.stale || late) && n.tokenSent == (e.tokenSent || (late && s.m[key].tokenSent))
  {
  }

  // ----- incr and decr -----

  datatype DeltaResult = OK(value: nat) | NON_NUMERIC | EOM | DELTA_ITEM_NOT_FOUND | DELTA_ITEM_CAS_MISMATCH

  /** The 64-bit counter: it wraps around when incremented, and stops at 0 when decremented. */
  function Count(incr: bool, v: nat, delta: nat): (w: nat)
    requires v < TWO64 && delta < TWO64
    ensures w < TWO64
  {
    if incr then
      var sum := v + delta;
      if sum >= TWO64 then sum - TWO64 else sum
    else if delta > v then 0
    else v - delta
  }

  function Spaces(n: nat): (s: seq<byte>)
    ensures |s| == n && forall i :: 0 <= i < n ==> s[i] == SPACE
  {
    seq(n, _ => SPACE)
  }

  /** The value after its leading bytes have been overwritten by digits and spaces; the last two bytes
      stay. */
  function InPlace(value: seq<byte>, digits: seq<byte>): seq<byte>
    requires |digits| + 2 <= |value|
  {
    digits + Spaces(|value| - |digits| - 2) + value[|value| - 2..]
  }

  /** The number replaces the one before in its own item, padded, or in a new item. */
  function DeltaEntry(prev: Entry, digits: seq<byte>, inPlace: bool): Entry
    requires inPlace ==> |digits| + 2 <= |prev.value|
  {
    if inPlace then prev.(value := InPlace(prev.value, digits))
    else Entry(digits + CRLF, prev.flags, prev.exptime, 0, false, false, false, false)
  }

  /** What do_add_delta makes of the item it finds: the number in it, or why there is none.  reqCas is 0
      when the client sent none; `tail` is the memory behind the item, which ends the string if the value has
      no NUL. */
  function DeltaRead(prev: Entry, reqCas: nat, tail: seq<byte>): (r: DeltaResult)
    ensures r.OK? ==> r.value < TWO64
  {
    if |prev.value| <= 2 || prev.chunked || prev.hdr then NON_NUMERIC
    else if reqCas != 0 && prev.cas != reqCas then DELTA_ITEM_CAS_MISMATCH
    else
      var parsed := StrToULL(CString(prev.value + tail));
      if parsed.None? then NON_NUMERIC else OK(parsed.value)
  }

  /** One incr or decr.  `sole`: nobody else has a reference to the item; `memory`: there is room for a
      new one. */
  function DeltaStep(s: Store, key: Key, incr: bool, delta: nat, reqCas: nat, sole: bool, memory: bool,
                     tail: seq<byte>, useCas: bool): (r: (Store, DeltaResult))
    requires delta < TWO64
  {
    if key !in s.m then (s, DELTA_ITEM_NOT_FOUND)
    else
      var prev := s.m[key];
      var read := DeltaRead(prev, reqCas, tail);
      if !read.OK? then (s, read)
      else
        var w := Count(incr, read.value, delta);
        var inPlace := |Itoa(w)| + 2 <= |prev.value| && sole;
        if !inPlace && !memory then (s, EOM)
        else (Put(s, key, DeltaEntry(prev, Itoa(w), inPlace), useCas), OK(w))
  }

  /** The answer of every incr and decr, and what it does.  It fails for a key that is not there; for a value that
      is empty, in chunks, in external storage, or no number; for another token; and for want of memory when the
      number cannot be written into the item.  Otherwise it counts; what is left of the item's bytes is blank, a new
      item has flags and expiry of the old one, and the cas id is a new one. */
  lemma DeltaStepMeaning(s: Store, key: Key, incr: bool, delta: nat, reqCas: nat, sole: bool, memory: bool,
                         tail: seq<byte>, useCas: bool)
    requires delta < TWO64
    ensures var (s', r) := DeltaStep(s, key, incr, delta, reqCas, sole, memory, tail, useCas);
      && (r == DELTA_ITEM_NOT_FOUND <==> key !in s.m) && (!r.OK? ==> s' == s)
      && (key in s.m ==>
            var prev := s.m[key];
            var parsed := StrToULL(CString(prev.value + tail));
            var countable := |prev.value| > 2 && !prev.chunked && !prev.hdr;
            var fits := reqCas == 0 || reqCas == prev.cas;
            && (r == DELTA_ITEM_CAS_MISMATCH <==> countable && !fits)
            && (r == NON_NUMERIC <==> !countable || (fits && parsed.None?))
            && (countable && fits && parsed.Some? ==>
                  var v := parsed.value;
                  && (r.OK? || r.EOM?)
                  && (r.OK? <==> memory || (sole && |Itoa(Count(incr, v, delta))| + 2 <= |prev.value|))
                  && (r.OK? && incr && v + delta < TWO64 ==> r.value == v + delta)
                  && (r.OK? && incr && v + delta >= TWO64 ==> r.value == v + delta - TWO64)
                  && (r.OK? && !incr && delta <= v ==> r.value + delta == v)
                  && (r.OK? && !incr && delta > v ==> r.value == 0)))
  {
  }

  /** What is stored.  When the number fits, and nobody else has the item, it is written over the bytes there, blanks
      fill up what is left before the last two, and nothing else changes but the cas id.  Otherwise there is a new
      item with the number and CRLF, and with flags and expiry of the old one. */
  lemma DeltaStepContents(s: Store, key: Key, incr: bool, delta: nat, reqCas: nat, sole: bool, memory: bool,
                          tail: seq<byte>, useCas: bool)
    requires delta < TWO64 && DeltaStep(s, key, incr, delta, reqCas, sole, memory, tail, useCas).1.OK?
    ensures key in s.m
    ensures var (s', r) := DeltaStep(s, key, incr, delta, reqCas, sole, memory, tail, useCas);
      && s'.m.Keys == s.m.Keys && (forall k :: k in s.m && k != key ==> s'.m[k] == s.m[k])
      && s'.casId == s.casId + (if useCas then 1 else 0)
      && var prev, n, d := s.m[key], s'.m[key], Itoa(r.value);
      && n.cas == (if useCas then s'.casId else 0) && n.flags == prev.flags && n.exptime == prev.exptime
      && if sole && |d| + 2 <= |prev.value| then
           var m := |prev.value|;
           && n == prev.(value := n.value, cas := n.cas) && |n.value| == m
           && n.value[..|d|] == d && (forall i :: |d| <= i < m - 2 ==> n.value[i] == SPACE)
           && n.value[m - 2..] == prev.value[m - 2..]
         else
           n.value == d + [CR, LF] && !n.stale && !n.tokenSent && !n.chunked && !n.hdr
  {
  }

  /** An item for a number is flat. */
  lemma DeltaEntryOk(key: Key, prev: Entry, v: nat, inPlace: bool, lim: Limits)
    requires v < TWO64 && |key| <= KEY_MAX_LENGTH && Roomy(lim) && EntryOk(key, prev, lim)
    requires inPlace ==> |Itoa(v)| + 2 <= |prev.value|
    ensures EntryOk(key, DeltaEntry(prev, Itoa(v), inPlace), lim)
  {
    ItoaFits(v);
  }

  /** A value as incr and decr leave it: digits, spaces, CRLF. */
  ghost predicate IsNumber(value: seq<byte>, v: nat) {
    exists n: nat :: value == Itoa(v) + Spaces(n) + CRLF
  }

  /** A stored number reads back, except that from 2^63 on a minus sign in the memory behind the item, before
      the next NUL, makes it unreadable. */
  lemma NumberReadsBack(value: seq<byte>, v: nat, tail: seq<byte>)
    requires v < TWO64 && IsNumber(value, v)
    ensures StrToULL(CString(value + tail)) == if v >= TWO63 && MINUS in CString(tail) then None else Some(v)
  {
    var n: nat :| value == Itoa(v) + Spaces(n) + CRLF;
    NumberNoNul(v, n);
    CStringConcat(value, tail);
    PaddedReadsBack(v, n, CString(tail));
  }

  lemma NumberNoNul(v: nat, n: nat)
    ensures NoNul(Itoa(v) + Spaces(n) + CRLF)
  {
    assert AllDigits(Itoa(v));
  }

  lemma PaddedReadsBack(v: nat, n: nat, tail: seq<byte>)
    requires v < TWO64
    ensures StrToULL(Itoa(v) + Spaces(n) + CRLF + tail) == if v >= TWO63 && MINUS in tail then None else Some(v)
  {
    var rest := Spaces(n) + CRLF + tail;
    assert Itoa(v) + Spaces(n) + CRLF + tail == Itoa(v) + rest;
    assert rest[0] == if n > 0 then SPACE else CR;
    ReadBack(v, rest);
    MinusBehind(n, tail);
  }

  lemma MinusBehind(n: nat, tail: seq<byte>)
    ensures MINUS in Spaces(n) + CRLF + tail <==> MINUS in tail
  {
    if MINUS in tail {
      var k :| 0 <= k < |tail| && tail[k] == MINUS;
      assert (Spaces(n) + CRLF + tail)[n + 2 + k] == MINUS;
    }
  }

  /** Whichever way the new number is stored, what is stored is that number. */
  lemma DeltaStoresNumber(s: Store, key: Key, incr: bool, delta: nat, reqCas: nat, sole: bool, memory: bool,
                          tail: seq<byte>, useCas: bool)
    requires delta < TWO64 && key in s.m
    requires |s.m[key].value| >= 2 && s.m[key].value[|s.m[key].value| - 2..] == CRLF
    ensures var (s', r) := DeltaStep(s, key, incr, delta, reqCas, sole, memory, tail, useCas);
      && (r.OK? ==> key in s'.m && IsNumber(s'.m[key].value, r.value))
      && (r.OK? && !memory ==> |s'.m[key].value| == |s.m[key].value|)
      && (!r.OK? ==> s' == s)
  {
    var (s', r) := DeltaStep(s, key, incr, delta, reqCas, sole, memory, tail, useCas);
    if r.OK? {
      var prev, d := s.m[key].value, Itoa(r.value);
      if |d| + 2 <= |prev| && sole {
        assert s'.m[key].value == d + Spaces(|prev| - |d| - 2) + CRLF;
      } else {
        assert s'.m[key].value == d + Spaces(0) + CRLF;
      }
    }
  }

  /** One incr or decr of a stored counter v: it succeeds and counts exactly when the number is readable
      (see NumberReadsBack), the cas fits and the new number has room; the path taken does not matter. */
  lemma DeltaCounts(s: Store, key: Key, incr: bool, delta: nat, reqCas: nat, sole: bool, memory: bool,
                    tail: seq<byte>, useCas: bool, v: nat)
    requires delta < TWO64 && v < TWO64 && key in s.m && IsNumber(s.m[key].value, v)
    requires !s.m[key].chunked && !s.m[key].hdr
    ensures var (s', r) := DeltaStep(s, key, incr, delta, reqCas, sole, memory, tail, useCas);
      && (r.OK? <==> (
            && (reqCas == 0 || reqCas == s.m[key].cas)
            && !(v >= TWO63 && MINUS in CString(tail))
            && (memory || (sole && |Itoa(Count(incr, v, delta))| + 2 <= |s.m[key].value|))))
      && (r.OK? ==> key in s'.m && IsNumber(s'.m[key].value, r.value))
      && (r.OK? && incr && v + delta < TWO64 ==> r.value == v + delta)
      && (r.OK? && incr && v + delta >= TWO64 ==> r.value == v + delta - TWO64)
      && (r.OK? && !incr && delta <= v ==> r.value + delta == v)
      && (r.OK? && !incr && delta > v ==> r.value == 0)
      && (!r.OK? ==> s' == s)
  {
    NumberReadsBack(s.m[key].value, v, tail);
    var n: nat :| s.m[key].value == Itoa(v) + Spaces(n) + CRLF;
    var value := s.m[key].value;
    assert value[|value| - 2..] == CRLF;
    DeltaStoresNumber(s, key, incr, delta, reqCas, sole, memory, tail, useCas);
  }
}
