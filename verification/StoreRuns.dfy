/** Properties of whole runs of storage commands: what a cas token is good for, and what a counter
    counts. */
module StoreRuns {
  import opened Bytes
  import opened Options
  import opened Decimal
  import opened ChunkCopy
  import opened StoreSpec

  /** A command, or the loss of an entry through deletion, expiry or eviction. */
  datatype Op =
    | StoreOp(key: Key, e: Entry, comm: Comm, casStale: bool, joinMemory: JoinMemory)
    | DeltaOp(key: Key, incr: bool, delta: nat, reqCas: nat, sole: bool, memory: bool, tail: seq<byte>)
    | Forget(key: Key)

  /** What holds of every store that grew from an empty one: cas ids that were handed out, each to one
      entry only, and values that end in two bytes of CRLF. */
  ghost predicate StoreOk(s: Store) {
    && (forall k :: k in s.m ==> s.m[k].cas <= s.casId && |s.m[k].value| >= 2)
    && (forall k, l :: k in s.m && l in s.m && k != l && s.m[k].cas == s.m[l].cas ==> s.m[k].cas == 0)
  }

  /** The command is well formed in this state. */
  ghost predicate OpOk(s: Store, op: Op) {
    match op
    case StoreOp(_, e, _, _, joinMemory) => |e.value| >= 2 && |joinMemory.raw| == |e.value|
    case DeltaOp(_, _, delta, _, _, _, _) => delta < TWO64
    case Forget(key) => true
  }

  ghost function Step(s: Store, op: Op, lim: Limits): Store
    requires StoreOk(s) && OpOk(s, op)
  {
    match op
    case StoreOp(key, e, comm, casStale, memory) => StoreStep(s, key, e, comm, casStale, memory, lim).0
    case DeltaOp(key, incr, delta, reqCas, sole, memory, tail) =>
      DeltaStep(s, key, incr, delta, reqCas, sole, memory, tail, lim.useCas).0
    case Forget(key) => s.(m := s.m - {key})
  }

  /** The command is a cas with token t that was stored. */
  ghost predicate Wins(s: Store, op: Op, t: nat, lim: Limits)
    requires StoreOk(s) && OpOk(s, op)
  {
    op.StoreOp? && op.comm.Cas? && op.e.cas == t &&
    StoreStep(s, op.key, op.e, op.comm, op.casStale, op.joinMemory, lim).1 == STORED
  }

  lemma PutKeepsOk(s: Store, key: Key, e: Entry, lim: Limits)
    requires StoreOk(s) && |e.value| >= 2
    ensures StoreOk(Put(s, key, e, lim.useCas))
  {
  }

  /** Every command leaves the store alone, stores one entry, or forgets one. */
  lemma StepShape(s: Store, op: Op, lim: Limits) returns (e: Option<Entry>)
    requires StoreOk(s) && OpOk(s, op)
    ensures e.Some? ==> |e.value.value| >= 2
    ensures Step(s, op, lim) == match e
      case Some(entry) => Put(s, op.key, entry, lim.useCas)
      case None => if op.Forget? then s.(m := s.m - {op.key}) else s
  {
    e := None;
    if op.StoreOp? {
      e := StoreShape(s, op, lim);
    } else if op.DeltaOp? {
      var r := DeltaStep(s, op.key, op.incr, op.delta, op.reqCas, op.sole, op.memory, op.tail, lim.useCas).1;
      if r.OK? {
        var digits := Itoa(r.value);
        e := Some(DeltaEntry(s.m[op.key], digits, |digits| + 2 <= |s.m[op.key].value| && op.sole));
      }
    }
  }

  lemma StoreShape(s: Store, op: Op, lim: Limits) returns (e: Option<Entry>)
    requires StoreOk(s) && OpOk(s, op) && op.StoreOp?
    ensures e.Some? ==> |e.value.value| >= 2
    ensures Step(s, op, lim) == if e.Some? then Put(s, op.key, e.value, lim.useCas) else s
  {
    e := None;
    if StoreStep(s, op.key, op.e, op.comm, op.casStale, op.joinMemory, lim).1 == STORED {
      e := Some(op.e);
      if op.key in s.m {
        var prev := s.m[op.key];
        match Choose(op.key, prev, op.e, op.comm, op.casStale, op.joinMemory, lim)
        case PutRequest(true) => e := Some(StaleEntry(op.e, prev));
        case PutJoin(_) => e := Some(JoinedEntry(op.comm.how, op.key, prev, op.e, op.joinMemory.raw, lim));
        case _ =>
      }
    }
  }

  lemma StepKeepsOk(s: Store, op: Op, lim: Limits)
    requires StoreOk(s) && OpOk(s, op)
    ensures StoreOk(Step(s, op, lim)) && s.casId <= Step(s, op, lim).casId
  {
    var e := StepShape(s, op, lim);
    if e.Some? { PutKeepsOk(s, op.key, e.value, lim); }
  }

  /** Every command well formed along the run. */
  ghost predicate RunOk(s: Store, ops: seq<Op>, lim: Limits)
    decreases |ops|
  {
    StoreOk(s) &&
    (ops != [] ==> OpOk(s, ops[0]) && RunOk(Step(s, ops[0], lim), ops[1..], lim))
  }

  ghost function Run(s: Store, ops: seq<Op>, lim: Limits): (r: Store)
    requires RunOk(s, ops, lim)
    ensures StoreOk(r)
    decreases |ops|
  {
    if ops == [] then s else Run(Step(s, ops[0], lim), ops[1..], lim)
  }

  // ----- Cas tokens -----

  /** The command is a cas with token t that the store takes: the token matches or, in stale mode, is lower. */
  predicate Hits(s: Store, op: Op, t: nat) {
    op.StoreOp? && op.comm.Cas? && op.e.cas == t && t > 0 && op.key in s.m &&
    (t == s.m[op.key].cas || (op.casStale && t < s.m[op.key].cas))
  }

  /** In stale mode, a lower token. */
  predicate StaleHit(s: Store, op: Op, t: nat) {
    op.StoreOp? && op.comm.Cas? && op.e.cas == t && op.casStale && op.key in s.m && t < s.m[op.key].cas
  }

  lemma WinsIff(s: Store, op: Op, t: nat, lim: Limits)
    requires StoreOk(s) && OpOk(s, op)
    ensures Wins(s, op, t, lim) <==> Hits(s, op, t)
  {
  }

  /** Token t has been handed out, and no entry carries it any more. */
  ghost predicate Spent(s: Store, t: nat) {
    0 < t <= s.casId && forall k :: k in s.m ==> s.m[k].cas != t
  }

  /** A spent token stays spent; it wins exactly when it is taken as a stale one. */
  lemma SpentForGood(s: Store, op: Op, t: nat, lim: Limits)
    requires StoreOk(s) && OpOk(s, op) && Spent(s, t)
    ensures Spent(Step(s, op, lim), t)
    ensures Wins(s, op, t, lim) <==> StaleHit(s, op, t)
  {
    WinsIff(s, op, t, lim);
    var e := StepShape(s, op, lim);
  }

  /** A win by a match spends the token. */
  lemma WinningSpends(s: Store, op: Op, t: nat, lim: Limits)
    requires StoreOk(s) && OpOk(s, op) && Hits(s, op, t) && t == s.m[op.key].cas
    ensures Spent(Step(s, op, lim), t)
  {
    var e := StepShape(s, op, lim);
    PutSameOrSpent(s, op.key, op.e, op.key, lim);
  }

  ghost function CountWins(s: Store, ops: seq<Op>, t: nat, lim: Limits): nat
    requires RunOk(s, ops, lim)
    decreases |ops|
  {
    if ops == [] then 0
    else (if Wins(s, ops[0], t, lim) then 1 else 0) + CountWins(Step(s, ops[0], lim), ops[1..], t, lim)
  }

  /** Along the run, the token is never taken as a stale one. */
  ghost predicate NoStaleHit(s: Store, ops: seq<Op>, t: nat, lim: Limits)
    requires RunOk(s, ops, lim)
    decreases |ops|
  {
    ops != [] ==> !StaleHit(s, ops[0], t) && NoStaleHit(Step(s, ops[0], lim), ops[1..], t, lim)
  }

  /** Along the run, the token is never taken. */
  ghost predicate NoHit(s: Store, ops: seq<Op>, t: nat, lim: Limits)
    requires RunOk(s, ops, lim)
    decreases |ops|
  {
    ops != [] ==> !Hits(s, ops[0], t) && NoHit(Step(s, ops[0], lim), ops[1..], t, lim)
  }

  /** After the first command that takes the token, none does so again.  When the first one was a match, only
      stale mode could. */
  ghost predicate TakenOnce(s: Store, ops: seq<Op>, t: nat, lim: Limits)
    requires RunOk(s, ops, lim)
    decreases |ops|
  {
    ops != [] ==>
      var s', rest := Step(s, ops[0], lim), ops[1..];
      if !Hits(s, ops[0], t) then TakenOnce(s', rest, t, lim)
      else if t == s.m[ops[0].key].cas then NoStaleHit(s', rest, t, lim)
      else NoHit(s', rest, t, lim)
  }

  lemma {:induction false} SpentWinsIff(s: Store, ops: seq<Op>, t: nat, lim: Limits)
    requires RunOk(s, ops, lim) && Spent(s, t)
    ensures CountWins(s, ops, t, lim) == 0 <==> NoStaleHit(s, ops, t, lim)
    decreases |ops|
  {
    if ops != [] {
      SpentForGood(s, ops[0], t, lim);
      SpentWinsIff(Step(s, ops[0], lim), ops[1..], t, lim);
    }
  }

  lemma {:induction false} NeverWinsIff(s: Store, ops: seq<Op>, t: nat, lim: Limits)
    requires RunOk(s, ops, lim)
    ensures CountWins(s, ops, t, lim) == 0 <==> NoHit(s, ops, t, lim)
    decreases |ops|
  {
    if ops != [] {
      WinsIff(s, ops[0], t, lim);
      NeverWinsIff(Step(s, ops[0], lim), ops[1..], t, lim);
    }
  }

  /** A cas token wins at most once in a run exactly when no command takes it again after the first one: after a
      match, when none takes it as a stale token. */
  lemma {:induction false} TokenWinsOnceIff(s: Store, ops: seq<Op>, t: nat, lim: Limits)
    requires RunOk(s, ops, lim)
    ensures CountWins(s, ops, t, lim) <= 1 <==> TakenOnce(s, ops, t, lim)
    decreases |ops|
  {
    if ops != [] {
      var s', rest := Step(s, ops[0], lim), ops[1..];
      WinsIff(s, ops[0], t, lim);
      if !Hits(s, ops[0], t) {
        TokenWinsOnceIff(s', rest, t, lim);
      } else if t == s.m[ops[0].key].cas {
        WinningSpends(s, ops[0], t, lim);
        SpentWinsIff(s', rest, t, lim);
      } else {
        NeverWinsIff(s', rest, t, lim);
      }
    }
  }

  ghost predicate NoStaleMode(ops: seq<Op>) {
    forall i :: 0 <= i < |ops| && ops[i].StoreOp? ==> !ops[i].casStale
  }

  lemma {:induction false} NoStaleModeNoHit(s: Store, ops: seq<Op>, t: nat, lim: Limits)
    requires RunOk(s, ops, lim) && NoStaleMode(ops)
    ensures NoStaleHit(s, ops, t, lim)
    decreases |ops|
  {
    if ops != [] { NoStaleModeNoHit(Step(s, ops[0], lim), ops[1..], t, lim); }
  }

  /** So in any run without stale mode, a cas token wins at most once. */
  lemma {:induction false} TokenWinsOnce(s: Store, ops: seq<Op>, t: nat, lim: Limits)
    requires RunOk(s, ops, lim) && NoStaleMode(ops)
    ensures CountWins(s, ops, t, lim) <= 1
  {
    NoStaleModeTakenOnce(s, ops, t, lim);
    TokenWinsOnceIff(s, ops, t, lim);
  }

  lemma {:induction false} NoStaleModeTakenOnce(s: Store, ops: seq<Op>, t: nat, lim: Limits)
    requires RunOk(s, ops, lim) && NoStaleMode(ops)
    ensures TakenOnce(s, ops, t, lim)
    decreases |ops|
  {
    if ops != [] {
      var s', rest := Step(s, ops[0], lim), ops[1..];
      NoStaleModeNoHit(s', rest, t, lim);
      NoStaleModeTakenOnce(s', rest, t, lim);
    }
  }

  /** In stale mode a token can win twice. */
  lemma StaleTokenWinsTwice() returns (s: Store, ops: seq<Op>, lim: Limits)
    ensures RunOk(s, ops, lim) && CountWins(s, ops, 1, lim) == 2
  {
    lim := Limits(SIZEOF_ITEM, SLAB_CHUNK_SIZE_MAX, true);
    var e := Entry(CRLF, 0, 0, 1, false, false, false, false);
    s := Store(map[[] := e], 1);
    var op := StoreOp([], e, Cas, true, JoinMemory(false, false, CRLF));
    ops := [op, op];
    var s1 := Step(s, op, lim);
    StepKeepsOk(s, op, lim);
    assert s1.m[[]].cas == 2;
    StepKeepsOk(s1, op, lim);
    WinsIff(s, op, 1, lim);
    WinsIff(s1, op, 1, lim);
    RunOfTwo(s, op, 1, lim);
  }

  lemma RunOfTwo(s: Store, op: Op, t: nat, lim: Limits)
    requires StoreOk(s) && OpOk(s, op) && StoreOk(Step(s, op, lim)) && OpOk(Step(s, op, lim), op)
    requires StoreOk(Step(Step(s, op, lim), op, lim))
    requires Wins(s, op, t, lim) && Wins(Step(s, op, lim), op, t, lim)
    ensures RunOk(s, [op, op], lim) && CountWins(s, [op, op], t, lim) == 2
  {
    var s1 := Step(s, op, lim);
    var s2 := Step(s1, op, lim);
    assert [op, op][1..] == [op] && [op][1..] == [];
    assert RunOk(s2, [], lim) && CountWins(s2, [], t, lim) == 0;
    assert RunOk(s1, [op], lim) && CountWins(s1, [op], t, lim) == 1;
  }

  lemma PutSameOrSpent(s: Store, k: Key, e: Entry, key: Key, lim: Limits)
    requires StoreOk(s) && key in s.m && s.m[key].cas > 0
    ensures var s' := Put(s, k, e, lim.useCas);
      (key in s'.m && s'.m[key] == s.m[key]) || Spent(s', s.m[key].cas)
  {
  }

  lemma SameOrSpent(s: Store, op: Op, key: Key, lim: Limits)
    requires StoreOk(s) && OpOk(s, op) && key in s.m && s.m[key].cas > 0
    ensures var s' := Step(s, op, lim);
      (key in s'.m && s'.m[key] == s.m[key]) || Spent(s', s.m[key].cas)
  {
    var e := StepShape(s, op, lim);
    if e.Some? { PutSameOrSpent(s, op.key, e.value, key, lim); }
  }

  lemma {:induction false} SpentStaysSpent(s: Store, ops: seq<Op>, t: nat, lim: Limits)
    requires RunOk(s, ops, lim) && Spent(s, t)
    ensures Spent(Run(s, ops, lim), t)
    decreases |ops|
  {
    if ops != [] {
      SpentForGood(s, ops[0], t, lim);
      SpentStaysSpent(Step(s, ops[0], lim), ops[1..], t, lim);
    }
  }

  /** No lost update: when an entry carries the same cas id at both ends of a run, it is the same entry,
      at every point in between as well.  So a cas that matches replaces exactly what the client saw. */
  lemma {:induction false} SameCasSameEntry(s: Store, ops: seq<Op>, n: nat, key: Key, lim: Limits)
    requires RunOk(s, ops, lim) && n <= |ops|
    requires key in s.m && s.m[key].cas > 0
    requires var r := Run(s, ops, lim); key in r.m && r.m[key].cas == s.m[key].cas
    ensures RunOk(s, ops[..n], lim)
    ensures key in Run(s, ops[..n], lim).m && Run(s, ops[..n], lim).m[key] == s.m[key]
    decreases |ops|
  {
    if n > 0 {
      var s' := Step(s, ops[0], lim);
      SameOrSpent(s, ops[0], key, lim);
      if Spent(s', s.m[key].cas) {
        SpentStaysSpent(s', ops[1..], s.m[key].cas, lim);
      } else {
        SameCasSameEntry(s', ops[1..], n - 1, key, lim);
        assert ops[..n][1..] == ops[1..][..n - 1];
      }
    }
  }

  // ----- Counters -----

  ghost predicate AllDeltas(ops: seq<Op>) {
    forall i :: 0 <= i < |ops| ==> ops[i].DeltaOp? && ops[i].delta < TWO64
  }

  /** The number that one incr or decr makes of v. */
  ghost function Next(v: nat, op: Op): (w: nat)
    requires v < TWO64 && op.DeltaOp? && op.delta < TWO64
    ensures w < TWO64
  {
    var n := if op.incr then v + op.delta else v - op.delta;
    if n >= TWO64 then n - TWO64 else if n < 0 then 0 else n
  }

  /** The number after a series of incr and decr. */
  ghost function Total(v: nat, ops: seq<Op>): (w: nat)
    requires v < TWO64 && AllDeltas(ops)
    ensures w < TWO64
    decreases |ops|
  {
    if ops == [] then v else Total(Next(v, ops[0]), ops[1..])
  }

  /** All their numbers, added up. */
  ghost function Sum(ops: seq<Op>): nat
    requires AllDeltas(ops)
  {
    if ops == [] then 0 else ops[0].delta + Sum(ops[1..])
  }

  lemma WrapOnce(n: nat, m: nat)
    requires n >= TWO64
    ensures (n - TWO64 + m) % TWO64 == (n + m) % TWO64
  {
  }

  /** Increments add up, modulo 2^64. */
  lemma {:induction false} IncrementsAdd(v: nat, ops: seq<Op>)
    requires v < TWO64 && AllDeltas(ops) && forall i :: 0 <= i < |ops| ==> ops[i].incr
    ensures Total(v, ops) == (v + Sum(ops)) % TWO64
    decreases |ops|
  {
    if ops != [] {
      var n := v + ops[0].delta;
      IncrementsAdd(if n >= TWO64 then n - TWO64 else n, ops[1..]);
      if n >= TWO64 { WrapOnce(n, Sum(ops[1..])); }
    }
  }

  /** Decrements add up, down to 0. */
  lemma {:induction false} DecrementsTake(v: nat, ops: seq<Op>)
    requires v < TWO64 && AllDeltas(ops) && forall i :: 0 <= i < |ops| ==> !ops[i].incr
    ensures Total(v, ops) == if Sum(ops) <= v then v - Sum(ops) else 0
    decreases |ops|
  {
    if ops != [] {
      DecrementsTake(if ops[0].delta > v then 0 else v - ops[0].delta, ops[1..]);
    }
  }

  /** Every command of the run is an incr or decr of this key that succeeds. */
  ghost predicate AllCount(s: Store, ops: seq<Op>, key: Key, lim: Limits)
    requires RunOk(s, ops, lim)
    decreases |ops|
  {
    ops != [] ==>
      && ops[0].DeltaOp? && ops[0].key == key
      && DeltaStep(s, key, ops[0].incr, ops[0].delta, ops[0].reqCas, ops[0].sole, ops[0].memory, ops[0].tail,
                   lim.useCas).1.OK?
      && AllCount(Step(s, ops[0], lim), ops[1..], key, lim)
  }

  lemma {:induction false} AllCountDeltas(s: Store, ops: seq<Op>, key: Key, lim: Limits)
    requires RunOk(s, ops, lim) && AllCount(s, ops, key, lim)
    ensures AllDeltas(ops)
    decreases |ops|
  {
    if ops != [] {
      AllCountDeltas(Step(s, ops[0], lim), ops[1..], key, lim);
      forall i | 0 <= i < |ops| ensures ops[i].DeltaOp? && ops[i].delta < TWO64 {
        if i > 0 { assert ops[i] == ops[1..][i - 1]; }
      }
    }
  }

  lemma CountIsNext(v: nat, op: Op, w: nat)
    requires v < TWO64 && op.DeltaOp? && op.delta < TWO64
    requires op.incr && v + op.delta < TWO64 ==> w == v + op.delta
    requires op.incr && v + op.delta >= TWO64 ==> w == v + op.delta - TWO64
    requires !op.incr && op.delta <= v ==> w + op.delta == v
    requires !op.incr && op.delta > v ==> w == 0
    ensures w == Next(v, op)
  {
  }

  lemma CountStep(s: Store, op: Op, key: Key, lim: Limits, v: nat)
    requires StoreOk(s) && OpOk(s, op) && op.DeltaOp? && op.key == key && op.delta < TWO64
    requires DeltaStep(s, key, op.incr, op.delta, op.reqCas, op.sole, op.memory, op.tail, lim.useCas).1.OK?
    requires v < TWO64 && key in s.m && IsNumber(s.m[key].value, v)
    ensures key in Step(s, op, lim).m && IsNumber(Step(s, op, lim).m[key].value, Next(v, op))
  {
    var (s', r) := DeltaStep(s, key, op.incr, op.delta, op.reqCas, op.sole, op.memory, op.tail, lim.useCas);
    assert s' == Step(s, op, lim);
    DeltaCounts(s, key, op.incr, op.delta, op.reqCas, op.sole, op.memory, op.tail, lim.useCas, v);
    CountIsNext(v, op, r.value);
  }

  /** A stored counter counts: after any successful series of incr and decr, in place or by replacement in
      any mixture, the stored number is the total. */
  lemma {:induction false} CounterCounts(s: Store, ops: seq<Op>, key: Key, lim: Limits, v: nat)
    requires RunOk(s, ops, lim) && AllCount(s, ops, key, lim)
    requires v < TWO64 && key in s.m && IsNumber(s.m[key].value, v)
    ensures AllDeltas(ops) && key in Run(s, ops, lim).m
    ensures IsNumber(Run(s, ops, lim).m[key].value, Total(v, ops))
    decreases |ops|
  {
    AllCountDeltas(s, ops, key, lim);
    if ops != [] {
      CountStep(s, ops[0], key, lim, v);
      CounterCounts(Step(s, ops[0], lim), ops[1..], key, lim, Next(v, ops[0]));
    }
  }

  /** So a run of increments adds its numbers, modulo 2^64, and a run of decrements takes them away, down to 0. */
  lemma CounterAdds(s: Store, ops: seq<Op>, key: Key, lim: Limits, v: nat) returns (w: nat)
    requires RunOk(s, ops, lim) && AllCount(s, ops, key, lim)
    requires v < TWO64 && key in s.m && IsNumber(s.m[key].value, v)
    ensures AllDeltas(ops) && key in Run(s, ops, lim).m && IsNumber(Run(s, ops, lim).m[key].value, w)
    ensures (forall i :: 0 <= i < |ops| ==> ops[i].incr) ==> w == (v + Sum(ops)) % TWO64
    ensures (forall i :: 0 <= i < |ops| ==> !ops[i].incr) ==> w == if Sum(ops) <= v then v - Sum(ops) else 0
  {
    CounterCounts(s, ops, key, lim, v);
    w := Total(v, ops);
    if forall i :: 0 <= i < |ops| ==> ops[i].incr { IncrementsAdd(v, ops); }
    if forall i :: 0 <= i < |ops| ==> !ops[i].incr { DecrementsTake(v, ops); }
  }
}
