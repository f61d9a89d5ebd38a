/** The handshake between the packet loop, which posts one packet at a time, and the worker thread.  All
    interleavings of their atomic steps, with the lock (memcached) and without it (macswap). */
module Handshake {

  /** Where the poster is: about to take the lock, to write each pointer, to set the flag, to release the
      lock, spinning on the flag, and reading the result. */
  datatype PosterPc = Taking | WritingRx | WritingTx | Setting | Releasing | Waiting | Reading

  /** Where the worker is: spinning on the flag, about to take the lock, to read each pointer, to process the
      packet, to store the result, to release the lock. */
  datatype WorkerPc = Polling | Locking | ReadingRx | ReadingTx | Processing | Storing | Unlocking

  datatype Holder = Free | Poster | Worker

  datatype Thread = P | W

  /** A pointer is known by the number of the post that it was written for, a result by the number of the
      pass that it was computed in; both count from 1.  `passes` records the pair each pass ran on, `got`
      the results the poster read. */
  datatype Shared = Shared(
    locked: bool, ready: bool, lock: Holder, poster: PosterPc, worker: WorkerPc,
    rx: nat, tx: nat, rsp: nat, workerRx: nat, workerTx: nat,
    posts: nat, claims: nat, passes: seq<(nat, nat)>, got: seq<nat>)

  function Init(locked: bool): Shared {
    Shared(locked, false, Free, Taking, Polling, 0, 0, 0, 0, 0, 0, 0, [], [])
  }

  function PosterStep(s: Shared): Shared {
    match s.poster
    case Taking =>
      if !s.locked then s.(poster := WritingRx)
      else if s.lock == Free then s.(lock := Poster, poster := WritingRx) else s
    case WritingRx => s.(rx := s.posts + 1, poster := WritingTx)
    case WritingTx => s.(tx := s.posts + 1, poster := Setting)
    case Setting => s.(ready := true, posts := s.posts + 1, poster := Releasing)
    case Releasing => s.(lock := if s.locked then Free else s.lock, poster := Waiting)
    case Waiting => if s.ready then s else s.(poster := Reading)
    case Reading => s.(got := s.got + [s.rsp], poster := Taking)
  }

  function WorkerStep(s: Shared): Shared {
    match s.worker
    case Polling => if s.ready then s.(ready := false, claims := s.claims + 1, worker := Locking) else s
    case Locking =>
      if !s.locked then s.(worker := ReadingRx)
      else if s.lock == Free then s.(lock := Worker, worker := ReadingRx) else s
    case ReadingRx => s.(workerRx := s.rx, worker := ReadingTx)
    case ReadingTx => s.(workerTx := s.tx, worker := Processing)
    case Processing => s.(passes := s.passes + [(s.workerRx, s.workerTx)], worker := Storing)
    case Storing => s.(rsp := s.claims, worker := Unlocking)
    case Unlocking => s.(lock := if s.locked then Free else s.lock, worker := Polling)
  }

  function Step(s: Shared, t: Thread): Shared {
    if t == P then PosterStep(s) else WorkerStep(s)
  }

  /** A schedule says whose step comes next. */
  function Run(s: Shared, schedule: seq<Thread>): Shared
    decreases |schedule|
  {
    if schedule == [] then s else Run(Step(s, schedule[0]), schedule[1..])
  }

  // ----- The invariant -----

  ghost predicate LockOk(s: Shared) {
    if s.locked then
      && (s.lock == Poster <==> s.poster in {WritingRx, WritingTx, Setting, Releasing})
      && (s.lock == Worker <==> s.worker in {ReadingRx, ReadingTx, Processing, Storing, Unlocking})
    else s.lock == Free
  }

  /** Posts and claims alternate: a post is set up only when all before it have been claimed. */
  ghost predicate CountOk(s: Shared) {
    && s.posts == s.claims + (if s.ready then 1 else 0)
    && (s.poster in {Taking, WritingRx, WritingTx, Setting, Reading} ==> !s.ready)
    && (s.worker != Polling ==> s.claims > 0)
    && s.rx == s.posts + (if s.poster in {WritingTx, Setting} then 1 else 0)
    && s.tx == s.posts + (if s.poster == Setting then 1 else 0)
  }

  /** Post k or post k + 1. */
  predicate Near(post: nat, k: nat) {
    post == k || post == k + 1
  }

  ghost predicate LocalsOk(s: Shared) {
    && (s.worker in {ReadingTx, Processing} ==> Near(s.workerRx, s.claims))
    && (s.worker == Processing ==> Near(s.workerTx, s.claims))
    && (s.locked && s.worker == ReadingTx ==> s.workerRx == s.rx)
    && (s.locked && s.worker == Processing ==> s.workerRx == s.workerTx)
  }

  /** Passes count from 0 in the record. */
  ghost predicate PassOk(locked: bool, pass: (nat, nat), k: nat) {
    Near(pass.0, k + 1) && Near(pass.1, k + 1) && (locked ==> pass.0 == pass.1)
  }

  ghost predicate HistoryOk(s: Shared) {
    && s.claims == |s.passes| + (if s.worker in {Locking, ReadingRx, ReadingTx, Processing} then 1 else 0)
    && s.claims == s.rsp + (if s.worker in {Polling, Unlocking} then 0 else 1)
    && s.posts == |s.got| + (if s.poster in {Releasing, Waiting, Reading} then 1 else 0)
    && (forall k :: 0 <= k < |s.passes| ==> PassOk(s.locked, s.passes[k], k))
    && (forall n :: 0 <= n < |s.got| ==> Near(s.got[n], n))
  }

  ghost predicate Inv(s: Shared) {
    LockOk(s) && CountOk(s) && LocalsOk(s) && HistoryOk(s)
  }

  lemma PosterKeepsLocals(s: Shared)
    requires LockOk(s) && CountOk(s) && LocalsOk(s)
    ensures var s' := PosterStep(s); LockOk(s') && CountOk(s') && LocalsOk(s')
  {
  }

  lemma WorkerKeepsLock(s: Shared)
    requires LockOk(s) && CountOk(s)
    ensures var s' := WorkerStep(s); LockOk(s') && CountOk(s')
  {
  }

  lemma WorkerKeepsLocals(s: Shared)
    requires LockOk(s) && CountOk(s) && LocalsOk(s)
    ensures LocalsOk(WorkerStep(s))
  {
  }

  lemma PosterKeepsHistory(s: Shared)
    requires Inv(s)
    ensures HistoryOk(PosterStep(s))
  {
  }

  lemma WorkerKeepsHistory(s: Shared)
    requires Inv(s)
    ensures HistoryOk(WorkerStep(s))
  {
    if s.worker == Processing {
      assert PassOk(s.locked, (s.workerRx, s.workerTx), |s.passes|);
    }
  }

  lemma StepKeepsInv(s: Shared, t: Thread)
    requires Inv(s)
    ensures Inv(Step(s, t))
  {
    if t == P {
      PosterKeepsLocals(s);
      PosterKeepsHistory(s);
    } else {
      WorkerKeepsLock(s);
      WorkerKeepsLocals(s);
      WorkerKeepsHistory(s);
    }
  }

  /** Whatever the interleaving: posts minus claims is the flag; pointers are only written when every post
      has been claimed; pass k runs on pointers of post k or post k + 1, and with the lock on a pair of one
      post; the result that the poster reads for post n comes from pass n or the one before it. */
  lemma {:induction false} EveryRun(s: Shared, schedule: seq<Thread>)
    requires Inv(s)
    ensures Inv(Run(s, schedule)) && Run(s, schedule).locked == s.locked
    decreases |schedule|
  {
    if schedule != [] {
      StepKeepsInv(s, schedule[0]);
      EveryRun(Step(s, schedule[0]), schedule[1..]);
    }
  }

  /** The same, said of runs from the start. */
  lemma EveryRunFromStart(locked: bool, schedule: seq<Thread>)
    ensures var s := Run(Init(locked), schedule);
      && s.posts - s.claims == (if s.ready then 1 else 0)
      && (s.poster in {WritingRx, WritingTx} ==> s.claims == s.posts)
      && (forall k {:trigger s.passes[k]} :: 0 <= k < |s.passes| ==>
            && s.passes[k].0 in {k + 1, k + 2} && s.passes[k].1 in {k + 1, k + 2}
            && (locked ==> s.passes[k].0 == s.passes[k].1))
      && (forall n :: 0 <= n < |s.got| ==> s.got[n] in {n, n + 1})
  {
    EveryRun(Init(locked), schedule);
    var s := Run(Init(locked), schedule);
    forall k | 0 <= k < |s.passes| ensures PassOk(s.locked, s.passes[k], k) { }
  }

  /** One of the threads can always go on. */
  lemma NoDeadlock(s: Shared)
    requires Inv(s)
    ensures PosterStep(s) != s || WorkerStep(s) != s
  {
    if s.poster == Waiting && s.ready {
      assert PosterStep(s) == s;
      if s.worker == Polling {
        assert WorkerStep(s).claims != s.claims;
      } else {
        assert WorkerStep(s).worker != s.worker;
      }
    } else if s.poster == Taking && s.locked && s.lock != Free {
      assert WorkerStep(s).worker != s.worker;
    } else {
      assert PosterStep(s).poster != s.poster;
    }
  }

  // ----- When the packets are processed one for one -----

  /** With the lock, a pass runs on its own post exactly when the flag is still clear as it reads the
      pointers. */
  lemma OwnPostIff(s: Shared)
    requires Inv(s) && s.locked && s.worker == ReadingRx
    ensures var pair := Run(s, [W, W]); pair.workerRx == pair.workerTx
    ensures Run(s, [W, W]).workerRx == s.claims <==> !s.ready
  {
    assert [W, W][1..] == [W];
    assert Run(Step(Step(s, W), W), []) == Step(Step(s, W), W);
    assert [W][1..] == [];
    assert Run(Step(s, W), [W]) == Step(Step(s, W), W);
  }

  /** The poster reads the result of the pass for its post exactly when that pass has stored it. */
  lemma OwnResultIff(s: Shared)
    requires Inv(s) && s.poster == Reading
    ensures var s' := PosterStep(s); s'.got == s.got + [s.rsp] && |s'.got| == s.posts
    ensures s.rsp == s.posts <==> s.worker in {Polling, Unlocking}
  {
  }

  /** Every pass so far ran on its own post, and so will the one that has read its pointers. */
  ghost predicate OwnPasses(s: Shared) {
    && (forall k {:trigger s.passes[k]} :: 0 <= k < |s.passes| ==> s.passes[k] == (k + 1, k + 1))
    && (s.worker in {ReadingTx, Processing} ==> s.workerRx == s.claims)
    && (s.worker == Processing ==> s.workerTx == s.claims)
  }

  /** Every result that was read so far was that of the poster's own post. */
  ghost predicate OwnResults(s: Shared) {
    forall n {:trigger s.got[n]} :: 0 <= n < |s.got| ==> s.got[n] == n + 1
  }

  /** The first pointer of the post after the one that was claimed has been written. */
  predicate NextBegun(s: Shared) { s.ready || s.poster in {WritingTx, Setting} }

  /** So have both. */
  predicate NextWritten(s: Shared) { s.ready || s.poster == Setting }

  /** The step does not read a pointer that the next post has overwritten. */
  predicate ReadsOwnPost(s: Shared, t: Thread) {
    t == W ==> (s.worker == ReadingRx ==> !NextBegun(s)) && (s.worker == ReadingTx ==> !NextWritten(s))
  }

  /** The step does not read a result before it is there. */
  predicate ReadsOwnResult(s: Shared, t: Thread) {
    t == P && s.poster == Reading ==> s.worker in {Polling, Unlocking}
  }

  lemma PassesStepIff(s: Shared, t: Thread)
    requires Inv(s)
    ensures OwnPasses(Step(s, t)) <==> OwnPasses(s) && ReadsOwnPost(s, t)
  {
    var s' := Step(s, t);
    if t == W && s.worker == Processing {
      assert s'.passes[|s.passes|] == (s.workerRx, s.workerTx);
    }
    if OwnPasses(s') {
      forall k | 0 <= k < |s.passes| ensures s.passes[k] == (k + 1, k + 1) { assert s'.passes[k] == s.passes[k]; }
    }
  }

  lemma ResultsStepIff(s: Shared, t: Thread)
    requires Inv(s)
    ensures OwnResults(Step(s, t)) <==> OwnResults(s) && ReadsOwnResult(s, t)
  {
    var s' := Step(s, t);
    if t == P && s.poster == Reading {
      OwnResultIff(s);
      assert s'.got[|s.got|] == s.rsp;
    }
    if OwnResults(s') {
      forall n | 0 <= n < |s.got| ensures s.got[n] == n + 1 { assert s'.got[n] == s.got[n]; }
    }
  }

  /** All steps of a run read pointers of the post that was claimed. */
  ghost predicate PostsInTime(s: Shared, schedule: seq<Thread>)
    decreases |schedule|
  {
    schedule == [] || (ReadsOwnPost(s, schedule[0]) && PostsInTime(Step(s, schedule[0]), schedule[1..]))
  }

  /** All steps of a run read results that are there. */
  ghost predicate ResultsInTime(s: Shared, schedule: seq<Thread>)
    decreases |schedule|
  {
    schedule == [] || (ReadsOwnResult(s, schedule[0]) && ResultsInTime(Step(s, schedule[0]), schedule[1..]))
  }

  /** With the lock or without it: in a run every pass runs on its own post exactly when the worker always reads a
      pointer before the next post overwrites it, and every result read is the poster's own exactly when the
      worker has always stored it by then. */
  lemma {:induction false} OneForOneIff(s: Shared, schedule: seq<Thread>)
    requires Inv(s)
    ensures OwnPasses(Run(s, schedule)) <==> OwnPasses(s) && PostsInTime(s, schedule)
    ensures OwnResults(Run(s, schedule)) <==> OwnResults(s) && ResultsInTime(s, schedule)
    decreases |schedule|
  {
    if schedule != [] {
      StepKeepsInv(s, schedule[0]);
      PassesStepIff(s, schedule[0]);
      ResultsStepIff(s, schedule[0]);
      OneForOneIff(Step(s, schedule[0]), schedule[1..]);
    }
  }

  /** With the lock, the next post cannot overwrite a pointer once the pass has read the other: what counts is the
      flag at the first read. */
  lemma LockedReadsIff(s: Shared, t: Thread)
    requires Inv(s) && s.locked && OwnPasses(s)
    ensures ReadsOwnPost(s, t) <==> (t == W && s.worker == ReadingRx ==> !s.ready)
  {
    if s.worker == ReadingTx {
      assert s.workerRx == s.rx;
    }
  }

  /** The poster stops waiting only when the worker is done. */
  ghost predicate Patient(s: Shared, schedule: seq<Thread>)
    decreases |schedule|
  {
    schedule == [] ||
    ((schedule[0] == P && s.poster == Waiting && !s.ready ==> s.worker == Polling)
     && Patient(Step(s, schedule[0]), schedule[1..]))
  }

  /** What patience adds to the invariant: while a pass is under way the poster waits. */
  ghost predicate Settled(s: Shared) {
    && (s.worker != Polling ==> s.poster in {Releasing, Waiting} && !s.ready)
    && OwnPasses(s) && OwnResults(s)
  }

  /** A patient poster gets what the single-threaded loop gets: every packet processed once, in order, and
      the result of its own processing; with or without the lock. */
  lemma {:induction false} PatienceMatchesSingleThread(s: Shared, schedule: seq<Thread>)
    requires Inv(s) && Settled(s) && Patient(s, schedule)
    ensures Inv(Run(s, schedule)) && Settled(Run(s, schedule))
    decreases |schedule|
  {
    if schedule != [] {
      StepKeepsInv(s, schedule[0]);
      PatienceMatchesSingleThread(Step(s, schedule[0]), schedule[1..]);
    }
  }

  lemma {:induction false} RunConcat(s: Shared, a: seq<Thread>, b: seq<Thread>)
    ensures Run(s, a + b) == Run(Run(s, a), b)
    decreases |a|
  {
    if a == [] {
      assert a + b == b;
    } else {
      assert (a + b)[1..] == a[1..] + b;
      RunConcat(Step(s, a[0]), a[1..], b);
    }
  }

  // ----- When a pair is torn -----

  /** n steps of the poster. */
  function Ps(n: nat): seq<Thread> { seq(n, _ => P) }

  lemma PsSplit(n: nat)
    requires n > 0
    ensures Ps(n)[0] == P && Ps(n)[1..] == Ps(n - 1)
  {
  }

  /** What the poster's steps leave alone. */
  lemma {:induction false} PosterSteps(s: Shared, n: nat)
    requires Inv(s)
    ensures var t := Run(s, Ps(n));
      && Inv(t) && t.locked == s.locked && t.worker == s.worker && t.claims == s.claims && t.passes == s.passes
      && t.workerRx == s.workerRx && t.workerTx == s.workerTx
    decreases n
  {
    if n > 0 {
      PsSplit(n);
      StepKeepsInv(s, P);
      PosterSteps(PosterStep(s), n - 1);
    }
  }

  /** All interleavings of an unlocked pass: n steps of the poster between the two reads, m before the packet is
      processed.  The pass runs on pointers of two posts exactly when the poster, setting up the next post, wrote
      one pointer on either side of the reads: when the next post had begun at the first read, but was not
      written at the second, or the other way round. */
  lemma TornIff(s: Shared, n: nat, m: nat)
    requires Inv(s) && !s.locked && s.worker == ReadingRx
    ensures var atTx := Run(WorkerStep(s), Ps(n));
      var done := WorkerStep(Run(WorkerStep(atTx), Ps(m)));
      && |done.passes| == s.claims
      && (done.passes[s.claims - 1].0 != done.passes[s.claims - 1].1 <==> NextBegun(s) != NextWritten(atTx))
  {
    StepKeepsInv(s, W);
    PosterSteps(WorkerStep(s), n);
    var atTx := Run(WorkerStep(s), Ps(n));
    StepKeepsInv(atTx, W);
    PosterSteps(WorkerStep(atTx), m);
  }

  lemma Run4(s: Shared, a: Thread, b: Thread, c: Thread, d: Thread)
    ensures Run(s, [a, b, c, d]) == Step(Step(Step(Step(s, a), b), c), d)
  {
    RunConcat(s, [a], [b, c, d]);
    RunConcat(Step(s, a), [b], [c, d]);
    RunConcat(Step(Step(s, a), b), [c], [d]);
    assert [a] + [b, c, d] == [a, b, c, d] && [b] + [c, d] == [b, c, d] && [c] + [d] == [c, d];
  }

  /** A poster that finds the flag clear and the lock free makes its next post. */
  lemma PosterPosts(s: Shared)
    requires s.poster == Taking && (s.locked ==> s.lock == Free)
    ensures Run(s, [P, P, P, P]) ==
            s.(lock := if s.locked then Poster else s.lock, rx := s.posts + 1, tx := s.posts + 1, ready := true,
               posts := s.posts + 1, poster := Releasing)
  {
    Run4(s, P, P, P, P);
  }

  lemma LostBegins(s: Shared)
    requires s == Shared(true, true, Poster, Releasing, Polling, 1, 1, 0, 0, 0, 1, 0, [], [])
    ensures Run(s, [W, P, P, P]) == Shared(true, false, Free, Taking, Locking, 1, 1, 0, 0, 0, 1, 1, [], [0])
  {
    Run4(s, W, P, P, P);
  }

  lemma LostGoesOn(s: Shared)
    requires s == Shared(true, true, Poster, Releasing, Locking, 2, 2, 0, 0, 0, 2, 1, [], [0])
    ensures Run(s, [P, W, W, W]) == Shared(true, true, Worker, Waiting, Processing, 2, 2, 0, 2, 2, 2, 1, [], [0])
  {
    Run4(s, P, W, W, W);
  }

  /** The source's poster is not patient: the flag is cleared before the work is done.  In this run it reads
      a result before there is one, and post 1 is never processed. */
  lemma PostCanBeLost() returns (schedule: seq<Thread>)
    ensures var s := Run(Init(true), schedule);
      s.passes == [(2, 2)] && s.got == [0] && s.posts == 2 && s.claims == 1
  {
    var post, early, late := [P, P, P, P], [W, P, P, P], [P, W, W, W];
    schedule := post + early + post + late + [W];
    var s := Init(true);
    PosterPosts(s);
    LostBegins(Run(s, post));
    RunConcat(s, post, early);
    PosterPosts(Run(s, post + early));
    RunConcat(s, post + early, post);
    LostGoesOn(Run(s, post + early + post));
    RunConcat(s, post + early + post, late);
    RunConcat(s, post + early + post + late, [W]);
    assert [W][1..] == [];
  }

  lemma TornBegins(s: Shared)
    requires s == Shared(false, true, Free, Releasing, Polling, 1, 1, 0, 0, 0, 1, 0, [], [])
    ensures Run(s, [W, W, W, P]) == Shared(false, false, Free, Waiting, ReadingTx, 1, 1, 0, 1, 0, 1, 1, [], [])
  {
    Run4(s, W, W, W, P);
  }

  lemma TornGoesOn(s: Shared)
    requires s == Shared(false, false, Free, Waiting, ReadingTx, 1, 1, 0, 1, 0, 1, 1, [], [])
    ensures Run(s, [P, P, P, P]) == Shared(false, false, Free, WritingTx, ReadingTx, 2, 1, 0, 1, 0, 1, 1, [], [0])
  {
    Run4(s, P, P, P, P);
  }

  lemma TornEnds(s: Shared)
    requires s == Shared(false, false, Free, WritingTx, ReadingTx, 2, 1, 0, 1, 0, 1, 1, [], [0])
    ensures Run(s, [P, W, W, W]).passes == [(1, 2)]
  {
    Run4(s, P, W, W, W);
  }

  /** Without the lock a pass can run on pointers of two different posts: a run in which it does.  TornIff says
      which runs do. */
  lemma PairCanBeTorn() returns (schedule: seq<Thread>)
    ensures Run(Init(false), schedule).passes == [(1, 2)]
  {
    var post, claim, finish := [P, P, P, P], [W, W, W, P], [P, W, W, W];
    schedule := post + claim + post + finish;
    var s := Init(false);
    PosterPosts(s);
    TornBegins(Run(s, post));
    RunConcat(s, post, claim);
    TornGoesOn(Run(s, post + claim));
    RunConcat(s, post + claim, post);
    TornEnds(Run(s, post + claim + post));
    RunConcat(s, post + claim + post, finish);
  }
}
