/** Hairpin queues: each Tx hairpin queue of a port names an Rx hairpin queue as its peer, and the other way
    round.  Ports are set up one after the other; the peers must match in the end. */
module Hairpin {

  datatype Mode = Self | Ring | Pair

  /** The low bits of the option hairpin_mode, tested in this order. */
  function ModeOf(hairpinMode: bv16): Mode {
    if hairpinMode & 0xf == 0 then Self
    else if hairpinMode & 0x1 != 0 then Ring
    else if hairpinMode & 0x2 != 0 then Pair
    else Self
  }

  datatype Queue = Queue(port: nat, queue: nat)

  /** The i-th of the queues that begin at `base`. */
  function Nth(port: nat, base: nat, i: nat): Queue { Queue(port, base + i) }

  datatype Status = Stopped | Handling | Started

  /** The first device at or after `from`, or `max`. */
  function FindNext(devs: seq<nat>, from: nat, max: nat): nat {
    if devs == [] then max else if devs[0] >= from then devs[0] else FindNext(devs[1..], from, max)
  }

  ghost predicate Ascending(devs: seq<nat>, max: nat) {
    && (forall i, j :: 0 <= i < j < |devs| ==> devs[i] < devs[j])
    && (forall i :: 0 <= i < |devs| ==> devs[i] < max)
  }

  function At(devs: seq<nat>, k: nat, max: nat): nat {
    if k < |devs| then devs[k] else max
  }

  lemma {:induction false} FindNextIs(devs: seq<nat>, from: nat, k: nat, max: nat)
    requires Ascending(devs, max) && k <= |devs|
    requires k > 0 ==> devs[k - 1] < from
    requires k < |devs| ==> from <= devs[k]
    ensures FindNext(devs, from, max) == At(devs, k, max)
  {
    if k > 0 {
      assert devs[0] <= devs[k - 1];
      FindNextIs(devs[1..], from, k - 1, max);
    }
  }

  /** Which port's Rx queues the Tx queues of the k-th of n ports feed, and which port's Tx queues feed its Rx
      queues.  `prev` is the port handled before in the same pass, if any; `count` how many were. */
  function RxPeer(mode: Mode, n: nat, k: nat, prev: int, count: nat): int {
    match mode
    case Self => k
    case Ring => if prev >= 0 then prev else n - 1
    case Pair => if count % 2 == 1 then prev else if k + 1 < n then k + 1 else k
  }

  function TxPeer(mode: Mode, n: nat, k: nat, prev: int, count: nat): int {
    match mode
    case Ring => if k + 1 < n then k + 1 else 0
    case _ => RxPeer(mode, n, k, prev, count)
  }

  // ----- When the peers match -----

  /** A table of peers, for `hairpins` queues of each of the ports devs: the Tx queues come after nbTxq
      ordinary ones, the Rx queues after nbRxq. */
  datatype Tables = Tables(devs: seq<nat>, nbTxq: nat, nbRxq: nat, hairpins: nat,
                           tx: map<Queue, Queue>, rx: map<Queue, Queue>)
  {
    function TxQ(k: nat, i: nat): Queue
      requires k < |devs|
    {
      Nth(devs[k], nbTxq, i)
    }

    function RxQ(k: nat, i: nat): Queue
      requires k < |devs|
    {
      Nth(devs[k], nbRxq, i)
    }

    /** The rows of port k, when its Tx queues feed port r and its Rx queues are fed by port t. */
    ghost predicate Rows(k: nat, r: nat, t: nat) {
      && k < |devs| && r < |devs| && t < |devs|
      && (forall i: nat {:trigger TxQ(k, i)} :: i < hairpins ==> TxQ(k, i) in tx && tx[TxQ(k, i)] == RxQ(r, i))
      && (forall i: nat {:trigger RxQ(k, i)} :: i < hairpins ==> RxQ(k, i) in rx && rx[RxQ(k, i)] == TxQ(t, i))
    }

    /** Each Tx hairpin queue and the Rx queue it names as its peer name each other, and so for each Rx
        queue. */
    ghost predicate Symmetric() {
      && (forall k: nat, i: nat {:trigger TxQ(k, i)} :: k < |devs| && i < hairpins ==> Named(tx, rx, TxQ(k, i)))
      && (forall k: nat, i: nat {:trigger RxQ(k, i)} :: k < |devs| && i < hairpins ==> Named(rx, tx, RxQ(k, i)))
    }
  }

  /** So queue i of port k comes to queue i of the other port, each counted from where the hairpin queues begin. */
  lemma RowsJoin(s: Tables, k: nat, r: nat, t: nat, i: nat)
    requires s.Rows(k, r, t) && i < s.hairpins
    ensures Queue(s.devs[k], s.nbTxq + i) in s.tx && Queue(s.devs[k], s.nbRxq + i) in s.rx
    ensures s.tx[Queue(s.devs[k], s.nbTxq + i)] == Queue(s.devs[r], s.nbRxq + i)
    ensures s.rx[Queue(s.devs[k], s.nbRxq + i)] == Queue(s.devs[t], s.nbTxq + i)
  {
    assert s.TxQ(k, i) in s.tx && s.RxQ(k, i) in s.rx;
  }

  /** q and the queue it names in the table `there` name each other. */
  ghost predicate Named(there: map<Queue, Queue>, back: map<Queue, Queue>, q: Queue) {
    q in there && there[q] in back && back[there[q]] == q
  }

  /** Port k feeds port r, which thinks that port tr feeds it. */
  lemma TxNamedIff(s: Tables, k: nat, i: nat, r: nat, t: nat, rr: nat, tr: nat, max: nat)
    requires Ascending(s.devs, max) && i < s.hairpins && s.Rows(k, r, t) && s.Rows(r, rr, tr)
    ensures Named(s.tx, s.rx, s.TxQ(k, i)) <==> tr == k
  {
    assert s.tx[s.TxQ(k, i)] == s.RxQ(r, i) && s.rx[s.RxQ(r, i)] == s.TxQ(tr, i);
    assert k < tr ==> s.devs[k] < s.devs[tr];
    assert tr < k ==> s.devs[tr] < s.devs[k];
  }

  /** Port k thinks that port t feeds it, which feeds port rt. */
  lemma RxNamedIff(s: Tables, k: nat, i: nat, r: nat, t: nat, rt: nat, tt: nat, max: nat)
    requires Ascending(s.devs, max) && i < s.hairpins && s.Rows(k, r, t) && s.Rows(t, rt, tt)
    ensures Named(s.rx, s.tx, s.RxQ(k, i)) <==> rt == k
  {
    assert s.rx[s.RxQ(k, i)] == s.TxQ(t, i) && s.tx[s.TxQ(t, i)] == s.RxQ(rt, i);
    assert k < rt ==> s.devs[k] < s.devs[rt];
    assert rt < k ==> s.devs[rt] < s.devs[k];
  }

  /** The functions r and t of the port undo each other. */
  ghost predicate Inverse(n: nat, r: nat -> nat, t: nat -> nat) {
    forall k: nat {:trigger Undone(n, r, t, k)} :: k < n ==> Undone(n, r, t, k)
  }

  ghost predicate Undone(n: nat, r: nat -> nat, t: nat -> nat, k: nat) {
    r(k) < n && t(k) < n && t(r(k)) == k && r(t(k)) == k
  }

  ghost predicate FilledBy(s: Tables, r: nat -> nat, t: nat -> nat) {
    forall k: nat {:trigger r(k)} {:trigger t(k)} :: k < |s.devs| ==> s.Rows(k, r(k), t(k))
  }

  /** Tables filled by the functions r and t are symmetric exactly when these undo each other. */
  lemma SymmetricIff(s: Tables, r: nat -> nat, t: nat -> nat, max: nat)
    requires Ascending(s.devs, max) && s.hairpins > 0 && FilledBy(s, r, t)
    ensures s.Symmetric() <==> Inverse(|s.devs|, r, t)
  {
    forall k: nat, i: nat | k < |s.devs| && i < s.hairpins
      ensures Named(s.tx, s.rx, s.TxQ(k, i)) <==> t(r(k)) == k
      ensures Named(s.rx, s.tx, s.RxQ(k, i)) <==> r(t(k)) == k
    {
      TxNamedIff(s, k, i, r(k), t(k), r(r(k)), t(r(k)), max);
      RxNamedIff(s, k, i, r(k), t(k), r(t(k)), t(t(k)), max);
    }
    forall k: nat | k < |s.devs| ensures r(k) < |s.devs| && t(k) < |s.devs| { assert s.Rows(k, r(k), t(k)); }
    if s.Symmetric() {
      forall k: nat | k < |s.devs| ensures Undone(|s.devs|, r, t, k) {
        assert Named(s.tx, s.rx, s.TxQ(k, 0)) && Named(s.rx, s.tx, s.RxQ(k, 0));
      }
    }
    if Inverse(|s.devs|, r, t) {
      forall k: nat, i: nat | k < |s.devs| && i < s.hairpins
        ensures Named(s.tx, s.rx, s.TxQ(k, i)) && Named(s.rx, s.tx, s.RxQ(k, i))
      {
        assert Undone(|s.devs|, r, t, k);
      }
    }
  }

  function Nat(x: int): nat { if x < 0 then 0 else x }

  /** The peers that a pass over all of n ports assigns. */
  function PassRx(mode: Mode, n: nat): nat -> nat { (k: nat) => Nat(RxPeer(mode, n, k, k as int - 1, k)) }
  function PassTx(mode: Mode, n: nat): nat -> nat { (k: nat) => Nat(TxPeer(mode, n, k, k as int - 1, k)) }

  /** The peers that n passes over one port each assign. */
  function AloneRx(mode: Mode, n: nat): nat -> nat { (k: nat) => Nat(RxPeer(mode, n, k, -1, 0)) }
  function AloneTx(mode: Mode, n: nat): nat -> nat { (k: nat) => Nat(TxPeer(mode, n, k, -1, 0)) }

  /** Which ports these are, by the bits of the option: in a ring each port's Tx queues feed the port before it, and
      its Rx queues are fed by the one after it; in pairs it is the other of the two, or the port itself if there is
      no other; otherwise it is the port itself. */
  lemma PassPeers(hairpinMode: bv16, n: nat, k: nat)
    requires k < n
    ensures var r, t := PassRx(ModeOf(hairpinMode), n)(k), PassTx(ModeOf(hairpinMode), n)(k);
      && (hairpinMode & 0x1 != 0 ==> r == (if k == 0 then n - 1 else k - 1) && t == if k + 1 == n then 0 else k + 1)
      && (hairpinMode & 0x1 == 0 && hairpinMode & 0x2 != 0 ==>
            r == t == if k % 2 == 1 then k - 1 else if k + 1 == n then k else k + 1)
      && (hairpinMode & 0x3 == 0 ==> r == t == k)
  {
    ModeBits(hairpinMode);
  }

  lemma ModeBits(hairpinMode: bv16)
    ensures hairpinMode & 0x1 != 0 ==> ModeOf(hairpinMode) == Ring
    ensures hairpinMode & 0x1 == 0 && hairpinMode & 0x2 != 0 ==> ModeOf(hairpinMode) == Pair
    ensures hairpinMode & 0x3 == 0 ==> ModeOf(hairpinMode) == Self
  {
  }

  /** A port that is configured alone knows no port before it. */
  lemma AlonePeers(hairpinMode: bv16, n: nat, k: nat)
    requires k < n
    ensures var r, t := AloneRx(ModeOf(hairpinMode), n)(k), AloneTx(ModeOf(hairpinMode), n)(k);
      && (hairpinMode & 0x1 != 0 ==> r == n - 1 && t == if k + 1 == n then 0 else k + 1)
      && (hairpinMode & 0x1 == 0 && hairpinMode & 0x2 != 0 ==> r == t == if k + 1 == n then k else k + 1)
      && (hairpinMode & 0x3 == 0 ==> r == t == k)
  {
    ModeBits(hairpinMode);
  }

  /** In one pass over all ports the peers undo each other, in each of the modes. */
  lemma OnePassMatches(mode: Mode, n: nat)
    ensures Inverse(n, PassRx(mode, n), PassTx(mode, n))
  {
    forall k: nat | k < n ensures Undone(n, PassRx(mode, n), PassTx(mode, n), k) { OnePassMatch(mode, n, k); }
  }

  lemma OnePassMatch(mode: Mode, n: nat, k: nat)
    requires k < n
    ensures Undone(n, PassRx(mode, n), PassTx(mode, n), k)
  {
    OnePassRx(mode, n, k);
    OnePassTx(mode, n, k);
  }

  lemma OnePassRx(mode: Mode, n: nat, k: nat)
    requires k < n
    ensures PassRx(mode, n)(k) < n && PassTx(mode, n)(PassRx(mode, n)(k)) == k
  {
    var r := RxPeer(mode, n, k, k as int - 1, k);
    assert 0 <= r < n && TxPeer(mode, n, r, r - 1, r) == k;
    assert PassRx(mode, n)(k) == r && PassTx(mode, n)(r) == k;
  }

  lemma OnePassTx(mode: Mode, n: nat, k: nat)
    requires k < n
    ensures PassTx(mode, n)(k) < n && PassRx(mode, n)(PassTx(mode, n)(k)) == k
  {
    var t := TxPeer(mode, n, k, k as int - 1, k);
    assert 0 <= t < n && RxPeer(mode, n, t, t - 1, t) == k;
    assert PassTx(mode, n)(k) == t && PassRx(mode, n)(t) == k;
  }

  /** Configured one at a time, they do so only in self mode or for a single port. */
  lemma OneByOneMatchesIff(mode: Mode, n: nat)
    requires n > 0
    ensures Inverse(n, AloneRx(mode, n), AloneTx(mode, n)) <==> mode.Self? || n == 1
  {
    if !mode.Self? && n > 1 {
      var k := if mode.Ring? then 1 else 0;
      var r := AloneRx(mode, n)(k);
      assert r == if mode.Ring? then n - 1 else 1;
      assert AloneTx(mode, n)(r) != k;
      assert !Undone(n, AloneRx(mode, n), AloneTx(mode, n), k);
    } else {
      forall k: nat | k < n ensures Undone(n, AloneRx(mode, n), AloneTx(mode, n), k) {}
    }
  }

  // ----- Setting up the queues -----

  /** What every queue of another port is named by stays as it was. */
  ghost predicate OthersKept(before: map<Queue, Queue>, after: map<Queue, Queue>, pi: nat) {
    forall q: Queue {:trigger q in after} {:trigger q in before} {:trigger after[q]} {:trigger before[q]} ::
      q.port != pi ==>
      (q in after <==> q in before) && (q in after ==> after[q] == before[q])
  }

  lemma KeptRows(s: Tables, s': Tables, pi: nat, k: nat, r: nat, t: nat)
    requires s'.devs == s.devs && s'.nbTxq == s.nbTxq && s'.nbRxq == s.nbRxq && s'.hairpins == s.hairpins
    requires OthersKept(s.tx, s'.tx, pi) && OthersKept(s.rx, s'.rx, pi)
    requires s.Rows(k, r, t) && s.devs[k] != pi
    ensures s'.Rows(k, r, t)
  {
    forall i: nat | i < s.hairpins ensures s'.TxQ(k, i) in s'.tx && s'.tx[s'.TxQ(k, i)] == s'.RxQ(r, i) {
      assert s.TxQ(k, i) in s.tx;
    }
    forall i: nat | i < s.hairpins ensures s'.RxQ(k, i) in s'.rx && s'.rx[s'.RxQ(k, i)] == s'.TxQ(t, i) {
      assert s.RxQ(k, i) in s.rx;
    }
  }

  /** n queues of one port that have those of another as their peers. */
  ghost predicate Joined(table: map<Queue, Queue>, pi: nat, base: nat, peer: nat, peerBase: nat, n: nat) {
    forall i: nat {:trigger Nth(pi, base, i)} :: i < n ==>
      Nth(pi, base, i) in table && table[Nth(pi, base, i)] == Nth(peer, peerBase, i)
  }

  /** The first n ports have been set up in one pass. */
  ghost predicate PassDone(s: Tables, mode: Mode, n: nat) {
    forall k: nat {:trigger s.devs[k]} :: k < |s.devs| && k < n ==>
      s.Rows(k, PassRx(mode, |s.devs|)(k), PassTx(mode, |s.devs|)(k))
  }

  /** Those of the first n ports that are port pid have been set up on their own. */
  ghost predicate PortAlone(s: Tables, mode: Mode, pid: nat, n: nat) {
    forall k: nat {:trigger s.devs[k]} :: k < |s.devs| && k < n && s.devs[k] == pid ==>
      s.Rows(k, AloneRx(mode, |s.devs|)(k), AloneTx(mode, |s.devs|)(k))
  }

  lemma PassKept(s: Tables, s': Tables, mode: Mode, n: nat, max: nat)
    requires s'.devs == s.devs && s'.nbTxq == s.nbTxq && s'.nbRxq == s.nbRxq && s'.hairpins == s.hairpins
    requires n < |s.devs| && Ascending(s.devs, max)
    requires OthersKept(s.tx, s'.tx, s.devs[n]) && OthersKept(s.rx, s'.rx, s.devs[n])
    requires PassDone(s, mode, n)
    ensures PassDone(s', mode, n)
  {
    forall k: nat | k < n ensures s'.Rows(k, PassRx(mode, |s.devs|)(k), PassTx(mode, |s.devs|)(k)) {
      assert s.devs[k] < s.devs[n];
      KeptRows(s, s', s.devs[n], k, PassRx(mode, |s.devs|)(k), PassTx(mode, |s.devs|)(k));
    }
  }

  lemma PassGrows(s: Tables, mode: Mode, k: nat)
    requires k < |s.devs| && PassDone(s, mode, k)
    requires s.Rows(k, Nat(RxPeer(mode, |s.devs|, k, k as int - 1, k)), Nat(TxPeer(mode, |s.devs|, k, k as int - 1, k)))
    ensures PassDone(s, mode, k + 1)
  {
    var n := |s.devs|;
    assert PassRx(mode, n)(k) == Nat(RxPeer(mode, n, k, k as int - 1, k));
    assert PassTx(mode, n)(k) == Nat(TxPeer(mode, n, k, k as int - 1, k));
    forall j: nat | j < k + 1 ensures s.Rows(j, PassRx(mode, n)(j), PassTx(mode, n)(j)) {
      if j < k { assert s.devs[j] == s.devs[j]; }
    }
  }

  /** Of all other ports the same are stopped and wait for their queues. */
  ghost predicate PortsKept(status: map<nat, Status>, needQueues: set<nat>,
                            status': map<nat, Status>, needQueues': set<nat>, pi: nat) {
    status'.Keys == status.Keys &&
    forall d {:trigger d in status} :: d in status && d != pi ==>
      status'[d] == status[d] && (d in needQueues' <==> d in needQueues)
  }

  lemma PassStep(s: Tables, s': Tables, mode: Mode, k: nat, max: nat)
    requires s'.devs == s.devs && s'.nbTxq == s.nbTxq && s'.nbRxq == s.nbRxq && s'.hairpins == s.hairpins
    requires k < |s.devs| && Ascending(s.devs, max)
    requires OthersKept(s.tx, s'.tx, s.devs[k]) && OthersKept(s.rx, s'.rx, s.devs[k])
    requires PassDone(s, mode, k)
    requires var n := |s.devs|;
             s'.Rows(k, Nat(RxPeer(mode, n, k, k as int - 1, k)), Nat(TxPeer(mode, n, k, k as int - 1, k)))
    ensures PassDone(s', mode, k + 1)
  {
    PassKept(s, s', mode, k, max);
    PassGrows(s', mode, k);
  }

  class Ports {
    const devs: seq<nat>                // the devices without an owner
    const max: nat                      // RTE_MAX_ETHPORTS
    const nbTxq: nat
    const nbRxq: nat
    const nbHairpinq: nat
    const hairpinMode: bv16
    const script: nat -> bool           // which driver calls succeed
    var calls: nat
    var tx: map<Queue, Queue>           // the peers of the Tx hairpin queues
    var rx: map<Queue, Queue>
    var status: map<nat, Status>
    var needConfig: set<nat>            // need_reconfig
    var needQueues: set<nat>            // need_reconfig_queues

    ghost predicate Valid()
      reads this
    {
      Ascending(devs, max) && forall k :: 0 <= k < |devs| ==> devs[k] in status
    }

    function Conf(): Tables
      reads this`tx, this`rx
    {
      Tables(devs, nbTxq, nbRxq, nbHairpinq, tx, rx)
    }

    constructor (devs: seq<nat>, max: nat, nbTxq: nat, nbRxq: nat, nbHairpinq: nat, hairpinMode: bv16,
                 script: nat -> bool)
      requires Ascending(devs, max)
      ensures Valid() && tx == rx == map[] && AllFresh(0)
      ensures this.devs == devs && this.nbHairpinq == nbHairpinq && this.hairpinMode == hairpinMode
    {
      this.devs, this.max, this.nbTxq, this.nbRxq, this.nbHairpinq := devs, max, nbTxq, nbRxq, nbHairpinq;
      this.hairpinMode, this.script := hairpinMode, script;
      calls, tx, rx := 0, map[], map[];
      status := map d | d in devs :: Stopped;
      needConfig, needQueues := set d | d in devs, set d | d in devs;
    }

    /** The port is stopped and its queues are to be set up. */
    ghost predicate Fresh(d: nat)
      reads this`status, this`needConfig, this`needQueues
    {
      d in status && status[d] == Stopped && d in needQueues
    }

    ghost predicate AllFresh(from: nat)
      reads this`status, this`needConfig, this`needQueues
    {
      forall k :: from <= k < |devs| ==> Fresh(devs[k])
    }

    method Driver() returns (ok: bool)
      modifies this`calls
      ensures ok == script(old(calls)) && calls == old(calls) + 1
    {
      ok := script(calls);
      calls := calls + 1;
    }

    method SetupTx(pi: nat, peer: nat) returns (ok: bool)
      modifies this`tx, this`calls
      ensures OthersKept(old(tx), tx, pi)
      ensures ok ==> Joined(tx, pi, nbTxq, peer, nbRxq, nbHairpinq)
    {
      var qi, i := nbTxq, 0;
      ok := true;
      while ok && qi < nbHairpinq + nbTxq
        invariant nbTxq <= qi <= nbHairpinq + nbTxq && i == qi - nbTxq
        invariant OthersKept(old(tx), tx, pi)
        invariant ok ==> Joined(tx, pi, nbTxq, peer, nbRxq, i)
        decreases ok, nbHairpinq + nbTxq - qi
      {
        ok := Driver();
        if ok {
          tx := tx[Queue(pi, qi) := Queue(peer, i + nbRxq)];
          i := i + 1;
          qi := qi + 1;
        }
      }
    }

    method SetupRx(pi: nat, peer: nat) returns (ok: bool)
      modifies this`rx, this`calls
      ensures OthersKept(old(rx), rx, pi)
      ensures ok ==> Joined(rx, pi, nbRxq, peer, nbTxq, nbHairpinq)
    {
      var qi, i := nbRxq, 0;
      ok := true;
      while ok && qi < nbHairpinq + nbRxq
        invariant nbRxq <= qi <= nbHairpinq + nbRxq && i == qi - nbRxq
        invariant OthersKept(old(rx), rx, pi)
        invariant ok ==> Joined(rx, pi, nbRxq, peer, nbTxq, i)
        decreases ok, nbHairpinq + nbRxq - qi
      {
        ok := Driver();
        if ok {
          rx := rx[Queue(pi, qi) := Queue(peer, i + nbTxq)];
          i := i + 1;
          qi := qi + 1;
        }
      }
    }

    /** The last of the devices. */
    method LastPort(pi: nat) returns (last: nat)
      requires Valid() && devs != []
      ensures last == devs[|devs| - 1]
    {
      last := pi;
      ghost var k := 0;
      FindNextIs(devs, 0, 0, max);
      var next := FindNext(devs, 0, max);
      while next < max
        invariant k <= |devs| && next == At(devs, k, max) && (k > 0 ==> last == devs[k - 1])
        decreases |devs| - k
      {
        last := next;
        k := k + 1;
        FindNextIs(devs, next + 1, k, max);
        next := FindNext(devs, next + 1, max);
      }
    }

    /** The ports that the queues of port pi, the k-th, are joined with. */
    method Peers(pi: nat, prevPi: nat, cnt: nat, ghost k: nat, ghost prev: int) returns (peerRx: nat, peerTx: nat)
      requires Valid() && k < |devs| && pi == devs[k] && -1 <= prev < |devs| && (cnt > 0 <==> prev >= 0)
      requires prevPi == if prev >= 0 then devs[prev] else max
      ensures var n, mode := |devs|, ModeOf(hairpinMode);
        && 0 <= RxPeer(mode, n, k, prev, cnt) < n && 0 <= TxPeer(mode, n, k, prev, cnt) < n
        && peerRx == devs[RxPeer(mode, n, k, prev, cnt)] && peerTx == devs[TxPeer(mode, n, k, prev, cnt)]
    {
      peerRx, peerTx := pi, pi;
      FindNextIs(devs, pi + 1, k + 1, max);
      if hairpinMode & 0xf == 0 {
        // Each port is its own peer.
      } else if hairpinMode & 0x1 != 0 {
        peerTx := FindNext(devs, pi + 1, max);
        if peerTx >= max {
          FindNextIs(devs, 0, 0, max);
          peerTx := FindNext(devs, 0, max);
        }
        if prevPi != max {
          peerRx := prevPi;
        } else {
          peerRx := LastPort(pi);
        }
      } else if hairpinMode & 0x2 != 0 {
        if cnt % 2 == 1 {
          peerRx := prevPi;
        } else {
          peerRx := FindNext(devs, pi + 1, max);
          if peerRx >= max {
            peerRx := pi;
          }
        }
        peerTx := peerRx;
      }
    }

    method SetupHairpinQueues(pi: nat, prevPi: nat, cnt: nat, ghost k: nat, ghost prev: int) returns (ok: bool)
      requires Valid() && k < |devs| && pi == devs[k] && -1 <= prev < |devs| && (cnt > 0 <==> prev >= 0)
      requires prevPi == if prev >= 0 then devs[prev] else max
      modifies this`tx, this`rx, this`calls
      ensures OthersKept(old(tx), tx, pi) && OthersKept(old(rx), rx, pi)
      ensures ok ==> var n, mode := |devs|, ModeOf(hairpinMode);
                Conf().Rows(k, Nat(RxPeer(mode, n, k, prev, cnt)), Nat(TxPeer(mode, n, k, prev, cnt)))
    {
      var peerRx, peerTx := Peers(pi, prevPi, cnt, k, prev);
      ok := SetupTx(pi, peerRx);
      if ok {
        ok := SetupRx(pi, peerTx);
      }
    }

    /** Configures the device.  It is handled no longer when that fails, except for a device without hairpin
        queues when they are asked for. */
    method Configure(pi: nat) returns (ok: bool)
      requires pi in status
      modifies this`calls, this`status, this`needConfig
      ensures PortsKept(old(status), needQueues, status, needQueues, pi)
      ensures calls > old(calls)
      ensures ok <==> (nbHairpinq > 0 ==> script(old(calls))) && script(calls - 1)
      ensures ok || (nbHairpinq > 0 && !script(old(calls))) ==>
                status == old(status) && needConfig == old(needConfig) - {pi}
      ensures !ok && (nbHairpinq > 0 ==> script(old(calls))) ==>
                status == old(status)[pi := Stopped] && pi in needConfig
    {
      needConfig := needConfig - {pi};
      if nbHairpinq > 0 {
        ok := Driver();
        if !ok {
          return;
        }
      }
      ok := Driver();
      if !ok {
        status := status[pi := Stopped];
        needConfig := needConfig + {pi};
      }
    }

    /** Sets the ordinary queues up.  Without a pool of buffers for an Rx queue the port stays as it is. */
    method SetupQueues(pi: nat) returns (ok: bool)
      requires pi in status
      modifies this`calls, this`status, this`needQueues
      ensures PortsKept(old(status), old(needQueues), status, needQueues, pi)
      ensures ok ==> status == old(status) && needQueues == old(needQueues)
      ensures ok ==> calls == old(calls) + nbTxq + 2 * nbRxq && forall c :: old(calls) <= c < calls ==> script(c)
      ensures !ok ==> old(calls) < calls && !script(calls - 1)
      ensures !ok ==>
                if calls > old(calls) + nbTxq && (calls - old(calls) - nbTxq) % 2 == 1 then
                  status == old(status) && needQueues == old(needQueues)
                else
                  status == old(status)[pi := Stopped] && needQueues == old(needQueues) + {pi}
    {
      ok := true;
      var pool, qi := true, 0;
      while ok && qi < nbTxq
        invariant status == old(status) && needQueues == old(needQueues) && qi <= nbTxq && calls == old(calls) + qi
        invariant ok ==> forall c :: old(calls) <= c < calls ==> script(c)
        invariant !ok ==> qi > 0 && !script(calls - 1)
        decreases ok, nbTxq - qi
      {
        ok := Driver();
        qi := qi + 1;
      }
      qi := 0;
      ghost var before := calls;
      while ok && qi < nbRxq
        invariant status == old(status) && needQueues == old(needQueues) && qi <= nbRxq && before <= calls
        invariant ok ==> before == old(calls) + nbTxq && calls == before + 2 * qi && pool
        invariant ok ==> forall c :: old(calls) <= c < calls ==> script(c)
        invariant !ok ==> old(calls) < calls && !script(calls - 1)
        invariant !ok && qi == 0 ==> pool && calls <= old(calls) + nbTxq
        invariant !ok && qi > 0 ==>
                    before == old(calls) + nbTxq && calls == before + 2 * qi - (if pool then 0 else 1)
        decreases ok, nbRxq - qi
      {
        pool := Driver();
        ok := pool;
        if ok {
          ok := Driver();
        }
        qi := qi + 1;
      }
      if !ok && pool {
        status := status[pi := Stopped];
        needQueues := needQueues + {pi};
      }
    }

    /** Configures what has to be configured of a port that has been stopped. */
    method PreparePort(pi: nat, prevPi: nat, cnt: nat, ghost k: nat, ghost prev: int) returns (ok: bool)
      requires Valid() && k < |devs| && pi == devs[k] && -1 <= prev < |devs| && (cnt > 0 <==> prev >= 0)
      requires prevPi == (if prev >= 0 then devs[prev] else max) && status[pi] == Handling
      modifies this`tx, this`rx, this`calls, this`status, this`needConfig, this`needQueues
      ensures Valid() && (if ok then status == old(status) else status[pi] in {Stopped, Handling})
      ensures OthersKept(old(tx), tx, pi) && OthersKept(old(rx), rx, pi)
      ensures PortsKept(old(status), old(needQueues), status, needQueues, pi)
      ensures ok && pi in old(needQueues) ==> var n, mode := |devs|, ModeOf(hairpinMode);
                Conf().Rows(k, Nat(RxPeer(mode, n, k, prev, cnt)), Nat(TxPeer(mode, n, k, prev, cnt)))
      ensures pi !in old(needConfig) && pi !in old(needQueues) ==> ok && calls == old(calls)
    {
      ok := true;
      if pi in needConfig {
        ok := Configure(pi);
      }
      if ok && pi in needQueues {
        needQueues := needQueues - {pi};
        ok := SetupQueues(pi);
        if ok {
          ok := SetupHairpinQueues(pi, prevPi, cnt, k, prev);
          if !ok {
            status := status[pi := Stopped];
            needQueues := needQueues + {pi};
          }
        }
      }
    }

    /** Brings one port up.  -1: give up; 0: the port is skipped; 1: its queues are set up. */
    method HandlePort(pi: nat, prevPi: nat, cnt: nat, ghost k: nat, ghost prev: int) returns (res: int)
      requires Valid() && k < |devs| && pi == devs[k] && -1 <= prev < |devs| && (cnt > 0 <==> prev >= 0)
      requires prevPi == if prev >= 0 then devs[prev] else max
      modifies this`tx, this`rx, this`calls, this`status, this`needConfig, this`needQueues
      ensures Valid() && res in {-1, 0, 1} && (res == 0 <==> old(status)[pi] != Stopped)
      ensures OthersKept(old(tx), tx, pi) && OthersKept(old(rx), rx, pi)
      ensures PortsKept(old(status), old(needQueues), status, needQueues, pi)
      ensures res == 0 ==> status == old(status) && calls == old(calls)
      ensures res == 1 ==> calls > 0 && status[pi] == (if script(calls - 1) then Started else Stopped)
      ensures res == -1 ==> status[pi] in {Stopped, Handling}
      ensures res == 1 && pi in old(needQueues) ==> var n, mode := |devs|, ModeOf(hairpinMode);
                Conf().Rows(k, Nat(RxPeer(mode, n, k, prev, cnt)), Nat(TxPeer(mode, n, k, prev, cnt)))
    {
      if status[pi] != Stopped {
        return 0;
      }
      status := status[pi := Handling];
      var ok := PreparePort(pi, prevPi, cnt, k, prev);
      if !ok {
        return -1;
      }
      ok := Driver();
      status := status[pi := if ok then Started else Stopped];
      res := 1;
    }

    /** What a pass over ports that are all to be set up has done after k of them. */
    ghost predicate SoFar(k: nat, prev: int, cnt: nat)
      reads this
    {
      prev == k - 1 && cnt == k && AllFresh(k) && PassDone(Conf(), ModeOf(hairpinMode), k)
    }

    /** What a pass for port pid alone has done after k ports. */
    ghost predicate SoFarAlone(pid: nat, k: nat, prev: int, cnt: nat)
      reads this
    {
      && PortAlone(Conf(), ModeOf(hairpinMode), pid, k)
      && ((forall j :: 0 <= j < k && j < |devs| ==> devs[j] != pid) ==> prev == -1 && cnt == 0 && Fresh(pid))
    }

    /** The next port of a pass. */
    method NextPort(all: bool, pid: nat, pi: nat, prevPi: nat, cnt: nat, ghost k: nat, ghost prev: int)
      returns (res: int, prevPi': nat, cnt': nat, ghost prev': int)
      requires Valid() && k < |devs| && pi == devs[k] && -1 <= prev < |devs| && (cnt > 0 <==> prev >= 0)
      requires prevPi == if prev >= 0 then devs[prev] else max
      modifies this`tx, this`rx, this`calls, this`status, this`needConfig, this`needQueues
      ensures Valid() && res in {-1, 0}
      ensures -1 <= prev' < |devs| && (cnt' > 0 <==> prev' >= 0) && prevPi' == if prev' >= 0 then devs[prev'] else max
      ensures all && old(SoFar(k, prev, cnt)) && res == 0 ==> SoFar(k + 1, prev', cnt')
      ensures !all ==> OthersKept(old(tx), tx, pid) && OthersKept(old(rx), rx, pid)
      ensures !all ==> PortsKept(old(status), old(needQueues), status, needQueues, pid)
      ensures !all && old(SoFarAlone(pid, k, prev, cnt)) && res == 0 ==> SoFarAlone(pid, k + 1, prev', cnt')
    {
      res, prevPi', cnt', prev' := 0, prevPi, cnt, prev;
      ghost var soFar := all && SoFar(k, prev, cnt);
      assert forall j :: 0 <= j < |devs| && j != k ==> devs[j] != pi;
      if all || pid == pi {
        ghost var before := Conf();
        res := HandlePort(pi, prevPi, cnt, k, prev);
        if res == 1 && soFar {
          PassStep(before, Conf(), ModeOf(hairpinMode), k, max);
        }
        if res > 0 {
          prevPi' := pi;
          cnt' := cnt + 1;
          prev' := k;
          res := 0;
        }
      }
    }

    /** Starts one port, or all.  In a pass over ports that are all to be set up, each gets the peers that
        PassRx and PassTx give; a port started alone gets those of AloneRx and AloneTx. */
    method StartPort(all: bool, pid: nat) returns (res: int)
      requires Valid()
      modifies this`tx, this`rx, this`calls, this`status, this`needConfig, this`needQueues
      ensures Valid() && res in {-1, 0}
      ensures all && old(AllFresh(0)) && res == 0 ==> PassDone(Conf(), ModeOf(hairpinMode), |devs|)
      ensures !all ==> OthersKept(old(tx), tx, pid) && OthersKept(old(rx), rx, pid)
      ensures !all ==> PortsKept(old(status), old(needQueues), status, needQueues, pid)
      ensures !all && old(Fresh(pid)) && res == 0 ==> PortAlone(Conf(), ModeOf(hairpinMode), pid, |devs|)
    {
      res := 0;
      var prevPi, cnt := max, 0;
      ghost var k, prev := 0, -1;
      FindNextIs(devs, 0, 0, max);
      var pi := FindNext(devs, 0, max);
      while res >= 0 && pi < max
        invariant Valid() && k <= |devs| && pi == At(devs, k, max) && res in {-1, 0}
        invariant -1 <= prev < |devs| && (cnt > 0 <==> prev >= 0) && prevPi == if prev >= 0 then devs[prev] else max
        invariant all && old(AllFresh(0)) && res == 0 ==> SoFar(k, prev, cnt)
        invariant !all ==> OthersKept(old(tx), tx, pid) && OthersKept(old(rx), rx, pid)
        invariant !all ==> PortsKept(old(status), old(needQueues), status, needQueues, pid)
        invariant !all && old(Fresh(pid)) && res == 0 ==> SoFarAlone(pid, k, prev, cnt)
        decreases if res >= 0 then 1 else 0, |devs| - k
      {
        res, prevPi, cnt, prev := NextPort(all, pid, pi, prevPi, cnt, k, prev);
        k := k + 1;
        FindNextIs(devs, pi + 1, k, max);
        pi := FindNext(devs, pi + 1, max);
      }
    }
  }

  /** All ports in one pass: the peers match, in each of the modes. */
  method StartAll(p: Ports) returns (res: int)
    requires p.Valid() && p.AllFresh(0)
    modifies p`tx, p`rx, p`calls, p`status, p`needConfig, p`needQueues
    ensures res == 0 ==> p.Conf().Symmetric()
    ensures res == 0 ==> PassDone(p.Conf(), ModeOf(p.hairpinMode), |p.devs|)
  {
    res := p.StartPort(true, 0);
    if res == 0 && p.nbHairpinq > 0 {
      ghost var s, mode, n := p.Conf(), ModeOf(p.hairpinMode), |p.devs|;
      FilledByPass(s, mode);
      OnePassMatches(mode, n);
      SymmetricIff(s, PassRx(mode, n), PassTx(mode, n), p.max);
    }
  }

  lemma FilledByPass(s: Tables, mode: Mode)
    requires PassDone(s, mode, |s.devs|)
    ensures FilledBy(s, PassRx(mode, |s.devs|), PassTx(mode, |s.devs|))
  {
    forall k: nat | k < |s.devs| ensures s.Rows(k, PassRx(mode, |s.devs|)(k), PassTx(mode, |s.devs|)(k)) {
      assert s.devs[k] == s.devs[k];
    }
  }

  /** The ports one by one, each in a pass of its own: the peers match only in self mode or for a single
      port. */
  method StartOneByOne(p: Ports) returns (res: int)
    requires p.Valid() && p.AllFresh(0) && p.nbHairpinq > 0 && p.devs != []
    modifies p`tx, p`rx, p`calls, p`status, p`needConfig, p`needQueues
    ensures res == 0 ==> (p.Conf().Symmetric() <==> ModeOf(p.hairpinMode).Self? || |p.devs| == 1)
  {
    res := 0;
    var j := 0;
    while res == 0 && j < |p.devs|
      invariant p.Valid() && j <= |p.devs| && (res == 0 ==> p.AllFresh(j))
      invariant res == 0 ==> AloneDone(p.Conf(), ModeOf(p.hairpinMode), j)
    {
      ghost var before := p.Conf();
      assert forall i :: j < i < |p.devs| ==> p.devs[i] != p.devs[j];
      res := p.StartPort(false, p.devs[j]);
      if res == 0 { AloneGrows(before, p.Conf(), ModeOf(p.hairpinMode), j, p.max); }
      j := j + 1;
    }
    if res == 0 {
      ghost var s, mode, n := p.Conf(), ModeOf(p.hairpinMode), |p.devs|;
      OneByOneMatchesIff(mode, n);
      SymmetricIff(s, AloneRx(mode, n), AloneTx(mode, n), p.max);
    }
  }

  ghost predicate AloneDone(s: Tables, mode: Mode, n: nat) {
    forall k: nat {:trigger AloneRx(mode, |s.devs|)(k)} {:trigger AloneTx(mode, |s.devs|)(k)} ::
      k < |s.devs| && k < n ==>
      s.Rows(k, AloneRx(mode, |s.devs|)(k), AloneTx(mode, |s.devs|)(k))
  }

  lemma AloneGrows(s: Tables, s': Tables, mode: Mode, n: nat, max: nat)
    requires s'.devs == s.devs && s'.nbTxq == s.nbTxq && s'.nbRxq == s.nbRxq && s'.hairpins == s.hairpins
    requires n < |s.devs| && Ascending(s.devs, max)
    requires OthersKept(s.tx, s'.tx, s.devs[n]) && OthersKept(s.rx, s'.rx, s.devs[n])
    requires AloneDone(s, mode, n) && PortAlone(s', mode, s.devs[n], |s.devs|)
    ensures AloneDone(s', mode, n + 1)
  {
    forall k: nat | k < n + 1 ensures s'.Rows(k, AloneRx(mode, |s.devs|)(k), AloneTx(mode, |s.devs|)(k)) {
      if k < n {
        assert s.devs[k] < s.devs[n];
        KeptRows(s, s', s.devs[n], k, AloneRx(mode, |s.devs|)(k), AloneTx(mode, |s.devs|)(k));
      } else {
        assert s'.devs[k] == s.devs[n];
      }
    }
  }
}
