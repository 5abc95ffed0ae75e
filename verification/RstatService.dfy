/** The statistics service: the union of the three versions of its answer, kept as the 32-bit words
    it occupies, updated in place from kernel memory once a second. */
module RstatService {
  import opened Options
  import opened Words
  import opened RstatClock
  import opened InterfaceChain
  import opened RstatIdle

  // Word offsets in the union. Up to if_collisions the three versions agree; what follows is
  // if_opackets in version 1, v_swtch in versions 2 and 3.
  const CP_TIME := 0
  const DK_XFER := 4
  const V_PGPGIN := 8
  const V_PGPGOUT := 9
  const V_PSWPIN := 10
  const V_PSWPOUT := 11
  const V_INTR := 12
  const IF_IPACKETS := 13
  const IF_IERRORS := 14
  const IF_OERRORS := 15
  const IF_COLLISIONS := 16
  const V1_IF_OPACKETS := 17
  const V23_V_SWTCH := 17
  const BOOTTIME := 21
  const V2_IF_OPACKETS := 23
  const V3_CURTIME := 23
  const V3_IF_OPACKETS := 25
  const SIZE := 26

  datatype Vmmeter = Vmmeter(pgpgin: u32, pgpgout: u32, pswpin: u32, pswpout: u32, intr: u32, swtch: u32)

  /** Kernel memory as one update finds it, and the two clock readings the update takes. */
  datatype Reading = Reading(hz: int, cpTime: seq<u32>, boot: Timeval, sum: Vmmeter, dkXfer: seq<u32>,
                             chain: Chain, now: Timeval, curtime: Timeval)

  predicate WellSized(r: Reading) {
    |r.cpTime| == 4 && |r.dkXfer| == 4
  }

  /** All the words after an update that found the given interfaces. What was there before shows
      only where the update does not write: the load averages and the last word. */
  function Updated(was: seq<u32>, r: Reading, nodes: seq<Ifnet>): (w: seq<u32>)
    requires |was| == SIZE && WellSized(r)
    ensures |w| == SIZE
  {
    r.cpTime + r.dkXfer
    + [r.sum.pgpgin, r.sum.pgpgout, r.sum.pswpin, r.sum.pswpout, StoredIntr(r.sum.intr, r.hz, r.now, r.boot)]
    + [Wrap(SumOf(nodes, (n: Ifnet) => n.ipackets)), Wrap(SumOf(nodes, (n: Ifnet) => n.ierrors)),
       Wrap(SumOf(nodes, (n: Ifnet) => n.oerrors)), Wrap(SumOf(nodes, (n: Ifnet) => n.collisions)),
       Wrap(SumOf(nodes, (n: Ifnet) => n.opackets))]
    + was[18..21]
    + [Wrap(r.boot.sec), Wrap(r.boot.usec), Wrap(r.curtime.sec), Wrap(r.curtime.usec)]
    + was[25..]
  }

  /** Word i before the totals are made. */
  function CounterWord(was: seq<u32>, r: Reading, i: int): u32
    requires |was| == SIZE && WellSized(r) && 0 <= i < SIZE
  {
    if i < 4 then r.cpTime[i]
    else if i < 8 then r.dkXfer[i - 4]
    else if i == V_PGPGIN then r.sum.pgpgin
    else if i == V_PGPGOUT then r.sum.pgpgout
    else if i == V_PSWPIN then r.sum.pswpin
    else if i == V_PSWPOUT then r.sum.pswpout
    else if i == V_INTR then StoredIntr(r.sum.intr, r.hz, r.now, r.boot)
    else if i == V23_V_SWTCH then r.sum.swtch
    else if i == BOOTTIME then Wrap(r.boot.sec)
    else if i == BOOTTIME + 1 then Wrap(r.boot.usec)
    else was[i]
  }

  predicate TotalsIn(w: seq<u32>, nodes: seq<Ifnet>)
    requires |w| == SIZE
  {
    && w[IF_IPACKETS] == Wrap(SumOf(nodes, (n: Ifnet) => n.ipackets))
    && w[IF_IERRORS] == Wrap(SumOf(nodes, (n: Ifnet) => n.ierrors))
    && w[IF_OERRORS] == Wrap(SumOf(nodes, (n: Ifnet) => n.oerrors))
    && w[IF_COLLISIONS] == Wrap(SumOf(nodes, (n: Ifnet) => n.collisions))
    && w[V1_IF_OPACKETS] == Wrap(SumOf(nodes, (n: Ifnet) => n.opackets))
  }

  lemma UpdatedWords(was: seq<u32>, r: Reading, nodes: seq<Ifnet>, w: seq<u32>)
    requires |was| == |w| == SIZE && WellSized(r) && TotalsIn(w, nodes)
    requires forall i :: 0 <= i < SIZE && !(IF_IPACKETS <= i <= V1_IF_OPACKETS)
                         && !(V3_CURTIME <= i <= V3_CURTIME + 1) ==>
               w[i] == CounterWord(was, r, i)
    requires w[V3_CURTIME] == Wrap(r.curtime.sec) && w[V3_CURTIME + 1] == Wrap(r.curtime.usec)
    ensures w == Updated(was, r, nodes)
  {
    hide Wrap, SumOf, StoredIntr, ExactIntr;
  }

  /** The words after the first update, and the one in the second slept through if the alarm came:
      k interfaces from head on are summed up. None if one of them cannot be read. */
  function Started(was: seq<u32>, head: int, k: nat, first: Reading, wake: Option<Reading>): (r: Option<seq<u32>>)
    requires |was| == SIZE && WellSized(first) && (wake.Some? ==> WellSized(wake.value))
    ensures r.Some? ==> |r.value| == SIZE
  {
    match Walk(first.chain, head, k)
    case None => None
    case Some(nodes) =>
      var w := Updated(was, first, nodes);
      if wake == None then Some(w)
      else match Walk(wake.value.chain, head, k)
        case None => None
        case Some(again) => Some(Updated(w, wake.value, again))
  }

  class Service {
    const exitWhenIdle: bool
    const words: array<u32>
    var statIsInit: bool
    var sincelastreq: int
    var firstifnet: int
    var numintfs: nat
    /** The status the process exited with, if it has. */
    var exited: Option<int>
    /** Calls made so far. */
    ghost var setups: nat
    ghost var updates: nat

    /** The service as the idle shutdown sees it. */
    ghost function IdleView(): Idle
      reads this
    {
      Idle(statIsInit, sincelastreq, exited == Some(0), setups, updates)
    }

    constructor (idle: bool)
      ensures exitWhenIdle == idle && fresh(words) && words.Length == SIZE && words[..] == seq(SIZE, _ => 0)
      ensures IdleView() == START && exited == None
    {
      exitWhenIdle := idle;
      words := new u32[SIZE](_ => 0);
      statIsInit := false;
      sincelastreq, firstifnet, numintfs := 0, 0, 0;
      exited := None;
      setups, updates := 0, 0;
      new;
      assert words[..] == seq(SIZE, _ => 0);
    }

    /** Count the interfaces. The loop has no other end than the end of the chain. */
    method Setup(head: int, chain: Chain)
      requires exited == None && Stops(chain, head)
      modifies `firstifnet, `numintfs, `exited, `setups
      ensures setups == old(setups) + 1 && exited != Some(0) && numintfs <= |chain|
      ensures forall k: nat :: StopsAfter(chain, head, k) ==>
                if HasLength(chain, head, k) then exited == None && firstifnet == head && numintfs == k
                else exited == Some(1)
    {
      EndsWithinNodes(chain, head);
      ghost var k: nat :| k <= |chain| && StopsAfter(chain, head, k);
      ghost var left := k;
      setups := setups + 1;
      firstifnet := head;
      numintfs := 0;
      var off := firstifnet;
      while off != 0
        invariant StopsAfter(chain, off, left) && StopsAt(chain, off, left) == StopsAt(chain, head, k)
        invariant numintfs + left == k && exited == None && firstifnet == head && setups == old(setups) + 1
        decreases left
      {
        if off !in chain {
          exited := Some(1);
          forall j: nat | StopsAfter(chain, head, j) ensures j == k {
            StopsOnce(chain, head, j, k);
          }
          return;
        }
        numintfs := numintfs + 1;
        off := chain[off].next;
        left := left - 1;
      }
      forall j: nat | StopsAfter(chain, head, j) ensures j == k {
        StopsOnce(chain, head, j, k);
      }
    }

    /** One interface more in the totals. */
    method AddInterface(ifnet: Ifnet, ghost done: seq<Ifnet>)
      requires words.Length == SIZE && TotalsIn(words[..], done)
      modifies words
      ensures forall i :: 0 <= i < SIZE && !(IF_IPACKETS <= i <= V1_IF_OPACKETS) ==> words[i] == old(words[i])
      ensures TotalsIn(words[..], done + [ifnet])
    {
      hide SumOf, Wrap;
      TotalsGrow(done, ifnet, words[..]);
      words[IF_IPACKETS] := Wrap(words[IF_IPACKETS] + ifnet.ipackets);
      words[V1_IF_OPACKETS] := Wrap(words[V1_IF_OPACKETS] + ifnet.opackets);
      words[IF_IERRORS] := Wrap(words[IF_IERRORS] + ifnet.ierrors);
      words[IF_OERRORS] := Wrap(words[IF_OERRORS] + ifnet.oerrors);
      words[IF_COLLISIONS] := Wrap(words[IF_COLLISIONS] + ifnet.collisions);
    }

    /** Zero the totals and add up the interfaces, as many as setup counted, fewer if the chain now
        ends before. The words around the totals are left alone. */
    method SumInterfaces(chain: Chain)
      requires exited == None && words.Length == SIZE
      modifies words, `exited
      ensures forall i :: 0 <= i < SIZE && !(IF_IPACKETS <= i <= V1_IF_OPACKETS) ==> words[i] == old(words[i])
      ensures match Walk(chain, firstifnet, numintfs)
              case None => exited == Some(1)
              case Some(nodes) =>
                && exited == None && TotalsIn(words[..], nodes)
                && words[13] == Wrap(SumOf(nodes, (n: Ifnet) => n.ipackets))
                && words[14] == Wrap(SumOf(nodes, (n: Ifnet) => n.ierrors))
                && words[15] == Wrap(SumOf(nodes, (n: Ifnet) => n.oerrors))
                && words[16] == Wrap(SumOf(nodes, (n: Ifnet) => n.collisions))
                && words[17] == Wrap(SumOf(nodes, (n: Ifnet) => n.opackets))
    {
      hide SumOf, Wrap, Behind;
      words[IF_IPACKETS] := 0;
      words[V1_IF_OPACKETS] := 0;
      words[IF_IERRORS] := 0;
      words[IF_OERRORS] := 0;
      words[IF_COLLISIONS] := 0;
      ghost var done: seq<Ifnet> := [];
      var off, i := firstifnet, 0;
      BehindNothing(Walk(chain, off, numintfs));
      NoTotals();
      while off != 0 && i < numintfs
        invariant 0 <= i <= numintfs && exited == None && TotalsIn(words[..], done)
        invariant forall i :: 0 <= i < SIZE && !(IF_IPACKETS <= i <= V1_IF_OPACKETS) ==> words[i] == old(words[i])
        invariant Walk(chain, firstifnet, numintfs) == Behind(done, Walk(chain, off, numintfs - i))
        decreases numintfs - i
      {
        if off !in chain {
          NoneBehind(done);
          exited := Some(1);
          return;
        }
        var ifnet := chain[off];
        OneMore(done, ifnet, Walk(chain, ifnet.next, numintfs - i - 1));
        AddInterface(ifnet, done);
        done := done + [ifnet];
        off := ifnet.next;
        i := i + 1;
      }
      NothingBehind(done);
    }

    /** The part of an update before the totals. The context switches go into the word that version
        1 keeps its output packets in. */
    method ReadCounters(r: Reading)
      requires words.Length == SIZE && WellSized(r)
      modifies words
      ensures forall i :: 0 <= i < SIZE ==> words[i] == CounterWord(old(words[..]), r, i)
    {
      forall i | 0 <= i < 4 {
        words[CP_TIME + i] := r.cpTime[i];
      }
      words[BOOTTIME] := Wrap(r.boot.sec);
      words[BOOTTIME + 1] := Wrap(r.boot.usec);
      words[V_PGPGIN] := r.sum.pgpgin;
      words[V_PGPGOUT] := r.sum.pgpgout;
      words[V_PSWPIN] := r.sum.pswpin;
      words[V_PSWPOUT] := r.sum.pswpout;
      words[V_INTR] := r.sum.intr;
      words[V_INTR] := Wrap(words[V_INTR] - Ticks32(r.hz, r.now, r.boot));
      words[V23_V_SWTCH] := r.sum.swtch;
      forall i | 0 <= i < 4 {
        words[DK_XFER + i] := r.dkXfer[i];
      }
    }

    /** The signal handler: read everything again. With EXIT_WHEN_IDLE the process first counts,
        and ends when nobody asked for 20 updates. */
    method Updatestat(r: Reading)
      requires exited == None && words.Length == SIZE && WellSized(r)
      modifies words, `sincelastreq, `exited, `updates
      ensures exitWhenIdle && exited != Some(1) ==> IdleView() == RstatIdle.Update(old(IdleView()))
      ensures if exitWhenIdle && old(sincelastreq) >= 20
        then exited == Some(0) && sincelastreq == old(sincelastreq) && words[..] == old(words[..])
        else
          && sincelastreq == old(sincelastreq) + (if exitWhenIdle then 1 else 0)
          && match Walk(r.chain, firstifnet, numintfs)
             case None => exited == Some(1)
             case Some(nodes) =>
               && exited == None && words[..] == Updated(old(words[..]), r, nodes)
               && words[13] == Wrap(SumOf(nodes, (n: Ifnet) => n.ipackets))
               && words[14] == Wrap(SumOf(nodes, (n: Ifnet) => n.ierrors))
               && words[15] == Wrap(SumOf(nodes, (n: Ifnet) => n.oerrors))
               && words[16] == Wrap(SumOf(nodes, (n: Ifnet) => n.collisions))
               && words[17] == Wrap(SumOf(nodes, (n: Ifnet) => n.opackets))
    {
      hide SumOf, Wrap, StoredIntr;
      if exitWhenIdle {
        if sincelastreq >= CLOSEDOWN {
          exited := Some(0);
          return;
        }
        sincelastreq := sincelastreq + 1;
      }
      updates := updates + 1;
      ReadCounters(r);
      SumInterfaces(r.chain);
      if exited == None {
        words[V3_CURTIME] := Wrap(r.curtime.sec);
        words[V3_CURTIME + 1] := Wrap(r.curtime.usec);
        UpdatedWords(old(words[..]), r, Walk(r.chain, firstifnet, numintfs).value, words[..]);
      }
    }

    /** There is room in the idle counter for n more updates. */
    predicate Awake(n: int)
      reads this
    {
      exitWhenIdle ==> sincelastreq + n <= 20
    }

    /** The first request starts the service: count the interfaces, update, and sleep a second, in
        which the alarm may update again. Kernel memory may change between the readings. */
    method StatInit(head: int, chain: Chain, first: Reading, wake: Option<Reading>)
      requires exited == None && words.Length == SIZE && Stops(chain, head)
      requires WellSized(first) && (wake.Some? ==> WellSized(wake.value))
      modifies this, words
      ensures exitWhenIdle && exited != Some(1) ==> IdleView() == RstatIdle.Init(old(IdleView()), wake.Some?)
      ensures statIsInit && exited in {None, Some(0), Some(1)} && setups == old(setups) + 1
      ensures forall k: nat :: StopsAfter(chain, head, k) && !HasLength(chain, head, k) ==> exited == Some(1)
      ensures forall k: nat :: HasLength(chain, head, k) ==> firstifnet == head && numintfs == k
      ensures forall k: nat :: HasLength(chain, head, k) && old(Awake(if wake == None then 1 else 2)) ==>
                match Started(old(words[..]), head, k, first, wake)
                case None => exited == Some(1)
                case Some(w) => exited == None && words[..] == w
    {
      hide Updated, SumOf, Wrap, Walk, WellSized;
      statIsInit := true;
      Setup(head, chain);
      if exited == None {
        Updatestat(first);
        if exited == None && wake.Some? {
          Updatestat(wake.value);
        }
      }
    }

    /** A request of any version: the service is started if need be, and the idle counter restarts.
        The answer is the words as they are. */
    method Request(head: int, chain: Chain, first: Reading, wake: Option<Reading>) returns (answer: seq<u32>)
      requires exited == None && words.Length == SIZE && (!statIsInit ==> Stops(chain, head))
      requires WellSized(first) && (wake.Some? ==> WellSized(wake.value))
      modifies this, words
      ensures exitWhenIdle && exited != Some(1) ==>
                IdleView() == RstatIdle.Handle(old(IdleView()), RstatIdle.Request(wake.Some?))
      ensures exited == None ==> statIsInit && sincelastreq == 0 && answer == words[..]
      ensures setups == old(setups) + (if old(statIsInit) then 0 else 1)
      ensures !old(statIsInit) ==>
                forall k: nat :: HasLength(chain, head, k) && old(Awake(if wake == None then 1 else 2)) ==>
                  firstifnet == head && numintfs == k &&
                  match Started(old(words[..]), head, k, first, wake)
                  case None => exited == Some(1)
                  case Some(w) => exited == None && answer == w
      ensures old(statIsInit) ==> exited == None && words[..] == old(words[..])
      ensures old(statIsInit) ==> numintfs == old(numintfs) && firstifnet == old(firstifnet)
    {
      answer := [];
      if !statIsInit {
        StatInit(head, chain, first, wake);
      }
      if exited == None {
        sincelastreq := 0;
        answer := words[..];
      }
    }
  }

  function Behind(done: seq<Ifnet>, rest: Option<seq<Ifnet>>): Option<seq<Ifnet>> {
    match rest
    case None => None
    case Some(nodes) => Some(done + nodes)
  }

  lemma BehindNothing(rest: Option<seq<Ifnet>>)
    ensures Behind([], rest) == rest
  {
    assert rest.Some? ==> [] + rest.value == rest.value;
  }

  lemma NothingBehind(done: seq<Ifnet>)
    ensures Behind(done, Some([])) == Some(done)
  {
    assert done + [] == done;
  }

  lemma NoneBehind(done: seq<Ifnet>)
    ensures Behind(done, None) == None
  {
  }

  /** With one more interface the walk is the same. */
  lemma OneMore(done: seq<Ifnet>, i: Ifnet, rest: Option<seq<Ifnet>>)
    ensures Behind(done, if rest == None then None else Some([i] + rest.value)) == Behind(done + [i], rest)
  {
    assert rest.Some? ==> done + ([i] + rest.value) == (done + [i]) + rest.value;
  }

  /** And every total grows by its counter. */
  lemma TotalGrows(done: seq<Ifnet>, i: Ifnet, counter: Ifnet -> u32)
    ensures Wrap(SumOf(done + [i], counter)) == Wrap(Wrap(SumOf(done, counter)) + counter(i))
  {
    assert (done + [i])[..|done|] == done;
    WrapSum(SumOf(done, counter), counter(i));
  }

  lemma TotalsGrow(done: seq<Ifnet>, i: Ifnet, w: seq<u32>)
    requires |w| == SIZE && TotalsIn(w, done)
    ensures Wrap(SumOf(done + [i], (n: Ifnet) => n.ipackets)) == Wrap(w[13] + i.ipackets)
    ensures Wrap(SumOf(done + [i], (n: Ifnet) => n.ierrors)) == Wrap(w[14] + i.ierrors)
    ensures Wrap(SumOf(done + [i], (n: Ifnet) => n.oerrors)) == Wrap(w[15] + i.oerrors)
    ensures Wrap(SumOf(done + [i], (n: Ifnet) => n.collisions)) == Wrap(w[16] + i.collisions)
    ensures Wrap(SumOf(done + [i], (n: Ifnet) => n.opackets)) == Wrap(w[17] + i.opackets)
  {
    hide SumOf, Wrap;
    TotalGrows(done, i, (n: Ifnet) => n.ipackets);
    TotalGrows(done, i, (n: Ifnet) => n.ierrors);
    TotalGrows(done, i, (n: Ifnet) => n.oerrors);
    TotalGrows(done, i, (n: Ifnet) => n.collisions);
    TotalGrows(done, i, (n: Ifnet) => n.opackets);
  }

  lemma NoTotals()
    ensures Wrap(SumOf([], (n: Ifnet) => n.ipackets)) == 0 && Wrap(SumOf([], (n: Ifnet) => n.ierrors)) == 0
    ensures Wrap(SumOf([], (n: Ifnet) => n.oerrors)) == 0 && Wrap(SumOf([], (n: Ifnet) => n.collisions)) == 0
    ensures Wrap(SumOf([], (n: Ifnet) => n.opackets)) == 0
  {
  }

  lemma WrapSum(a: int, b: int)
    ensures Wrap(Wrap(a) + b) == Wrap(a + b)
  {
    var q := a / TWO32;
    assert Wrap(a) + b == a + b - TWO32 * q;
  }

  // ---------- the three versions of the answer ----------

  /** The words an answer carries, by meaning; the load averages are not filled in here. */
  datatype Answer = Answer(cpTime: seq<u32>, dkXfer: seq<u32>, pgpgin: u32, pgpgout: u32, pswpin: u32, pswpout: u32,
                           intr: u32, ipackets: u32, ierrors: u32, oerrors: u32, collisions: u32, opackets: u32)

  function CommonPart(w: seq<u32>, opackets: u32): Answer
    requires |w| == SIZE
  {
    Answer(w[0..4], w[4..8], w[V_PGPGIN], w[V_PGPGOUT], w[V_PSWPIN], w[V_PSWPOUT], w[V_INTR],
           w[IF_IPACKETS], w[IF_IERRORS], w[IF_OERRORS], w[IF_COLLISIONS], opackets)
  }

  /** What the update means to answer. */
  function Intended(r: Reading, nodes: seq<Ifnet>): Answer {
    Answer(r.cpTime, r.dkXfer, r.sum.pgpgin, r.sum.pgpgout, r.sum.pswpin, r.sum.pswpout,
           ExactIntr(r.sum.intr, r.hz, r.now, r.boot),
           Wrap(SumOf(nodes, (n: Ifnet) => n.ipackets)), Wrap(SumOf(nodes, (n: Ifnet) => n.ierrors)),
           Wrap(SumOf(nodes, (n: Ifnet) => n.oerrors)), Wrap(SumOf(nodes, (n: Ifnet) => n.collisions)),
           Wrap(SumOf(nodes, (n: Ifnet) => n.opackets)))
  }

  function Version1(w: seq<u32>): Answer
    requires |w| == SIZE
  {
    CommonPart(w, w[V1_IF_OPACKETS])
  }

  function Version2(w: seq<u32>): (Answer, u32, seq<u32>)
    requires |w| == SIZE
  {
    (CommonPart(w, w[V2_IF_OPACKETS]), w[V23_V_SWTCH], w[BOOTTIME..BOOTTIME + 2])
  }

  function Version3(w: seq<u32>): (Answer, u32, seq<u32>, seq<u32>)
    requires |w| == SIZE
  {
    (CommonPart(w, w[V3_IF_OPACKETS]), w[V23_V_SWTCH], w[BOOTTIME..BOOTTIME + 2], w[V3_CURTIME..V3_CURTIME + 2])
  }

  function TimeWords(t: Timeval): seq<u32> {
    [Wrap(t.sec), Wrap(t.usec)]
  }

  /** The two clock readings are in order; the sizes are those of the kernel's fields. */
  predicate ProperClocks(r: Reading) {
    IsInt32(r.hz) && Proper(r.now) && Proper(r.boot)
  }

  predicate IntrFits(r: Reading) {
    TicksFit(r.hz, r.now, r.boot)
  }

  /** Version 1 is answered as intended exactly when the one product that can overflow fits. */
  lemma Version1Exact(was: seq<u32>, r: Reading, nodes: seq<Ifnet>)
    requires |was| == SIZE && WellSized(r) && ProperClocks(r)
    ensures Version1(Updated(was, r, nodes)) == Intended(r, nodes) <==> IntrFits(r)
  {
    IntrExact(r.sum.intr, r.hz, r.now, r.boot);
    hide Wrap, SumOf, StoredIntr, ExactIntr;
  }

  /** Versions 2 and 3 share words with what is written through version 1: their context switches
      are overwritten by the output packets, and their output packets are the current second, or
      never written at all. The answers are as intended exactly when the numbers happen to agree. */
  lemma Version2Exact(was: seq<u32>, r: Reading, nodes: seq<Ifnet>)
    requires |was| == SIZE && WellSized(r) && ProperClocks(r)
    ensures Version2(Updated(was, r, nodes)) == (Intended(r, nodes), r.sum.swtch, TimeWords(r.boot))
            <==> r.sum.swtch == Wrap(SumOf(nodes, (n: Ifnet) => n.opackets)) == Wrap(r.curtime.sec) && IntrFits(r)
  {
    hide Wrap, SumOf, StoredIntr, ExactIntr;
    IntrExact(r.sum.intr, r.hz, r.now, r.boot);
    var w := Updated(was, r, nodes);
    assert w[0..4] == r.cpTime && w[4..8] == r.dkXfer && w[BOOTTIME..BOOTTIME + 2] == TimeWords(r.boot);
  }

  lemma Version3Exact(was: seq<u32>, r: Reading, nodes: seq<Ifnet>)
    requires |was| == SIZE && WellSized(r) && ProperClocks(r)
    ensures Version3(Updated(was, r, nodes))
              == (Intended(r, nodes), r.sum.swtch, TimeWords(r.boot), TimeWords(r.curtime))
            <==> r.sum.swtch == Wrap(SumOf(nodes, (n: Ifnet) => n.opackets)) == was[V3_IF_OPACKETS] && IntrFits(r)
  {
    hide Wrap, SumOf, StoredIntr, ExactIntr;
    IntrExact(r.sum.intr, r.hz, r.now, r.boot);
    var w := Updated(was, r, nodes);
    assert w[0..4] == r.cpTime && w[4..8] == r.dkXfer;
    assert w[BOOTTIME..BOOTTIME + 2] == TimeWords(r.boot) && w[V3_CURTIME..V3_CURTIME + 2] == TimeWords(r.curtime);
  }

  /** One context switch and no interface, when all is zero: version 1 is right, the others not. */
  const ONE_SWITCH := Reading(100, [0, 0, 0, 0], Timeval(0, 0), Vmmeter(0, 0, 0, 0, 0, 1), [0, 0, 0, 0],
                              map[], Timeval(0, 0), Timeval(0, 0))

  /** Version 1 says what is meant, and versions 2 and 3 do not. */
  ghost predicate OnlyVersion1(was: seq<u32>, r: Reading, nodes: seq<Ifnet>)
    requires |was| == SIZE && WellSized(r)
  {
    var w, meant := Updated(was, r, nodes), Intended(r, nodes);
    && Version1(w) == meant
    && Version2(w) != (meant, r.sum.swtch, TimeWords(r.boot))
    && Version3(w) != (meant, r.sum.swtch, TimeWords(r.boot), TimeWords(r.curtime))
  }

  lemma SwitchesLost(was: seq<u32>)
    requires |was| == SIZE
    ensures OnlyVersion1(was, ONE_SWITCH, [])
  {
    hide Updated, Intended, Version1, Version2, Version3, Wrap, SumOf, TimeWords;
    Version1Exact(was, ONE_SWITCH, []);
    Version2Exact(was, ONE_SWITCH, []);
    Version3Exact(was, ONE_SWITCH, []);
    NoTotals();
  }

  /** Every word after an update, by its place. The load averages and the last word stay. */
  lemma UpdatedByWord(was: seq<u32>, r: Reading, nodes: seq<Ifnet>)
    requires |was| == 26 && WellSized(r)
    ensures var w := Updated(was, r, nodes);
      && |w| == 26
      && (forall k :: 0 <= k < 4 ==> w[k] == r.cpTime[k] && w[4 + k] == r.dkXfer[k])
      && w[8] == r.sum.pgpgin && w[9] == r.sum.pgpgout && w[10] == r.sum.pswpin && w[11] == r.sum.pswpout
      && w[12] == StoredIntr(r.sum.intr, r.hz, r.now, r.boot)
      && w[13] == Wrap(SumOf(nodes, (n: Ifnet) => n.ipackets))
      && w[14] == Wrap(SumOf(nodes, (n: Ifnet) => n.ierrors))
      && w[15] == Wrap(SumOf(nodes, (n: Ifnet) => n.oerrors))
      && w[16] == Wrap(SumOf(nodes, (n: Ifnet) => n.collisions))
      && w[17] == Wrap(SumOf(nodes, (n: Ifnet) => n.opackets))
      && w[18] == was[18] && w[19] == was[19] && w[20] == was[20]
      && w[21] == Wrap(r.boot.sec) && w[22] == Wrap(r.boot.usec)
      && w[23] == Wrap(r.curtime.sec) && w[24] == Wrap(r.curtime.usec)
      && w[25] == was[25]
  {
    hide Wrap, SumOf, StoredIntr;
  }

  /** One more interface adds its own counters to the five totals, modulo 2^32, and changes no other
      word; with no interface the totals are zero. */
  lemma OneMoreInterface(was: seq<u32>, r: Reading, nodes: seq<Ifnet>, i: Ifnet)
    requires |was| == 26 && WellSized(r)
    ensures var w, v := Updated(was, r, nodes), Updated(was, r, nodes + [i]);
      && v[13] == Wrap(w[13] + i.ipackets) && v[14] == Wrap(w[14] + i.ierrors) && v[15] == Wrap(w[15] + i.oerrors)
      && v[16] == Wrap(w[16] + i.collisions) && v[17] == Wrap(w[17] + i.opackets)
      && forall k :: 0 <= k < 26 && !(13 <= k <= 17) ==> v[k] == w[k]
    ensures forall k :: 13 <= k <= 17 ==> Updated(was, r, [])[k] == 0
  {
    hide Wrap, SumOf, StoredIntr;
    NoTotals();
    TotalsGrow(nodes, i, Updated(was, r, nodes));
  }

  /** The same of whatever words hold the totals of some interfaces. */
  lemma TotalsByInterface(w: seq<u32>, v: seq<u32>, nodes: seq<Ifnet>, i: Ifnet)
    requires |w| == |v| == 26 && TotalsIn(w, nodes) && TotalsIn(v, nodes + [i])
    ensures v[13] == Wrap(w[13] + i.ipackets) && v[14] == Wrap(w[14] + i.ierrors) && v[15] == Wrap(w[15] + i.oerrors)
    ensures v[16] == Wrap(w[16] + i.collisions) && v[17] == Wrap(w[17] + i.opackets)
    ensures nodes == [] ==> w[13] == w[14] == w[15] == w[16] == w[17] == 0
  {
    hide Wrap, SumOf;
    NoTotals();
    TotalsGrow(nodes, i, w);
  }

  /** An update does not depend on the totals of an earlier one, and a word no update writes stays. */
  lemma UpdatesDoNotAccumulate(was: seq<u32>, r: Reading, nodes: seq<Ifnet>, r': Reading, nodes': seq<Ifnet>)
    requires |was| == SIZE && WellSized(r) && WellSized(r')
    ensures Updated(Updated(was, r, nodes), r', nodes') == Updated(was, r', nodes')
    ensures Updated(was, r, nodes)[V3_IF_OPACKETS] == was[V3_IF_OPACKETS]
  {
    hide Wrap, SumOf, StoredIntr, ExactIntr;
  }

  // ---------- a client ----------

  /** An answer with the totals of all k interfaces of the chain, and in version 1 as intended. */
  ghost predicate Answers(w: seq<u32>, r: Reading, head: int, k: nat) {
    var all := Walk(r.chain, head, k);
    && |w| == SIZE && WellSized(r) && HasLength(r.chain, head, k)
    && all.Some? && |all.value| == k && TotalsIn(w, all.value)
    && (ProperClocks(r) ==> (Version1(w) == Intended(r, all.value) <==> IntrFits(r)))
  }

  /** An update that sums as many interfaces as the chain has, or more, answers for all of them. */
  lemma AnswersWhole(was: seq<u32>, r: Reading, head: int, j: nat, k: nat)
    requires |was| == SIZE && WellSized(r) && HasLength(r.chain, head, j) && j <= k
    ensures var all := Walk(r.chain, head, k); all.Some? && Answers(Updated(was, r, all.value), r, head, j)
  {
    hide Walk, HasLength, Wrap, SumOf, Version1, Intended, IntrFits, ProperClocks;
    WholeChain(r.chain, head, j, k);
    if ProperClocks(r) {
      Version1Exact(was, r, Walk(r.chain, head, k).value);
    }
  }

  /** Such an answer, word by word. */
  lemma AnswersByWord(w: seq<u32>, r: Reading, head: int, k: nat)
    requires Answers(w, r, head, k)
    ensures |w| == 26 && Walk(r.chain, head, k).Some?
    ensures var nodes := Walk(r.chain, head, k).value;
      && |nodes| == k
      && w[13] == Wrap(SumOf(nodes, (n: Ifnet) => n.ipackets))
      && w[14] == Wrap(SumOf(nodes, (n: Ifnet) => n.ierrors))
      && w[15] == Wrap(SumOf(nodes, (n: Ifnet) => n.oerrors))
      && w[16] == Wrap(SumOf(nodes, (n: Ifnet) => n.collisions))
      && w[17] == Wrap(SumOf(nodes, (n: Ifnet) => n.opackets))
  {
    hide Wrap, SumOf;
  }

  lemma LengthStops(chain: Chain, head: int, k: nat)
    requires HasLength(chain, head, k)
    ensures Stops(chain, head)
  {
  }

  /** A client: the first request to a new service counts the chain and is answered with the totals
      of all its interfaces; so is a request after an alarm, as long as no interface has been added
      since. One that has been taken away by then is no longer summed. */
  method AskTwice(idle: bool, head: int, first: Reading, later: Reading, ghost k: nat, ghost j: nat)
    returns (answer: seq<u32>, again: seq<u32>)
    requires WellSized(first) && HasLength(first.chain, head, k)
    requires WellSized(later) && HasLength(later.chain, head, j) && j <= k
    ensures Answers(answer, first, head, k) && Answers(again, later, head, j)
  {
    hide Answers, Updated, HasLength, Walk, WellSized;
    var service := new Service(idle);
    LengthStops(first.chain, head, k);
    AnswersWhole(service.words[..], first, head, k, k);
    answer := service.Request(head, first.chain, first, None);
    AnswersWhole(answer, later, head, j, k);
    service.Updatestat(later);
    again := service.Request(head, first.chain, first, None);
  }
}
