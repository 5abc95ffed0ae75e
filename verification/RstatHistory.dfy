/** The statistics service over whole histories: whatever requests and alarms come in, every answer
    holds what the last update before it read. */
module RstatHistory {
  import opened Options
  import opened Words
  import opened InterfaceChain
  import opened RstatClock
  import opened RstatIdle
  import opened RstatService

  /** What comes in, with what the kernel's memory holds then: a request, which the first time reads it
      once or, if an alarm comes while it sleeps, twice; or an alarm. */
  datatype Happening = Asked(first: Reading, wake: Option<Reading>) | Rang(reading: Reading)

  predicate Sized(h: Happening) {
    match h
    case Asked(first, wake) => WellSized(first) && (wake.Some? ==> WellSized(wake.value))
    case Rang(r) => WellSized(r)
  }

  /** The k interfaces from head on can be read. */
  predicate Readable(h: Happening, head: int, k: nat) {
    match h
    case Asked(first, wake) =>
      Walk(first.chain, head, k).Some? && (wake.Some? ==> Walk(wake.value.chain, head, k).Some?)
    case Rang(r) => Walk(r.chain, head, k).Some?
  }

  /** The same for the idle shutdown. */
  function Events(hs: seq<Happening>): seq<Event> {
    if hs == [] then []
    else Events(hs[..|hs| - 1]) + [match hs[|hs| - 1] case Asked(_, wake) => Request(wake.Some?) case Rang(_) => Alarm]
  }

  /** What the last update read: there is none before the first request. */
  function LastRead(hs: seq<Happening>): Option<Reading> {
    if hs == [] then None
    else
      var before := LastRead(hs[..|hs| - 1]);
      match hs[|hs| - 1]
      case Asked(first, wake) => if before.Some? then before else if wake.Some? then wake else Some(first)
      case Rang(r) => if before.Some? then Some(r) else None
  }

  /** Before a request nothing has been read. The first one, at i, reads once or twice; after that
      every alarm does, and the last alarm, at j, is what counts. */
  lemma {:induction false} LastReadIs(hs: seq<Happening>, i: nat, j: nat)
    requires i <= |hs| && forall k :: 0 <= k < i ==> hs[k].Rang?
    ensures i == |hs| ==> LastRead(hs) == None
    ensures i < |hs| && hs[i].Asked? && (forall k :: i < k < |hs| ==> hs[k].Asked?) ==>
              LastRead(hs) == if hs[i].wake.Some? then hs[i].wake else Some(hs[i].first)
    ensures i < j < |hs| && hs[i].Asked? && hs[j].Rang? && (forall k :: j < k < |hs| ==> hs[k].Asked?) ==>
              LastRead(hs) == Some(hs[j].reading)
    ensures i < |hs| && hs[i].Asked? ==> LastRead(hs).Some?
  {
    if hs == [] {
    } else {
      var before := hs[..|hs| - 1];
      assert forall k :: 0 <= k < |before| ==> before[k] == hs[k];
      LastReadIs(before, if i < |hs| then i else i - 1, j);
    }
  }

  function Zeros(): (w: seq<u32>)
    ensures |w| == SIZE
  {
    seq(SIZE, _ => 0)
  }

  /** The words are those of the last update, over the k interfaces from head on. */
  predicate UpToDate(hs: seq<Happening>, head: int, k: nat, w: seq<u32>) {
    match LastRead(hs)
    case None => false
    case Some(r) => WellSized(r) && Walk(r.chain, head, k).Some? && w == FromZeros(r, head, k)
  }

  function FromZeros(r: Reading, head: int, k: nat): (w: seq<u32>)
    requires WellSized(r) && Walk(r.chain, head, k).Some?
    ensures |w| == SIZE
  {
    Updated(Zeros(), r, Walk(r.chain, head, k).value)
  }

  /** In such an answer all interfaces are summed that the chain had by then, if none was added. */
  lemma UpToDateIsWhole(hs: seq<Happening>, head: int, j: nat, k: nat, w: seq<u32>)
    requires UpToDate(hs, head, k, w) && HasLength(LastRead(hs).value.chain, head, j) && j <= k
    ensures Answers(w, LastRead(hs).value, head, j)
  {
    hide Answers, Updated, HasLength, Walk, LastRead;
    AnswersWhole(Zeros(), LastRead(hs).value, head, j, k);
  }

  /** Up-to-date words, by their place. */
  lemma UpToDateByWord(hs: seq<Happening>, head: int, k: nat, w: seq<u32>)
    requires UpToDate(hs, head, k, w)
    ensures |w| == 26 && Walk(LastRead(hs).value.chain, head, k).Some?
    ensures var r := LastRead(hs).value;
      var nodes := Walk(r.chain, head, k).value;
      && (forall i :: 0 <= i < 4 ==> w[i] == r.cpTime[i] && w[4 + i] == r.dkXfer[i])
      && w[8] == r.sum.pgpgin && w[9] == r.sum.pgpgout && w[10] == r.sum.pswpin && w[11] == r.sum.pswpout
      && w[12] == StoredIntr(r.sum.intr, r.hz, r.now, r.boot)
      && w[13] == Wrap(SumOf(nodes, (n: Ifnet) => n.ipackets))
      && w[14] == Wrap(SumOf(nodes, (n: Ifnet) => n.ierrors))
      && w[15] == Wrap(SumOf(nodes, (n: Ifnet) => n.oerrors))
      && w[16] == Wrap(SumOf(nodes, (n: Ifnet) => n.collisions))
      && w[17] == Wrap(SumOf(nodes, (n: Ifnet) => n.opackets))
      && w[18] == w[19] == w[20] == w[25] == 0
      && w[21] == Wrap(r.boot.sec) && w[22] == Wrap(r.boot.usec)
      && w[23] == Wrap(r.curtime.sec) && w[24] == Wrap(r.curtime.usec)
  {
    hide Wrap, SumOf, StoredIntr, Walk, LastRead, Updated;
    var r := LastRead(hs).value;
    UpdatedByWord(Zeros(), r, Walk(r.chain, head, k).value);
  }

  /** An update brings the words up to date, whatever was in them before. */
  lemma UpdateAgain(hs: seq<Happening>, head: int, k: nat, w: seq<u32>, r: Reading)
    requires UpToDate(hs, head, k, w) && WellSized(r) && Walk(r.chain, head, k).Some?
    ensures |w| == SIZE && Updated(w, r, Walk(r.chain, head, k).value) == FromZeros(r, head, k)
  {
    hide Updated, Walk, LastRead;
    var last := LastRead(hs).value;
    UpdatesDoNotAccumulate(Zeros(), last, Walk(last.chain, head, k).value, r, Walk(r.chain, head, k).value);
  }

  /** A service that is still running after hs. */
  ghost predicate Running(s: Service, hs: seq<Happening>, head: int, k: nat)
    reads s, s.words
  {
    s.exited == None ==>
      if LastRead(hs) == None then !s.statIsInit && s.sincelastreq == 0 && s.words[..] == Zeros()
      else s.statIsInit && s.firstifnet == head && s.numintfs == k && UpToDate(hs, head, k, s.words[..])
  }

  /** Its state, as the idle shutdown sees it, and why it may have exited. */
  ghost predicate Follows(s: Service, hs: seq<Happening>, readable: bool)
    reads s
  {
    && s.exited in {None, Some(0), Some(1)} && (readable ==> s.exited != Some(1))
    && (s.exitWhenIdle && s.exited != Some(1) ==> s.IdleView() == RstatIdle.Run(Events(hs)))
    && (!s.exitWhenIdle ==> s.exited != Some(0))
  }

  lemma OneMoreEvent(hs: seq<Happening>, h: Happening)
    ensures Events(hs + [h]) == Events(hs) + [match h case Asked(_, wake) => Request(wake.Some?) case Rang(_) => Alarm]
    ensures RstatIdle.Run(Events(hs + [h])) ==
            Handle(RstatIdle.Run(Events(hs)), match h case Asked(_, wake) => Request(wake.Some?) case Rang(_) => Alarm)
  {
    assert (hs + [h])[..|hs|] == hs;
    var es := Events(hs + [h]);
    assert es[..|es| - 1] == Events(hs);
  }

  /** A request, at any point of a history. */
  method Ask(s: Service, ghost hs: seq<Happening>, head: int, chain: Chain, h: Happening, ghost k: nat,
             ghost readable: bool)
    returns (answer: seq<u32>)
    requires s.exited == None && s.words.Length == SIZE && h.Asked? && Sized(h) && HasLength(chain, head, k)
    requires Running(s, hs, head, k) && Follows(s, hs, readable) && (readable ==> Readable(h, head, k))
    modifies s, s.words
    ensures Running(s, hs + [h], head, k) && Follows(s, hs + [h], readable) && s.exited != Some(0)
    ensures s.exited == None ==> UpToDate(hs + [h], head, k, answer)
  {
    hide Walk, HasLength, WellSized, RstatIdle.Run, Updated;
    LengthStops(chain, head, k);
    OneMoreEvent(hs, h);
    assert (hs + [h])[..|hs|] == hs;
    if h.wake.Some? && LastRead(hs) == None && Walk(h.first.chain, head, k).Some?
       && Walk(h.wake.value.chain, head, k).Some? {
      UpdatesDoNotAccumulate(Zeros(), h.first, Walk(h.first.chain, head, k).value,
                             h.wake.value, Walk(h.wake.value.chain, head, k).value);
    }
    answer := s.Request(head, chain, h.first, h.wake);
  }

  /** An alarm, at any point of a history; before the first request none has been asked for. */
  method Ring(s: Service, ghost hs: seq<Happening>, head: int, h: Happening, ghost k: nat, ghost readable: bool)
    requires s.exited == None && s.words.Length == SIZE && h.Rang? && Sized(h)
    requires Running(s, hs, head, k) && Follows(s, hs, readable) && (readable ==> Readable(h, head, k))
    modifies s, s.words
    ensures Running(s, hs + [h], head, k) && Follows(s, hs + [h], readable)
  {
    hide Walk, WellSized, RstatIdle.Run, Updated;
    OneMoreEvent(hs, h);
    assert (hs + [h])[..|hs|] == hs;
    if s.statIsInit {
      if Walk(h.reading.chain, head, k).Some? {
        UpdateAgain(hs, head, k, s.words[..], h.reading);
      }
      s.Updatestat(h.reading);
    }
  }

  /** A new service and whatever comes in. Every answer holds what the last update before it read, over
      the interfaces counted at the start. With readable interfaces every request is answered until, in
      a build that shuts down when idle, 21 alarms have come in a row. */
  method Serve(idle: bool, head: int, chain: Chain, hs: seq<Happening>, ghost k: nat)
    returns (answers: seq<Option<seq<u32>>>)
    requires HasLength(chain, head, k) && forall h :: h in hs ==> Sized(h)
    ensures |answers| == |hs|
    ensures forall i :: 0 <= i < |hs| && answers[i].Some? ==>
              hs[i].Asked? && UpToDate(hs[..i + 1], head, k, answers[i].value)
    ensures (forall h :: h in hs ==> Readable(h, head, k)) ==>
              forall i :: 0 <= i < |hs| ==>
                (answers[i].Some? <==>
                  && hs[i].Asked?
                  && !(idle && exists r :: 0 <= r && r + 21 < i && hs[r].Asked?
                                           && forall k :: r < k <= r + 21 ==> hs[k].Rang?))
  {
    hide Walk, HasLength, WellSized, RstatIdle.Run, Updated, LeftAlone, UpToDate, Running, Sized, Readable, Follows;
    ghost var readable := forall h :: h in hs ==> Readable(h, head, k);
    var s := new Service(idle);
    Starts(s, head, k, readable);
    answers := [];
    var i := 0;
    while i < |hs|
      invariant 0 <= i <= |hs| && |answers| == i && fresh(s) && fresh(s.words)
      invariant s.words.Length == SIZE && s.exitWhenIdle == idle
      invariant Running(s, hs[..i], head, k) && Follows(s, hs[..i], readable)
      invariant forall j :: 0 <= j < i && answers[j].Some? ==>
                  hs[j].Asked? && UpToDate(hs[..j + 1], head, k, answers[j].value)
      invariant readable ==> forall j :: 0 <= j < i ==>
                  (answers[j].Some? <==> hs[j].Asked? && !(idle && LeftAlone(Events(hs[..j]))))
    {
      ghost var before := hs[..i];
      assert hs[..i + 1] == before + [hs[i]];
      ExitsWhenLeftAlone(s, before, readable);
      var answer: Option<seq<u32>> := None;
      if s.exited == None {
        if hs[i].Asked? {
          var w := Ask(s, before, head, chain, hs[i], k, readable);
          NeverUnread(s, before + [hs[i]], readable);
          if s.exited == None {
            answer := Some(w);
          }
        } else {
          Ring(s, before, head, hs[i], k, readable);
        }
      } else {
        StaysExited(s, before, hs[i], head, k, readable);
      }
      answers := answers + [answer];
      i := i + 1;
    }
    forall j | 0 <= j < |hs|
      ensures LeftAlone(Events(hs[..j])) <==>
              exists r :: 0 <= r && r + 21 < j && hs[r].Asked? && forall k :: r < k <= r + 21 ==> hs[k].Rang?
    {
      LeftAloneIn(hs[..j]);
      QuietPrefix(hs, j);
    }
  }

  /** No request for 21 alarms. */
  predicate Quiet(hs: seq<Happening>) {
    exists r :: 0 <= r && r + 21 < |hs| && hs[r].Asked? && forall k :: r < k <= r + 21 ==> hs[k].Rang?
  }

  lemma QuietPrefix(hs: seq<Happening>, j: nat)
    requires j <= |hs|
    ensures Quiet(hs[..j]) <==>
            exists r :: 0 <= r && r + 21 < j && hs[r].Asked? && forall k :: r < k <= r + 21 ==> hs[k].Rang?
  {
    var before := hs[..j];
    assert forall k :: 0 <= k < j ==> before[k] == hs[k];
    if Quiet(before) {
      var r :| 0 <= r && r + 21 < j && before[r].Asked? && forall k :: r < k <= r + 21 ==> before[k].Rang?;
      assert hs[r].Asked?;
    }
    if r :| 0 <= r && r + 21 < j && hs[r].Asked? && forall k :: r < k <= r + 21 ==> hs[k].Rang? {
      assert before[r].Asked?;
    }
  }

  lemma {:induction false} EventsAt(hs: seq<Happening>)
    ensures |Events(hs)| == |hs|
    ensures forall k :: 0 <= k < |hs| ==> (Events(hs)[k].Request? <==> hs[k].Asked?)
  {
    if hs == [] {
    } else {
      EventsAt(hs[..|hs| - 1]);
    }
  }

  /** Happening by happening. */
  lemma LeftAloneIn(hs: seq<Happening>)
    ensures LeftAlone(Events(hs)) <==> Quiet(hs)
  {
    hide Events;
    EventsAt(hs);
    var es := Events(hs);
    if LeftAlone(es) {
      var r :| 0 <= r && r + 21 < |es| && es[r].Request? && forall k :: r < k <= r + 21 ==> es[k].Alarm?;
      assert hs[r].Asked?;
    }
    if Quiet(hs) {
      var r :| 0 <= r && r + 21 < |hs| && hs[r].Asked? && forall k :: r < k <= r + 21 ==> hs[k].Rang?;
      assert es[r].Request?;
    }
  }

  lemma Starts(s: Service, head: int, k: nat, readable: bool)
    requires s.exited == None && s.IdleView() == START && s.words[..] == Zeros()
    ensures Running(s, [], head, k) && Follows(s, [], readable)
  {
  }

  lemma ExitsWhenLeftAlone(s: Service, hs: seq<Happening>, readable: bool)
    requires Follows(s, hs, readable)
    ensures readable ==> (s.exited == None <==> !(s.exitWhenIdle && LeftAlone(Events(hs))))
  {
    RunCounts(Events(hs));
  }

  lemma NeverUnread(s: Service, hs: seq<Happening>, readable: bool)
    requires Follows(s, hs, readable)
    ensures readable ==> s.exited != Some(1)
    ensures s.exited in {None, Some(0), Some(1)}
  {
  }

  /** A process that has exited does nothing more. */
  lemma StaysExited(s: Service, hs: seq<Happening>, h: Happening, head: int, k: nat, readable: bool)
    requires s.exited != None && Follows(s, hs, readable)
    ensures Running(s, hs + [h], head, k) && Follows(s, hs + [h], readable)
  {
    hide RstatIdle.Run;
    OneMoreEvent(hs, h);
  }
}
