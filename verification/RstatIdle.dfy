/** The idle shutdown of the statistics service, compiled with EXIT_WHEN_IDLE: a counter of updates
    since the last request, and an exit when it is found at its limit. */
module RstatIdle {
  const CLOSEDOWN := 20

  /** exited: the service has shut itself down for being idle. setups and updates count the calls
      that were made. */
  datatype Idle = Idle(init: bool, sincelastreq: int, exited: bool, setups: nat, updates: nat)

  const START := Idle(false, 0, false, 0, 0)

  /** What arrives: a request, or an alarm. The first request starts the service; an alarm may come
      in the second it then sleeps. Before that no alarm has been asked for. */
  datatype Event = Request(woken: bool) | Alarm

  /** updatestat */
  function Update(s: Idle): Idle {
    if s.sincelastreq >= CLOSEDOWN then s.(exited := true)
    else s.(sincelastreq := s.sincelastreq + 1, updates := s.updates + 1)
  }

  /** stat_init */
  function Init(s: Idle, woken: bool): Idle {
    var first := Update(s.(init := true, setups := s.setups + 1));
    if woken && !first.exited then Update(first) else first
  }

  function Handle(s: Idle, e: Event): Idle {
    if s.exited then s
    else match e
      case Request(woken) =>
        var t := if s.init then s else Init(s, woken);
        if t.exited then t else t.(sincelastreq := 0)
      case Alarm => if s.init then Update(s) else s
  }

  function Run(es: seq<Event>): Idle {
    if es == [] then START else Handle(Run(es[..|es| - 1]), es[|es| - 1])
  }

  /** Alarms at the end of es, back to the last request. */
  function AlarmsSince(es: seq<Event>): nat {
    if es == [] || es[|es| - 1].Request? then 0 else 1 + AlarmsSince(es[..|es| - 1])
  }

  /** The updates that events ask for: one with the first request, another if it slept through an
      alarm, and one with every alarm after it. */
  function UpdatesAsked(es: seq<Event>): nat {
    if es == [] then 0
    else
      var before := es[..|es| - 1];
      match es[|es| - 1]
      case Request(woken) => if Requested(before) then UpdatesAsked(before) else if woken then 2 else 1
      case Alarm => UpdatesAsked(before) + if Requested(before) then 1 else 0
  }

  /** The events up to the one that finds the service left alone. */
  function BeforeExit(es: seq<Event>): seq<Event> {
    if LeftAlone(es) && es != [] then BeforeExit(es[..|es| - 1]) else es
  }

  predicate Requested(es: seq<Event>) {
    exists i :: 0 <= i < |es| && es[i].Request?
  }

  /** A request came, and then 21 alarms in a row. */
  predicate LeftAlone(es: seq<Event>) {
    exists r :: 0 <= r && r + 21 < |es| && es[r].Request? && forall k :: r < k <= r + 21 ==> es[k].Alarm?
  }

  /** These are the last events. */
  predicate LeftAloneNow(es: seq<Event>) {
    22 <= |es| && es[|es| - 22].Request? && forall k :: |es| - 22 < k < |es| ==> es[k].Alarm?
  }

  /** The alarms at the end, event by event. */
  lemma {:induction false} AlarmsAtEnd(es: seq<Event>)
    ensures var n := AlarmsSince(es);
      && n <= |es| && (forall k :: |es| - n <= k < |es| ==> es[k].Alarm?)
      && (n < |es| ==> es[|es| - n - 1].Request?)
      && (Requested(es) <==> n < |es|)
  {
    if es == [] || es[|es| - 1].Request? {
    } else {
      var before := es[..|es| - 1];
      AlarmsAtEnd(before);
      Requests(es);
      assert forall k :: 0 <= k < |before| ==> before[k] == es[k];
    }
  }

  lemma {:induction false} Requests(es: seq<Event>)
    requires es != []
    ensures Requested(es) <==> Requested(es[..|es| - 1]) || es[|es| - 1].Request?
  {
    var before := es[..|es| - 1];
    if i :| 0 <= i < |es| && es[i].Request? {
      assert i < |before| ==> before[i].Request?;
    }
    if i :| 0 <= i < |before| && before[i].Request? {
      assert es[i].Request?;
    }
  }

  lemma LeftAloneGrows(es: seq<Event>)
    requires es != []
    ensures LeftAlone(es) <==> LeftAlone(es[..|es| - 1]) || LeftAloneNow(es)
  {
    var before := es[..|es| - 1];
    assert forall k :: 0 <= k < |before| ==> before[k] == es[k];
    if LeftAlone(es) && !LeftAlone(before) {
      var r :| 0 <= r && r + 21 < |es| && es[r].Request? && forall k :: r < k <= r + 21 ==> es[k].Alarm?;
      assert es[r] == es[..|es| - 1][r];
    }
    if LeftAlone(before) {
      var r :| 0 <= r && r + 21 < |before| && before[r].Request? && forall k :: r < k <= r + 21 ==> before[k].Alarm?;
      assert es[r].Request?;
    }
  }

  /** Being left alone now is having had 21 alarms since the last request. */
  lemma LeftAloneCounts(es: seq<Event>)
    ensures LeftAloneNow(es) <==> Requested(es) && AlarmsSince(es) == 21
  {
    AlarmsAtEnd(es);
    if LeftAloneNow(es) {
      assert es[|es| - 22].Request?;
    }
  }

  lemma {:induction false} NoRequestYet(es: seq<Event>)
    ensures !Requested(es) ==> UpdatesAsked(es) == 0
  {
    if es == [] {
    } else {
      Requests(es);
      NoRequestYet(es[..|es| - 1]);
    }
  }

  lemma {:induction false} RunCounts(es: seq<Event>)
    ensures var s := Run(es);
      && (s.init <==> Requested(es)) && s.setups == (if s.init then 1 else 0) && (0 < s.updates ==> s.setups == 1)
      && s.updates == UpdatesAsked(BeforeExit(es))
      && 0 <= s.sincelastreq <= 20
      && (s.exited <==> LeftAlone(es))
      && (!s.exited ==> s.sincelastreq == if s.init then AlarmsSince(es) else 0)
  {
    if es == [] {
    } else {
      NoRequestYet(es[..|es| - 1]);
      RunCounts(es[..|es| - 1]);
      Requests(es);
      LeftAloneGrows(es);
      LeftAloneCounts(es);
    }
  }

  /** In every interleaving of requests and alarms: setup runs once, with the first request and
      before any update; the updates are exactly those asked for before the exit; the counter is the
      number of updates since the last request and at most 20; and the service exits exactly with the
      21st alarm in a row after a request. */
  lemma EveryRun(es: seq<Event>)
    ensures var s := Run(es);
      && (s.init <==> Requested(es)) && s.setups == (if s.init then 1 else 0) && (0 < s.updates ==> s.setups == 1)
      && s.updates == UpdatesAsked(BeforeExit(es))
      && 0 <= s.sincelastreq <= 20
      && (s.exited <==>
            exists r :: 0 <= r && r + 21 < |es| && es[r].Request? && forall k :: r < k <= r + 21 ==> es[k].Alarm?)
      && (!s.exited ==> s.sincelastreq == if s.init then AlarmsSince(es) else 0)
    ensures !Run(es).exited ==>
              forall r :: 0 <= r < |es| && es[r].Request? && (forall k :: r < k < |es| ==> es[k].Alarm?) ==>
                Run(es).sincelastreq == |es| - r - 1
  {
    AlarmsAtEnd(es);
    RunCounts(es);
  }
}
