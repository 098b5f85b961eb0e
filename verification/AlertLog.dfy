/** The log of raised and cleared alerts: how it is kept, and what its readers reconstruct from it. */
module AlertLog {
  import opened Outcomes
  import opened Alerts

  /** One transition. Logs written before keys existed carry an empty key. */
  datatype Event = Event(at: int, key: string, text: string, crit: bool, cleared: bool) {

    function Ident(): string {
      if key == "" then text else key
    }
  }

  const CAP := 200

  /** The newest events, as many as the log keeps. */
  function Capped(log: seq<Event>): seq<Event> {
    if |log| <= CAP then log else log[|log| - CAP..]
  }

  lemma CappedIsNewest(log: seq<Event>)
    ensures |Capped(log)| == if |log| < 200 then |log| else 200
    ensures Capped(log) == log[|log| - |Capped(log)|..]
  {
  }

  /** A log that is too long may as well lose its oldest event first; one that is not keeps all. */
  lemma CappedDrops(log: seq<Event>)
    ensures |log| > CAP ==> Capped(log[1..]) == Capped(log)
    ensures |log| <= CAP ==> Capped(log) == log
  {
  }

  function Keys(alerts: seq<Alert>): (keys: set<string>)
    ensures forall k :: k in keys <==> exists i :: 0 <= i < |alerts| && alerts[i].key == k
  {
    set a | a in alerts :: a.key
  }

  function Transition(a: Alert, now: int, cleared: bool): Event {
    Event(now, a.key, a.text, a.crit, cleared)
  }

  /** The transitions of the alerts that are not among these keys. */
  function Absent(alerts: seq<Alert>, keys: set<string>, now: int, cleared: bool): seq<Event> {
    if alerts == [] then []
    else
      var last := alerts[|alerts| - 1];
      Absent(alerts[..|alerts| - 1], keys, now, cleared)
      + if last.key in keys then [] else [Transition(last, now, cleared)]
  }

  /** What was raised and then what was cleared between two evaluations. */
  function Transitions(before: seq<Alert>, current: seq<Alert>, now: int): seq<Event> {
    Absent(current, Keys(before), now, false) + Absent(before, Keys(current), now, true)
  }

  /** Which alerts have such a transition, and what it says. */
  lemma {:induction false} AbsentAre(alerts: seq<Alert>, keys: set<string>, now: int, cleared: bool)
    returns (picks: seq<nat>)
    ensures |picks| == |Absent(alerts, keys, now, cleared)|
    ensures forall i, j :: 0 <= i < j < |picks| ==> picks[i] < picks[j]
    ensures forall i :: 0 <= i < |picks| ==>
              && picks[i] < |alerts|
              && Absent(alerts, keys, now, cleared)[i]
                 == Event(now, alerts[picks[i]].key, alerts[picks[i]].text, alerts[picks[i]].crit, cleared)
    ensures forall p: nat :: p < |alerts| ==> (p in picks <==> alerts[p].key !in keys)
    decreases |alerts|
  {
    if alerts == [] {
      picks := [];
    } else {
      var n := |alerts| - 1;
      picks := AbsentAre(alerts[..n], keys, now, cleared);
      if alerts[n].key !in keys {
        picks := picks + [n];
      }
    }
  }

  /**
   Find the transitions between two evaluations, by key and never by text. First come the raises, in the
   order of the current alerts, of exactly those whose key no earlier alert had; then the clears of
   exactly those earlier alerts whose key is gone. All carry the time of the evaluation, and the key, text
   and criticality of their alert.
   */
  method Diff(before: seq<Alert>, current: seq<Alert>, now: int)
    returns (events: seq<Event>, ghost raised: seq<nat>, ghost gone: seq<nat>)
    ensures events == Transitions(before, current, now) && |events| == |raised| + |gone|
    ensures forall i, j :: 0 <= i < j < |raised| ==> raised[i] < raised[j]
    ensures forall i, j :: 0 <= i < j < |gone| ==> gone[i] < gone[j]
    ensures forall i :: 0 <= i < |raised| ==>
              && raised[i] < |current|
              && events[i]
                 == Event(now, current[raised[i]].key, current[raised[i]].text, current[raised[i]].crit, false)
    ensures forall i :: 0 <= i < |gone| ==>
              && gone[i] < |before|
              && events[|raised| + i]
                 == Event(now, before[gone[i]].key, before[gone[i]].text, before[gone[i]].crit, true)
    ensures forall p: nat :: p < |current| ==>
              (p in raised <==> forall q :: 0 <= q < |before| ==> before[q].key != current[p].key)
    ensures forall p: nat :: p < |before| ==>
              (p in gone <==> forall q :: 0 <= q < |current| ==> current[q].key != before[p].key)
  {
    var oldKeys, newKeys := Keys(before), Keys(current);
    events := [];
    for i := 0 to |current|
      invariant events == Absent(current[..i], oldKeys, now, false)
    {
      assert current[..i + 1][..i] == current[..i];
      if current[i].key !in oldKeys {
        events := events + [Transition(current[i], now, false)];
      }
    }
    assert current[..|current|] == current;
    ghost var raises := events;
    for i := 0 to |before|
      invariant events == raises + Absent(before[..i], newKeys, now, true)
    {
      assert before[..i + 1][..i] == before[..i];
      if before[i].key !in newKeys {
        events := events + [Transition(before[i], now, true)];
      }
    }
    assert before[..|before|] == before;
    raised := AbsentAre(current, oldKeys, now, false);
    gone := AbsentAre(before, newKeys, now, true);
  }

  /** The same, event by event and alert by alert. */
  lemma TransitionsAre(before: seq<Alert>, current: seq<Alert>, now: int)
    ensures forall e :: e in Transitions(before, current, now) ==> e.at == now
    ensures forall e :: e in Transitions(before, current, now) && !e.cleared ==>
              && Alert(e.key, e.crit, e.text) in current
              && forall a :: a in before ==> a.key != e.key
    ensures forall e :: e in Transitions(before, current, now) && e.cleared ==>
              && Alert(e.key, e.crit, e.text) in before
              && forall a :: a in current ==> a.key != e.key
    ensures forall a :: a in current && (forall b :: b in before ==> b.key != a.key) ==>
              Event(now, a.key, a.text, a.crit, false) in Transitions(before, current, now)
    ensures forall a :: a in before && (forall b :: b in current ==> b.key != a.key) ==>
              Event(now, a.key, a.text, a.crit, true) in Transitions(before, current, now)
  {
    AbsentHas(current, Keys(before), now, false);
    AbsentHas(before, Keys(current), now, true);
    hide Absent, Keys;
    KeysAre(before);
    KeysAre(current);
  }

  lemma KeysAre(alerts: seq<Alert>)
    ensures forall k :: k in Keys(alerts) <==> exists a :: a in alerts && a.key == k
  {
  }

  lemma AbsentHas(alerts: seq<Alert>, keys: set<string>, now: int, cleared: bool)
    ensures forall e :: e in Absent(alerts, keys, now, cleared) <==>
              e.at == now && e.cleared == cleared && e.key !in keys && Alert(e.key, e.crit, e.text) in alerts
  {
    var events := Absent(alerts, keys, now, cleared);
    var picks := AbsentAre(alerts, keys, now, cleared);
    hide Absent;
    forall e | e in events
      ensures e.at == now && e.cleared == cleared && e.key !in keys && Alert(e.key, e.crit, e.text) in alerts
    {
      var i :| 0 <= i < |events| && events[i] == e;
      assert picks[i] in picks && alerts[picks[i]] == Alert(e.key, e.crit, e.text);
    }
    forall e: Event | e.at == now && e.cleared == cleared && e.key !in keys && Alert(e.key, e.crit, e.text) in alerts
      ensures e in events
    {
      var p: nat :| p < |alerts| && alerts[p] == Alert(e.key, e.crit, e.text);
      assert p in picks;
      var i :| 0 <= i < |picks| && picks[i] == p;
      assert events[i] == e;
    }
  }

  class App {
    var alerts: seq<Alert>
    var alertLog: seq<Event>
    /** The log as last written to disk. */
    var saved: seq<Event>

    constructor (loaded: seq<Event>)
      ensures alerts == [] && alertLog == Capped(loaded) && saved == loaded
      ensures |alertLog| == if |loaded| < 200 then |loaded| else 200
      ensures alertLog == loaded[|loaded| - |alertLog|..]
    {
      alerts, saved := [], loaded;
      var log := loaded;
      while |log| > CAP
        invariant Capped(log) == Capped(loaded)
        decreases |log|
      {
        log := log[1..];
      }
      alertLog := log;
    }

    /** Replace the alerts by current ones, log what changed, and save the log if anything did. */
    method RefreshAlerts(current: seq<Alert>, now: int) returns (ghost events: seq<Event>)
      modifies this
      ensures alerts == current && events == Transitions(old(alerts), current, now)
      ensures alertLog == Capped(old(alertLog) + events)
      ensures |alertLog| == if |old(alertLog) + events| < 200 then |old(alertLog) + events| else 200
      ensures alertLog == (old(alertLog) + events)[|old(alertLog) + events| - |alertLog|..]
      ensures forall e :: e in events ==> e.at == now
      ensures forall e :: e in events && !e.cleared ==>
                Alert(e.key, e.crit, e.text) in current && forall a :: a in old(alerts) ==> a.key != e.key
      ensures forall e :: e in events && e.cleared ==>
                Alert(e.key, e.crit, e.text) in old(alerts) && forall a :: a in current ==> a.key != e.key
      ensures forall a :: a in current && (forall b :: b in old(alerts) ==> b.key != a.key) ==>
                Event(now, a.key, a.text, a.crit, false) in events
      ensures forall a :: a in old(alerts) && (forall b :: b in current ==> b.key != a.key) ==>
                Event(now, a.key, a.text, a.crit, true) in events
      ensures saved == old(saved) || saved == alertLog
      ensures Transitions(old(alerts), current, now) == [] ==> saved == old(saved)
    {
      hide Transitions, Capped;
      TransitionsAre(alerts, current, now);
      var found;
      ghost var raised, gone;
      found, raised, gone := Diff(alerts, current, now);
      events := found;
      CappedIsNewest(alertLog + found);
      var changed := found != [];
      alertLog := alertLog + found;
      while |alertLog| > CAP
        invariant alerts == old(alerts) && saved == old(saved)
        invariant Capped(alertLog) == Capped(old(alertLog) + events)
        decreases |alertLog|
      {
        CappedDrops(alertLog);
        alertLog := alertLog[1..];
      }
      CappedDrops(alertLog);
      alerts := current;
      if changed {
        // Saving is best effort.
        if * {
          saved := alertLog;
        }
      }
    }
  }

  // ---- What the readers look up ----

  predicate IsRaise(e: Event, ident: string) {
    !e.cleared && e.Ident() == ident
  }

  /** The newest raise of an alert among the first `i` events. */
  function FindRaise(log: seq<Event>, i: nat, ident: string): (found: Option<nat>)
    requires i <= |log|
    ensures found.Some? ==> found.value < i && IsRaise(log[found.value], ident)
  {
    if i == 0 then None
    else if IsRaise(log[i - 1], ident) then Some(i - 1)
    else FindRaise(log, i - 1, ident)
  }

  function AtLeastZero(n: int): nat {
    if n < 0 then 0 else n
  }

  /** The time an active alert is shown with: none if the log no longer holds a raise of it. */
  function ActiveFor(log: seq<Event>, key: string, now: int): Option<nat> {
    match FindRaise(log, |log|, key)
    case Some(o) => Some(AtLeastZero(now - log[o].at))
    case None => None
  }

  /** How long a cleared alert had been raised, from the nearest raise before it. */
  function Lasted(log: seq<Event>, i: nat): Option<nat>
    requires i < |log|
  {
    if !log[i].cleared then None
    else
      match FindRaise(log, i, log[i].Ident())
      case Some(o) => Some(AtLeastZero(log[i].at - log[o].at))
      case None => None
  }

  /**
   A cleared event is paired with the nearest raise before it of the same key or, where logs have none, of
   the same text; it has no time if there is no such raise, and no other event has one.
   */
  lemma LastedMeans(log: seq<Event>, i: nat)
    requires i < |log|
    ensures Lasted(log, i).Some? <==>
            log[i].cleared && exists o :: 0 <= o < i && !log[o].cleared && SameAlert(log[o], log[i])
    ensures forall o :: 0 <= o < i && log[i].cleared && !log[o].cleared && SameAlert(log[o], log[i])
                        && (forall j :: o < j < i ==> log[j].cleared || !SameAlert(log[j], log[i])) ==>
              Lasted(log, i) == Some(if log[i].at < log[o].at then 0 else log[i].at - log[o].at)
  {
    hide FindRaise;
    NearestIsFound(log, i, log[i].Ident());
    assert forall o :: 0 <= o < i ==>
             (IsRaise(log[o], log[i].Ident()) <==> !log[o].cleared && SameAlert(log[o], log[i]));
  }

  ghost predicate SameAlert(a: Event, b: Event) {
    (if a.key != "" then a.key else a.text) == (if b.key != "" then b.key else b.text)
  }

  lemma {:induction false} NearestIsFound(log: seq<Event>, i: nat, ident: string)
    requires i <= |log|
    ensures FindRaise(log, i, ident).None? <==> forall o :: 0 <= o < i ==> !IsRaise(log[o], ident)
    ensures forall o :: 0 <= o < i && IsRaise(log[o], ident) && (forall j :: o < j < i ==> !IsRaise(log[j], ident)) ==>
              FindRaise(log, i, ident) == Some(o)
    decreases i
  {
    if i > 0 {
      NearestIsFound(log, i - 1, ident);
    }
  }

  datatype Line = Line(event: Event, lasted: Option<nat>)

  /** The history as it is shown: newest first, every event with how long its alert had lasted. */
  predicate Drawn(lines: seq<Line>, log: seq<Event>) {
    && |lines| == |log|
    && forall i :: 0 <= i < |log| ==> lines[|log| - 1 - i] == Line(log[i], Lasted(log, i))
  }

  /** Draw the alert history from the newest event back. */
  method DrawAlertLog(log: seq<Event>) returns (lines: seq<Line>)
    ensures Drawn(lines, log)
  {
    lines := [];
    for i := |log| downto 0
      invariant |lines| == |log| - i
      invariant forall j :: i <= j < |log| ==> lines[|log| - 1 - j] == Line(log[j], Lasted(log, j))
    {
      lines := lines + [Line(log[i], Lasted(log, i))];
    }
  }
}
