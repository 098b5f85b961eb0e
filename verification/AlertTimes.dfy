/** The times shown for alerts, told by the evaluations at which they came and went. */
module AlertTimes {
  import opened Numbers
  import opened Outcomes
  import opened Alerts
  import opened AlertLog
  import opened AlertHistory

  /** The alerts after these ticks, if there were none before. */
  function Present(ticks: seq<Tick>): seq<Alert> {
    if ticks == [] then []
    else match ticks[|ticks| - 1] case Refresh(current, _) => current case Restart(_) => []
  }

  /** The alert has been there ever since the `j`th tick, an evaluation that found it anew. */
  ghost predicate RaisedAt(ticks: seq<Tick>, key: string, j: nat) {
    && j < |ticks| && key !in Keys(Present(ticks[..j]))
    && forall i :: j <= i < |ticks| ==> ticks[i].Refresh? && key in Keys(ticks[i].current)
  }

  /** It was there from the `j`th tick on until the `e`th, an evaluation that missed it. */
  ghost predicate Activation(ticks: seq<Tick>, key: string, j: nat, e: nat) {
    j < e < |ticks| && RaisedAt(ticks[..e], key, j) && ticks[e].Refresh? && key !in Keys(ticks[e].current)
  }

  /** The alert came at the `j`th tick, at this time. */
  ghost predicate CameAt(ticks: seq<Tick>, key: string, j: nat, at: int) {
    RaisedAt(ticks, key, j) && ticks[j].now == at
  }

  /** It came at the `j`th tick and went at the `e`th, at these times. */
  ghost predicate Lived(ticks: seq<Tick>, key: string, j: nat, e: nat, came: int, went: int) {
    Activation(ticks, key, j, e) && CameAt(ticks[..e], key, j, came) && ticks[e].now == went
  }

  /** The opening of an active alert carries the time at which it came. */
  ghost predicate OpenDated(ticks: seq<Tick>, l: Ledger, key: string)
    requires key in l.since
  {
    l.since[key] < |l.events| && exists j: nat :: CameAt(ticks, key, j, l.events[l.since[key]].at)
  }

  /** A cleared event and its opening carry the times at which the alert came and went. */
  ghost predicate PairDated(ticks: seq<Tick>, events: seq<Event>, i: nat, o: nat) {
    i < |events| && o < |events|
    && exists j: nat, e: nat :: Lived(ticks, events[i].key, j, e, events[o].at, events[i].at)
  }

  ghost predicate Dated(ticks: seq<Tick>, l: Ledger) {
    && Level(l)
    && (forall key :: key in l.since ==> OpenDated(ticks, l, key))
    && forall i :: l.legacy <= i < |l.events| && l.events[i].cleared && l.openings[i].Some? ==>
         PairDated(ticks, l.events, i, l.openings[i].value)
  }

  // ---- What recording does ----

  lemma {:induction false} RecordAllKeeps(l: Ledger, events: seq<Event>)
    requires Level(l)
    ensures var m := RecordAll(l, events);
            && Level(m) && m.events == l.events + events && m.legacy == l.legacy
            && m.openings[..|l.events|] == l.openings
    decreases |events|
  {
    hide Record;
    if events != [] {
      RecordAllKeeps(l, events[..|events| - 1]);
      assert events == events[..|events| - 1] + [events[|events| - 1]];
      RecordKeeps(RecordAll(l, events[..|events| - 1]), events[|events| - 1], |l.events|);
    } else {
      assert l.events + [] == l.events;
    }
  }

  lemma RecordKeeps(l: Ledger, e: Event, n: nat)
    requires Level(l) && n <= |l.events|
    ensures var m := Record(l, e);
            && Level(m) && m.events == l.events + [e] && m.legacy == l.legacy && m.openings[..n] == l.openings[..n]
  {
  }

  /** Events of other keys leave a key's opening alone. */
  lemma {:induction false} OthersKeepSince(l: Ledger, events: seq<Event>, key: string)
    requires forall e :: e in events ==> e.key != key
    ensures var m := RecordAll(l, events);
            (key in m.since <==> key in l.since) && (key in l.since ==> m.since[key] == l.since[key])
    decreases |events|
  {
    if events != [] {
      assert events[|events| - 1] in events;
      OthersKeepSince(l, events[..|events| - 1], key);
    }
  }

  /** An alert's opening is that of before, or one of the raises just recorded. */
  lemma {:induction false} SinceOf(l: Ledger, events: seq<Event>, key: string)
    requires Level(l) && key in RecordAll(l, events).since
    ensures var at := RecordAll(l, events).since[key];
            || (key in l.since && at == l.since[key])
            || exists i :: 0 <= i < |events| && events[i].key == key && !events[i].cleared && at == |l.events| + i
    decreases |events|
  {
    hide Record;
    if events != [] {
      var init, last := events[..|events| - 1], events[|events| - 1];
      RecordAllKeeps(l, init);
      SinceOfOne(RecordAll(l, init), last, key);
      if last.cleared || last.key != key {
        SinceOf(l, init, key);
        if !(key in l.since && RecordAll(l, events).since[key] == l.since[key]) {
          var i :| 0 <= i < |init| && init[i].key == key && !init[i].cleared
                   && RecordAll(l, init).since[key] == |l.events| + i;
          assert events[i] == init[i];
        }
      } else {
        assert events[|init|] == last;
      }
    }
  }

  lemma SinceOfOne(l: Ledger, e: Event, key: string)
    requires key in Record(l, e).since
    ensures if e.cleared || e.key != key then key in l.since && Record(l, e).since[key] == l.since[key]
            else Record(l, e).since[key] == |l.events|
  {
  }

  /** A clear is paired with the opening its key had before, if no event before it was of that key. */
  lemma {:induction false} OpeningOf(l: Ledger, events: seq<Event>, i: nat)
    requires Level(l) && i < |events| && events[i].cleared
    requires forall j :: 0 <= j < i ==> events[j].key != events[i].key
    ensures Level(RecordAll(l, events)) && |RecordAll(l, events).openings| == |l.events| + |events|
    ensures RecordAll(l, events).openings[|l.events| + i]
            == if events[i].key in l.since then Some(l.since[events[i].key]) else None
    decreases |events|
  {
    var init, last := events[..|events| - 1], events[|events| - 1];
    RecordAllKeeps(l, events);
    RecordAllKeeps(l, init);
    if i < |init| {
      assert init[i] == events[i];
      OpeningOf(l, init, i);
    } else {
      OthersKeepSince(l, init, last.key);
    }
  }

  // ---- From tick to tick ----

  lemma MoreTicks(ticks: seq<Tick>, tick: Tick, events: seq<Event>, more: seq<Event>, i: nat, o: nat)
    requires PairDated(ticks, events, i, o) && |events| <= |more| && more[..|events|] == events
    ensures PairDated(ticks + [tick], more, i, o)
  {
    hide Lived;
    var j: nat, e: nat :| Lived(ticks, events[i].key, j, e, events[o].at, events[i].at);
    assert more[i] == events[i] && more[o] == events[o];
    LivedStays(ticks, tick, events[i].key, j, e, events[o].at, events[i].at);
  }

  lemma LivedStays(ticks: seq<Tick>, tick: Tick, key: string, j: nat, e: nat, came: int, went: int)
    requires Lived(ticks, key, j, e, came, went)
    ensures Lived(ticks + [tick], key, j, e, came, went)
  {
    hide RaisedAt, Keys, CameAt;
    assert (ticks + [tick])[..e] == ticks[..e] && (ticks + [tick])[e] == ticks[e];
  }

  lemma LessEvents(ticks: seq<Tick>, events: seq<Event>, kept: nat, i: nat, o: nat)
    requires PairDated(ticks, events, i, o) && i < kept <= |events| && o < kept
    ensures PairDated(ticks, events[..kept], i, o)
  {
    hide Lived;
    var j: nat, e: nat :| Lived(ticks, events[i].key, j, e, events[o].at, events[i].at);
    assert events[..kept][i] == events[i] && events[..kept][o] == events[o];
  }

  /** An alert that stays came when it did. */
  lemma StillThere(ticks: seq<Tick>, tick: Tick, key: string, j: nat, at: int)
    requires CameAt(ticks, key, j, at) && tick.Refresh? && key in Keys(tick.current)
    ensures CameAt(ticks + [tick], key, j, at)
  {
    hide Keys;
    assert (ticks + [tick])[..j] == ticks[..j] && (ticks + [tick])[j] == ticks[j];
  }

  /** One that was not there comes now. */
  lemma ComesNow(ticks: seq<Tick>, tick: Tick, key: string)
    requires tick.Refresh? && key in Keys(tick.current) && key !in Keys(Present(ticks))
    ensures CameAt(ticks + [tick], key, |ticks|, tick.now)
  {
    hide Keys;
    assert (ticks + [tick])[..|ticks|] == ticks;
  }

  /** One that was there and is not goes now. */
  lemma GoesNow(ticks: seq<Tick>, tick: Tick, key: string, j: nat, at: int)
    requires CameAt(ticks, key, j, at) && tick.Refresh? && key !in Keys(tick.current)
    ensures Lived(ticks + [tick], key, j, |ticks|, at, tick.now)
  {
    hide Keys;
    assert (ticks + [tick])[..|ticks|] == ticks;
  }

  /** What is known after an evaluation of the ledger it left. */
  lemma AfterRefresh(s: State, current: seq<Alert>, now: int)
    requires Inv(s) && Sound(current)
    ensures var l, m, events := s.ledger, RecordAll(s.ledger, Transitions(s.alerts, current, now)),
                                Transitions(s.alerts, current, now);
            && Level(l) && Next(s, Refresh(current, now)).ledger == m
            && Level(m) && m.events == l.events + events && m.legacy == l.legacy
            && |m.openings| == |l.events| + |events| && m.openings[..|l.events|] == l.openings
            && m.since.Keys == Keys(current) && l.since.Keys == Keys(s.alerts)
            && DistinctKeys(s.alerts)
  {
    RefreshKeepsInv(s, current, now);
    InvMeans(Next(s, Refresh(current, now)));
    InvMeans(s);
    hide Valid, Transitions, RecordAll, Keys;
    RecordAllKeeps(s.ledger, Transitions(s.alerts, current, now));
  }

  lemma OldOpenDates(ticks: seq<Tick>, l: Ledger, m: Ledger, tick: Tick, key: string)
    requires key in l.since && OpenDated(ticks, l, key) && key in m.since && m.since[key] == l.since[key]
    requires |l.events| <= |m.events| && m.events[..|l.events|] == l.events
    requires tick.Refresh? && key in Keys(tick.current)
    ensures OpenDated(ticks + [tick], m, key)
  {
    hide CameAt, Keys;
    var j: nat :| CameAt(ticks, key, j, l.events[l.since[key]].at);
    StillThere(ticks, tick, key, j, l.events[l.since[key]].at);
    assert m.events[m.since[key]] == l.events[l.since[key]];
  }

  lemma NewOpenDates(ticks: seq<Tick>, m: Ledger, tick: Tick, key: string)
    requires key in m.since && m.since[key] < |m.events| && tick.Refresh? && m.events[m.since[key]].at == tick.now
    requires key in Keys(tick.current) && key !in Keys(Present(ticks))
    ensures OpenDated(ticks + [tick], m, key)
  {
    hide CameAt, Keys;
    ComesNow(ticks, tick, key);
  }

  lemma RaiseIsNew(before: seq<Alert>, current: seq<Alert>, now: int, i: nat)
    requires i < |Transitions(before, current, now)| && !Transitions(before, current, now)[i].cleared
    ensures Transitions(before, current, now)[i].key !in Keys(before)
    ensures Transitions(before, current, now)[i].at == now
  {
    TransitionsAre(before, current, now);
    KeysAre(before);
    hide Transitions, Keys;
    assert Transitions(before, current, now)[i] in Transitions(before, current, now);
  }

  lemma OpensDate(ticks: seq<Tick>, s: State, current: seq<Alert>, now: int, key: string)
    requires Inv(s) && Sound(current) && Dated(ticks, s.ledger) && s.alerts == Present(ticks)
    requires key in Next(s, Refresh(current, now)).ledger.since
    ensures OpenDated(ticks + [Refresh(current, now)], Next(s, Refresh(current, now)).ledger, key)
  {
    hide Inv, Sound, Transitions, Record, RecordAll, OpenDated, PairDated, Keys, Next, Present, DistinctKeys;
    var tick := Refresh(current, now);
    var l, events := s.ledger, Transitions(s.alerts, current, now);
    var m := RecordAll(l, events);
    AfterRefresh(s, current, now);
    assert m.events[..|l.events|] == l.events;
    SinceOf(l, events, key);
    if key in l.since && m.since[key] == l.since[key] {
      OldOpenDates(ticks, l, m, tick, key);
    } else {
      var i :| 0 <= i < |events| && events[i].key == key && !events[i].cleared && m.since[key] == |l.events| + i;
      RaiseIsNew(s.alerts, current, now, i);
      assert m.events[m.since[key]] == events[i];
      NewOpenDates(ticks, m, tick, key);
    }
  }

  /** No earlier transition is of the key that one clears. */
  lemma ClearsOnce(before: seq<Alert>, current: seq<Alert>, now: int, i: nat)
    requires DistinctKeys(before) && i < |Transitions(before, current, now)|
    requires Transitions(before, current, now)[i].cleared
    ensures var events := Transitions(before, current, now);
            && (forall j :: 0 <= j < i ==> events[j].key != events[i].key)
            && events[i].key in Keys(before) && events[i].key !in Keys(current) && events[i].at == now
  {
    var events := Transitions(before, current, now);
    var raises := Absent(current, Keys(before), now, false);
    var raised := AbsentAre(current, Keys(before), now, false);
    var gone := AbsentAre(before, Keys(current), now, true);
    TransitionsAre(before, current, now);
    KeysAre(before);
    KeysAre(current);
    assert events[i] in events;
    hide Absent, Keys;
    assert i >= |raised|;
    forall j | 0 <= j < i
      ensures events[j].key != events[i].key
    {
      if j < |raised| {
        assert events[j] in events;
      } else {
        assert gone[j - |raised|] < gone[i - |raised|];
      }
    }
  }

  lemma PairsDate(ticks: seq<Tick>, s: State, current: seq<Alert>, now: int, i: nat)
    requires Inv(s) && Sound(current) && Dated(ticks, s.ledger) && s.alerts == Present(ticks)
    requires Level(RecordAll(s.ledger, Transitions(s.alerts, current, now)))
    requires var m := RecordAll(s.ledger, Transitions(s.alerts, current, now));
             m.legacy <= i < |m.events| && m.events[i].cleared && m.openings[i].Some?
    ensures var m := RecordAll(s.ledger, Transitions(s.alerts, current, now));
            PairDated(ticks + [Refresh(current, now)], m.events, i, m.openings[i].value)
  {
    hide Inv, Sound, Transitions, Record, RecordAll, OpenDated, PairDated, Keys, Next, Present, DistinctKeys;
    var tick := Refresh(current, now);
    var l, events := s.ledger, Transitions(s.alerts, current, now);
    var m := RecordAll(l, events);
    AfterRefresh(s, current, now);
    if i < |l.events| {
      assert m.openings[i] == l.openings[i] && m.events[i] == l.events[i] && m.events[..|l.events|] == l.events;
      MoreTicks(ticks, tick, l.events, m.events, i, l.openings[i].value);
    } else {
      var k := i - |l.events|;
      ClearsOnce(s.alerts, current, now, k);
      OpeningOf(l, events, k);
      assert m.events[i] == events[k] && m.events[..|l.events|] == l.events;
      NewPairDates(ticks, l, m, tick, i, events[k].key);
    }
  }

  lemma NewPairDates(ticks: seq<Tick>, l: Ledger, m: Ledger, tick: Tick, i: nat, key: string)
    requires key in l.since && OpenDated(ticks, l, key) && |l.events| <= i < |m.events| && tick.Refresh?
    requires m.events[..|l.events|] == l.events && m.events[i].key == key && m.events[i].at == tick.now
    requires key !in Keys(tick.current)
    ensures PairDated(ticks + [tick], m.events, i, l.since[key])
  {
    hide CameAt, Lived, Keys;
    var o := l.since[key];
    var j: nat :| CameAt(ticks, key, j, l.events[o].at);
    GoesNow(ticks, tick, key, j, l.events[o].at);
    assert m.events[o] == l.events[o];
  }

  lemma NextKeepsDated(ticks: seq<Tick>, s: State, tick: Tick)
    requires Inv(s) && Dated(ticks, s.ledger) && s.alerts == Present(ticks) && (tick.Refresh? ==> Sound(tick.current))
    ensures Dated(ticks + [tick], Next(s, tick).ledger) && Next(s, tick).alerts == Present(ticks + [tick])
  {
    hide Inv, Sound, OpenDated, PairDated, Transitions, RecordAll;
    NextKeepsInv(s, tick);
    InvMeans(Next(s, tick));
    InvMeans(s);
    var m := Next(s, tick).ledger;
    match tick
    case Refresh(current, now) =>
      forall key | key in m.since
        ensures OpenDated(ticks + [tick], m, key)
      {
        OpensDate(ticks, s, current, now, key);
      }
      forall i | m.legacy <= i < |m.events| && m.events[i].cleared && m.openings[i].Some?
        ensures PairDated(ticks + [tick], m.events, i, m.openings[i].value)
      {
        PairsDate(ticks, s, current, now, i);
      }
    case Restart(kept) =>
      var n := Min(kept, |s.ledger.events|);
      forall i | m.legacy <= i < |m.events| && m.events[i].cleared && m.openings[i].Some?
        ensures PairDated(ticks + [tick], m.events, i, m.openings[i].value)
      {
        var o := s.ledger.openings[i].value;
        OpeningIsBefore(s.ledger, i);
        MoreTicks(ticks, tick, s.ledger.events, s.ledger.events, i, o);
        LessEvents(ticks + [tick], s.ledger.events, n, i, o);
      }
  }

  lemma OpeningIsBefore(l: Ledger, i: nat)
    requires Valid(l) && i < |l.events|
    ensures Level(l) && (l.openings[i].Some? ==> l.openings[i].value < i)
  {
    hide Replay;
  }

  lemma {:induction false} RunKeepsDated(past: seq<Tick>, s: State, ticks: seq<Tick>, t: State)
    requires Inv(s) && Dated(past, s.ledger) && s.alerts == Present(past) && Leads(s, ticks, t)
    ensures Dated(past + ticks, t.ledger) && t.alerts == Present(past + ticks)
    decreases |ticks|
  {
    hide Inv, Dated, Present, Next;
    if ticks == [] {
      assert past + ticks == past;
    } else {
      NextKeepsDated(past, s, ticks[0]);
      NextKeepsInv(s, ticks[0]);
      RunKeepsDated(past + [ticks[0]], Next(s, ticks[0]), ticks[1..], t);
      assert past + [ticks[0]] + ticks[1..] == past + ticks;
    }
  }

  lemma StartIsDated(loaded: seq<Event>)
    ensures Dated([], Start(loaded).ledger) && Start(loaded).alerts == Present([])
  {
  }

  lemma EverDated(loaded: seq<Event>, ticks: seq<Tick>, t: State)
    requires Leads(Start(loaded), ticks, t)
    ensures Dated(ticks, t.ledger) && t.alerts == Present(ticks)
  {
    hide Leads, Dated, Present, Start;
    StartIsDated(loaded);
    StartInv(loaded);
    RunKeepsDated([], Start(loaded), ticks, t);
    assert [] + ticks == ticks;
  }

  // ---- What is shown ----

  lemma CameThen(ticks: seq<Tick>, l: Ledger, key: string) returns (j: nat)
    requires Dated(ticks, l) && key in l.since
    ensures RaisedAt(ticks, key, j) && ticks[j].Refresh?
    ensures l.since[key] < |l.events| && ticks[j].now == l.events[l.since[key]].at
  {
    hide Keys, PairDated;
    assert OpenDated(ticks, l, key);
    j :| CameAt(ticks, key, j, l.events[l.since[key]].at);
  }

  lemma WentThen(ticks: seq<Tick>, l: Ledger, i: nat) returns (j: nat, e: nat)
    requires Dated(ticks, l) && l.legacy <= i < |l.events| && l.events[i].cleared && l.openings[i].Some?
    ensures Activation(ticks, l.events[i].key, j, e) && ticks[j].Refresh? && ticks[e].Refresh?
    ensures l.events[i].at == ticks[e].now
    ensures l.openings[i].value < |l.events| && ticks[j].now == l.events[l.openings[i].value].at
  {
    hide Keys, OpenDated;
    assert PairDated(ticks, l.events, i, l.openings[i].value);
    j, e :| Lived(ticks, l.events[i].key, j, e, l.events[l.openings[i].value].at, l.events[i].at);
  }

  /** An active alert is shown with the time since the evaluation that found it anew, or with none. */
  lemma ActiveShowsItsTime(loaded: seq<Event>, ticks: seq<Tick>, t: State, a: Alert, now: int) returns (j: nat)
    requires Leads(Start(loaded), ticks, t) && a in t.alerts
    ensures RaisedAt(ticks, a.key, j) && ticks[j].Refresh?
    ensures var shown, since := ActiveFor(t.log, a.key, now), now - ticks[j].now;
            shown == None || shown == Some(if since < 0 then 0 else since)
  {
    hide Leads, Start, RaisedAt, Dated, ActiveFor;
    EverDated(loaded, ticks, t);
    ActiveCountsFromOpening(loaded, ticks, t, a, now);
    j := CameThen(ticks, t.ledger, a.key);
  }

  /** A cleared alert is shown with the time from the evaluation that found it anew to the one that missed it. */
  lemma ClearedShowsItsTime(loaded: seq<Event>, ticks: seq<Tick>, t: State, p: nat) returns (j: nat, e: nat)
    requires Leads(Start(loaded), ticks, t)
    requires p < |t.log| && t.log[p].cleared && t.ledger.legacy <= |t.ledger.events| - |t.log| + p
    ensures Activation(ticks, t.log[p].key, j, e) && ticks[j].Refresh? && ticks[e].Refresh?
    ensures t.log[p].at == ticks[e].now
    ensures var shown, span := Lasted(t.log, p), ticks[e].now - ticks[j].now;
            shown == None || shown == Some(if span < 0 then 0 else span)
  {
    hide Leads, Start, Activation, Dated, Lasted, FindRaise;
    EverDated(loaded, ticks, t);
    ClearedPairsWithOpening(loaded, ticks, t, p);
    j, e := WentThen(ticks, t.ledger, |t.ledger.events| - |t.log| + p);
  }
}
