/** Everything the alert log ever recorded, against which the capped log and its readers are judged. */
module AlertHistory {
  import opened Numbers
  import opened Outcomes
  import opened Alerts
  import opened AlertLog

  /**
   All events in order, the session of each, and for every cleared event the raise that opened the
   very activation it ended. `since` says for each active alert which raise opened it. The first
   `legacy` events were loaded from a file whose past is unknown.
   */
  datatype Ledger = Ledger(events: seq<Event>, sessions: seq<nat>, openings: seq<Option<nat>>,
                           since: map<string, nat>, start: nat, session: nat, legacy: nat)

  function Record(l: Ledger, e: Event): Ledger {
    var longer := l.(events := l.events + [e], sessions := l.sessions + [l.session]);
    if e.cleared then
      longer.(openings := l.openings + [if e.key in l.since then Some(l.since[e.key]) else None],
              since := l.since - {e.key})
    else
      longer.(openings := l.openings + [None], since := l.since[e.key := |l.events|])
  }

  function RecordAll(l: Ledger, events: seq<Event>): Ledger {
    if events == [] then l else Record(RecordAll(l, events[..|events| - 1]), events[|events| - 1])
  }

  /** The keys that are active after these events, if a key is only raised when it is not and only
      cleared when it is. */
  function Replay(events: seq<Event>): Option<set<string>> {
    if events == [] then Some({})
    else
      var e := events[|events| - 1];
      match Replay(events[..|events| - 1])
      case None => None
      case Some(active) =>
        if e.cleared != (e.key in active) then None
        else Some(if e.cleared then active - {e.key} else active + {e.key})
  }

  /** The `o`th event raised this alert, and none between it and the `i`th did. */
  ghost predicate Opens(events: seq<Event>, o: nat, i: nat, ident: string) {
    && o < i <= |events| && IsRaise(events[o], ident)
    && forall j :: o < j < i ==> !IsRaise(events[j], ident)
  }

  predicate Level(l: Ledger) {
    |l.sessions| == |l.openings| == |l.events|
  }

  ghost predicate Shaped(l: Ledger) {
    && Level(l) && l.start <= |l.events| && l.legacy <= |l.events|
    && (forall i :: l.start <= i < |l.events| ==> l.sessions[i] == l.session)
    && (forall i :: 0 <= i < |l.events| ==> l.sessions[i] <= l.session)
  }

  /** Active alerts were opened in this session, by the newest raise of their key. */
  ghost predicate SinceHolds(l: Ledger) {
    forall k :: k in l.since ==> k != "" && l.start <= l.since[k] && Opens(l.events, l.since[k], |l.events|, k)
  }

  /** A cleared event was opened in its own session, by the nearest raise before it. */
  ghost predicate OpenedHolds(l: Ledger)
    requires Shaped(l)
  {
    forall i :: 0 <= i < |l.events| ==>
      && (l.openings[i].Some? ==>
            Opens(l.events, l.openings[i].value, i, l.events[i].Ident())
            && l.sessions[l.openings[i].value] == l.sessions[i])
      && (l.legacy <= i && l.events[i].cleared ==> l.openings[i].Some?)
  }

  ghost predicate Valid(l: Ledger) {
    Shaped(l) && SinceHolds(l) && OpenedHolds(l) && Replay(l.events[l.start..]) == Some(l.since.Keys)
  }

  lemma OpensLonger(events: seq<Event>, e: Event, o: nat, i: nat, ident: string)
    requires Opens(events, o, i, ident)
    ensures Opens(events + [e], o, i, ident)
    ensures i == |events| && !IsRaise(e, ident) ==> Opens(events + [e], o, i + 1, ident)
  {
    assert forall j :: 0 <= j < |events| ==> (events + [e])[j] == events[j];
  }

  lemma RecordKeepsValid(l: Ledger, e: Event)
    requires Valid(l) && e.key != "" && (e.cleared <==> e.key in l.since)
    ensures Valid(Record(l, e))
    ensures Record(l, e).since.Keys == if e.cleared then l.since.Keys - {e.key} else l.since.Keys + {e.key}
  {
    hide SinceHolds, OpenedHolds, Replay;
    var m := Record(l, e);
    RecordKeepsSince(l, e);
    RecordKeepsOpened(l, e);
    assert m.events[l.start..] == l.events[l.start..] + [e];
    ReplayMore(l.events[l.start..], e);
    RecordMovesSince(l, e);
  }

  lemma ReplayMore(events: seq<Event>, e: Event)
    requires Replay(events).Some? && (e.cleared <==> e.key in Replay(events).value)
    ensures Replay(events + [e]) ==
            Some(if e.cleared then Replay(events).value - {e.key} else Replay(events).value + {e.key})
  {
    assert (events + [e])[..|events|] == events;
  }

  lemma RecordMovesSince(l: Ledger, e: Event)
    ensures Record(l, e).since.Keys == if e.cleared then l.since.Keys - {e.key} else l.since.Keys + {e.key}
  {
  }

  lemma RecordKeepsSince(l: Ledger, e: Event)
    requires Shaped(l) && SinceHolds(l) && e.key != ""
    ensures SinceHolds(Record(l, e))
  {
    var m := Record(l, e);
    forall k | k in m.since
      ensures k != "" && l.start <= m.since[k] && Opens(m.events, m.since[k], |m.events|, k)
    {
      if k != e.key {
        OpensLonger(l.events, e, l.since[k], |l.events|, k);
      }
    }
  }

  lemma RecordKeepsOpened(l: Ledger, e: Event)
    requires Shaped(l) && SinceHolds(l) && OpenedHolds(l) && e.key != "" && (e.cleared ==> e.key in l.since)
    ensures Shaped(Record(l, e)) && OpenedHolds(Record(l, e))
  {
    var m := Record(l, e);
    forall i | 0 <= i < |m.events|
      ensures m.openings[i].Some? ==>
                Opens(m.events, m.openings[i].value, i, m.events[i].Ident())
                && m.sessions[m.openings[i].value] == m.sessions[i]
      ensures m.legacy <= i && m.events[i].cleared ==> m.openings[i].Some?
    {
      if i < |l.events| {
        if l.openings[i].Some? {
          OpensLonger(l.events, e, l.openings[i].value, i, l.events[i].Ident());
        }
      } else if e.cleared {
        OpensLonger(l.events, e, l.since[e.key], i, e.key);
      }
    }
  }

  // ---- From tick to tick ----

  /**
   What happens to the log: an evaluation of the rules, or a new run of the program, which starts
   with no alert and loads what some earlier save had kept.
   */
  datatype Tick = Refresh(current: seq<Alert>, now: int) | Restart(kept: nat)

  datatype State = State(alerts: seq<Alert>, log: seq<Event>, ledger: Ledger)

  /** The ledger of events that were loaded, of whose past nothing is known. */
  function Unknown(loaded: seq<Event>): (l: Ledger)
    ensures Level(l)
  {
    Ledger(loaded, seq(|loaded|, i => 0), seq(|loaded|, i => None), map[], 0, 0, |loaded|)
  }

  function Start(loaded: seq<Event>): State {
    State([], Capped(loaded), Reopened(Unknown(loaded), |loaded|))
  }

  /** The ledger as a new session finds it when everything after the first `kept` events was never saved. */
  function Reopened(l: Ledger, kept: nat): Ledger
    requires Level(l) && kept <= |l.events|
  {
    Ledger(l.events[..kept], l.sessions[..kept], l.openings[..kept], map[], kept, l.session + 1,
           Min(l.legacy, kept))
  }

  function Next(s: State, tick: Tick): State
    requires Level(s.ledger)
  {
    match tick
    case Refresh(current, now) =>
      var events := Transitions(s.alerts, current, now);
      State(current, Capped(s.log + events), RecordAll(s.ledger, events))
    case Restart(kept) =>
      var ledger := Reopened(s.ledger, Min(kept, |s.ledger.events|));
      State([], Capped(ledger.events), ledger)
  }

  /** Alerts as the rules emit them for heads with different names. */
  predicate Sound(alerts: seq<Alert>) {
    DistinctKeys(alerts) && forall i :: 0 <= i < |alerts| ==> alerts[i].key != ""
  }

  ghost predicate Inv(s: State) {
    && Valid(s.ledger) && Sound(s.alerts)
    && s.ledger.since.Keys == Keys(s.alerts)
    && s.log == Capped(s.ledger.events)
  }

  lemma CappedMore(log: seq<Event>, more: seq<Event>)
    ensures Capped(Capped(log) + more) == Capped(log + more)
  {
  }

  lemma {:induction false} RecordAllAppends(l: Ledger, events: seq<Event>)
    ensures RecordAll(l, events).events == l.events + events
    decreases |events|
  {
    if events == [] {
      assert l.events + [] == l.events;
    } else {
      RecordAllAppends(l, events[..|events| - 1]);
      assert events == events[..|events| - 1] + [events[|events| - 1]];
    }
  }

  lemma RecordAllMore(l: Ledger, events: seq<Event>, e: Event)
    ensures RecordAll(l, events + [e]) == Record(RecordAll(l, events), e)
  {
    assert (events + [e])[..|events|] == events;
  }

  /** Raising the alerts that are new makes their keys active. */
  lemma {:induction false} RaisesRecord(l: Ledger, current: seq<Alert>, now: int)
    requires Valid(l) && Sound(current)
    ensures Valid(RecordAll(l, Absent(current, l.since.Keys, now, false)))
    ensures RecordAll(l, Absent(current, l.since.Keys, now, false)).since.Keys == l.since.Keys + Keys(current)
    decreases |current|
  {
    hide Valid, Record, RecordAll, Absent, Sound, Keys;
    if current == [] {
      NothingAbsent(l, l.since.Keys, now, false);
    } else {
      var init, last := current[..|current| - 1], current[|current| - 1];
      SoundKeys(current);
      RaisesRecord(l, init, now);
      AbsentMore(current, l.since.Keys, now, false);
      if last.key !in l.since.Keys {
        var before, e := Absent(init, l.since.Keys, now, false), Transition(last, now, false);
        RecordAllMore(l, before, e);
        RecordKeepsValid(RecordAll(l, before), e);
      }
    }
  }

  lemma NothingAbsent(l: Ledger, keys: set<string>, now: int, cleared: bool)
    ensures RecordAll(l, Absent([], keys, now, cleared)) == l
    ensures Keys([]) == {}
  {
  }

  lemma AbsentMore(alerts: seq<Alert>, keys: set<string>, now: int, cleared: bool)
    requires alerts != []
    ensures var init, last := alerts[..|alerts| - 1], alerts[|alerts| - 1];
            Absent(alerts, keys, now, cleared) ==
            if last.key in keys then Absent(init, keys, now, cleared)
            else Absent(init, keys, now, cleared) + [Transition(last, now, cleared)]
  {
  }

  lemma SoundKeys(alerts: seq<Alert>)
    requires Sound(alerts) && alerts != []
    ensures var init, last := alerts[..|alerts| - 1], alerts[|alerts| - 1];
            && Sound(init) && last.key != "" && last.key !in Keys(init)
            && Keys(alerts) == Keys(init) + {last.key}
  {
    assert alerts == alerts[..|alerts| - 1] + [alerts[|alerts| - 1]];
  }

  /** Clearing what is gone leaves exactly the other keys active. */
  lemma {:induction false} ClearsRecord(l: Ledger, before: seq<Alert>, keys: set<string>, now: int)
    requires Valid(l) && Sound(before) && Keys(before) <= l.since.Keys
    ensures Valid(RecordAll(l, Absent(before, keys, now, true)))
    ensures RecordAll(l, Absent(before, keys, now, true)).since.Keys == l.since.Keys - (Keys(before) - keys)
    decreases |before|
  {
    hide Valid, Record, RecordAll, Absent, Sound, Keys;
    if before == [] {
      NothingAbsent(l, keys, now, true);
    } else {
      var init, last := before[..|before| - 1], before[|before| - 1];
      SoundKeys(before);
      ClearsRecord(l, init, keys, now);
      AbsentMore(before, keys, now, true);
      if last.key !in keys {
        var earlier, e := Absent(init, keys, now, true), Transition(last, now, true);
        RecordAllMore(l, earlier, e);
        RecordKeepsValid(RecordAll(l, earlier), e);
      }
    }
  }

  lemma {:induction false} RecordAllConcat(l: Ledger, a: seq<Event>, b: seq<Event>)
    ensures RecordAll(l, a + b) == RecordAll(RecordAll(l, a), b)
    decreases |b|
  {
    if b == [] {
      assert a + b == a;
    } else {
      assert (a + b)[..|a + b| - 1] == a + b[..|b| - 1];
      RecordAllConcat(l, a, b[..|b| - 1]);
    }
  }

  lemma RefreshKeepsInv(s: State, current: seq<Alert>, now: int)
    requires Inv(s) && Sound(current)
    ensures Inv(Next(s, Refresh(current, now)))
  {
    hide Valid, Record, RecordAll, Capped, Sound, Absent;
    var raises := Absent(current, Keys(s.alerts), now, false);
    var clears := Absent(s.alerts, Keys(current), now, true);
    RaisesRecord(s.ledger, current, now);
    var raised := RecordAll(s.ledger, raises);
    ClearsRecord(raised, s.alerts, Keys(current), now);
    RecordAllConcat(s.ledger, raises, clears);
    RecordAllAppends(s.ledger, raises + clears);
    CappedMore(s.ledger.events, raises + clears);
  }

  lemma ReopenedIsValid(l: Ledger, kept: nat)
    requires kept <= |l.events| && Shaped(l) && OpenedHolds(l)
    ensures Valid(Reopened(l, kept))
  {
    var m := Reopened(l, kept);
    forall i | 0 <= i < kept
      ensures m.openings[i].Some? ==>
                Opens(m.events, m.openings[i].value, i, m.events[i].Ident())
                && m.sessions[m.openings[i].value] == m.sessions[i]
      ensures m.legacy <= i && m.events[i].cleared ==> m.openings[i].Some?
    {
      assert m.events[i] == l.events[i] && m.openings[i] == l.openings[i];
    }
    assert m.events[m.start..] == [] && m.since.Keys == {};
  }

  lemma NextKeepsInv(s: State, tick: Tick)
    requires Inv(s) && (tick.Refresh? ==> Sound(tick.current))
    ensures Inv(Next(s, tick))
  {
    match tick
    case Refresh(current, now) => RefreshKeepsInv(s, current, now);
    case Restart(kept) => ReopenedIsValid(s.ledger, Min(kept, |s.ledger.events|));
  }

  lemma StartInv(loaded: seq<Event>)
    ensures Inv(Start(loaded))
  {
    ReopenedIsValid(Unknown(loaded), |loaded|);
  }

  /** `t` is where these ticks lead. */
  ghost predicate Leads(s: State, ticks: seq<Tick>, t: State)
    decreases |ticks|
  {
    if ticks == [] then s == t
    else
      && Level(s.ledger)
      && (ticks[0].Refresh? ==> Sound(ticks[0].current))
      && Leads(Next(s, ticks[0]), ticks[1..], t)
  }

  lemma LeadsOne(s: State, tick: Tick)
    requires Level(s.ledger) && (tick.Refresh? ==> Sound(tick.current))
    ensures Leads(s, [tick], Next(s, tick))
  {
    assert [tick][1..] == [];
  }

  lemma {:induction false} LeadsMore(s: State, ticks: seq<Tick>, t: State, tick: Tick)
    requires Leads(s, ticks, t) && Level(t.ledger) && (tick.Refresh? ==> Sound(tick.current))
    ensures Leads(s, ticks + [tick], Next(t, tick))
    decreases |ticks|
  {
    if ticks == [] {
      assert [] + [tick] == [tick];
      LeadsOne(s, tick);
    } else {
      assert (ticks + [tick])[1..] == ticks[1..] + [tick];
      LeadsMore(Next(s, ticks[0]), ticks[1..], t, tick);
    }
  }

  lemma {:induction false} RunKeepsInv(s: State, ticks: seq<Tick>, t: State)
    requires Inv(s) && Leads(s, ticks, t)
    ensures Inv(t)
    decreases |ticks|
  {
    if ticks != [] {
      NextKeepsInv(s, ticks[0]);
      RunKeepsInv(Next(s, ticks[0]), ticks[1..], t);
    }
  }

  // ---- What the readers may rely on ----

  lemma {:induction false} OpeningIsFound(events: seq<Event>, o: nat, i: nat, ident: string)
    requires Opens(events, o, i, ident)
    ensures FindRaise(events, i, ident) == Some(o)
    decreases i
  {
    if i - 1 != o {
      OpeningIsFound(events, o, i - 1, ident);
    }
  }

  /** Looking in a log that lost its first events finds the same raise, unless that is among the lost. */
  lemma {:induction false} FindAfterCut(events: seq<Event>, cut: nat, i: nat, ident: string)
    requires cut <= i <= |events|
    ensures FindRaise(events[cut..], i - cut, ident) ==
            match FindRaise(events, i, ident)
            case Some(o) => if cut <= o then Some(o - cut) else None
            case None => None
    decreases i
  {
    if i > cut {
      assert events[cut..][i - cut - 1] == events[i - 1];
      FindAfterCut(events, cut, i - 1, ident);
    }
  }

  lemma InvMeans(s: State)
    requires Inv(s)
    ensures Level(s.ledger) && Valid(s.ledger) && s.log == Capped(s.ledger.events)
            && s.ledger.since.Keys == Keys(s.alerts)
  {
  }

  lemma KeyIsThere(alerts: seq<Alert>, a: Alert)
    requires a in alerts
    ensures a.key in Keys(alerts)
  {
  }

  lemma ClearedWasOpened(l: Ledger, i: nat)
    requires Valid(l) && l.legacy <= i < |l.events| && l.events[i].cleared
    ensures Level(l) && l.openings[i].Some? && l.openings[i].value < i
    ensures Opens(l.events, l.openings[i].value, i, l.events[i].Ident())
    ensures l.sessions[l.openings[i].value] == l.sessions[i]
  {
    hide Replay;
  }

  lemma ActiveWasOpened(l: Ledger, key: string)
    requires Valid(l) && key in l.since
    ensures Level(l) && l.start <= l.since[key] < |l.events| && Opens(l.events, l.since[key], |l.events|, key)
  {
    hide Replay;
  }

  lemma CappedIsSuffix(events: seq<Event>)
    ensures |Capped(events)| <= |events|
    ensures Capped(events) == events[|events| - |Capped(events)|..]
  {
    hide Capped;
    CappedIsNewest(events);
  }

  /**
   After any evaluations and restarts, a cleared event that this program logged pairs with the raise
   that opened the very activation it ended, in its own session; or with nothing, if that raise was
   evicted.
   */
  lemma ClearedPairsWithOpening(loaded: seq<Event>, ticks: seq<Tick>, t: State, p: nat)
    requires Leads(Start(loaded), ticks, t)
    requires p < |t.log| && t.log[p].cleared && t.ledger.legacy <= |t.ledger.events| - |t.log| + p
    ensures var cut := |t.ledger.events| - |t.log|;
            && |t.ledger.openings| == |t.ledger.sessions| == |t.ledger.events| && t.log[p] == t.ledger.events[cut + p]
            && t.ledger.openings[cut + p].Some?
            && var o := t.ledger.openings[cut + p].value;
               && o < cut + p && t.ledger.sessions[o] == t.ledger.sessions[cut + p]
               && FindRaise(t.log, p, t.log[p].Ident()) == (if cut <= o then Some(o - cut) else None)
               && Lasted(t.log, p) ==
                  if cut > o then None
                  else if t.log[p].at < t.ledger.events[o].at then Some(0)
                  else Some(t.log[p].at - t.ledger.events[o].at)
  {
    hide Leads, Inv, Valid, Capped, Opens, FindRaise, Start;
    StartInv(loaded);
    RunKeepsInv(Start(loaded), ticks, t);
    InvMeans(t);
    CappedIsSuffix(t.ledger.events);
    var cut := |t.ledger.events| - |t.log|;
    ClearedWasOpened(t.ledger, cut + p);
    FindInLog(t.ledger.events, t.log, t.ledger.openings[cut + p].value, cut + p, t.log[p].Ident());
  }

  /** Where the capped log finds what the full one has. */
  lemma FindInLog(events: seq<Event>, log: seq<Event>, o: nat, i: nat, ident: string)
    requires |log| <= |events| && log == events[|events| - |log|..]
    requires |events| - |log| <= i <= |events| && Opens(events, o, i, ident)
    ensures var cut := |events| - |log|; FindRaise(log, i - cut, ident) == if cut <= o then Some(o - cut) else None
  {
    hide Opens, FindRaise;
    OpeningIsFound(events, o, i, ident);
    FindAfterCut(events, |events| - |log|, i, ident);
  }

  /** The time shown for an active alert is counted from the raise that opened its activation, or not shown. */
  lemma ActiveCountsFromOpening(loaded: seq<Event>, ticks: seq<Tick>, t: State, a: Alert, now: int)
    requires Leads(Start(loaded), ticks, t) && a in t.alerts
    ensures a.key in t.ledger.since && t.ledger.since[a.key] < |t.ledger.events|
    ensures t.ledger.start <= t.ledger.since[a.key]
    ensures ActiveFor(t.log, a.key, now) ==
            if |t.ledger.events| - |t.log| > t.ledger.since[a.key] then None
            else if now < t.ledger.events[t.ledger.since[a.key]].at then Some(0)
            else Some(now - t.ledger.events[t.ledger.since[a.key]].at)
  {
    hide Leads, Inv, Valid, Capped, Opens, FindRaise, Keys, Start;
    StartInv(loaded);
    RunKeepsInv(Start(loaded), ticks, t);
    InvMeans(t);
    CappedIsSuffix(t.ledger.events);
    KeyIsThere(t.alerts, a);
    ActiveWasOpened(t.ledger, a.key);
    FindInLog(t.ledger.events, t.log, t.ledger.since[a.key], |t.ledger.events|, a.key);
    ShownFrom(t.ledger.events, t.log, t.ledger.since[a.key], a.key, now);
  }

  lemma ShownFrom(events: seq<Event>, log: seq<Event>, o: nat, key: string, now: int)
    requires |log| <= |events| && log == events[|events| - |log|..] && o < |events|
    requires FindRaise(log, |log|, key) == if |events| - |log| <= o then Some(o - (|events| - |log|)) else None
    ensures ActiveFor(log, key, now) == if |events| - |log| <= o then Some(AtLeastZero(now - events[o].at)) else None
  {
    hide FindRaise;
  }

  /**
   Within a session the events replay to the alerts there are now, and the stored log is the newest
   events of everything loaded and logged.
   */
  lemma HistoryReplays(loaded: seq<Event>, ticks: seq<Tick>, t: State)
    requires Leads(Start(loaded), ticks, t)
    ensures t.ledger.start <= |t.ledger.events|
    ensures Replay(t.ledger.events[t.ledger.start..]) == Some(Keys(t.alerts))
    ensures t.log == Capped(t.ledger.events)
  {
    StartInv(loaded);
    RunKeepsInv(Start(loaded), ticks, t);
  }

  /** The transitions of one key, in order. */
  function Of(events: seq<Event>, key: string): seq<bool> {
    if events == [] then []
    else
      var e := events[|events| - 1];
      Of(events[..|events| - 1], key) + if e.key == key then [e.cleared] else []
  }

  /** Events that replay alternate, for each key, between raised and cleared, raised first. */
  lemma {:induction false} ReplayAlternates(events: seq<Event>, key: string)
    requires Replay(events).Some?
    ensures forall i :: 0 <= i < |Of(events, key)| ==> (Of(events, key)[i] <==> i % 2 == 1)
    ensures key in Replay(events).value <==> |Of(events, key)| % 2 == 1
    decreases |events|
  {
    if events != [] {
      ReplayAlternates(events[..|events| - 1], key);
    }
  }
}
