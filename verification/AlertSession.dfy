/** A run of the monitor: evaluate, log and draw, over and over, from the log an earlier run saved. */
module AlertSession {
  import opened Alerts
  import opened AlertLog
  import opened AlertHistory

  /** What one turn of the loop sees: the heads as polled and the time. */
  datatype Look = Look(heads: seq<Head>, now: int)

  /** What is on disk was the log after the first so many events. */
  ghost predicate SavedOnce(saved: seq<Event>, events: seq<Event>) {
    exists k :: 0 <= k <= |events| && Capped(saved) == Capped(events[..k])
  }

  ghost predicate Shows(s: State, alerts: seq<Alert>, log: seq<Event>) {
    Inv(s) && s.alerts == alerts && s.log == log
  }

  /** Evaluate the rules on the heads as they are, and log what changed. */
  method Turn(app: App, look: Look, cfg: Config, ghost s: State) returns (ghost tick: Tick)
    requires Shows(s, app.alerts, app.alertLog) && SavedOnce(app.saved, s.ledger.events) && DistinctNames(look.heads)
    modifies app
    ensures tick.Refresh? && Sound(tick.current)
    ensures Shows(Next(s, tick), app.alerts, app.alertLog) && SavedOnce(app.saved, Next(s, tick).ledger.events)
  {
    hide Inv, StablySorted, AllRaised, DistinctNames, Sound, Transitions, SavedOnce;
    var current := Compute(look.heads, cfg);
    tick := Refresh(current, look.now);
    EvaluationIsSound(look.heads, cfg, current);
    RefreshesAlike(s, app.alerts, app.alertLog, app.saved, current, look.now);
    ghost var events := app.RefreshAlerts(current, look.now);
  }

  lemma EvaluationIsSound(heads: seq<Head>, cfg: Config, current: seq<Alert>)
    requires DistinctNames(heads)
    requires StablySorted(AllRaised(heads, cfg), current)
    ensures Sound(current)
  {
    hide StablySorted, AllRaised, DistinctNames, DistinctKeys;
    AlertKeysAreUnique(heads, cfg, current);
    forall i | 0 <= i < |current|
      ensures current[i].key != ""
    {
      AlertsHaveHeads(heads, cfg, current, current[i]);
    }
  }

  lemma RefreshesAlike(s: State, alerts: seq<Alert>, log: seq<Event>, saved: seq<Event>, current: seq<Alert>, now: int)
    requires Shows(s, alerts, log) && SavedOnce(saved, s.ledger.events) && Sound(current)
    ensures Level(s.ledger)
    ensures Shows(Next(s, Refresh(current, now)), current, Capped(log + Transitions(alerts, current, now)))
    ensures SavedOnce(saved, Next(s, Refresh(current, now)).ledger.events)
    ensures SavedOnce(Capped(log + Transitions(alerts, current, now)), Next(s, Refresh(current, now)).ledger.events)
  {
    RefreshKeepsInv(s, current, now);
    InvMeans(s);
    hide Inv, Sound, Transitions, RecordAll, Capped;
    var events := Transitions(alerts, current, now);
    RecordAllAppends(s.ledger, events);
    CappedMore(s.ledger.events, events);
    SavedStays(saved, s.ledger.events, events);
    SavesAll(Capped(log + events), s.ledger.events + events);
  }

  lemma SavedStays(saved: seq<Event>, events: seq<Event>, more: seq<Event>)
    requires SavedOnce(saved, events)
    ensures SavedOnce(saved, events + more)
  {
    hide Capped;
    var k :| 0 <= k <= |events| && Capped(saved) == Capped(events[..k]);
    assert (events + more)[..k] == events[..k];
  }

  lemma SavesAll(saved: seq<Event>, events: seq<Event>)
    requires saved == Capped(events)
    ensures SavedOnce(saved, events)
  {
    hide Capped;
    CappedTwice(events);
    assert events[..|events|] == events;
  }

  lemma Reopens(s: State, loaded: seq<Event>) returns (kept: nat)
    requires Inv(s) && SavedOnce(loaded, s.ledger.events)
    ensures Level(s.ledger) && Shows(Next(s, Restart(kept)), [], Capped(loaded))
    ensures SavedOnce(loaded, Next(s, Restart(kept)).ledger.events)
  {
    kept :| 0 <= kept <= |s.ledger.events| && Capped(loaded) == Capped(s.ledger.events[..kept]);
    NextKeepsInv(s, Restart(kept));
    hide Inv, Capped;
    var events := s.ledger.events[..kept];
    assert events[..|events|] == events;
  }

  lemma SavesLog(t: State)
    requires Inv(t)
    ensures SavedOnce(t.log, t.ledger.events)
  {
    InvMeans(t);
    hide Capped, Inv;
    CappedTwice(t.ledger.events);
    assert t.ledger.events[..|t.ledger.events|] == t.ledger.events;
  }

  lemma CappedTwice(events: seq<Event>)
    ensures Capped(Capped(events)) == Capped(events)
  {
  }

  /** A session on top of whatever earlier ones recorded, with the log as some save of theirs left it. */
  method Session(loaded: seq<Event>, looks: seq<Look>, cfg: Config, ghost s: State)
    returns (app: App, lines: seq<Line>, ghost ticks: seq<Tick>, ghost t: State)
    requires Inv(s) && SavedOnce(loaded, s.ledger.events) && forall look :: look in looks ==> DistinctNames(look.heads)
    ensures |ticks| == |looks| + 1 && Leads(s, ticks, t) && Shows(t, app.alerts, app.alertLog)
    ensures SavedOnce(app.saved, t.ledger.events)
    ensures looks != [] ==> Drawn(lines, app.alertLog)
  {
    hide Inv, SavedOnce, DistinctNames, Leads, Next, Level, Drawn;
    ghost var kept := Reopens(s, loaded);
    InvMeans(s);
    app := new App(loaded);
    lines, ticks := [], [Restart(kept)];
    t := Next(s, ticks[0]);
    LeadsOne(s, ticks[0]);
    for i := 0 to |looks|
      invariant |ticks| == i + 1 && Leads(s, ticks, t) && Shows(t, app.alerts, app.alertLog)
      invariant SavedOnce(app.saved, t.ledger.events)
      invariant i > 0 ==> Drawn(lines, app.alertLog)
    {
      ghost var tick := Turn(app, looks[i], cfg, t);
      InvMeans(t);
      LeadsMore(s, ticks, t, tick);
      t := Next(t, tick);
      ticks := ticks + [tick];
      lines := DrawAlertLog(app.alertLog);
    }
    if * {
      app.saved := app.alertLog;
      SavesLog(t);
    }
  }
}
