/** Alert rules: which conditions of the polled heads call for an operator, the critical ones first. */
module Alerts {
  import opened Decimals
  import opened Outcomes

  datatype Alert = Alert(key: string, crit: bool, text: string)

  datatype Stats = Stats(stacks: nat, hardAge: int, headroom: int, rejected: nat)

  /** A head as last polled. Times are in seconds: since backpressure was seen, until the fallback deadline. */
  datatype Head = Head(name: string, reachable: Option<bool>, ready: Option<string>, stats: Option<Stats>,
                       maxHeadroom: int, backpressureAge: Option<nat>, secondsLeft: Option<int>)

  datatype Config = Config(hardConfirmWarn: int, hardConfirmCrit: int, fallbackWarn: int, fallbackCrit: int)

  datatype Condition = Unreachable | Status | HardConfirm | Headroom | Backpressure | Fallback {

    function Name(): string {
      match this
      case Unreachable => "unreachable"
      case Status => "status"
      case HardConfirm => "hard-confirm"
      case Headroom => "headroom"
      case Backpressure => "backpressure"
      case Fallback => "fallback"
    }
  }

  /** Every condition there is, in the order in which a head's alerts appear. */
  const CONDITIONS := [Unreachable, Status, HardConfirm, Headroom, Backpressure, Fallback]

  function Key(head: string, condition: Condition): string {
    head + ":" + condition.Name()
  }

  // ---- The rules ----

  /** Critical from one threshold on, a warning from another. */
  function Graded(crit: bool, warn: bool): Option<bool> {
    if crit then Some(true) else if warn then Some(false) else None
  }

  /** Whether a head raises a condition and, if so, whether it is critical. */
  function Severity(h: Head, cfg: Config, condition: Condition): Option<bool> {
    if h.reachable.None? then None
    else if !h.reachable.value then Graded(condition.Unreachable?, false)
    else
      match condition
      case Unreachable => None
      case Status => Graded(h.ready.Some? && h.ready.value != "active", false)
      case HardConfirm =>
        if h.stats.Some? && (h.stats.value.stacks > 0 || h.stats.value.hardAge > 0)
        then Graded(h.stats.value.hardAge >= cfg.hardConfirmCrit, h.stats.value.hardAge >= cfg.hardConfirmWarn)
        else None
      case Headroom =>
        if h.stats.Some? && h.maxHeadroom > 0
        then Graded(Ratio(h.stats.value.headroom, h.maxHeadroom) < 0.02,
                    Ratio(h.stats.value.headroom, h.maxHeadroom) < 0.10)
        else None
      case Backpressure => Graded(false, h.stats.Some? && h.backpressureAge.Some? && h.backpressureAge.value < 60)
      case Fallback =>
        if h.secondsLeft.Some?
        then Graded(h.secondsLeft.value <= cfg.fallbackCrit, h.secondsLeft.value <= cfg.fallbackWarn)
        else None
  }

  function Ratio(part: int, whole: int): real
    requires whole > 0
  {
    part as real / whole as real
  }

  /** Two digits. */
  function Padded(n: nat): string
    requires n < 100
  {
    if n < 10 then "0" + Decimal(n) else Decimal(n)
  }

  /** A span of time in its two leading units. */
  function FormatSeconds(s: int): string {
    if s < 0 then "now"
    else if s / 3600 > 0 then Decimal(s / 3600) + "h" + Padded(s % 3600 / 60) + "m"
    else if s % 3600 / 60 > 0 then Decimal(s % 3600 / 60) + "m" + Padded(s % 60) + "s"
    else Decimal(s % 60) + "s"
  }

  function StatsOf(h: Head): Stats {
    if h.stats.Some? then h.stats.value else Stats(0, 0, 0, 0)
  }

  /** What an alert says. It may carry live counters, so it does not identify the alert. */
  function Text(h: Head, condition: Condition, crit: bool): string {
    match condition
    case Unreachable => h.name + ": unreachable"
    case Status => h.name + ": status " + if h.ready.Some? then h.ready.value else ""
    case HardConfirm => h.name + ": no hard confirmation for " + Signed(StatsOf(h).hardAge) + "s"
    case Headroom =>
      if crit then h.name + ": sequencer headroom exhausted (" + Signed(StatsOf(h).headroom) + ")"
      else h.name + ": sequencer headroom low (" + Signed(StatsOf(h).headroom) + " of " + Signed(h.maxHeadroom) + ")"
    case Backpressure =>
      h.name + ": backpressure rejections in the last minute (total " + Decimal(StatsOf(h).rejected) + ")"
    case Fallback =>
      h.name + ": fallback tx window opens in " + FormatSeconds(if h.secondsLeft.Some? then h.secondsLeft.value else 0)
      + if crit then " \U{2014} head at risk of closing" else ""
  }

  /** The alert of one condition, if the head raises it. */
  function AlertOf(h: Head, cfg: Config, c: Condition): seq<Alert> {
    match Severity(h, cfg, c)
    case Some(crit) => [Alert(Key(h.name, c), crit, Text(h, c, crit))]
    case None => []
  }

  /** The alerts a head raises, in the order of the conditions. */
  function Raised(h: Head, cfg: Config, conditions: seq<Condition>): seq<Alert> {
    if conditions == [] then []
    else Raised(h, cfg, conditions[..|conditions| - 1]) + AlertOf(h, cfg, conditions[|conditions| - 1])
  }

  function AllRaised(heads: seq<Head>, cfg: Config): seq<Alert> {
    if heads == [] then []
    else AllRaised(heads[..|heads| - 1], cfg) + Raised(heads[|heads| - 1], cfg, CONDITIONS)
  }

  // ---- Sorting by criticality ----

  function OfKind(alerts: seq<Alert>, crit: bool): seq<Alert> {
    if alerts == [] then []
    else
      var last := alerts[|alerts| - 1];
      OfKind(alerts[..|alerts| - 1], crit) + if last.crit == crit then [last] else []
  }

  predicate AllOfKind(alerts: seq<Alert>, crit: bool) {
    forall i :: 0 <= i < |alerts| ==> alerts[i].crit == crit
  }

  lemma {:induction false} KindIsKept(alerts: seq<Alert>, crit: bool)
    ensures AllOfKind(OfKind(alerts, crit), crit)
    decreases |alerts|
  {
    if alerts != [] {
      KindIsKept(alerts[..|alerts| - 1], crit);
    }
  }

  /** A stable sort by a key: smaller keys first, and within a key the order as it was. */
  ghost predicate StablySorted(from: seq<Alert>, to: seq<Alert>) {
    && (forall i, j :: 0 <= i < j < |to| && to[j].crit ==> to[i].crit)
    && OfKind(to, true) == OfKind(from, true) && OfKind(to, false) == OfKind(from, false)
  }

  function CriticalFirst(alerts: seq<Alert>): (sorted: seq<Alert>)
    ensures StablySorted(alerts, sorted)
  {
    var crits, warns := OfKind(alerts, true), OfKind(alerts, false);
    KindIsKept(alerts, true);
    KindIsKept(alerts, false);
    OfKindConcat(crits, warns, true);
    OfKindConcat(crits, warns, false);
    OwnKind(crits, true);
    OtherKind(crits, false);
    OwnKind(warns, false);
    OtherKind(warns, true);
    crits + warns
  }

  lemma {:induction false} OfKindConcat(a: seq<Alert>, b: seq<Alert>, crit: bool)
    ensures OfKind(a + b, crit) == OfKind(a, crit) + OfKind(b, crit)
    decreases |b|
  {
    if b == [] {
      assert a + b == a;
    } else {
      assert (a + b)[..|a + b| - 1] == a + b[..|b| - 1];
      OfKindConcat(a, b[..|b| - 1], crit);
    }
  }

  lemma {:induction false} OwnKind(alerts: seq<Alert>, crit: bool)
    requires AllOfKind(alerts, crit)
    ensures OfKind(alerts, crit) == alerts
    decreases |alerts|
  {
    hide OfKind;
    if alerts == [] {
      NothingOfKind(crit);
    } else {
      var init, last := alerts[..|alerts| - 1], alerts[|alerts| - 1];
      assert alerts == init + [last];
      OwnKind(init, crit);
      KindMore(init, last, crit);
    }
  }

  lemma NothingOfKind(crit: bool)
    ensures OfKind([], crit) == []
  {
  }

  lemma {:induction false} OtherKind(alerts: seq<Alert>, crit: bool)
    requires AllOfKind(alerts, !crit)
    ensures OfKind(alerts, crit) == []
    decreases |alerts|
  {
    hide OfKind;
    if alerts == [] {
      NothingOfKind(crit);
    } else {
      var init, last := alerts[..|alerts| - 1], alerts[|alerts| - 1];
      assert alerts == init + [last];
      OtherKind(init, crit);
      KindMore(init, last, crit);
    }
  }

  /** There is only one stable sort. */
  lemma StableSortIsUnique(from: seq<Alert>, to: seq<Alert>)
    requires StablySorted(from, to)
    ensures to == CriticalFirst(from)
  {
    SortedSplits(to);
  }

  lemma KindMore(init: seq<Alert>, last: Alert, crit: bool)
    ensures OfKind(init + [last], crit) == OfKind(init, crit) + if last.crit == crit then [last] else []
  {
    assert (init + [last])[..|init|] == init;
  }

  lemma {:induction false} SortedSplits(to: seq<Alert>)
    requires forall i, j :: 0 <= i < j < |to| && to[j].crit ==> to[i].crit
    ensures to == OfKind(to, true) + OfKind(to, false)
    decreases |to|
  {
    hide OfKind;
    if to == [] || to[|to| - 1].crit {
      OwnKind(to, true);
      OtherKind(to, false);
    } else {
      var init, last := to[..|to| - 1], to[|to| - 1];
      assert to == init + [last];
      SortedSplits(init);
      KindMore(init, last, true);
      KindMore(init, last, false);
    }
  }

  // ---- The evaluation ----

  lemma RaisedMore(h: Head, cfg: Config, conditions: seq<Condition>, c: Condition)
    ensures Raised(h, cfg, conditions + [c]) == Raised(h, cfg, conditions) + AlertOf(h, cfg, c)
  {
    assert (conditions + [c])[..|conditions|] == conditions;
  }

  lemma RaisedInTurn(h: Head, cfg: Config)
    ensures Raised(h, cfg, CONDITIONS) ==
            AlertOf(h, cfg, Unreachable) + AlertOf(h, cfg, Status) + StatsAlerts(h, cfg) + AlertOf(h, cfg, Fallback)
  {
    RaisedNothing(h, cfg);
    hide AlertOf, Raised;
    var none: seq<Condition> := [];
    RaisedMore(h, cfg, none, Unreachable);
    RaisedMore(h, cfg, none + [Unreachable], Status);
    RaisedMore(h, cfg, none + [Unreachable] + [Status], HardConfirm);
    RaisedMore(h, cfg, none + [Unreachable] + [Status] + [HardConfirm], Headroom);
    RaisedMore(h, cfg, none + [Unreachable] + [Status] + [HardConfirm] + [Headroom], Backpressure);
    RaisedMore(h, cfg, none + [Unreachable] + [Status] + [HardConfirm] + [Headroom] + [Backpressure], Fallback);
    assert CONDITIONS == none + [Unreachable] + [Status] + [HardConfirm] + [Headroom] + [Backpressure] + [Fallback];
  }

  lemma RaisedNothing(h: Head, cfg: Config)
    ensures Raised(h, cfg, []) == []
  {
  }

  function StatsAlerts(h: Head, cfg: Config): seq<Alert> {
    AlertOf(h, cfg, HardConfirm) + AlertOf(h, cfg, Headroom) + AlertOf(h, cfg, Backpressure)
  }

  /** Add the alerts of one reachable head. */
  method AddAlerts(h: Head, cfg: Config, before: seq<Alert>) returns (out: seq<Alert>)
    requires h.reachable.Some? && h.reachable.value
    ensures out == before + Raised(h, cfg, CONDITIONS)
  {
    hide Key, Raised, StatsAlerts, Severity, Text, AlertOf;
    RaisedInTurn(h, cfg);
    ReachableAlerts(h, cfg);
    out := before;
    assert before + [] == before;
    if h.ready.Some? && h.ready.value != "active" {
      out := out + [Alert(Key(h.name, Status), true, h.name + ": status " + h.ready.value)];
    }
    assert out == before + AlertOf(h, cfg, Status);
    out := AddStatsAlerts(h, cfg, out);
    out := AddFallbackAlert(h, cfg, out);
  }

  lemma ReachableAlerts(h: Head, cfg: Config)
    requires h.reachable.Some? && h.reachable.value
    ensures AlertOf(h, cfg, Unreachable) == []
    ensures AlertOf(h, cfg, Status) ==
            if h.ready.Some? && h.ready.value != "active"
            then [Alert(Key(h.name, Status), true, h.name + ": status " + h.ready.value)]
            else []
  {
  }

  /** Add the alert for a fallback deadline that draws near. */
  method AddFallbackAlert(h: Head, cfg: Config, before: seq<Alert>) returns (out: seq<Alert>)
    requires h.reachable.Some? && h.reachable.value
    ensures out == before + AlertOf(h, cfg, Fallback)
  {
    hide Key;
    out := before;
    assert before + [] == before;
    if h.secondsLeft.Some? {
      var key := Key(h.name, Fallback);
      var text := h.name + ": fallback tx window opens in " + FormatSeconds(h.secondsLeft.value);
      assert text + "" == text;
      if h.secondsLeft.value <= cfg.fallbackCrit {
        out := out + [Alert(key, true, text + " \U{2014} head at risk of closing")];
      } else if h.secondsLeft.value <= cfg.fallbackWarn {
        out := out + [Alert(key, false, text)];
      }
    }
  }

  /** Add the alerts that rest on a head's statistics, if it sent any. */
  method AddStatsAlerts(h: Head, cfg: Config, before: seq<Alert>) returns (out: seq<Alert>)
    requires h.reachable.Some? && h.reachable.value
    ensures out == before + StatsAlerts(h, cfg)
  {
    hide Key, Severity;
    out := before;
    assert before + [] == before;
    if h.stats.None? {
      NoStatsNoAlerts(h, cfg);
      return;
    }
    out := AddHardConfirmAlert(h, cfg, out);
    out := AddHeadroomAlert(h, cfg, out);
    WithStatsBackpressure(h, cfg);
    if h.backpressureAge.Some? && h.backpressureAge.value < 60 {
      var key := Key(h.name, Backpressure);
      var total := Decimal(h.stats.value.rejected);
      out := out + [Alert(key, false, h.name + ": backpressure rejections in the last minute (total " + total + ")")];
    }
  }

  lemma NoStatsNoAlerts(h: Head, cfg: Config)
    requires h.stats.None?
    ensures StatsAlerts(h, cfg) == []
  {
  }

  lemma WithStatsBackpressure(h: Head, cfg: Config)
    requires h.reachable.Some? && h.reachable.value && h.stats.Some?
    ensures Severity(h, cfg, Backpressure) ==
            if h.backpressureAge.Some? && h.backpressureAge.value < 60 then Some(false) else None
  {
  }

  /** Add the alert for a head without a recent hard confirmation, unless it has no stack to confirm yet. */
  method AddHardConfirmAlert(h: Head, cfg: Config, before: seq<Alert>) returns (out: seq<Alert>)
    requires h.reachable.Some? && h.reachable.value && h.stats.Some?
    ensures out == before + AlertOf(h, cfg, HardConfirm)
  {
    hide Key;
    out := before;
    assert before + [] == before;
    var s := h.stats.value;
    if s.stacks > 0 || s.hardAge > 0 {
      var key := Key(h.name, HardConfirm);
      if s.hardAge >= cfg.hardConfirmCrit {
        out := out + [Alert(key, true, h.name + ": no hard confirmation for " + Signed(s.hardAge) + "s")];
      } else if s.hardAge >= cfg.hardConfirmWarn {
        out := out + [Alert(key, false, h.name + ": no hard confirmation for " + Signed(s.hardAge) + "s")];
      }
    }
  }

  /** Add the alert for a backpressure window nearly used up, measured against the most ever seen. */
  method AddHeadroomAlert(h: Head, cfg: Config, before: seq<Alert>) returns (out: seq<Alert>)
    requires h.reachable.Some? && h.reachable.value && h.stats.Some?
    ensures out == before + AlertOf(h, cfg, Headroom)
  {
    hide Key, Ratio;
    out := before;
    assert before + [] == before;
    if h.maxHeadroom > 0 {
      var ratio := Ratio(h.stats.value.headroom, h.maxHeadroom);
      var left := Signed(h.stats.value.headroom);
      var key := Key(h.name, Headroom);
      if ratio < 0.02 {
        out := out + [Alert(key, true, h.name + ": sequencer headroom exhausted (" + left + ")")];
      } else if ratio < 0.10 {
        out := out + [Alert(key, false, h.name + ": sequencer headroom low (" + left + " of "
                                        + Signed(h.maxHeadroom) + ")")];
      }
    }
  }

  lemma UnreachableRaisesOne(h: Head, cfg: Config)
    requires h.reachable == Some(false)
    ensures Raised(h, cfg, CONDITIONS) == [Alert(Key(h.name, Unreachable), true, h.name + ": unreachable")]
  {
    RaisedInTurn(h, cfg);
  }

  lemma UnpolledRaisesNothing(h: Head, cfg: Config)
    requires h.reachable.None?
    ensures Raised(h, cfg, CONDITIONS) == []
  {
    RaisedInTurn(h, cfg);
  }

  /** Evaluate the rules for every head and rank what they raise. */
  method Compute(heads: seq<Head>, cfg: Config) returns (out: seq<Alert>)
    ensures StablySorted(AllRaised(heads, cfg), out)
  {
    hide Raised, StablySorted, Key, Text;
    var found: seq<Alert> := [];
    for i := 0 to |heads|
      invariant found == AllRaised(heads[..i], cfg)
    {
      var h := heads[i];
      assert heads[..i + 1][..i] == heads[..i];
      if h.reachable == Some(false) {
        UnreachableRaisesOne(h, cfg);
        found := found + [Alert(Key(h.name, Unreachable), true, h.name + ": unreachable")];
        continue;
      }
      if h.reachable.None? {
        UnpolledRaisesNothing(h, cfg);
        continue;
      }
      found := AddAlerts(h, cfg, found);
    }
    assert heads[..|heads|] == heads;
    out := CriticalFirst(found);
  }

  // ---- Which alerts there are ----

  lemma ConditionNamesDiffer(c: Condition, d: Condition)
    requires c.Name() == d.Name()
    ensures c == d
  {
    assert |"unreachable"| == 11 && |"status"| == 6 && |"hard-confirm"| == 12 && |"headroom"| == 8
           && |"backpressure"| == 12 && |"fallback"| == 8;
    assert "hard-confirm"[0] == 'h' && "backpressure"[0] == 'b' && "headroom"[0] == 'h' && "fallback"[0] == 'f';
  }

  lemma NoColonInName(c: Condition, i: nat)
    requires i < |c.Name()|
    ensures c.Name()[i] != ':'
  {
  }

  /** A key tells its head from its condition, whatever the head is called: no condition holds a colon. */
  lemma KeyTellsApart(a: string, c: Condition, b: string, d: Condition)
    requires Key(a, c) == Key(b, d)
    ensures a == b && c == d
  {
    var key := Key(a, c);
    if |c.Name()| < |d.Name()| {
      assert key[|a|] == ':' && key[|a|] == d.Name()[|a| - |b| - 1];
      NoColonInName(d, |a| - |b| - 1);
    } else if |d.Name()| < |c.Name()| {
      assert key[|b|] == ':' && key[|b|] == c.Name()[|b| - |a| - 1];
      NoColonInName(c, |b| - |a| - 1);
    }
    assert a == key[..|a|] && b == key[..|b|];
    assert c.Name() == key[|a| + 1..] && d.Name() == key[|b| + 1..];
    ConditionNamesDiffer(c, d);
  }

  predicate DistinctNames(heads: seq<Head>) {
    forall i, j :: 0 <= i < j < |heads| ==> heads[i].name != heads[j].name
  }

  predicate DistinctKeys(alerts: seq<Alert>) {
    forall i, j :: 0 <= i < j < |alerts| ==> alerts[i].key != alerts[j].key
  }

  lemma {:induction false} RaisedBy(h: Head, cfg: Config, conditions: seq<Condition>, a: Alert)
    ensures a in Raised(h, cfg, conditions) <==> exists c :: c in conditions && a in AlertOf(h, cfg, c)
    decreases |conditions|
  {
    if conditions != [] {
      var init, last := conditions[..|conditions| - 1], conditions[|conditions| - 1];
      assert conditions == init + [last];
      RaisedBy(h, cfg, init, a);
    }
  }

  lemma EveryCondition(c: Condition)
    ensures c in CONDITIONS
  {
    assert CONDITIONS[0].Unreachable? && CONDITIONS[1].Status? && CONDITIONS[2].HardConfirm?;
    assert CONDITIONS[3].Headroom? && CONDITIONS[4].Backpressure? && CONDITIONS[5].Fallback?;
  }

  /** An alert among all that are raised comes from some head, for some condition, and the other way round. */
  lemma {:induction false} AllRaisedBy(heads: seq<Head>, cfg: Config, a: Alert)
    ensures a in AllRaised(heads, cfg) <==> exists h, c :: h in heads && a in AlertOf(h, cfg, c)
    decreases |heads|
  {
    if heads != [] {
      var init, last := heads[..|heads| - 1], heads[|heads| - 1];
      assert heads == init + [last];
      AllRaisedBy(init, cfg, a);
      RaisedBy(last, cfg, CONDITIONS, a);
      forall c
        ensures c in CONDITIONS
      {
        EveryCondition(c);
      }
    }
  }

  lemma {:induction false} RaisedAreDistinct(h: Head, cfg: Config, conditions: seq<Condition>)
    requires forall i, j :: 0 <= i < j < |conditions| ==> conditions[i] != conditions[j]
    ensures DistinctKeys(Raised(h, cfg, conditions))
    decreases |conditions|
  {
    hide Key, Severity, Text;
    if conditions != [] {
      var init, last := conditions[..|conditions| - 1], conditions[|conditions| - 1];
      RaisedAreDistinct(h, cfg, init);
      forall a, b | a in Raised(h, cfg, init) && b in AlertOf(h, cfg, last)
        ensures a.key != b.key
      {
        RaisedBy(h, cfg, init, a);
        var c :| c in init && a in AlertOf(h, cfg, c);
        if a.key == b.key {
          KeyTellsApart(h.name, c, h.name, last);
        }
      }
    }
  }

  lemma {:induction false} AllRaisedAreDistinct(heads: seq<Head>, cfg: Config)
    requires DistinctNames(heads)
    ensures DistinctKeys(AllRaised(heads, cfg))
    decreases |heads|
  {
    hide Key, Severity, Raised, Text;
    if heads != [] {
      var init, last := heads[..|heads| - 1], heads[|heads| - 1];
      AllRaisedAreDistinct(init, cfg);
      RaisedAreDistinct(last, cfg, CONDITIONS);
      forall a, b | a in AllRaised(init, cfg) && b in Raised(last, cfg, CONDITIONS)
        ensures a.key != b.key
      {
        AllRaisedBy(init, cfg, a);
        RaisedBy(last, cfg, CONDITIONS, b);
        var h, c :| h in init && a in AlertOf(h, cfg, c);
        var d :| d in CONDITIONS && b in AlertOf(last, cfg, d);
        if a.key == b.key {
          KeyTellsApart(h.name, c, last.name, d);
        }
      }
    }
  }

  lemma {:induction false} KindMembers(alerts: seq<Alert>, crit: bool, a: Alert)
    ensures a in OfKind(alerts, crit) <==> a in alerts && a.crit == crit
    decreases |alerts|
  {
    if alerts != [] {
      var init, last := alerts[..|alerts| - 1], alerts[|alerts| - 1];
      assert alerts == init + [last];
      KindMembers(init, crit, a);
    }
  }

  lemma {:induction false} KindStaysDistinct(alerts: seq<Alert>, crit: bool)
    requires DistinctKeys(alerts)
    ensures DistinctKeys(OfKind(alerts, crit))
    decreases |alerts|
  {
    if alerts != [] {
      var init, last := alerts[..|alerts| - 1], alerts[|alerts| - 1];
      KindStaysDistinct(init, crit);
      forall a | a in OfKind(init, crit)
        ensures a.key != last.key
      {
        KindMembers(init, crit, a);
      }
    }
  }

  /** Sorting loses no alert, makes none up, and repeats none. */
  lemma SortKeepsAlerts(from: seq<Alert>, to: seq<Alert>)
    requires StablySorted(from, to)
    ensures forall a :: a in to <==> a in from
    ensures DistinctKeys(from) ==> DistinctKeys(to)
  {
    SortedSplits(to);
    forall a
      ensures a in to <==> a in from
    {
      KindMembers(from, true, a);
      KindMembers(from, false, a);
    }
    if DistinctKeys(from) {
      KindStaysDistinct(from, true);
      KindStaysDistinct(from, false);
      forall a, b | a in OfKind(from, true) && b in OfKind(from, false)
        ensures a.key != b.key
      {
        KindMembers(from, true, a);
        KindMembers(from, false, b);
      }
    }
  }

  /** For heads with different names, no two alerts share a key. */
  lemma AlertKeysAreUnique(heads: seq<Head>, cfg: Config, out: seq<Alert>)
    requires DistinctNames(heads) && StablySorted(AllRaised(heads, cfg), out)
    ensures DistinctKeys(out)
  {
    AllRaisedAreDistinct(heads, cfg);
    hide StablySorted, AllRaised;
    SortKeepsAlerts(AllRaised(heads, cfg), out);
  }

  lemma AlertsAreRaised(heads: seq<Head>, cfg: Config, out: seq<Alert>, a: Alert)
    requires StablySorted(AllRaised(heads, cfg), out)
    ensures a in out <==> exists h, c :: h in heads && a in AlertOf(h, cfg, c)
  {
    hide StablySorted, AllRaised, AlertOf;
    SortKeepsAlerts(AllRaised(heads, cfg), out);
    AllRaisedBy(heads, cfg, a);
  }

  /** An alert is there exactly when its head raises its condition, and then with the severity and text due. */
  lemma AlertsMatchHeads(heads: seq<Head>, cfg: Config, out: seq<Alert>, h: Head, c: Condition)
    requires DistinctNames(heads) && StablySorted(AllRaised(heads, cfg), out) && h in heads
    ensures (exists a :: a in out && a.key == Key(h.name, c)) <==> Severity(h, cfg, c).Some?
    ensures forall a :: a in out && a.key == Key(h.name, c) ==>
              Severity(h, cfg, c) == Some(a.crit) && a.text == Text(h, c, a.crit)
  {
    hide StablySorted, AllRaised, Key, Severity, Text;
    if Severity(h, cfg, c).Some? {
      var a := Alert(Key(h.name, c), Severity(h, cfg, c).value, Text(h, c, Severity(h, cfg, c).value));
      AlertsAreRaised(heads, cfg, out, a);
      assert a in AlertOf(h, cfg, c);
    }
    forall a | a in out && a.key == Key(h.name, c)
      ensures Severity(h, cfg, c) == Some(a.crit) && a.text == Text(h, c, a.crit)
    {
      AlertsAreRaised(heads, cfg, out, a);
      var g, d :| g in heads && a in AlertOf(g, cfg, d);
      KeyTellsApart(g.name, d, h.name, c);
    }
  }

  /** Every alert names a head and a condition that it raises; in particular no key is empty. */
  lemma AlertsHaveHeads(heads: seq<Head>, cfg: Config, out: seq<Alert>, a: Alert)
    requires StablySorted(AllRaised(heads, cfg), out) && a in out
    ensures exists h, c :: h in heads && a.key == Key(h.name, c) && Severity(h, cfg, c) == Some(a.crit)
    ensures a.key != ""
  {
    hide StablySorted, AllRaised, Severity, Text;
    AlertsAreRaised(heads, cfg, out, a);
    var h, c :| h in heads && a in AlertOf(h, cfg, c);
  }

  // ---- The rules one by one ----

  /** A head that does not answer raises one alert, and one that was never polled none. */
  lemma UnreachableRule(heads: seq<Head>, cfg: Config, out: seq<Alert>, h: Head)
    requires DistinctNames(heads) && StablySorted(AllRaised(heads, cfg), out) && h in heads
    ensures (exists a :: a in out && a.key == h.name + ":unreachable") <==> h.reachable == Some(false)
    ensures forall a :: a in out && a.key == h.name + ":unreachable" ==> a.crit && a.text == h.name + ": unreachable"
    ensures h.reachable != Some(true) ==>
              forall a, c: Condition :: a in out && !c.Unreachable? ==> a.key != h.name + ":" + c.Name()
  {
    hide StablySorted, AllRaised, DistinctNames, Condition.Name;
    AlertsMatchHeads(heads, cfg, out, h, Unreachable);
    assert Key(h.name, Unreachable) == h.name + ":unreachable" by {
      KeysSpelledOut(h.name);
    }
    forall a, c: Condition | h.reachable != Some(true) && a in out && !c.Unreachable?
      ensures a.key != h.name + ":" + c.Name()
    {
      AlertsMatchHeads(heads, cfg, out, h, c);
    }
  }

  lemma KeysSpelledOut(name: string)
    ensures Key(name, Unreachable) == name + ":unreachable" && Key(name, Status) == name + ":status"
    ensures Key(name, HardConfirm) == name + ":hard-confirm" && Key(name, Headroom) == name + ":headroom"
    ensures Key(name, Backpressure) == name + ":backpressure" && Key(name, Fallback) == name + ":fallback"
  {
    assert name + ":" + "unreachable" == name + ":unreachable" && name + ":" + "status" == name + ":status";
    assert name + ":" + "hard-confirm" == name + ":hard-confirm" && name + ":" + "headroom" == name + ":headroom";
    assert name + ":" + "backpressure" == name + ":backpressure" && name + ":" + "fallback" == name + ":fallback";
  }

  /** A head that says it is anything but active is critical. */
  lemma StatusRule(heads: seq<Head>, cfg: Config, out: seq<Alert>, h: Head)
    requires DistinctNames(heads) && StablySorted(AllRaised(heads, cfg), out) && h in heads
    ensures (exists a :: a in out && a.key == h.name + ":status") <==>
            h.reachable == Some(true) && h.ready.Some? && h.ready.value != "active"
    ensures forall a :: a in out && a.key == h.name + ":status" ==>
              a.crit && h.ready.Some? && a.text == h.name + ": status " + h.ready.value
  {
    hide StablySorted, AllRaised, DistinctNames, Key;
    KeysSpelledOut(h.name);
    AlertsMatchHeads(heads, cfg, out, h, Status);
  }

  /** Too long without a hard confirmation, unless the head has no stack yet and never confirmed one. */
  lemma HardConfirmRule(heads: seq<Head>, cfg: Config, out: seq<Alert>, h: Head)
    requires DistinctNames(heads) && StablySorted(AllRaised(heads, cfg), out) && h in heads
    ensures (exists a :: a in out && a.key == h.name + ":hard-confirm") <==>
            && h.reachable == Some(true) && h.stats.Some? && (h.stats.value.stacks > 0 || h.stats.value.hardAge > 0)
            && (h.stats.value.hardAge >= cfg.hardConfirmCrit || h.stats.value.hardAge >= cfg.hardConfirmWarn)
    ensures forall a :: a in out && a.key == h.name + ":hard-confirm" ==>
              && h.stats.Some? && (a.crit <==> h.stats.value.hardAge >= cfg.hardConfirmCrit)
              && a.text == h.name + ": no hard confirmation for " + Signed(h.stats.value.hardAge) + "s"
  {
    hide StablySorted, AllRaised, DistinctNames, Key;
    KeysSpelledOut(h.name);
    AlertsMatchHeads(heads, cfg, out, h, HardConfirm);
  }

  lemma RatioBelow(part: int, whole: int)
    requires whole > 0
    ensures Ratio(part, whole) < 0.02 <==> 50 * part < whole
    ensures Ratio(part, whole) < 0.10 <==> 10 * part < whole
  {
    RatioTimes(part, whole);
    hide Ratio;
    QuotientBelow(50.0, Ratio(part, whole), whole as real, part as real);
    QuotientBelow(10.0, Ratio(part, whole), whole as real, part as real);
  }

  lemma RatioTimes(part: int, whole: int)
    requires whole > 0
    ensures Ratio(part, whole) * whole as real == part as real
  {
  }

  lemma QuotientBelow(n: real, quotient: real, w: real, p: real)
    requires w > 0.0 && quotient * w == p
    ensures n * quotient < 1.0 <==> n * p < w
  {
    ScaledBelow(n * quotient, 1.0, w);
    TimesQuotient(n, quotient, w, p);
  }

  lemma TimesQuotient(n: real, quotient: real, w: real, p: real)
    requires quotient * w == p
    ensures (n * quotient) * w == n * p
  {
    assert (n * quotient) * w == n * (quotient * w);
  }

  lemma ScaledBelow(a: real, b: real, w: real)
    requires w > 0.0
    ensures a < b <==> a * w < b * w
  {
    if a < b {
      assert (b - a) * w > 0.0;
    } else {
      assert (a - b) * w >= 0.0;
    }
  }

  /** Less than a tenth of the most headroom ever seen, critical below a fiftieth. */
  lemma HeadroomRule(heads: seq<Head>, cfg: Config, out: seq<Alert>, h: Head)
    requires DistinctNames(heads) && StablySorted(AllRaised(heads, cfg), out) && h in heads
    ensures (exists a :: a in out && a.key == h.name + ":headroom") <==>
            && h.reachable == Some(true) && h.stats.Some? && h.maxHeadroom > 0
            && (50 * h.stats.value.headroom < h.maxHeadroom || 10 * h.stats.value.headroom < h.maxHeadroom)
    ensures forall a :: a in out && a.key == h.name + ":headroom" ==>
              && h.stats.Some? && (a.crit <==> 50 * h.stats.value.headroom < h.maxHeadroom)
              && (a.crit ==>
                    a.text == h.name + ": sequencer headroom exhausted (" + Signed(h.stats.value.headroom) + ")")
              && (!a.crit ==> a.text == h.name + ": sequencer headroom low (" + Signed(h.stats.value.headroom) + " of "
                                        + Signed(h.maxHeadroom) + ")")
  {
    hide StablySorted, AllRaised, DistinctNames, Key, Ratio;
    KeysSpelledOut(h.name);
    AlertsMatchHeads(heads, cfg, out, h, Headroom);
    if h.stats.Some? && h.maxHeadroom > 0 {
      RatioBelow(h.stats.value.headroom, h.maxHeadroom);
    }
  }

  /** Requests turned away in the last minute, never critical. */
  lemma BackpressureRule(heads: seq<Head>, cfg: Config, out: seq<Alert>, h: Head)
    requires DistinctNames(heads) && StablySorted(AllRaised(heads, cfg), out) && h in heads
    ensures (exists a :: a in out && a.key == h.name + ":backpressure") <==>
            h.reachable == Some(true) && h.stats.Some? && h.backpressureAge.Some? && h.backpressureAge.value < 60
    ensures forall a :: a in out && a.key == h.name + ":backpressure" ==>
              && !a.crit && h.stats.Some?
              && a.text == h.name + ": backpressure rejections in the last minute (total "
                           + Decimal(h.stats.value.rejected) + ")"
  {
    hide StablySorted, AllRaised, DistinctNames, Key;
    KeysSpelledOut(h.name);
    AlertsMatchHeads(heads, cfg, out, h, Backpressure);
  }

  /** A deadline that draws near, or has passed. */
  lemma FallbackRule(heads: seq<Head>, cfg: Config, out: seq<Alert>, h: Head)
    requires DistinctNames(heads) && StablySorted(AllRaised(heads, cfg), out) && h in heads
    ensures (exists a :: a in out && a.key == h.name + ":fallback") <==>
            && h.reachable == Some(true) && h.secondsLeft.Some?
            && (h.secondsLeft.value <= cfg.fallbackCrit || h.secondsLeft.value <= cfg.fallbackWarn)
    ensures forall a :: a in out && a.key == h.name + ":fallback" ==>
              && h.secondsLeft.Some? && (a.crit <==> h.secondsLeft.value <= cfg.fallbackCrit)
              && a.text == h.name + ": fallback tx window opens in " + FormatSeconds(h.secondsLeft.value)
                           + if a.crit then " \U{2014} head at risk of closing" else ""
  {
    hide StablySorted, AllRaised, DistinctNames, Key;
    KeysSpelledOut(h.name);
    AlertsMatchHeads(heads, cfg, out, h, Fallback);
  }
}
