/** The archiver's main loop: pass after pass, reporting to the node only what a finished pass found. */
module ArchiverLoop {
  import opened ByteStrings
  import opened Families
  import opened FamilyNames
  import opened Journals
  import opened OrderedStore
  import opened Outcomes
  import opened Stores
  import opened Pass
  import opened PassEffects
  import S = ProtocolSafety

  /** The report as it goes over the wire: family name to highest durably archived index. */
  type WatermarkReport = map<string, U64>

  lemma NamesTellFamiliesApart()
    ensures forall a: Cf, b: Cf :: a.Nameable() && b.Nameable() && a.Name() == b.Name() ==> a == b
  {
    forall a: Cf, b: Cf | a.Nameable() && b.Nameable() && a.Name() == b.Name()
      ensures a == b
    {
      NamesAreInjective(a, b);
    }
  }

  /** Name the watermarks of a pass: no two families are merged and every name reads back as its own. */
  function FromPass(report: PassReport): (body: WatermarkReport)
    requires forall cf :: cf in report.watermarks ==> cf.Nameable()
    ensures forall cf :: cf in report.watermarks ==> cf.Name() in body && body[cf.Name()] == report.watermarks[cf]
    ensures forall name :: name in body ==>
              Cf.Parse(name).Some? && Cf.Parse(name).value in report.watermarks
              && report.watermarks[Cf.Parse(name).value] == body[name]
  {
    NamesTellFamiliesApart();
    var body := map cf | cf in report.watermarks :: cf.Name() := report.watermarks[cf];
    assert forall cf :: cf in report.watermarks ==> Cf.Parse(cf.Name()) == Some(cf) by {
      forall cf | cf in report.watermarks
        ensures Cf.Parse(cf.Name()) == Some(cf)
      {
        NameRoundTrip(cf);
      }
    }
    body
  }

  // ---- Tips never fall ----

  /** No index in the store is the last a 64-bit key can carry. */
  ghost predicate Roomy(contents: Contents) {
    forall cf, k :: cf in contents && k in contents[cf] && DecodeKey(cf, k).Ok? ==>
      DecodeKey(cf, k).value + 1 < 0x1_0000_0000_0000_0000
  }

  lemma RoomyHasRoom(cf: Cf, contents: Contents)
    requires Roomy(contents)
    ensures RoomAbove(cf, contents)
  {
    if cf in contents && contents[cf] != map[] {
      LastIsGreatest(contents[cf]);
    }
  }

  /** A journal's tip is still there, or higher. */
  ghost predicate TipKept(cf: Cf, before: Contents, after: Contents) {
    TipOf(cf, before).Ok? && TipOf(cf, before).value.Some? ==>
      TipOf(cf, after).Ok? && TipOf(cf, after).value.Some?
      && TipOf(cf, before).value.value <= TipOf(cf, after).value.value
  }

  lemma CopyKeepsTip(cf: Cf, before: Contents, view: Contents, m: nat)
    requires RoomAbove(cf, before) && cf in before
    requires m <= |NewRows(cf, before, view)| && Decodable(cf, NewRows(cf, before, view)[..m])
    ensures TipKept(cf, before, Advanced(before, cf, NewRows(cf, before, view)[..m]))
  {
    var rows := NewRows(cf, before, view);
    if m == 0 {
      AdvanceNothing(before, cf);
    } else {
      CopyMovesTip(cf, before, view, m);
      if TipOf(cf, before).value.Some? {
        RowIsPastTip(cf, before, view, m);
      }
    }
  }

  lemma RowIsPastTip(cf: Cf, before: Contents, view: Contents, m: nat)
    requires RoomAbove(cf, before) && TipOf(cf, before).Ok? && TipOf(cf, before).value.Some?
    requires 0 < m <= |NewRows(cf, before, view)| && Decodable(cf, NewRows(cf, before, view)[..m])
    ensures DecodeKey(cf, NewRows(cf, before, view)[m - 1].0).Ok?
    ensures TipOf(cf, before).value.value < DecodeKey(cf, NewRows(cf, before, view)[m - 1].0).value
  {
    var rows, start := NewRows(cf, before, view), ResumeKey(cf, before, view).value;
    assert DecodeRow(cf, rows[..m][m - 1]).Ok?;
    var key := rows[m - 1].0;
    assert key in InOrder(KeysFrom(view[cf], start));
    DecodedKeyReencodes(cf, key);
    hide TipOf, DecodeKey, NewRows, KeysFrom, InOrder;
    KeyOrder(cf, DecodeKey(cf, key).value, TipOf(cf, before).value.value + 1);
  }

  ghost predicate TipsKept(before: Contents, after: Contents) {
    forall cf :: cf in before && cf.IsJournal() ==> TipKept(cf, before, after)
  }

  lemma PrefixKeepsTip(before: Contents, view: Contents, full: bool, after: Contents, cf: Cf)
    requires cf in before && cf.IsJournal() && PrefixWritten(before, view, full, after, cf)
    ensures TipKept(cf, before, after)
  {
    hide Decodable, TipKept, TipOf, RoomAbove, NewRows;
    var rows := RowsFor(cf, before, view, full);
    var m :| 0 <= m <= |rows| && after[cf] == PutAll(before[cf], rows[..m]) && Decodable(cf, rows[..m]);
    if RoomAbove(cf, before) {
      var copied := Advanced(before, cf, rows[..m]);
      CopyKeepsTip(cf, before, view, m);
      TipIsLocal(cf, copied, after);
      SameTipKept(cf, before, copied, after);
    } else {
      TipIsLocal(cf, before, after);
      SameTips(cf, before, after);
    }
  }

  lemma SameTips(cf: Cf, before: Contents, after: Contents)
    requires TipOf(cf, before) == TipOf(cf, after)
    ensures TipKept(cf, before, after)
  {
  }

  lemma SameTipKept(cf: Cf, before: Contents, copied: Contents, after: Contents)
    requires TipKept(cf, before, copied) && TipOf(cf, copied) == TipOf(cf, after)
    ensures TipKept(cf, before, after)
  {
  }

  lemma PrefixStaysRoomy(before: Contents, view: Contents, full: bool, after: Contents, cf: Cf, k: Bytes)
    requires Roomy(before) && Roomy(view) && cf in before && PrefixWritten(before, view, full, after, cf)
    requires k in after[cf] && DecodeKey(cf, k).Ok?
    ensures DecodeKey(cf, k).value + 1 < 0x1_0000_0000_0000_0000
  {
    var rows := RowsFor(cf, before, view, full);
    RowsComeFromView(cf, before, view, full);
    var m :| 0 <= m <= |rows| && after[cf] == PutAll(before[cf], rows[..m]);
    hide RowsFor, DecodeKey, Decodable;
    PutAllKeys(before[cf], rows[..m], k);
  }

  /** Whether it succeeds or stops, a pass only ever raises tips. */
  lemma PassKeepsTips(before: Contents, view: Contents, full: bool, all: set<Cf>, after: Contents)
    requires Transferred(before, view, full, all, after) || Stopped(before, view, full, all, after)
    ensures TipsKept(before, after)
    ensures Roomy(before) && Roomy(view) ==> Roomy(after)
  {
    hide TipKept, PrefixWritten, DecodeKey;
    EveryPrefixWritten(before, view, full, all, after);
    hide Transferred, Stopped;
    forall cf | cf in before && cf.IsJournal()
      ensures TipKept(cf, before, after)
    {
      PrefixKeepsTip(before, view, full, after, cf);
    }
    if Roomy(before) && Roomy(view) {
      forall cf, k | cf in after && k in after[cf] && DecodeKey(cf, k).Ok?
        ensures DecodeKey(cf, k).value + 1 < 0x1_0000_0000_0000_0000
      {
        PrefixStaysRoomy(before, view, full, after, cf, k);
      }
    }
  }

  // ---- The loop ----

  /** One turn of the loop: when its pass starts and ends, and what the node's store holds at the catch-up. */
  datatype Tick = Tick(started: nat, finished: nat, primary: Contents)

  /** What one pass found, did and reported. */
  datatype PassRun = PassRun(before: Contents, view: Contents, full: bool, after: Contents,
                             result: Result<PassReport>) {

    ghost predicate Ran(families: seq<Cf>) {
      && Roomy(before) && Roomy(view)
      && (result.Ok? ==>
            && (forall cf :: cf in families ==> !Hindered(cf, before, view, full))
            && Transferred(before, view, full, Members(families), after)
            && Accounts(result.value, before, view, full, Members(families), after)
            && (forall cf :: cf in JournalsAmong(families) ==> RoomAbove(cf, before))
            && result.value.gaps == GapsIn(JournalsAmong(families), before, view))
      && (result.Err? ==> Stopped(before, view, full, Members(families), after))
      && (result.Err? && result.error != Io ==> exists cf :: cf in families && Hindered(cf, before, view, full))
    }

    /** Every watermark belongs to a family whose name reads back. */
    predicate Named() {
      result.Ok? ==> forall cf :: cf in result.value.watermarks ==> cf.Nameable()
    }
  }

  /** Each pass begins with the archive the one before it left. */
  ghost predicate Chained(families: seq<Cf>, start: Contents, passes: seq<PassRun>, end: Contents) {
    if passes == [] then start == end
    else
      var last := passes[|passes| - 1];
      last.Ran(families) && last.after == end && Chained(families, start, passes[..|passes| - 1], last.before)
  }

  predicate WellNamed(passes: seq<PassRun>) {
    forall p :: p in passes ==> p.Named()
  }

  /** The bodies the passes give rise to, in order: none for a failed pass or one without a watermark. */
  function Bodies(passes: seq<PassRun>): seq<WatermarkReport>
    requires WellNamed(passes)
  {
    if passes == [] then []
    else
      var last := passes[|passes| - 1];
      assert last in passes;
      Bodies(passes[..|passes| - 1])
      + if last.result.Ok? && FromPass(last.result.value) != map[] then [FromPass(last.result.value)] else []
  }

  lemma BodiesOfMore(passes: seq<PassRun>, last: PassRun)
    requires WellNamed(passes + [last]) && WellNamed(passes) && last.Named()
    ensures Bodies(passes + [last]) ==
            Bodies(passes)
            + if last.result.Ok? && FromPass(last.result.value) != map[] then [FromPass(last.result.value)] else []
  {
    hide FromPass;
    assert (passes + [last])[..|passes|] == passes;
  }

  ghost predicate AllNameable(families: set<Cf>) {
    forall cf :: cf in families ==> cf.Nameable()
  }

  /** Every index the report names is in the archive: the family's tip is there or higher. */
  ghost predicate Backed(report: WatermarkReport, archive: Contents) {
    forall name :: name in report ==>
      && Cf.Parse(name).Some?
      && TipOf(Cf.Parse(name).value, archive).Ok? && TipOf(Cf.Parse(name).value, archive).value.Some?
      && report[name] <= TipOf(Cf.Parse(name).value, archive).value.value
  }

  /** No full pass succeeded within the interval before the `i`th tick. */
  ghost predicate Due(ticks: seq<Tick>, interval: nat, passes: seq<PassRun>, i: nat)
    requires i <= |passes| && |passes| <= |ticks| && i < |ticks|
  {
    forall j :: 0 <= j < i && passes[j].full && passes[j].result.Ok? ==>
      ticks[i].started - ticks[j].finished >= interval
  }

  /** A pass is full exactly when one is due, or when it is the only one. */
  ghost predicate FullWhenDue(ticks: seq<Tick>, interval: nat, once: bool, passes: seq<PassRun>) {
    && |passes| <= |ticks|
    && forall i :: 0 <= i < |passes| ==> (passes[i].full <==> once || Due(ticks, interval, passes, i))
  }

  /**
   Every pass worked from what the node held at its own tick, unless it failed; then it may have worked
   from what the pass before it saw.
   */
  ghost predicate SeesTheNode(families: seq<Cf>, start: Contents, ticks: seq<Tick>, passes: seq<PassRun>) {
    && |passes| <= |ticks|
    && forall i :: 0 <= i < |passes| ==>
         || passes[i].view == Shown(families, ticks[i].primary)
         || (passes[i].result.Err? && passes[i].view == LastView(start, passes[..i]))
  }

  ghost function LastView(start: Contents, passes: seq<PassRun>): Contents {
    if passes == [] then start else passes[|passes| - 1].view
  }

  /** The clock never runs backwards. */
  ghost predicate Clocked(ticks: seq<Tick>) {
    && (forall i :: 0 <= i < |ticks| ==> ticks[i].started <= ticks[i].finished)
    && (forall i, j :: 0 <= i < j < |ticks| ==> ticks[i].finished <= ticks[j].started)
  }

  /** How far back the last successful full pass lies, as the loop remembers it. */
  ghost predicate Remembers(ticks: seq<Tick>, passes: seq<PassRun>, lastFull: Option<nat>)
    requires |passes| <= |ticks|
  {
    && (lastFull.None? ==> forall j :: 0 <= j < |passes| ==> !(passes[j].full && passes[j].result.Ok?))
    && (lastFull.Some? ==>
          && (forall j :: 0 <= j < |passes| && passes[j].full && passes[j].result.Ok? ==>
                ticks[j].finished <= lastFull.value)
          && exists j :: 0 <= j < |passes| && passes[j].full && passes[j].result.Ok?
                         && ticks[j].finished == lastFull.value)
  }

  lemma RememberedIsDue(ticks: seq<Tick>, interval: nat, passes: seq<PassRun>, lastFull: Option<nat>)
    requires |passes| < |ticks| && Clocked(ticks) && Remembers(ticks, passes, lastFull)
    ensures Due(ticks, interval, passes, |passes|) <==>
            lastFull.None? || ticks[|passes|].started - lastFull.value >= interval
  {
  }

  lemma OneMoreWhenDue(ticks: seq<Tick>, interval: nat, once: bool, passes: seq<PassRun>, next: PassRun)
    requires |passes| < |ticks| && FullWhenDue(ticks, interval, once, passes)
    requires next.full <==> once || Due(ticks, interval, passes, |passes|)
    ensures FullWhenDue(ticks, interval, once, passes + [next])
  {
    var longer := passes + [next];
    forall i | 0 <= i < |longer|
      ensures longer[i].full <==> once || Due(ticks, interval, longer, i)
    {
      DueLooksBack(ticks, interval, passes, next, i);
    }
  }

  lemma DueLooksBack(ticks: seq<Tick>, interval: nat, passes: seq<PassRun>, next: PassRun, i: nat)
    requires i <= |passes| < |ticks|
    ensures Due(ticks, interval, passes + [next], i) <==> Due(ticks, interval, passes, i)
  {
    assert forall j :: 0 <= j < i ==> (passes + [next])[j] == passes[j];
  }

  lemma RemembersLatest(ticks: seq<Tick>, passes: seq<PassRun>, lastFull: Option<nat>, next: PassRun)
    requires |passes| < |ticks| && Clocked(ticks) && Remembers(ticks, passes, lastFull)
    ensures Remembers(ticks, passes + [next],
                      if next.full && next.result.Ok? then Some(ticks[|passes|].finished) else lastFull)
  {
    var longer, n := passes + [next], |passes|;
    assert forall j :: 0 <= j < n ==> longer[j] == passes[j];
    if next.full && next.result.Ok? {
      assert longer[n] == next;
    } else if lastFull.Some? {
      var j :| 0 <= j < n && passes[j].full && passes[j].result.Ok? && ticks[j].finished == lastFull.value;
      assert longer[j] == passes[j];
    }
  }

  /**
   The archiver: pass after pass until the ticks run out, or one pass if `once`. A failed pass is
   retried at the next tick, and only a finished one is reported, if a `node` to report to is known.
   `views` holds whatever the store may come to show.
   */
  method Archive(source: HeadStore, archive: ArchiveStore, ticks: seq<Tick>, interval: nat, once: bool, node: bool,
                 ghost views: iset<Contents>)
    returns (sent: seq<WatermarkReport>, ghost passes: seq<PassRun>)
    requires AllDifferent(source.families) && AllNameable(Members(source.families)) && Clocked(ticks)
    requires Roomy(archive.db) && Roomy(source.view) && forall tick :: tick in ticks ==> Roomy(tick.primary)
    requires source.view in views && forall tick :: tick in ticks ==> Shown(source.families, tick.primary) in views
    modifies source, archive
    ensures |passes| == if once && ticks != [] then 1 else |ticks|
    ensures Chained(source.families, old(archive.db), passes, archive.db)
    ensures FullWhenDue(ticks, interval, once, passes)
    ensures forall i :: 0 <= i < |passes| ==>
              (passes[i].full <==>
               once || forall j :: 0 <= j < i && passes[j].full && passes[j].result.Ok? ==>
                         ticks[i].started - ticks[j].finished >= interval)
    ensures SeesTheNode(source.families, old(source.view), ticks, passes)
    ensures forall p :: p in passes ==> p.view in views
    ensures WellNamed(passes)
    ensures !source.flaky && !archive.flaky ==> forall p :: p in passes ==> p.result != Err(Io)
    ensures sent == if node then Bodies(passes) else []
  {
    hide Roomy, Chained, FullWhenDue, SeesTheNode, LastView, Due, Remembers, WellNamed, Bodies, PassRun.Ran, FromPass,
         Shown, Clocked, AllNameable;
    ghost var families := source.families;
    sent, passes := [], [];
    NothingYet(source.families, ticks, interval, once, archive.db);
    var lastFull := None;
    for i := 0 to |ticks|
      invariant |passes| == i && Roomy(archive.db) && Roomy(source.view)
      invariant Chained(families, old(archive.db), passes, archive.db) && WellNamed(passes)
      invariant FullWhenDue(ticks, interval, once, passes) && Remembers(ticks, passes, lastFull)
      invariant SeesTheNode(source.families, old(source.view), ticks, passes)
      invariant source.view == LastView(old(source.view), passes)
      invariant source.view in views && forall p :: p in passes ==> p.view in views
      invariant !source.flaky && !archive.flaky ==> forall p :: p in passes ==> p.result != Err(Io)
      invariant sent == if node then Bodies(passes) else []
      invariant once ==> i == 0
    {
      var full := once || lastFull.None? || ticks[i].started - lastFull.value >= interval;
      ghost var turn;
      var r;
      r, turn := Turn(source, archive, ticks[i].primary, full);
      RememberedIsDue(ticks, interval, passes, lastFull);
      OneMoreWhenDue(ticks, interval, once, passes, turn);
      RemembersLatest(ticks, passes, lastFull, turn);
      ExtendPasses(families, old(archive.db), passes, turn);
      BodiesOfMore(passes, turn);
      SeesOneMore(source.families, old(source.view), ticks, passes, turn);
      passes := passes + [turn];
      if r.Ok? {
        if full {
          lastFull := Some(ticks[i].finished);
        }
        if node {
          var body := FromPass(r.value);
          if body != map[] {
            sent := sent + [body];
          }
        }
      }
      if once {
        break;
      }
    }
    WhenFull(ticks, interval, once, passes);
  }

  lemma WhenFull(ticks: seq<Tick>, interval: nat, once: bool, passes: seq<PassRun>)
    requires FullWhenDue(ticks, interval, once, passes)
    ensures |passes| <= |ticks|
    ensures forall i :: 0 <= i < |passes| ==>
              (passes[i].full <==>
               once || forall j :: 0 <= j < i && passes[j].full && passes[j].result.Ok? ==>
                         ticks[i].started - ticks[j].finished >= interval)
  {
    forall i | 0 <= i < |passes|
      ensures passes[i].full <==>
              once || forall j :: 0 <= j < i && passes[j].full && passes[j].result.Ok? ==>
                        ticks[i].started - ticks[j].finished >= interval
    {
      assert passes[i].full <==> once || Due(ticks, interval, passes, i);
    }
  }

  /** One pass, and what there is to say of it afterwards. */
  method Turn(source: HeadStore, archive: ArchiveStore, primary: Contents, full: bool)
    returns (r: Result<PassReport>, ghost turn: PassRun)
    requires AllDifferent(source.families) && AllNameable(Members(source.families))
    requires Roomy(archive.db) && Roomy(source.view) && Roomy(primary)
    modifies source, archive
    ensures turn == PassRun(old(archive.db), source.view, full, archive.db, r)
    ensures turn.Ran(source.families) && Roomy(archive.db) && Roomy(source.view) && turn.Named()
    ensures source.view == old(source.view) || source.view == Shown(source.families, primary)
    ensures r.Ok? ==> source.view == Shown(source.families, primary)
    ensures r == Err(Io) ==> source.flaky || archive.flaky
  {
    hide Roomy, Transferred, Stopped, Accounts, RoomAbove, Shown, AllNameable, GapsIn, Hindered;
    ghost var before, was := archive.db, source.view;
    HasRoomEverywhere(before);
    r := Run(source, archive, primary, full);
    turn := PassRun(before, source.view, full, archive.db, r);
    TurnRan(turn, source.families, was, primary);
  }

  lemma SeesOneMore(families: seq<Cf>, start: Contents, ticks: seq<Tick>, passes: seq<PassRun>, turn: PassRun)
    requires |passes| < |ticks| && SeesTheNode(families, start, ticks, passes)
    requires || turn.view == Shown(families, ticks[|passes|].primary)
             || (turn.result.Err? && turn.view == LastView(start, passes))
    ensures SeesTheNode(families, start, ticks, passes + [turn])
    ensures LastView(start, passes + [turn]) == turn.view
  {
    hide Shown, LastView;
    var more := passes + [turn];
    assert LastView(start, more) == turn.view by {
      LastIsLast(start, passes, turn);
    }
    forall i | 0 <= i < |more|
      ensures || more[i].view == Shown(families, ticks[i].primary)
              || (more[i].result.Err? && more[i].view == LastView(start, more[..i]))
    {
      assert more[..i] == passes[..i];
      assert passes[..|passes|] == passes;
    }
  }

  lemma LastIsLast(start: Contents, passes: seq<PassRun>, turn: PassRun)
    ensures LastView(start, passes + [turn]) == turn.view
  {
  }

  lemma NothingYet(families: seq<Cf>, ticks: seq<Tick>, interval: nat, once: bool, db: Contents)
    ensures Chained(families, db, [], db) && WellNamed([]) && Bodies([]) == []
    ensures forall start :: SeesTheNode(families, start, ticks, []) && LastView(start, []) == start
    ensures FullWhenDue(ticks, interval, once, []) && Remembers(ticks, [], None)
  {
  }

  lemma ExtendPasses(families: seq<Cf>, start: Contents, passes: seq<PassRun>, turn: PassRun)
    requires Chained(families, start, passes, turn.before) && turn.Ran(families)
    requires WellNamed(passes) && turn.Named()
    ensures Chained(families, start, passes + [turn], turn.after) && WellNamed(passes + [turn])
  {
    hide PassRun.Ran, PassRun.Named;
    assert (passes + [turn])[..|passes|] == passes;
  }

  lemma HasRoomEverywhere(contents: Contents)
    requires Roomy(contents)
    ensures forall cf :: RoomAbove(cf, contents)
  {
    forall cf
      ensures RoomAbove(cf, contents)
    {
      RoomyHasRoom(cf, contents);
    }
  }

  lemma TurnRan(turn: PassRun, families: seq<Cf>, was: Contents, primary: Contents)
    requires AllNameable(Members(families)) && Roomy(turn.before) && Roomy(was) && Roomy(primary)
    requires turn.view == was || turn.view == Shown(families, primary)
    requires turn.result.Ok? ==>
               && (forall cf :: cf in families ==> !Hindered(cf, turn.before, turn.view, turn.full))
               && Transferred(turn.before, turn.view, turn.full, Members(families), turn.after)
               && Accounts(turn.result.value, turn.before, turn.view, turn.full, Members(families), turn.after)
               && (forall cf :: cf in JournalsAmong(families) ==> RoomAbove(cf, turn.before))
               && turn.result.value.gaps == GapsIn(JournalsAmong(families), turn.before, turn.view)
    requires turn.result.Err? ==> Stopped(turn.before, turn.view, turn.full, Members(families), turn.after)
    requires turn.result.Err? && turn.result.error != Io ==>
               exists cf :: cf in families && Hindered(cf, turn.before, turn.view, turn.full)
    ensures turn.Ran(families) && Roomy(turn.after)
    ensures turn.Named()
  {
    hide Transferred, Stopped, RowsFor, TipOf, RoomAbove, GapsIn, Hindered;
    ShownIsRoomy(families, primary);
    PassKeepsTips(turn.before, turn.view, turn.full, Members(families), turn.after);
  }

  lemma ShownIsRoomy(families: seq<Cf>, primary: Contents)
    requires Roomy(primary)
    ensures Roomy(Shown(families, primary))
  {
  }

  // ---- What the node may rely on ----

  lemma TipsKeepBacking(report: WatermarkReport, before: Contents, after: Contents)
    requires Backed(report, before) && TipsKept(before, after)
    ensures Backed(report, after)
  {
    forall name | name in report
      ensures TipKept(Cf.Parse(name).value, before, after)
    {
      TipMeansJournal(Cf.Parse(name).value, before);
    }
  }

  lemma TipMeansJournal(cf: Cf, contents: Contents)
    requires TipOf(cf, contents).Ok? && TipOf(cf, contents).value.Some?
    ensures cf in contents && cf.IsJournal()
  {
  }

  lemma PassKeepsBacking(turn: PassRun, families: seq<Cf>, report: WatermarkReport)
    requires turn.Ran(families) && Backed(report, turn.before)
    ensures Backed(report, turn.after)
  {
    hide TipKept, TipOf, Roomy, Transferred, Stopped, Backed;
    PassKeepsTips(turn.before, turn.view, turn.full, Members(families), turn.after);
    TipsKeepBacking(report, turn.before, turn.after);
  }

  /** The report of a finished pass names the tips the pass left. */
  lemma ReportNamesTips(turn: PassRun, families: seq<Cf>, name: string)
    requires turn.Ran(families) && turn.result.Ok? && turn.Named()
    requires name in FromPass(turn.result.value)
    ensures Cf.Parse(name).Some?
    ensures TipOf(Cf.Parse(name).value, turn.after) == Ok(Some(FromPass(turn.result.value)[name]))
  {
    hide TipOf, Roomy, Transferred, Stopped, RowsFor, Cf.Parse, Cf.Name;
  }

  lemma PassReportIsBacked(turn: PassRun, families: seq<Cf>, earlier: WatermarkReport)
    requires turn.Ran(families) && turn.result.Ok? && turn.Named()
    requires Backed(earlier, turn.after)
    ensures Backed(FromPass(turn.result.value), turn.after)
    ensures S.NoHigher(earlier, FromPass(turn.result.value))
  {
    hide TipOf, PassRun.Ran, FromPass, Cf.Parse;
    forall name | name in FromPass(turn.result.value)
      ensures Cf.Parse(name).Some?
      ensures TipOf(Cf.Parse(name).value, turn.after) == Ok(Some(FromPass(turn.result.value)[name]))
    {
      ReportNamesTips(turn, families, name);
    }
  }

  ghost predicate AllBacked(bodies: seq<WatermarkReport>, archive: Contents) {
    forall body :: body in bodies ==> Backed(body, archive)
  }

  /** For no family does a later report fall below an earlier one. */
  ghost predicate Rising(bodies: seq<WatermarkReport>) {
    forall i, j :: 0 <= i < j < |bodies| ==> S.NoHigher(bodies[i], bodies[j])
  }

  lemma RisingMore(bodies: seq<WatermarkReport>, last: WatermarkReport)
    requires Rising(bodies) && forall body :: body in bodies ==> S.NoHigher(body, last)
    ensures Rising(bodies + [last])
  {
    hide S.NoHigher;
  }

  /**
   Over any sequence of passes, finished or failed, in one process or in several one after another:
   every report sent stays backed by the archive ever after, and for no family does a later report
   fall below an earlier one.
   */
  lemma {:induction false} ReportsHold(families: seq<Cf>, start: Contents, passes: seq<PassRun>, end: Contents)
    requires Chained(families, start, passes, end) && WellNamed(passes)
    ensures AllBacked(Bodies(passes), end) && Rising(Bodies(passes))
    decreases |passes|
  {
    hide AllBacked, Rising, PassRun.Ran, Bodies;
    if passes == [] {
      NothingHolds(end);
    } else {
      var last, init := passes[|passes| - 1], passes[..|passes| - 1];
      assert WellNamed(init) && last in passes;
      assert passes == init + [last];
      ReportsHold(families, start, init, last.before);
      OneMoreHolds(families, init, last);
    }
  }

  lemma OneMoreHolds(families: seq<Cf>, init: seq<PassRun>, last: PassRun)
    requires WellNamed(init) && last.Named() && WellNamed(init + [last]) && last.Ran(families)
    requires AllBacked(Bodies(init), last.before) && Rising(Bodies(init))
    ensures AllBacked(Bodies(init + [last]), last.after) && Rising(Bodies(init + [last]))
  {
    hide Backed, Rising, PassRun.Ran, Bodies, S.NoHigher, FromPass;
    BodiesOfMore(init, last);
    LastReportHolds(families, Bodies(init), last);
    if last.result.Ok? && FromPass(last.result.value) != map[] {
      RisingMore(Bodies(init), FromPass(last.result.value));
    } else {
      assert Bodies(init + [last]) == Bodies(init);
    }
  }

  lemma NothingHolds(archive: Contents)
    ensures Bodies([]) == [] && AllBacked([], archive) && Rising([])
  {
  }

  lemma LastReportHolds(families: seq<Cf>, earlier: seq<WatermarkReport>, last: PassRun)
    requires last.Ran(families) && last.Named()
    requires forall body :: body in earlier ==> Backed(body, last.before)
    ensures forall body :: body in earlier ==> Backed(body, last.after)
    ensures last.result.Ok? ==> Backed(FromPass(last.result.value), last.after)
    ensures last.result.Ok? ==> forall body :: body in earlier ==> S.NoHigher(body, FromPass(last.result.value))
  {
    hide Backed, S.NoHigher, FromPass, PassRun.Ran;
    forall body | body in earlier
      ensures Backed(body, last.after)
      ensures last.result.Ok? ==> S.NoHigher(body, FromPass(last.result.value))
    {
      PassKeepsBacking(last, families, body);
      if last.result.Ok? {
        PassReportIsBacked(last, families, body);
      }
    }
    if last.result.Ok? {
      NothingIsBacked(last.after);
      PassReportIsBacked(last, families, map[]);
    }
  }

  lemma NothingIsBacked(archive: Contents)
    ensures Backed(map[], archive)
  {
  }
}
