/** What every run of the archival protocol keeps. */
module ProtocolSafety {
  import opened ByteStrings
  import opened Families
  import opened Numbers
  import opened Outcomes
  import opened Protocol

  // ---- One journal ----

  ghost predicate Covered(raised: set<Gap>, cf: Cf, i: nat) {
    exists g :: g in raised && g.cf == cf && g.expectedFrom <= i < g.nodeFloor
  }

  /** `i` lies between the archive's first and last copies. */
  ghost predicate Spanned(copies: Copies, i: nat) {
    && (exists lo :: lo in copies && lo <= i)
    && (exists hi :: hi in copies && i <= hi)
  }

  ghost predicate Faithful(j: Journal, copies: Copies) {
    forall i :: i in copies ==> j.Appended(i) && copies[i] == j.At(i)
  }

  /** The copies missing from the middle of the archive are exactly those some gap announced. */
  ghost predicate HolesAreGaps(raised: set<Gap>, cf: Cf, copies: Copies) {
    forall i :: Spanned(copies, i) ==> (i !in copies <==> Covered(raised, cf, i))
  }

  ghost predicate JournalInv(raised: set<Gap>, cf: Cf, j: Journal, w: Window, copies: Copies) {
    && j.Valid()
    && j.origin <= w.floor <= j.floor && w.floor <= w.next <= j.Next()
    && Faithful(j, copies)
    && (forall i :: i in copies ==> i < w.next)
    && (copies != map[] ==> exists lo :: lo in copies && lo <= w.floor)
    && (forall g :: g in raised && g.cf == cf ==>
          Tip(copies).Some? && g.expectedFrom <= Tip(copies).value + 1 && g.nodeFloor <= w.floor)
    && HolesAreGaps(raised, cf, copies)
  }

  /** `batch` is what the journal holds from `base` on. */
  ghost predicate ReadFrom(j: Journal, batch: seq<Bytes>, base: nat) {
    && j.origin <= base && base + |batch| <= j.Next()
    && batch == j.values[base - j.origin..base - j.origin + |batch|]
  }

  /** What holds of a journal while it is being copied. */
  ghost predicate CopyInv(raised: set<Gap>, j: Journal, w: Window, copies: Copies, phase: Phase)
    requires phase.Copying?
  {
    var batch, position := phase.batch, phase.position;
    && |batch| <= BATCH
    && |batch| <= position <= w.next
    && w.floor <= position - |batch| == Seek(w, ResumeAt(copies, w))
    && ReadFrom(j, batch, position - |batch|)
    && GapsFound(phase.cf, copies, w) <= raised
    && phase.highest == if batch == [] then Tip(copies) else Some(position - 1)
  }

  ghost predicate CaughtUp(copies: Copies, w: Window) {
    forall i :: w.floor <= i < w.next ==> i in copies
  }

  lemma TipIsUnique(copies: Copies, tip: nat)
    requires IsTip(copies, tip)
    ensures Tip(copies) == Some(tip)
  {
  }

  lemma CommitTip(copies: Copies, batch: seq<Bytes>, position: nat)
    requires 0 < |batch| <= position
    requires forall i :: i in copies ==> i < position
    ensures Tip(Commit(copies, batch, position)) == Some(position - 1)
    ensures forall i :: i in Commit(copies, batch, position) ==> i < position
  {
    TipIsUnique(Commit(copies, batch, position), position - 1);
  }

  /** An append changes nothing that was copied or is about to be. */
  lemma AppendKeepsJournal(raised: set<Gap>, cf: Cf, j: Journal, w: Window, copies: Copies, value: Bytes)
    requires JournalInv(raised, cf, j, w, copies)
    ensures JournalInv(raised, cf, j.(values := j.values + [value]), w, copies)
  {
  }

  lemma AppendKeepsCopy(raised: set<Gap>, j: Journal, w: Window, copies: Copies, phase: Phase, value: Bytes)
    requires phase.Copying? && CopyInv(raised, j, w, copies, phase)
    ensures CopyInv(raised, j.(values := j.values + [value]), w, copies, phase)
  {
  }

  lemma HigherGapsCoverNothing(raised: set<Gap>, found: set<Gap>, cf: Cf, i: nat)
    requires forall g :: g in found && g.cf == cf ==> i < g.expectedFrom
    ensures Covered(raised + found, cf, i) <==> Covered(raised, cf, i)
  {
    if Covered(raised, cf, i) {
      var g :| g in raised && g.cf == cf && g.expectedFrom <= i < g.nodeFloor;
      assert g in raised + found;
    }
  }

  /** Starting on a journal raises only a gap that lies above everything archived so far. */
  lemma StartKeepsJournal(raised: set<Gap>, started: Cf, cf: Cf, j: Journal, w: Window, copies: Copies, found: set<Gap>)
    requires JournalInv(raised, cf, j, w, copies)
    requires forall g :: g in found ==> g.cf == started
    requires started == cf ==> found == GapsFound(cf, copies, w)
    ensures JournalInv(raised + found, cf, j, w, copies)
  {
    forall g | g in raised + found && g.cf == cf
      ensures Tip(copies).Some? && g.expectedFrom <= Tip(copies).value + 1 && g.nodeFloor <= w.floor
    {
    }
    forall i: nat | Spanned(copies, i)
      ensures i !in copies <==> Covered(raised + found, cf, i)
    {
      HigherGapsCoverNothing(raised, found, cf, i);
    }
  }

  /** A commit extends the archive past any hole, and every hole it leaves was announced. */
  lemma CommitKeepsJournal(raised: set<Gap>, j: Journal, w: Window, copies: Copies, phase: Phase)
    requires phase.Copying? && phase.batch != []
    requires JournalInv(raised, phase.cf, j, w, copies) && CopyInv(raised, j, w, copies, phase)
    ensures JournalInv(raised, phase.cf, j, w, Commit(copies, phase.batch, phase.position))
  {
    var longer := Commit(copies, phase.batch, phase.position);
    CommitExtends(raised, j, w, copies, phase);
    assert phase.position - |phase.batch| in longer;
    forall i: nat | Spanned(longer, i)
      ensures i !in longer <==> Covered(raised, phase.cf, i)
    {
      CommitHoles(raised, j, w, copies, phase, i);
    }
  }

  lemma CommitKeepsCopy(raised: set<Gap>, j: Journal, w: Window, copies: Copies, phase: Phase)
    requires phase.Copying? && phase.batch != []
    requires JournalInv(raised, phase.cf, j, w, copies) && CopyInv(raised, j, w, copies, phase)
    ensures CopyInv(raised, j, w, Commit(copies, phase.batch, phase.position), phase.(batch := []))
  {
    CommitExtends(raised, j, w, copies, phase);
  }

  lemma CommitExtends(raised: set<Gap>, j: Journal, w: Window, copies: Copies, phase: Phase)
    requires phase.Copying? && phase.batch != []
    requires JournalInv(raised, phase.cf, j, w, copies) && CopyInv(raised, j, w, copies, phase)
    ensures Tip(Commit(copies, phase.batch, phase.position)) == Some(phase.position - 1)
    ensures Tip(copies).Some? ==> Tip(copies).value < phase.position - 1
    ensures Faithful(j, Commit(copies, phase.batch, phase.position))
    ensures forall i :: i in Commit(copies, phase.batch, phase.position) ==> i < w.next
  {
    hide HolesAreGaps, Faithful;
    assert forall i :: i in copies ==> i <= Tip(copies).value < phase.position - |phase.batch|;
    CommitTip(copies, phase.batch, phase.position);
    CommitIsFaithful(j, copies, phase.batch, phase.position);
  }

  lemma CommitIsFaithful(j: Journal, copies: Copies, batch: seq<Bytes>, position: nat)
    requires |batch| <= position && ReadFrom(j, batch, position - |batch|)
    requires Faithful(j, copies)
    ensures Faithful(j, Commit(copies, batch, position))
  {
    var longer, base := Commit(copies, batch, position), position - |batch|;
    forall i | i in longer
      ensures j.Appended(i) && longer[i] == j.At(i)
    {
      if base <= i < position {
        assert longer[i] == batch[i - base];
      }
    }
  }

  lemma CommitHoles(raised: set<Gap>, j: Journal, w: Window, copies: Copies, phase: Phase, i: nat)
    requires phase.Copying? && phase.batch != []
    requires JournalInv(raised, phase.cf, j, w, copies) && CopyInv(raised, j, w, copies, phase)
    requires Spanned(Commit(copies, phase.batch, phase.position), i)
    ensures i !in Commit(copies, phase.batch, phase.position) <==> Covered(raised, phase.cf, i)
  {
    hide Faithful, ReadFrom;
    if phase.position - |phase.batch| <= i {
      CommitTip(copies, phase.batch, phase.position);
    } else {
      assert i !in Commit(copies, phase.batch, phase.position) <==> i !in copies;
      HolesBelowBatch(raised, j, w, copies, phase, i);
    }
  }

  lemma HolesBelowBatch(raised: set<Gap>, j: Journal, w: Window, copies: Copies, phase: Phase, i: nat)
    requires phase.Copying? && phase.batch != []
    requires JournalInv(raised, phase.cf, j, w, copies) && CopyInv(raised, j, w, copies, phase)
    requires Spanned(Commit(copies, phase.batch, phase.position), i)
    requires i < phase.position - |phase.batch|
    ensures i !in copies <==> Covered(raised, phase.cf, i)
  {
    hide Faithful, ReadFrom;
    var lo :| lo in Commit(copies, phase.batch, phase.position) && lo <= i;
    assert lo in copies;
    var tip := Tip(copies).value;
    if i <= tip {
      assert Spanned(copies, i);
    } else {
      assert Gap(phase.cf, tip + 1, w.floor) in GapsFound(phase.cf, copies, w);
    }
  }

  /** A journal copied to the end of the view agrees with the view everywhere. */
  lemma FinishedIsCaughtUp(raised: set<Gap>, cf: Cf, j: Journal, w: Window, copies: Copies, phase: Phase)
    requires phase.Copying? && phase.cf == cf && phase.batch == [] && phase.position >= w.next
    requires JournalInv(raised, cf, j, w, copies) && CopyInv(raised, j, w, copies, phase)
    ensures CaughtUp(copies, w)
  {
    forall i | w.floor <= i < w.next
      ensures i in copies
    {
      assert w.Floor() == Some(w.floor);
      assert copies != map[];
      var lo :| lo in copies && lo <= w.floor;
      assert Tip(copies).value in copies && i <= Tip(copies).value;
      assert Spanned(copies, i) && !Covered(raised, cf, i);
    }
  }

  lemma TrimKeepsJournal(raised: set<Gap>, cf: Cf, j: Journal, w: Window, copies: Copies, floor: nat)
    requires JournalInv(raised, cf, j, w, copies) && j.floor <= floor <= j.Next()
    ensures JournalInv(raised, cf, j.(floor := floor), w, copies)
  {
  }

  lemma TrimKeepsCopy(raised: set<Gap>, j: Journal, w: Window, copies: Copies, phase: Phase, floor: nat)
    requires phase.Copying? && CopyInv(raised, j, w, copies, phase)
    ensures CopyInv(raised, j.(floor := floor), w, copies, phase)
  {
  }

  lemma ViewMoveKeepsJournal(raised: set<Gap>, cf: Cf, j: Journal, w: Window, copies: Copies, moved: Window)
    requires JournalInv(raised, cf, j, w, copies)
    requires w.floor <= moved.floor <= j.floor && w.next <= moved.next <= j.Next() && moved.floor <= moved.next
    ensures JournalInv(raised, cf, j, moved, copies)
  {
  }

  lemma StartBeginsCopy(raised: set<Gap>, cf: Cf, j: Journal, w: Window, copies: Copies, phase: Phase)
    requires phase.Copying? && phase.cf == cf && phase.batch == []
    requires phase.position == Seek(w, ResumeAt(copies, w)) && phase.highest == Tip(copies)
    requires JournalInv(raised, cf, j, w, copies) && GapsFound(cf, copies, w) <= raised
    ensures CopyInv(raised, j, w, copies, phase)
  {
  }

  lemma ReadKeepsCopy(raised: set<Gap>, j: Journal, w: Window, copies: Copies, phase: Phase)
    requires phase.Copying? && CopyInv(raised, j, w, copies, phase)
    requires |phase.batch| < BATCH && phase.position < w.next && j.Appended(phase.position)
    ensures CopyInv(raised, j, w, copies,
                    phase.(position := phase.position + 1,
                           batch := phase.batch + [j.At(phase.position)],
                           highest := Some(phase.position)))
  {
  }

  // ---- The whole system ----

  ghost predicate JournalsInv(raised: set<Gap>, node: map<Cf, Journal>, view: map<Cf, Window>, archive: map<Cf, Copies>)
    requires node.Keys == view.Keys == archive.Keys
  {
    forall cf :: cf in node ==> JournalInv(raised, cf, node[cf], view[cf], archive[cf])
  }

  /** Journals not `pending` in this pass agree with its view, and the report names their tips. */
  ghost predicate PassInv(view: map<Cf, Window>, archive: map<Cf, Copies>, pending: set<Cf>, report: Report)
    requires view.Keys == archive.Keys
  {
    && report.Keys !! pending
    && (forall cf :: cf in report ==> cf in archive && Tip(archive[cf]) == Some(report[cf]))
    && (forall cf :: cf in archive && cf !in pending ==>
          CaughtUp(archive[cf], view[cf]) && (Tip(archive[cf]).Some? ==> cf in report))
  }

  ghost predicate PhaseInv(s: State)
    requires s.Shaped()
  {
    match s.phase
    case Idle => true
    case BetweenJournals(todo, report) => PassInv(s.view, s.archive, todo, report)
    case Copying(todo, report, cf, _, _, _) =>
      && cf in s.node && cf !in todo
      && CopyInv(s.raised, s.node[cf], s.view[cf], s.archive[cf], s.phase)
      && PassInv(s.view, s.archive, todo + {cf}, report)
    case Reporting(report) => PassInv(s.view, s.archive, {}, report)
  }

  /** The archive still holds what the report said it held. */
  ghost predicate Honoured(archive: map<Cf, Copies>, report: Report) {
    forall cf :: cf in report ==>
      cf in archive && Tip(archive[cf]).Some? && report[cf] <= Tip(archive[cf]).value
  }

  /** The second report repeats no family with a lower index. */
  ghost predicate NoHigher<K(!new)>(first: map<K, nat>, second: map<K, nat>) {
    forall k :: k in first && k in second ==> first[k] <= second[k]
  }

  ghost predicate SentInv(archive: map<Cf, Copies>, sent: seq<Report>, received: set<Report>) {
    && (forall k :: 0 <= k < |sent| ==> Honoured(archive, sent[k]))
    && (forall k, l :: 0 <= k < l < |sent| ==> NoHigher(sent[k], sent[l]))
    && (forall r :: r in received ==> r in sent)
  }

  ghost predicate Inv(s: State) {
    && s.Shaped()
    && JournalsInv(s.raised, s.node, s.view, s.archive)
    && PhaseInv(s)
    && SentInv(s.archive, s.sent, s.received)
  }

  lemma InitIsShaped(s: State)
    requires Init(s)
    ensures s.Shaped()
  {
  }

  lemma InitInv(s: State)
    requires Init(s)
    ensures Inv(s)
  {
  }

  lemma AppendKeepsInv(policy: Policy, s: State, cf: Cf, value: Bytes)
    requires Inv(s) && Enabled(policy, s, Append(cf, value))
    ensures Inv(Apply(policy, s, Append(cf, value)))
  {
    hide JournalInv, PassInv, SentInv, CopyInv;
    AppendKeepsJournal(s.raised, cf, s.node[cf], s.view[cf], s.archive[cf], value);
    if s.phase.Copying? && s.phase.cf == cf {
      AppendKeepsCopy(s.raised, s.node[cf], s.view[cf], s.archive[cf], s.phase, value);
    }
  }

  lemma TrimKeepsInv(policy: Policy, s: State, cf: Cf, floor: nat)
    requires Inv(s) && Enabled(policy, s, Trim(cf, floor))
    ensures Inv(Apply(policy, s, Trim(cf, floor)))
  {
    hide JournalInv, PassInv, SentInv, CopyInv;
    TrimKeepsJournal(s.raised, cf, s.node[cf], s.view[cf], s.archive[cf], floor);
    if s.phase.Copying? && s.phase.cf == cf {
      TrimKeepsCopy(s.raised, s.node[cf], s.view[cf], s.archive[cf], s.phase, floor);
    }
  }

  lemma CatchUpKeepsInv(policy: Policy, s: State, view: map<Cf, Window>)
    requires Inv(s) && Enabled(policy, s, CatchUp(view))
    ensures Inv(Apply(policy, s, CatchUp(view)))
  {
    hide JournalInv, SentInv, CopyInv;
    forall cf | cf in s.node
      ensures JournalInv(s.raised, cf, s.node[cf], view[cf], s.archive[cf])
    {
      ViewMoveKeepsJournal(s.raised, cf, s.node[cf], s.view[cf], s.archive[cf], view[cf]);
    }
  }

  lemma StartKeepsInv(policy: Policy, s: State, cf: Cf)
    requires Inv(s) && Enabled(policy, s, StartJournal(cf))
    ensures Inv(Apply(policy, s, StartJournal(cf)))
  {
    hide JournalInv, PassInv, SentInv, CopyInv;
    var t := Apply(policy, s, StartJournal(cf));
    var found := GapsFound(cf, s.archive[cf], s.view[cf]);
    forall c | c in s.node
      ensures JournalInv(t.raised, c, s.node[c], s.view[c], s.archive[c])
    {
      StartKeepsJournal(s.raised, cf, c, s.node[c], s.view[c], s.archive[c], found);
    }
    StartBeginsCopy(t.raised, cf, s.node[cf], s.view[cf], s.archive[cf], t.phase);
    assert t.phase.todo + {cf} == s.phase.todo;
  }

  lemma ReadKeepsInv(policy: Policy, s: State)
    requires Inv(s) && Enabled(policy, s, ReadEntry)
    ensures Inv(Apply(policy, s, ReadEntry))
  {
    hide JournalInv, PassInv, SentInv, CopyInv;
    var cf := s.phase.cf;
    ReadKeepsCopy(s.raised, s.node[cf], s.view[cf], s.archive[cf], s.phase);
  }

  ghost predicate Grown(archive: map<Cf, Copies>, grown: map<Cf, Copies>) {
    && archive.Keys == grown.Keys
    && forall cf :: cf in archive && Tip(archive[cf]).Some? ==>
         Tip(grown[cf]).Some? && Tip(archive[cf]).value <= Tip(grown[cf]).value
  }

  lemma CommitGrows(policy: Policy, s: State)
    requires Inv(s) && Enabled(policy, s, CommitBatch)
    ensures Grown(s.archive, Apply(policy, s, CommitBatch).archive)
  {
    hide JournalInv, CopyInv, SentInv, PassInv, Tip, Commit;
    var cf := s.phase.cf;
    CommitExtends(s.raised, s.node[cf], s.view[cf], s.archive[cf], s.phase);
  }

  lemma GrowthKeepsSent(archive: map<Cf, Copies>, grown: map<Cf, Copies>, sent: seq<Report>, received: set<Report>)
    requires SentInv(archive, sent, received) && Grown(archive, grown)
    ensures SentInv(grown, sent, received)
  {
    forall k | 0 <= k < |sent|
      ensures Honoured(grown, sent[k])
    {
      assert Honoured(archive, sent[k]);
    }
  }

  lemma OthersKeepPass(view: map<Cf, Window>, archive: map<Cf, Copies>, changed: map<Cf, Copies>, pending: set<Cf>,
                       report: Report)
    requires view.Keys == archive.Keys == changed.Keys && PassInv(view, archive, pending, report)
    requires forall cf :: cf in archive && cf !in pending ==> changed[cf] == archive[cf]
    ensures PassInv(view, changed, pending, report)
  {
  }

  lemma CommitKeepsInv(policy: Policy, s: State)
    requires Inv(s) && Enabled(policy, s, CommitBatch)
    ensures Inv(Apply(policy, s, CommitBatch))
  {
    hide JournalInv, PassInv, SentInv, CopyInv;
    var t, cf := Apply(policy, s, CommitBatch), s.phase.cf;
    OthersKeepPass(s.view, s.archive, t.archive, s.phase.todo + {cf}, s.phase.report);
    CommitKeepsJournal(s.raised, s.node[cf], s.view[cf], s.archive[cf], s.phase);
    CommitKeepsCopy(s.raised, s.node[cf], s.view[cf], s.archive[cf], s.phase);
    CommitGrows(policy, s);
    GrowthKeepsSent(s.archive, t.archive, s.sent, s.received);
  }

  lemma FinishKeepsPass(view: map<Cf, Window>, archive: map<Cf, Copies>, todo: set<Cf>, report: Report, cf: Cf)
    requires view.Keys == archive.Keys && cf in archive && cf !in todo
    requires PassInv(view, archive, todo + {cf}, report)
    requires CaughtUp(archive[cf], view[cf])
    ensures PassInv(view, archive, todo,
                    if Tip(archive[cf]).Some? then report[cf := Tip(archive[cf]).value] else report)
  {
  }

  lemma FinishKeepsInv(policy: Policy, s: State)
    requires Inv(s) && Enabled(policy, s, FinishJournal)
    ensures Inv(Apply(policy, s, FinishJournal))
  {
    hide JournalInv, PassInv, SentInv;
    var cf := s.phase.cf;
    FinishedIsCaughtUp(s.raised, cf, s.node[cf], s.view[cf], s.archive[cf], s.phase);
    FinishKeepsPass(s.view, s.archive, s.phase.todo, s.phase.report, cf);
  }

  lemma ReportIsHighest(view: map<Cf, Window>, archive: map<Cf, Copies>, report: Report, earlier: Report)
    requires view.Keys == archive.Keys && PassInv(view, archive, {}, report) && Honoured(archive, earlier)
    ensures NoHigher(earlier, report) && Honoured(archive, report)
  {
  }

  lemma SendKeepsInv(policy: Policy, s: State)
    requires Inv(s) && Enabled(policy, s, SendReport)
    ensures Inv(Apply(policy, s, SendReport))
  {
    hide JournalInv, PassInv, Honoured, NoHigher;
    var sent, report := s.sent, s.phase.report;
    ReportIsHighest(s.view, s.archive, report, map[]);
    forall k | 0 <= k < |sent|
      ensures NoHigher(sent[k], report)
    {
      ReportIsHighest(s.view, s.archive, report, sent[k]);
    }
  }

  lemma StepKeepsInv(policy: Policy, s: State, step: Step)
    requires Inv(s) && Enabled(policy, s, step)
    ensures Inv(Apply(policy, s, step))
  {
    match step
    case Append(cf, value) => AppendKeepsInv(policy, s, cf, value);
    case Trim(cf, floor) => TrimKeepsInv(policy, s, cf, floor);
    case CatchUp(view) => CatchUpKeepsInv(policy, s, view);
    case StartJournal(cf) => StartKeepsInv(policy, s, cf);
    case ReadEntry => ReadKeepsInv(policy, s);
    case CommitBatch => CommitKeepsInv(policy, s);
    case FinishJournal => FinishKeepsInv(policy, s);
    case SendReport => SendKeepsInv(policy, s);
    case _ =>
  }

  lemma {:induction false} RunKeepsInv(policy: Policy, s: State, steps: seq<Step>, t: State)
    requires Inv(s) && Leads(policy, s, steps, t)
    ensures Inv(t)
    decreases |steps|
  {
    if steps != [] {
      StepKeepsInv(policy, s, steps[0]);
      RunKeepsInv(policy, Apply(policy, s, steps[0]), steps[1..], t);
    }
  }

  lemma ReachableInv(policy: Policy, s: State, steps: seq<Step>, t: State)
    requires Init(s) && Leads(policy, s, steps, t)
    ensures Inv(t)
  {
    InitInv(s);
    RunKeepsInv(policy, s, steps, t);
  }

  // ---- Main results ----

  /** Everything ever appended at or above `start` is at the node or in the archive, unchanged. */
  ghost predicate NothingLost(s: State, start: map<Cf, nat>)
    requires s.Shaped() && start.Keys == s.node.Keys
  {
    forall cf, i: nat :: cf in s.node && start[cf] <= i < s.node[cf].Next() && i < s.node[cf].floor ==>
      s.node[cf].Appended(i) && i in s.archive[cf] && s.archive[cf][i] == s.node[cf].At(i)
  }

  /** What the secondary first showed, and the node's own floors at that moment. */
  datatype Origin = Origin(shown: map<Cf, Window>, floor: map<Cf, nat>)

  ghost function OriginOf(s: State): Origin
    requires s.Shaped()
  {
    Origin(s.view, map cf | cf in s.node :: s.node[cf].floor)
  }

  /** The least index an archive expects next once it holds anything of a journal first shown like this:
      one batch on, or to the end of the view, or past a single entry. */
  function FirstReach(shown: Window): nat {
    shown.floor + if shown.next <= shown.floor then 1 else Min(shown.next - shown.floor, BATCH)
  }

  /** What a node that deletes only under watermarks keeps true of one journal. */
  ghost predicate GuardedJournal(shown: Window, floor: nat, j: Journal, w: Window, copies: Copies) {
    && shown.floor <= w.floor && shown.next <= w.next
    && (copies == map[] ==> j.floor <= floor)
    && (copies != map[] ==>
          && FirstReach(shown) <= Tip(copies).value + 1
          && (exists i :: i in copies && i <= floor)
          && (j.floor <= floor || j.floor <= Tip(copies).value + 1))
  }

  ghost predicate GuardedJournals(o: Origin, s: State) {
    && s.Shaped() && o.shown.Keys == o.floor.Keys == s.node.Keys
    && forall cf :: cf in s.node ==> GuardedJournal(o.shown[cf], o.floor[cf], s.node[cf], s.view[cf], s.archive[cf])
  }

  /** The gap lies among entries that the node had deleted before the archive began, past what a first
      commit takes from a view that trails it. */
  ghost predicate OldGap(o: Origin, g: Gap) {
    g.cf in o.shown && g.cf in o.floor && FirstReach(o.shown[g.cf]) <= g.expectedFrom < g.nodeFloor <= o.floor[g.cf]
  }

  ghost predicate OldGaps(o: Origin, raised: set<Gap>) {
    forall g :: g in raised ==> OldGap(o, g)
  }

  ghost predicate Guarded(s: State, o: Origin) {
    Inv(s) && OldGaps(o, s.raised) && GuardedJournals(o, s)
  }

  lemma CommitKeepsGuarded(shown: Window, floor: nat, raised: set<Gap>, j: Journal, w: Window, copies: Copies,
                           phase: Phase)
    requires phase.Copying? && phase.batch != []
    requires JournalInv(raised, phase.cf, j, w, copies) && CopyInv(raised, j, w, copies, phase)
    requires GuardedJournal(shown, floor, j, w, copies)
    requires |phase.batch| >= BATCH || phase.position >= w.next
    ensures GuardedJournal(shown, floor, j, w, Commit(copies, phase.batch, phase.position))
  {
    CommitExtends(raised, j, w, copies, phase);
    hide HolesAreGaps, Faithful, ReadFrom;
    var longer := Commit(copies, phase.batch, phase.position);
    assert phase.position - |phase.batch| in longer;
    assert forall i :: i in copies ==> i in longer;
  }

  /** Under the guard a journal's floor runs ahead of what was archived only where it already did at
      the beginning, so starting on it finds only a gap from that time. */
  lemma GuardedFindsOldGaps(o: Origin, cf: Cf, raised: set<Gap>, j: Journal, w: Window, copies: Copies)
    requires cf in o.shown && cf in o.floor
    requires JournalInv(raised, cf, j, w, copies) && GuardedJournal(o.shown[cf], o.floor[cf], j, w, copies)
    ensures OldGaps(o, GapsFound(cf, copies, w))
  {
    hide HolesAreGaps, Faithful;
  }

  lemma StepKeepsGuarded(s: State, o: Origin, step: Step)
    requires Guarded(s, o) && Enabled(WatermarkOnly, s, step)
    ensures Guarded(Apply(WatermarkOnly, s, step), o)
  {
    hide JournalInv, CopyInv, PhaseInv, SentInv, GuardedJournals;
    StepKeepsInv(WatermarkOnly, s, step);
    match step
    case CommitBatch => GuardedCommit(s, o);
    case Trim(cf, floor) => GuardedTrim(s, o, cf, floor);
    case StartJournal(cf) => GuardedStart(s, o, cf);
    case _ => GuardedElsewhere(s, o, step);
  }

  lemma GuardedStart(s: State, o: Origin, cf: Cf)
    requires Guarded(s, o) && Enabled(WatermarkOnly, s, StartJournal(cf))
    ensures OldGaps(o, Apply(WatermarkOnly, s, StartJournal(cf)).raised)
    ensures GuardedJournals(o, Apply(WatermarkOnly, s, StartJournal(cf)))
  {
    hide JournalInv, GuardedJournal, SentInv, PhaseInv, OldGap, GapsFound;
    GuardedFindsOldGaps(o, cf, s.raised, s.node[cf], s.view[cf], s.archive[cf]);
  }

  /** No other step touches the archive or the node's floors, or takes a view back. */
  lemma GuardedElsewhere(s: State, o: Origin, step: Step)
    requires Guarded(s, o) && Enabled(WatermarkOnly, s, step)
    requires !step.CommitBatch? && !step.Trim? && !step.StartJournal?
    ensures Apply(WatermarkOnly, s, step).raised == s.raised
    ensures GuardedJournals(o, Apply(WatermarkOnly, s, step))
  {
    hide Inv, OldGaps, Tip, GapsFound, ResumeAt, GuardedJournal;
    GuardedStays(s, o, Apply(WatermarkOnly, s, step));
  }

  lemma GuardedStays(s: State, o: Origin, t: State)
    requires GuardedJournals(o, s) && t.Shaped() && t.node.Keys == s.node.Keys && t.archive == s.archive
    requires forall cf :: cf in s.node ==>
               && t.node[cf].floor == s.node[cf].floor
               && s.view[cf].floor <= t.view[cf].floor && s.view[cf].next <= t.view[cf].next
    ensures GuardedJournals(o, t)
  {
    hide Tip, FirstReach;
  }

  lemma GuardedCommit(s: State, o: Origin)
    requires Guarded(s, o) && Enabled(WatermarkOnly, s, CommitBatch)
    ensures GuardedJournals(o, Apply(WatermarkOnly, s, CommitBatch))
  {
    hide JournalInv, CopyInv, SentInv, PassInv, GuardedJournal, OldGaps;
    var cf := s.phase.cf;
    CommitKeepsGuarded(o.shown[cf], o.floor[cf], s.raised, s.node[cf], s.view[cf], s.archive[cf], s.phase);
  }

  /** A deletion covered by a received report stays below the archive's tip. */
  lemma TrimIsBelowTip(s: State, cf: Cf, floor: nat)
    requires Inv(s) && Enabled(WatermarkOnly, s, Trim(cf, floor))
    ensures Tip(s.archive[cf]).Some? && floor <= Tip(s.archive[cf]).value + 1
  {
    hide JournalInv, CopyInv, PassInv, Tip, JournalsInv, PhaseInv, NoHigher;
    var r :| r in s.received && cf in r && floor <= r[cf] + 1;
    var k :| 0 <= k < |s.sent| && s.sent[k] == r;
    assert Honoured(s.archive, s.sent[k]);
  }

  lemma GuardedTrim(s: State, o: Origin, cf: Cf, floor: nat)
    requires Guarded(s, o) && Enabled(WatermarkOnly, s, Trim(cf, floor))
    ensures GuardedJournals(o, Apply(WatermarkOnly, s, Trim(cf, floor)))
  {
    TrimIsBelowTip(s, cf, floor);
    hide Inv, OldGaps, Tip, FirstReach;
  }

  lemma {:induction false} RunKeepsGuarded(s: State, o: Origin, steps: seq<Step>, t: State)
    requires Guarded(s, o) && Leads(WatermarkOnly, s, steps, t)
    ensures Guarded(t, o)
    decreases |steps|
  {
    if steps != [] {
      StepKeepsGuarded(s, o, steps[0]);
      RunKeepsGuarded(Apply(WatermarkOnly, s, steps[0]), o, steps[1..], t);
    }
  }

  lemma InitGuarded(s: State)
    requires Init(s)
    ensures Guarded(s, OriginOf(s))
  {
    InitInv(s);
    hide Inv;
  }

  /**
   While the node deletes only what a received report covers, no interleaving of appends, trims,
   catch-ups, copies, stops, and late, repeated or lost reports loses an entry: everything from the
   node's first floor on is at the node or archived. A gap is raised only for entries below that floor,
   which the node had deleted before the archive began while the first view still showed older ones.
   */
  lemma NoLoss(s: State, steps: seq<Step>, t: State)
    requires Init(s) && Leads(WatermarkOnly, s, steps, t)
    ensures t.Shaped() && t.node.Keys == s.node.Keys
    ensures NothingLost(t, OriginOf(s).floor)
    ensures OldGaps(OriginOf(s), t.raised)
  {
    hide Init, Leads, PhaseInv, SentInv, JournalInv, GuardedJournal, OldGap;
    InitIsShaped(s);
    var o := OriginOf(s);
    InitGuarded(s);
    RunKeepsGuarded(s, o, steps, t);
    forall cf, i: nat | cf in t.node && o.floor[cf] <= i < t.node[cf].Next() && i < t.node[cf].floor
      ensures t.node[cf].Appended(i) && i in t.archive[cf] && t.archive[cf][i] == t.node[cf].At(i)
    {
      GuardedHolds(o, t.raised, cf, t.node[cf], t.view[cf], t.archive[cf], i);
    }
  }

  /** A journal whose first view was up to date, or trailed the node by less than a first commit, never has a gap. */
  lemma NoGapWhenCurrent(s: State, steps: seq<Step>, t: State, g: Gap)
    requires Init(s) && Leads(WatermarkOnly, s, steps, t) && g in t.raised
    ensures g.cf in s.node && FirstReach(s.view[g.cf]) < s.node[g.cf].floor
  {
    hide Leads, NothingLost;
    NoLoss(s, steps, t);
    assert OldGap(OriginOf(s), g);
  }

  lemma GuardedHolds(o: Origin, raised: set<Gap>, cf: Cf, j: Journal, w: Window, copies: Copies, i: nat)
    requires cf in o.shown && cf in o.floor && OldGaps(o, raised)
    requires JournalInv(raised, cf, j, w, copies) && GuardedJournal(o.shown[cf], o.floor[cf], j, w, copies)
    requires o.floor[cf] <= i < j.floor
    ensures j.Appended(i) && i in copies && copies[i] == j.At(i)
  {
    assert Tip(copies).value in copies;
    assert Spanned(copies, i);
    OldGapsEndBelow(o, raised, cf, i);
  }

  lemma OldGapsEndBelow(o: Origin, raised: set<Gap>, cf: Cf, i: nat)
    requires OldGaps(o, raised) && (cf in o.floor ==> o.floor[cf] <= i)
    ensures !Covered(raised, cf, i)
  {
    assert forall g :: g in raised ==> OldGap(o, g);
  }

  /**
   Whatever the node deletes, the copies missing from a journal between the archive's first and last
   are exactly those covered by a gap that was raised, and every copy is the entry as appended.
   */
  lemma GapsAreExact(policy: Policy, s: State, steps: seq<Step>, t: State, cf: Cf, first: nat, tip: nat, i: nat)
    requires Init(s) && Leads(policy, s, steps, t)
    requires cf in t.node && cf in t.archive
    requires IsFirst(t.archive[cf], first) && IsTip(t.archive[cf], tip)
    ensures first <= i <= tip ==> (i !in t.archive[cf] <==> Covered(t.raised, cf, i))
    ensures i in t.archive[cf] ==> t.node[cf].Appended(i) && t.archive[cf][i] == t.node[cf].At(i)
  {
    hide Init, Leads, CopyInv, SentInv;
    ReachableInv(policy, s, steps, t);
    assert JournalInv(t.raised, cf, t.node[cf], t.view[cf], t.archive[cf]);
    if first <= i <= tip {
      assert Spanned(t.archive[cf], i);
    }
  }

  /** What is gone from both sides, over any run: an entry the node deleted that lies below the
      archive's first copy, in a raised gap, or past the archive's tip. */
  lemma LostIsKnown(policy: Policy, s: State, steps: seq<Step>, t: State, cf: Cf, i: nat)
    requires Init(s) && Leads(policy, s, steps, t)
    requires cf in t.node && cf in t.archive && t.node[cf].Appended(i)
    ensures i < t.node[cf].floor && i !in t.archive[cf] <==>
            i < t.node[cf].floor && (!Spanned(t.archive[cf], i) || Covered(t.raised, cf, i))
  {
    hide Init, Leads, CopyInv, SentInv;
    ReachableInv(policy, s, steps, t);
    assert JournalInv(t.raised, cf, t.node[cf], t.view[cf], t.archive[cf]);
  }

  /**
   Over every run, each watermark ever sent is still durably archived, reports for a family never
   go down, and a report about to be sent names exactly the archive's tips: one for every journal
   the archive holds anything of.
   */
  lemma WatermarksAreSound(policy: Policy, s: State, steps: seq<Step>, t: State)
    requires Init(s) && Leads(policy, s, steps, t)
    ensures forall k :: 0 <= k < |t.sent| ==> Honoured(t.archive, t.sent[k])
    ensures forall k, l :: 0 <= k < l < |t.sent| ==> NoHigher(t.sent[k], t.sent[l])
    ensures t.phase.Reporting? ==> forall cf :: cf in t.archive ==>
              (Tip(t.archive[cf]) == if cf in t.phase.report then Some(t.phase.report[cf]) else None)
  {
    hide Init, Leads, JournalInv, CopyInv, Honoured, NoHigher, CaughtUp;
    ReachableInv(policy, s, steps, t);
  }

  /**
   When a pass has finished, the archive holds every entry its one view showed, for every journal,
   as the node appended it, however many passes were stopped before it.
   */
  lemma FinishedPassHoldsItsView(policy: Policy, s: State, steps: seq<Step>, t: State, cf: Cf, i: nat)
    requires Init(s) && Leads(policy, s, steps, t)
    requires t.phase.Reporting? && cf in t.view && t.view[cf].floor <= i < t.view[cf].next
    ensures cf in t.archive && i in t.archive[cf]
    ensures cf in t.node && t.node[cf].Appended(i) && t.archive[cf][i] == t.node[cf].At(i)
  {
    hide Init, Leads, CopyInv, SentInv;
    ReachableInv(policy, s, steps, t);
    assert JournalInv(t.raised, cf, t.node[cf], t.view[cf], t.archive[cf]);
  }
}
