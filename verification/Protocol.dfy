/**
 The archival protocol: a node that appends to and trims its journals, a secondary view of it that
 moves only on request, and an archiver that copies the view, may stop at any point, and reports
 how far it durably got so that the node may delete.
 */
module Protocol {
  import opened ByteStrings
  import opened Families
  import opened Outcomes

  /** Entries accumulated before one durable commit. */
  const BATCH := 1024

  /** A journal at the node: everything ever appended, numbered from `origin`, of which the node
      still holds the entries from `floor` on. */
  datatype Journal = Journal(origin: nat, values: seq<Bytes>, floor: nat) {

    function Next(): nat {
      origin + |values|
    }

    predicate Valid() {
      origin <= floor <= Next()
    }

    predicate Appended(i: nat) {
      origin <= i < Next()
    }

    function At(i: nat): Bytes
      requires Appended(i)
    {
      values[i - origin]
    }
  }

  /** The indices of a journal that the secondary shows: `floor` inclusive to `next` exclusive.
      Its values are the node's, because an index is written once. */
  datatype Window = Window(floor: nat, next: nat) {

    function Floor(): Option<nat> {
      if floor < next then Some(floor) else None
    }
  }

  /** What the archive holds of one journal. */
  type Copies = map<nat, Bytes>

  type Report = map<Cf, nat>

  datatype Gap = Gap(cf: Cf, expectedFrom: nat, nodeFloor: nat)

  /** Where the archiver is. Everything but `Idle` is lost when it stops. */
  datatype Phase =
    | Idle
    | BetweenJournals(todo: set<Cf>, report: Report)
    | Copying(todo: set<Cf>, report: Report, cf: Cf, position: nat, batch: seq<Bytes>, highest: Option<nat>)
    | Reporting(report: Report)

  datatype State = State(
    node: map<Cf, Journal>,
    view: map<Cf, Window>,
    archive: map<Cf, Copies>,
    phase: Phase,
    raised: set<Gap>,
    sent: seq<Report>,
    received: set<Report>)
  {
    predicate Shaped() {
      node.Keys == view.Keys == archive.Keys
    }
  }

  datatype Step =
    | Append(cf: Cf, value: Bytes)
    | Trim(cf: Cf, floor: nat)
    | CatchUp(view: map<Cf, Window>)
    | StartJournal(cf: Cf)
    | ReadEntry
    | CommitBatch
    | FinishJournal
    | FinishPass
    | SendReport
    | DeliverReport(report: Report)
    | Stop

  /** When the node may delete: whenever it likes, or only what a report it received covers. */
  datatype Policy = Unrestricted | WatermarkOnly

  ghost predicate IsTip(copies: Copies, tip: nat) {
    tip in copies && forall i :: i in copies ==> i <= tip
  }

  ghost predicate IsFirst(copies: Copies, first: nat) {
    first in copies && forall i :: i in copies ==> first <= i
  }

  /** The highest archived index: the archiver's only memory of how far it got. */
  ghost function Tip(copies: Copies): (tip: Option<nat>)
    ensures tip.None? <==> copies == map[]
    ensures tip.Some? ==> IsTip(copies, tip.value)
  {
    if copies == map[] then None
    else
      TipExists(copies);
      var t :| IsTip(copies, t);
      Some(t)
  }

  lemma {:induction false} TipExists(copies: Copies)
    requires copies != map[]
    ensures exists tip :: IsTip(copies, tip)
    decreases |copies|
  {
    var i :| i in copies;
    var rest := copies - {i};
    if rest == map[] {
      assert forall j :: j in copies ==> j == i || j in rest;
      assert IsTip(copies, i);
    } else {
      TipExists(rest);
      var t :| IsTip(rest, t);
      assert forall j :: j in copies ==> j == i || j in rest;
      assert IsTip(copies, if i < t then t else i);
    }
  }

  /** The index a copy of this journal expects next. */
  ghost function ResumeAt(copies: Copies, window: Window): nat {
    match Tip(copies)
    case Some(tip) => tip + 1
    case None =>
      match window.Floor()
      case Some(floor) => floor
      case None => 0
  }

  /** Seeking to an index lands on the first entry at or above it. */
  function Seek(window: Window, from: nat): nat {
    if from < window.floor then window.floor else from
  }

  ghost function GapsFound(cf: Cf, copies: Copies, window: Window): set<Gap> {
    var from := ResumeAt(copies, window);
    if Tip(copies).Some? && window.Floor().Some? && window.floor > from
    then {Gap(cf, from, window.floor)}
    else {}
  }

  /** The entry for index `i` in a batch that ends just below `position`. */
  function BatchEntry(batch: seq<Bytes>, position: nat, i: nat): Bytes
    requires |batch| <= position && position - |batch| <= i < position
  {
    batch[i - (position - |batch|)]
  }

  /** The archive after committing `batch`, whose entries end just below `position`. */
  function Commit(copies: Copies, batch: seq<Bytes>, position: nat): Copies
    requires |batch| <= position
  {
    copies + map i: nat | position - |batch| <= i < position :: BatchEntry(batch, position, i)
  }

  ghost predicate Enabled(policy: Policy, s: State, step: Step)
    requires s.Shaped()
  {
    match step
    case Append(cf, _) => cf in s.node
    case Trim(cf, floor) =>
      && cf in s.node
      && s.node[cf].floor < floor <= s.node[cf].Next()
      && (policy.WatermarkOnly? ==> exists r :: r in s.received && cf in r && floor <= r[cf] + 1)
    case CatchUp(view) =>
      && s.phase.Idle?
      && view.Keys == s.view.Keys
      && forall cf :: cf in view ==>
           && s.view[cf].floor <= view[cf].floor <= s.node[cf].floor
           && s.view[cf].next <= view[cf].next <= s.node[cf].Next()
           && view[cf].floor <= view[cf].next
    case StartJournal(cf) => s.phase.BetweenJournals? && cf in s.phase.todo && cf in s.view
    case ReadEntry =>
      && s.phase.Copying?
      && s.phase.cf in s.node
      && s.phase.position < s.view[s.phase.cf].next
      && |s.phase.batch| < BATCH
      && s.node[s.phase.cf].Appended(s.phase.position)
    case CommitBatch =>
      && s.phase.Copying?
      && s.phase.cf in s.node
      && 0 < |s.phase.batch| <= s.phase.position
      && (|s.phase.batch| >= BATCH || s.phase.position >= s.view[s.phase.cf].next)
    case FinishJournal =>
      && s.phase.Copying?
      && s.phase.cf in s.node
      && s.phase.batch == []
      && s.phase.position >= s.view[s.phase.cf].next
    case FinishPass => s.phase.BetweenJournals? && s.phase.todo == {}
    case SendReport => s.phase.Reporting? && s.phase.report != map[]
    case DeliverReport(report) => report in s.sent
    case Stop => true
  }

  ghost function Apply(policy: Policy, s: State, step: Step): (t: State)
    requires s.Shaped() && Enabled(policy, s, step)
    ensures t.Shaped() && t.node.Keys == s.node.Keys
  {
    match step
    case Append(cf, value) =>
      s.(node := s.node[cf := s.node[cf].(values := s.node[cf].values + [value])])
    case Trim(cf, floor) =>
      s.(node := s.node[cf := s.node[cf].(floor := floor)])
    case CatchUp(view) =>
      s.(view := view, phase := BetweenJournals(view.Keys, map[]))
    case StartJournal(cf) =>
      s.(phase := Copying(s.phase.todo - {cf}, s.phase.report, cf,
                          Seek(s.view[cf], ResumeAt(s.archive[cf], s.view[cf])), [], Tip(s.archive[cf])),
         raised := s.raised + GapsFound(cf, s.archive[cf], s.view[cf]))
    case ReadEntry =>
      var value := s.node[s.phase.cf].At(s.phase.position);
      s.(phase := s.phase.(position := s.phase.position + 1,
                           batch := s.phase.batch + [value],
                           highest := Some(s.phase.position)))
    case CommitBatch =>
      var cf := s.phase.cf;
      s.(archive := s.archive[cf := Commit(s.archive[cf], s.phase.batch, s.phase.position)],
         phase := s.phase.(batch := []))
    case FinishJournal =>
      var report := match s.phase.highest
        case Some(tip) => s.phase.report[s.phase.cf := tip]
        case None => s.phase.report;
      s.(phase := BetweenJournals(s.phase.todo, report))
    case FinishPass => s.(phase := Reporting(s.phase.report))
    case SendReport => s.(sent := s.sent + [s.phase.report], phase := Idle)
    case DeliverReport(report) => s.(received := s.received + {report})
    case Stop => s.(phase := Idle)
  }

  /** Every step of the list is enabled in turn and the list leads from `s` to `t`. */
  ghost predicate Leads(policy: Policy, s: State, steps: seq<Step>, t: State)
    requires s.Shaped()
    decreases |steps|
  {
    if steps == [] then s == t
    else Enabled(policy, s, steps[0]) && Leads(policy, Apply(policy, s, steps[0]), steps[1..], t)
  }

  /** A node with any history behind it, a secondary that may trail it, and an empty archive. */
  ghost predicate Init(s: State) {
    && s.Shaped()
    && s.phase.Idle? && s.raised == {} && s.sent == [] && s.received == {}
    && forall cf :: cf in s.node ==>
         && s.node[cf].Valid()
         && s.node[cf].origin <= s.view[cf].floor <= s.node[cf].floor
         && s.view[cf].floor <= s.view[cf].next <= s.node[cf].Next()
         && s.archive[cf] == map[]
  }

  lemma {:induction false} LeadsConcat(policy: Policy, s: State, first: seq<Step>, mid: State, second: seq<Step>,
                                       t: State)
    requires s.Shaped() && mid.Shaped()
    requires Leads(policy, s, first, mid) && Leads(policy, mid, second, t)
    ensures Leads(policy, s, first + second, t)
    decreases |first|
  {
    if first == [] {
      assert first + second == second;
    } else {
      assert (first + second)[1..] == first[1..] + second;
      LeadsConcat(policy, Apply(policy, s, first[0]), first[1..], mid, second, t);
    }
  }

  lemma OneStepLeads(policy: Policy, s: State, step: Step)
    requires s.Shaped() && Enabled(policy, s, step)
    ensures Leads(policy, s, [step], Apply(policy, s, step))
  {
    assert [step][1..] == [];
  }

  lemma LeadsMore(policy: Policy, s: State, steps: seq<Step>, t: State, step: Step)
    requires s.Shaped() && t.Shaped() && Leads(policy, s, steps, t) && Enabled(policy, t, step)
    ensures Leads(policy, s, steps + [step], Apply(policy, t, step))
  {
    hide Enabled, Apply, Leads;
    OneStepLeads(policy, t, step);
    LeadsConcat(policy, s, steps, t, [step], Apply(policy, t, step));
  }
}
