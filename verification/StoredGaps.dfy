/** What is missing from an archive's bytes, and which gaps say so. */
module StoredGaps {
  import opened Families
  import opened Journals
  import opened OrderedStore
  import opened Refinement
  import opened PassRefinement
  import opened Guarantees
  import opened Lifetime
  import G = GapsStay
  import P = Protocol
  import S = ProtocolSafety

  /** The indices of the journal's stored keys. */
  ghost function Indices(cf: Cf, kv: Kv): set<nat> {
    set k | k in kv && DecodeKey(cf, k).Ok? :: DecodeKey(cf, k).value
  }

  /** Between the first and the last of these indices. */
  ghost predicate Between(indices: set<nat>, i: nat) {
    (exists lo :: lo in indices && lo <= i) && (exists hi :: hi in indices && i <= hi)
  }

  lemma IndicesAreCopied(cf: Cf, copies: P.Copies, kv: Kv)
    requires Encodes(cf, copies, kv)
    ensures Indices(cf, kv) == copies.Keys
    ensures forall k :: k in kv ==> DecodeKey(cf, k).Ok?
  {
    forall i | i in copies
      ensures i in Indices(cf, kv)
    {
      KeyRoundTrip(cf, i);
      assert Key(cf, i) in kv;
    }
  }

  /** An archived entry is stored as it was appended. */
  lemma CopyIsStored(t: P.State, cf: Cf, archive: Contents, i: nat)
    requires S.Inv(t) && cf in t.node && t.Shaped() && i in t.archive[cf]
    requires cf in archive && Encodes(cf, t.archive[cf], archive[cf])
    ensures EntryStored(cf, t.node[cf], i, archive)
  {
    assert S.JournalInv(t.raised, cf, t.node[cf], t.view[cf], t.archive[cf]);
    hide S.Inv, S.JournalsInv, S.HolesAreGaps, Key;
  }

  /**
   Whatever the node deletes, and however many passes fail. Between the first and the last key that a
   journal has in the archive, the indices that are missing are exactly those in the gaps that the
   passes of the life saw; what lies in such a gap is missing anywhere; and what is there is stored as
   it was appended.
   */
  lemma LifeGapsAreExact(policy: P.Policy, families: seq<Cf>, w: World, events: seq<Event>, u: World, cf: Cf, i: nat)
    requires Begins(families, w) && Lives(policy, families, w, events, u) && cf in JournalSet(families)
    ensures cf in u.archive && cf in u.node
    ensures var indices, gaps := Indices(cf, u.archive[cf]), Seen(policy, families, w, events);
            && (Between(indices, i) ==> (i !in indices <==> S.Covered(gaps, cf, i)))
            && (S.Covered(gaps, cf, i) ==> i !in indices)
            && (i in indices ==> EntryStored(cf, u.node[cf], i, u.archive))
  {
    hide Begins, Lives, Seen, P.Init, P.Leads, S.Inv, Stored, SameTask, S.Covered, G.RaisedAmong, Indices, Between,
         EntryStored, Encodes;
    var s := BeginningMirrors(families, w);
    NothingRaised(s);
    var steps, t := LifeRefines(policy, families, s, w, events, u);
    var gaps := Seen(policy, families, w, events);
    ThisOneStored(t, JournalSet(families), u.archive, cf);
    IndicesAreCopied(cf, t.archive[cf], u.archive[cf]);
    BetweenIsSpanned(t.archive[cf], i);
    if S.Covered(gaps, cf, i) {
      G.SkippedIsMissing(s, gaps, t, cf, i);
    }
    if Between(t.archive[cf].Keys, i) {
      G.MissingIsSkipped(s, gaps, t, cf, i);
    }
    if i in t.archive[cf] {
      CopyIsStored(t, cf, u.archive, i);
    }
  }

  lemma NothingRaised(s: P.State)
    requires P.Init(s)
    ensures s.raised == {}
  {
  }

  lemma BetweenIsSpanned(copies: P.Copies, i: nat)
    ensures Between(copies.Keys, i) <==> S.Spanned(copies, i)
  {
  }

  // ---- What was reported ----

  /** The gaps that finished passes reported. */
  ghost function Reported(events: seq<Event>): set<P.Gap> {
    if events == [] then {}
    else
      (if events[0].PassEnded? && events[0].result.Ok? then Announced(events[0].result.value.gaps) else {})
      + Reported(events[1..])
  }

  ghost predicate NoneFailed(events: seq<Event>) {
    forall i :: 0 <= i < |events| && events[i].PassEnded? ==> events[i].result.Ok?
  }

  /** Every gap reported was seen, and if no pass failed every gap seen was reported. */
  lemma {:induction false} ReportedAreSeen(policy: P.Policy, families: seq<Cf>, w: World, events: seq<Event>, u: World)
    requires Lives(policy, families, w, events, u)
    ensures Reported(events) <= Seen(policy, families, w, events)
    ensures NoneFailed(events) ==> Reported(events) == Seen(policy, families, w, events)
    decreases |events|
  {
    hide May, After, Announced, Standing;
    if events != [] {
      ReportedAreSeen(policy, families, After(policy, families, w, events[0]), events[1..], u);
      assert NoneFailed(events) ==> NoneFailed(events[1..]);
    }
  }

  /** So if no pass failed, what is missing between the first and the last key is exactly what was reported. */
  lemma ReportsAreExact(policy: P.Policy, families: seq<Cf>, w: World, events: seq<Event>, u: World, cf: Cf, i: nat)
    requires Begins(families, w) && Lives(policy, families, w, events, u) && cf in JournalSet(families)
    requires NoneFailed(events)
    ensures cf in u.archive
    ensures Between(Indices(cf, u.archive[cf]), i) ==>
              (i !in Indices(cf, u.archive[cf]) <==> S.Covered(Reported(events), cf, i))
  {
    hide Begins, Lives, Seen, Reported, NoneFailed, S.Covered, Indices, Between, EntryStored;
    LifeGapsAreExact(policy, families, w, events, u, cf, i);
    ReportedAreSeen(policy, families, w, events, u);
  }
}
