/** The archiver from start to stop: check the store, open its archive, and run passes. */
module Archiver {
  import opened Families
  import opened FamilyNames
  import opened Journals
  import opened OrderedStore
  import opened Outcomes
  import opened Stores
  import opened Pass
  import opened ArchiverLoop
  import opened Stamps
  import opened Provenance

  function Copies(passes: seq<PassRun>): (copies: seq<Copy>)
    ensures |copies| == |passes|
  {
    seq(|passes|, i requires 0 <= i < |passes| =>
      Copy(passes[i].before, passes[i].view, passes[i].full, passes[i].after))
  }

  lemma {:induction false} PassesCopy(families: seq<Cf>, start: Contents, passes: seq<PassRun>, end: Contents)
    requires Chained(families, start, passes, end)
    ensures CopiesRun(Members(families), start, Copies(passes), end)
    decreases |passes|
  {
    hide Roomy, Transferred, Stopped, Accounts, RoomAbove, GapsIn;
    if passes != [] {
      var last := passes[|passes| - 1];
      PassesCopy(families, start, passes[..|passes| - 1], last.before);
      assert Copies(passes)[..|passes| - 1] == Copies(passes[..|passes| - 1]);
    }
  }

  /** A stamp holds no index. */
  lemma OpenedStaysRoomy(codec: Codec, existing: Contents, families: seq<Cf>, source: StoreMeta, accepted: bool,
                         disk: Contents)
    requires Roomy(existing) && Opened(codec, existing, families, source, accepted, disk)
    ensures Roomy(disk)
  {
    hide IdentityOf, IsStampKey;
    forall cf, k | cf in disk && k in disk[cf] && DecodeKey(cf, k).Ok?
      ensures DecodeKey(cf, k).value + 1 < 0x1_0000_0000_0000_0000
    {
      assert !cf.Meta?;
      if disk != existing {
        assert disk[cf] == Prepared(families, existing)[cf];
      }
    }
  }

  /** What is seen of a store whose stamp never changes. */
  ghost function ViewsOf(codec: Codec, identity: Option<StoreIdentity>): iset<Contents> {
    iset view: Contents | Belongs(codec, view, identity)
  }

  /** The identity a store shows. */
  function IdentityShown(codec: Codec, view: Contents): Option<StoreIdentity> {
    if Cf.Meta in view && ReadMeta(codec, view[Cf.Meta]).Ok?
    then ReadMeta(codec, view[Cf.Meta]).value.identity
    else None
  }

  /** What a secondary of this store shows. */
  function Seen(names: seq<string>, primary: Contents): Contents {
    Shown(Sorted(Known(names)), primary)
  }

  lemma OpenedFamilies(names: seq<string>)
    requires Canonical(names)
    ensures AllDifferent(Sorted(Known(names))) && AllNameable(Members(Sorted(Known(names))))
  {
    SortedFamilies(names);
  }

  /** From the names on disk to an archive that may be written: `disk` is what it holds then. */
  method Start(names: seq<string>, opening: Contents, starting: Contents, codec: Codec, existing: Contents, flaky: bool)
    returns (r: Result<(HeadStore, ArchiveStore)>, ghost stamp: StoreMeta, ghost disk: Contents)
    requires codec.Faithful()
    ensures Opened(codec, existing, Sorted(Known(names)), stamp, r.Ok?, disk)
    ensures r.Ok? ==> fresh(r.value.0) && fresh(r.value.1) && r.value.1.db == disk
    ensures r.Ok? ==> r.value.0.flaky == flaky && r.value.1.flaky == flaky
    ensures r.Ok? ==> r.value.0.families == Sorted(Known(names)) && r.value.0.view == Seen(names, starting)
    ensures r.Ok? ==> Cf.Meta in Seen(names, starting) && ReadMeta(codec, Seen(names, starting)[Cf.Meta]) == Ok(stamp)
    ensures r.Ok? ==> !Unfit(codec, Seen(names, starting), existing, Sorted(Known(names)))
    ensures r.Err? && r.error != Io ==> Unfit(codec, Seen(names, starting), existing, Sorted(Known(names)))
    ensures r == Err(Io) ==> flaky
  {
    hide Opened, Shown, Unfit, ReadMeta, Known, Sorted;
    stamp, disk := StoreMeta(0, None), existing;
    NothingOpened(codec, existing, Sorted(Known(names)), stamp);
    var store := HeadStore.Open(names, opening, flaky);
    if store.Err? {
      return Err(store.error), stamp, disk;
    }
    var handle;
    handle, stamp, disk := StartUp(store.value, starting, codec, existing, flaky);
    if handle.Err? {
      return Err(handle.error), stamp, disk;
    }
    r := Ok((store.value, handle.value));
  }

  lemma NothingOpened(codec: Codec, existing: Contents, families: seq<Cf>, stamp: StoreMeta)
    ensures Opened(codec, existing, families, stamp, false, existing)
  {
  }

  /**
   Run the archiver on a store that keeps its stamp and whose families bear the names the node gives them.
   Whatever becomes of it, what it did is one more session in the life of the archive; its passes are full
   when one is due, and what it sent are the bodies of those that finished.
   */
  method RunArchiver(names: seq<string>, opening: Contents, starting: Contents, codec: Codec, existing: Contents,
                     ticks: seq<Tick>, interval: nat, once: bool, node: bool, flaky: bool)
    returns (r: Result<seq<WatermarkReport>>, ghost session: Session, ghost passes: seq<PassRun>, ghost disk: Contents)
    requires codec.Faithful() && Canonical(names) && Clocked(ticks)
    requires Roomy(existing) && Roomy(starting) && forall tick :: tick in ticks ==> Roomy(tick.primary)
    requires forall tick :: tick in ticks ==>
               Belongs(codec, Seen(names, tick.primary), IdentityShown(codec, Seen(names, starting)))
    ensures session.before == existing && SessionRan(codec, session, disk)
    ensures Chained(Sorted(Known(names)), session.disk, passes, disk) && WellNamed(passes)
    ensures r.Ok? ==> session.accepted && r.value == if node then Bodies(passes) else []
    ensures r.Ok? ==>
              && FullWhenDue(ticks, interval, once, passes)
              && SeesTheNode(Sorted(Known(names)), Seen(names, starting), ticks, passes)
    ensures r.Err? ==> passes == []
    ensures r.Ok? ==> !Unfit(codec, Seen(names, starting), existing, Sorted(Known(names)))
    ensures r.Err? && r.error != Io ==> Unfit(codec, Seen(names, starting), existing, Sorted(Known(names)))
    ensures r == Err(Io) ==> flaky
    ensures !flaky ==> forall p :: p in passes ==> p.result != Err(Io)
  {
    hide Opened, Roomy, Belongs, Shown, Chained, Bodies, WellNamed, AllNameable, AllDifferent, Clocked, FullWhenDue,
         SeesTheNode, Canonical, CopiesRun, Unfit, Known, Sorted;
    ghost var families := Sorted(Known(names));
    OpenedFamilies(names);
    var start;
    ghost var stamp, was;
    start, stamp, was := Start(names, opening, starting, codec, existing, flaky);
    disk, session, passes := was, Session(families, stamp, existing, start.Ok?, was, []), [];
    OpenedStaysRoomy(codec, existing, families, stamp, start.Ok?, disk);
    NoPasses(families, disk);
    if start.Err? {
      return Err(start.error), session, passes, disk;
    }
    var (source, archive) := start.value;
    ShownIsRoomy(families, starting);
    FirstViewBelongs(codec, source.view);
    var sent;
    sent, passes := Archive(source, archive, ticks, interval, once, node,
                            ViewsOf(codec, IdentityShown(codec, source.view)));
    disk := archive.db;
    session := session.(copies := Copies(passes));
    PassesCopy(families, was, passes, disk);
    r := Ok(sent);
  }

  lemma NoPasses(families: seq<Cf>, disk: Contents)
    ensures Chained(families, disk, [], disk) && WellNamed([]) && CopiesRun(Members(families), disk, [], disk)
  {
  }

  lemma FirstViewBelongs(codec: Codec, view: Contents)
    requires Cf.Meta in view ==> ReadMeta(codec, view[Cf.Meta]).Ok?
    ensures Belongs(codec, view, IdentityShown(codec, view))
  {
  }
}
