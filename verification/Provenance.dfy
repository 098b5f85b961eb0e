/** Whose entries an archive holds: the identity it is stamped with and every open and pass that kept it. */
module Provenance {
  import opened ByteStrings
  import opened Families
  import opened OrderedStore
  import opened Outcomes
  import opened Stores
  import opened Pass
  import opened PassEffects
  import opened Stamps

  /** The identity in an archive, as it is read row by row. */
  method Identity(archive: ArchiveStore, codec: Codec) returns (r: Result<Option<StoreIdentity>>)
    ensures (archive.flaky && r == Err(Io)) || r == IdentityOf(codec, archive.db)
  {
    if archive.flaky {
      if * {
        return Err(Io);
      }
    }
    return IdentityOf(codec, archive.db);
  }

  /** Write the stamp in one commit. */
  method WriteIdentity(archive: ArchiveStore, codec: Codec, version: U32, identity: StoreIdentity)
    returns (r: Result<()>)
    requires Cf.Meta in archive.db
    modifies archive
    ensures r.Ok? ==> archive.db == Written(old(archive.db), Stamp(codec, version, identity))
    ensures r.Err? ==> r.error == Io && archive.flaky
    ensures r.Err? ==>
              archive.db == old(archive.db) || archive.db == Written(old(archive.db), Stamp(codec, version, identity))
  {
    r := archive.Commit(Stamp(codec, version, identity));
  }

  /** What a check against a store's stamp may do to an archive, and for what causes it may refuse it. */
  ghost predicate Checked(codec: Codec, before: Contents, source: StoreMeta, r: Result<()>, after: Contents) {
    && (r.Ok? ==> source.identity.Some? && IdentityOf(codec, after) == Ok(source.identity))
    && (after == before
        || (IdentityOf(codec, before) == Ok(None) && Restamped(before, after)
            && source.identity.Some? && IdentityOf(codec, after) == Ok(source.identity)
            && Cf.Meta in after && ReadMeta(codec, after[Cf.Meta]) == Ok(source)))
    && (r == Err(Unstamped) <==> source.identity.None?)
    && (r == Err(WrongIdentity) ==>
          && IdentityOf(codec, before).Ok? && IdentityOf(codec, before).value.Some?
          && IdentityOf(codec, before) != Ok(source.identity))
    && (r.Err? && r.error != Io && r.error != Unstamped && r.error != WrongIdentity ==>
          IdentityOf(codec, before) == Err(r.error))
  }

  /** Make sure that archive and source belong together, by a stamp if the archive has none yet. */
  method StampOrCheck(archive: ArchiveStore, codec: Codec, source: StoreMeta) returns (r: Result<()>)
    requires codec.Faithful() && (source.identity.Some? ==> Stampable(source.identity.value))
    modifies archive
    ensures Checked(codec, old(archive.db), source, r, archive.db)
    ensures r == Err(Io) ==> archive.flaky
  {
    hide ReadMeta, Stamp, Written;
    NoSuchErrors(codec, archive.db);
    if source.identity.None? {
      return Err(Unstamped);
    }
    var found :- Identity(archive, codec);
    if found.None? {
      StampReadsBack(codec, archive.db, source.version, source.identity.value);
      r := WriteIdentity(archive, codec, source.version, source.identity.value);
    } else if found == source.identity {
      r := Ok(());
    } else {
      r := Err(WrongIdentity);
    }
  }

  /**
   So an archive that another head stamped, and that lost nothing but its version row, is not refused:
   opening it stamps it over.
   */
  lemma ForeignStampIsReplaced(codec: Codec, db: Contents, other: StoreIdentity, mine: StoreIdentity)
    returns (lost: Contents, over: Contents)
    requires codec.Faithful() && Stampable(other) && Stampable(mine) && other != mine && Cf.Meta in db
    ensures lost == Unversioned(Written(db, Stamp(codec, SUPPORTED_STORE_VERSION, other)))
    ensures FieldsPresent(lost[Cf.Meta]) == 4
    ensures var source := StoreMeta(SUPPORTED_STORE_VERSION, Some(mine));
            && over == Written(lost, Stamp(codec, source.version, mine))
            && Checked(codec, lost, source, Ok(()), over) && over != lost
            && forall r, after :: Checked(codec, lost, source, r, after) ==>
                 r != Err(WrongIdentity) && (r.Ok? ==> IdentityOf(codec, after) == Ok(Some(mine)))
  {
    hide Stamp, Written, IdentityOf, FieldsPresent;
    var stamped := Written(db, Stamp(codec, SUPPORTED_STORE_VERSION, other));
    UnversionedIsNew(codec, db, SUPPORTED_STORE_VERSION, other);
    lost := Unversioned(stamped);
    over := Written(lost, Stamp(codec, SUPPORTED_STORE_VERSION, mine));
    StampReadsBack(codec, lost, SUPPORTED_STORE_VERSION, mine);
  }

  lemma NoSuchErrors(codec: Codec, db: Contents)
    ensures IdentityOf(codec, db) != Err(Unstamped) && IdentityOf(codec, db) != Err(WrongIdentity)
    ensures IdentityOf(codec, db) != Err(Io) && (Cf.Meta in db ==> ReadMeta(codec, db[Cf.Meta]) != Err(Io))
  {
  }

  /**
   Why an archive cannot be opened, on a disk that works: it has a family that is not asked for, or no
   place for a stamp; the store has no stamp; the archive has that of another store, or one that does not read.
   */
  ghost predicate Refused(codec: Codec, existing: Contents, families: seq<Cf>, source: StoreMeta, error: Error) {
    || (error == MissingFamily && exists cf :: cf in existing && cf !in families)
    || (error == MissingFamily && Cf.Meta !in families)
    || (error == Unstamped && source.identity.None?)
    || (error == WrongIdentity && IdentityOf(codec, existing).Ok? && IdentityOf(codec, existing).value.Some?
        && IdentityOf(codec, existing).value != source.identity)
    || (Cf.Meta in existing && IdentityOf(codec, existing) == Err(error))
  }

  lemma PreparedReads(codec: Codec, families: seq<Cf>, existing: Contents)
    requires existing.Keys <= set cf | cf in families
    ensures IdentityOf(codec, Prepared(families, existing)) ==
            if Cf.Meta in existing then IdentityOf(codec, existing)
            else if Cf.Meta in families then Ok(None)
            else Err(MissingFamily)
  {
  }

  lemma CheckedOrRefused(codec: Codec, families: seq<Cf>, existing: Contents, source: StoreMeta, r: Result<()>,
                         disk: Contents)
    requires existing.Keys <= set cf | cf in families
    requires Checked(codec, Prepared(families, existing), source, r, disk)
    ensures r.Err? && r.error != Io ==> Refused(codec, existing, families, source, r.error)
    ensures r.Ok? ==> forall e :: !Refused(codec, existing, families, source, e)
  {
    PreparedReads(codec, families, existing);
    assert IdentityOf(codec, disk).Ok? ==> Cf.Meta in disk;
    hide ReadMeta;
    if r.Ok? {
      assert Cf.Meta in Prepared(families, existing);
    }
  }

  /**
   Open an archive for a store with this stamp. `disk` is what it holds afterwards, open or not. An
   archive with a family that is not asked for cannot be opened for writing.
   */
  method Open(families: seq<Cf>, existing: Contents, codec: Codec, source: StoreMeta, flaky: bool)
    returns (r: Result<ArchiveStore>, ghost disk: Contents)
    requires codec.Faithful() && (source.identity.Some? ==> Stampable(source.identity.value))
    ensures Opened(codec, existing, families, source, r.Ok?, disk)
    ensures r.Ok? ==> fresh(r.value) && r.value.db == disk && r.value.flaky == flaky
    ensures forall cf, k :: cf in existing && k in existing[cf] ==>
              && cf in disk && k in disk[cf]
              && (!StampRow(cf, k) ==> disk[cf][k] == existing[cf][k])
    ensures forall cf, k :: cf in disk && k in disk[cf] && !StampRow(cf, k) ==> cf in existing && k in existing[cf]
    ensures r.Ok? ==> forall e :: !Refused(codec, existing, families, source, e)
    ensures r.Err? && r.error != Io ==> Refused(codec, existing, families, source, r.error)
    ensures r == Err(Io) ==> flaky
  {
    hide IdentityOf, Restamped, StampRow;
    disk := existing;
    if !(existing.Keys <= set cf | cf in families) {
      return Err(MissingFamily), disk;
    }
    if flaky {
      if * {
        return Err(Io), disk;
      }
    }
    var archive := new ArchiveStore(families, existing, flaky);
    var checked := StampOrCheck(archive, codec, source);
    disk := archive.db;
    CheckedOrRefused(codec, families, existing, source, checked, disk);
    assert Opened(codec, existing, families, source, checked.Ok?, disk);
    OpeningKeeps(codec, existing, families, source, checked.Ok?, disk);
    if checked.Err? {
      return Err(checked.error), disk;
    }
    r := Ok(archive);
  }

  ghost predicate Opened(codec: Codec, existing: Contents, families: seq<Cf>, source: StoreMeta, accepted: bool,
                         disk: Contents) {
    || (disk == existing && !accepted)
    || (existing.Keys <= (set cf | cf in families)
        && exists r :: Checked(codec, Prepared(families, existing), source, r, disk) && r.Ok? == accepted)
  }

  predicate StampRow(cf: Cf, k: Bytes) {
    cf.Meta? && IsStampKey(k)
  }

  /** A whole stamp has all its rows. */
  lemma WholeHasRow(codec: Codec, db: Contents, k: Bytes)
    requires IdentityOf(codec, db).Ok? && IdentityOf(codec, db).value.Some? && IsStampKey(k)
    ensures Cf.Meta in db && k in db[Cf.Meta]
  {
    var identity := IdentityOf(codec, db).value.value;
    ReadsWhole(codec, db[Cf.Meta], identity);
    var field: Field :| field.Key() == k;
    hide ReadMeta;
    assert Get(db[Cf.Meta], field).Some?;
  }

  /** An opening loses no row, whether it is accepted or refused, and rewrites none but the stamp's. */
  lemma OpeningKeepsRow(codec: Codec, before: Contents, families: seq<Cf>, source: StoreMeta, accepted: bool,
                        disk: Contents, cf: Cf, k: Bytes)
    requires Opened(codec, before, families, source, accepted, disk) && cf in before && k in before[cf]
    ensures cf in disk && k in disk[cf]
    ensures !StampRow(cf, k) ==> disk[cf][k] == before[cf][k]
  {
    hide IdentityOf, ReadMeta;
    if disk != before && StampRow(cf, k) && disk != Prepared(families, before) {
      WholeHasRow(codec, disk, k);
    }
  }

  /** Every row after an opening but the stamp's was there before it. */
  lemma OpeningReadsNothing(codec: Codec, before: Contents, families: seq<Cf>, source: StoreMeta, accepted: bool,
                            disk: Contents, cf: Cf, k: Bytes)
    requires Opened(codec, before, families, source, accepted, disk)
    requires cf in disk && k in disk[cf] && !StampRow(cf, k)
    ensures cf in before && k in before[cf] && before[cf][k] == disk[cf][k]
  {
    hide IdentityOf, ReadMeta;
  }

  lemma OpeningKeeps(codec: Codec, before: Contents, families: seq<Cf>, source: StoreMeta, accepted: bool,
                     disk: Contents)
    requires Opened(codec, before, families, source, accepted, disk)
    ensures forall cf, k :: cf in before && k in before[cf] ==>
              cf in disk && k in disk[cf] && (!StampRow(cf, k) ==> disk[cf][k] == before[cf][k])
    ensures forall cf, k :: cf in disk && k in disk[cf] && !StampRow(cf, k) ==> cf in before && k in before[cf]
  {
    hide Opened, StampRow;
    forall cf, k | cf in before && k in before[cf]
      ensures cf in disk && k in disk[cf] && (!StampRow(cf, k) ==> disk[cf][k] == before[cf][k])
    {
      OpeningKeepsRow(codec, before, families, source, accepted, disk, cf, k);
    }
    forall cf, k | cf in disk && k in disk[cf] && !StampRow(cf, k)
      ensures cf in before && k in before[cf]
    {
      OpeningReadsNothing(codec, before, families, source, accepted, disk, cf, k);
    }
  }

  /** It loses no family, and gives one that was not there no row but the stamp's. */
  lemma OpeningKeepsFamily(codec: Codec, before: Contents, families: seq<Cf>, source: StoreMeta, accepted: bool,
                           disk: Contents, cf: Cf)
    requires Opened(codec, before, families, source, accepted, disk)
    ensures cf in before ==> cf in disk && (!cf.Meta? ==> disk[cf] == before[cf])
    ensures cf in disk && cf !in before ==> forall k :: k in disk[cf] ==> StampRow(cf, k)
    ensures accepted ==> forall c :: c in disk <==> c in families
  {
    hide IdentityOf, ReadMeta;
  }

  /** What a store says it is. */
  method MetaOf(source: HeadStore, codec: Codec) returns (r: Result<StoreMeta>)
    ensures (source.flaky && r == Err(Io))
            || r == if Cf.Meta in source.view then ReadMeta(codec, source.view[Cf.Meta]) else Err(MissingFamily)
  {
    if source.flaky {
      if * {
        return Err(Io);
      }
    }
    return if Cf.Meta in source.view then ReadMeta(codec, source.view[Cf.Meta]) else Err(MissingFamily);
  }

  /** Start up: catch up, read what the store is, refuse a schema this build does not know, and open its archive. */
  method StartUp(source: HeadStore, primary: Contents, codec: Codec, existing: Contents, flaky: bool)
    returns (r: Result<ArchiveStore>, ghost stamp: StoreMeta, ghost disk: Contents)
    requires codec.Faithful()
    modifies source
    ensures r != Err(Io) ==> source.view == Shown(source.families, primary)
    ensures r != Err(Io) ==> forall cf :: cf in source.view <==> cf in source.families && cf in primary
    ensures r != Err(Io) ==> forall cf :: cf in source.view ==> source.view[cf] == primary[cf]
    ensures r.Ok? ==> Cf.Meta in source.view && ReadMeta(codec, source.view[Cf.Meta]) == Ok(stamp)
    ensures r.Ok? ==> stamp.version == 3
    ensures Opened(codec, existing, source.families, stamp, r.Ok?, disk)
    ensures r.Ok? ==> fresh(r.value) && r.value.db == disk && r.value.flaky == flaky
    ensures r.Ok? ==> !Unfit(codec, source.view, existing, source.families)
    ensures r.Err? && r.error != Io ==> Unfit(codec, source.view, existing, source.families)
    ensures r == Err(Io) ==> source.flaky || flaky
  {
    hide Checked, Prepared, ReadMeta, Refused, Shown;
    stamp, disk := StoreMeta(0, None), existing;
    var caught := source.CatchUp(primary);
    if caught.Err? {
      return Err(caught.error), stamp, disk;
    }
    NoSuchErrors(codec, source.view);
    var meta := MetaOf(source, codec);
    if meta.Err? {
      return Err(meta.error), stamp, disk;
    }
    ReadIsStampable(codec, source.view[Cf.Meta]);
    if meta.value.version != SUPPORTED_STORE_VERSION {
      return Err(UnknownVersion), stamp, disk;
    }
    stamp := meta.value;
    r, disk := Open(source.families, existing, codec, meta.value, flaky);
  }

  /** Store and archive are no pair, or one of them does not say what it is. */
  ghost predicate Unfit(codec: Codec, view: Contents, existing: Contents, families: seq<Cf>) {
    || Cf.Meta !in view
    || ReadMeta(codec, view[Cf.Meta]).Err?
    || ReadMeta(codec, view[Cf.Meta]).value.version != SUPPORTED_STORE_VERSION
    || exists e :: Refused(codec, existing, families, ReadMeta(codec, view[Cf.Meta]).value, e)
  }

  // ---- The life of an archive ----

  /** One pass over a view, and what it left in the archive. */
  datatype Copy = Copy(before: Contents, view: Contents, full: bool, after: Contents)

  /** One start of the archiver against some store: whether it was accepted, and the passes it then made. */
  datatype Session = Session(families: seq<Cf>, source: StoreMeta, before: Contents, accepted: bool, disk: Contents,
                             copies: seq<Copy>)

  ghost predicate CopiesRun(families: set<Cf>, start: Contents, copies: seq<Copy>, end: Contents) {
    if copies == [] then start == end
    else
      var last := copies[|copies| - 1];
      && last.after == end
      && (Transferred(last.before, last.view, last.full, families, end)
         || Stopped(last.before, last.view, last.full, families, end))
      && CopiesRun(families, start, copies[..|copies| - 1], last.before)
  }

  /** Every view of a store carries the stamp that the store was opened with. */
  ghost predicate Belongs(codec: Codec, view: Contents, identity: Option<StoreIdentity>) {
    Cf.Meta in view ==> ReadMeta(codec, view[Cf.Meta]).Ok? && ReadMeta(codec, view[Cf.Meta]).value.identity == identity
  }

  ghost predicate SessionRan(codec: Codec, s: Session, after: Contents) {
    && Opened(codec, s.before, s.families, s.source, s.accepted, s.disk)
    && CopiesRun(Members(s.families), s.disk, s.copies, after)
    && (!s.accepted ==> s.copies == [])
    && forall c :: c in s.copies ==> Belongs(codec, c.view, s.source.identity)
  }

  ghost predicate History(codec: Codec, start: Contents, sessions: seq<Session>, end: Contents) {
    if sessions == [] then start == end
    else
      var last := sessions[|sessions| - 1];
      SessionRan(codec, last, end) && History(codec, start, sessions[..|sessions| - 1], last.before)
  }

  /** The archive carries this stamp in full or, if `owner` is none, no row of any stamp. */
  ghost predicate Owned(codec: Codec, db: Contents, owner: Option<StoreIdentity>) {
    if owner.Some? then IdentityOf(codec, db) == Ok(owner)
    else Cf.Meta in db ==> forall f: Field :: Get(db[Cf.Meta], f).None?
  }

  // ---- One pass ----

  lemma ReadsWhole(codec: Codec, kv: Kv, identity: StoreIdentity)
    ensures ReadMeta(codec, kv).Ok? && ReadMeta(codec, kv).value.identity == Some(identity) <==>
            && (forall f: Field :: Get(kv, f).Some?)
            && DecodeVersion(Get(kv, Version).value).Ok?
            && DecodeOwnPeerId(Get(kv, OwnPeerId).value) == Ok(identity.ownPeerId)
            && codec.read(Get(kv, HeadParamsHash).value) == identity.headParamsHash
            && codec.read(Get(kv, HeadId).value) == identity.headId
            && codec.read(Get(kv, HeadAddress).value) == identity.headAddress
  {
    hide Get, DecodeVersion, DecodeOwnPeerId;
    if Get(kv, Version).Some? && Get(kv, HeadParamsHash).Some? && Get(kv, HeadId).Some? && Get(kv, HeadAddress).Some?
       && Get(kv, OwnPeerId).Some? {
      forall f: Field
        ensures Get(kv, f).Some?
      {
        match f
        case Version =>
        case HeadParamsHash =>
        case HeadId =>
        case HeadAddress =>
        case OwnPeerId =>
      }
    }
  }

  /** A mixture of two stamps of one identity is a stamp of that identity. */
  lemma MixtureKeepsStamp(codec: Codec, a: Kv, v: Kv, m: Kv, identity: StoreIdentity)
    requires ReadMeta(codec, a).Ok? && ReadMeta(codec, a).value.identity == Some(identity)
    requires ReadMeta(codec, v).Ok? && ReadMeta(codec, v).value.identity == Some(identity)
    requires MixedFamily(a, v, m)
    ensures ReadMeta(codec, m).Ok? && ReadMeta(codec, m).value.identity == Some(identity)
  {
    ReadsWhole(codec, a, identity);
    ReadsWhole(codec, v, identity);
    ReadsWhole(codec, m, identity);
    hide ReadMeta, DecodeVersion, DecodeOwnPeerId, Field.Key;
    forall f: Field
      ensures Get(m, f).Some? && (Get(m, f) == Get(a, f) || Get(m, f) == Get(v, f))
    {
      assert Get(a, f).Some?;
    }
  }

  lemma CopyKeepsOwner(codec: Codec, families: set<Cf>, before: Contents, view: Contents, full: bool, after: Contents,
                       identity: StoreIdentity)
    requires Transferred(before, view, full, families, after) || Stopped(before, view, full, families, after)
    requires Owned(codec, before, Some(identity)) && Belongs(codec, view, Some(identity))
    ensures Owned(codec, after, Some(identity))
  {
    hide ReadMeta, Transferred, Stopped;
    PassMixes(before, view, full, families, after);
    OwnedReads(codec, before, identity);
    if Cf.Meta in view {
      MixtureKeepsStamp(codec, before[Cf.Meta], view[Cf.Meta], after[Cf.Meta], identity);
    } else {
      assert before[Cf.Meta] == after[Cf.Meta];
    }
  }

  lemma OwnedReads(codec: Codec, db: Contents, identity: StoreIdentity)
    ensures Owned(codec, db, Some(identity)) <==>
            Cf.Meta in db && ReadMeta(codec, db[Cf.Meta]).Ok?
            && ReadMeta(codec, db[Cf.Meta]).value.identity == Some(identity)
  {
    hide ReadMeta;
  }

  lemma {:induction false} CopiesKeepOwner(codec: Codec, families: set<Cf>, start: Contents, copies: seq<Copy>,
                                           end: Contents, identity: StoreIdentity)
    requires CopiesRun(families, start, copies, end) && Owned(codec, start, Some(identity))
    requires forall c :: c in copies ==> Belongs(codec, c.view, Some(identity))
    ensures Owned(codec, end, Some(identity))
    decreases |copies|
  {
    hide Owned, Belongs, Transferred, Stopped;
    if copies != [] {
      var last, init := copies[|copies| - 1], copies[..|copies| - 1];
      CopiesKeepOwner(codec, families, start, init, last.before, identity);
      CopyKeepsOwner(codec, families, last.before, last.view, last.full, end, identity);
    }
  }

  // ---- One session ----

  lemma PreparedKeepsOwner(codec: Codec, families: seq<Cf>, existing: Contents, owner: Option<StoreIdentity>)
    requires existing.Keys <= (set cf | cf in families) && Owned(codec, existing, owner)
    ensures Owned(codec, Prepared(families, existing), owner)
  {
    hide ReadMeta;
  }

  lemma NobodyOwns(codec: Codec, db: Contents)
    requires Owned(codec, db, None)
    ensures IdentityOf(codec, db).Ok? ==> IdentityOf(codec, db) == Ok(None)
  {
  }

  /** Opening keeps the owner an archive has, gives a new one the store's, and lets no other store in. */
  lemma OpenKeepsOwner(codec: Codec, s: Session, owner: Option<StoreIdentity>) returns (next: Option<StoreIdentity>)
    requires Opened(codec, s.before, s.families, s.source, s.accepted, s.disk) && Owned(codec, s.before, owner)
    ensures Owned(codec, s.disk, next)
    ensures owner.Some? ==> next == owner
    ensures s.accepted ==> next.Some? && next == s.source.identity
  {
    hide ReadMeta, Prepared;
    if s.disk == s.before && !s.accepted {
      next := owner;
    } else {
      var r :| Checked(codec, Prepared(s.families, s.before), s.source, r, s.disk) && r.Ok? == s.accepted;
      PreparedKeepsOwner(codec, s.families, s.before, owner);
      if owner.None? {
        NobodyOwns(codec, Prepared(s.families, s.before));
      }
      next := if s.disk == Prepared(s.families, s.before) then owner else s.source.identity;
    }
  }

  lemma SessionKeepsOwner(codec: Codec, s: Session, after: Contents, owner: Option<StoreIdentity>)
    returns (next: Option<StoreIdentity>)
    requires SessionRan(codec, s, after) && Owned(codec, s.before, owner)
    ensures Owned(codec, after, next)
    ensures owner.Some? ==> next == owner
    ensures s.accepted ==> next.Some? && next == s.source.identity
  {
    hide Opened, Owned, Belongs;
    next := OpenKeepsOwner(codec, s, owner);
    if s.accepted {
      CopiesKeepOwner(codec, Members(s.families), s.disk, s.copies, after, next.value);
    }
  }

  /**
   Over any opens against any stores, and any passes of those that were accepted: an archive that began
   whole is whole, the identity it is stamped with never changes, and no store of another identity was
   ever accepted.
   */
  lemma {:induction false} OwnerNeverChanges(codec: Codec, start: Contents, sessions: seq<Session>, end: Contents,
                                             owner: Option<StoreIdentity>)
    returns (last: Option<StoreIdentity>)
    requires History(codec, start, sessions, end) && Owned(codec, start, owner)
    ensures Owned(codec, end, last)
    ensures owner.Some? ==> last == owner
    ensures forall s :: s in sessions && s.accepted ==> last.Some? && s.source.identity == last
    decreases |sessions|
  {
    hide SessionRan, Owned;
    if sessions == [] {
      last := owner;
    } else {
      var s, init := sessions[|sessions| - 1], sessions[..|sessions| - 1];
      var earlier := OwnerNeverChanges(codec, start, init, s.before, owner);
      last := SessionKeepsOwner(codec, s, end, earlier);
      assert sessions == init + [s];
    }
  }

  // ---- Whose rows these are ----

  /** Some accepted session read this row from its store. */
  ghost predicate ReadBy(sessions: seq<Session>, cf: Cf, k: Bytes, value: Bytes) {
    exists s, c :: s in sessions && s.accepted && c in s.copies && cf in c.view && k in c.view[cf]
                    && c.view[cf][k] == value
  }

  /** Every row but the stamp's own was read from a store in one of these sessions. */
  ghost predicate AllRead(sessions: seq<Session>, db: Contents) {
    forall cf, k :: cf in db && k in db[cf] && !StampRow(cf, k) ==> ReadBy(sessions, cf, k, db[cf][k])
  }

  lemma CopyIsRead(families: set<Cf>, c: Copy, cf: Cf, k: Bytes)
    requires Transferred(c.before, c.view, c.full, families, c.after)
             || Stopped(c.before, c.view, c.full, families, c.after)
    requires cf in c.after && k in c.after[cf]
    ensures cf in c.before
    ensures (k in c.before[cf] && c.after[cf][k] == c.before[cf][k])
            || (cf in c.view && k in c.view[cf] && c.after[cf][k] == c.view[cf][k])
  {
    hide Transferred, Stopped;
    PassMixes(c.before, c.view, c.full, families, c.after);
  }

  /** A row after some passes was there before them or was read by one of them. */
  lemma {:induction false} CopiesAreRead(families: set<Cf>, start: Contents, copies: seq<Copy>, end: Contents, cf: Cf,
                                         k: Bytes)
    requires CopiesRun(families, start, copies, end) && cf in end && k in end[cf]
    ensures || (cf in start && k in start[cf] && start[cf][k] == end[cf][k])
            || exists c :: c in copies && cf in c.view && k in c.view[cf] && c.view[cf][k] == end[cf][k]
    decreases |copies|
  {
    hide Transferred, Stopped;
    if copies != [] {
      var last, init := copies[|copies| - 1], copies[..|copies| - 1];
      assert copies == init + [last];
      CopyIsRead(families, last, cf, k);
      if k in last.before[cf] && end[cf][k] == last.before[cf][k] {
        CopiesAreRead(families, start, init, last.before, cf, k);
      }
    }
  }

  /** Given no archive to start with, every row of it was read from a store that it belongs to. */
  lemma {:induction false} EveryRowWasRead(codec: Codec, sessions: seq<Session>, end: Contents)
    requires History(codec, map[], sessions, end)
    ensures AllRead(sessions, end)
    decreases |sessions|
  {
    hide SessionRan;
    if sessions != [] {
      var s, init := sessions[|sessions| - 1], sessions[..|sessions| - 1];
      EveryRowWasRead(codec, init, s.before);
      assert sessions == init + [s];
      forall cf, k | cf in end && k in end[cf] && !StampRow(cf, k)
        ensures ReadBy(sessions, cf, k, end[cf][k])
      {
        RowWasRead(codec, init, s, end, cf, k);
      }
    }
  }

  lemma RowIsRead(sessions: seq<Session>, db: Contents, cf: Cf, k: Bytes)
    requires AllRead(sessions, db) && cf in db && k in db[cf] && !StampRow(cf, k)
    ensures ReadBy(sessions, cf, k, db[cf][k])
  {
  }

  lemma RowWasRead(codec: Codec, init: seq<Session>, s: Session, end: Contents, cf: Cf, k: Bytes)
    requires SessionRan(codec, s, end) && AllRead(init, s.before)
    requires cf in end && k in end[cf] && !StampRow(cf, k)
    ensures ReadBy(init + [s], cf, k, end[cf][k])
  {
    hide Opened, CopiesRun, StampRow, Belongs, AllRead, ReadBy;
    CopiesAreRead(Members(s.families), s.disk, s.copies, end, cf, k);
    if cf in s.disk && k in s.disk[cf] && s.disk[cf][k] == end[cf][k] {
      OpeningReadsNothing(codec, s.before, s.families, s.source, s.accepted, s.disk, cf, k);
      RowIsRead(init, s.before, cf, k);
      MoreIsRead(init, s, cf, k, end[cf][k]);
    } else {
      var c :| c in s.copies && cf in c.view && k in c.view[cf] && c.view[cf][k] == end[cf][k];
      ReadNow(init, s, c, cf, k, end[cf][k]);
    }
  }

  lemma MoreIsRead(sessions: seq<Session>, s: Session, cf: Cf, k: Bytes, value: Bytes)
    requires ReadBy(sessions, cf, k, value)
    ensures ReadBy(sessions + [s], cf, k, value)
  {
    var r, c :| r in sessions && r.accepted && c in r.copies && cf in c.view && k in c.view[cf]
                && c.view[cf][k] == value;
    assert r in sessions + [s];
  }

  lemma ReadNow(sessions: seq<Session>, s: Session, c: Copy, cf: Cf, k: Bytes, value: Bytes)
    requires s.accepted && c in s.copies && cf in c.view && k in c.view[cf] && c.view[cf][k] == value
    ensures ReadBy(sessions + [s], cf, k, value)
  {
    assert s in sessions + [s];
  }

  /**
   The provenance of an archive that began as nothing: it is whole; every store it ever accepted had
   the identity it is stamped with; and each of its rows was read from one of those.
   */
  lemma RowsComeFromOneOwner(codec: Codec, sessions: seq<Session>, end: Contents) returns (owner: Option<StoreIdentity>)
    requires History(codec, map[], sessions, end)
    ensures Owned(codec, end, owner)
    ensures forall s :: s in sessions && s.accepted ==> owner.Some? && s.source.identity == owner
    ensures AllRead(sessions, end)
  {
    hide History, AllRead, IdentityOf;
    owner := OwnerNeverChanges(codec, map[], sessions, end, None);
    EveryRowWasRead(codec, sessions, end);
  }
}
