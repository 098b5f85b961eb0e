/** Who owns a store: a schema number and an identity, kept as five rows of the `Meta` family. */
module Stamps {
  import opened ByteStrings
  import opened Families
  import opened Journals
  import opened OrderedStore
  import opened Outcomes
  import opened Stores

  const SUPPORTED_STORE_VERSION := 3

  /** One byte per character. */
  function Ascii(s: string): (b: Bytes)
    ensures |b| == |s|
  {
    seq(|s|, i requires 0 <= i < |s| => s[i] as int % 256)
  }

  /**
   How text is kept in a row. Reading is lossy: bytes that are no text are read as some text all the
   same, so many rows may read alike. What was written as text is read back.
   */
  datatype Codec = Codec(write: string -> Bytes, read: Bytes -> string) {

    ghost predicate Faithful() {
      forall s :: read(write(s)) == s
    }
  }

  /** The rows of a stamp, each under a key of its own. */
  datatype Field = Version | HeadParamsHash | HeadId | HeadAddress | OwnPeerId {

    function Key(): Bytes {
      match this
      case Version => Ascii("store_version")
      case HeadParamsHash => Ascii("head_params_hash")
      case HeadId => Ascii("head_id")
      case HeadAddress => Ascii("head_address")
      case OwnPeerId => Ascii("own_peer_id")
    }
  }

  lemma KeysDiffer(a: Field, b: Field)
    requires a.Key() == b.Key()
    ensures a == b
  {
  }

  datatype StoreIdentity = StoreIdentity(headParamsHash: string, headId: string, headAddress: string, ownPeerId: PeerId)

  datatype StoreMeta = StoreMeta(version: U32, identity: Option<StoreIdentity>)

  function DecodeVersion(b: Bytes): Result<U32> {
    CapacityOfWords();
    if |b| != 4 then Err(Corrupt) else Ok(FromBigEndian(b))
  }

  function DecodeOwnPeerId(b: Bytes): Result<PeerId> {
    CapacityOfWords();
    if |b| != 4 then Err(Corrupt) else Ok(PeerId.FromWireInt(FromBigEndian(b)))
  }

  /** A packed id never needs more bits than it came in. */
  lemma DecodedPeerPacks(b: Bytes)
    ensures DecodeOwnPeerId(b).Ok? ==> DecodeOwnPeerId(b).value.number < 0x8000_0000
  {
    hide FromBigEndian;
    CapacityOfWords();
  }

  function Present(o: Option<Bytes>): nat {
    if o.Some? then 1 else 0
  }

  /** A stamp is there in full, or not at all; anything between is an error. */
  function Assemble(codec: Codec, version: Option<Bytes>, headParamsHash: Option<Bytes>, headId: Option<Bytes>,
                    headAddress: Option<Bytes>, ownPeerId: Option<Bytes>): Result<StoreMeta>
  {
    match version
    case None => Err(NotAStore)
    case Some(v) =>
      var number :- DecodeVersion(v);
      var present := Present(headParamsHash) + Present(headId) + Present(headAddress) + Present(ownPeerId);
      if present == 0 then Ok(StoreMeta(number, None))
      else if present == 4 then
        var peer :- DecodeOwnPeerId(ownPeerId.value);
        Ok(StoreMeta(number, Some(StoreIdentity(codec.read(headParamsHash.value), codec.read(headId.value),
                                                codec.read(headAddress.value), peer))))
      else Err(PartialStamp)
  }

  function Get(kv: Kv, field: Field): Option<Bytes> {
    if field.Key() in kv then Some(kv[field.Key()]) else None
  }

  /** What the rows of a `Meta` family say. */
  function ReadMeta(codec: Codec, kv: Kv): Result<StoreMeta> {
    Assemble(codec, Get(kv, Version), Get(kv, HeadParamsHash), Get(kv, HeadId), Get(kv, HeadAddress),
             Get(kv, OwnPeerId))
  }

  /** An identity that a stamp can carry: packing a peer id costs it one bit. */
  predicate Stampable(identity: StoreIdentity) {
    identity.ownPeerId.number < 0x8000_0000
  }

  /** Whatever identity was read can be stamped again. */
  lemma ReadIsStampable(codec: Codec, kv: Kv)
    ensures ReadMeta(codec, kv).Ok? && ReadMeta(codec, kv).value.identity.Some? ==>
              Stampable(ReadMeta(codec, kv).value.identity.value)
  {
    if Get(kv, OwnPeerId).Some? {
      DecodedPeerPacks(Get(kv, OwnPeerId).value);
    }
  }

  /** The identity a store is stamped with. A store without a version is new, not broken. */
  function IdentityOf(codec: Codec, db: Contents): Result<Option<StoreIdentity>> {
    if Cf.Meta !in db then Err(MissingFamily)
    else
      match ReadMeta(codec, db[Cf.Meta])
      case Ok(m) => Ok(m.identity)
      case Err(e) => if Get(db[Cf.Meta], Version).None? then Ok(None) else Err(e)
  }

  /** One row of a stamp. */
  function FieldValue(codec: Codec, version: U32, identity: StoreIdentity, field: Field): Bytes {
    CapacityOfWords();
    match field
    case Version => BigEndian(4, version)
    case HeadParamsHash => codec.write(identity.headParamsHash)
    case HeadId => codec.write(identity.headId)
    case HeadAddress => codec.write(identity.headAddress)
    case OwnPeerId => BigEndian(4, identity.ownPeerId.ToWireInt())
  }

  const FIELDS := [Version, HeadParamsHash, HeadId, HeadAddress, OwnPeerId]

  function PutFields(codec: Codec, version: U32, identity: StoreIdentity, fields: seq<Field>): (batch: seq<Write>)
    ensures |batch| == |fields| && forall w :: w in batch ==> w.cf == Cf.Meta
  {
    seq(|fields|, i requires 0 <= i < |fields| =>
      Put(Cf.Meta, fields[i].Key(), FieldValue(codec, version, identity, fields[i])))
  }

  /** The stamp, as one batch. */
  function Stamp(codec: Codec, version: U32, identity: StoreIdentity): (batch: seq<Write>)
    ensures forall w :: w in batch ==> w.cf == Cf.Meta
  {
    PutFields(codec, version, identity, FIELDS)
  }

  predicate IsStampKey(k: Bytes) {
    exists field: Field :: field.Key() == k
  }

  /** The same store but for its stamp. */
  ghost predicate Restamped(before: Contents, after: Contents) {
    && Cf.Meta in before && after.Keys == before.Keys
    && (forall cf :: cf in before && cf != Cf.Meta ==> after[cf] == before[cf])
    && forall k :: !IsStampKey(k) ==>
         (k in after[Cf.Meta] <==> k in before[Cf.Meta])
         && (k in before[Cf.Meta] ==> after[Cf.Meta][k] == before[Cf.Meta][k])
  }

  /** A stamp written to a store reads back as the identity it was made from, and changes nothing else. */
  lemma StampReadsBack(codec: Codec, db: Contents, version: U32, identity: StoreIdentity)
    requires codec.Faithful() && Stampable(identity) && Cf.Meta in db
    ensures ReadMeta(codec, Written(db, Stamp(codec, version, identity))[Cf.Meta])
            == Ok(StoreMeta(version, Some(identity)))
    ensures IdentityOf(codec, Written(db, Stamp(codec, version, identity))) == Ok(Some(identity))
    ensures Restamped(db, Written(db, Stamp(codec, version, identity)))
  {
    FieldsLand(codec, db, version, identity, FIELDS);
    var after := Written(db, Stamp(codec, version, identity));
    CapacityOfWords();
    BigEndianRoundTrip(4, version);
    BigEndianRoundTrip(4, identity.ownPeerId.ToWireInt());
    WireIntRoundTrip(identity.ownPeerId);
    assert FIELDS[0] == Version && FIELDS[1] == HeadParamsHash && FIELDS[2] == HeadId && FIELDS[3] == HeadAddress
           && FIELDS[4] == OwnPeerId;
    hide Written, Field.Key, FieldValue;
  }

  lemma {:induction false} FieldsLand(codec: Codec, db: Contents, version: U32, identity: StoreIdentity,
                                      fields: seq<Field>)
    requires Cf.Meta in db
    ensures Restamped(db, Written(db, PutFields(codec, version, identity, fields)))
    ensures forall i :: 0 <= i < |fields| ==>
              Get(Written(db, PutFields(codec, version, identity, fields))[Cf.Meta], fields[i])
              == Some(FieldValue(codec, version, identity, fields[i]))
    decreases |fields|
  {
    hide FieldValue, Field.Key, Restamped, Written, Get;
    if fields == [] {
      NothingLands(db);
    } else {
      var init, last := fields[..|fields| - 1], fields[|fields| - 1];
      var earlier := PutFields(codec, version, identity, init);
      FieldsLand(codec, db, version, identity, init);
      assert PutFields(codec, version, identity, fields) ==
             earlier + [Put(Cf.Meta, last.Key(), FieldValue(codec, version, identity, last))];
      WriteMore(db, earlier, last.Key(), FieldValue(codec, version, identity, last));
      OneFieldLands(db, Written(db, earlier), last, FieldValue(codec, version, identity, last));
    }
  }

  lemma NothingLands(db: Contents)
    requires Cf.Meta in db
    ensures Written(db, []) == db && Restamped(db, db)
  {
  }

  function WithRow(contents: Contents, key: Bytes, value: Bytes): Contents
    requires Cf.Meta in contents
  {
    contents[Cf.Meta := contents[Cf.Meta][key := value]]
  }

  lemma WriteMore(db: Contents, batch: seq<Write>, key: Bytes, value: Bytes)
    requires Cf.Meta in db && forall w :: w in batch ==> w.cf == Cf.Meta
    ensures Cf.Meta in Written(db, batch)
    ensures Written(db, batch + [Put(Cf.Meta, key, value)]) == WithRow(Written(db, batch), key, value)
  {
    assert (batch + [Put(Cf.Meta, key, value)])[..|batch|] == batch;
  }

  lemma OneFieldLands(db: Contents, was: Contents, field: Field, value: Bytes)
    requires Restamped(db, was)
    ensures Restamped(db, WithRow(was, field.Key(), value))
    ensures Get(WithRow(was, field.Key(), value)[Cf.Meta], field) == Some(value)
    ensures forall f: Field :: f != field ==> Get(WithRow(was, field.Key(), value)[Cf.Meta], f) == Get(was[Cf.Meta], f)
  {
    hide Field.Key;
    assert IsStampKey(field.Key());
    forall f: Field | f.Key() == field.Key()
      ensures f == field
    {
      KeysDiffer(f, field);
    }
  }

  function FieldsPresent(kv: Kv): nat {
    Present(Get(kv, HeadParamsHash)) + Present(Get(kv, HeadId)) + Present(Get(kv, HeadAddress))
    + Present(Get(kv, OwnPeerId))
  }

  /**
   A partial stamp is refused if and only if a version stands beside it. Without one the archive is
   taken for a new one, whatever fields it has, all four of them included; with one, only if it has none.
   */
  lemma PartialStampNeedsVersion(codec: Codec, db: Contents)
    requires Cf.Meta in db
    ensures 0 < FieldsPresent(db[Cf.Meta]) < 4 ==>
              (IdentityOf(codec, db).Err? <==> Get(db[Cf.Meta], Version).Some?)
    ensures IdentityOf(codec, db) == Ok(None) <==>
              || Get(db[Cf.Meta], Version).None?
              || (DecodeVersion(Get(db[Cf.Meta], Version).value).Ok? && FieldsPresent(db[Cf.Meta]) == 0)
  {
    hide Get, DecodeVersion;
  }

  /** A store without its version row. */
  function Unversioned(contents: Contents): Contents
    requires Cf.Meta in contents
  {
    contents[Cf.Meta := contents[Cf.Meta] - {Version.Key()}]
  }

  /** Without its version row a stamp still has its four other rows, and still does not count. */
  lemma UnversionedIsNew(codec: Codec, db: Contents, version: U32, identity: StoreIdentity)
    requires codec.Faithful() && Stampable(identity) && Cf.Meta in db
    ensures var stamped := Written(db, Stamp(codec, version, identity));
            && Cf.Meta in stamped && IdentityOf(codec, stamped) == Ok(Some(identity))
            && FieldsPresent(Unversioned(stamped)[Cf.Meta]) == 4
            && IdentityOf(codec, Unversioned(stamped)) == Ok(None)
  {
    hide Stamp, Written, Field.Key, DecodeVersion;
    StampReadsBack(codec, db, version, identity);
    var stamped := Written(db, Stamp(codec, version, identity));
    forall f: Field | f != Version
      ensures Get(Unversioned(stamped)[Cf.Meta], f) == Get(stamped[Cf.Meta], f)
    {
      if f.Key() == Version.Key() {
        KeysDiffer(f, Version);
      }
    }
    PartialStampNeedsVersion(codec, Unversioned(stamped));
  }
}
