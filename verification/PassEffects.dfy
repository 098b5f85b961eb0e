/** What a pass leaves in each family, whether it finished or stopped. */
module PassEffects {
  import opened Families
  import opened OrderedStore
  import opened Stores
  import opened Pass

  /** What a pass may have done to one family: nothing, or written a decodable prefix of its rows. */
  ghost predicate PrefixWritten(before: Contents, view: Contents, full: bool, after: Contents, cf: Cf)
    requires cf in before
  {
    exists m :: 0 <= m <= |RowsFor(cf, before, view, full)|
                && cf in after && after[cf] == PutAll(before[cf], RowsFor(cf, before, view, full)[..m])
                && (cf.IsJournal() ==> Decodable(cf, RowsFor(cf, before, view, full)[..m]))
  }

  lemma RowsComeFromView(cf: Cf, before: Contents, view: Contents, full: bool)
    ensures forall i :: 0 <= i < |RowsFor(cf, before, view, full)| ==>
              && cf in view && RowsFor(cf, before, view, full)[i].0 in view[cf]
              && RowsFor(cf, before, view, full)[i].1 == view[cf][RowsFor(cf, before, view, full)[i].0]
  {
    var rows := RowsFor(cf, before, view, full);
    if cf !in view {
      assert rows == [];
    } else if cf.IsJournal() && RoomAbove(cf, before) && ResumeKey(cf, before, view).Ok? {
      assert rows == RowsFrom(view[cf], ResumeKey(cf, before, view).value);
    } else {
      assert rows == [] || rows == RowsFrom(view[cf], []);
    }
  }

  lemma EveryPrefixWritten(before: Contents, view: Contents, full: bool, all: set<Cf>, after: Contents)
    requires Transferred(before, view, full, all, after) || Stopped(before, view, full, all, after)
    ensures after.Keys == before.Keys
    ensures forall cf :: cf in before ==> PrefixWritten(before, view, full, after, cf)
  {
    hide RowsFor, Stopped, StoppedIn, Decodable;
    assert Stopped(before, view, full, all, after) && before == map[] ==> after.Keys == before.Keys by {
      EmptyStaysEmpty(before, view, full, all, after);
    }
    forall cf | cf in before
      ensures after.Keys == before.Keys && PrefixWritten(before, view, full, after, cf)
    {
      var rows := RowsFor(cf, before, view, full);
      if Stopped(before, view, full, all, after) {
        StoppedLeavesPrefixes(before, view, full, all, after, cf);
      } else {
        TransferWritesPrefix(before, view, full, all, after, cf);
      }
    }
  }

  lemma EmptyStaysEmpty(before: Contents, view: Contents, full: bool, all: set<Cf>, after: Contents)
    ensures Stopped(before, view, full, all, after) && before == map[] ==> after.Keys == before.Keys
  {
  }

  lemma TransferWritesPrefix(before: Contents, view: Contents, full: bool, all: set<Cf>, after: Contents, cf: Cf)
    requires Transferred(before, view, full, all, after) && cf in before
    ensures PrefixWritten(before, view, full, after, cf)
  {
    hide RowsFor, DecodeRow;
    var rows := RowsFor(cf, before, view, full);
    var m := if cf in all then |rows| else 0;
    assert rows[..|rows|] == rows;
    assert after[cf] == PutAll(before[cf], rows[..m]);
  }

  /** A pass writes nothing but what its view holds, and removes nothing. */
  ghost predicate Mixed(before: Contents, view: Contents, after: Contents) {
    && after.Keys == before.Keys
    && forall cf :: cf in before ==> MixedFamily(before[cf], if cf in view then view[cf] else map[], after[cf])
  }

  ghost predicate MixedFamily(before: Kv, view: Kv, after: Kv) {
    && (forall k :: k in before ==> k in after)
    && (forall k :: k in after ==> (k in before && after[k] == before[k]) || (k in view && after[k] == view[k]))
  }

  lemma PassMixes(before: Contents, view: Contents, full: bool, all: set<Cf>, after: Contents)
    requires Transferred(before, view, full, all, after) || Stopped(before, view, full, all, after)
    ensures Mixed(before, view, after)
  {
    EveryPrefixWritten(before, view, full, all, after);
    hide Transferred, Stopped, PrefixWritten, MixedFamily;
    forall cf | cf in before
      ensures MixedFamily(before[cf], if cf in view then view[cf] else map[], after[cf])
    {
      PrefixMixes(before, view, full, after, cf);
    }
  }

  lemma PrefixMixes(before: Contents, view: Contents, full: bool, after: Contents, cf: Cf)
    requires cf in before && PrefixWritten(before, view, full, after, cf)
    ensures MixedFamily(before[cf], if cf in view then view[cf] else map[], after[cf])
  {
    hide RowsFor, Decodable;
    var rows := RowsFor(cf, before, view, full);
    RowsComeFromView(cf, before, view, full);
    var m :| 0 <= m <= |rows| && after[cf] == PutAll(before[cf], rows[..m]);
    var from := if cf in view then view[cf] else map[];
    forall k
      ensures k in before[cf] ==> k in after[cf]
      ensures k in after[cf] ==>
              (k in before[cf] && after[cf][k] == before[cf][k]) || (k in from && after[cf][k] == from[k])
    {
      PutAllCopies(before[cf], rows[..m], from, k);
    }
  }
}
