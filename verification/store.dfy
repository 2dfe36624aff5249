/** The mutable state `data` of renderer.ts and the handlers that change it in place.
    Each method is proved to leave the state its specification function in module Ingest
    prescribes. */
module Store {
  import opened Feed
  import opened Ingest

  class FeedStore {
    var itemsByFeed: map<string, seq<Item>>
    /** Feed keys in the order they were first assigned (Object.keys order). */
    var keys: seq<string>
    var removedGUIDs: seq<string>

    ghost function Snap(): Snapshot
      reads this
    {
      Snapshot(itemsByFeed, keys, removedGUIDs)
    }

    ghost predicate Valid()
      reads this
    {
      WellFormed(Snap())
    }

    /** `let data = { itemsByFeed: {}, removedGUIDs: [] }` */
    constructor ()
      ensures Valid() && Snap() == Empty
    {
      itemsByFeed, keys, removedGUIDs := map[], [], [];
    }

    /** The state change of fetchRSSFeed once the document is parsed: normalise the
        entries, keep those neither stored in this feed nor tombstoned, append them. */
    method Merge(url: string, channelTitle: Option<string>, raws: seq<RawItem>)
      requires Valid()
      modifies this
      ensures Valid()
      ensures Snap() == Ingest.Merge(old(Snap()), url, NormaliseAll(channelTitle, raws))
    {
      var existing := if url in itemsByFeed then itemsByFeed[url] else [];
      var fetched := Admitted(existing, removedGUIDs, NormaliseAll(channelTitle, raws));
      if url !in itemsByFeed {
        keys := keys + [url];
      }
      itemsByFeed := itemsByFeed[url := existing + fetched];
    }

    /** A click on "Read More" or "Remove": push the identity, then filter it out of
        every feed (updateItemStorage with remove = true). */
    method RemoveItem(guid: string)
      requires Valid()
      modifies this
      ensures Valid()
      ensures Snap() == Ingest.RemoveItem(old(Snap()), guid)
    {
      removedGUIDs := removedGUIDs + [guid];
      FilterFeeds(guid);
    }

    /** updateItemStorage's loop: filter the identity out of each feed in key order. */
    method FilterFeeds(guid: string)
      modifies this`itemsByFeed
      ensures itemsByFeed == FilterEach(old(itemsByFeed), keys, guid)
    {
      var ks := keys;
      ghost var m0 := itemsByFeed;
      var i := 0;
      while i < |ks|
        invariant 0 <= i <= |ks|
        invariant itemsByFeed == FilterEach(m0, ks[..i], guid)
      {
        var k := ks[i];
        assert ks[..i + 1] == ks[..i] + [k];
        FilterEachSnoc(m0, ks[..i], guid, k);
        if k in itemsByFeed {
          itemsByFeed := itemsByFeed[k := WithoutGuid(itemsByFeed[k], guid)];
        }
        i := i + 1;
      }
      assert ks[..i] == ks;
    }

    /** A click on "Remove all": tombstone every stored identity not yet tombstoned, in
        key order and stored order, then empty every feed. */
    method RemoveAll()
      requires Valid()
      modifies this
      ensures Valid()
      ensures Snap() == Ingest.RemoveAll(old(Snap()))
    {
      TombstoneStored();
      ClearFeeds();
    }

    /** The first pass of remove-all: push each stored identity that is not there yet. */
    method TombstoneStored()
      requires Valid()
      modifies this`removedGUIDs
      ensures removedGUIDs == Tombstone(old(removedGUIDs), Stored(itemsByFeed, keys))
    {
      var m, ks := itemsByFeed, keys;
      ghost var base := removedGUIDs;
      var i := 0;
      while i < |ks|
        invariant 0 <= i <= |ks|
        invariant removedGUIDs == Tombstone(base, Stored(m, ks[..i]))
      {
        assert ks[i] in m;
        assert ks[..i + 1] == ks[..i] + [ks[i]];
        StoredSnoc(m, ks[..i], ks[i]);
        TombstoneItems(m[ks[i]], base, Stored(m, ks[..i]));
        i := i + 1;
      }
      assert ks[..i] == ks;
    }

    /** The inner loop of the first pass, over one feed's list. */
    method TombstoneItems(items: seq<Item>, ghost base: seq<string>, ghost done: seq<Item>)
      requires removedGUIDs == Tombstone(base, done)
      modifies this`removedGUIDs
      ensures removedGUIDs == Tombstone(base, done + items)
    {
      assert done + items[..0] == done;
      var j := 0;
      while j < |items|
        invariant 0 <= j <= |items|
        invariant removedGUIDs == Tombstone(base, done + items[..j])
      {
        assert done + items[..j + 1] == (done + items[..j]) + [items[j]];
        TombstoneSnoc(base, done + items[..j], items[j]);
        if items[j].guid !in removedGUIDs {
          removedGUIDs := removedGUIDs + [items[j].guid];
        }
        j := j + 1;
      }
      assert items[..j] == items;
    }

    /** The second pass of remove-all: every feed key now maps to an empty list. */
    method ClearFeeds()
      modifies this`itemsByFeed
      ensures itemsByFeed == ClearEach(old(itemsByFeed), keys)
    {
      var ks := keys;
      ghost var m0 := itemsByFeed;
      var i := 0;
      while i < |ks|
        invariant 0 <= i <= |ks|
        invariant itemsByFeed == ClearEach(m0, ks[..i])
      {
        var k := ks[i];
        assert ks[..i + 1] == ks[..i] + [k];
        ClearEachSnoc(m0, ks[..i], k);
        if k in itemsByFeed {
          itemsByFeed := itemsByFeed[k := []];
        }
        i := i + 1;
      }
      assert ks[..i] == ks;
    }
  }
}
