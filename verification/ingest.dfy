/** The process-wide feed state and the three operations that change it (renderer.ts),
    stated on values. The class in module Store performs them in place and is proved
    to agree with the functions here. */
module Ingest {
  import opened Feed

  /** The state `data`: the list of each feed, the order in which feed keys were first
      assigned (which fixes the order of Object.keys/values/entries), and the tombstones. */
  datatype Snapshot = Snapshot(itemsByFeed: map<string, seq<Item>>, keys: seq<string>, removedGUIDs: seq<string>)

  const Empty: Snapshot := Snapshot(map[], [], [])

  ghost predicate Distinct(ks: seq<string>)
  {
    forall i, j :: 0 <= i < j < |ks| ==> ks[i] != ks[j]
  }

  /** The key sequence lists every feed exactly once. */
  ghost predicate WellFormed(s: Snapshot)
  {
    && (forall k :: k in s.itemsByFeed <==> k in s.keys)
    && Distinct(s.keys)
  }

  /** Some item of `xs` has identity `g`. */
  predicate Mentions(xs: seq<Item>, g: string)
  {
    exists x :: x in xs && x.guid == g
  }

  /** No two items of `xs` share an identity. */
  ghost predicate UniqueGuids(xs: seq<Item>)
  {
    forall i, j :: 0 <= i < j < |xs| ==> xs[i].guid != xs[j].guid
  }

  /** Some feed stores an item with identity `g`. */
  ghost predicate Holds(s: Snapshot, g: string)
  {
    exists k :: k in s.itemsByFeed && Mentions(s.itemsByFeed[k], g)
  }

  /** No stored item carries a tombstoned identity. */
  ghost predicate Clean(s: Snapshot)
  {
    forall k, x :: k in s.itemsByFeed && x in s.itemsByFeed[k] ==> x.guid !in s.removedGUIDs
  }

  ghost predicate IsPrefix<T>(a: seq<T>, b: seq<T>)
  {
    |a| <= |b| && b[..|a|] == a
  }

  // ---------------------------------------------------------------------------
  // Merge of one fetched batch (fetchRSSFeed)
  // ---------------------------------------------------------------------------

  /** `data.itemsByFeed[url] || []` */
  function Existing(s: Snapshot, url: string): seq<Item>
  {
    if url in s.itemsByFeed then s.itemsByFeed[url] else []
  }

  /** The batch filter: an item survives when its identity is neither stored in the
      feed already nor tombstoned. The batch is NOT checked against itself. */
  function Admitted(existing: seq<Item>, removed: seq<string>, batch: seq<Item>): (r: seq<Item>)
    ensures |r| <= |batch|
    ensures forall x :: x in r <==> x in batch && !Mentions(existing, x.guid) && x.guid !in removed
  {
    if batch == [] then []
    else
      var rest := Admitted(existing, removed, batch[1..]);
      if !Mentions(existing, batch[0].guid) && batch[0].guid !in removed
      then [batch[0]] + rest
      else rest
  }

  /** The filter works item by item, so it keeps the batch order. */
  lemma {:induction false} AdmittedAppend(existing: seq<Item>, removed: seq<string>, a: seq<Item>, b: seq<Item>)
    ensures Admitted(existing, removed, a + b) == Admitted(existing, removed, a) + Admitted(existing, removed, b)
  {
    if a != [] {
      var ab := a + b;
      assert ab[0] == a[0] && ab[1..] == a[1..] + b;
      AdmittedAppend(existing, removed, a[1..], b);
      if !Mentions(existing, a[0].guid) && a[0].guid !in removed {
        assert Admitted(existing, removed, ab) == [a[0]] + Admitted(existing, removed, ab[1..]);
      }
    } else {
      assert a + b == b;
    }
  }

  /** Merge: the feed's list becomes the old list followed by the admitted batch items;
      nothing else changes. A new feed key is appended to the key order. */
  function Merge(s: Snapshot, url: string, batch: seq<Item>): (t: Snapshot)
    ensures t.removedGUIDs == s.removedGUIDs
    ensures t.itemsByFeed.Keys == s.itemsByFeed.Keys + {url}
    ensures t.keys == if url in s.itemsByFeed then s.keys else s.keys + [url]
    ensures forall k :: k in s.itemsByFeed && k != url ==> t.itemsByFeed[k] == s.itemsByFeed[k]
    ensures IsPrefix(Existing(s, url), t.itemsByFeed[url])
    ensures forall x :: x in t.itemsByFeed[url][|Existing(s, url)|..] <==>
              x in batch && !Mentions(Existing(s, url), x.guid) && x.guid !in s.removedGUIDs
    ensures t.itemsByFeed[url] == Existing(s, url) + Admitted(Existing(s, url), s.removedGUIDs, batch)
    ensures WellFormed(s) ==> WellFormed(t)
  {
    var items := Existing(s, url) + Admitted(Existing(s, url), s.removedGUIDs, batch);
    assert items[..|Existing(s, url)|] == Existing(s, url);
    assert items[|Existing(s, url)|..] == Admitted(Existing(s, url), s.removedGUIDs, batch);
    Snapshot(s.itemsByFeed[url := items],
             if url in s.itemsByFeed then s.keys else s.keys + [url],
             s.removedGUIDs)
  }

  /** Every batch item ends up either stored in the feed or tombstoned. */
  lemma {:induction false} AdmittedCovers(existing: seq<Item>, removed: seq<string>, batch: seq<Item>)
    ensures forall x :: x in batch ==>
              Mentions(existing + Admitted(existing, removed, batch), x.guid) || x.guid in removed
  {
    var r := Admitted(existing, removed, batch);
    forall x | x in batch
      ensures Mentions(existing + r, x.guid) || x.guid in removed
    {
      if x.guid !in removed {
        if Mentions(existing, x.guid) {
          var y :| y in existing && y.guid == x.guid;
          assert y in existing + r;
        } else {
          assert x in r;
          assert x in existing + r;
        }
      }
    }
  }

  /** A batch whose identities are all stored or tombstoned admits nothing. */
  lemma {:induction false} AdmittedNothingNew(existing: seq<Item>, removed: seq<string>, batch: seq<Item>)
    requires forall x :: x in batch ==> Mentions(existing, x.guid) || x.guid in removed
    ensures Admitted(existing, removed, batch) == []
  {
    if batch != [] {
      assert batch[0] in batch;
      forall x | x in batch[1..] ensures Mentions(existing, x.guid) || x.guid in removed {
        assert x in batch;
      }
      AdmittedNothingNew(existing, removed, batch[1..]);
    }
  }

  /** Merging the same batch a second time changes nothing, even when the batch
      repeats an identity. */
  lemma {:induction false} MergeIdempotent(s: Snapshot, url: string, batch: seq<Item>)
    ensures Merge(Merge(s, url, batch), url, batch) == Merge(s, url, batch)
  {
    var t := Merge(s, url, batch);
    var e := Existing(s, url);
    AdmittedCovers(e, s.removedGUIDs, batch);
    assert Existing(t, url) == e + Admitted(e, s.removedGUIDs, batch);
    var again := Admitted(Existing(t, url), t.removedGUIDs, batch);
    AdmittedNothingNew(Existing(t, url), t.removedGUIDs, batch);
    assert Existing(t, url) + again == Existing(t, url);
    assert t.itemsByFeed[url := Existing(t, url)] == t.itemsByFeed;
  }

  /** A batch item is never admitted when its identity is tombstoned. */
  lemma MergeNeverAddsTombstoned(s: Snapshot, url: string, batch: seq<Item>)
    ensures forall k, x ::
              (k in Merge(s, url, batch).itemsByFeed && x in Merge(s, url, batch).itemsByFeed[k] && x.guid in s.removedGUIDs)
              ==> k in s.itemsByFeed && x in s.itemsByFeed[k]
  {
    var t := Merge(s, url, batch);
    var e := Existing(s, url);
    forall k, x | k in t.itemsByFeed && x in t.itemsByFeed[k] && x.guid in s.removedGUIDs
      ensures k in s.itemsByFeed && x in s.itemsByFeed[k]
    {
      if k == url {
        var items := t.itemsByFeed[url];
        assert items == items[..|e|] + items[|e|..];
      }
    }
  }

  /** A batch whose identities are distinct keeps the feed's identities distinct. */
  lemma {:induction false} AdmittedUnique(existing: seq<Item>, removed: seq<string>, batch: seq<Item>)
    requires UniqueGuids(batch)
    ensures UniqueGuids(Admitted(existing, removed, batch))
  {
    if batch != [] {
      var rest := Admitted(existing, removed, batch[1..]);
      AdmittedUnique(existing, removed, batch[1..]);
      if !Mentions(existing, batch[0].guid) && batch[0].guid !in removed {
        forall j | 0 <= j < |rest|
          ensures batch[0].guid != rest[j].guid
        {
          assert rest[j] in rest;
          var i :| 0 <= i < |batch[1..]| && batch[1..][i] == rest[j];
          assert batch[i + 1] == rest[j];
        }
      }
    }
  }

  lemma MergeKeepsGuidsUnique(s: Snapshot, url: string, batch: seq<Item>)
    requires UniqueGuids(Existing(s, url)) && UniqueGuids(batch)
    ensures UniqueGuids(Merge(s, url, batch).itemsByFeed[url])
  {
    var e := Existing(s, url);
    var r := Admitted(e, s.removedGUIDs, batch);
    AdmittedUnique(e, s.removedGUIDs, batch);
    var items := e + r;
    forall i, j | 0 <= i < j < |items|
      ensures items[i].guid != items[j].guid
    {
      if j >= |e| && i < |e| {
        assert r[j - |e|] in r;
        assert items[i] in e;
      } else if i >= |e| {
        assert items[i] == r[i - |e|] && items[j] == r[j - |e|];
      }
    }
  }

  /** The batch is not checked against itself: two entries with one identity are
      both appended (for instance two entries that have neither guid nor link). */
  lemma DuplicateBatchIsStoredTwice(url: string)
    ensures var x := Normalise(UnknownFeed, RawItem(None, None, None, 0));
            Merge(Empty, url, [x, x]).itemsByFeed[url] == [x, x]
            && !UniqueGuids(Merge(Empty, url, [x, x]).itemsByFeed[url])
  {
    var x := Normalise(UnknownFeed, RawItem(None, None, None, 0));
    assert Admitted([], [], [x]) == [x];
    assert Admitted([], [], [x, x]) == [x, x];
    assert Merge(Empty, url, [x, x]).itemsByFeed[url][0].guid == Merge(Empty, url, [x, x]).itemsByFeed[url][1].guid;
  }

  // ---------------------------------------------------------------------------
  // Single removal (click handlers + updateItemStorage)
  // ---------------------------------------------------------------------------

  /** `items.filter(item => item.guid !== guid)` */
  function WithoutGuid(xs: seq<Item>, g: string): seq<Item>
  {
    if xs == [] then []
    else (if xs[0].guid != g then [xs[0]] else []) + WithoutGuid(xs[1..], g)
  }

  /** The filter keeps exactly the items with another identity. */
  lemma {:induction false} WithoutGuidMembers(xs: seq<Item>, g: string)
    ensures |WithoutGuid(xs, g)| <= |xs|
    ensures forall x :: x in WithoutGuid(xs, g) <==> x in xs && x.guid != g
  {
    if xs != [] {
      WithoutGuidMembers(xs[1..], g);
      assert xs == [xs[0]] + xs[1..];
    }
  }

  /** The filter keeps the relative order of what it keeps. */
  lemma {:induction false} WithoutGuidAppend(a: seq<Item>, b: seq<Item>, g: string)
    ensures WithoutGuid(a + b, g) == WithoutGuid(a, g) + WithoutGuid(b, g)
  {
    if a != [] {
      var ab := a + b;
      assert ab[0] == a[0] && ab[1..] == a[1..] + b;
      WithoutGuidAppend(a[1..], b, g);
      var head := if a[0].guid != g then [a[0]] else [];
      assert WithoutGuid(ab, g) == head + WithoutGuid(ab[1..], g);
      assert WithoutGuid(a, g) == head + WithoutGuid(a[1..], g);
    } else {
      assert a + b == b;
    }
  }

  /** A list without the identity is left exactly as it was. */
  lemma {:induction false} WithoutAbsentGuid(xs: seq<Item>, g: string)
    requires !Mentions(xs, g)
    ensures WithoutGuid(xs, g) == xs
  {
    if xs != [] {
      assert xs[0] in xs;
      assert !Mentions(xs[1..], g) by {
        forall x | x in xs[1..] ensures x.guid != g { assert x in xs; }
      }
      WithoutAbsentGuid(xs[1..], g);
      assert [xs[0]] + xs[1..] == xs;
    }
  }

  /** `Object.keys(itemsByFeed).forEach(k => itemsByFeed[k] = itemsByFeed[k].filter(...))`:
      the feeds named by `ks` are filtered one after the other. */
  function FilterEach(m: map<string, seq<Item>>, ks: seq<string>, g: string): (r: map<string, seq<Item>>)
    ensures r.Keys == m.Keys
  {
    if ks == [] then m
    else
      var prev := FilterEach(m, ks[..|ks| - 1], g);
      var k := ks[|ks| - 1];
      if k in prev then prev[k := WithoutGuid(prev[k], g)] else prev
  }

  /** One more key: filter its feed in the map built so far. */
  lemma FilterEachSnoc(m: map<string, seq<Item>>, ks: seq<string>, g: string, k: string)
    ensures FilterEach(m, ks + [k], g) ==
              (var prev := FilterEach(m, ks, g); if k in prev then prev[k := WithoutGuid(prev[k], g)] else prev)
  {
    assert (ks + [k])[..|ks|] == ks;
  }

  /** With distinct keys, each listed feed is filtered once and every other feed is untouched. */
  lemma {:induction false} FilterEachAt(m: map<string, seq<Item>>, ks: seq<string>, g: string, k: string)
    requires Distinct(ks) && k in m
    ensures FilterEach(m, ks, g)[k] == if k in ks then WithoutGuid(m[k], g) else m[k]
  {
    if ks != [] {
      var init := ks[..|ks| - 1];
      var last := ks[|ks| - 1];
      assert ks == init + [last];
      assert Distinct(init);
      FilterEachAt(m, init, g, k);
      if k == last {
        assert k !in init;
      }
    }
  }

  /** Filtering never adds an item to a feed. */
  lemma {:induction false} FilterEachShrinks(m: map<string, seq<Item>>, ks: seq<string>, g: string)
    ensures forall k, x :: k in m && x in FilterEach(m, ks, g)[k] ==> x in m[k]
  {
    if ks != [] {
      var prev := FilterEach(m, ks[..|ks| - 1], g);
      FilterEachShrinks(m, ks[..|ks| - 1], g);
      var last := ks[|ks| - 1];
      if last in prev {
        WithoutGuidMembers(prev[last], g);
      }
    }
  }

  /** Push the identity (unconditionally, so possibly a second time) and filter every feed. */
  function RemoveItem(s: Snapshot, g: string): (t: Snapshot)
    ensures t.removedGUIDs == s.removedGUIDs + [g]
    ensures t.keys == s.keys && t.itemsByFeed.Keys == s.itemsByFeed.Keys
    ensures WellFormed(s) ==> WellFormed(t)
  {
    Snapshot(FilterEach(s.itemsByFeed, s.keys, g), s.keys, s.removedGUIDs + [g])
  }

  /** Removal keeps exactly the items with another identity, feed by feed, so afterwards
      no feed holds the identity. */
  lemma RemoveItemKeeps(s: Snapshot, g: string)
    requires WellFormed(s)
    ensures forall k :: k in s.itemsByFeed ==> RemoveItem(s, g).itemsByFeed[k] == WithoutGuid(s.itemsByFeed[k], g)
    ensures forall k, x :: k in RemoveItem(s, g).itemsByFeed && x in RemoveItem(s, g).itemsByFeed[k] <==>
              k in s.itemsByFeed && x in s.itemsByFeed[k] && x.guid != g
    ensures !Holds(RemoveItem(s, g), g)
  {
    var t := RemoveItem(s, g);
    forall k | k in s.itemsByFeed
      ensures t.itemsByFeed[k] == WithoutGuid(s.itemsByFeed[k], g)
    {
      FilterEachAt(s.itemsByFeed, s.keys, g, k);
    }
    forall k, x
      ensures k in t.itemsByFeed && x in t.itemsByFeed[k] <==> k in s.itemsByFeed && x in s.itemsByFeed[k] && x.guid != g
    {
      if k in s.itemsByFeed {
        WithoutGuidMembers(s.itemsByFeed[k], g);
      }
    }
  }

  // ---------------------------------------------------------------------------
  // Remove-all handler
  // ---------------------------------------------------------------------------

  /** The concatenation of the feeds' lists in key order (Object.values). */
  function Stored(m: map<string, seq<Item>>, ks: seq<string>): seq<Item>
  {
    if ks == [] then []
    else Stored(m, ks[..|ks| - 1]) + (if ks[|ks| - 1] in m then m[ks[|ks| - 1]] else [])
  }

  /** Every item of a listed feed occurs in the concatenation. */
  lemma {:induction false} StoredContains(m: map<string, seq<Item>>, ks: seq<string>, k: string, x: Item)
    requires k in m && k in ks && x in m[k]
    ensures x in Stored(m, ks)
  {
    var last := ks[|ks| - 1];
    if k == last {
      assert x in (if last in m then m[last] else []);
    } else {
      assert k in ks[..|ks| - 1] by {
        var i :| 0 <= i < |ks| && ks[i] == k;
        assert ks[..|ks| - 1][i] == k;
      }
      StoredContains(m, ks[..|ks| - 1], k, x);
    }
  }

  /** `if (!removedGUIDs.includes(guid)) removedGUIDs.push(guid)` for each item in turn. */
  function Tombstone(removed: seq<string>, xs: seq<Item>): seq<string>
  {
    if xs == [] then removed
    else
      var prev := Tombstone(removed, xs[..|xs| - 1]);
      var g := xs[|xs| - 1].guid;
      if g in prev then prev else prev + [g]
  }

  /** The old tombstones stay in front; afterwards exactly the identities of `xs` are
      tombstoned as well, each appended once and only if it was absent. */
  lemma {:induction false} TombstoneAppendsAbsent(removed: seq<string>, xs: seq<Item>)
    ensures IsPrefix(removed, Tombstone(removed, xs))
    ensures forall g :: g in Tombstone(removed, xs) <==> g in removed || Mentions(xs, g)
    ensures forall i :: |removed| <= i < |Tombstone(removed, xs)| ==> Tombstone(removed, xs)[i] !in removed
    ensures forall i, j :: |removed| <= i < j < |Tombstone(removed, xs)| ==>
              Tombstone(removed, xs)[i] != Tombstone(removed, xs)[j]
  {
    if xs != [] {
      var init := xs[..|xs| - 1];
      TombstoneAppendsAbsent(removed, init);
      var prev := Tombstone(removed, init);
      var g := xs[|xs| - 1].guid;
      assert forall h :: Mentions(xs, h) <==> Mentions(init, h) || h == g by {
        assert xs == init + [xs[|xs| - 1]];
      }
      if g !in prev {
        assert forall i :: |removed| <= i < |prev| ==> prev[i] != g;
      }
    }
  }

  /** One more item: tombstone its identity unless already present. */
  lemma TombstoneSnoc(removed: seq<string>, xs: seq<Item>, x: Item)
    ensures Tombstone(removed, xs + [x]) ==
              (if x.guid in Tombstone(removed, xs) then Tombstone(removed, xs) else Tombstone(removed, xs) + [x.guid])
  {
    assert (xs + [x])[..|xs|] == xs;
  }

  /** One more key: its list follows the lists of the keys before it. */
  lemma StoredSnoc(m: map<string, seq<Item>>, ks: seq<string>, k: string)
    ensures Stored(m, ks + [k]) == Stored(m, ks) + (if k in m then m[k] else [])
  {
    assert (ks + [k])[..|ks|] == ks;
  }

  /** `Object.keys(itemsByFeed).forEach(k => itemsByFeed[k] = [])`, one key after the other. */
  function ClearEach(m: map<string, seq<Item>>, ks: seq<string>): (r: map<string, seq<Item>>)
    ensures r.Keys == m.Keys
  {
    if ks == [] then m
    else
      var prev := ClearEach(m, ks[..|ks| - 1]);
      var k := ks[|ks| - 1];
      if k in prev then prev[k := []] else prev
  }

  /** One more key: empty its feed in the map built so far. */
  lemma ClearEachSnoc(m: map<string, seq<Item>>, ks: seq<string>, k: string)
    ensures ClearEach(m, ks + [k]) == (var prev := ClearEach(m, ks); if k in prev then prev[k := []] else prev)
  {
    assert (ks + [k])[..|ks|] == ks;
  }

  /** A listed feed is emptied and every other feed is untouched. */
  lemma {:induction false} ClearEachAt(m: map<string, seq<Item>>, ks: seq<string>, k: string)
    requires k in m
    ensures ClearEach(m, ks)[k] == if k in ks then [] else m[k]
  {
    if ks != [] {
      var init := ks[..|ks| - 1];
      assert ks == init + [ks[|ks| - 1]];
      ClearEachAt(m, init, k);
    }
  }

  /** Tombstone every stored identity not yet tombstoned, then empty every feed. */
  function RemoveAll(s: Snapshot): (t: Snapshot)
    ensures t.keys == s.keys && t.itemsByFeed.Keys == s.itemsByFeed.Keys
    ensures t.removedGUIDs == Tombstone(s.removedGUIDs, Stored(s.itemsByFeed, s.keys))
    ensures WellFormed(s) ==> WellFormed(t)
  {
    Snapshot(ClearEach(s.itemsByFeed, s.keys), s.keys, Tombstone(s.removedGUIDs, Stored(s.itemsByFeed, s.keys)))
  }

  /** Every identity stored anywhere before remove-all is tombstoned after it, and only
      identities that were not tombstoned yet are appended, each once. */
  lemma RemoveAllTombstonesEverything(s: Snapshot)
    requires WellFormed(s)
    ensures forall k, x :: k in s.itemsByFeed && x in s.itemsByFeed[k] ==> x.guid in RemoveAll(s).removedGUIDs
    ensures IsPrefix(s.removedGUIDs, RemoveAll(s).removedGUIDs)
    ensures forall g :: g in RemoveAll(s).removedGUIDs ==> g in s.removedGUIDs || Holds(s, g)
    ensures forall i :: |s.removedGUIDs| <= i < |RemoveAll(s).removedGUIDs| ==> RemoveAll(s).removedGUIDs[i] !in s.removedGUIDs
    ensures forall i, j :: |s.removedGUIDs| <= i < j < |RemoveAll(s).removedGUIDs| ==>
              RemoveAll(s).removedGUIDs[i] != RemoveAll(s).removedGUIDs[j]
    ensures forall k :: k in RemoveAll(s).itemsByFeed ==> RemoveAll(s).itemsByFeed[k] == []
    ensures !exists g :: Holds(RemoveAll(s), g)
  {
    forall k | k in s.itemsByFeed
      ensures RemoveAll(s).itemsByFeed[k] == []
    {
      ClearEachAt(s.itemsByFeed, s.keys, k);
    }
    var stored := Stored(s.itemsByFeed, s.keys);
    TombstoneAppendsAbsent(s.removedGUIDs, stored);
    forall k, x | k in s.itemsByFeed && x in s.itemsByFeed[k]
      ensures x.guid in RemoveAll(s).removedGUIDs
    {
      StoredContains(s.itemsByFeed, s.keys, k, x);
    }
    forall g | g in RemoveAll(s).removedGUIDs && g !in s.removedGUIDs
      ensures Holds(s, g)
    {
      var x :| x in stored && x.guid == g;
      StoredHeld(s.itemsByFeed, s.keys, x);
    }
  }

  /** With every feed empty there is nothing to concatenate. */
  lemma {:induction false} StoredEmpty(m: map<string, seq<Item>>, ks: seq<string>)
    requires forall k :: k in m ==> m[k] == []
    ensures Stored(m, ks) == []
  {
    if ks != [] {
      StoredEmpty(m, ks[..|ks| - 1]);
    }
  }

  /** A second remove-all changes nothing: no identity is left to tombstone and every
      feed is already empty. */
  lemma RemoveAllIdempotent(s: Snapshot)
    requires WellFormed(s)
    ensures RemoveAll(RemoveAll(s)) == RemoveAll(s)
  {
    var t := RemoveAll(s);
    RemoveAllTombstonesEverything(s);
    StoredEmpty(t.itemsByFeed, t.keys);
    forall k | k in t.itemsByFeed
      ensures ClearEach(t.itemsByFeed, t.keys)[k] == t.itemsByFeed[k]
    {
      ClearEachAt(t.itemsByFeed, t.keys, k);
    }
    assert ClearEach(t.itemsByFeed, t.keys) == t.itemsByFeed;
  }

  /** `n` remove-alls in a row, as when one click reaches `n` registered handlers. */
  function RemoveAllTimes(s: Snapshot, n: nat): Snapshot
  {
    if n == 0 then s else RemoveAll(RemoveAllTimes(s, n - 1))
  }

  /** However many handlers a click reaches, the state is that of a single remove-all. */
  lemma {:induction false} RemoveAllRepeated(s: Snapshot, n: nat)
    requires WellFormed(s) && n >= 1
    ensures RemoveAllTimes(s, n) == RemoveAll(s)
  {
    if n > 1 {
      RemoveAllRepeated(s, n - 1);
      RemoveAllIdempotent(s);
    }
  }

  /** Every item of the concatenation comes from some feed. */
  lemma {:induction false} StoredHeld(m: map<string, seq<Item>>, ks: seq<string>, x: Item)
    requires x in Stored(m, ks)
    ensures exists k :: k in m && Mentions(m[k], x.guid)
  {
    var last := ks[|ks| - 1];
    if x in Stored(m, ks[..|ks| - 1]) {
      StoredHeld(m, ks[..|ks| - 1], x);
    } else {
      assert x in (if last in m then m[last] else []);
      assert Mentions(m[last], x.guid);
    }
  }

  // ---------------------------------------------------------------------------
  // Any sequence of operations
  // ---------------------------------------------------------------------------

  datatype Op = MergeOp(url: string, batch: seq<Item>) | RemoveOp(guid: string) | RemoveAllOp

  function Step(s: Snapshot, op: Op): Snapshot
  {
    match op
    case MergeOp(url, batch) => Merge(s, url, batch)
    case RemoveOp(g) => RemoveItem(s, g)
    case RemoveAllOp => RemoveAll(s)
  }

  function Run(s: Snapshot, ops: seq<Op>): Snapshot
    decreases |ops|
  {
    if ops == [] then s else Run(Step(s, ops[0]), ops[1..])
  }

  /** The tombstone list only grows: the old list is always a prefix of the new one. */
  lemma {:induction false} RemovedOnlyGrows(s: Snapshot, ops: seq<Op>)
    ensures IsPrefix(s.removedGUIDs, Run(s, ops).removedGUIDs)
    decreases |ops|
  {
    if ops != [] {
      var t := Step(s, ops[0]);
      if ops[0].RemoveAllOp? {
        TombstoneAppendsAbsent(s.removedGUIDs, Stored(s.itemsByFeed, s.keys));
      }
      assert IsPrefix(s.removedGUIDs, t.removedGUIDs);
      RemovedOnlyGrows(t, ops[1..]);
      var u := Run(s, ops);
      assert u.removedGUIDs[..|t.removedGUIDs|][..|s.removedGUIDs|] == u.removedGUIDs[..|s.removedGUIDs|];
    }
  }

  /** Each operation keeps tombstoned identities out of every feed. */
  lemma StepKeepsClean(s: Snapshot, op: Op)
    requires WellFormed(s) && Clean(s)
    ensures WellFormed(Step(s, op)) && Clean(Step(s, op))
  {
    var t := Step(s, op);
    match op
    case MergeOp(url, batch) =>
      MergeNeverAddsTombstoned(s, url, batch);
    case RemoveOp(g) =>
      RemoveItemKeeps(s, g);
    case RemoveAllOp =>
      RemoveAllTombstonesEverything(s);
  }

  /** From the empty state (or any clean one), no sequence of merges and removals ever
      stores an item whose identity is tombstoned. */
  lemma {:induction false} RunKeepsClean(s: Snapshot, ops: seq<Op>)
    requires WellFormed(s) && Clean(s)
    ensures WellFormed(Run(s, ops)) && Clean(Run(s, ops))
    decreases |ops|
  {
    if ops != [] {
      StepKeepsClean(s, ops[0]);
      RunKeepsClean(Step(s, ops[0]), ops[1..]);
    }
  }

  /** Once an identity is tombstoned and held by no feed, no later operation brings it back. */
  lemma {:induction false} TombstoneSuppression(s: Snapshot, ops: seq<Op>, g: string)
    requires g in s.removedGUIDs && !Holds(s, g)
    ensures g in Run(s, ops).removedGUIDs && !Holds(Run(s, ops), g)
    decreases |ops|
  {
    if ops != [] {
      var t := Step(s, ops[0]);
      match ops[0] {
        case MergeOp(url, batch) =>
          MergeNeverAddsTombstoned(s, url, batch);
        case RemoveOp(h) =>
          FilterEachShrinks(s.itemsByFeed, s.keys, h);
        case RemoveAllOp =>
          forall k | k in s.itemsByFeed
            ensures !Mentions(t.itemsByFeed[k], g)
          {
            ClearEachAt(s.itemsByFeed, s.keys, k);
          }
      }
      RemovedOnlyGrows(s, [ops[0]]);
      assert Run(s, [ops[0]]) == t;
      assert g in t.removedGUIDs;
      TombstoneSuppression(t, ops[1..], g);
    }
  }
}
