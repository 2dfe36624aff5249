/** The list shown to the user (displayRSSItems in renderer.ts): every feed's items,
    capped per feed, concatenated in key order and sorted by publication date. The view is
    a function of the state, so computing it changes nothing. */
module View {
  import opened Feed
  import opened Ingest

  /** `feedConfigs.find(fc => fc.url === url)`: the first configuration for the url. */
  function FindConfig(configs: seq<FeedConfig>, url: string): (r: Option<FeedConfig>)
    ensures r.None? <==> forall i :: 0 <= i < |configs| ==> configs[i].url != url
    ensures r.Some? ==> r.value in configs && r.value.url == url
  {
    if configs == [] then None
    else if configs[0].url == url then Some(configs[0])
    else FindConfig(configs[1..], url)
  }

  /** The configuration found is the FIRST one for the url. */
  lemma {:induction false} FindConfigFirst(configs: seq<FeedConfig>, url: string, i: nat)
    requires i < |configs| && configs[i].url == url
    requires forall j :: 0 <= j < i ==> configs[j].url != url
    ensures FindConfig(configs, url) == Some(configs[i])
  {
    if i > 0 {
      FindConfigFirst(configs[1..], url, i - 1);
    }
  }

  /** `xs.slice(start)` with JavaScript's relative start: a negative start counts from the end. */
  function SliceFrom(xs: seq<Item>, start: int): seq<Item>
  {
    var b := if start < 0 then (if |xs| + start < 0 then 0 else |xs| + start)
             else (if start < |xs| then start else |xs|);
    xs[b..]
  }

  function Min(a: int, b: int): int
  {
    if a < b then a else b
  }

  /** `feedConfig?.maxItems ? items.slice(-feedConfig.maxItems) : items`. A cap of 0 or no
      cap shows everything; a positive cap n shows the last min(n, length) items; a negative
      cap is truthy too, and then the first |n| items are hidden. */
  function Cap(config: Option<FeedConfig>, items: seq<Item>): (r: seq<Item>)
    ensures |r| <= |items| && r == items[|items| - |r|..]
    ensures (config.None? || config.value.maxItems.None? || config.value.maxItems.value == 0) ==> r == items
    ensures config.Some? && config.value.maxItems.Some? && config.value.maxItems.value > 0 ==>
              |r| == Min(config.value.maxItems.value, |items|)
    ensures config.Some? && config.value.maxItems.Some? && config.value.maxItems.value < 0 ==>
              |r| == |items| - Min(-config.value.maxItems.value, |items|)
  {
    match config
    case Some(FeedConfig(_, Some(n))) =>
      if n != 0 then SliceFrom(items, -n) else items
    case _ => items
  }

  /** The `flatMap` over Object.entries: each feed's capped list, in key order. */
  function Contributions(configs: seq<FeedConfig>, m: map<string, seq<Item>>, ks: seq<string>): seq<Item>
  {
    if ks == [] then []
    else
      var k := ks[|ks| - 1];
      Contributions(configs, m, ks[..|ks| - 1]) + (if k in m then Cap(FindConfig(configs, k), m[k]) else [])
  }

  /** A suffix holds no item more often than the whole list. */
  lemma SuffixWithin(xs: seq<Item>, i: nat)
    requires i <= |xs|
    ensures multiset(xs[i..]) <= multiset(xs)
  {
    assert xs == xs[..i] + xs[i..];
  }

  /** The caps only hide items: every contributed item is stored, with no extra copies. */
  lemma {:induction false} ContributionsWithinStored(configs: seq<FeedConfig>, m: map<string, seq<Item>>, ks: seq<string>)
    ensures multiset(Contributions(configs, m, ks)) <= multiset(Stored(m, ks))
  {
    if ks != [] {
      var init, k := ks[..|ks| - 1], ks[|ks| - 1];
      ContributionsWithinStored(configs, m, init);
      var shown := if k in m then Cap(FindConfig(configs, k), m[k]) else [];
      var held := if k in m then m[k] else [];
      SuffixWithin(held, |held| - |shown|);
      assert Contributions(configs, m, ks) == Contributions(configs, m, init) + shown;
      assert Stored(m, ks) == Stored(m, init) + held;
    }
  }

  /** Without a truthy cap for any feed, the view shows every stored item. */
  lemma {:induction false} UncappedContributions(configs: seq<FeedConfig>, m: map<string, seq<Item>>, ks: seq<string>)
    requires forall c :: c in configs ==> c.maxItems.None? || c.maxItems.value == 0
    ensures Contributions(configs, m, ks) == Stored(m, ks)
  {
    if ks != [] {
      UncappedContributions(configs, m, ks[..|ks| - 1]);
    }
  }

  ghost predicate SortedByDate(xs: seq<Item>)
  {
    forall i, j :: 0 <= i < j < |xs| ==> xs[i].pubDate <= xs[j].pubDate
  }

  /** The items of `xs` published at time `t`, in their order in `xs`. */
  function OnDate(xs: seq<Item>, t: int): seq<Item>
  {
    if xs == [] then []
    else (if xs[0].pubDate == t then [xs[0]] else []) + OnDate(xs[1..], t)
  }

  /** Place `x` before the first item that is not older than it. */
  function Insert(x: Item, ys: seq<Item>): seq<Item>
  {
    if ys == [] || x.pubDate <= ys[0].pubDate then [x] + ys
    else [ys[0]] + Insert(x, ys[1..])
  }

  /** Inserting adds exactly one copy of `x` and loses nothing. */
  lemma {:induction false} InsertPermutes(x: Item, ys: seq<Item>)
    ensures multiset(Insert(x, ys)) == multiset(ys) + multiset{x}
  {
    if ys != [] && x.pubDate > ys[0].pubDate {
      InsertPermutes(x, ys[1..]);
      assert ys == [ys[0]] + ys[1..];
    }
  }

  /** Inserting into a date-sorted list keeps it sorted. */
  lemma {:induction false} InsertSorted(x: Item, ys: seq<Item>)
    requires SortedByDate(ys)
    ensures SortedByDate(Insert(x, ys))
  {
    if ys == [] || x.pubDate <= ys[0].pubDate {
      assert forall j :: 0 <= j < |ys| ==> ys[0].pubDate <= ys[j].pubDate;
    } else {
      var tail := ys[1..];
      var rest := Insert(x, tail);
      InsertSorted(x, tail);
      assert rest[0] == x || rest[0] == tail[0];
      assert ys[0].pubDate <= rest[0].pubDate;
      assert Insert(x, ys) == [ys[0]] + rest;
    }
  }

  /** The items of `x :: ys` on one date. */
  lemma OnDateCons(x: Item, ys: seq<Item>, t: int)
    ensures OnDate([x] + ys, t) == (if x.pubDate == t then [x] else []) + OnDate(ys, t)
  {
    assert ([x] + ys)[0] == x && ([x] + ys)[1..] == ys;
  }

  /** Among items of one date, `x` lands in front of those already present. */
  lemma {:induction false} InsertOnDate(x: Item, ys: seq<Item>, t: int)
    ensures OnDate(Insert(x, ys), t) == (if x.pubDate == t then [x] else []) + OnDate(ys, t)
  {
    if ys == [] || x.pubDate <= ys[0].pubDate {
      OnDateCons(x, ys, t);
    } else {
      var rest := Insert(x, ys[1..]);
      InsertOnDate(x, ys[1..], t);
      OnDateCons(ys[0], rest, t);
      OnDateCons(ys[0], ys[1..], t);
      assert [ys[0]] + ys[1..] == ys;
    }
  }

  /** `.sort((a, b) => a.pubDate - b.pubDate)`: an insertion sort, stable like
      Array.prototype.sort. */
  function SortByDate(xs: seq<Item>): (r: seq<Item>)
    ensures SortedByDate(r)
    ensures multiset(r) == multiset(xs)
  {
    if xs == [] then []
    else
      assert xs == [xs[0]] + xs[1..];
      var rest := SortByDate(xs[1..]);
      InsertSorted(xs[0], rest);
      InsertPermutes(xs[0], rest);
      Insert(xs[0], rest)
  }

  /** The sort is stable: items of one date keep their relative order. */
  lemma {:induction false} SortByDateStable(xs: seq<Item>, t: int)
    ensures OnDate(SortByDate(xs), t) == OnDate(xs, t)
  {
    if xs != [] {
      SortByDateStable(xs[1..], t);
      InsertOnDate(xs[0], SortByDate(xs[1..]), t);
    }
  }

  /** The rendered list: sorted by date, exactly the capped items of every feed, and
      items of one date in key order and then stored order. */
  function ViewOf(configs: seq<FeedConfig>, s: Snapshot): (r: seq<Item>)
    ensures SortedByDate(r)
    ensures multiset(r) == multiset(Contributions(configs, s.itemsByFeed, s.keys))
    ensures forall t :: OnDate(r, t) == OnDate(Contributions(configs, s.itemsByFeed, s.keys), t)
  {
    var all := Contributions(configs, s.itemsByFeed, s.keys);
    assert forall t :: OnDate(SortByDate(all), t) == OnDate(all, t) by {
      forall t { SortByDateStable(all, t); }
    }
    SortByDate(all)
  }

  /** A feed capped at 2 holding [a, b, c] shows exactly [b, c]. */
  lemma CapTwoOfThree(url: string, a: Item, b: Item, c: Item)
    ensures Cap(Some(FeedConfig(url, Some(2))), [a, b, c]) == [b, c]
  {
  }

  /** Items of different feeds interleave by date: the item of feed `fx` (date 10) is
      listed after that of feed `fy` (date 5) although `fx` was stored first. */
  lemma CrossFeedOrder(fx: string, fy: string, x: Item, y: Item)
    requires fx != fy && x.pubDate == 10 && y.pubDate == 5
    ensures ViewOf([], Snapshot(map[fx := [x], fy := [y]], [fx, fy], [])) == [y, x]
  {
    var m := map[fx := [x], fy := [y]];
    assert [fx, fy][..1] == [fx] && [fx][..0] == [];
    assert Contributions([], m, [fx]) == [x];
    assert Contributions([], m, [fx, fy]) == [x, y];
    assert [x, y][1..] == [y] && [y][1..] == [];
    assert SortByDate([y]) == Insert(y, []) == [y];
    assert Insert(x, [y]) == [y] + Insert(x, []) == [y, x];
    assert SortByDate([x, y]) == Insert(x, SortByDate([y]));
  }
}
