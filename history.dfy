/**
 * The search history: a dictionary from normalised query to an entry holding
 * how often the query was searched, when it was last searched and how that
 * search ended. Python dictionaries remember insertion order, and the
 * listings sort stably, so the model keeps the keys in insertion order next
 * to the map. Timestamps are clock readings; the file the history is loaded
 * from and saved to is not modelled.
 */
module History {
  import opened Wrappers
  import Text
  import Sorting

  const DayMs: int := 86_400_000

  datatype Outcome = Succeeded | Failed

  datatype Entry = Entry(count: nat, lastSearched: Option<int>, lastResult: Option<Outcome>)

  /** The dictionary's keys in insertion order, and its contents. */
  datatype Store = Store(order: seq<string>, entries: map<string, Entry>)

  /** One line of a listing: a query and a copy of its entry. */
  datatype Listed = Listed(query: string, entry: Entry)

  ghost predicate Distinct(keys: seq<string>) {
    forall i, j :: 0 <= i < j < |keys| ==> keys[i] != keys[j]
  }

  /** In a sequence without repeats, the last key does not occur before the end. */
  lemma LastIsNew(keys: seq<string>)
    requires Distinct(keys) && keys != []
    ensures keys[|keys| - 1] !in keys[..|keys| - 1]
  {
    var init := keys[..|keys| - 1];
    forall i | 0 <= i < |init| ensures init[i] != keys[|keys| - 1] {
      assert init[i] == keys[i];
    }
  }

  /** Each key of the map appears exactly once in the insertion order. */
  ghost predicate WellFormed(s: Store) {
    Distinct(s.order) && (forall k :: k in s.order <==> k in s.entries)
  }

  /** `query.strip().lower()`. */
  function Normalize(query: string): string {
    Text.Lower(Text.Strip(query))
  }

  /** A text with no whitespace at either end is its own strip. */
  lemma StripTrimmed(u: string)
    requires u != [] ==> !Text.IsSpace(u[0]) && !Text.IsSpace(u[|u| - 1])
    ensures Text.Strip(u) == u
  {
    if u != [] {
      assert Text.LeadingSpaces(u) == 0;
      assert u[0..] == u;
      assert Text.TrailingStart(u) == |u|;
    }
  }

  lemma LowerKeepsEnds(s: string)
    ensures Text.Strip(Text.Lower(Text.Strip(s))) == Text.Lower(Text.Strip(s))
  {
    var t := Text.Strip(s);
    var u := Text.Lower(t);
    if t != [] {
      assert u[0] == Text.LowerChar(t[0]) && u[|u| - 1] == Text.LowerChar(t[|t| - 1]);
    }
    StripTrimmed(u);
  }

  lemma LowerCharIdempotent(c: char)
    ensures Text.LowerChar(Text.LowerChar(c)) == Text.LowerChar(c)
  {
  }

  /** Lower-casing twice is lower-casing once. */
  lemma LowerIdempotent(t: string)
    ensures Text.Lower(Text.Lower(t)) == Text.Lower(t)
  {
    var u := Text.Lower(t);
    var v := Text.Lower(u);
    forall k | 0 <= k < |u| ensures v[k] == u[k] {
      LowerCharIdempotent(t[k]);
    }
  }

  /** Normalising twice is normalising once, so a stored key finds itself. */
  lemma NormalizeIdempotent(query: string)
    ensures Normalize(Normalize(query)) == Normalize(query)
  {
    var u := Normalize(query);
    LowerKeepsEnds(query);
    assert Text.Strip(u) == u;
    LowerIdempotent(Text.Strip(query));
  }

  function OutcomeOf(success: bool): Outcome {
    if success then Succeeded else Failed
  }

  // ---------------------------------------------------------------------------
  // Recording and totals
  // ---------------------------------------------------------------------------

  /** The store after one search of `key` at time `now`. */
  function Record(s: Store, key: string, outcome: Outcome, now: int): (r: Store)
    ensures key in r.entries
    ensures r.entries[key].lastSearched == Some(now) && r.entries[key].lastResult == Some(outcome)
    ensures r.entries[key].count == (if key in s.entries then s.entries[key].count else 0) + 1
    ensures forall k :: k != key ==> (k in r.entries <==> k in s.entries)
    ensures forall k :: k != key && k in s.entries ==> r.entries[k] == s.entries[k]
    ensures WellFormed(s) ==> WellFormed(r)
  {
    var previous := if key in s.entries then s.entries[key] else Entry(0, None, None);
    var order := if key in s.entries then s.order else s.order + [key];
    Store(order, s.entries[key := Entry(previous.count + 1, Some(now), Some(outcome))])
  }

  /** Sum of the counts of `keys`, added up left to right. */
  function Total(keys: seq<string>, entries: map<string, Entry>): nat
    requires forall k :: k in keys ==> k in entries
  {
    if keys == [] then 0
    else Total(keys[..|keys| - 1], entries) + entries[keys[|keys| - 1]].count
  }

  function TotalSearches(s: Store): nat
    requires WellFormed(s)
  {
    Total(s.order, s.entries)
  }

  /** Changing the entry of a key outside `keys` does not change their total. */
  lemma {:induction false} TotalOutside(keys: seq<string>, entries: map<string, Entry>, key: string, e: Entry)
    requires forall k :: k in keys ==> k in entries
    requires key !in keys
    ensures Total(keys, entries[key := e]) == Total(keys, entries)
  {
    if keys != [] {
      TotalOutside(keys[..|keys| - 1], entries, key, e);
    }
  }

  /** Changing the entry of a key that occurs once in `keys` moves the total by the change in its count. */
  lemma {:induction false} TotalUpdate(keys: seq<string>, entries: map<string, Entry>, key: string, e: Entry)
    requires forall k :: k in keys ==> k in entries
    requires Distinct(keys) && key in keys
    ensures Total(keys, entries[key := e]) + entries[key].count == Total(keys, entries) + e.count
  {
    var init, last := keys[..|keys| - 1], keys[|keys| - 1];
    if last == key {
      LastIsNew(keys);
      TotalOutside(init, entries, key, e);
    } else {
      assert key in init by {
        var i :| 0 <= i < |keys| && keys[i] == key;
        assert i < |keys| - 1;
        assert init[i] == key;
      }
      TotalUpdate(init, entries, key, e);
    }
  }

  /** Every recorded search adds exactly one to the total. */
  lemma RecordAddsOne(s: Store, key: string, outcome: Outcome, now: int)
    requires WellFormed(s)
    ensures TotalSearches(Record(s, key, outcome, now)) == TotalSearches(s) + 1
  {
    var r := Record(s, key, outcome, now);
    var e := r.entries[key];
    if key in s.entries {
      TotalUpdate(s.order, s.entries, key, e);
    } else {
      TotalOutside(s.order, s.entries, key, e);
      assert r.order[..|r.order| - 1] == s.order;
    }
  }

  lemma {:induction false} DistinctSize(keys: seq<string>)
    requires Distinct(keys)
    ensures |set k | k in keys| == |keys|
  {
    if keys != [] {
      var init := keys[..|keys| - 1];
      DistinctSize(init);
      assert (set k | k in keys) == (set k | k in init) + {keys[|keys| - 1]};
      LastIsNew(keys);
    }
  }

  /** The number of distinct queries is the length of the insertion order. */
  lemma UniqueIsOrderLength(s: Store)
    requires WellFormed(s)
    ensures |s.entries| == |s.order|
  {
    DistinctSize(s.order);
    assert s.entries.Keys == set k | k in s.order;
  }

  /** A new query adds one distinct query; a repeated one adds none. */
  lemma RecordUnique(s: Store, key: string, outcome: Outcome, now: int)
    requires WellFormed(s)
    ensures |Record(s, key, outcome, now).entries| == |s.entries| + (if key in s.entries then 0 else 1)
  {
    UniqueIsOrderLength(s);
    UniqueIsOrderLength(Record(s, key, outcome, now));
  }

  // ---------------------------------------------------------------------------
  // Listings
  // ---------------------------------------------------------------------------

  /** The dictionary's items in insertion order. */
  function Listing(s: Store): (r: seq<Listed>)
    requires WellFormed(s)
    ensures |r| == |s.order|
    ensures forall i :: 0 <= i < |r| ==> r[i] == Listed(s.order[i], s.entries[s.order[i]])
  {
    seq(|s.order|, i requires 0 <= i < |s.order| && s.order[i] in s.entries => Listed(s.order[i], s.entries[s.order[i]]))
  }

  /** An absent timestamp sorts below every timestamp (Python's `or ""`). */
  predicate StampGe(a: Option<int>, b: Option<int>) {
    b.None? || (a.Some? && a.value >= b.value)
  }

  /** Popularity order: by count, then by last search. */
  predicate PopularGe(a: Listed, b: Listed) {
    a.entry.count > b.entry.count
    || (a.entry.count == b.entry.count && StampGe(a.entry.lastSearched, b.entry.lastSearched))
  }

  predicate RecentGe(a: Listed, b: Listed) {
    StampGe(a.entry.lastSearched, b.entry.lastSearched)
  }

  lemma OrdersArePreorders()
    ensures Sorting.TotalPreorder(PopularGe)
    ensures Sorting.TotalPreorder(RecentGe)
  {
  }

  /** The first `limit` items by popularity (`sorted(..., reverse=True)[:limit]`). */
  function Popular(s: Store, limit: int): seq<Listed>
    requires WellFormed(s)
  {
    Text.PySlice(Sorting.SortDesc(Listing(s), PopularGe), limit)
  }

  /** The items that have a last search, in order (the `if data["last_searched"]` filter). */
  function Stamped(items: seq<Listed>): (r: seq<Listed>)
    ensures |r| <= |items|
  {
    if items == [] then []
    else (if items[0].entry.lastSearched.Some? then [items[0]] else []) + Stamped(items[1..])
  }

  /** The filter keeps exactly the items that have a last search. */
  lemma {:induction false} StampedMembers(items: seq<Listed>)
    ensures forall x :: x in Stamped(items) <==> x in items && x.entry.lastSearched.Some?
  {
    if items != [] {
      StampedMembers(items[1..]);
      assert items == [items[0]] + items[1..];
    }
  }

  lemma StampedCons(items: seq<Listed>)
    requires items != []
    ensures Stamped(items) == (if items[0].entry.lastSearched.Some? then [items[0]] else []) + Stamped(items[1..])
  {
  }

  /** The filter keeps the items in the order it finds them, so a ranked sequence stays ranked. */
  lemma {:induction false} StampedOrdered(items: seq<Listed>)
    requires forall i, j :: 0 <= i < j < |items| ==> RecentGe(items[i], items[j])
    ensures forall i, j :: 0 <= i < j < |Stamped(items)| ==> RecentGe(Stamped(items)[i], Stamped(items)[j])
  {
    if items != [] {
      var tail := items[1..];
      assert forall i, j :: 0 <= i < j < |tail| ==> RecentGe(tail[i], tail[j]) by {
        assert forall k :: 0 <= k < |tail| ==> tail[k] == items[k + 1];
      }
      StampedOrdered(tail);
      StampedMembers(tail);
      StampedCons(items);
      var rest := Stamped(tail);
      forall y | y in rest ensures RecentGe(items[0], y) {
        var k :| 0 <= k < |tail| && tail[k] == y;
        assert tail[k] == items[k + 1];
      }
    }
  }

  /** The filter only drops items. */
  lemma {:induction false} StampedSubMultiset(items: seq<Listed>)
    ensures multiset(Stamped(items)) <= multiset(items)
  {
    if items != [] {
      StampedSubMultiset(items[1..]);
      assert items == [items[0]] + items[1..];
    }
  }

  /** The filtering loop moves one item from what remains into what it kept. */
  lemma StampedAdvance(items: seq<Listed>, i: nat, kept: seq<Listed>)
    requires i < |items|
    ensures kept + Stamped(items[i..])
            == (kept + if items[i].entry.lastSearched.Some? then [items[i]] else []) + Stamped(items[i + 1..])
  {
    var head := if items[i].entry.lastSearched.Some? then [items[i]] else [];
    StampedCons(items[i..]);
    assert items[i..][0] == items[i] && items[i..][1..] == items[i + 1..];
    var rest := Stamped(items[i + 1..]);
    assert kept + (head + rest) == (kept + head) + rest;
  }

  /** The loop of `get_recent_searches` that skips queries never searched. */
  method KeepStamped(items: seq<Listed>) returns (r: seq<Listed>)
    ensures r == Stamped(items)
  {
    r := [];
    var i := 0;
    while i < |items|
      invariant 0 <= i <= |items|
      invariant r + Stamped(items[i..]) == Stamped(items)
    {
      StampedAdvance(items, i, r);
      if items[i].entry.lastSearched.Some? {
        r := r + [items[i]];
      }
      i := i + 1;
    }
  }

  /** The first `limit` items by last search, without those never searched. */
  function Recent(s: Store, limit: int): seq<Listed>
    requires WellFormed(s)
  {
    Stamped(Text.PySlice(Sorting.SortDesc(Listing(s), RecentGe), limit))
  }

  /** `s[:n]` of a sequence ranked by `ge`: every kept element ranks at least as high as every dropped one. */
  lemma {:induction false} TopOfSorted<T(!new)>(all: seq<T>, n: int, ge: (T, T) -> bool)
    requires Sorting.TotalPreorder(ge)
    ensures var top := Text.PySlice(Sorting.SortDesc(all, ge), n);
      && multiset(top) <= multiset(all)
      && (forall i, j :: 0 <= i < j < |top| ==> ge(top[i], top[j]))
      && (n >= |all| ==> multiset(top) == multiset(all))
      && (forall x, y :: x in top && y in all && y !in top ==> ge(x, y))
  {
    var sorted := Sorting.SortDesc(all, ge);
    Sorting.SortDescCorrect(all, ge);
    var top := Text.PySlice(sorted, n);
    assert sorted == top + sorted[|top|..];
    assert multiset(sorted) == multiset(top) + multiset(sorted[|top|..]);
    assert forall k :: 0 <= k < |top| ==> top[k] == sorted[k];
    forall x, y | x in top && y in all && y !in top ensures ge(x, y) {
      var i :| 0 <= i < |top| && top[i] == x;
      assert y in multiset(sorted);
      var j :| 0 <= j < |sorted| && sorted[j] == y;
      assert j >= |top|;
      assert sorted[i] == x;
    }
    if n >= |all| {
      assert |sorted| == |all| by {
        assert |multiset(sorted)| == |multiset(all)|;
      }
      assert top == sorted;
    }
  }

  /**
   * The popular listing: copies of stored entries, by count and then by last
   * search, at most `limit` of them; nothing left out outranks anything listed.
   */
  lemma PopularCorrect(s: Store, limit: int)
    requires WellFormed(s)
    ensures limit >= 0 ==> |Popular(s, limit)| <= limit
    ensures forall x :: x in Popular(s, limit) ==> x.query in s.entries && x.entry == s.entries[x.query]
    ensures forall i, j :: 0 <= i < j < |Popular(s, limit)| ==> PopularGe(Popular(s, limit)[i], Popular(s, limit)[j])
    ensures forall x, y :: x in Popular(s, limit) && y in Listing(s) && y !in Popular(s, limit) ==> PopularGe(x, y)
    ensures limit >= |s.order| ==> multiset(Popular(s, limit)) == multiset(Listing(s))
    ensures multiset(Popular(s, limit)) <= multiset(Listing(s))
  {
    OrdersArePreorders();
    TopOfSorted(Listing(s), limit, PopularGe);
    forall x | x in Popular(s, limit) ensures x.query in s.entries && x.entry == s.entries[x.query] {
      assert x in multiset(Listing(s));
    }
  }

  /**
   * The recent listing: only entries that have a last search, most recent
   * first, at most `limit` of them; no stamped entry left out is more recent
   * than one listed.
   */
  lemma RecentCorrect(s: Store, limit: int)
    requires WellFormed(s)
    ensures limit >= 0 ==> |Recent(s, limit)| <= limit
    ensures forall x :: x in Recent(s, limit) ==>
      x.entry.lastSearched.Some? && x.query in s.entries && x.entry == s.entries[x.query]
    ensures forall x, y :: x in Recent(s, limit) && y in Listing(s) && y !in Recent(s, limit) && y.entry.lastSearched.Some?
              ==> x.entry.lastSearched.value >= y.entry.lastSearched.value
  {
    RecentFromStore(s, limit);
    RecentOutranks(s, limit);
  }

  /** Each recent entry is a stamped entry of the store. */
  lemma RecentFromStore(s: Store, limit: int)
    requires WellFormed(s)
    ensures forall x :: x in Recent(s, limit) ==>
      x.entry.lastSearched.Some? && x.query in s.entries && x.entry == s.entries[x.query]
  {
    OrdersArePreorders();
    var top := Text.PySlice(Sorting.SortDesc(Listing(s), RecentGe), limit);
    TopOfSorted(Listing(s), limit, RecentGe);
    StampedMembers(top);
    forall x | x in Recent(s, limit) ensures x.query in s.entries && x.entry == s.entries[x.query] {
      assert x in top;
      assert x in multiset(Listing(s));
    }
  }

  /** No stamped entry left out of the recent listing is more recent than one listed. */
  lemma RecentOutranks(s: Store, limit: int)
    requires WellFormed(s)
    ensures forall x, y :: x in Recent(s, limit) && y in Listing(s) && y !in Recent(s, limit) && y.entry.lastSearched.Some?
              ==> x.entry.lastSearched.Some? && x.entry.lastSearched.value >= y.entry.lastSearched.value
  {
    OrdersArePreorders();
    var top := Text.PySlice(Sorting.SortDesc(Listing(s), RecentGe), limit);
    TopOfSorted(Listing(s), limit, RecentGe);
    StampedMembers(top);
    forall x, y | x in Recent(s, limit) && y in Listing(s) && y !in Recent(s, limit) && y.entry.lastSearched.Some?
      ensures x.entry.lastSearched.value >= y.entry.lastSearched.value
    {
      assert x in top;
      assert y !in top;
      assert RecentGe(x, y);
    }
  }

  /**
   * The recent listing draws each stored entry at most once, and when `limit`
   * covers the store it lists every entry that has been searched.
   */
  lemma RecentComplete(s: Store, limit: int)
    requires WellFormed(s)
    ensures multiset(Recent(s, limit)) <= multiset(Listing(s))
    ensures limit >= |s.order| ==>
      forall x :: x in Listing(s) && x.entry.lastSearched.Some? ==> x in Recent(s, limit)
  {
    OrdersArePreorders();
    var top := Text.PySlice(Sorting.SortDesc(Listing(s), RecentGe), limit);
    TopOfSorted(Listing(s), limit, RecentGe);
    StampedSubMultiset(top);
    StampedMembers(top);
    assert Recent(s, limit) == Stamped(top);
    if limit >= |s.order| {
      forall x | x in Listing(s) && x.entry.lastSearched.Some? ensures x in Recent(s, limit) {
        assert x in multiset(Listing(s));
        assert x in multiset(top);
        assert x in top;
      }
    }
  }

  /** The recent listing runs from the most recent search to the least recent. */
  lemma RecentOrdered(s: Store, limit: int)
    requires WellFormed(s)
    ensures forall i, j :: 0 <= i < j < |Recent(s, limit)| ==>
      && Recent(s, limit)[i].entry.lastSearched.Some? && Recent(s, limit)[j].entry.lastSearched.Some?
      && Recent(s, limit)[i].entry.lastSearched.value >= Recent(s, limit)[j].entry.lastSearched.value
  {
    OrdersArePreorders();
    var top := Text.PySlice(Sorting.SortDesc(Listing(s), RecentGe), limit);
    TopOfSorted(Listing(s), limit, RecentGe);
    StampedOrdered(top);
    StampedMembers(top);
    var r := Stamped(top);
    assert Recent(s, limit) == r;
    forall i, j | 0 <= i < j < |r|
      ensures r[i].entry.lastSearched.Some? && r[j].entry.lastSearched.Some?
      ensures r[i].entry.lastSearched.value >= r[j].entry.lastSearched.value
    {
      assert r[i] in r && r[j] in r;
      assert RecentGe(r[i], r[j]);
    }
  }

  // ---------------------------------------------------------------------------
  // Cleanup
  // ---------------------------------------------------------------------------

  /** An entry whose last search lies before the cutoff. */
  predicate Expired(e: Entry, cutoff: int) {
    e.lastSearched.Some? && e.lastSearched.value < cutoff
  }

  /** The keys of `keys` whose entries have expired, in order. */
  function ExpiredKeys(keys: seq<string>, entries: map<string, Entry>, cutoff: int): (r: seq<string>)
    requires forall k :: k in keys ==> k in entries
    ensures forall k :: k in r <==> k in keys && Expired(entries[k], cutoff)
    ensures |r| <= |keys|
  {
    if keys == [] then []
    else
      var init, last := keys[..|keys| - 1], keys[|keys| - 1];
      ExpiredKeys(init, entries, cutoff) + (if Expired(entries[last], cutoff) then [last] else [])
  }

  function Without(keys: seq<string>, gone: set<string>): (r: seq<string>)
    ensures forall k :: k in r <==> k in keys && k !in gone
  {
    if keys == [] then []
    else Without(keys[..|keys| - 1], gone) + (if keys[|keys| - 1] in gone then [] else [keys[|keys| - 1]])
  }

  lemma {:induction false} WithoutDistinct(keys: seq<string>, gone: set<string>)
    requires Distinct(keys)
    ensures Distinct(Without(keys, gone))
  {
    if keys != [] {
      var init := keys[..|keys| - 1];
      WithoutDistinct(init, gone);
      var w := Without(init, gone);
      LastIsNew(keys);
    }
  }

  /** The instant `days` days before `now`. */
  function Cutoff(now: int, days: int): int {
    now - days * DayMs
  }

  /** The queries whose entries have expired. */
  function ExpiredSet(s: Store, cutoff: int): set<string> {
    set k | k in s.entries && Expired(s.entries[k], cutoff)
  }

  /** The store once every expired entry is deleted. */
  function Cleaned(s: Store, cutoff: int): (r: Store)
    requires WellFormed(s)
    ensures WellFormed(r)
    ensures forall k :: k in r.entries <==> k in s.entries && !Expired(s.entries[k], cutoff)
    ensures forall k :: k in r.entries ==> r.entries[k] == s.entries[k]
  {
    var gone := ExpiredSet(s, cutoff);
    WithoutDistinct(s.order, gone);
    Store(Without(s.order, gone), s.entries - gone)
  }

  /** The number the cleanup reports is the number of entries it deleted. */
  lemma CleanupCount(s: Store, cutoff: int)
    requires WellFormed(s)
    ensures |ExpiredKeys(s.order, s.entries, cutoff)| + |Cleaned(s, cutoff).entries| == |s.entries|
  {
    var gone := ExpiredSet(s, cutoff);
    var ex := ExpiredKeys(s.order, s.entries, cutoff);
    var kept := Cleaned(s, cutoff).entries.Keys;
    ExpiredDistinct(s.order, s.entries, cutoff);
    DistinctSize(ex);
    ExpiredKeySet(s, cutoff);
    CleanedPartition(s, cutoff);
    assert |s.entries.Keys| == |gone| + |kept|;
  }

  /** Every entry is either expired or kept by the cleanup, never both. */
  lemma CleanedPartition(s: Store, cutoff: int)
    requires WellFormed(s)
    ensures s.entries.Keys == ExpiredSet(s, cutoff) + Cleaned(s, cutoff).entries.Keys
    ensures ExpiredSet(s, cutoff) !! Cleaned(s, cutoff).entries.Keys
  {
  }

  /** The expired keys in insertion order are the expired queries. */
  lemma ExpiredKeySet(s: Store, cutoff: int)
    requires WellFormed(s)
    ensures (set k | k in ExpiredKeys(s.order, s.entries, cutoff)) == ExpiredSet(s, cutoff)
  {
    var ex := ExpiredKeys(s.order, s.entries, cutoff);
    forall k ensures k in ex <==> k in ExpiredSet(s, cutoff) {
      assert k in ex <==> k in s.order && Expired(s.entries[k], cutoff);
    }
  }

  lemma {:induction false} ExpiredDistinct(keys: seq<string>, entries: map<string, Entry>, cutoff: int)
    requires forall k :: k in keys ==> k in entries
    requires Distinct(keys)
    ensures Distinct(ExpiredKeys(keys, entries, cutoff))
  {
    if keys != [] {
      var init, last := keys[..|keys| - 1], keys[|keys| - 1];
      ExpiredDistinct(init, entries, cutoff);
      LastIsNew(keys);
    }
  }

  // ---------------------------------------------------------------------------
  // The history object
  // ---------------------------------------------------------------------------

  class SearchHistory {
    var order: seq<string>
    var entries: map<string, Entry>

    function Current(): Store
      reads this
    {
      Store(order, entries)
    }

    ghost predicate Valid()
      reads this
    {
      WellFormed(Current())
    }

    /** A history holding what was loaded from its file (nothing, when there is no file). */
    constructor(loaded: Store)
      requires WellFormed(loaded)
      ensures Valid() && Current() == loaded
    {
      order := loaded.order;
      entries := loaded.entries;
    }

    /** `record_search`: the entry of the normalised query counts one more search, made at `now`. */
    method RecordSearch(query: string, success: bool, now: int)
      requires Valid()
      modifies this
      ensures Valid()
      ensures Current() == Record(old(Current()), Normalize(query), OutcomeOf(success), now)
      ensures TotalSearches(Current()) == TotalSearches(old(Current())) + 1
      ensures SearchExists(query)
    {
      ghost var before := Current();
      var key := Normalize(query);
      if key !in entries {
        entries := entries[key := Entry(0, None, None)];
        order := order + [key];
      }
      var entry := entries[key];
      var updated := entry.(count := entry.count + 1, lastSearched := Some(now), lastResult := Some(OutcomeOf(success)));
      assert updated == Record(before, key, OutcomeOf(success), now).entries[key];
      entries := entries[key := updated];
      assert entries == before.entries[key := updated];
      RecordAddsOne(before, key, OutcomeOf(success), now);
    }

    /** `get_popular_searches`. */
    method GetPopularSearches(limit: int) returns (r: seq<Listed>)
      requires Valid()
      ensures r == Popular(Current(), limit)
    {
      var ranked := Sorting.SortDesc(Listing(Current()), PopularGe);
      var top := Text.PySlice(ranked, limit);
      r := [];
      var i := 0;
      while i < |top|
        invariant 0 <= i <= |top|
        invariant r == top[..i]
      {
        r := r + [top[i]];
        i := i + 1;
      }
    }

    /** `get_recent_searches`. */
    method GetRecentSearches(limit: int) returns (r: seq<Listed>)
      requires Valid()
      ensures r == Recent(Current(), limit)
    {
      var ranked := Sorting.SortDesc(Listing(Current()), RecentGe);
      r := KeepStamped(Text.PySlice(ranked, limit));
    }

    /** `search_exists`. */
    predicate SearchExists(query: string)
      reads this
    {
      Normalize(query) in entries
    }

    /** `get_search_stats`: a copy of the entry of the normalised query. */
    function GetSearchStats(query: string): (r: Option<Entry>)
      reads this
      ensures r.Some? <==> SearchExists(query)
      ensures r.Some? ==> r.value == entries[Normalize(query)]
    {
      var key := Normalize(query);
      if key in entries then Some(entries[key]) else None
    }

    /** `cleanup_old_entries`: deletes entries last searched more than `days` days before `now`. */
    method CleanupOldEntries(days: int, now: int) returns (removed: nat)
      requires Valid()
      modifies this
      ensures Valid()
      ensures Current() == Cleaned(old(Current()), Cutoff(now, days))
      ensures removed == |ExpiredKeys(old(order), old(entries), Cutoff(now, days))|
      ensures removed + |entries| == |old(entries)|
    {
      ghost var before := Current();
      var cutoff := Cutoff(now, days);
      var toRemove := ExpiredQueries(cutoff);
      DeleteEntries(toRemove);
      var removedKeys := set k | k in toRemove;
      ExpiredKeySet(before, cutoff);
      order := Without(order, removedKeys);
      removed := |toRemove|;
      assert Current() == Cleaned(before, cutoff);
      CleanupCount(before, cutoff);
    }

    /** The first loop of the cleanup: the expired queries, in insertion order. */
    method ExpiredQueries(cutoff: int) returns (toRemove: seq<string>)
      requires Valid()
      ensures toRemove == ExpiredKeys(order, entries, cutoff)
    {
      toRemove := [];
      var i := 0;
      while i < |order|
        invariant 0 <= i <= |order|
        invariant toRemove == ExpiredKeys(order[..i], entries, cutoff)
      {
        assert order[..i + 1][..i] == order[..i];
        if Expired(entries[order[i]], cutoff) {
          toRemove := toRemove + [order[i]];
        }
        i := i + 1;
      }
      assert order[..|order|] == order;
    }

    /** The second loop of the cleanup: `del` of each listed query. */
    method DeleteEntries(keys: seq<string>)
      modifies this
      ensures order == old(order)
      ensures entries == old(entries) - (set k | k in keys)
    {
      var j := 0;
      while j < |keys|
        invariant 0 <= j <= |keys|
        invariant order == old(order)
        invariant forall k :: k in entries <==> k in old(entries) && k !in keys[..j]
        invariant forall k :: k in entries ==> entries[k] == old(entries)[k]
      {
        assert keys[..j + 1] == keys[..j] + [keys[j]];
        entries := entries - {keys[j]};
        j := j + 1;
      }
      assert keys[..|keys|] == keys;
    }

    /** `get_total_searches`. */
    method GetTotalSearches() returns (total: nat)
      requires Valid()
      ensures total == TotalSearches(Current())
    {
      total := 0;
      var i := 0;
      while i < |order|
        invariant 0 <= i <= |order|
        invariant total == Total(order[..i], entries)
      {
        assert order[..i + 1][..i] == order[..i];
        total := total + entries[order[i]].count;
        i := i + 1;
      }
      assert order[..|order|] == order;
    }

    /** `get_unique_queries`. */
    function GetUniqueQueries(): (n: nat)
      reads this
      requires Valid()
      ensures n == |order|
    {
      UniqueIsOrderLength(Current());
      |entries|
    }

    /** `clear_history` (the file is not modelled). */
    method ClearHistory()
      modifies this
      ensures Valid() && Current() == Store([], map[])
    {
      entries := map[];
      order := [];
    }
  }
}
