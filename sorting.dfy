/**
 * Python's `sort(key=..., reverse=True)`: a stable sort, highest key first.
 * The key is given as a comparator `ge(a, b)`, "a ranks at least as high as b",
 * which must be a total preorder. Stability is stated per tier: the elements
 * that rank equal to any given element keep their relative order.
 */
module Sorting {

  ghost predicate TotalPreorder<T(!new)>(ge: (T, T) -> bool) {
    && (forall a, b :: ge(a, b) || ge(b, a))
    && (forall a, b, c :: ge(a, b) && ge(b, c) ==> ge(a, c))
  }

  /** No element ranks strictly above an earlier one. */
  ghost predicate SortedDesc<T>(s: seq<T>, ge: (T, T) -> bool) {
    forall i, j :: 0 <= i < j < |s| ==> ge(s[i], s[j])
  }

  /** The elements of `s` that rank equal to `k`, in their order in `s`. */
  function Tier<T>(s: seq<T>, k: T, ge: (T, T) -> bool): seq<T> {
    if s == [] then []
    else (if ge(s[0], k) && ge(k, s[0]) then [s[0]] else []) + Tier(s[1..], k, ge)
  }

  /** Places `x` after every leading element of `s` that ranks at least as high as `x`. */
  function Insert<T>(x: T, s: seq<T>, ge: (T, T) -> bool): seq<T> {
    if s == [] then [x]
    else if ge(s[0], x) then [s[0]] + Insert(x, s[1..], ge)
    else [x] + s
  }

  /** Stable insertion sort, highest rank first; elements are taken in input order. */
  function SortDesc<T>(s: seq<T>, ge: (T, T) -> bool): seq<T> {
    if s == [] then [] else Insert(s[|s| - 1], SortDesc(s[..|s| - 1], ge), ge)
  }

  lemma {:induction false} InsertPermutes<T>(x: T, s: seq<T>, ge: (T, T) -> bool)
    ensures multiset(Insert(x, s, ge)) == multiset(s) + multiset{x}
  {
    if s != [] && ge(s[0], x) {
      InsertPermutes(x, s[1..], ge);
      assert s == [s[0]] + s[1..];
    }
  }

  /** An element ranking at least as high as `x` and as everything in `s` ranks at least as high as everything in the insertion. */
  lemma {:induction false} InsertBelow<T>(x: T, s: seq<T>, top: T, ge: (T, T) -> bool)
    requires ge(top, x)
    requires forall i :: 0 <= i < |s| ==> ge(top, s[i])
    ensures forall i :: 0 <= i < |Insert(x, s, ge)| ==> ge(top, Insert(x, s, ge)[i])
  {
    if s != [] && ge(s[0], x) {
      var rest := Insert(x, s[1..], ge);
      forall i | 0 <= i < |s[1..]| ensures ge(top, s[1..][i]) {
        assert s[1..][i] == s[i + 1];
      }
      InsertBelow(x, s[1..], top, ge);
      forall i | 0 <= i < |[s[0]] + rest| ensures ge(top, ([s[0]] + rest)[i]) {
        if i > 0 {
          assert ([s[0]] + rest)[i] == rest[i - 1];
        }
      }
    } else if s != [] {
      forall i | 0 <= i < |[x] + s| ensures ge(top, ([x] + s)[i]) {
        if i > 0 {
          assert ([x] + s)[i] == s[i - 1];
        }
      }
    }
  }

  /** Inserting past a leading element that ranks at least as high as `x` keeps the order. */
  lemma InsertSortedPast<T>(x: T, s: seq<T>, ge: (T, T) -> bool)
    requires s != [] && ge(s[0], x) && SortedDesc(s, ge)
    requires SortedDesc(Insert(x, s[1..], ge), ge)
    ensures SortedDesc(Insert(x, s, ge), ge)
  {
    var rest := Insert(x, s[1..], ge);
    forall i | 0 <= i < |s[1..]| ensures ge(s[0], s[1..][i]) {
      assert s[1..][i] == s[i + 1];
    }
    InsertBelow(x, s[1..], s[0], ge);
    var r := [s[0]] + rest;
    assert Insert(x, s, ge) == r;
    forall i, j | 0 <= i < j < |r| ensures ge(r[i], r[j]) {
      if i == 0 {
        assert r[j] == rest[j - 1];
      } else {
        assert r[i] == rest[i - 1] && r[j] == rest[j - 1];
      }
    }
  }

  /** Inserting in front of elements that all rank no higher than `x` keeps the order. */
  lemma InsertSortedFront<T>(x: T, s: seq<T>, ge: (T, T) -> bool)
    requires s != [] && !ge(s[0], x) && SortedDesc(s, ge)
    requires forall j :: 0 <= j < |s| ==> ge(x, s[j])
    ensures SortedDesc(Insert(x, s, ge), ge)
  {
    var r := [x] + s;
    assert Insert(x, s, ge) == r;
    forall i, j | 0 <= i < j < |r| ensures ge(r[i], r[j]) {
      if i == 0 {
        assert r[j] == s[j - 1];
      } else {
        assert r[i] == s[i - 1] && r[j] == s[j - 1];
      }
    }
  }

  lemma {:induction false} InsertSorted<T(!new)>(x: T, s: seq<T>, ge: (T, T) -> bool)
    requires TotalPreorder(ge) && SortedDesc(s, ge)
    ensures SortedDesc(Insert(x, s, ge), ge)
  {
    if s == [] {
    } else if ge(s[0], x) {
      assert SortedDesc(s[1..], ge) by {
        forall i, j | 0 <= i < j < |s[1..]| ensures ge(s[1..][i], s[1..][j]) {
          assert s[1..][i] == s[i + 1] && s[1..][j] == s[j + 1];
        }
      }
      InsertSorted(x, s[1..], ge);
      InsertSortedPast(x, s, ge);
    } else {
      assert ge(x, s[0]);
      forall j | 0 <= j < |s| ensures ge(x, s[j]) {
        if j > 0 {
          assert ge(s[0], s[j]);
        }
      }
      InsertSortedFront(x, s, ge);
    }
  }

  /** Concatenation is associative. */
  lemma AppendAssoc<T>(a: seq<T>, b: seq<T>, c: seq<T>)
    ensures (a + b) + c == a + (b + c)
  {
  }

  lemma {:induction false} TierAppend<T>(a: seq<T>, b: seq<T>, k: T, ge: (T, T) -> bool)
    ensures Tier(a + b, k, ge) == Tier(a, k, ge) + Tier(b, k, ge)
  {
    if a == [] {
      assert a + b == b;
    } else {
      TierAppend(a[1..], b, k, ge);
      var head := if ge(a[0], k) && ge(k, a[0]) then [a[0]] else [];
      assert (a + b)[0] == a[0] && (a + b)[1..] == a[1..] + b;
      assert Tier(a + b, k, ge) == head + Tier(a[1..] + b, k, ge);
      assert Tier(a, k, ge) == head + Tier(a[1..], k, ge);
      AppendAssoc(head, Tier(a[1..], k, ge), Tier(b, k, ge));
    }
  }

  /** Nothing in `s` ranks as high as `x`, so nothing in `s` shares a tier with it. */
  lemma {:induction false} TierBelow<T(!new)>(x: T, s: seq<T>, k: T, ge: (T, T) -> bool)
    requires TotalPreorder(ge)
    requires forall y :: y in s ==> !ge(y, x)
    requires ge(x, k) && ge(k, x)
    ensures Tier(s, k, ge) == []
  {
    if s != [] {
      assert s[0] in s;
      TierBelow(x, s[1..], k, ge);
    }
  }

  lemma {:induction false} InsertTier<T(!new)>(x: T, s: seq<T>, k: T, ge: (T, T) -> bool)
    requires TotalPreorder(ge) && SortedDesc(s, ge)
    ensures Tier(Insert(x, s, ge), k, ge) == Tier(s, k, ge) + Tier([x], k, ge)
  {
    var tx := Tier([x], k, ge);
    assert tx == if ge(x, k) && ge(k, x) then [x] else [] by {
      assert [x][1..] == [];
      assert Tier([x][1..], k, ge) == [];
    }
    if s == [] {
      assert Insert(x, s, ge) == [x];
    } else if ge(s[0], x) {
      var rest := Insert(x, s[1..], ge);
      var head := if ge(s[0], k) && ge(k, s[0]) then [s[0]] else [];
      InsertTier(x, s[1..], k, ge);
      assert Insert(x, s, ge) == [s[0]] + rest;
      assert ([s[0]] + rest)[1..] == rest;
      assert Tier(Insert(x, s, ge), k, ge) == head + Tier(rest, k, ge);
      assert Tier(s, k, ge) == head + Tier(s[1..], k, ge);
    } else {
      assert Insert(x, s, ge) == [x] + s;
      assert ([x] + s)[1..] == s;
      assert Tier(Insert(x, s, ge), k, ge) == tx + Tier(s, k, ge);
      if ge(x, k) && ge(k, x) {
        forall y | y in s ensures !ge(y, x) {
          var m :| 0 <= m < |s| && s[m] == y;
          if m > 0 { assert ge(s[0], s[m]); }
        }
        TierBelow(x, s, k, ge);
      }
    }
  }

  /**
   * The sorted sequence is a permutation of the input, ranks never increase
   * along it, and equal-ranking elements keep their input order.
   */
  lemma {:induction false} SortDescCorrect<T(!new)>(s: seq<T>, ge: (T, T) -> bool)
    requires TotalPreorder(ge)
    ensures multiset(SortDesc(s, ge)) == multiset(s)
    ensures SortedDesc(SortDesc(s, ge), ge)
    ensures forall k :: Tier(SortDesc(s, ge), k, ge) == Tier(s, k, ge)
  {
    if s != [] {
      var init, last := s[..|s| - 1], s[|s| - 1];
      assert s == init + [last];
      SortDescCorrect(init, ge);
      InsertPermutes(last, SortDesc(init, ge), ge);
      InsertSorted(last, SortDesc(init, ge), ge);
      forall k ensures Tier(SortDesc(s, ge), k, ge) == Tier(s, k, ge) {
        InsertTier(last, SortDesc(init, ge), k, ge);
        TierAppend(init, [last], k, ge);
      }
    }
  }
}
