/** Flex children and their visual order: `drawBoxModel` pairs each child's
    rectangle with its CSS `order`, and `drawFlexboxGaps` sorts them in place by
    that value with JavaScript's stable `Array.prototype.sort`. */
module FlexOrder {
  import opened Geometry

  /** One child of the container: its rectangle and its `order`. */
  datatype Child = Child(rect: Rect, order: int)

  /** `parseInt(order) || 0`: an `order` that does not parse counts as 0. */
  function OrderValue(parsed: Option<int>): (k: int)
    ensures parsed.None? ==> k == 0
    ensures parsed.Some? ==> k == parsed.value
  {
    match parsed
    case Some(v) => v
    case None => 0
  }

  /** The entries built from the children's rectangles and parsed `order`s. */
  function ChildEntries(rects: seq<Rect>, orders: seq<Option<int>>): (cs: seq<Child>)
    requires |rects| == |orders|
    ensures |cs| == |rects|
    ensures forall i :: 0 <= i < |cs| ==> cs[i].rect == rects[i] && cs[i].order == OrderValue(orders[i])
  {
    seq(|rects|, i requires 0 <= i < |rects| => Child(rects[i], OrderValue(orders[i])))
  }

  predicate SortedByOrder(s: seq<Child>)
  {
    forall i, j :: 0 <= i < j < |s| ==> s[i].order <= s[j].order
  }

  /** The children whose `order` is `k`, in the order they appear in `s`. */
  function WithOrder(s: seq<Child>, k: int): seq<Child>
  {
    if s == [] then [] else (if s[0].order == k then [s[0]] else []) + WithOrder(s[1..], k)
  }

  /** `t` is `s` sorted by `order`, ties kept in their original order: for every
      `order` value, `t` and `s` hold the same children in the same sequence.
      This makes `t` a permutation of `s` as well. */
  ghost predicate IsStableSortOf(t: seq<Child>, s: seq<Child>)
  {
    SortedByOrder(t) && SameKeys(t, s)
  }

  /** Every same-`order` subsequence of `t` is the one of `s`. */
  ghost predicate SameKeys(t: seq<Child>, s: seq<Child>)
  {
    forall k :: WithOrder(t, k) == WithOrder(s, k)
  }

  lemma {:induction false} WithOrderConcat(a: seq<Child>, b: seq<Child>, k: int)
    ensures WithOrder(a + b, k) == WithOrder(a, k) + WithOrder(b, k)
  {
    if a == [] {
      assert a + b == b;
    } else {
      assert (a + b)[0] == a[0] && (a + b)[1..] == a[1..] + b;
      WithOrderConcat(a[1..], b, k);
      var head := if a[0].order == k then [a[0]] else [];
      assert WithOrder(a + b, k) == head + WithOrder(a[1..] + b, k);
      assert WithOrder(a, k) == head + WithOrder(a[1..], k);
    }
  }

  lemma WithOrderSingle(c: Child, k: int)
    ensures WithOrder([c], k) == if c.order == k then [c] else []
  {
    assert [c][1..] == [];
  }

  lemma HeadKey(s: seq<Child>)
    ensures s != [] ==> WithOrder(s, s[0].order) != []
  {
  }

  lemma {:induction false} WithOrderMembers(s: seq<Child>, k: int)
    ensures forall c :: c in WithOrder(s, k) ==> c in s && c.order == k
  {
    if s != [] {
      WithOrderMembers(s[1..], k);
    }
  }

  /** Swapping two neighbours with different `order`s leaves every
      same-`order` subsequence as it was. */
  lemma SwapKeepsWithOrder(s: seq<Child>, j: int, k: int)
    requires 0 < j < |s| && s[j - 1].order != s[j].order
    ensures WithOrder(s[j - 1 := s[j]][j := s[j - 1]], k) == WithOrder(s, k)
  {
    var t := s[j - 1 := s[j]][j := s[j - 1]];
    assert s == s[..j - 1] + [s[j - 1], s[j]] + s[j + 1..];
    assert t == s[..j - 1] + [s[j], s[j - 1]] + s[j + 1..];
    WithOrderConcat(s[..j - 1] + [s[j - 1], s[j]], s[j + 1..], k);
    WithOrderConcat(s[..j - 1], [s[j - 1], s[j]], k);
    WithOrderConcat(s[..j - 1] + [s[j], s[j - 1]], s[j + 1..], k);
    WithOrderConcat(s[..j - 1], [s[j], s[j - 1]], k);
    WithOrderConcat([s[j - 1]], [s[j]], k);
    WithOrderConcat([s[j]], [s[j - 1]], k);
  }

  lemma SwapSameKeys(s: seq<Child>, j: int)
    requires 0 < j < |s| && s[j - 1].order != s[j].order
    ensures SameKeys(s[j - 1 := s[j]][j := s[j - 1]], s)
  {
    forall k ensures WithOrder(s[j - 1 := s[j]][j := s[j - 1]], k) == WithOrder(s, k) {
      SwapKeepsWithOrder(s, j, k);
    }
  }

  /** `childRects.sort((a, b) => a.order - b.order)`, as an insertion sort by
      adjacent swaps, which is stable like the engine's sort. */
  method SortByOrder(a: array<Child>)
    modifies a
    ensures IsStableSortOf(a[..], old(a[..]))
  {
    if a.Length == 0 {
      return;
    }
    var i := 1;
    while i < a.Length
      invariant 1 <= i <= a.Length
      invariant SortedByOrder(a[..i])
      invariant SameKeys(a[..], old(a[..]))
    {
      InsertAt(a, i);
      i := i + 1;
    }
    assert a[..i] == a[..];
  }

  /** Moves `a[i]` left past every child of larger `order`, so that the sorted
      prefix grows by one. */
  method InsertAt(a: array<Child>, i: int)
    requires 1 <= i < a.Length && SortedByOrder(a[..i])
    modifies a
    ensures SortedByOrder(a[..i + 1])
    ensures a[i + 1..] == old(a[i + 1..])
    ensures SameKeys(a[..], old(a[..]))
  {
    var j := i;
    while j > 0 && a[j - 1].order > a[j].order
      invariant 0 <= j <= i
      invariant a[i + 1..] == old(a[i + 1..])
      invariant forall m, n :: 0 <= m < n <= i && n != j ==> a[m].order <= a[n].order
      invariant SameKeys(a[..], old(a[..]))
    {
      ghost var before := a[..];
      a[j - 1], a[j] := a[j], a[j - 1];
      assert a[..] == before[j - 1 := before[j]][j := before[j - 1]];
      SwapSameKeys(before, j);
      j := j - 1;
    }
  }

  // ----- A reference definition of the stable sort -----

  /** Inserts `x` before the first child whose `order` is not smaller. */
  function Insert(x: Child, t: seq<Child>): seq<Child>
  {
    if t == [] || x.order <= t[0].order then [x] + t else [t[0]] + Insert(x, t[1..])
  }

  /** Insertion sort from the back: each child goes before the later children
      of equal `order`, so ties keep their original order. */
  function StableSort(s: seq<Child>): seq<Child>
  {
    if s == [] then [] else Insert(s[0], StableSort(s[1..]))
  }

  lemma {:induction false} InsertMembers(x: Child, t: seq<Child>)
    ensures forall c :: c in Insert(x, t) ==> c == x || c in t
  {
    if t != [] && x.order > t[0].order {
      InsertMembers(x, t[1..]);
    }
  }

  lemma {:induction false} InsertSorted(x: Child, t: seq<Child>)
    requires SortedByOrder(t)
    ensures SortedByOrder(Insert(x, t))
  {
    if t != [] && x.order > t[0].order {
      InsertSorted(x, t[1..]);
      InsertMembers(x, t[1..]);
      var r := Insert(x, t[1..]);
      assert forall c :: c in r ==> t[0].order <= c.order;
      assert forall n :: 0 <= n < |r| ==> r[n] in r;
    }
  }

  lemma {:induction false} InsertWithOrder(x: Child, t: seq<Child>, k: int)
    ensures WithOrder(Insert(x, t), k) == WithOrder([x] + t, k)
  {
    if t != [] && x.order > t[0].order {
      var hx := WithOrder([x], k);
      var h0 := WithOrder([t[0]], k);
      var rest := WithOrder(t[1..], k);
      calc {
        WithOrder(Insert(x, t), k);
        WithOrder([t[0]] + Insert(x, t[1..]), k);
        { WithOrderConcat([t[0]], Insert(x, t[1..]), k); }
        h0 + WithOrder(Insert(x, t[1..]), k);
        { InsertWithOrder(x, t[1..], k); }
        h0 + WithOrder([x] + t[1..], k);
        { WithOrderConcat([x], t[1..], k); }
        h0 + (hx + rest);
        { WithOrderSingle(x, k); WithOrderSingle(t[0], k); }
        hx + (h0 + rest);
        { WithOrderConcat([t[0]], t[1..], k); assert t == [t[0]] + t[1..]; }
        hx + WithOrder(t, k);
        { WithOrderConcat([x], t, k); }
        WithOrder([x] + t, k);
      }
    }
  }

  /** The reference sort is a stable sort. */
  lemma {:induction false} StableSortIsStable(s: seq<Child>)
    ensures IsStableSortOf(StableSort(s), s)
  {
    if s != [] {
      StableSortIsStable(s[1..]);
      InsertSorted(s[0], StableSort(s[1..]));
      forall k ensures WithOrder(StableSort(s), k) == WithOrder(s, k) {
        InsertWithOrder(s[0], StableSort(s[1..]), k);
        WithOrderConcat([s[0]], StableSort(s[1..]), k);
        WithOrderConcat([s[0]], s[1..], k);
        assert s == [s[0]] + s[1..];
      }
    }
  }

  /** A stable sort has only one possible result. */
  lemma {:induction false} StableSortUnique(t: seq<Child>, u: seq<Child>, s: seq<Child>)
    requires IsStableSortOf(t, s) && IsStableSortOf(u, s)
    ensures t == u
    decreases |t|
  {
    SameKeysSameSorted(t, u);
  }

  lemma {:induction false} SameKeysSameSorted(t: seq<Child>, u: seq<Child>)
    requires SortedByOrder(t) && SortedByOrder(u)
    requires forall k :: WithOrder(t, k) == WithOrder(u, k)
    ensures t == u
    decreases |t| + |u|
  {
    if t == [] || u == [] {
      // One empty and one not would differ on the first child's `order`.
      HeadKey(t);
      HeadKey(u);
    } else {
      var a, b := t[0], u[0];
      WithOrderMembers(u, a.order);
      assert a in WithOrder(u, a.order);
      WithOrderMembers(t, b.order);
      assert b in WithOrder(t, b.order);
      assert a.order == b.order;
      assert WithOrder(t, a.order) == [a] + WithOrder(t[1..], a.order);
      assert WithOrder(u, a.order) == [b] + WithOrder(u[1..], a.order);
      assert a == WithOrder(t, a.order)[0] == WithOrder(u, a.order)[0] == b;
      forall k ensures WithOrder(t[1..], k) == WithOrder(u[1..], k) {
        var head := if a.order == k then [a] else [];
        var x, y := WithOrder(t[1..], k), WithOrder(u[1..], k);
        assert WithOrder(t, k) == head + x;
        assert WithOrder(u, k) == head + y;
        assert x == (head + x)[|head|..] && y == (head + y)[|head|..];
      }
      SameKeysSameSorted(t[1..], u[1..]);
      assert t == [a] + t[1..] && u == [b] + u[1..];
    }
  }

  /** The in-place sort leaves the array holding the reference sort of its old contents. */
  lemma SortByOrderMatchesReference(t: seq<Child>, s: seq<Child>)
    requires IsStableSortOf(t, s)
    ensures t == StableSort(s)
  {
    StableSortIsStable(s);
    StableSortUnique(t, StableSort(s), s);
  }
}
