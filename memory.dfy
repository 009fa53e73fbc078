/**
 * The intrusive two-list memory pool (`rmw_ertps_mempool_t`).
 *
 * Every item of a pool sits in an arena addressed by index. Cells
 * `0 .. slots-1` are the pool's static record array; the cells above them
 * stand for heap memory that the dynamic-growth path of `get_memory` may
 * obtain from the allocator. The pointer fields `prev`/`next` of the items
 * are index arrays in which `Nil` is the NULL pointer, and `freeItems` /
 * `allocatedItems` are the two list heads. The ghost sequences `Free` and
 * `Allocated` are the two lists read from their heads.
 */
module Memory {
  import opened Common

  /** The NULL item pointer. */
  const Nil: int := -1

  /** The settings of a pool descriptor: the element size, the initialisation flag and whether growth is allowed. */
  datatype PoolSettings = PoolSettings(elementSize: nat, isInitialized: bool, isDynamicAllowed: bool)

  /** What an item's `data` pointer designates. */
  datatype DataRef =
    | NoData                    // a zero-initialised item that no init has touched
    | StaticRecord(index: nat)  // `&array[index]`, the record the item is embedded in
    | HeapBlock(size: nat)      // a block of `size` bytes obtained by `rmw_allocate`

  /** The item at the head of a list, or NULL for an empty list. */
  function Head(s: seq<nat>): int
  {
    if s == [] then Nil else s[0]
  }

  ghost predicate NoDuplicates(s: seq<nat>)
  {
    forall i, j | 0 <= i < j < |s| :: s[i] != s[j]
  }

  ghost predicate Disjoint(a: seq<nat>, b: seq<nat>)
  {
    forall y | y in a :: y !in b
  }

  /** `s` with its first occurrence of `x` taken out. */
  function Remove(s: seq<nat>, x: nat): (r: seq<nat>)
    ensures |r| == if x in s then |s| - 1 else |s|
    ensures forall y :: y in r ==> y in s
    ensures forall y :: y != x && y in s ==> y in r
    ensures x !in s ==> r == s
  {
    if s == [] then []
    else if s[0] == x then s[1..]
    else [s[0]] + Remove(s[1..], x)
  }

  /** `s` once the items of `xs` have been taken out of it one after another. */
  ghost function RemoveEach(s: seq<nat>, xs: seq<nat>): seq<nat>
    decreases |xs|
  {
    if xs == [] then s else Remove(RemoveEach(s, xs[..|xs| - 1]), xs[|xs| - 1])
  }

  /**
   * What `put_memory` of each of `xs` in turn pushes on the free list, the
   * last one pushed first: every item except the dynamic ones, which go back
   * to the allocator when dynamic memory is compiled in.
   */
  ghost function Recycled(xs: seq<nat>, dynamicCompiled: bool, isDynamic: seq<bool>): seq<nat>
    decreases |xs|
  {
    if xs == [] then []
    else
      var x := xs[|xs| - 1];
      (if dynamicCompiled && x < |isDynamic| && isDynamic[x] then [] else [x])
      + Recycled(xs[..|xs| - 1], dynamicCompiled, isDynamic)
  }

  /**
   * The items of `xs` that `put_memory` gives back to the allocator: the
   * dynamic ones, when dynamic memory is compiled in.
   */
  ghost function ReleasedOf(xs: seq<nat>, dynamicCompiled: bool, isDynamic: seq<bool>): set<nat>
    decreases |xs|
  {
    if xs == [] then {}
    else
      var x := xs[|xs| - 1];
      ReleasedOf(xs[..|xs| - 1], dynamicCompiled, isDynamic)
      + (if dynamicCompiled && x < |isDynamic| && isDynamic[x] then {x} else {})
  }

  /** Putting back `xs` and then `ys` releases what each of them releases. */
  lemma {:induction false} ReleasedOfAppend(xs: seq<nat>, ys: seq<nat>, dynamicCompiled: bool, isDynamic: seq<bool>)
    ensures ReleasedOf(xs + ys, dynamicCompiled, isDynamic)
         == ReleasedOf(xs, dynamicCompiled, isDynamic) + ReleasedOf(ys, dynamicCompiled, isDynamic)
    decreases |ys|
  {
    if ys != [] {
      var init := ys[..|ys| - 1];
      ReleasedOfAppend(xs, init, dynamicCompiled, isDynamic);
      assert (xs + ys)[..|xs + ys| - 1] == xs + init;
      assert (xs + ys)[|xs + ys| - 1] == ys[|ys| - 1];
    } else {
      assert xs + ys == xs;
    }
  }

  /** `put_memory` of a single item `x` takes it out and recycles it unless it is released. */
  lemma PutOne(s: seq<nat>, freeList: seq<nat>, x: nat, dynamicCompiled: bool, isDynamic: seq<bool>,
               released: bool, a: seq<nat>, f: seq<nat>)
    requires released == (dynamicCompiled && x < |isDynamic| && isDynamic[x])
    requires a == Remove(s, x)
    requires f == if released then freeList else [x] + freeList
    ensures a == RemoveEach(s, [x])
    ensures f == Recycled([x], dynamicCompiled, isDynamic) + freeList
    ensures ReleasedOf([x], dynamicCompiled, isDynamic) == if released then {x} else {}
  {
    assert [x][..0] == [];
  }

  /** Taking out `xs` and then `ys` is taking out `xs + ys`. */
  lemma {:induction false} RemoveEachAppend(s: seq<nat>, xs: seq<nat>, ys: seq<nat>)
    ensures RemoveEach(RemoveEach(s, xs), ys) == RemoveEach(s, xs + ys)
    decreases |ys|
  {
    if ys != [] {
      var init := ys[..|ys| - 1];
      RemoveEachAppend(s, xs, init);
      assert (xs + ys)[..|xs + ys| - 1] == xs + init;
    } else {
      assert xs + ys == xs;
    }
  }

  /** Putting back `xs` and then `ys` pushes what `ys` recycles on top of what `xs` recycles. */
  lemma {:induction false} RecycledAppend(xs: seq<nat>, ys: seq<nat>, dynamicCompiled: bool, isDynamic: seq<bool>)
    ensures Recycled(xs + ys, dynamicCompiled, isDynamic)
         == Recycled(ys, dynamicCompiled, isDynamic) + Recycled(xs, dynamicCompiled, isDynamic)
    decreases |ys|
  {
    if ys != [] {
      var init := ys[..|ys| - 1];
      RecycledAppend(xs, init, dynamicCompiled, isDynamic);
      assert (xs + ys)[..|xs + ys| - 1] == xs + init;
      assert (xs + ys)[|xs + ys| - 1] == ys[|ys| - 1];
    } else {
      assert xs + ys == xs;
    }
  }

  /**
   * Lists `a` and `f` that are `s` and `freeList` after `put_memory` of each
   * of `xs`, once `ys` is put back too, are those after `xs + ys`.
   */
  lemma PutEachCompose(s: seq<nat>, freeList: seq<nat>, xs: seq<nat>, ys: seq<nat>,
                       dynamicCompiled: bool, isDynamic: seq<bool>,
                       a: seq<nat>, f: seq<nat>, a': seq<nat>, f': seq<nat>)
    requires a == RemoveEach(s, xs) && f == Recycled(xs, dynamicCompiled, isDynamic) + freeList
    requires a' == RemoveEach(a, ys) && f' == Recycled(ys, dynamicCompiled, isDynamic) + f
    ensures a' == RemoveEach(s, xs + ys)
    ensures f' == Recycled(xs + ys, dynamicCompiled, isDynamic) + freeList
  {
    RemoveEachAppend(s, xs, ys);
    RecycledAppend(xs, ys, dynamicCompiled, isDynamic);
  }

  /** Taking out the element at position `k` of a list without duplicates. */
  lemma {:induction false} RemoveAt(s: seq<nat>, k: nat)
    requires k < |s| && NoDuplicates(s)
    ensures Remove(s, s[k]) == s[..k] + s[k + 1..]
  {
    if k > 0 {
      assert s[0] != s[k];
      NoDuplicatesTail(s);
      SliceShift(s, k);
      RemoveAt(s[1..], k - 1);
    }
  }

  /** Position `k` of `s` is position `k - 1` of its tail, and the slices around it line up. */
  lemma SliceShift(s: seq<nat>, k: nat)
    requires 0 < k < |s|
    ensures s[1..][k - 1] == s[k]
    ensures [s[0]] + (s[1..][..k - 1] + s[1..][k..]) == s[..k] + s[k + 1..]
  {
    assert s[1..][..k - 1] == s[1..k] && s[1..][k..] == s[k + 1..];
    assert [s[0]] + s[1..k] == s[..k];
  }

  /** The tail of a list without duplicates has none. */
  lemma NoDuplicatesTail(s: seq<nat>)
    requires NoDuplicates(s) && s != []
    ensures NoDuplicates(s[1..])
  {
    forall i, j | 0 <= i < j < |s[1..]| ensures s[1..][i] != s[1..][j] {
      assert s[1..][i] == s[i + 1] && s[1..][j] == s[j + 1];
    }
  }

  /**
   * The list `s` is threaded through the pointer snapshots `P` (prev) and
   * `N` (next): its head has no predecessor, its tail no successor, and
   * consecutive items point at each other.
   */
  ghost predicate Threaded(s: seq<nat>, P: seq<int>, N: seq<int>)
  {
    && |P| == |N|
    && (forall k | 0 <= k < |s| :: s[k] < |P|)
    && (|s| > 0 ==> P[s[0]] == Nil && N[s[|s| - 1]] == Nil)
    && (forall k {:trigger N[s[k]]} | 0 <= k < |s| - 1 :: N[s[k]] == s[k + 1])
    && (forall k {:trigger P[s[k]]} | 0 < k < |s| :: P[s[k]] == s[k - 1])
  }

  /**
   * `s` can be walked from its head by following `N`: each item is a valid
   * index, its link is the item after it, and the last one links to NULL.
   */
  ghost predicate Chained(s: seq<nat>, N: seq<int>)
  {
    s == [] || (s[0] < |N| && N[s[0]] == Head(s[1..]) && Chained(s[1..], N))
  }

  /** Every suffix of a threaded list can be walked by its `next` links. */
  lemma {:induction false} ThreadedIsChained(s: seq<nat>, P: seq<int>, N: seq<int>, k: nat)
    requires Threaded(s, P, N) && k <= |s|
    ensures Chained(s[k..], N)
    decreases |s| - k
  {
    if k < |s| {
      ThreadedIsChained(s, P, N, k + 1);
      assert s[k..][1..] == s[k + 1..];
    }
  }

  /**
   * The structural invariant of a pool: both lists are threaded, no item
   * is in a list twice or in both lists, every listed item is a live arena
   * cell, released cells are heap cells, and a live cell in neither list
   * has NULL links.
   */
  ghost predicate WellShaped(F: seq<nat>, A: seq<nat>, R: set<nat>, P: seq<int>, N: seq<int>, top: nat, slots: nat)
  {
    && |P| == |N| && slots <= top <= |P|
    && Threaded(F, P, N) && Threaded(A, P, N)
    && Disjoint(F, A)
    && (forall y | y in F :: y < top && y !in R)
    && (forall y | y in A :: y < top && y !in R)
    && (forall i | i in R :: slots <= i < top)
    && (forall i: nat | i < top && i !in F && i !in A && i !in R :: P[i] == Nil && N[i] == Nil)
  }


  /** The position of the first occurrence of `x` in `s`. */
  function IndexOf(s: seq<nat>, x: nat): (k: nat)
    requires x in s
    ensures k < |s| && s[k] == x && x !in s[..k]
  {
    if s[0] == x then 0 else 1 + IndexOf(s[1..], x)
  }

  /**
   * A threaded list visits no cell twice: walking the `prev` links back from
   * a repeated cell would reach the head, whose `prev` is NULL, at two
   * different positions.
   */
  lemma {:induction false} ThreadedHasNoDuplicates(s: seq<nat>, P: seq<int>, N: seq<int>)
    requires Threaded(s, P, N)
    ensures NoDuplicates(s)
  {
    forall i, j | 0 <= i < j < |s| ensures s[i] != s[j] {
      ThreadedDistinct(s, P, N, i, j);
    }
  }

  lemma {:induction false} ThreadedDistinct(s: seq<nat>, P: seq<int>, N: seq<int>, i: nat, j: nat)
    requires Threaded(s, P, N) && i < j < |s|
    ensures s[i] != s[j]
    decreases i
  {
    if i == 0 {
      assert P[s[j]] == s[j - 1];
    } else {
      ThreadedDistinct(s, P, N, i - 1, j - 1);
      assert P[s[i]] == s[i - 1] && P[s[j]] == s[j - 1];
    }
  }

  /** Setting the `prev` link of a cell outside `s` keeps `s` threaded. */
  lemma ThreadedSetPrev(s: seq<nat>, P: seq<int>, N: seq<int>, i: nat, v: int)
    requires Threaded(s, P, N) && i < |P| && i !in s
    ensures Threaded(s, P[i := v], N)
  {
    forall k | 0 <= k < |s| ensures P[i := v][s[k]] == P[s[k]] {
      assert s[k] != i;
    }
  }

  /** Setting the `next` link of a cell outside `s` keeps `s` threaded. */
  lemma ThreadedSetNext(s: seq<nat>, P: seq<int>, N: seq<int>, i: nat, v: int)
    requires Threaded(s, P, N) && i < |N| && i !in s
    ensures Threaded(s, P, N[i := v])
  {
    forall k | 0 <= k < |s| ensures N[i := v][s[k]] == N[s[k]] {
      assert s[k] != i;
    }
  }

  /** `prev` after the head of `s` is popped: the new head loses its predecessor. */
  function PrevAfterPop(s: seq<nat>, P: seq<int>): seq<int>
    requires |s| > 1 ==> s[1] < |P|
  {
    if |s| > 1 then P[s[1] := Nil] else P
  }

  /** Popping the head of a threaded list leaves the rest threaded. */
  lemma PopKeepsThreaded(s: seq<nat>, P: seq<int>, N: seq<int>)
    requires Threaded(s, P, N) && NoDuplicates(s) && s != []
    ensures N[s[0]] == Head(s[1..])
    ensures Threaded(s[1..], PrevAfterPop(s, P), N)
    ensures NoDuplicates(s[1..])
  {
    var t := s[1..];
    var P' := PrevAfterPop(s, P);
    if |s| == 1 {
      assert N[s[|s| - 1]] == Nil;
    } else {
      assert N[s[0]] == s[1];
    }
    forall k | 0 <= k < |t| ensures t[k] == s[k + 1] {
    }
    forall k | 0 < k < |t| ensures P'[t[k]] == t[k - 1] {
      assert s[k + 1] != s[1];
      assert P[s[k + 1]] == s[k];
    }
    forall k | 0 <= k < |t| - 1 ensures N[t[k]] == t[k + 1] {
      assert N[s[k + 1]] == s[k + 2];
    }
    if t != [] {
      assert t[|t| - 1] == s[|s| - 1];
    }
    forall i, j | 0 <= i < j < |t| ensures t[i] != t[j] {
      assert s[i + 1] != s[j + 1];
    }
  }

  /** `prev` after `x` is pushed in front of `s`. */
  function PrevAfterPush(s: seq<nat>, P: seq<int>, x: nat): seq<int>
    requires x < |P| && (s != [] ==> s[0] < |P|)
  {
    (if s != [] then P[s[0] := x] else P)[x := Nil]
  }

  /** `next` after `x` is pushed in front of `s`. */
  function NextAfterPush(s: seq<nat>, N: seq<int>, x: nat): seq<int>
    requires x < |N|
  {
    N[x := Head(s)]
  }

  /** Pushing a cell that is not in a threaded list in front of it keeps it threaded. */
  lemma PushKeepsThreaded(s: seq<nat>, P: seq<int>, N: seq<int>, x: nat)
    requires Threaded(s, P, N) && NoDuplicates(s) && x < |P| && x !in s
    ensures Threaded([x] + s, PrevAfterPush(s, P, x), NextAfterPush(s, N, x))
    ensures NoDuplicates([x] + s)
  {
    var t := [x] + s;
    var P', N' := PrevAfterPush(s, P, x), NextAfterPush(s, N, x);
    forall k | 0 < k < |t| ensures t[k] == s[k - 1] && t[k] != x {
    }
    forall k | 0 < k < |t| ensures P'[t[k]] == t[k - 1] {
      if k > 1 {
        assert s[k - 1] != s[0];
        assert P[s[k - 1]] == s[k - 2];
      }
    }
    forall k | 0 <= k < |t| - 1 ensures N'[t[k]] == t[k + 1] {
      if k > 0 {
        assert N[s[k - 1]] == s[k];
      }
    }
    if s != [] {
      assert t[|t| - 1] == s[|s| - 1];
    }
    forall i, j | 0 <= i < j < |t| ensures t[i] != t[j] {
      if i > 0 {
        assert s[i - 1] != s[j - 1];
      }
    }
  }

  /** `next` after `put_memory` made the predecessor of `x` skip it. */
  function NextAfterUnlink(P: seq<int>, N: seq<int>, x: nat): seq<int>
    requires x < |P| == |N| && (P[x] == Nil || 0 <= P[x] < |N|)
  {
    if P[x] != Nil then N[P[x] := N[x]] else N
  }

  /** `prev` after `put_memory` made the successor of `x` skip it. */
  function PrevAfterUnlink(P: seq<int>, N: seq<int>, x: nat): seq<int>
    requires x < |P| == |N| && (N[x] == Nil || 0 <= N[x] < |P|)
  {
    if N[x] != Nil then P[N[x] := P[x]] else P
  }

  /** The links of `x` are NULL or point at cells of the arena other than `x`. */
  ghost predicate LinksInRange(P: seq<int>, N: seq<int>, x: nat)
  {
    && x < |P| == |N|
    && (P[x] == Nil || (0 <= P[x] < |N| && P[x] != x))
    && (N[x] == Nil || (0 <= N[x] < |P| && N[x] != x))
  }

  /** The neighbours of the item at position `k` of a threaded list are its list neighbours. */
  lemma Neighbours(s: seq<nat>, P: seq<int>, N: seq<int>, k: nat)
    requires Threaded(s, P, N) && NoDuplicates(s) && k < |s|
    ensures LinksInRange(P, N, s[k])
    ensures P[s[k]] == (if k > 0 then s[k - 1] else Nil)
    ensures N[s[k]] == (if k < |s| - 1 then s[k + 1] else Nil)
  {
    if k > 0 {
      assert P[s[k]] == s[k - 1] && s[k - 1] != s[k];
    }
    if k < |s| - 1 {
      assert N[s[k]] == s[k + 1] && s[k + 1] != s[k];
    } else {
      assert N[s[|s| - 1]] == Nil;
    }
  }

  /** Taking one element out of a list without duplicates leaves none. */
  lemma RemoveAtKeepsNoDuplicates(s: seq<nat>, k: nat)
    requires NoDuplicates(s) && k < |s|
    ensures NoDuplicates(s[..k] + s[k + 1..])
    ensures s[k] !in s[..k] + s[k + 1..]
  {
    var t := s[..k] + s[k + 1..];
    forall j | 0 <= j < |t| ensures t[j] == s[if j < k then j else j + 1] {
    }
    forall i, j | 0 <= i < j < |t| ensures t[i] != t[j] {
      assert s[if i < k then i else i + 1] != s[if j < k then j else j + 1];
    }
    forall j | 0 <= j < |t| ensures t[j] != s[k] {
      assert s[if j < k then j else j + 1] != s[k];
    }
  }

  /** After unlinking position `k`, the `next` links of the rest still follow the list. */
  lemma UnlinkKeepsNextLinks(s: seq<nat>, P: seq<int>, N: seq<int>, k: nat)
    requires Threaded(s, P, N) && NoDuplicates(s) && k < |s|
    requires LinksInRange(P, N, s[k]) && P[s[k]] == (if k > 0 then s[k - 1] else Nil)
    ensures var t, N' := s[..k] + s[k + 1..], NextAfterUnlink(P, N, s[k]);
      forall j | 0 <= j < |t| - 1 :: N'[t[j]] == t[j + 1]
  {
    var t, N' := s[..k] + s[k + 1..], NextAfterUnlink(P, N, s[k]);
    forall j | 0 <= j < |t| - 1 ensures N'[t[j]] == t[j + 1] {
      assert t[j] == s[if j < k then j else j + 1] && t[j + 1] == s[if j + 1 < k then j + 1 else j + 2];
      if j < k - 1 {
        assert s[j] != s[k - 1];
        assert N[s[j]] == s[j + 1];
      } else if j >= k {
        assert k > 0 ==> s[j + 1] != s[k - 1];
        assert N[s[j + 1]] == s[j + 2];
      }
    }
  }

  /** After unlinking position `k`, the `prev` links of the rest still follow the list. */
  lemma UnlinkKeepsPrevLinks(s: seq<nat>, P: seq<int>, N: seq<int>, k: nat)
    requires Threaded(s, P, N) && NoDuplicates(s) && k < |s|
    requires LinksInRange(P, N, s[k]) && N[s[k]] == (if k < |s| - 1 then s[k + 1] else Nil)
    ensures var t, P' := s[..k] + s[k + 1..], PrevAfterUnlink(P, N, s[k]);
      forall j | 0 < j < |t| :: P'[t[j]] == t[j - 1]
  {
    var t, P' := s[..k] + s[k + 1..], PrevAfterUnlink(P, N, s[k]);
    forall j | 0 < j < |t| ensures P'[t[j]] == t[j - 1] {
      assert t[j] == s[if j < k then j else j + 1] && t[j - 1] == s[if j - 1 < k then j - 1 else j];
      if j < k {
        assert k < |s| - 1 ==> s[j] != s[k + 1];
        assert P[s[j]] == s[j - 1];
      } else if j > k {
        assert s[j + 1] != s[k + 1];
        assert P[s[j + 1]] == s[j];
      }
    }
  }

  /**
   * Unlinking the item at position `k` of a threaded list by patching its
   * neighbours leaves the list without it threaded through the patched links.
   */
  lemma UnlinkKeepsThreaded(s: seq<nat>, P: seq<int>, N: seq<int>, k: nat)
    requires Threaded(s, P, N) && NoDuplicates(s) && k < |s|
    ensures LinksInRange(P, N, s[k])
    ensures Threaded(s[..k] + s[k + 1..], PrevAfterUnlink(P, N, s[k]), NextAfterUnlink(P, N, s[k]))
  {
    Neighbours(s, P, N, k);
    UnlinkKeepsNextLinks(s, P, N, k);
    UnlinkKeepsPrevLinks(s, P, N, k);
    var t := s[..k] + s[k + 1..];
    forall j | 0 <= j < |t| ensures t[j] == s[if j < k then j else j + 1] {
    }
    if t != [] {
      UnlinkKeepsEnds(s, P, N, k);
    }
  }

  /** After unlinking position `k` of a list of two or more, its new ends still have NULL outer links. */
  lemma UnlinkKeepsEnds(s: seq<nat>, P: seq<int>, N: seq<int>, k: nat)
    requires Threaded(s, P, N) && NoDuplicates(s) && k < |s| && 1 < |s|
    requires LinksInRange(P, N, s[k])
    requires P[s[k]] == (if k > 0 then s[k - 1] else Nil)
    requires N[s[k]] == (if k < |s| - 1 then s[k + 1] else Nil)
    ensures var t := s[..k] + s[k + 1..];
      && PrevAfterUnlink(P, N, s[k])[t[0]] == Nil
      && NextAfterUnlink(P, N, s[k])[t[|t| - 1]] == Nil
  {
    var t := s[..k] + s[k + 1..];
    var first := if k == 0 then s[1] else s[0];
    var last := if k == |s| - 1 then s[|s| - 2] else s[|s| - 1];
    assert t[0] == first;
    assert t[|t| - 1] == last;
    if k > 0 && k < |s| - 1 {
      assert s[0] != s[k + 1];
      assert s[|s| - 1] != s[k - 1];
    }
  }

  /** Moving the head of `F` to the head of `A` keeps both lists threaded. */
  lemma MoveHeadKeepsThreaded(F: seq<nat>, A: seq<nat>, P: seq<int>, N: seq<int>)
    requires Threaded(F, P, N) && Threaded(A, P, N) && Disjoint(F, A) && F != []
    ensures F[0] < |P| && (|F| > 1 ==> F[1] < |P|) && (A != [] ==> A[0] < |P|)
    ensures N[F[0]] == Head(F[1..]) && F[0] !in A && F[0] !in F[1..]
    ensures Threaded(F[1..], PrevAfterPush(A, PrevAfterPop(F, P), F[0]), NextAfterPush(A, N, F[0]))
    ensures Threaded([F[0]] + A, PrevAfterPush(A, PrevAfterPop(F, P), F[0]), NextAfterPush(A, N, F[0]))
  {
    var x := F[0];
    var P1 := PrevAfterPop(F, P);
    var P2, N2 := PrevAfterPush(A, P1, x), NextAfterPush(A, N, x);
    ThreadedHasNoDuplicates(F, P, N);
    ThreadedHasNoDuplicates(A, P, N);
    assert F[0] !in A;
    PopKeepsThreaded(F, P, N);
    assert x !in F[1..] by {
      forall k | 0 <= k < |F| - 1 ensures F[1..][k] != x {
        assert F[k + 1] != F[0];
      }
    }
    assert Threaded([x] + A, P2, N2) by {
      if |F| > 1 {
        assert F[1] !in A;
        ThreadedSetPrev(A, P, N, F[1], Nil);
      }
      PushKeepsThreaded(A, P1, N, x);
    }
    assert Threaded(F[1..], P2, N2) by {
      var P1' := if A != [] then P1[A[0] := x] else P1;
      if A != [] {
        assert A[0] !in F[1..];
        ThreadedSetPrev(F[1..], P1, N, A[0], x);
      }
      ThreadedSetPrev(F[1..], P1', N, x, Nil);
      ThreadedSetNext(F[1..], P2, N, x, Head(A));
    }
  }

  /** `get_memory` on a non-empty free list keeps the pool well shaped. */
  lemma GetKeepsShape(F: seq<nat>, A: seq<nat>, R: set<nat>, P: seq<int>, N: seq<int>, top: nat, slots: nat)
    requires WellShaped(F, A, R, P, N, top, slots) && F != []
    ensures F[0] < |P| && (|F| > 1 ==> F[1] < |P|) && (A != [] ==> A[0] < |P|)
    ensures N[F[0]] == Head(F[1..])
    ensures WellShaped(F[1..], [F[0]] + A, R,
      PrevAfterPush(A, PrevAfterPop(F, P), F[0]), NextAfterPush(A, N, F[0]), top, slots)
  {
    MoveHeadKeepsThreaded(F, A, P, N);
    var x := F[0];
    var P2, N2 := PrevAfterPush(A, PrevAfterPop(F, P), x), NextAfterPush(A, N, x);
    assert forall y | y in F[1..] :: y in F;
    forall y | y in [x] + A ensures y < top && y !in R {
      if y != x {
        assert y in A;
      } else {
        assert F[0] in F;
      }
    }
    assert Disjoint(F[1..], [x] + A);
    forall i: nat | i < top && i !in F[1..] && i !in [x] + A && i !in R ensures P2[i] == Nil && N2[i] == Nil {
      assert i !in F;
    }
  }

  /** Moving the arena's first untouched cell into the pool keeps it well shaped. */
  lemma GrowKeepsShape(F: seq<nat>, A: seq<nat>, R: set<nat>, P: seq<int>, N: seq<int>, top: nat, slots: nat)
    requires WellShaped(F, A, R, P, N, top, slots) && top < |P|
    ensures WellShaped(F, A, R, P[top := Nil], N[top := Nil], top + 1, slots)
    ensures top !in F && top !in A && top !in R
  {
    ThreadedSetPrev(F, P, N, top, Nil);
    ThreadedSetNext(F, P[top := Nil], N, top, Nil);
    ThreadedSetPrev(A, P, N, top, Nil);
    ThreadedSetNext(A, P[top := Nil], N, top, Nil);
  }

  /**
   * The unlinking half of `put_memory` on an allocated or unlisted cell:
   * the cell leaves the allocated list, the allocated head advances exactly
   * when it was the cell, and only links of allocated cells change.
   */
  lemma UnlinkKeepsShape(F: seq<nat>, A: seq<nat>, P: seq<int>, N: seq<int>, x: nat)
    requires Threaded(F, P, N) && Threaded(A, P, N) && NoDuplicates(A) && Disjoint(F, A)
    requires x < |P| && x !in F && (x !in A ==> P[x] == Nil && N[x] == Nil)
    ensures LinksInRange(P, N, x)
    ensures Head(Remove(A, x)) == if Head(A) == x then N[x] else Head(A)
    ensures x !in Remove(A, x) && NoDuplicates(Remove(A, x))
    ensures Threaded(F, PrevAfterUnlink(P, N, x), NextAfterUnlink(P, N, x))
    ensures Threaded(Remove(A, x), PrevAfterUnlink(P, N, x), NextAfterUnlink(P, N, x))
    ensures forall i: nat | i < |P| && i != x && i !in A ::
      PrevAfterUnlink(P, N, x)[i] == P[i] && NextAfterUnlink(P, N, x)[i] == N[i]
  {
    var A' := Remove(A, x);
    if x in A {
      var k := IndexOf(A, x);
      RemoveAt(A, k);
      UnlinkKeepsThreaded(A, P, N, k);
      RemoveAtKeepsNoDuplicates(A, k);
      Neighbours(A, P, N, k);
      if k > 0 {
        assert A[k - 1] in A;
        ThreadedSetNext(F, P, N, A[k - 1], N[x]);
      }
      if k < |A| - 1 {
        assert A[k + 1] in A;
        ThreadedSetPrev(F, P, NextAfterUnlink(P, N, x), A[k + 1], P[x]);
      }
      if k == 0 && |A| > 1 {
        assert A'[0] == A[1];
      }
      if k > 0 {
        assert A'[0] == A[0];
      }
      forall i: nat | i < |P| && i != x && i !in A
        ensures PrevAfterUnlink(P, N, x)[i] == P[i] && NextAfterUnlink(P, N, x)[i] == N[i]
      {
        assert i != P[x] && i != N[x];
      }
    } else {
      assert A != [] ==> A[0] != x;
    }
  }

  /** The links of an allocated or unlisted cell are NULL or point at other cells. */
  lemma ItemLinksInRange(F: seq<nat>, A: seq<nat>, R: set<nat>, P: seq<int>, N: seq<int>, top: nat, slots: nat,
                         x: nat)
    requires WellShaped(F, A, R, P, N, top, slots)
    requires x < top && x !in F && x !in R
    ensures LinksInRange(P, N, x)
  {
    if x in A {
      ThreadedHasNoDuplicates(A, P, N);
      Neighbours(A, P, N, IndexOf(A, x));
    }
  }

  /** `put_memory` of a dynamic cell: it leaves the allocated list and the pool. */
  lemma PutReleaseKeepsShape(F: seq<nat>, A: seq<nat>, R: set<nat>, P: seq<int>, N: seq<int>, top: nat, slots: nat,
                             x: nat)
    requires WellShaped(F, A, R, P, N, top, slots)
    requires slots <= x < top && x !in F && x !in R
    ensures LinksInRange(P, N, x)
    ensures Head(Remove(A, x)) == if Head(A) == x then N[x] else Head(A)
    ensures WellShaped(F, Remove(A, x), R + {x}, PrevAfterUnlink(P, N, x), NextAfterUnlink(P, N, x), top, slots)
  {
    assert x !in A ==> P[x] == Nil && N[x] == Nil;
    ThreadedHasNoDuplicates(F, P, N);
    ThreadedHasNoDuplicates(A, P, N);
    UnlinkKeepsShape(F, A, P, N, x);
    ReleaseMembership(F, A, R, top, slots, x);
  }

  /** The membership facts of `WellShaped` once `x` leaves `A` for the released set. */
  lemma ReleaseMembership(F: seq<nat>, A: seq<nat>, R: set<nat>, top: nat, slots: nat, x: nat)
    requires Disjoint(F, A)
    requires forall y | y in A :: y < top && y !in R
    requires forall i | i in R :: slots <= i < top
    requires slots <= x < top && x !in Remove(A, x)
    ensures Disjoint(F, Remove(A, x))
    ensures forall y | y in Remove(A, x) :: y < top && y !in R + {x}
    ensures forall i | i in R + {x} :: slots <= i < top
    ensures forall i: nat | i !in F && i !in Remove(A, x) && i !in R + {x} :: i !in A
  {
  }

  /** Unlinking `x` and pushing it in front of `F` keeps both lists threaded. */
  lemma RecycleKeepsThreaded(F: seq<nat>, A: seq<nat>, P: seq<int>, N: seq<int>, x: nat)
    requires Threaded(F, P, N) && Threaded(A, P, N) && Disjoint(F, A)
    requires x < |P| && x !in F && (x !in A ==> P[x] == Nil && N[x] == Nil)
    ensures LinksInRange(P, N, x) && (F != [] ==> F[0] < |P|)
    ensures Head(Remove(A, x)) == if Head(A) == x then N[x] else Head(A)
    ensures x !in Remove(A, x)
    ensures var P1, N1 := PrevAfterUnlink(P, N, x), NextAfterUnlink(P, N, x);
      && Threaded([x] + F, PrevAfterPush(F, P1, x), NextAfterPush(F, N1, x))
      && Threaded(Remove(A, x), PrevAfterPush(F, P1, x), NextAfterPush(F, N1, x))
      && forall i: nat | i < |P| && i != x && i !in A && (F == [] || i != F[0]) ::
           PrevAfterPush(F, P1, x)[i] == P[i] && NextAfterPush(F, N1, x)[i] == N[i]
  {
    ThreadedHasNoDuplicates(F, P, N);
    ThreadedHasNoDuplicates(A, P, N);
    UnlinkKeepsShape(F, A, P, N, x);
    var P1, N1 := PrevAfterUnlink(P, N, x), NextAfterUnlink(P, N, x);
    var A' := Remove(A, x);
    var P2, N2 := PrevAfterPush(F, P1, x), NextAfterPush(F, N1, x);
    assert Threaded([x] + F, P2, N2) by {
      PushKeepsThreaded(F, P1, N1, x);
    }
    assert Threaded(A', P2, N2) by {
      var P1' := if F != [] then P1[F[0] := x] else P1;
      if F != [] {
        assert F[0] !in A';
        ThreadedSetPrev(A', P1, N1, F[0], x);
      }
      ThreadedSetPrev(A', P1', N1, x, Nil);
      ThreadedSetNext(A', P2, N1, x, Head(F));
    }
  }

  /** `put_memory` of a cell that stays in the pool: it moves to the head of the free list. */
  lemma PutFreeKeepsShape(F: seq<nat>, A: seq<nat>, R: set<nat>, P: seq<int>, N: seq<int>, top: nat, slots: nat,
                          x: nat)
    requires WellShaped(F, A, R, P, N, top, slots)
    requires x < top && x !in F && x !in R
    ensures LinksInRange(P, N, x) && (F != [] ==> F[0] < |P|)
    ensures Head(Remove(A, x)) == if Head(A) == x then N[x] else Head(A)
    ensures WellShaped([x] + F, Remove(A, x), R,
      PrevAfterPush(F, PrevAfterUnlink(P, N, x), x), NextAfterPush(F, NextAfterUnlink(P, N, x), x), top, slots)
  {
    assert x !in A ==> P[x] == Nil && N[x] == Nil;
    RecycleKeepsThreaded(F, A, P, N, x);
    var A' := Remove(A, x);
    assert forall y | y in [x] + F :: y == x || y in F;
    assert Disjoint([x] + F, A');
  }

  class Pool<T> {
    /** Number of cells that belong to the static record array. */
    const slots: nat
    const prev: array<int>
    const next: array<int>
    const isDynamic: array<bool>
    const data: array<DataRef>
    /** The record each item's `data` designates, indexed by item. */
    const records: array<T>
    /** The record `memset(data, 0, element_size)` leaves behind. */
    const zero: T
    /** Whether the build defines `RMW_ERTPS_ALLOW_DYNAMIC_ALLOCATIONS`. */
    const dynamicCompiled: bool

    var allocatedItems: int
    var freeItems: int
    var elementSize: nat
    var isInitialized: bool
    var isDynamicAllowed: bool
    /** First arena cell the allocator has never handed out. */
    var heapTop: nat

    ghost var Free: seq<nat>
    ghost var Allocated: seq<nat>
    /** Heap cells given back to the allocator by `put_memory`. */
    ghost var Released: set<nat>

    ghost function Repr(): set<object>
    {
      {this, prev, next, isDynamic, data, records}
    }

    function Capacity(): nat
    {
      prev.Length
    }

    /** A live cell of the arena that lies in neither list. */
    ghost predicate Unlinked(i: nat)
      reads this
    {
      i < heapTop && i !in Free && i !in Allocated && i !in Released
    }

    ghost predicate Valid()
      reads this, prev, next, isDynamic
    {
      && next.Length == prev.Length && isDynamic.Length == prev.Length
      && data.Length == prev.Length && records.Length == prev.Length
      && prev != next
      && (records as object) != (prev as object) && (records as object) != (next as object)
      && (records as object) != (isDynamic as object) && (records as object) != (data as object)
      && freeItems == Head(Free) && allocatedItems == Head(Allocated)
      && WellShaped(Free, Allocated, Released, prev[..], next[..], heapTop, slots)
      && (forall i | 0 <= i < slots :: !isDynamic[i])
      && (!isInitialized ==>
            Free == [] && Allocated == [] && heapTop == slots && Released == {} && !isDynamicAllowed)
    }

    /** The part of `Valid` that a walk of the allocated list from its head relies on. */
    ghost predicate Walkable()
      reads this, prev, next
    {
      && records.Length == prev.Length
      && allocatedItems == Head(Allocated)
      && Threaded(Allocated, prev[..], next[..])
    }

    /** The zero-initialised pool descriptor and record array of a C global. */
    constructor (slots: nat, capacity: nat, zero: T, dynamicCompiled: bool)
      requires slots <= capacity
      ensures Valid() && fresh(Repr() - {this})
      ensures this.slots == slots && Capacity() == capacity
      ensures this.zero == zero && this.dynamicCompiled == dynamicCompiled
      ensures !isInitialized && elementSize == 0 && !isDynamicAllowed
      ensures Free == [] && Allocated == [] && Released == {}
      ensures forall i | 0 <= i < capacity :: data[i] == NoData && records[i] == zero && !isDynamic[i]
    {
      this.slots := slots;
      this.zero := zero;
      this.dynamicCompiled := dynamicCompiled;
      prev := new int[capacity](_ => Nil);
      next := new int[capacity](_ => Nil);
      isDynamic := new bool[capacity](_ => false);
      data := new DataRef[capacity](_ => NoData);
      records := new T[capacity](_ => zero);
      allocatedItems := Nil;
      freeItems := Nil;
      elementSize := 0;
      isInitialized := false;
      isDynamicAllowed := false;
      heapTop := slots;
      Free := [];
      Allocated := [];
      Released := {};
    }

    /** `has_memory`: whether the free list is non-empty. */
    function HasMemory(): (r: bool)
      requires Valid()
      reads this, prev, next, isDynamic
      ensures r <==> Free != []
    {
      freeItems != Nil
    }

    /** Whether the dynamic-growth path of `get_memory` can produce an item. */
    ghost predicate CanGrow()
      reads this
    {
      isDynamicAllowed && dynamicCompiled && heapTop < Capacity()
    }

    /** The item `get_memory` hands out next, or NULL. */
    ghost function NextItem(): int
      reads this
    {
      if Free != [] then Free[0] else if CanGrow() then heapTop else Nil
    }

    /**
     * No item of the free list is one that `put_memory` would give back to
     * the allocator: dynamic items only pass through the free list inside
     * the growth path.
     */
    ghost predicate Recyclable()
      reads this, isDynamic
    {
      forall y | y in Free :: y < isDynamic.Length && !(dynamicCompiled && isDynamic[y])
    }

    /** The growth flags are not written between the two states, so their contents read the same. */
    twostate lemma DynamicKept()
      requires unchanged(isDynamic)
      ensures isDynamic[..] == old(isDynamic[..])
    {
    }

    /**
     * The pool's settings, which neither `get_memory` nor `put_memory`
     * changes: the element size, the initialisation flag and whether
     * dynamic growth is allowed.
     */
    twostate predicate SettingsKept()
      reads this
    {
      Config() == old(Config())
    }

    ghost function Config(): PoolSettings
      reads this
    {
      PoolSettings(elementSize, isInitialized, isDynamicAllowed)
    }

    /**
     * What `get_memory` changes besides the lists, seen from the item it
     * answered (`Nil` for none): the settings stay, the heap top moves up
     * by one exactly when the free list was empty and an item was
     * answered, that grown item is marked dynamic and holds a fresh block
     * of `element_size` bytes, and every other item keeps its growth flag
     * and its data block.
     */
    twostate predicate GrowthFrame(item: int)
      reads this, isDynamic, data
    {
      var grown := old(Free) == [] && item != Nil;
      && SettingsKept()
      && heapTop == old(heapTop) + (if grown then 1 else 0)
      && (grown ==> 0 <= item < isDynamic.Length && item < data.Length
                    && isDynamic[item] && data[item] == HeapBlock(elementSize))
      && forall i | 0 <= i < isDynamic.Length && i < data.Length && (i != item || !grown) ::
           isDynamic[i] == old(isDynamic[i]) && data[i] == old(data[i])
    }

    /** Whether `put_memory(item)` gives the item back to the allocator. */
    ghost predicate Releases(item: nat)
      requires item < isDynamic.Length
      reads this, isDynamic
    {
      dynamicCompiled && isDynamic[item]
    }

    /**
     * The first half of `get_memory`'s fast path: advances the free head to
     * the successor of `item`, which loses its predecessor.
     */
    method PopFree(item: nat)
      requires item < prev.Length == next.Length && prev != next
      requires next[item] == Nil || 0 <= next[item] < prev.Length
      modifies this`freeItems, prev
      ensures freeItems == next[item]
      ensures prev[..] == if freeItems != Nil then old(prev[..])[freeItems := Nil] else old(prev[..])
    {
      freeItems := next[item];
      if freeItems != Nil {
        prev[freeItems] := Nil;
      }
    }

    /**
     * Threads `item` in front of the list whose head is `head`: the step
     * shared by the second half of `get_memory` and the end of `put_memory`.
     * The caller then makes `item` the head.
     */
    method LinkFront(item: nat, head: int)
      requires item < prev.Length == next.Length && prev != next
      requires head == Nil || 0 <= head < prev.Length
      modifies prev, next
      ensures next[..] == old(next[..])[item := head]
      ensures prev[..] == (if head != Nil then old(prev[..])[head := item] else old(prev[..]))[item := Nil]
    {
      next[item] := head;
      if next[item] != Nil {
        prev[next[item]] := item;
      }
      prev[item] := Nil;
    }

    /** The first step of `put_memory`: the neighbours of `item` skip it. */
    method Unlink(item: nat)
      requires LinksInRange(prev[..], next[..], item) && prev != next
      modifies prev, next
      ensures prev[..] == PrevAfterUnlink(old(prev[..]), old(next[..]), item)
      ensures next[..] == NextAfterUnlink(old(prev[..]), old(next[..]), item)
    {
      if prev[item] != Nil {
        next[prev[item]] := next[item];
      }
      if next[item] != Nil {
        prev[next[item]] := prev[item];
      }
    }

    /** The pointer surgery of `get_memory`'s fast path, and the lists it leaves. */
    method MoveFreeHead() returns (item: nat)
      requires Free != [] && freeItems == Free[0] && allocatedItems == Head(Allocated)
      requires Free[0] < prev.Length == next.Length && prev != next
      requires next[Free[0]] == Head(Free[1..]) && (|Free| > 1 ==> Free[1] < prev.Length)
      requires Allocated != [] ==> Allocated[0] < prev.Length
      modifies this`freeItems, this`allocatedItems, this`Free, this`Allocated, prev, next
      ensures item == old(Free[0])
      ensures prev[..] == PrevAfterPush(old(Allocated), PrevAfterPop(old(Free), old(prev[..])), item)
      ensures next[..] == NextAfterPush(old(Allocated), old(next[..]), item)
      ensures Free == old(Free[1..]) && Allocated == [item] + old(Allocated)
      ensures freeItems == Head(Free) && allocatedItems == item
    {
      item := freeItems;
      PopFree(item);
      LinkFront(item, allocatedItems);
      allocatedItems := item;
      Free := Free[1..];
      Allocated := [item] + Allocated;
    }

    /**
     * `get_memory`'s fast path: the head of the free list moves to the head
     * of the allocated list.
     */
    method TakeFree() returns (item: nat)
      requires Valid() && Free != []
      modifies this`freeItems, this`allocatedItems, this`Free, this`Allocated, prev, next
      ensures Valid()
      ensures item == old(Free[0])
      ensures Free == old(Free[1..]) && Allocated == [item] + old(Allocated)
    {
      ghost var F, A, P, N := Free, Allocated, prev[..], next[..];
      GetKeepsShape(F, A, Released, P, N, heapTop, slots);
      item := MoveFreeHead();
      assert WellShaped(Free, Allocated, Released, prev[..], next[..], heapTop, slots);
    }

    /**
     * The growth path's two `rmw_allocate` calls and the initialisation that
     * follows them: a fresh heap item with NULL links, a zeroed data block of
     * `element_size` bytes, and `is_dynamic_memory` cleared so that
     * `put_memory` files it in the free list.
     */
    method AllocateItem() returns (item: nat)
      requires Valid() && CanGrow()
      modifies this`heapTop, prev, next, isDynamic, data, records
      ensures Valid() && item == old(heapTop) && heapTop == item + 1 && Unlinked(item)
      ensures data[item] == HeapBlock(elementSize) && records[item] == zero && !isDynamic[item]
      ensures forall i | 0 <= i < Capacity() && i != item ::
        isDynamic[i] == old(isDynamic[i]) && data[i] == old(data[i]) && records[i] == old(records[i])
    {
      GrowKeepsShape(Free, Allocated, Released, prev[..], next[..], heapTop, slots);
      item := heapTop;
      prev[item] := Nil;
      next[item] := Nil;
      data[item] := HeapBlock(elementSize);
      records[item] := zero;
      isDynamic[item] := false;
      heapTop := heapTop + 1;
    }

    /**
     * The first half of `put_memory`: `item`'s neighbours skip it, and the
     * allocated head advances past it if it was that head.
     */
    method Detach(item: nat)
      requires LinksInRange(prev[..], next[..], item) && prev != next
      modifies this`allocatedItems, this`Allocated, prev, next
      ensures prev[..] == PrevAfterUnlink(old(prev[..]), old(next[..]), item)
      ensures next[..] == NextAfterUnlink(old(prev[..]), old(next[..]), item)
      ensures allocatedItems == if old(allocatedItems) == item then old(next[item]) else old(allocatedItems)
      ensures Allocated == Remove(old(Allocated), item)
    {
      Unlink(item);
      if allocatedItems == item {
        allocatedItems := next[item];
      }
      Allocated := Remove(Allocated, item);
    }

    /** Both halves of `put_memory` for an item given back to the allocator. */
    method DetachAndRelease(item: nat)
      requires LinksInRange(prev[..], next[..], item) && prev != next
      modifies this`allocatedItems, this`Allocated, this`Released, prev, next
      ensures prev[..] == PrevAfterUnlink(old(prev[..]), old(next[..]), item)
      ensures next[..] == NextAfterUnlink(old(prev[..]), old(next[..]), item)
      ensures allocatedItems == if old(allocatedItems) == item then old(next[item]) else old(allocatedItems)
      ensures Allocated == Remove(old(Allocated), item) && Released == old(Released) + {item}
    {
      Detach(item);
      Released := Released + {item};
    }

    /** Both halves of `put_memory` for an item that stays in the pool. */
    method DetachAndPush(item: nat)
      requires LinksInRange(prev[..], next[..], item) && prev != next
      requires freeItems == Head(Free) && (Free != [] ==> Free[0] < prev.Length)
      modifies this`allocatedItems, this`Allocated, this`freeItems, this`Free, prev, next
      ensures prev[..] == PrevAfterPush(old(Free), PrevAfterUnlink(old(prev[..]), old(next[..]), item), item)
      ensures next[..] == NextAfterPush(old(Free), NextAfterUnlink(old(prev[..]), old(next[..]), item), item)
      ensures allocatedItems == if old(allocatedItems) == item then old(next[item]) else old(allocatedItems)
      ensures Allocated == Remove(old(Allocated), item)
      ensures freeItems == item && Free == [item] + old(Free)
    {
      Detach(item);
      PushFree(item);
    }

    /** The second half of `put_memory` for an item that stays: it becomes the free head. */
    method PushFree(item: nat)
      requires item < prev.Length == next.Length && prev != next
      requires freeItems == Head(Free) && (Free != [] ==> Free[0] < prev.Length)
      modifies this`freeItems, this`Free, prev, next
      ensures freeItems == item && Free == [item] + old(Free)
      ensures prev[..] == PrevAfterPush(old(Free), old(prev[..]), item)
      ensures next[..] == NextAfterPush(old(Free), old(next[..]), item)
    {
      LinkFront(item, freeItems);
      freeItems, Free := item, [item] + Free;
    }

    /**
     * `get_memory`. A non-empty free list gives up its head, which becomes
     * the head of the allocated list. Otherwise, when dynamic allocation is
     * both compiled in and allowed, a fresh heap item with a zeroed record
     * is enrolled through `put_memory` and claimed by a second call.
     */
    method Get() returns (item: int)
      requires Valid()
      modifies Repr()
      decreases if Free == [] then 1 else 0, 1
      ensures Valid()
      ensures item == old(NextItem())
      ensures item == Nil ==> Free == old(Free) && Allocated == old(Allocated) && heapTop == old(heapTop)
      ensures item != Nil ==> Allocated == [item] + old(Allocated)
      ensures old(Free) != [] ==> Free == old(Free)[1..] && heapTop == old(heapTop)
      ensures old(Free) == [] ==> Free == []
      ensures old(Free) == [] && item != Nil ==>
        heapTop == old(heapTop) + 1 && isDynamic[item] &&
        data[item] == HeapBlock(elementSize) && records[item] == zero
      ensures forall i | 0 <= i < Capacity() && (i != item || old(Free) != []) ::
        isDynamic[i] == old(isDynamic[i]) && data[i] == old(data[i]) && records[i] == old(records[i])
      ensures Released == old(Released) && elementSize == old(elementSize)
      ensures isInitialized == old(isInitialized) && isDynamicAllowed == old(isDynamicAllowed)
    {
      item := Nil;
      if HasMemory() {
        item := TakeFree();
      } else if isDynamicAllowed && dynamicCompiled && heapTop < prev.Length {
        item := Grow();
      }
    }

    /**
     * The growth path of `get_memory`, compiled only with
     * `RMW_ERTPS_ALLOW_DYNAMIC_ALLOCATIONS`: a freshly allocated item is
     * filed in the free list by `put_memory`, marked dynamic, and claimed by
     * a second `get_memory`.
     */
    method Grow() returns (item: int)
      requires Valid() && Free == [] && CanGrow()
      modifies Repr()
      decreases 1, 0
      ensures Valid()
      ensures item == old(heapTop) && heapTop == old(heapTop) + 1
      ensures Free == [] && Allocated == [item] + old(Allocated)
      ensures isDynamic[item] && data[item] == HeapBlock(elementSize) && records[item] == zero
      ensures forall i | 0 <= i < Capacity() && i != item ::
        isDynamic[i] == old(isDynamic[i]) && data[i] == old(data[i]) && records[i] == old(records[i])
      ensures Released == old(Released) && elementSize == old(elementSize)
      ensures isInitialized == old(isInitialized) && isDynamicAllowed == old(isDynamicAllowed)
    {
      var filed := FileDynamic();
      item := Get();
    }

    /**
     * The first two steps of `get_memory`'s growth path: a freshly
     * allocated item, marked dynamic, is the whole free list.
     */
    method FileDynamic() returns (item: nat)
      requires Valid() && Free == [] && CanGrow()
      modifies this, prev, next, isDynamic, data, records
      ensures Valid() && item == old(heapTop) && heapTop == item + 1
      ensures Free == [item] && Allocated == old(Allocated)
      ensures isDynamic[item] && data[item] == HeapBlock(elementSize) && records[item] == zero
      ensures forall i | 0 <= i < Capacity() && i != item ::
        isDynamic[i] == old(isDynamic[i]) && data[i] == old(data[i]) && records[i] == old(records[i])
      ensures Released == old(Released) && elementSize == old(elementSize)
      ensures isInitialized == old(isInitialized) && isDynamicAllowed == old(isDynamicAllowed)
    {
      item := AllocateItem();
      Put(item);
      isDynamic[item] := true;
    }

    /**
     * `put_memory`. Unlinks `item` by patching its neighbours and advances
     * the allocated head if it pointed at `item`. A dynamic item is then
     * freed; any other item becomes the new head of the free list.
     * Only the allocated head is repaired, so `item` must be in the
     * allocated list or in no list at all.
     */
    method Put(item: nat)
      requires Valid() && isInitialized
      requires item in Allocated || Unlinked(item)
      modifies this, prev, next
      ensures Valid()
      ensures Allocated == Remove(old(Allocated), item)
      ensures Free == if old(Releases(item)) then old(Free) else [item] + old(Free)
      ensures Released == if old(Releases(item)) then old(Released) + {item} else old(Released)
      ensures heapTop == old(heapTop) && elementSize == old(elementSize)
      ensures isInitialized == old(isInitialized) && isDynamicAllowed == old(isDynamicAllowed)
    {
      if dynamicCompiled && isDynamic[item] {
        PutRelease(item);
      } else {
        PutRecycle(item);
      }
    }

    /**
     * `put_memory` of a dynamic item: unlinked, then given back to the
     * allocator. The test of `is_dynamic_memory` does not depend on the
     * unlinking, so the two branches of `put_memory` are written as two
     * methods that each unlink first.
     */
    method PutRelease(item: nat)
      requires Valid() && isInitialized
      requires item in Allocated || Unlinked(item)
      requires item < isDynamic.Length && Releases(item)
      modifies this`allocatedItems, this`Allocated, this`Released, prev, next
      ensures Valid()
      ensures Allocated == Remove(old(Allocated), item)
      ensures Free == old(Free) && Released == old(Released) + {item}
    {
      ghost var F, A, R, P, N := Free, Allocated, Released, prev[..], next[..];
      assert slots <= item < heapTop && item !in F && item !in R;
      PutReleaseKeepsShape(F, A, R, P, N, heapTop, slots, item);
      DetachAndRelease(item);
      assert WellShaped(Free, Allocated, Released, prev[..], next[..], heapTop, slots);
    }

    /** `put_memory` of an item that stays in the pool: unlinked, then pushed on the free list. */
    method PutRecycle(item: nat)
      requires Valid() && isInitialized
      requires item in Allocated || Unlinked(item)
      modifies this`allocatedItems, this`Allocated, this`freeItems, this`Free, prev, next
      ensures Valid()
      ensures Allocated == Remove(old(Allocated), item)
      ensures Free == [item] + old(Free)
    {
      ghost var F, A, R, P, N := Free, Allocated, Released, prev[..], next[..];
      assert item < heapTop && item !in F && item !in R;
      PutFreeKeepsShape(F, A, R, P, N, heapTop, slots, item);
      DetachAndPush(item);
      assert WellShaped(Free, Allocated, Released, prev[..], next[..], heapTop, slots);
    }
  }
}
