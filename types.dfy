/**
 * The records kept in the shim's pools, the pools themselves as the set of
 * process-wide globals, the pool initialiser, and the lookup of a claimed
 * input buffer by its owner.
 */
module Types {
  import opened Common
  import opened Memory

  /** The three kinds of entity that receive data. */
  datatype EntityKind = ServiceEntity | ClientEntity | SubscriptionEntity

  /**
   * The `void *owner` of an input buffer: NULL, or the entity record that
   * sits in cell `cell` of the pool for `kind`.
   */
  datatype Owner = NoOwner | OwnedBy(kind: EntityKind, cell: nat)

  /** The identity of an RTPS reader, as the `rtps::Reader *` the engine holds. */
  type ReaderId = nat

  /**
   * The fields of `rmw_ertps_service_t`, `rmw_ertps_client_t` and
   * `rmw_ertps_subscription_t` that the receive path reads and writes: the
   * RTPS reader the entity listens on (NULL in a zeroed record) and the
   * `has_data` flag.
   */
  datatype Endpoint = Endpoint(reader: Option<ReaderId>, hasData: bool)

  /**
   * `rmw_ertps_static_input_buffer_t`: a received sample's bytes, its
   * length, the entity it was delivered to, and the sender and related
   * GUIDs and sequence numbers of the change.
   */
  datatype InputBuffer = InputBuffer(
    buffer: seq<byte>,
    length: size_t,
    owner: Owner,
    writerGuid: Guid,
    sequenceNumber: SequenceNumber,
    relatedWriterGuid: Guid,
    relatedSequenceNumber: SequenceNumber)

  /** The order in which the initialiser leaves the cells `0 .. n-1` on the free list. */
  function Descending(n: nat): (s: seq<nat>)
    ensures |s| == n
    ensures forall k | 0 <= k < n :: s[k] == n - 1 - k
    ensures forall i :: i in s <==> 0 <= i < n
  {
    if n == 0 then [] else [n - 1] + Descending(n - 1)
  }

  /** Enrolling cell `n` at the head extends the descending order by one. */
  lemma DescendingStep(n: nat)
    ensures Descending(n + 1) == [n] + Descending(n)
  {
  }

  /**
   * `RMW_INIT_MEMORY(X)`. On a pool that is not yet initialised and a
   * non-empty array, it sets the pool's scalars, then hands every array cell
   * to `put_memory` in array order and points the cell's `data` at its own
   * record. Because `put_memory` pushes at the head, the free list ends in
   * reverse array order. Otherwise nothing changes.
   */
  method InitMemory<T>(memory: Pool<T>, size: nat, elementSize: nat)
    requires memory.Valid() && size <= memory.slots
    modifies memory, memory.prev, memory.next, memory.data, memory.isDynamic
    ensures memory.Valid()
    ensures old(memory.isInitialized) || size == 0 ==>
      && memory.isInitialized == old(memory.isInitialized)
      && memory.elementSize == old(memory.elementSize)
      && memory.isDynamicAllowed == old(memory.isDynamicAllowed)
      && memory.Free == old(memory.Free) && memory.Allocated == old(memory.Allocated)
      && memory.data[..] == old(memory.data[..]) && memory.isDynamic[..] == old(memory.isDynamic[..])
      && memory.prev[..] == old(memory.prev[..]) && memory.next[..] == old(memory.next[..])
    ensures !old(memory.isInitialized) && size > 0 ==>
      && memory.isInitialized && memory.elementSize == elementSize && memory.isDynamicAllowed
      && memory.Allocated == [] && memory.Free == Descending(size) && memory.Recyclable()
      && (forall i | 0 <= i < size :: memory.data[i] == StaticRecord(i) && !memory.isDynamic[i])
      && (forall i | size <= i < memory.Capacity() :: memory.data[i] == old(memory.data[i]))
    ensures memory.heapTop == old(memory.heapTop) && memory.Released == old(memory.Released)
  {
    if size > 0 && !memory.isInitialized {
      StartInit(memory, elementSize);
      EnrolAll(memory, size);
    }
  }

  /**
   * The initialiser's loop over the array cells `0 .. size-1`, each handed
   * to `put_memory` in array order, on a pool whose lists are empty.
   */
  method EnrolAll<T>(memory: Pool<T>, size: nat)
    requires memory.Valid() && memory.isInitialized && size <= memory.slots
    requires memory.Free == [] && memory.Allocated == [] && memory.Released == {}
    requires memory.heapTop == memory.slots
    modifies memory, memory.prev, memory.next, memory.data, memory.isDynamic
    ensures memory.Valid() && memory.isInitialized
    ensures memory.elementSize == old(memory.elementSize) && memory.isDynamicAllowed == old(memory.isDynamicAllowed)
    ensures memory.Allocated == [] && memory.Free == Descending(size) && memory.Recyclable()
    ensures forall i | 0 <= i < size :: memory.data[i] == StaticRecord(i) && !memory.isDynamic[i]
    ensures forall i | size <= i < memory.Capacity() :: memory.data[i] == old(memory.data[i])
    ensures memory.heapTop == old(memory.heapTop) && memory.Released == {}
  {
    for i := 0 to size
      invariant memory.Valid() && memory.isInitialized
      invariant memory.elementSize == old(memory.elementSize) && memory.isDynamicAllowed == old(memory.isDynamicAllowed)
      invariant memory.Allocated == [] && memory.Free == Descending(i)
      invariant memory.heapTop == old(memory.heapTop) == memory.slots
      invariant memory.Released == {}
      invariant forall j | 0 <= j < i :: memory.data[j] == StaticRecord(j)
      invariant forall j | i <= j < memory.Capacity() :: memory.data[j] == old(memory.data[j])
    {
      EnrolStatic(memory, i);
      DescendingStep(i);
    }
  }

  /**
   * The initialiser's prologue: the pool records that it is initialised,
   * the size of its elements, two empty lists, and that it may grow.
   */
  method StartInit<T>(memory: Pool<T>, elementSize: nat)
    requires memory.Valid() && !memory.isInitialized
    modifies memory`isInitialized, memory`elementSize, memory`allocatedItems, memory`freeItems,
             memory`isDynamicAllowed
    ensures memory.Valid() && memory.isInitialized
    ensures memory.elementSize == elementSize && memory.isDynamicAllowed
    ensures memory.Free == [] && memory.Allocated == [] && memory.Released == {}
    ensures memory.heapTop == memory.slots
  {
    memory.isInitialized := true;
    memory.elementSize := elementSize;
    memory.allocatedItems := Nil;
    memory.freeItems := Nil;
    memory.isDynamicAllowed := true;
  }

  /**
   * One round of the initialiser's loop: `put_memory` on the `i`-th array
   * cell, whose `data` then points at its own record.
   */
  method EnrolStatic<T>(memory: Pool<T>, i: nat)
    requires memory.Valid() && memory.isInitialized
    requires i < memory.slots == memory.heapTop && memory.Released == {}
    requires memory.Allocated == [] && i !in memory.Free
    modifies memory, memory.prev, memory.next, memory.data, memory.isDynamic
    ensures memory.Valid()
    ensures memory.Allocated == [] && memory.Free == [i] + old(memory.Free)
    ensures memory.data[i] == StaticRecord(i)
    ensures forall j | 0 <= j < memory.Capacity() && j != i :: memory.data[j] == old(memory.data[j])
    ensures memory.heapTop == old(memory.heapTop) && memory.Released == old(memory.Released)
    ensures memory.isInitialized && memory.elementSize == old(memory.elementSize)
    ensures memory.isDynamicAllowed == old(memory.isDynamicAllowed)
  {
    memory.Put(i);
    memory.data[i] := StaticRecord(i);
    memory.isDynamic[i] := false;
  }

  /**
   * The first item of the list `s` whose input buffer belongs to `owner`,
   * or NULL.
   */
  function FirstOwned(s: seq<nat>, records: seq<InputBuffer>, owner: Owner): (r: int)
    requires forall k | 0 <= k < |s| :: s[k] < |records|
    ensures r == Nil <==> forall k | 0 <= k < |s| :: records[s[k]].owner != owner
    ensures r != Nil ==> exists k | 0 <= k < |s| ::
      && s[k] == r && records[r].owner == owner
      && forall j | 0 <= j < k :: records[s[j]].owner != owner
  {
    if s == [] then Nil
    else if records[s[0]].owner == owner then s[0]
    else
      var r := FirstOwned(s[1..], records, owner);
      assert forall k | 0 < k < |s| :: s[1..][k - 1] == s[k];
      r
  }

  /**
   * Because a claim puts a buffer at the head of the allocated list, the
   * lookup finds the buffer that was claimed last for that owner.
   */
  lemma FirstOwnedFindsLatestClaim(item: nat, s: seq<nat>, records: seq<InputBuffer>, owner: Owner)
    requires item < |records| && forall k | 0 <= k < |s| :: s[k] < |records|
    requires records[item].owner == owner
    ensures FirstOwned([item] + s, records, owner) == item
  {
  }

  /** The items of the list `s` whose input buffers belong to `owner`, in list order. */
  ghost function OwnedItems(s: seq<nat>, records: seq<InputBuffer>, owner: Owner): (r: seq<nat>)
    requires forall k | 0 <= k < |s| :: s[k] < |records|
    ensures |r| <= |s|
    ensures forall k | 0 <= k < |r| :: r[k] < |records| && records[r[k]].owner == owner
  {
    if s == [] then []
    else
      assert forall k | 0 < k < |s| :: s[1..][k - 1] == s[k];
      (if records[s[0]].owner == owner then [s[0]] else []) + OwnedItems(s[1..], records, owner)
  }

  /** `r` is `s` with some items left out, the others kept in order. */
  ghost predicate Subsequence(r: seq<nat>, s: seq<nat>)
    decreases |s|
  {
    r == [] || (s != [] && if r[0] == s[0] then Subsequence(r[1..], s[1..]) else Subsequence(r, s[1..]))
  }

  /**
   * The owner's buffers are exactly the items of the list whose records
   * name the owner, kept in list order.
   */
  lemma {:induction false} OwnedItemsExact(s: seq<nat>, records: seq<InputBuffer>, owner: Owner)
    requires forall k | 0 <= k < |s| :: s[k] < |records|
    ensures forall x :: x in OwnedItems(s, records, owner) <==> x in s && x < |records| && records[x].owner == owner
    ensures Subsequence(OwnedItems(s, records, owner), s)
  {
    if s != [] {
      assert forall k | 0 < k < |s| :: s[1..][k - 1] == s[k];
      OwnedItemsExact(s[1..], records, owner);
      var r := OwnedItems(s, records, owner);
      var tail := OwnedItems(s[1..], records, owner);
      assert s == [s[0]] + s[1..];
      if records[s[0]].owner == owner {
        assert r == [s[0]] + tail && r[1..] == tail;
      } else {
        assert r == tail;
        assert r != [] ==> r[0] in tail && r[0] != s[0];
      }
    }
  }

  /**
   * The pool is sound, still holds `records`, and the buffers it lends to
   * `owner` are `rest`, newest first.
   */
  ghost predicate Holding(buffers: Pool<InputBuffer>, records: seq<InputBuffer>, owner: Owner, rest: seq<nat>)
    reads buffers, buffers.prev, buffers.next, buffers.isDynamic, buffers.records
  {
    && buffers.Valid() && buffers.Recyclable() && buffers.records[..] == records
    && OwnedItems(buffers.Allocated, records, owner) == rest
  }

  /** The lookup by owner answers the first of the owner's buffers. */
  lemma {:induction false} FirstOwnedHeadsOwnedItems(s: seq<nat>, records: seq<InputBuffer>, owner: Owner)
    requires forall k | 0 <= k < |s| :: s[k] < |records|
    ensures FirstOwned(s, records, owner) == Head(OwnedItems(s, records, owner))
  {
    if s != [] {
      assert forall k | 0 < k < |s| :: s[1..][k - 1] == s[k];
      FirstOwnedHeadsOwnedItems(s[1..], records, owner);
    }
  }

  /** The owner's buffers of a list with one more item in front. */
  lemma OwnedItemsCons(x: nat, t: seq<nat>, records: seq<InputBuffer>, owner: Owner)
    requires x < |records| && forall k | 0 <= k < |t| :: t[k] < |records|
    ensures forall k | 0 <= k < |[x] + t| :: ([x] + t)[k] < |records|
    ensures OwnedItems([x] + t, records, owner)
            == (if records[x].owner == owner then [x] else []) + OwnedItems(t, records, owner)
  {
    assert ([x] + t)[1..] == t;
  }

  /**
   * Once the item the lookup found is taken out of the list, the owner's
   * remaining buffers are the others, in the same order: successive takes
   * drain an owner's buffers newest first.
   */
  lemma {:induction false} RemovingFirstOwned(s: seq<nat>, records: seq<InputBuffer>, owner: Owner)
    requires forall k | 0 <= k < |s| :: s[k] < |records|
    requires FirstOwned(s, records, owner) != Nil
    ensures var t := Remove(s, FirstOwned(s, records, owner));
      && (forall k | 0 <= k < |t| :: t[k] < |records|)
      && OwnedItems(s, records, owner) != []
      && OwnedItems(t, records, owner) == OwnedItems(s, records, owner)[1..]
  {
    var x, rest := s[0], s[1..];
    assert s == [x] + rest;
    OwnedItemsCons(x, rest, records, owner);
    if records[x].owner != owner {
      var first := FirstOwned(rest, records, owner);
      assert FirstOwned(s, records, owner) == first;
      RemovingFirstOwned(rest, records, owner);
      assert records[first].owner == owner;
      assert Remove(s, first) == [x] + Remove(rest, first);
      OwnedItemsCons(x, Remove(rest, first), records, owner);
    } else {
      assert Remove(s, x) == rest;
      assert OwnedItems(s, records, owner)[1..] == OwnedItems(rest, records, owner);
    }
  }

  /** Both facts the take paths need about the lookup and the removal that follows it. */
  lemma TakingFirstOwned(s: seq<nat>, records: seq<InputBuffer>, owner: Owner)
    requires forall k | 0 <= k < |s| :: s[k] < |records|
    ensures FirstOwned(s, records, owner) == Head(OwnedItems(s, records, owner))
    ensures var first := FirstOwned(s, records, owner);
      first != Nil ==>
        && (forall k | 0 <= k < |Remove(s, first)| :: Remove(s, first)[k] < |records|)
        && OwnedItems(Remove(s, first), records, owner) == OwnedItems(s, records, owner)[1..]
  {
    FirstOwnedHeadsOwnedItems(s, records, owner);
    if FirstOwned(s, records, owner) != Nil {
      RemovingFirstOwned(s, records, owner);
    }
  }

  /** The owners of the input buffers listed in `s`. */
  ghost function Owners(s: seq<nat>, records: seq<InputBuffer>): set<Owner>
    requires forall k | 0 <= k < |s| :: s[k] < |records|
  {
    set k | 0 <= k < |s| :: records[s[k]].owner
  }

  /**
   * `rmw_ertps_find_static_input_buffer_by_owner`: walks the allocated
   * list of the input-buffer pool from its head and returns the first item
   * whose buffer belongs to `owner`, or NULL. It changes nothing.
   */
  method FindByOwner(buffers: Pool<InputBuffer>, owner: Owner) returns (item: int)
    requires buffers.Walkable()
    ensures item == FirstOwned(buffers.Allocated, buffers.records[..], owner)
    ensures item != Nil ==> item in buffers.Allocated
    ensures item == Nil <==> owner !in Owners(buffers.Allocated, buffers.records[..])
  {
    ghost var A := buffers.Allocated;
    ghost var records := buffers.records[..];
    ghost var rest: seq<nat> := A;
    ThreadedIsChained(A, buffers.prev[..], buffers.next[..], 0);
    assert A[0..] == A;
    item := buffers.allocatedItems;
    while item != Nil
      invariant Chained(rest, buffers.next[..]) && item == Head(rest)
      invariant forall j | 0 <= j < |rest| :: rest[j] < |records| && rest[j] in A
      invariant FirstOwned(A, records, owner) == FirstOwned(rest, records, owner)
      decreases |rest|
    {
      if buffers.records[item].owner == owner {
        return;
      }
      item := buffers.next[item];
      rest := rest[1..];
    }
  }
}
