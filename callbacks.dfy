/**
 * The receive dispatcher: the callback the RTPS engine invokes for every
 * change that a reader of a service, client or subscription accepts.
 */
module Callbacks {
  import opened Common
  import opened Memory
  import opened Types

  /** `rtps::ReaderCacheChange` as the dispatcher reads it. */
  datatype CacheChange = CacheChange(
    data: Bytes,
    writerGuid: Guid,
    sn: SequenceNumber,
    relatedWriterGuid: Guid,
    relatedSequenceNumber: SequenceNumber)

  /** The first item of the list `s` whose entity listens on `reader`, or NULL. */
  function FirstReading(s: seq<nat>, records: seq<Endpoint>, reader: ReaderId): (r: int)
    requires forall k | 0 <= k < |s| :: s[k] < |records|
    ensures r == Nil <==> forall k | 0 <= k < |s| :: records[s[k]].reader != Some(reader)
    ensures r != Nil ==> exists k | 0 <= k < |s| ::
      && s[k] == r && records[r].reader == Some(reader)
      && forall j | 0 <= j < k :: records[s[j]].reader != Some(reader)
  {
    if s == [] then Nil
    else if records[s[0]].reader == Some(reader) then s[0]
    else
      var r := FirstReading(s[1..], records, reader);
      assert forall k | 0 < k < |s| :: s[1..][k - 1] == s[k];
      r
  }

  /**
   * The scan of `inner_callback`: walks the allocated list of an entity pool
   * from its head to the first entity whose reader is `reader`.
   */
  method FindByReader(memory: Pool<Endpoint>, reader: ReaderId) returns (item: int)
    requires memory.Valid()
    ensures item == FirstReading(memory.Allocated, memory.records[..], reader)
  {
    ghost var A := memory.Allocated;
    ghost var records := memory.records[..];
    ghost var rest: seq<nat> := A;
    ThreadedIsChained(A, memory.prev[..], memory.next[..], 0);
    assert A[0..] == A;
    item := memory.allocatedItems;
    while item != Nil
      invariant Chained(rest, memory.next[..]) && item == Head(rest)
      invariant forall j | 0 <= j < |rest| :: rest[j] < |records|
      invariant FirstReading(A, records, reader) == FirstReading(rest, records, reader)
      decreases |rest|
    {
      if memory.records[item].reader == Some(reader) {
        return;
      }
      item := memory.next[item];
      rest := rest[1..];
    }
  }

  /**
   * The input buffer `b` once a claim by `owner` has recorded the change's
   * length, sender and related identities, before the payload is copied.
   */
  function Stamped(b: InputBuffer, owner: Owner, change: CacheChange): (r: InputBuffer)
    ensures Filled(r, owner, change, false)
    ensures r.buffer == b.buffer
  {
    b.(owner := owner, length := |change.data|,
       writerGuid := change.writerGuid, sequenceNumber := change.sn,
       relatedWriterGuid := change.relatedWriterGuid,
       relatedSequenceNumber := change.relatedSequenceNumber)
  }

  /**
   * A claimed input buffer records its owner, the change's length, sender
   * and related identities and, once the copy succeeded, the payload.
   */
  ghost predicate Filled(b: InputBuffer, owner: Owner, change: CacheChange, copied: bool)
  {
    && b.owner == owner && b.length == |change.data|
    && b.writerGuid == change.writerGuid && b.sequenceNumber == change.sn
    && b.relatedWriterGuid == change.relatedWriterGuid
    && b.relatedSequenceNumber == change.relatedSequenceNumber
    && (copied ==> b.buffer == change.data)
  }

  /**
   * A filled buffer is determined by the change except for its payload:
   * it is what stamping it yields, and what stamping any buffer and then
   * copying the payload in yields once the copy succeeded.
   */
  lemma FilledIsStamped(b: InputBuffer, x: InputBuffer, owner: Owner, change: CacheChange, copied: bool)
    ensures Filled(x, owner, change, copied) <==>
      x == Stamped(x, owner, change) && (copied ==> x.buffer == change.data)
    ensures Filled(Stamped(b, owner, change).(buffer := change.data), owner, change, true)
  {
  }

  /**
   * `inner_callback<T>`: finds the entity of `kind` in `memory` whose reader
   * received the change, claims an input buffer for it, and fills the
   * buffer. If the payload does not fit in `capacity` bytes the buffer is
   * given back; otherwise the wait semaphore is signalled once. Returns the
   * claimed item and whether the semaphore was signalled.
   */
  method InnerCallback(kind: EntityKind, memory: Pool<Endpoint>, buffers: Pool<InputBuffer>,
                       reader: ReaderId, change: CacheChange, capacity: nat)
    returns (claimed: int, signalled: bool)
    requires memory.Valid() && buffers.Valid() && buffers.Recyclable()
    modifies buffers.Repr()
    ensures buffers.Valid() && buffers.Recyclable()
    ensures var element := old(FirstReading(memory.Allocated, memory.records[..], reader));
      && claimed == (if element == Nil then Nil else old(buffers.NextItem()))
      && (claimed != Nil ==> Filled(buffers.records[claimed], OwnedBy(kind, element), change, signalled))
    ensures signalled <==> claimed != Nil && |change.data| <= capacity
    ensures claimed == Nil ==>
      && buffers.Free == old(buffers.Free) && buffers.Allocated == old(buffers.Allocated)
      && buffers.records[..] == old(buffers.records[..])
    ensures claimed != Nil ==> 0 <= claimed < buffers.Capacity()
    ensures forall i | 0 <= i < buffers.Capacity() && i != claimed :: buffers.records[i] == old(buffers.records[i])
    ensures signalled ==> buffers.Allocated == [claimed] + old(buffers.Allocated)
    ensures signalled ==> buffers.Free == if old(buffers.Free) == [] then [] else old(buffers.Free)[1..]
    ensures claimed != Nil && !signalled ==>
      buffers.Free == old(buffers.Free) && buffers.Allocated == old(buffers.Allocated)
    ensures buffers.GrowthFrame(claimed)
    ensures buffers.Released ==
      if claimed != Nil && !signalled && old(buffers.Free) == [] then old(buffers.Released) + {claimed}
      else old(buffers.Released)
  {
    var element := FindByReader(memory, reader);
    claimed, signalled := Nil, false;
    if element != Nil {
      claimed, signalled := Claim(buffers, OwnedBy(kind, element), change, capacity);
    }
  }

  /**
   * The claim of `inner_callback` once the entity is found: `get_memory`,
   * then the fill. A failed fill leaves both lists as they were.
   */
  method Claim(buffers: Pool<InputBuffer>, owner: Owner, change: CacheChange, capacity: nat)
    returns (claimed: int, signalled: bool)
    requires buffers.Valid() && buffers.Recyclable()
    modifies buffers.Repr()
    ensures buffers.Valid() && buffers.Recyclable()
    ensures claimed == old(buffers.NextItem())
    ensures claimed != Nil ==> 0 <= claimed < buffers.Capacity() && Filled(buffers.records[claimed], owner, change, signalled)
    ensures signalled <==> claimed != Nil && |change.data| <= capacity
    ensures forall i | 0 <= i < buffers.Capacity() && i != claimed :: buffers.records[i] == old(buffers.records[i])
    ensures signalled ==> buffers.Allocated == [claimed] + old(buffers.Allocated)
    ensures signalled ==> buffers.Free == if old(buffers.Free) == [] then [] else old(buffers.Free)[1..]
    ensures !signalled ==> buffers.Free == old(buffers.Free) && buffers.Allocated == old(buffers.Allocated)
    ensures buffers.GrowthFrame(claimed)
    ensures buffers.Released ==
      if claimed != Nil && !signalled && old(buffers.Free) == [] then old(buffers.Released) + {claimed}
      else old(buffers.Released)
  {
    ghost var freeBefore, allocatedBefore := buffers.Free, buffers.Allocated;
    claimed := Acquire(buffers);
    signalled := false;
    if claimed != Nil {
      ghost var freeClaimed, allocatedClaimed := buffers.Free, buffers.Allocated;
      ghost var released := buffers.Releases(claimed);
      signalled := Fill(buffers, claimed, owner, change, capacity);
      if !signalled {
        GiveBackRestores(freeBefore, allocatedBefore, claimed, released, freeClaimed, allocatedClaimed,
                         buffers.Free, buffers.Allocated);
      }
    }
  }

  /**
   * `get_memory` followed by `put_memory` of the same item leaves both
   * lists as they were: a free head is pushed back where it came from, and
   * a grown item is released.
   */
  lemma GiveBackRestores(freeBefore: seq<nat>, allocatedBefore: seq<nat>, claimed: nat, released: bool,
                         freeClaimed: seq<nat>, allocatedClaimed: seq<nat>, freeAfter: seq<nat>, allocatedAfter: seq<nat>)
    requires freeBefore != [] ==> freeBefore[0] == claimed
    requires allocatedClaimed == [claimed] + allocatedBefore
    requires released <==> freeBefore == []
    requires freeClaimed == if freeBefore == [] then [] else freeBefore[1..]
    requires allocatedAfter == allocatedClaimed[1..]
    requires freeAfter == if released then freeClaimed else [claimed] + freeClaimed
    ensures freeAfter == freeBefore && allocatedAfter == allocatedBefore
  {
  }

  /** `get_memory` on the input-buffer pool. */
  method Acquire(buffers: Pool<InputBuffer>) returns (claimed: int)
    requires buffers.Valid() && buffers.Recyclable()
    modifies buffers.Repr()
    ensures buffers.Valid() && buffers.Recyclable()
    ensures claimed == old(buffers.NextItem())
    ensures claimed == Nil ==> buffers.Free == old(buffers.Free) && buffers.Allocated == old(buffers.Allocated)
    ensures claimed != Nil ==>
      && 0 <= claimed < buffers.Capacity()
      && buffers.Allocated == [claimed] + old(buffers.Allocated)
      && (buffers.Releases(claimed) <==> old(buffers.Free) == [])
      && (old(buffers.Free) != [] ==> buffers.Free == old(buffers.Free)[1..])
      && (old(buffers.Free) == [] ==> buffers.Free == [])
    ensures forall i | 0 <= i < buffers.Capacity() && i != claimed :: buffers.records[i] == old(buffers.records[i])
    ensures buffers.GrowthFrame(claimed) && buffers.Released == old(buffers.Released)
  {
    claimed := buffers.Get();
  }

  /**
   * The field writes into a just-claimed buffer, then the copy: on success
   * the buffer stays claimed, on failure `put_memory` gives it back.
   */
  method Fill(buffers: Pool<InputBuffer>, claimed: nat, owner: Owner, change: CacheChange, capacity: nat)
    returns (signalled: bool)
    requires buffers.Valid() && buffers.Recyclable() && claimed < buffers.Capacity()
    requires buffers.Allocated != [] && buffers.Allocated[0] == claimed
    modifies buffers.Repr()
    ensures buffers.Valid() && buffers.Recyclable()
    ensures signalled <==> |change.data| <= capacity
    ensures Filled(buffers.records[claimed], owner, change, signalled)
    ensures forall i | 0 <= i < buffers.Capacity() && i != claimed :: buffers.records[i] == old(buffers.records[i])
    ensures signalled ==> buffers.Free == old(buffers.Free) && buffers.Allocated == old(buffers.Allocated)
    ensures !signalled ==>
      && buffers.Allocated == old(buffers.Allocated)[1..]
      && buffers.Free == if old(buffers.Releases(claimed)) then old(buffers.Free) else [claimed] + old(buffers.Free)
    ensures buffers.Released ==
      if !signalled && old(buffers.Releases(claimed)) then old(buffers.Released) + {claimed} else old(buffers.Released)
    ensures buffers.GrowthFrame(Nil)
  {
    signalled := |change.data| <= capacity;
    var stamped := Stamped(buffers.records[claimed], owner, change);
    buffers.records[claimed] := if signalled then stamped.(buffer := change.data) else stamped;
    if !signalled {
      buffers.Put(claimed);
    }
  }

  /** The entity pool scanned for an entity of `kind`. */
  function PoolFor(kind: EntityKind, services: Pool<Endpoint>, clients: Pool<Endpoint>,
                   subscriptions: Pool<Endpoint>): Pool<Endpoint>
  {
    match kind
    case ServiceEntity => services
    case ClientEntity => clients
    case SubscriptionEntity => subscriptions
  }

  /**
   * The three `generic_callback` specialisations registered with the RTPS
   * engine: the service, client and subscription callbacks run
   * `inner_callback` on `service_memory`, `client_memory` and
   * `subscription_memory` respectively, and mark the claimed buffer with an
   * owner of the matching kind.
   */
  method GenericCallback(kind: EntityKind, services: Pool<Endpoint>, clients: Pool<Endpoint>,
                         subscriptions: Pool<Endpoint>, buffers: Pool<InputBuffer>,
                         reader: ReaderId, change: CacheChange, capacity: nat)
    returns (claimed: int, signalled: bool)
    requires PoolFor(kind, services, clients, subscriptions).Valid()
    requires buffers.Valid() && buffers.Recyclable()
    modifies buffers.Repr()
    ensures buffers.Valid() && buffers.Recyclable()
    ensures var memory := PoolFor(kind, services, clients, subscriptions);
      var element := old(FirstReading(memory.Allocated, memory.records[..], reader));
      && claimed == (if element == Nil then Nil else old(buffers.NextItem()))
      && (claimed != Nil ==> Filled(buffers.records[claimed], OwnedBy(kind, element), change, signalled))
    ensures signalled <==> claimed != Nil && |change.data| <= capacity
    ensures claimed == Nil ==>
      && buffers.Free == old(buffers.Free) && buffers.Allocated == old(buffers.Allocated)
      && buffers.records[..] == old(buffers.records[..])
    ensures claimed != Nil ==> 0 <= claimed < buffers.Capacity()
    ensures forall i | 0 <= i < buffers.Capacity() && i != claimed :: buffers.records[i] == old(buffers.records[i])
    ensures signalled ==> buffers.Allocated == [claimed] + old(buffers.Allocated)
    ensures signalled ==> buffers.Free == if old(buffers.Free) == [] then [] else old(buffers.Free)[1..]
    ensures claimed != Nil && !signalled ==>
      buffers.Free == old(buffers.Free) && buffers.Allocated == old(buffers.Allocated)
    ensures buffers.GrowthFrame(claimed)
    ensures buffers.Released ==
      if claimed != Nil && !signalled && old(buffers.Free) == [] then old(buffers.Released) + {claimed}
      else old(buffers.Released)
  {
    var memory := PoolFor(kind, services, clients, subscriptions);
    claimed, signalled := InnerCallback(kind, memory, buffers, reader, change, capacity);
  }
}
