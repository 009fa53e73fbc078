/**
 * The take paths shared by subscriptions, services and clients: find the
 * newest input buffer an entity owns, hand its payload behind the 4-byte
 * encapsulation header to the codec, and give the buffer back to the pool
 * whatever the codec answered. Also `rmw_take_with_info` and
 * `rmw_take_sequence` on top of it.
 */
module Take {
  import opened Common
  import opened Memory
  import opened Types
  import opened Utils
  import opened Callbacks

  /** What `ucdr_init_buffer` presents to the codec: the bytes from offset 4 and a byte count. */
  datatype CdrView = CdrView(bytes: seq<byte>, length: size_t)

  /**
   * The codec's view of an input buffer: everything behind the header, with
   * the recorded length less 4 in `size_t` arithmetic (a length under 4
   * wraps around).
   */
  function CdrInput(b: InputBuffer): CdrView
  {
    CdrView(if 4 <= |b.buffer| then b.buffer[4..] else [], SizeSub(b.length, 4))
  }

  /**
   * A change that carries a framed payload, once the dispatcher has filled
   * a buffer with it, reaches the codec as exactly that payload: the frame
   * written on the sending side and the view taken on the receiving side
   * undo each other.
   */
  lemma FramedPayloadReachesCodec(b: InputBuffer, owner: Owner, change: CacheChange, payload: seq<byte>)
    requires change.data == EncapsulationHeader + payload
    requires Filled(b, owner, change, true)
    ensures CdrInput(b) == CdrView(payload, |payload|)
  {
    assert b.buffer[4..] == payload;
  }

  /**
   * The common tail of the take paths: the codec reads the buffer of
   * `item`, then `put_memory` gives the item back. Returns the codec's
   * answer.
   */
  method DecodeAndRelease(buffers: Pool<InputBuffer>, item: nat, deserialize: CdrView -> bool)
    returns (decoded: bool)
    requires buffers.Valid() && buffers.Recyclable() && item in buffers.Allocated
    modifies buffers, buffers.prev, buffers.next
    ensures buffers.Valid() && buffers.Recyclable()
    ensures item < buffers.records.Length
    ensures decoded == deserialize(CdrInput(buffers.records[item]))
    ensures buffers.Allocated == Remove(old(buffers.Allocated), item)
    ensures buffers.Free == if old(buffers.Releases(item)) then old(buffers.Free) else [item] + old(buffers.Free)
    ensures buffers.Released == if old(buffers.Releases(item)) then old(buffers.Released) + {item} else old(buffers.Released)
    ensures buffers.SettingsKept() && buffers.heapTop == old(buffers.heapTop)
  {
    decoded := deserialize(CdrInput(buffers.records[item]));
    buffers.Put(item);
  }

  /** The item the take paths find for `owner`: the first of the owner's buffers. */
  ghost function Found(buffers: Pool<InputBuffer>, owner: Owner): int
    requires buffers.Walkable()
    reads buffers, buffers.prev, buffers.next, buffers.records
  {
    FirstOwned(buffers.Allocated, buffers.records[..], owner)
  }

  /**
   * `rmw_take_with_info` on the subscription in cell `subscription` whose
   * implementation identifier is `id`: `taken` starts false; a foreign
   * identifier or an empty take is an error that leaves the pool alone;
   * otherwise the newest buffer of the subscription is decoded and
   * released, and both `taken` and the result report the codec's answer.
   */
  method TakeWithInfo(id: Option<CString>, implementation: CString, buffers: Pool<InputBuffer>,
                      subscription: nat, deserialize: CdrView -> bool)
    returns (ret: Ret, taken: bool)
    requires buffers.Valid() && buffers.Recyclable()
    modifies buffers, buffers.prev, buffers.next
    ensures buffers.Valid() && buffers.Recyclable()
    ensures ret == Ok || ret == Error
    ensures ret == Ok <==> taken
    ensures buffers.SettingsKept() && buffers.heapTop == old(buffers.heapTop)
    ensures var item := old(Found(buffers, OwnedBy(SubscriptionEntity, subscription)));
      if !IsIdentifierValid(id, implementation) || item == Nil then
        && ret == Error
        && buffers.Allocated == old(buffers.Allocated) && buffers.Free == old(buffers.Free)
        && buffers.Released == old(buffers.Released)
      else
        && 0 <= item < buffers.records.Length
        && taken == deserialize(CdrInput(buffers.records[item]))
        && buffers.Allocated == Remove(old(buffers.Allocated), item)
        && buffers.Free == (if old(buffers.Releases(item)) then old(buffers.Free) else [item] + old(buffers.Free))
        && buffers.Released == if old(buffers.Releases(item)) then old(buffers.Released) + {item} else old(buffers.Released)
  {
    taken := false;
    if !IsIdentifierValid(id, implementation) {
      return Error, taken;
    }
    var item := FindByOwner(buffers, OwnedBy(SubscriptionEntity, subscription));
    if item == Nil {
      return Error, taken;
    }
    taken := DecodeAndRelease(buffers, item, deserialize);
    ret := if taken then Ok else Error;
  }

  /**
   * Whether the codec accepts the message held in buffer `item`; an item
   * outside the arena holds no message.
   */
  ghost predicate Accepts(records: seq<InputBuffer>, deserialize: CdrView -> bool, item: nat)
  {
    item < |records| && deserialize(CdrInput(records[item]))
  }

  /**
   * The buffer pool's lists `allocatedList` and `freeList` and its set of
   * released items `releasedSet` once the take paths have used up the
   * buffers `xs`, starting from `allocatedBefore`, `freeBefore` and
   * `releasedBefore`: each buffer was taken out of the allocated list and
   * handed to `put_memory`, which tells dynamic items by the flags
   * `isDynamic`.
   */
  ghost predicate Consumed(allocatedList: seq<nat>, freeList: seq<nat>, releasedSet: set<nat>,
                           allocatedBefore: seq<nat>, freeBefore: seq<nat>, releasedBefore: set<nat>,
                           xs: seq<nat>, dynamicCompiled: bool, isDynamic: seq<bool>)
  {
    && allocatedList == RemoveEach(allocatedBefore, xs)
    && freeList == Recycled(xs, dynamicCompiled, isDynamic) + freeBefore
    && releasedSet == releasedBefore + ReleasedOf(xs, dynamicCompiled, isDynamic)
  }

  /**
   * How many messages `rmw_take_sequence` delivers from the owner's buffers
   * `items` (newest first) from position `from` on, when asked for `count`:
   * the run of buffers the codec accepts, cut at `count`.
   */
  ghost function TakeRun(items: seq<nat>, records: seq<InputBuffer>, deserialize: CdrView -> bool,
                         from: nat, count: nat): (n: nat)
    requires from <= |items|
    ensures n <= count && from + n <= |items|
    decreases |items| - from
  {
    if count == 0 || from == |items| || !Accepts(records, deserialize, items[from]) then 0
    else 1 + TakeRun(items, records, deserialize, from + 1, count - 1)
  }

  /**
   * Every buffer `TakeRun` counts decoded, and a run that stops short of
   * both `count` and the end of the list stops at a buffer the codec refused.
   */
  lemma {:induction false} TakeRunDelivers(items: seq<nat>, records: seq<InputBuffer>, deserialize: CdrView -> bool,
                                           from: nat, count: nat)
    requires from <= |items|
    ensures var n := TakeRun(items, records, deserialize, from, count);
      && (forall k | from <= k < from + n :: Accepts(records, deserialize, items[k]))
      && (n < count && from + n < |items| ==> !Accepts(records, deserialize, items[from + n]))
    decreases |items| - from
  {
    if count > 0 && from < |items| && Accepts(records, deserialize, items[from]) {
      var m := TakeRun(items, records, deserialize, from + 1, count - 1);
      TakeRunDelivers(items, records, deserialize, from + 1, count - 1);
      assert from + TakeRun(items, records, deserialize, from, count) == (from + 1) + m;
    }
  }

  /**
   * One round of `rmw_take_sequence`'s loop, seen from the owner's buffers
   * `rest` (newest first): the round takes a message exactly when there is
   * a buffer and the codec accepts the newest one, and it consumes that
   * buffer either way.
   */
  method TakeNext(id: Option<CString>, implementation: CString, buffers: Pool<InputBuffer>,
                  subscription: nat, deserialize: CdrView -> bool, ghost records: seq<InputBuffer>,
                  ghost rest: seq<nat>)
    returns (ret: Ret, taken: bool)
    requires IsIdentifierValid(id, implementation)
    requires Holding(buffers, records, OwnedBy(SubscriptionEntity, subscription), rest)
    modifies buffers, buffers.prev, buffers.next
    ensures Holding(buffers, records, OwnedBy(SubscriptionEntity, subscription), if rest == [] then [] else rest[1..])
    ensures ret == Ok <==> taken
    ensures ret == Ok || ret == Error
    ensures taken <==> rest != [] && deserialize(CdrInput(records[rest[0]]))
    ensures buffers.Allocated == if rest == [] then old(buffers.Allocated) else Remove(old(buffers.Allocated), rest[0])
    ensures buffers.Free == if rest == [] || old(buffers.Releases(rest[0])) then old(buffers.Free)
                            else [rest[0]] + old(buffers.Free)
    ensures buffers.Released == if rest != [] && old(buffers.Releases(rest[0])) then old(buffers.Released) + {rest[0]}
                                else old(buffers.Released)
    ensures buffers.SettingsKept() && buffers.heapTop == old(buffers.heapTop)
  {
    TakingFirstOwned(buffers.Allocated, records, OwnedBy(SubscriptionEntity, subscription));
    ret, taken := TakeWithInfo(id, implementation, buffers, subscription, deserialize);
  }


  /**
   * `TakeRun` is the only count with its three properties: every buffer
   * before it decoded, and it stops at `count`, at the end of the list, or
   * at a buffer the codec refused.
   */
  lemma {:induction false} TakeRunIs(items: seq<nat>, records: seq<InputBuffer>, deserialize: CdrView -> bool,
                                     from: nat, count: nat, n: nat)
    requires n <= count && from + n <= |items|
    requires forall k | from <= k < from + n :: Accepts(records, deserialize, items[k])
    requires n == count || from + n == |items| || !Accepts(records, deserialize, items[from + n])
    ensures TakeRun(items, records, deserialize, from, count) == n
    decreases n
  {
    if n > 0 {
      assert Accepts(records, deserialize, items[from]);
      TakeRunIs(items, records, deserialize, from + 1, count - 1, n - 1);
    }
  }

  /**
   * `rmw_take_sequence`: repeats `rmw_take_with_info` up to `count` times,
   * stopping at the first call that fails or takes nothing, and sets the
   * size of both output sequences to the number taken. A foreign
   * identifier returns before that, so the sizes keep the caller's values,
   * passed in as `messageSizeIn` and `infoSizeIn`. With the owner's
   * buffers newest first in `items`, the number taken is the run of
   * leading buffers the codec accepts, cut at `count`; the result is OK
   * exactly when all `count` were taken; and the `consumed` buffers, which
   * include one the codec refused, leave the list in order.
   */
  method TakeSequence(id: Option<CString>, implementation: CString, buffers: Pool<InputBuffer>,
                      subscription: nat, count: size_t, deserialize: CdrView -> bool,
                      messageSizeIn: size_t, infoSizeIn: size_t)
    returns (ret: Ret, taken: size_t, messageSize: size_t, infoSize: size_t, ghost consumed: nat)
    requires buffers.Valid() && buffers.Recyclable()
    modifies buffers, buffers.prev, buffers.next
    ensures buffers.Valid() && buffers.Recyclable()
    ensures var owner := OwnedBy(SubscriptionEntity, subscription);
      var records, dynamic := old(buffers.records[..]), old(buffers.isDynamic[..]);
      var items := old(OwnedItems(buffers.Allocated, records, owner));
      if !IsIdentifierValid(id, implementation) then
        && ret == Error && taken == 0
        && buffers.Allocated == old(buffers.Allocated) && buffers.Free == old(buffers.Free)
        && buffers.Released == old(buffers.Released)
      else
        && taken == TakeRun(items, records, deserialize, 0, count)
        && (ret == Ok <==> taken == count)
        && (ret == Ok || ret == Error)
        && consumed == (if taken < count && taken < |items| then taken + 1 else taken)
        && consumed <= |items|
        && OwnedItems(buffers.Allocated, records, owner) == items[consumed..]
        && buffers.Allocated == RemoveEach(old(buffers.Allocated), items[..consumed])
        && buffers.Free == Recycled(items[..consumed], buffers.dynamicCompiled, dynamic) + old(buffers.Free)
        && buffers.Released == old(buffers.Released) + ReleasedOf(items[..consumed], buffers.dynamicCompiled, dynamic)
    ensures buffers.SettingsKept() && buffers.heapTop == old(buffers.heapTop)
    ensures if IsIdentifierValid(id, implementation) then messageSize == taken && infoSize == taken
      else messageSize == messageSizeIn && infoSize == infoSizeIn
  {
    if !IsIdentifierValid(id, implementation) {
      return Error, 0, messageSizeIn, infoSizeIn, 0;
    }
    ghost var records := buffers.records[..];
    ghost var owner := OwnedBy(SubscriptionEntity, subscription);
    ghost var items := OwnedItems(buffers.Allocated, records, owner);
    NothingConsumed(buffers.Allocated, buffers.Free, buffers.Released, items, buffers.dynamicCompiled, buffers.isDynamic[..]);
    ret, taken, consumed := TakeLoop(id, implementation, buffers, subscription, count, deserialize, records, items,
                                     buffers.Allocated, buffers.Free, buffers.Released, buffers.isDynamic[..]);
    messageSize := taken;
    infoSize := taken;
  }

  /** The buffers up to `from` and those from `from` up to `next` are the buffers up to `next`. */
  lemma Slices(items: seq<nat>, from: nat, next: nat)
    requires from <= next <= |items| && next <= from + 1
    ensures items[from..][..next - from] == items[from..next]
    ensures items[..from] + items[from..next] == items[..next]
    ensures items[from..next] == if from < next then [items[from]] else []
  {
  }

  /** Before the first round the whole run is left and the lists are as they were. */
  lemma NothingConsumed(allocatedBefore: seq<nat>, freeBefore: seq<nat>, releasedBefore: set<nat>,
                        items: seq<nat>, dynamicCompiled: bool, dynamic: seq<bool>)
    ensures items[0..] == items
    ensures Consumed(allocatedBefore, freeBefore, releasedBefore, allocatedBefore, freeBefore, releasedBefore,
                     items[..0], dynamicCompiled, dynamic)
  {
    assert items[..0] == [];
    assert RemoveEach(allocatedBefore, []) == allocatedBefore && Recycled([], dynamicCompiled, dynamic) == [];
    assert ReleasedOf([], dynamicCompiled, dynamic) == {};
  }

  /**
   * The owner's buffers from position `from` on, as one round sees them:
   * empty exactly at the end of the list, headed by the buffer at `from`,
   * and, once that buffer is used up, the buffers from `next` on.
   */
  lemma RoundView(items: seq<nat>, from: nat, next: nat, rest: seq<nat>)
    requires from <= |items| && next == (if from < |items| then from + 1 else from)
    requires rest == items[from..]
    ensures rest == [] <==> from == |items|
    ensures rest != [] ==> rest[0] == items[from]
    ensures (if rest == [] then [] else rest[1..]) == items[next..]
  {
  }

  /**
   * The counting loop of `rmw_take_sequence`, for an identifier that passed
   * the check. `consumed` counts the buffers the loop used up: the ones it
   * took, and the refused one it stopped at.
   */
  method TakeLoop(id: Option<CString>, implementation: CString, buffers: Pool<InputBuffer>,
                  subscription: nat, count: size_t, deserialize: CdrView -> bool,
                  ghost records: seq<InputBuffer>, ghost items: seq<nat>,
                  ghost allocatedBefore: seq<nat>, ghost freeBefore: seq<nat>, ghost releasedBefore: set<nat>,
                  ghost dynamic: seq<bool>)
    returns (ret: Ret, taken: size_t, ghost consumed: nat)
    requires IsIdentifierValid(id, implementation)
    requires Holding(buffers, records, OwnedBy(SubscriptionEntity, subscription), items[0..])
    requires buffers.isDynamic[..] == dynamic
    requires Consumed(buffers.Allocated, buffers.Free, buffers.Released, allocatedBefore, freeBefore, releasedBefore,
                      items[..0], buffers.dynamicCompiled, dynamic)
    modifies buffers, buffers.prev, buffers.next
    ensures taken == TakeRun(items, records, deserialize, 0, count)
    ensures ret == Ok <==> taken == count
    ensures ret == Ok || ret == Error
    ensures consumed == if taken < count && taken < |items| then taken + 1 else taken
    ensures consumed <= |items|
    ensures Holding(buffers, records, OwnedBy(SubscriptionEntity, subscription), items[consumed..])
    ensures buffers.SettingsKept() && buffers.heapTop == old(buffers.heapTop)
    ensures Consumed(buffers.Allocated, buffers.Free, buffers.Released, allocatedBefore, freeBefore, releasedBefore,
                     items[..consumed], buffers.dynamicCompiled, dynamic)
  {
    ret := Ok;
    taken := 0;
    consumed := 0;
    ghost var owner := OwnedBy(SubscriptionEntity, subscription);
    ghost var left: nat := count;
    var i: size_t := 0;
    while i < count
      invariant taken == i <= count && consumed == taken <= |items| && ret == Ok
      invariant left == count - taken
      invariant Holding(buffers, records, owner, items[consumed..])
      invariant buffers.isDynamic[..] == dynamic
      invariant buffers.SettingsKept() && buffers.heapTop == old(buffers.heapTop)
      invariant Consumed(buffers.Allocated, buffers.Free, buffers.Released, allocatedBefore, freeBefore, releasedBefore,
                         items[..consumed], buffers.dynamicCompiled, dynamic)
      invariant TakeRun(items, records, deserialize, 0, count) == taken + TakeRun(items, records, deserialize, consumed, left)
    {
      var flag;
      ghost var next, nextLeft;
      ret, flag, next, nextLeft := SequenceRound(id, implementation, buffers, subscription, deserialize,
                                                 records, items, consumed, left, allocatedBefore, freeBefore,
                                                 releasedBefore, dynamic);
      if !flag {
        consumed := next;
        break;
      }
      consumed, left := next, nextLeft;
      taken := taken + 1;
      i := i + 1;
    }
  }

  /**
   * The lists after one more round: the buffer at position `from`, if any,
   * was taken out of the allocated list and handed to `put_memory`.
   */
  lemma RoundConsumed(allocatedBefore: seq<nat>, freeBefore: seq<nat>, releasedBefore: set<nat>,
                      items: seq<nat>, from: nat, next: nat, dynamicCompiled: bool, dynamic: seq<bool>,
                      rest: seq<nat>, released: bool, allocatedNow: seq<nat>, freeNow: seq<nat>, releasedNow: set<nat>,
                      a: seq<nat>, f: seq<nat>, r: set<nat>)
    requires from <= |items| && next == (if from < |items| then from + 1 else from)
    requires rest == items[from..]
    requires released == (rest != [] && dynamicCompiled && rest[0] < |dynamic| && dynamic[rest[0]])
    requires allocatedNow == RemoveEach(allocatedBefore, items[..from])
    requires freeNow == Recycled(items[..from], dynamicCompiled, dynamic) + freeBefore
    requires a == if rest == [] then allocatedNow else Remove(allocatedNow, rest[0])
    requires f == if rest == [] || released then freeNow else [rest[0]] + freeNow
    requires releasedNow == releasedBefore + ReleasedOf(items[..from], dynamicCompiled, dynamic)
    requires r == if released then releasedNow + {rest[0]} else releasedNow
    ensures a == RemoveEach(allocatedBefore, items[..next])
    ensures f == Recycled(items[..next], dynamicCompiled, dynamic) + freeBefore
    ensures r == releasedBefore + ReleasedOf(items[..next], dynamicCompiled, dynamic)
  {
    Slices(items, from, next);
    if from < |items| {
      PutOne(allocatedNow, freeNow, items[from], dynamicCompiled, dynamic, released, a, f);
    } else {
      assert RemoveEach(allocatedNow, []) == allocatedNow && Recycled([], dynamicCompiled, dynamic) == [];
      assert ReleasedOf([], dynamicCompiled, dynamic) == {};
    }
    PutEachCompose(allocatedBefore, freeBefore, items[..from], items[from..next], dynamicCompiled, dynamic,
                   allocatedNow, freeNow, a, f);
    ReleasedOfAppend(items[..from], items[from..next], dynamicCompiled, dynamic);
  }

  /**
   * One round of `rmw_take_sequence`'s loop, after the owner's buffers
   * `items` (newest first) have been used up to position `from`, with
   * `left` rounds to go: the round delivers a message exactly when a buffer
   * is left and the codec accepts it, it consumes that buffer either way,
   * and a delivery moves the run one buffer along.
   */
  method SequenceRound(id: Option<CString>, implementation: CString, buffers: Pool<InputBuffer>,
                       subscription: nat, deserialize: CdrView -> bool, ghost records: seq<InputBuffer>,
                       ghost items: seq<nat>, ghost from: nat, ghost left: nat,
                       ghost allocatedBefore: seq<nat>, ghost freeBefore: seq<nat>, ghost releasedBefore: set<nat>,
                       ghost dynamic: seq<bool>)
    returns (ret: Ret, flag: bool, ghost next: nat, ghost nextLeft: nat)
    requires IsIdentifierValid(id, implementation)
    requires from <= |items| && Holding(buffers, records, OwnedBy(SubscriptionEntity, subscription), items[from..])
    requires 0 < left
    requires buffers.isDynamic[..] == dynamic
    requires Consumed(buffers.Allocated, buffers.Free, buffers.Released, allocatedBefore, freeBefore, releasedBefore,
                      items[..from], buffers.dynamicCompiled, dynamic)
    modifies buffers, buffers.prev, buffers.next
    ensures next == if from < |items| then from + 1 else from
    ensures nextLeft == left - 1
    ensures Holding(buffers, records, OwnedBy(SubscriptionEntity, subscription), items[next..])
    ensures buffers.isDynamic[..] == dynamic
    ensures buffers.SettingsKept() && buffers.heapTop == old(buffers.heapTop)
    ensures Consumed(buffers.Allocated, buffers.Free, buffers.Released, allocatedBefore, freeBefore, releasedBefore,
                     items[..next], buffers.dynamicCompiled, dynamic)
    ensures ret == Ok <==> flag
    ensures ret == Ok || ret == Error
    ensures flag <==> from < |items| && Accepts(records, deserialize, items[from])
    ensures flag ==> TakeRun(items, records, deserialize, from, left) == 1 + TakeRun(items, records, deserialize, next, nextLeft)
    ensures !flag ==> TakeRun(items, records, deserialize, from, left) == 0
  {
    label BeforeRound:
    ret, flag, next := ConsumeNext(id, implementation, buffers, subscription, deserialize, records, items, from,
                                   allocatedBefore, freeBefore, releasedBefore, dynamic);
    buffers.DynamicKept@BeforeRound();
    nextLeft := left - 1;
    RoundRun(items, records, deserialize, from, left, next, nextLeft, flag);
  }

  /**
   * One round of the run: a round that delivers moves the run one buffer
   * along the list, to `next` with `nextLeft` to go, and a round that
   * delivers nothing ends it.
   */
  lemma RoundRun(items: seq<nat>, records: seq<InputBuffer>, deserialize: CdrView -> bool,
                 from: nat, left: nat, next: nat, nextLeft: nat, flag: bool)
    requires from <= |items| && 0 < left
    requires next == (if from < |items| then from + 1 else from) && nextLeft == left - 1
    requires flag <==> from < |items| && Accepts(records, deserialize, items[from])
    ensures flag ==> TakeRun(items, records, deserialize, from, left) == 1 + TakeRun(items, records, deserialize, next, nextLeft)
    ensures !flag ==> TakeRun(items, records, deserialize, from, left) == 0
  {
  }

  /**
   * The take of one round: the owner's buffer at position `from`, if any,
   * is decoded and handed to `put_memory`, so the buffers used up run to
   * `next`. The round delivers exactly when that buffer exists and decodes.
   */
  method ConsumeNext(id: Option<CString>, implementation: CString, buffers: Pool<InputBuffer>,
                     subscription: nat, deserialize: CdrView -> bool, ghost records: seq<InputBuffer>,
                     ghost items: seq<nat>, ghost from: nat,
                     ghost allocatedBefore: seq<nat>, ghost freeBefore: seq<nat>, ghost releasedBefore: set<nat>,
                     ghost dynamic: seq<bool>)
    returns (ret: Ret, flag: bool, ghost next: nat)
    requires IsIdentifierValid(id, implementation)
    requires from <= |items| && Holding(buffers, records, OwnedBy(SubscriptionEntity, subscription), items[from..])
    requires buffers.isDynamic[..] == dynamic
    requires Consumed(buffers.Allocated, buffers.Free, buffers.Released, allocatedBefore, freeBefore, releasedBefore,
                      items[..from], buffers.dynamicCompiled, dynamic)
    modifies buffers, buffers.prev, buffers.next
    ensures next == if from < |items| then from + 1 else from
    ensures Holding(buffers, records, OwnedBy(SubscriptionEntity, subscription), items[next..])
    ensures buffers.SettingsKept() && buffers.heapTop == old(buffers.heapTop)
    ensures Consumed(buffers.Allocated, buffers.Free, buffers.Released, allocatedBefore, freeBefore, releasedBefore,
                     items[..next], buffers.dynamicCompiled, dynamic)
    ensures ret == Ok <==> flag
    ensures ret == Ok || ret == Error
    ensures flag <==> from < |items| && Accepts(records, deserialize, items[from])
  {
    ghost var allocatedNow, freeNow, releasedNow := buffers.Allocated, buffers.Free, buffers.Released;
    ghost var rest := items[from..];
    ghost var released := rest != [] && buffers.dynamicCompiled && rest[0] < |dynamic| && dynamic[rest[0]];
    ret, flag := TakeNext(id, implementation, buffers, subscription, deserialize, records, rest);
    next := if from < |items| then from + 1 else from;
    RoundConsumed(allocatedBefore, freeBefore, releasedBefore, items, from, next, buffers.dynamicCompiled, dynamic,
                  rest, released, allocatedNow, freeNow, releasedNow, buffers.Allocated, buffers.Free, buffers.Released);
    RoundView(items, from, next, rest);
  }
}
