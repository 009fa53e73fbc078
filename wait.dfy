/**
 * `rmw_wait`: the coordinator that decides which services, clients and
 * subscriptions of a wait set have data. It reads the entities' `has_data`
 * flags, blocks on the wait semaphore when nothing is flagged, marks every
 * entity that owns a received input buffer, and clears the wait-set entries
 * of the entities that are not ready.
 *
 * A wait-set array is an `array<int>` of entity cells of the kind's pool
 * (the `void *` entries of `rmw_services_t`, `rmw_clients_t` and
 * `rmw_subscriptions_t`), with `Nil` for a cleared entry.
 */
module Wait {
  import opened Common
  import opened Memory
  import opened Types

  /** Every entry of a wait-set array designates a record of the entity pool. */
  predicate Designates(entries: seq<int>, records: seq<Endpoint>)
  {
    forall i | 0 <= i < |entries| :: 0 <= entries[i] < |records|
  }

  /** Whether some entity of the wait-set array has its `has_data` flag set. */
  predicate HasFlag(entries: seq<int>, records: seq<Endpoint>)
    requires Designates(entries, records)
  {
    exists i | 0 <= i < |entries| :: records[entries[i]].hasData
  }

  /**
   * `timeout / 1000000ULL`: the usual arithmetic conversions turn the signed
   * nanosecond count into an unsigned 64-bit value before the division.
   */
  function Millis(timeout: int64): (ms: nat)
    ensures 0 <= timeout ==> ms == timeout / 1000000
    ensures timeout < 0 ==> ms > 0
  {
    (if timeout < 0 then TwoTo64 + timeout else timeout) / 1000000
  }

  /** Whether `rmw_wait` waits on the semaphore: nothing is flagged and the timeout is at least 1 ms. */
  predicate Blocks(flagged: bool, timeout: int64): (b: bool)
    ensures b <==> !flagged && (timeout < 0 || 1000000 <= timeout)
  {
    !flagged && Millis(timeout) > 0
  }

  /** The `timeout_ms` handed to the semaphore: 0, which waits forever, for an infinite timeout. */
  function TimeoutMs(timeout: int64, infinite: bool): (ms: int32)
    ensures infinite ==> ms == 0
    ensures !infinite && Millis(timeout) < 0x8000_0000 ==> ms == Millis(timeout)
  {
    if infinite then 0 else ToInt32(Millis(timeout))
  }

  /** The wait timeout as `rmw_wait` reads it: its nanosecond count and whether it is `RMW_DURATION_INFINITE`. */
  datatype WaitTimeout = WaitTimeout(nanoseconds: int64, infinite: bool)

  /** `RMW_DURATION_INFINITE`, whose nanosecond count is `INT64_MAX`. */
  const InfiniteTimeout: WaitTimeout := WaitTimeout(0x7FFF_FFFF_FFFF_FFFF, true)

  /**
   * `rmw_time_total_nsec(*wait_timeout)` as written: the pointer is read
   * without a test, so a NULL `wait_timeout` (None) has no defined reading
   * (None), while any other timeout is read as it is.
   */
  function ReadTimeoutAsWritten(waitTimeout: Option<WaitTimeout>): (r: Option<WaitTimeout>)
    ensures r.None? <==> waitTimeout.None?
    ensures r.Some? ==> r.value == waitTimeout.value
  {
    if waitTimeout.None? then None else Some(waitTimeout.value)
  }

  /** A NULL `wait_timeout`, which callers pass to wait until data arrives, reaches undefined behaviour. */
  lemma NullTimeoutUndefined()
    ensures ReadTimeoutAsWritten(None) == None
    ensures forall t: WaitTimeout :: ReadTimeoutAsWritten(Some(t)) == Some(t)
  {
  }

  /**
   * The reading the rmw interface intends: a NULL `wait_timeout` means
   * waiting until a condition is ready, which is the infinite timeout.
   */
  function ReadTimeout(waitTimeout: Option<WaitTimeout>): (r: WaitTimeout)
    ensures waitTimeout.Some? ==> r == waitTimeout.value
    ensures waitTimeout.None? ==> r.infinite && Millis(r.nanoseconds) > 0
  {
    if waitTimeout.Some? then waitTimeout.value else InfiniteTimeout
  }

  /**
   * With the intended reading, a NULL `wait_timeout` with nothing flagged
   * waits on the semaphore with `timeout_ms` 0, that is forever, and data
   * is available exactly when the wait is woken.
   */
  lemma NullTimeoutWaitsForever(woken: bool)
    ensures var t := ReadTimeout(None);
      && Blocks(false, t.nanoseconds) && TimeoutMs(t.nanoseconds, t.infinite) == 0
      && (Available(false, t.nanoseconds, woken) <==> woken)
  {
  }

  /**
   * `available_data` once the block decision is taken: a flag was set, or
   * the semaphore was waited on and did not time out. `woken` is the
   * semaphore's outcome.
   */
  predicate Available(flagged: bool, timeout: int64, woken: bool)
  {
    flagged || (Blocks(flagged, timeout) && woken)
  }

  /**
   * The entity records once the re-scan has marked every watched entity of
   * `kind` whose owner appears among `pending`, the owners of the claimed
   * input buffers.
   */
  function AfterRescan(records: seq<Endpoint>, entries: seq<int>, kind: EntityKind,
                       pending: set<Owner>): (r: seq<Endpoint>)
    ensures |r| == |records|
    ensures forall c | 0 <= c < |records| :: r[c].reader == records[c].reader
    ensures forall c | 0 <= c < |records| ::
      r[c].hasData <==> records[c].hasData || (c in entries && OwnedBy(kind, c) in pending)
  {
    seq(|records|, c requires 0 <= c < |records| =>
      if c in entries && OwnedBy(kind, c) in pending then records[c].(hasData := true) else records[c])
  }

  /** The wait-set array once every entry whose entity has no data is NULL. */
  function Nulled(entries: seq<int>, records: seq<Endpoint>): (r: seq<int>)
    requires Designates(entries, records)
    ensures |r| == |entries|
    ensures forall i | 0 <= i < |entries| :: (r[i] == Nil <==> !records[entries[i]].hasData)
    ensures forall i | 0 <= i < |entries| && r[i] != Nil :: r[i] == entries[i]
  {
    seq(|entries|, i requires 0 <= i < |entries| => if records[entries[i]].hasData then entries[i] else Nil)
  }

  /**
   * One pre-scan loop: stops at the first entity with `has_data` set, and
   * does not start when `available` already holds.
   */
  method ScanFlags(pool: Pool<Endpoint>, entries: array<int>, available: bool) returns (found: bool)
    requires Designates(entries[..], pool.records[..])
    ensures found <==> available || HasFlag(entries[..], pool.records[..])
  {
    found := available;
    var i := 0;
    while !found && i < entries.Length
      invariant 0 <= i <= entries.Length
      invariant found <==> available || exists j | 0 <= j < i :: pool.records[entries[j]].hasData
    {
      if pool.records[entries[i]].hasData {
        found := true;
      }
      i := i + 1;
    }
  }

  /**
   * The block decision: with nothing flagged and at least 1 ms of timeout,
   * waits on the semaphore with the returned `timeout_ms`; `woken` says
   * whether the wait ended before the timeout.
   */
  method BlockIfIdle(available: bool, timeout: int64, infinite: bool, woken: bool)
    returns (blockedMs: Option<int32>, availableAfter: bool)
    ensures blockedMs.Some? <==> Blocks(available, timeout)
    ensures blockedMs.Some? ==> blockedMs.value == TimeoutMs(timeout, infinite)
    ensures availableAfter <==> Available(available, timeout, woken)
  {
    blockedMs, availableAfter := None, available;
    if !available && Millis(timeout) > 0 {
      var timeoutMs: int32;
      if infinite {
        timeoutMs := 0;
      } else {
        timeoutMs := ToInt32(Millis(timeout));
      }
      blockedMs := Some(timeoutMs);
      availableAfter := availableAfter || woken;
    }
  }

  /**
   * One re-scan loop: every watched entity of `kind` that owns a claimed
   * input buffer gets its `has_data` flag set. Returns whether any did.
   */
  method MarkReady(kind: EntityKind, pool: Pool<Endpoint>, entries: array<int>, buffers: Pool<InputBuffer>)
    returns (marked: bool)
    requires buffers.Walkable() && Designates(entries[..], pool.records[..])
    modifies pool.records
    ensures pool.records[..] ==
      AfterRescan(old(pool.records[..]), entries[..], kind, Owners(buffers.Allocated, buffers.records[..]))
    ensures marked <==> exists i | 0 <= i < entries.Length ::
      OwnedBy(kind, entries[i]) in Owners(buffers.Allocated, buffers.records[..])
  {
    ghost var pending := Owners(buffers.Allocated, buffers.records[..]);
    ghost var start := pool.records[..];
    marked := false;
    for i := 0 to entries.Length
      invariant pool.records[..] == AfterRescan(start, entries[..i], kind, pending)
      invariant marked <==> exists j | 0 <= j < i :: OwnedBy(kind, entries[j]) in pending
    {
      var e := entries[i];
      ghost var before := pool.records[..];
      RescanStep(start, entries[..i], e, kind, pending, before);
      var hit := MarkIfPending(kind, pool, e, buffers);
      marked := marked || hit;
      assert entries[..i + 1] == entries[..i] + [e];
    }
    assert entries[..entries.Length] == entries[..];
  }

  /** The body of a re-scan loop: marks the entity in cell `e` if it owns a claimed input buffer. */
  method MarkIfPending(kind: EntityKind, pool: Pool<Endpoint>, e: nat, buffers: Pool<InputBuffer>)
    returns (hit: bool)
    requires buffers.Walkable() && e < pool.records.Length
    modifies pool.records
    ensures hit <==> OwnedBy(kind, e) in Owners(buffers.Allocated, buffers.records[..])
    ensures pool.records[..] ==
      if hit then old(pool.records[..])[e := old(pool.records[e]).(hasData := true)] else old(pool.records[..])
  {
    var item := FindByOwner(buffers, OwnedBy(kind, e));
    hit := item != Nil;
    if hit {
      pool.records[e] := pool.records[e].(hasData := true);
    }
  }

  /** Re-scanning one more entry `e` marks at most that entry's entity. */
  lemma RescanStep(records: seq<Endpoint>, prefix: seq<int>, e: int, kind: EntityKind, pending: set<Owner>,
                   cur: seq<Endpoint>)
    requires 0 <= e < |records| && cur == AfterRescan(records, prefix, kind, pending)
    ensures AfterRescan(records, prefix + [e], kind, pending) ==
      if OwnedBy(kind, e) in pending then cur[e := cur[e].(hasData := true)] else cur
  {
    var next := AfterRescan(records, prefix + [e], kind, pending);
    var want := if OwnedBy(kind, e) in pending then cur[e := cur[e].(hasData := true)] else cur;
    forall c | 0 <= c < |records| ensures next[c] == want[c] {
      assert c in prefix + [e] <==> c in prefix || c == e;
    }
  }

  /** One nulling loop: the entries of the entities without data become NULL. */
  method NullNotReady(pool: Pool<Endpoint>, entries: array<int>)
    requires Designates(entries[..], pool.records[..])
    modifies entries
    ensures entries[..] == Nulled(old(entries[..]), pool.records[..])
  {
    for i := 0 to entries.Length
      invariant entries[i..] == old(entries[i..])
      invariant entries[..i] == Nulled(old(entries[..]), pool.records[..])[..i]
    {
      if !pool.records[entries[i]].hasData {
        entries[i] := Nil;
      }
    }
  }

  /** The arrays `rmw_wait` writes are distinct from each other and from the input-buffer pool. */
  ghost predicate Separate(services: Pool<Endpoint>, clients: Pool<Endpoint>, subscriptions: Pool<Endpoint>,
                           serviceEntries: array<int>, clientEntries: array<int>,
                           subscriptionEntries: array<int>, buffers: Pool<InputBuffer>)
  {
    && services.records != clients.records && services.records != subscriptions.records
    && clients.records != subscriptions.records
    && serviceEntries != clientEntries && serviceEntries != subscriptionEntries
    && clientEntries != subscriptionEntries
    && {serviceEntries, clientEntries, subscriptionEntries} !! {buffers.prev, buffers.next}
  }

  /**
   * `rmw_wait` on a wait set of services, clients and subscriptions, whose
   * entity records live in the three entity pools. `waitTimeout` is the
   * wait timeout, None for a NULL pointer, read as `ReadTimeout` says, and
   * `woken` the outcome of the semaphore wait
   * if one happens. Returns the status and the `timeout_ms` of the
   * semaphore wait, if one happened.
   */
  method WaitForData(services: Pool<Endpoint>, clients: Pool<Endpoint>, subscriptions: Pool<Endpoint>,
                     serviceEntries: array<int>, clientEntries: array<int>, subscriptionEntries: array<int>,
                     buffers: Pool<InputBuffer>, waitTimeout: Option<WaitTimeout>, woken: bool)
    returns (ret: Ret, blockedMs: Option<int32>)
    requires buffers.Valid()
    requires Designates(serviceEntries[..], services.records[..])
    requires Designates(clientEntries[..], clients.records[..])
    requires Designates(subscriptionEntries[..], subscriptions.records[..])
    requires Separate(services, clients, subscriptions, serviceEntries, clientEntries, subscriptionEntries, buffers)
    modifies services.records, clients.records, subscriptions.records
    modifies serviceEntries, clientEntries, subscriptionEntries
    ensures buffers.Valid()
    ensures var flagged := old(HasFlag(serviceEntries[..], services.records[..])
                               || HasFlag(clientEntries[..], clients.records[..])
                               || HasFlag(subscriptionEntries[..], subscriptions.records[..]));
      var timeout, infinite := ReadTimeout(waitTimeout).nanoseconds, ReadTimeout(waitTimeout).infinite;
      && (blockedMs.Some? <==> Blocks(flagged, timeout))
      && (blockedMs.Some? ==> blockedMs.value == TimeoutMs(timeout, infinite))
      && (ret == if Available(flagged, timeout, woken) then Ok else Timeout)
    ensures var pending := Owners(buffers.Allocated, buffers.records[..]);
      && services.records[..] == (if ret == Ok then
           AfterRescan(old(services.records[..]), old(serviceEntries[..]), ServiceEntity, pending)
         else old(services.records[..]))
      && clients.records[..] == (if ret == Ok then
           AfterRescan(old(clients.records[..]), old(clientEntries[..]), ClientEntity, pending)
         else old(clients.records[..]))
      && subscriptions.records[..] == (if ret == Ok then
           AfterRescan(old(subscriptions.records[..]), old(subscriptionEntries[..]), SubscriptionEntity, pending)
         else old(subscriptions.records[..]))
    ensures serviceEntries[..] == Nulled(old(serviceEntries[..]), services.records[..])
    ensures clientEntries[..] == Nulled(old(clientEntries[..]), clients.records[..])
    ensures subscriptionEntries[..] == Nulled(old(subscriptionEntries[..]), subscriptions.records[..])
  {
    ghost var entries := (serviceEntries[..], clientEntries[..], subscriptionEntries[..]);
    ret, blockedMs := Decide(services, clients, subscriptions, serviceEntries, clientEntries, subscriptionEntries,
                             buffers, ReadTimeout(waitTimeout).nanoseconds, ReadTimeout(waitTimeout).infinite, woken);
    assert (serviceEntries[..], clientEntries[..], subscriptionEntries[..]) == entries;
    ghost var records := (services.records[..], clients.records[..], subscriptions.records[..]);
    NullAll(services, clients, subscriptions, serviceEntries, clientEntries, subscriptionEntries);
    assert (services.records[..], clients.records[..], subscriptions.records[..]) == records;
  }

  /**
   * Everything `rmw_wait` does before it clears the entries: the pre-scan,
   * the block decision and, when data is available, the re-scan.
   */
  method Decide(services: Pool<Endpoint>, clients: Pool<Endpoint>, subscriptions: Pool<Endpoint>,
                serviceEntries: array<int>, clientEntries: array<int>, subscriptionEntries: array<int>,
                buffers: Pool<InputBuffer>, timeout: int64, infinite: bool, woken: bool)
    returns (ret: Ret, blockedMs: Option<int32>)
    requires buffers.Walkable()
    requires Designates(serviceEntries[..], services.records[..])
    requires Designates(clientEntries[..], clients.records[..])
    requires Designates(subscriptionEntries[..], subscriptions.records[..])
    requires Separate(services, clients, subscriptions, serviceEntries, clientEntries, subscriptionEntries, buffers)
    modifies services.records, clients.records, subscriptions.records
    ensures var flagged := old(HasFlag(serviceEntries[..], services.records[..])
                               || HasFlag(clientEntries[..], clients.records[..])
                               || HasFlag(subscriptionEntries[..], subscriptions.records[..]));
      && (blockedMs.Some? <==> Blocks(flagged, timeout))
      && (blockedMs.Some? ==> blockedMs.value == TimeoutMs(timeout, infinite))
      && (ret == if Available(flagged, timeout, woken) then Ok else Timeout)
    ensures var pending := Owners(buffers.Allocated, buffers.records[..]);
      && services.records[..] == (if ret == Ok then
           AfterRescan(old(services.records[..]), serviceEntries[..], ServiceEntity, pending)
         else old(services.records[..]))
      && clients.records[..] == (if ret == Ok then
           AfterRescan(old(clients.records[..]), clientEntries[..], ClientEntity, pending)
         else old(clients.records[..]))
      && subscriptions.records[..] == (if ret == Ok then
           AfterRescan(old(subscriptions.records[..]), subscriptionEntries[..], SubscriptionEntity, pending)
         else old(subscriptions.records[..]))
  {
    var available := Prescan(services, clients, subscriptions, serviceEntries, clientEntries, subscriptionEntries);
    blockedMs, available := BlockIfIdle(available, timeout, infinite, woken);
    if available {
      var marked := Rescan(services, clients, subscriptions, serviceEntries, clientEntries, subscriptionEntries,
                           buffers);
      available := available || marked;
    }
    ret := if available then Ok else Timeout;
  }

  /** The three pre-scan loops, over services, clients and subscriptions in that order. */
  method Prescan(services: Pool<Endpoint>, clients: Pool<Endpoint>, subscriptions: Pool<Endpoint>,
                 serviceEntries: array<int>, clientEntries: array<int>, subscriptionEntries: array<int>)
    returns (flagged: bool)
    requires Designates(serviceEntries[..], services.records[..])
    requires Designates(clientEntries[..], clients.records[..])
    requires Designates(subscriptionEntries[..], subscriptions.records[..])
    ensures flagged <==>
      || HasFlag(serviceEntries[..], services.records[..])
      || HasFlag(clientEntries[..], clients.records[..])
      || HasFlag(subscriptionEntries[..], subscriptions.records[..])
  {
    flagged := ScanFlags(services, serviceEntries, false);
    flagged := ScanFlags(clients, clientEntries, flagged);
    flagged := ScanFlags(subscriptions, subscriptionEntries, flagged);
  }

  /**
   * The three re-scan loops, over services, clients and subscriptions in
   * that order. Returns whether any entity was marked.
   */
  method Rescan(services: Pool<Endpoint>, clients: Pool<Endpoint>, subscriptions: Pool<Endpoint>,
                serviceEntries: array<int>, clientEntries: array<int>, subscriptionEntries: array<int>,
                buffers: Pool<InputBuffer>)
    returns (marked: bool)
    requires buffers.Walkable()
    requires Designates(serviceEntries[..], services.records[..])
    requires Designates(clientEntries[..], clients.records[..])
    requires Designates(subscriptionEntries[..], subscriptions.records[..])
    requires Separate(services, clients, subscriptions, serviceEntries, clientEntries, subscriptionEntries, buffers)
    modifies services.records, clients.records, subscriptions.records
    ensures var pending := Owners(buffers.Allocated, buffers.records[..]);
      && services.records[..] == AfterRescan(old(services.records[..]), serviceEntries[..], ServiceEntity, pending)
      && clients.records[..] == AfterRescan(old(clients.records[..]), clientEntries[..], ClientEntity, pending)
      && subscriptions.records[..] ==
           AfterRescan(old(subscriptions.records[..]), subscriptionEntries[..], SubscriptionEntity, pending)
  {
    ghost var B := buffers.records[..];
    ghost var C0, U0 := clients.records[..], subscriptions.records[..];
    var m1 := MarkReady(ServiceEntity, services, serviceEntries, buffers);
    assert buffers.records[..] == B;
    assert clients.records[..] == C0 && subscriptions.records[..] == U0;
    ghost var S1 := services.records[..];
    var m2 := MarkReady(ClientEntity, clients, clientEntries, buffers);
    assert buffers.records[..] == B;
    assert services.records[..] == S1 && subscriptions.records[..] == U0;
    ghost var C2 := clients.records[..];
    var m3 := MarkReady(SubscriptionEntity, subscriptions, subscriptionEntries, buffers);
    assert buffers.records[..] == B;
    assert services.records[..] == S1 && clients.records[..] == C2;
    marked := m1 || m2 || m3;
  }

  /** The three nulling loops, over services, clients and subscriptions in that order. */
  method NullAll(services: Pool<Endpoint>, clients: Pool<Endpoint>, subscriptions: Pool<Endpoint>,
                 serviceEntries: array<int>, clientEntries: array<int>, subscriptionEntries: array<int>)
    requires Designates(serviceEntries[..], services.records[..])
    requires Designates(clientEntries[..], clients.records[..])
    requires Designates(subscriptionEntries[..], subscriptions.records[..])
    requires serviceEntries != clientEntries && serviceEntries != subscriptionEntries
    requires clientEntries != subscriptionEntries
    modifies serviceEntries, clientEntries, subscriptionEntries
    ensures serviceEntries[..] == Nulled(old(serviceEntries[..]), services.records[..])
    ensures clientEntries[..] == Nulled(old(clientEntries[..]), clients.records[..])
    ensures subscriptionEntries[..] == Nulled(old(subscriptionEntries[..]), subscriptions.records[..])
  {
    NullNotReady(services, serviceEntries);
    NullNotReady(clients, clientEntries);
    NullNotReady(subscriptions, subscriptionEntries);
  }

  /**
   * With nothing flagged and a timeout under one millisecond the semaphore
   * is not waited on, so no buffer is looked at and the result is TIMEOUT
   * however many buffers are pending.
   */
  lemma SubMillisecondTimeoutTimesOut(timeout: int64, woken: bool)
    requires 0 <= timeout < 1000000
    ensures !Blocks(false, timeout) && !Available(false, timeout, woken)
  {
  }

  /**
   * A wake-up that finds nothing for this wait set: when no watched entity
   * is flagged and none owns a pending buffer, the re-scan changes no flag
   * and the nulling clears every entry, although the result is OK.
   */
  lemma {:induction false} WakeWithoutDataNullsAll(records: seq<Endpoint>, entries: seq<int>, kind: EntityKind,
                                                   pending: set<Owner>)
    requires Designates(entries, records) && !HasFlag(entries, records)
    requires forall i | 0 <= i < |entries| :: OwnedBy(kind, entries[i]) !in pending
    ensures AfterRescan(records, entries, kind, pending) == records
    ensures Nulled(entries, records) == seq(|entries|, _ => Nil)
  {
    var r := AfterRescan(records, entries, kind, pending);
    forall c | 0 <= c < |records| ensures r[c] == records[c] {
      if c in entries {
        var i :| 0 <= i < |entries| && entries[i] == c;
        assert OwnedBy(kind, entries[i]) !in pending;
      }
    }
    forall i | 0 <= i < |entries| ensures !records[entries[i]].hasData {
      assert !HasFlag(entries, records);
    }
  }
}
