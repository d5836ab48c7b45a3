/** The telemetry service: its counters and tenant counts, the ring of minutes and the ring of events. */
module Telemetry {
  import opened Text
  import opened TelemetryRings
  import opened TenantWrites

  datatype Event = Event(kind: string, tenant: string, status: int, items: nat, at: int)
  datatype Counts = Counts(writes: nat, searches: nat)
  datatype MinuteCount = MinuteCount(minute: int, count: nat)

  function Newest(log: seq<Event>, n: nat): (r: seq<Event>)
    requires n <= |log|
    ensures |r| == n
  {
    seq(n, i requires 0 <= i < n => log[|log| - 1 - i])
  }

  class Service {
    var storeCount: nat
    var batchStoreCount: nat
    var searchCount: nat
    const requestRing: array<Bucket>
    const events: array<Event>
    var eventHead: nat
    var eventSize: nat
    var tenantCounts: map<string, Counts>

    // everything ever recorded
    ghost var minutes: seq<int>
    ghost var eventLog: seq<Event>
    ghost var log: seq<Observation>

    ghost predicate MinutesValid()
      reads this, requestRing
    {
      requestRing.Length > 0 &&
      forall slot | 0 <= slot < requestRing.Length :: requestRing[slot] == SlotAfter(minutes, requestRing.Length, slot)
    }

    /** The ring holds the newest events, each in the slot of its number. */
    ghost predicate EventsValid()
      reads this, events
    {
      && events.Length > 0
      && eventSize == Min(|eventLog|, events.Length) && eventHead == |eventLog| % events.Length
      && forall k | |eventLog| - eventSize <= k < |eventLog| :: events[k % events.Length] == eventLog[k]
    }

    ghost predicate TenantsValid()
      reads this
    {
      forall t | t != "" :: Held(tenantCounts, t) == Counts(WritesOf(log, t), SearchesOf(log, t))
    }

    constructor (requestWindowMinutes: int, eventBufferSize: int, nothing: Event)
      ensures MinutesValid() && EventsValid() && TenantsValid()
      ensures minutes == [] && eventLog == [] && log == []
      ensures storeCount == 0 && batchStoreCount == 0 && searchCount == 0 && tenantCounts == map[]
      ensures requestRing.Length == if requestWindowMinutes <= 0 then 30 else requestWindowMinutes
      ensures events.Length == if eventBufferSize <= 0 then 256 else eventBufferSize
      ensures fresh(requestRing) && fresh(events)
    {
      var window := if requestWindowMinutes <= 0 then 30 else requestWindowMinutes;
      var capacity := if eventBufferSize <= 0 then 256 else eventBufferSize;
      requestRing := new Bucket[window](_ => Bucket(0, 0));
      events := new Event[capacity](_ => nothing);
      storeCount, batchStoreCount, searchCount, eventHead, eventSize, tenantCounts := 0, 0, 0, 0, 0, map[];
      minutes, eventLog, log := [], [], [];
    }

    // ----- minutes

    /** Not ok stands for the panic of an index below zero. */
    method RecordRequestMinute(minute: int) returns (ok: bool)
      requires MinutesValid()
      modifies requestRing, this`minutes
      ensures ok <==> minute >= 0 || minute % requestRing.Length == 0
      ensures MinutesValid() && minutes == if ok then old(minutes) + [minute] else old(minutes)
    {
      var idx := GoMod(minute, requestRing.Length);
      if idx < 0 {
        return false;
      }
      var bucket := requestRing[idx];
      if bucket.minute != minute {
        requestRing[idx] := Bucket(minute, 1);
      } else {
        requestRing[idx] := Bucket(minute, bucket.count + 1);
      }
      minutes := minutes + [minute];
      assert minutes[..|minutes| - 1] == old(minutes);
      ok := true;
    }

    /**
     One count for each of the last minutes, oldest first. None is too high; each is exact when every record was less than a
     window older than the newest before it and none is newer than the minute asked at. Not ok stands for the panic of an
     index below zero: it is met exactly when the window of more than one minute reaches back before 1970.
     */
    method RequestsPerMinute(current: int) returns (ok: bool, out: seq<MinuteCount>)
      requires MinutesValid()
      ensures ok <==> current >= requestRing.Length - 1 || requestRing.Length == 1
      ensures ok ==> |out| == requestRing.Length
      ensures ok ==> forall i | 0 <= i < |out| :: var minute := current - requestRing.Length + 1 + i;
                out[i] == MinuteCount(minute, Reported(minutes, requestRing.Length, minute))
                && out[i].count <= multiset(minutes)[minute]
      ensures ok && InWindow(minutes, requestRing.Length) && (forall m | m in minutes :: m <= current) ==>
                forall i | 0 <= i < |out| :: var minute := current - requestRing.Length + 1 + i;
                  out[i] == MinuteCount(minute, multiset(minutes)[minute])
    {
      hide SlotAfter, InWindow, GoMod;
      var window := requestRing.Length;
      out := [];
      var start := current - window + 1;
      for minute := start to current + 1
        invariant |out| == minute - start
        invariant forall m | start <= m < minute :: m >= 0 || m % window == 0
        invariant forall i | 0 <= i < |out| :: out[i] == MinuteCount(start + i, Reported(minutes, window, start + i))
      {
        var idx := GoMod(minute, window);
        if idx < 0 {
          OneIsNoWindow(minute, window);
          return false, [];
        }
        var count := 0;
        if requestRing[idx].minute == minute {
          count := requestRing[idx].count;
        }
        out := out + [MinuteCount(minute, count)];
      }
      ReachesBack(start, window);
      hide Reported, Count;
      forall i | 0 <= i < |out|
        ensures out[i].count <= multiset(minutes)[start + i]
      {
        CountIsMultiplicity(minutes, start + i);
        ReportIsExactIff(minutes, window, start + i);
      }
      if InWindow(minutes, window) && forall m | m in minutes :: m <= current {
        forall i | 0 <= i < |out|
          ensures out[i].count == multiset(minutes)[start + i]
        {
          CountIsMultiplicity(minutes, start + i);
          WindowIsExact(minutes, window, current, start + i);
        }
      }
      ok := true;
    }

    // ----- events

    method AppendEvent(event: Event)
      requires EventsValid()
      modifies events, this`eventHead, this`eventSize, this`eventLog
      ensures EventsValid() && eventLog == old(eventLog) + [event]
    {
      NextSlot(|eventLog|, events.Length);
      ghost var first := if eventSize < events.Length then 0 else |eventLog| + 1 - events.Length;
      forall k | first <= k < |eventLog|
        ensures k % events.Length != |eventLog| % events.Length
      {
        NearSlotsDiffer(k, |eventLog|, events.Length);
      }
      events[eventHead] := event;
      eventHead := (eventHead + 1) % events.Length;
      if eventSize < events.Length {
        eventSize := eventSize + 1;
      }
      eventLog := eventLog + [event];
    }

    /** Exactly the most recent events, newest first, as many as the limit, the capacity and the total allow. */
    method RecentEvents(limit: int) returns (out: seq<Event>)
      requires EventsValid()
      ensures out == Newest(eventLog, Min(if limit <= 0 then 20 else limit, Min(events.Length, |eventLog|)))
      ensures |out| <= (if limit <= 0 then 20 else limit) && |out| <= events.Length && |out| <= |eventLog|
      ensures |out| == (if limit <= 0 then 20 else limit) || |out| == events.Length || |out| == |eventLog|
      ensures forall i | 0 <= i < |out| :: out[i] == eventLog[|eventLog| - 1 - i]
    {
      var n := if limit <= 0 then 20 else limit;
      if n > eventSize {
        n := eventSize;
      }
      out := [];
      for i := 0 to n
        invariant |out| == i && forall j | 0 <= j < i :: out[j] == eventLog[|eventLog| - 1 - j]
      {
        RecentSlot(|eventLog|, i, events.Length);
        var idx := (eventHead - 1 - i + events.Length) % events.Length;
        out := out + [events[idx]];
      }
    }

    // ----- observations

    method AddTenantWrites(tenant: string, value: int)
      modifies this`tenantCounts
      ensures forall t | t != "" ::
                Held(tenantCounts, t) == Added(Held(old(tenantCounts), t), if t == tenant && value > 0 then value else 0)
    {
      if value <= 0 || tenant == "" {
        return;
      }
      var counts := Held(tenantCounts, tenant);
      tenantCounts := tenantCounts[tenant := Counts(counts.writes + value, counts.searches)];
    }

    method AddTenantSearches(tenant: string)
      modifies this`tenantCounts
      ensures forall t | t != "" :: var was := Held(old(tenantCounts), t);
                Held(tenantCounts, t) == Counts(was.writes, was.searches + if t == tenant then 1 else 0)
    {
      if tenant == "" {
        return;
      }
      var counts := Held(tenantCounts, tenant);
      tenantCounts := tenantCounts[tenant := Counts(counts.writes, counts.searches + 1)];
    }

    /** A panic comes before the event is appended. */
    method RecordRequest(minute: int, tracked: bool, tenant: string, status: int, at: int) returns (ok: bool)
      requires MinutesValid() && EventsValid()
      modifies this`minutes, this`eventHead, this`eventSize, this`eventLog, requestRing, events
      ensures MinutesValid() && EventsValid()
      ensures ok <==> !tracked || minute >= 0 || minute % requestRing.Length == 0
      ensures minutes == if tracked && ok then old(minutes) + [minute] else old(minutes)
      ensures eventLog == if tracked && ok then old(eventLog) + [Event("request", TrimSpace(tenant), status, 0, at)] else old(eventLog)
    {
      hide TrimSpace, SlotAfter;
      ok := true;
      if tracked {
        ok := RecordRequestMinute(minute);
        if !ok {
          return;
        }
        AppendEvent(Event("request", TrimSpace(tenant), status, 0, at));
      }
    }

    method RecordStore(tenant: string, status: int, at: int)
      requires EventsValid() && TenantsValid()
      modifies this, events
      ensures EventsValid() && TenantsValid() && log == old(log) + [Stored(tenant, status)] && minutes == old(minutes)
      ensures eventLog == old(eventLog) + [Event("store", TrimSpace(tenant), status, 0, at)]
      ensures storeCount == old(storeCount) + (if 200 <= status < 400 then 1 else 0)
      ensures forall t | t != "" :: var was := Held(old(tenantCounts), t);
                Held(tenantCounts, t) == was.(writes := was.writes + if 200 <= status < 400 && TrimSpace(tenant) == t then 1 else 0)
      ensures batchStoreCount == old(batchStoreCount) && searchCount == old(searchCount)
    {
      hide TrimSpace, WritesOf, SearchesOf, Credits, WritesIn;
      var id := TrimSpace(tenant);
      if Success(status) {
        storeCount := storeCount + 1;
        AddTenantWrites(id, 1);
      }
      log := log + [Stored(tenant, status)];
      LoggedCounts(old(log), Stored(tenant, status));
      AppendEvent(Event("store", id, status, 0, at));
    }

    method RecordSearch(tenant: string, status: int, at: int)
      requires EventsValid() && TenantsValid()
      modifies this, events
      ensures EventsValid() && TenantsValid() && log == old(log) + [Searched(tenant, status)] && minutes == old(minutes)
      ensures eventLog == old(eventLog) + [Event("search", TrimSpace(tenant), status, 0, at)]
      ensures searchCount == old(searchCount) + (if 200 <= status < 400 then 1 else 0)
      ensures forall t | t != "" :: var was := Held(old(tenantCounts), t);
                Held(tenantCounts, t) == was.(searches := was.searches + if 200 <= status < 400 && TrimSpace(tenant) == t then 1 else 0)
      ensures batchStoreCount == old(batchStoreCount) && storeCount == old(storeCount)
    {
      hide TrimSpace, WritesOf, SearchesOf, Credits, WritesIn;
      var id := TrimSpace(tenant);
      if Success(status) {
        searchCount := searchCount + 1;
        AddTenantSearches(id);
      }
      log := log + [Searched(tenant, status)];
      LoggedCounts(old(log), Searched(tenant, status));
      AppendEvent(Event("search", id, status, 0, at));
    }

    /** Adds each entry's items to its tenant when the batch succeeded; the event names the tenant when exactly one entry counts. */
    method RecordBatchStore(writes: seq<Write>, status: int, at: int)
      requires EventsValid() && TenantsValid()
      modifies this, events
      ensures EventsValid() && TenantsValid() && log == old(log) + [BatchStored(writes, status)] && minutes == old(minutes)
      ensures eventLog == old(eventLog) + [Event("batch_store", OnlyTenant(writes), status,
                                                 if 200 <= status < 400 then AllItems(writes) else 0, at)]
      ensures IsOnlyTenant(writes, OnlyTenant(writes))
      ensures batchStoreCount == old(batchStoreCount) + (if 200 <= status < 400 then 1 else 0)
      ensures forall t | t != "" :: var was := Held(old(tenantCounts), t);
                Held(tenantCounts, t) == was.(writes := was.writes + if 200 <= status < 400 then Credits(writes, t) else 0)
      ensures storeCount == old(storeCount) && searchCount == old(searchCount)
    {
      hide TrimSpace, WritesOf, SearchesOf, IsOnlyTenant, OnlyTenant, Credits, AllItems, WritesIn;
      OnlyTenantIsIt(writes);
      var totalItems, id := CreditBatch(writes, Success(status));
      if Success(status) {
        batchStoreCount := batchStoreCount + 1;
      } else {
        totalItems := 0;
      }
      BatchCredits(writes, status);
      log := log + [BatchStored(writes, status)];
      LoggedCounts(old(log), BatchStored(writes, status));
      AppendEvent(Event("batch_store", id, status, totalItems, at));
    }

    /** The loop over the batch's map: the items that count, the one tenant that has any, and their credits on success. */
    method CreditBatch(writes: seq<Write>, success: bool) returns (totalItems: nat, id: string)
      modifies this`tenantCounts
      ensures totalItems == AllItems(writes) && id == OnlyTenant(writes)
      ensures forall t | t != "" ::
                Held(tenantCounts, t) == Added(Held(old(tenantCounts), t), if success then Credits(writes, t) else 0)
    {
      hide TrimSpace;
      totalItems, id := 0, "";
      var counted := 0;
      for i := 0 to |writes|
        invariant totalItems == AllItems(writes[..i]) && counted == |Counting(writes[..i])|
        invariant counted > 0 ==> id == Counting(writes[..i])[counted - 1]
        invariant forall t | t != "" ::
                    Held(tenantCounts, t) == Added(Held(old(tenantCounts), t), if success then Credits(writes[..i], t) else 0)
      {
        assert writes[..i + 1][..i] == writes[..i];
        var w := writes[i];
        if w.count <= 0 {
          continue;
        }
        var tenant := TrimSpace(w.tenant);
        if tenant == "" {
          continue;
        }
        totalItems, counted, id := totalItems + w.count, counted + 1, tenant;
        if success {
          AddTenantWrites(tenant, w.count);
        }
      }
      assert writes[..|writes|] == writes;
      if counted != 1 {
        id := "";
      }
    }
  }

  function Added(c: Counts, n: nat): Counts {
    Counts(c.writes + n, c.searches)
  }

  lemma BatchCredits(writes: seq<Write>, status: int)
    ensures WritesIn(BatchStored(writes, status)) == (if Success(status) then writes else []) && forall t :: Credits([], t) == 0
  {
  }

  lemma LoggedCounts(log: seq<Observation>, o: Observation)
    ensures forall t | t != "" :: WritesOf(log + [o], t) == WritesOf(log, t) + Credits(WritesIn(o), t)
    ensures forall t | t != "" :: SearchesOf(log + [o], t) ==
              SearchesOf(log, t) + if o.Searched? && Success(o.status) && TrimSpace(o.tenant) == t then 1 else 0
    ensures !o.BatchStored? ==> (forall t | t != "" ::
              Credits(WritesIn(o), t) == if o.Stored? && Success(o.status) && TrimSpace(o.tenant) == t then 1 else 0)
  {
    hide TrimSpace;
    assert (log + [o])[..|log|] == log;
  }

  function Held(counts: map<string, Counts>, tenant: string): Counts {
    if tenant in counts then counts[tenant] else Counts(0, 0)
  }
}
