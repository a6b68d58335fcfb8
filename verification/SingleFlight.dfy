/**
 The two caches that run one lookup per key at a time: the resolution cache, whose entries
 expire when idle (internal/materialize/service.go), and the download URL cache, whose entries
 stay until they are invalidated (internal/transport/webdav/handler.go). A resolution or a URL
 is its text; a flight is named by its position among all flights ever started.
 */
module SingleFlight {
  import opened Wrappers

  datatype Entry = Entry(value: string, lastAccess: int)

  /** Stored: the resolution cache publishes the entry before it finishes the flight. */
  datatype Phase = Running | Stored(value: string) | Finished(outcome: Option<string>)

  datatype Flight = Flight(key: string, phase: Phase)

  datatype Cache = Cache(entries: map<string, Entry>, flights: map<string, nat>, all: seq<Flight>)

  datatype Begun = Hit(value: string) | Joined(flight: nat) | Leads(flight: nat)

  const EMPTY := Cache(map[], map[], [])

  predicate IsIdle(e: Entry, now: int, ttl: int) {
    now - e.lastAccess >= ttl
  }

  function IdleKeys(entries: map<string, Entry>, now: int, ttl: int): set<string> {
    set k | k in entries && IsIdle(entries[k], now, ttl)
  }

  // ----- Critical sections as functions of the cache -----

  /** The key's entry touched if it is fresh, dropped if it is idle. */
  function Visited(entries: map<string, Entry>, key: string, now: int, ttl: int): map<string, Entry> {
    if ttl <= 0 || key !in entries then entries
    else if IsIdle(entries[key], now, ttl) then entries - {key}
    else entries[key := Entry(entries[key].value, now)]
  }

  function FreshValue(entries: map<string, Entry>, key: string, now: int, ttl: int): Option<string> {
    if ttl > 0 && key in entries && !IsIdle(entries[key], now, ttl) then Some(entries[key].value) else None
  }

  function Boarded(c: Cache, key: string): Cache {
    if key in c.flights then c
    else c.(flights := c.flights[key := |c.all|], all := c.all + [Flight(key, Running)])
  }

  function BeginResolution(c: Cache, key: string, now: int, ttl: int): (Begun, Cache) {
    var c' := c.(entries := Visited(c.entries, key, now, ttl));
    var value := FreshValue(c.entries, key, now, ttl);
    if value.Some? then (Hit(value.value), c')
    else (if key in c.flights then Joined(c.flights[key]) else Leads(|c.all|), Boarded(c', key))
  }

  function StoreResolution(c: Cache, id: nat, value: string, now: int, ttl: int): Cache
    requires id < |c.all|
  {
    var key := c.all[id].key;
    c.(entries := if ttl <= 0 then c.entries
                  else (c.entries - IdleKeys(c.entries, now, ttl))[key := Entry(value, now)],
       all := c.all[id := Flight(key, Stored(value))])
  }

  function Finish(c: Cache, id: nat, outcome: Option<string>): Cache
    requires id < |c.all|
  {
    var key := c.all[id].key;
    c.(flights := c.flights - {key}, all := c.all[id := Flight(key, Finished(outcome))])
  }

  function BeginDownload(c: Cache, key: string): (Begun, Cache) {
    if key in c.entries && c.entries[key].value != "" then (Hit(c.entries[key].value), c)
    else (if key in c.flights then Joined(c.flights[key]) else Leads(|c.all|), Boarded(c, key))
  }

  function FinishDownload(c: Cache, id: nat, url: Option<string>, now: int): Cache
    requires id < |c.all|
  {
    var c' := Finish(c, id, url);
    if url.Some? then c'.(entries := c'.entries[c.all[id].key := Entry(url.value, now)]) else c'
  }

  function InvalidateDownload(c: Cache, key: string, stale: string): Cache {
    if key in c.entries && c.entries[key].value == stale then c.(entries := c.entries - {key}) else c
  }

  // ----- The caches -----

  class ResolutionCache {
    const ttl: int
    var entries: map<string, Entry>
    var flights: map<string, nat>
    var all: seq<Flight>

    ghost function View(): Cache
      reads this
    {
      Cache(entries, flights, all)
    }

    constructor (ttl: int)
      ensures this.ttl == ttl && View() == EMPTY
    {
      this.ttl := ttl;
      entries, flights, all := map[], map[], [];
    }

    method CachedResolution(key: string, now: int) returns (hit: Option<string>)
      modifies this`entries
      ensures hit == FreshValue(old(entries), key, now, ttl)
      ensures entries == Visited(old(entries), key, now, ttl)
    {
      if ttl <= 0 || key !in entries {
        return None;
      }
      var entry := entries[key];
      if now - entry.lastAccess >= ttl {
        entries := entries - {key};
        return None;
      }
      entries := entries[key := entry.(lastAccess := now)];
      hit := Some(entry.value);
    }

    method StartResolution(key: string, now: int) returns (begun: Begun)
      modifies this
      ensures (begun, View()) == BeginResolution(old(View()), key, now, ttl)
    {
      if ttl > 0 && key in entries {
        var entry := entries[key];
        if now - entry.lastAccess < ttl {
          entries := entries[key := entry.(lastAccess := now)];
          return Hit(entry.value);
        }
        entries := entries - {key};
      }
      if key in flights {
        return Joined(flights[key]);
      }
      flights := flights[key := |all|];
      begun := Leads(|all|);
      all := all + [Flight(key, Running)];
    }

    method PurgeIdle(now: int)
      modifies this`entries
      ensures entries == old(entries) - IdleKeys(old(entries), now, ttl)
    {
      ghost var before := entries;
      var left := entries.Keys;
      while left != {}
        invariant left <= before.Keys
        invariant forall k :: k in entries <==> k in before && (k in left || !IsIdle(before[k], now, ttl))
        invariant forall k | k in entries :: entries[k] == before[k]
        decreases |left|
      {
        var cached :| cached in left;
        left := left - {cached};
        if now - entries[cached].lastAccess >= ttl {
          entries := entries - {cached};
        }
      }
      assert entries == before - IdleKeys(before, now, ttl);
    }

    /** The first of the two critical sections that publish a success. */
    method CacheResolution(id: nat, value: string, now: int)
      requires id < |all|
      modifies this
      ensures View() == StoreResolution(old(View()), id, value, now, ttl)
    {
      var key := all[id].key;
      all := all[id := Flight(key, Stored(value))];
      if ttl <= 0 {
        return;
      }
      PurgeIdle(now);
      entries := entries[key := Entry(value, now)];
    }

    /** The second one, and the only one for a failure. */
    method CompleteFlight(id: nat, outcome: Option<string>)
      requires id < |all|
      modifies this
      ensures View() == Finish(old(View()), id, outcome)
    {
      var key := all[id].key;
      all := all[id := Flight(key, Finished(outcome))];
      flights := flights - {key};
    }
  }

  class DownloadUrlCache {
    var entries: map<string, Entry>
    var flights: map<string, nat>
    var all: seq<Flight>

    ghost function View(): Cache
      reads this
    {
      Cache(entries, flights, all)
    }

    constructor ()
      ensures View() == EMPTY
    {
      entries, flights, all := map[], map[], [];
    }

    method StartDownload(key: string) returns (begun: Begun)
      modifies this
      ensures (begun, View()) == BeginDownload(old(View()), key)
    {
      if key in entries && entries[key].value != "" {
        return Hit(entries[key].value);
      }
      if key in flights {
        return Joined(flights[key]);
      }
      flights := flights[key := |all|];
      begun := Leads(|all|);
      all := all + [Flight(key, Running)];
    }

    method CompleteDownload(id: nat, url: Option<string>, now: int)
      requires id < |all|
      modifies this
      ensures View() == FinishDownload(old(View()), id, url, now)
    {
      var key := all[id].key;
      if url.Some? {
        entries := entries[key := Entry(url.value, now)];
      }
      all := all[id := Flight(key, Finished(url))];
      flights := flights - {key};
    }

    method Invalidate(key: string, stale: string)
      modifies this`entries
      ensures View() == InvalidateDownload(old(View()), key, stale)
    {
      if (if key in entries then entries[key].value else "") == stale {
        entries := entries - {key};
      }
    }
  }
}
