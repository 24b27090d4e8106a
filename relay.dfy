/**
 * The stream relay of server/src/stream.ts. For every station it keeps one upstream Icecast
 * connection, a list of listening HTTP responses, a lookback RingBuffer whose contents a new
 * listener receives first, the last parsed now-playing metadata, and a watchdog record.
 *
 * The module-level maps of the source are the fields of one `Relay` object. Responses and
 * upstream connections are opaque identities, the clock is a parameter, and what leaves the
 * process (bytes written to a listener, metadata published to subscribers, upstream connections
 * dialled) is recorded in ghost logs.
 */
module StreamRelay {
  import opened Wrappers
  import opened Stations
  import opened Watchdog
  import opened NowPlaying
  import opened OrderedMaps
  import opened Listeners
  import Spec = RingBufferSpec
  import opened RingBuffers

  /** An upstream Icecast response; only its identity matters. */
  type ConnId = nat

  /** The size of each station's lookback buffer. */
  const LookbackCapacity: nat := 131072

  /** One call of `listenToStream(id, url)`: an upstream connection being dialled. */
  datatype Connect = Connect(id: StationId, url: string)

  /** How a listener's request ends: streaming, a 404 with a JSON body, or an exception. */
  datatype Reply = Streaming | NotFound(code: int, body: string) | Failed

  /** What a `data` event does: ignored as stale, relayed, or aborted by an exception. */
  datatype DataOutcome = Ignored | Delivered | Aborted

  /** The object `stats()` returns. */
  datatype StatsReport = StatsReport(activeConnections: nat, streamStatus: map<StationId, StreamStatus>)

  /** The body of the 404 reply, `{ status: "Not found" }` serialised. */
  const NotFoundBody: string := "{\"status\":\"Not found\"}"

  /** Whether `id` is currently served by upstream connection `conn`. */
  predicate Current(upstream: map<StationId, ConnId>, id: StationId, conn: ConnId) {
    id in upstream && upstream[id] == conn
  }

  /** Whether the `buffer` route parameter asks for the lookback snapshot. */
  predicate WantsSnapshot(bufferParam: Option<string>) {
    bufferParam == None || bufferParam == Some("bufferon")
  }

  predicate WithinCeiling(status: OrderedMap<StationId, StreamStatus>) {
    forall id :: id in status.entries ==> 0 <= status.entries[id].failures <= FailureCeiling
  }

  /** The status table with the `status` flag of `id` set to `on`, if `id` has a record. */
  function SetOn(status: OrderedMap<StationId, StreamStatus>, id: StationId, on: bool): (r: OrderedMap<StationId, StreamStatus>)
    requires status.Valid()
    ensures r.Valid() && r.keys == status.keys && r.entries.Keys == status.entries.Keys
    ensures id in status.entries ==> r.entries[id] == status.entries[id].(on := on)
    ensures forall k :: k in status.entries && k != id ==> r.entries[k] == status.entries[k]
  {
    if id in status.entries then status.Set(id, status.entries[id].(on := on)) else status
  }

  /** The connections one watchdog pass opens over the given keys, judged on the records before the pass. */
  function Reconnects(keys: seq<StationId>, status: map<StationId, StreamStatus>, now: int): seq<Connect>
    requires forall k :: k in keys ==> k in status
    decreases |keys|
  {
    if keys == [] then []
    else
      var last := status[keys[|keys| - 1]];
      Reconnects(keys[..|keys| - 1], status, now) + (if Tick(last, now).reconnect then [Connect(last.id, last.url)] else [])
  }

  /** One watchdog pass over `keys`, in order: the table after it and the connections it opens. */
  function MonitorPass(status: map<StationId, StreamStatus>, keys: seq<StationId>, now: int): (r: (map<StationId, StreamStatus>, seq<Connect>))
    requires forall k :: k in keys ==> k in status
    ensures r.0.Keys == status.Keys
    decreases |keys|
  {
    if keys == [] then (status, [])
    else
      var k := keys[|keys| - 1];
      var prior := MonitorPass(status, keys[..|keys| - 1], now);
      var t := Tick(prior.0[k], now);
      (prior.0[k := t.status], prior.1 + (if t.reconnect then [Connect(t.status.id, t.status.url)] else []))
  }

  /**
   * A pass over distinct keys ticks each listed record exactly once, from its state before the
   * pass, leaves the others alone, and reconnects in key order the stations the tick selects.
   */
  lemma {:induction false} MonitorPassTicksEachOnce(status: map<StationId, StreamStatus>, keys: seq<StationId>, now: int)
    requires forall k :: k in keys ==> k in status
    requires forall i, j :: 0 <= i < j < |keys| ==> keys[i] != keys[j]
    ensures forall k :: k in status ==>
              MonitorPass(status, keys, now).0[k] == if k in keys then Tick(status[k], now).status else status[k]
    ensures MonitorPass(status, keys, now).1 == Reconnects(keys, status, now)
    decreases |keys|
  {
    if keys != [] {
      var init := keys[..|keys| - 1];
      var k := keys[|keys| - 1];
      MonitorPassTicksEachOnce(status, init, now);
      assert k !in init;
      assert keys == init + [k];
    }
  }

  /** The connections `initStreams` opens for the given stations, in order. */
  function InitialConnects(stations: seq<Station>): (cs: seq<Connect>)
    ensures |cs| == |stations|
    ensures forall i :: 0 <= i < |stations| ==> cs[i] == Connect(stations[i].id, stations[i].url)
    decreases |stations|
  {
    if stations == [] then []
    else
      var st := stations[|stations| - 1];
      InitialConnects(stations[..|stations| - 1]) + [Connect(st.id, st.url)]
  }

  /** The status table after `initStreams` has reset the record of each of the given stations, in order. */
  function ResetAll(status: OrderedMap<StationId, StreamStatus>, stations: seq<Station>): (r: OrderedMap<StationId, StreamStatus>)
    requires status.Valid()
    ensures r.Valid()
    decreases |stations|
  {
    if stations == [] then status
    else
      var st := stations[|stations| - 1];
      ResetAll(status, stations[..|stations| - 1]).Set(st.id, Initial(st))
  }

  /** Resetting adds exactly the ids of the given stations to the table. */
  lemma {:induction false} ResetAllKeys(status: OrderedMap<StationId, StreamStatus>, stations: seq<Station>)
    requires status.Valid()
    ensures forall k :: k in ResetAll(status, stations).entries <==> k in status.entries || exists i :: 0 <= i < |stations| && stations[i].id == k
    decreases |stations|
  {
    if stations != [] {
      var init := stations[..|stations| - 1];
      ResetAllKeys(status, init);
      assert forall i :: 0 <= i < |init| ==> init[i] == stations[i];
    }
  }

  /** Resetting leaves the record of every station not listed as it was. */
  lemma {:induction false} ResetAllKeepsOthers(status: OrderedMap<StationId, StreamStatus>, stations: seq<Station>, k: StationId)
    requires status.Valid() && k in status.entries
    requires forall i :: 0 <= i < |stations| ==> stations[i].id != k
    ensures k in ResetAll(status, stations).entries && ResetAll(status, stations).entries[k] == status.entries[k]
    decreases |stations|
  {
    if stations != [] {
      ResetAllKeepsOthers(status, stations[..|stations| - 1], k);
    }
  }

  /** Resetting stations with distinct ids gives each of them its initial record. */
  lemma {:induction false} ResetAllResets(status: OrderedMap<StationId, StreamStatus>, stations: seq<Station>, i: nat)
    requires status.Valid() && i < |stations|
    requires forall a, b :: 0 <= a < b < |stations| ==> stations[a].id != stations[b].id
    ensures stations[i].id in ResetAll(status, stations).entries
    ensures ResetAll(status, stations).entries[stations[i].id] == Initial(stations[i])
    decreases |stations|
  {
    if i < |stations| - 1 {
      ResetAllResets(status, stations[..|stations| - 1], i);
    }
  }

  /** The station ids of the table are distinct. */
  lemma TableIdsDistinct()
    ensures forall i, j :: 0 <= i < j < |Table| ==> Table[i].id != Table[j].id
  {
  }

  /** Extending a pass by one key ticks that key once more, from the table the shorter pass left. */
  lemma MonitorPassStep(status: map<StationId, StreamStatus>, keys: seq<StationId>, i: nat, now: int)
    requires i < |keys| && forall k :: k in keys ==> k in status
    ensures var prior := MonitorPass(status, keys[..i], now);
            var t := Tick(prior.0[keys[i]], now);
            MonitorPass(status, keys[..i + 1], now)
              == (prior.0[keys[i] := t.status], prior.1 + if t.reconnect then [Connect(t.status.id, t.status.url)] else [])
  {
    assert keys[..i + 1][..i] == keys[..i];
  }

  /** The loop of `streamMonitor()`: every record ticked in key order, and the connections that asks for. */
  method TickAll(status0: OrderedMap<StationId, StreamStatus>, now: int) returns (status: OrderedMap<StationId, StreamStatus>, ghost dialled: seq<Connect>)
    requires status0.Valid() && WithinCeiling(status0)
    ensures status.Valid() && WithinCeiling(status) && status.keys == status0.keys
    ensures status.entries == MonitorPass(status0.entries, status0.keys, now).0
    ensures dialled == MonitorPass(status0.entries, status0.keys, now).1
  {
    status := status0;
    dialled := [];
    var keys := status0.keys;
    for i := 0 to |keys|
      invariant status.Valid() && WithinCeiling(status) && status.keys == keys
      invariant (status.entries, dialled) == MonitorPass(status0.entries, keys[..i], now)
    {
      var id := keys[i];
      MonitorPassStep(status0.entries, keys, i, now);
      var t := Tick(status.entries[id], now);
      status := status.Set(id, t.status);
      dialled := dialled + if t.reconnect then [Connect(t.status.id, t.status.url)] else [];
    }
    assert keys[..|keys|] == keys;
  }

  class Relay {
    /** `streamStatus`: the watchdog record of each station, keyed by station id. */
    var streamStatus: OrderedMap<StationId, StreamStatus>
    /** `streamClients`: the listening responses of each station, in subscription order. */
    var streamClients: OrderedMap<StationId, seq<ClientId>>
    /** `icecastStreams`: the current upstream connection of each station. */
    var icecastStreams: map<StationId, ConnId>
    /** `musicBuffer`: the lookback buffer of each station that has sent data. */
    var musicBuffer: map<StationId, RingBuffer>
    /** `metadataCache`: the last metadata parsed for each station. */
    var metadataCache: OrderedMap<StationId, Metadata>

    /** Every `client.write`, in order. */
    ghost var writes: seq<Write>
    /** Every metadata publication, in order. */
    ghost var published: seq<Metadata>
    /** Every upstream connection dialled, in order. */
    ghost var connects: seq<Connect>

    /** The lookback buffers and their storage. */
    ghost function Buffers(): set<object>
      reads this`musicBuffer
    {
      (set id | id in musicBuffer :: musicBuffer[id] as object)
      + (set id | id in musicBuffer :: musicBuffer[id].buffer as object)
    }

    ghost predicate Valid()
      reads this`streamStatus, this`streamClients, this`metadataCache, this`musicBuffer, Buffers()
    {
      && streamStatus.Valid() && streamClients.Valid() && metadataCache.Valid()
      && WithinCeiling(streamStatus)
      && this !in Buffers()
      && LookbackValid()
    }

    /** Every lookback buffer is valid, and no two stations share one or its storage. */
    ghost predicate LookbackValid()
      reads this`musicBuffer, Buffers()
    {
      && (forall id :: id in musicBuffer ==> musicBuffer[id].Valid())
      && (forall a, b :: a in musicBuffer && b in musicBuffer && a != b ==>
            musicBuffer[a] != musicBuffer[b] && musicBuffer[a].buffer != musicBuffer[b].buffer)
    }

    /** The lookback of `id`, or the empty buffer `sendData` would create for it. */
    ghost function LookbackOf(id: StationId): Spec.RingState
      reads this`musicBuffer, Buffers()
    {
      if id in musicBuffer then musicBuffer[id].State() else Spec.Empty(LookbackCapacity)
    }

    constructor ()
      ensures Valid()
      ensures streamStatus == Empty() && streamClients == Empty() && metadataCache == Empty()
      ensures icecastStreams == map[] && musicBuffer == map[]
      ensures writes == [] && published == [] && connects == []
    {
      streamStatus := Empty();
      streamClients := Empty();
      icecastStreams := map[];
      musicBuffer := map[];
      metadataCache := Empty();
      writes := [];
      published := [];
      connects := [];
    }

    /** `sendMetadataEvents()`: every cached metadata record is published, in key order. */
    method SendMetadataEvents()
      requires metadataCache.Valid()
      modifies this`published
      ensures published == old(published) + metadataCache.Values()
    {
      var keys := metadataCache.keys;
      for i := 0 to |keys|
        invariant published == old(published) + metadataCache.Values()[..i]
      {
        published := published + [metadataCache.entries[keys[i]]];
        assert metadataCache.Values()[..i + 1] == metadataCache.Values()[..i] + [metadataCache.entries[keys[i]]];
      }
    }

    /** One iteration of `initStreams()`: `listenToStream(id, url)`, then the record of the station is reset. */
    method StartStation(st: Station)
      requires Valid()
      modifies this`streamStatus, this`connects
      ensures Valid()
      ensures streamStatus == old(streamStatus).Set(st.id, Initial(st))
      ensures connects == old(connects) + [Connect(st.id, st.url)]
    {
      connects := connects + [Connect(st.id, st.url)];
      streamStatus := streamStatus.Set(st.id, Initial(st));
    }

    /** The loop of `initStreams()` over the given stations. */
    method StartStations(stations: seq<Station>)
      requires Valid()
      modifies this`streamStatus, this`connects
      ensures Valid()
      ensures streamStatus == ResetAll(old(streamStatus), stations)
      ensures connects == old(connects) + InitialConnects(stations)
    {
      for i := 0 to |stations|
        invariant Valid()
        invariant streamStatus == ResetAll(old(streamStatus), stations[..i])
        invariant connects == old(connects) + InitialConnects(stations[..i])
      {
        StartStation(stations[i]);
        assert stations[..i + 1][..i] == stations[..i];
      }
      assert stations[..|stations|] == stations;
    }

    /**
     * `initStreams()`: one upstream connection is dialled per station and its watchdog record
     * reset, then the cached metadata is published. The timers it starts are not modelled.
     */
    method InitStreams()
      requires Valid()
      modifies this`streamStatus, this`connects, this`published
      ensures Valid()
      ensures streamStatus == ResetAll(old(streamStatus), Table)
      ensures connects == old(connects) + InitialConnects(Table)
      ensures published == old(published) + metadataCache.Values()
    {
      StartStations(Table);
      SendMetadataEvents();
    }

    /** The `icy.get` callback: `res` becomes the current upstream connection of `id`. */
    method Attach(id: StationId, conn: ConnId)
      modifies this`icecastStreams
      ensures icecastStreams == old(icecastStreams)[id := conn]
    {
      icecastStreams := icecastStreams[id := conn];
    }

    /** The `metadata` handler; `conn`, the connection it came from, is not consulted. */
    method OnMetadata(id: StationId, conn: ConnId, streamTitle: Option<string>)
      requires metadataCache.Valid()
      modifies this`metadataCache, this`published
      ensures metadataCache.Valid()
      ensures streamTitle.Some? && streamTitle.value != "" ==>
                && metadataCache == old(metadataCache).Set(id, ParseTitle(id, streamTitle.value))
                && published == old(published) + [ParseTitle(id, streamTitle.value)]
      ensures streamTitle.None? || streamTitle.value == "" ==>
                metadataCache == old(metadataCache) && published == old(published)
    {
      if streamTitle.Some? && streamTitle.value != "" {
        var metadata := ParseTitle(id, streamTitle.value);
        metadataCache := metadataCache.Set(id, metadata);
        published := published + [metadata];
      }
    }

    /** The `end` and `closed` handlers: the station's record is marked off. */
    method OnStreamEnd(id: StationId, conn: ConnId)
      requires Valid()
      modifies this`streamStatus
      ensures Valid()
      ensures streamStatus == SetOn(old(streamStatus), id, false)
    {
      streamStatus := SetOn(streamStatus, id, false);
    }

    /** `streamClients.get(id).forEach(client => client.write(bytes))`. */
    method FanOutChunk(id: StationId, bytes: seq<bv8>)
      modifies this`writes
      ensures writes == old(writes) + FanOut(ClientsOf(streamClients, id), bytes)
    {
      var list := ClientsOf(streamClients, id);
      for i := 0 to |list|
        invariant writes == old(writes) + FanOut(list[..i], bytes)
      {
        FanOutSnoc(list[..i], list[i], bytes);
        assert list[..i + 1] == list[..i] + [list[i]];
        writes := writes + [Write(list[i], bytes)];
      }
      assert list[..|list|] == list;
    }

    /** The lookback buffer of `id`, created empty if the station has none yet. */
    method LookbackBuffer(id: StationId) returns (rb: RingBuffer)
      requires Valid()
      modifies this`musicBuffer
      ensures Valid()
      ensures musicBuffer == old(musicBuffer)[id := rb]
      ensures id in old(musicBuffer) ==> rb == old(musicBuffer[id])
      ensures id !in old(musicBuffer) ==> fresh(rb) && fresh(rb.buffer)
      ensures rb.Valid() && rb.State() == old(LookbackOf(id))
    {
      if id in musicBuffer {
        rb := musicBuffer[id];
      } else {
        rb := new RingBuffer(LookbackCapacity);
        musicBuffer := musicBuffer[id := rb];
      }
    }

    /**
     * `dataMonitor(id, data)`: a non-empty chunk stamps the station's record with the time it
     * arrived. A station without a record makes that throw, reported as `false`.
     */
    method DataMonitor(id: StationId, chunk: seq<bv8>, now: int) returns (ok: bool)
      requires Valid()
      modifies this`streamStatus
      ensures Valid()
      ensures ok <==> |chunk| == 0 || id in old(streamStatus.entries)
      ensures ok && |chunk| > 0 ==> streamStatus == old(streamStatus).Set(id, old(streamStatus.entries[id]).(lastTime := Some(now)))
      ensures !ok || |chunk| == 0 ==> streamStatus == old(streamStatus)
    {
      ok := true;
      if |chunk| > 0 {
        if id !in streamStatus.entries {
          return false;
        }
        streamStatus := streamStatus.Set(id, streamStatus.entries[id].(lastTime := Some(now)));
      }
    }

    /** `musicBuffer.get(id).put(chunk)`, creating the buffer first if the station has none. */
    method StoreChunk(id: StationId, chunk: seq<bv8>) returns (result: Spec.PutResult)
      requires Valid()
      modifies this`musicBuffer, Buffers()
      ensures Valid()
      ensures musicBuffer.Keys == old(musicBuffer.Keys) + {id}
      ensures id in old(musicBuffer) ==> musicBuffer[id] == old(musicBuffer[id])
      ensures Spec.Put(old(LookbackOf(id)), chunk) == Spec.PutStep(musicBuffer[id].State(), result)
      ensures forall b :: b in old(musicBuffer) && b != id ==>
                b in musicBuffer && musicBuffer[b] == old(musicBuffer[b]) && musicBuffer[b].State() == old(musicBuffer[b].State())
    {
      var rb := LookbackBuffer(id);
      ghost var before := musicBuffer;
      result := rb.Put(chunk);
      forall b | b in old(musicBuffer) && b != id
        ensures musicBuffer[b].State() == old(musicBuffer[b].State())
      {
        assert before[b] != rb && before[b].buffer != rb.buffer;
      }
    }

    /** The chunk goes into the lookback and, unless that throws, to every listener in list order. */
    method RelayChunk(id: StationId, chunk: seq<bv8>) returns (r: DataOutcome)
      requires Valid()
      modifies this`musicBuffer, this`writes, Buffers()
      ensures Valid()
      ensures musicBuffer.Keys == old(musicBuffer.Keys) + {id}
      ensures id in old(musicBuffer) ==> musicBuffer[id] == old(musicBuffer[id])
      ensures Spec.Put(old(LookbackOf(id)), chunk).state == musicBuffer[id].State()
      ensures r == (if Spec.Put(old(LookbackOf(id)), chunk).result == Spec.RangeError then Aborted else Delivered)
      ensures writes == old(writes) + (if r == Delivered then FanOut(ClientsOf(streamClients, id), chunk) else [])
      ensures forall b :: b in old(musicBuffer) && b != id ==>
                b in musicBuffer && musicBuffer[b] == old(musicBuffer[b]) && musicBuffer[b].State() == old(musicBuffer[b].State())
    {
      var result := StoreChunk(id, chunk);
      if result == Spec.RangeError {
        return Aborted;
      }
      FanOutChunk(id, chunk);
      r := Delivered;
    }

    /**
     * `sendData(id, data, res)`. Data from a connection that is no longer current is ignored.
     * Otherwise a non-empty chunk stamps the record (a station without one throws), the chunk
     * goes into the lookback, and, unless that throws, to every listener in list order.
     */
    method SendData(id: StationId, conn: ConnId, chunk: seq<bv8>, now: int) returns (r: DataOutcome)
      requires Valid()
      modifies this`streamStatus, this`musicBuffer, this`writes, Buffers()
      ensures Valid()
      ensures !Current(old(icecastStreams), id, conn) ==> r == Ignored
      ensures Current(old(icecastStreams), id, conn) && |chunk| > 0 && id !in old(streamStatus.entries) ==> r == Aborted
      ensures r == Ignored || (r == Aborted && |chunk| > 0 && id !in old(streamStatus.entries)) ==>
                && streamStatus == old(streamStatus) && musicBuffer == old(musicBuffer) && writes == old(writes)
                && forall b :: b in musicBuffer ==> musicBuffer[b].State() == old(musicBuffer[b].State())
      ensures Current(old(icecastStreams), id, conn) && (|chunk| == 0 || id in old(streamStatus.entries)) ==>
                && streamStatus == (if |chunk| > 0 then old(streamStatus).Set(id, old(streamStatus.entries[id]).(lastTime := Some(now)))
                                    else old(streamStatus))
                && musicBuffer.Keys == old(musicBuffer.Keys) + {id}
                && (id in old(musicBuffer) ==> musicBuffer[id] == old(musicBuffer[id]))
                && Spec.Put(old(LookbackOf(id)), chunk).state == musicBuffer[id].State()
                && (r == Aborted <==> Spec.Put(old(LookbackOf(id)), chunk).result == Spec.RangeError)
                && r != Ignored
                && writes == old(writes) + (if r == Delivered then FanOut(ClientsOf(streamClients, id), chunk) else [])
      ensures forall b :: b in old(musicBuffer) && b != id ==>
                b in musicBuffer && musicBuffer[b] == old(musicBuffer[b]) && musicBuffer[b].State() == old(musicBuffer[b].State())
    {
      if id !in icecastStreams || icecastStreams[id] != conn {
        return Ignored;
      }
      var stamped := DataMonitor(id, chunk, now);
      if !stamped {
        return Aborted;
      }
      r := RelayChunk(id, chunk);
    }

    /**
     * The `data` handler: the station is marked on, whichever connection the chunk came from,
     * then `sendData` runs on the updated table.
     */
    method OnData(id: StationId, conn: ConnId, chunk: seq<bv8>, now: int) returns (r: DataOutcome)
      requires Valid()
      modifies this`streamStatus, this`musicBuffer, this`writes, Buffers()
      ensures Valid()
      ensures id in old(streamStatus.entries) ==> id in streamStatus.entries && streamStatus.entries[id].on
      // data from a connection that is no longer current only marks the station on
      ensures !Current(old(icecastStreams), id, conn) ==>
                && r == Ignored && streamStatus == SetOn(old(streamStatus), id, true)
                && musicBuffer == old(musicBuffer) && writes == old(writes)
                && forall b :: b in musicBuffer ==> musicBuffer[b].State() == old(musicBuffer[b].State())
      // a non-empty chunk for a station without a record throws before the lookback is touched
      ensures Current(old(icecastStreams), id, conn) && |chunk| > 0 && id !in old(streamStatus.entries) ==>
                && r == Aborted
                && streamStatus == old(streamStatus) && musicBuffer == old(musicBuffer) && writes == old(writes)
      // otherwise the record is marked on and stamped, the chunk goes into the lookback and,
      // unless that throws, to every listener
      ensures Current(old(icecastStreams), id, conn) && (|chunk| == 0 || id in old(streamStatus.entries)) ==>
                && streamStatus == (if |chunk| > 0 then old(streamStatus).Set(id, old(streamStatus.entries[id]).(on := true, lastTime := Some(now)))
                                    else SetOn(old(streamStatus), id, true))
                && musicBuffer.Keys == old(musicBuffer.Keys) + {id}
                && (id in old(musicBuffer) ==> musicBuffer[id] == old(musicBuffer[id]))
                && Spec.Put(old(LookbackOf(id)), chunk).state == musicBuffer[id].State()
                && (r == Aborted <==> Spec.Put(old(LookbackOf(id)), chunk).result == Spec.RangeError)
                && r != Ignored
                && writes == old(writes) + (if r == Delivered then FanOut(ClientsOf(streamClients, id), chunk) else [])
      ensures forall b :: b in old(musicBuffer) && b != id ==>
                b in musicBuffer && musicBuffer[b] == old(musicBuffer[b]) && musicBuffer[b].State() == old(musicBuffer[b].State())
    {
      ghost var before := streamStatus;
      streamStatus := SetOn(streamStatus, id, true);
      assert LookbackOf(id) == old(LookbackOf(id));
      r := SendData(id, conn, chunk, now);
      if id in before.entries {
        before.SetTwice(id, before.entries[id].(on := true), before.entries[id].(on := true, lastTime := Some(now)));
      }
    }

    /** Whether `remaining()` of the station's lookback is negative, which makes `Buffer.alloc` throw. */
    ghost predicate LookbackBroken(id: StationId)
      reads this`musicBuffer, Buffers()
    {
      id in musicBuffer && musicBuffer[id].State().remaining < 0
    }

    /** The write `sendInitialBuffer(res, id)` performs: the whole lookback, if there is one. */
    ghost function InitialWrites(client: ClientId, id: StationId): seq<Write>
      requires LookbackValid()
      reads this`musicBuffer, Buffers()
    {
      if id in musicBuffer && musicBuffer[id].State().remaining >= 0 then
        var s := musicBuffer[id].State();
        [Write(client, Spec.Peek(s, s.remaining).value)]
      else []
    }

    /**
     * `sendInitialBuffer(res, id)`: a listener of a station with a lookback is first sent all of
     * it. A negative `remaining()` makes `Buffer.alloc` throw, reported as `false`.
     */
    method SendInitialBuffer(client: ClientId, id: StationId) returns (ok: bool)
      requires Valid()
      modifies this`writes
      ensures ok == !LookbackBroken(id)
      ensures writes == old(writes) + InitialWrites(client, id)
    {
      ok := true;
      if id in musicBuffer {
        var rb := musicBuffer[id];
        var size := rb.Remaining();
        if size < 0 {
          return false;
        }
        var frame := rb.Peek(size);
        writes := writes + [Write(client, frame.value)];
      }
    }

    /** A station without a list gets an empty one, then the listener is pushed onto it. */
    method AddListener(id: StationId, client: ClientId)
      requires Valid()
      modifies this`streamClients
      ensures Valid()
      ensures streamClients == old(streamClients).Set(id, ClientsOf(old(streamClients), id) + [client])
    {
      var list := ClientsOf(streamClients, id);
      streamClients := streamClients.Set(id, list + [client]);
    }

    /**
     * `stream(req, res, next)` for a known station: the listener is appended to the station's
     * list, sent the lookback if the `buffer` parameter asks for it, and the cached metadata is
     * published.
     */
    method Listen(id: StationId, client: ClientId, bufferParam: Option<string>) returns (reply: Reply)
      requires Valid()
      modifies this`streamClients, this`writes, this`published
      ensures Valid()
      ensures streamClients == old(streamClients).Set(id, ClientsOf(old(streamClients), id) + [client])
      ensures reply == if WantsSnapshot(bufferParam) && LookbackBroken(id) then Failed else Streaming
      ensures writes == old(writes) + (if WantsSnapshot(bufferParam) then InitialWrites(client, id) else [])
      ensures published == old(published) + (if reply == Streaming then metadataCache.Values() else [])
    {
      AddListener(id, client);
      if WantsSnapshot(bufferParam) {
        var ok := SendInitialBuffer(client, id);
        if !ok {
          return Failed;
        }
      }
      SendMetadataEvents();
      reply := Streaming;
    }

    /** `stream(req, res, next)`: an unknown station gets a 404, a known one a listener. */
    method Subscribe(id: StationId, client: ClientId, bufferParam: Option<string>) returns (reply: Reply)
      requires Valid()
      modifies this`streamClients, this`writes, this`published
      ensures Valid()
      ensures CheckStreamId(id).None? ==>
                && reply == NotFound(404, NotFoundBody)
                && streamClients == old(streamClients) && writes == old(writes) && published == old(published)
      ensures CheckStreamId(id).Some? ==>
                && streamClients == old(streamClients).Set(id, ClientsOf(old(streamClients), id) + [client])
                && reply == (if WantsSnapshot(bufferParam) && LookbackBroken(id) then Failed else Streaming)
                && writes == old(writes) + (if WantsSnapshot(bufferParam) then InitialWrites(client, id) else [])
                && published == old(published) + (if reply == Streaming then metadataCache.Values() else [])
    {
      if CheckStreamId(id).None? {
        return NotFound(404, NotFoundBody);
      }
      reply := Listen(id, client, bufferParam);
    }

    /** `deleteUserStream(res, id)`: `splice(indexOf(res), 1)` on the station's list, if it has one. */
    method DeleteUserStream(client: ClientId, id: StationId)
      requires Valid()
      modifies this`streamClients
      ensures Valid()
      ensures id in old(streamClients.entries) ==>
                streamClients == old(streamClients).Set(id, RemoveClient(old(streamClients.entries[id]), client))
      ensures id !in old(streamClients.entries) ==> streamClients == old(streamClients)
      ensures ActiveConnections(streamClients) ==
                ActiveConnections(old(streamClients)) - (if |ClientsOf(old(streamClients), id)| > 0 then 1 else 0)
    {
      if id in streamClients.entries {
        var list := streamClients.entries[id];
        ActiveAfterSet(streamClients, id, RemoveClient(list, client));
        streamClients := streamClients.Set(id, RemoveClient(list, client));
      }
    }

    /** `stats()`. */
    function Stats(): StatsReport
      reads this
      requires streamClients.Valid()
    {
      StatsReport(ActiveConnections(streamClients), streamStatus.entries)
    }

    /** `streamMonitor()`: one watchdog tick for every record, in key order, at time `now`. */
    method StreamMonitor(now: int)
      requires Valid()
      modifies this`streamStatus, this`connects
      ensures Valid()
      ensures streamStatus.keys == old(streamStatus.keys)
      ensures streamStatus.entries == MonitorPass(old(streamStatus.entries), old(streamStatus.keys), now).0
      ensures connects == old(connects) + MonitorPass(old(streamStatus.entries), old(streamStatus.keys), now).1
    {
      var status, dialled := TickAll(streamStatus, now);
      streamStatus := status;
      connects := connects + dialled;
    }
  }
}
