/**
 * The listener lists of server/src/stream.ts as values: which responses a chunk is written to,
 * what each listener ends up receiving, what `deleteUserStream` leaves in a list, and the
 * `activeConnections` count that `stats()` reports.
 */
module Listeners {
  import opened JsBuiltins
  import opened OrderedMaps
  import opened Stations

  /** An Express response a listener is attached to; only its identity matters. */
  type ClientId = nat

  /** One `client.write(bytes)`. */
  datatype Write = Write(client: ClientId, bytes: seq<bv8>)

  /** The listener list of a station; a station nobody has asked for has none. */
  function ClientsOf(clients: OrderedMap<StationId, seq<ClientId>>, id: StationId): seq<ClientId> {
    if id in clients.entries then clients.entries[id] else []
  }

  // ---------------------------------------------------------------- fan-out

  /** The writes `forEach(client => client.write(bytes))` performs, in list order. */
  function FanOut(clients: seq<ClientId>, bytes: seq<bv8>): (log: seq<Write>)
    ensures |log| == |clients|
  {
    if clients == [] then [] else [Write(clients[0], bytes)] + FanOut(clients[1..], bytes)
  }

  /** The i-th write of a fan-out goes to the i-th listener and carries the whole chunk. */
  lemma {:induction false} FanOutWrites(clients: seq<ClientId>, bytes: seq<bv8>)
    ensures forall i :: 0 <= i < |clients| ==> FanOut(clients, bytes)[i] == Write(clients[i], bytes)
    decreases |clients|
  {
    if clients != [] {
      FanOutWrites(clients[1..], bytes);
      var log := FanOut(clients, bytes);
      forall i | 0 <= i < |clients|
        ensures log[i] == Write(clients[i], bytes)
      {
        if i > 0 {
          assert log[i] == FanOut(clients[1..], bytes)[i - 1];
        }
      }
    }
  }

  lemma {:induction false} FanOutSnoc(clients: seq<ClientId>, c: ClientId, bytes: seq<bv8>)
    ensures FanOut(clients + [c], bytes) == FanOut(clients, bytes) + [Write(c, bytes)]
    decreases |clients|
  {
    if clients == [] {
      assert clients + [c] == [c];
    } else {
      assert (clients + [c])[1..] == clients[1..] + [c];
      FanOutSnoc(clients[1..], c, bytes);
    }
  }

  /** The fan-outs of successive chunks to an unchanging list. */
  function FanOutAll(clients: seq<ClientId>, chunks: seq<seq<bv8>>): seq<Write>
    decreases |chunks|
  {
    if chunks == [] then [] else FanOut(clients, chunks[0]) + FanOutAll(clients, chunks[1..])
  }

  /** What listener `c` receives from a log of writes, in order. */
  function ReceivedBy(log: seq<Write>, c: ClientId): seq<seq<bv8>>
    decreases |log|
  {
    if log == [] then []
    else (if log[0].client == c then [log[0].bytes] else []) + ReceivedBy(log[1..], c)
  }

  lemma {:induction false} ReceivedByAppend(a: seq<Write>, b: seq<Write>, c: ClientId)
    ensures ReceivedBy(a + b, c) == ReceivedBy(a, c) + ReceivedBy(b, c)
    decreases |a|
  {
    if a != [] {
      assert (a + b)[1..] == a[1..] + b;
      ReceivedByAppend(a[1..], b, c);
    } else {
      assert a + b == b;
    }
  }

  /** `n` copies of `x`. */
  function Repeat<T>(x: T, n: nat): (r: seq<T>)
    ensures |r| == n
  {
    if n == 0 then [] else [x] + Repeat(x, n - 1)
  }

  /** One fan-out gives a listener the chunk once per time it is listed, and nobody else anything. */
  lemma {:induction false} FanOutDelivers(clients: seq<ClientId>, bytes: seq<bv8>, c: ClientId)
    ensures ReceivedBy(FanOut(clients, bytes), c) == Repeat(bytes, multiset(clients)[c])
    decreases |clients|
  {
    if clients != [] {
      var log := FanOut(clients, bytes);
      assert log[0] == Write(clients[0], bytes) && log[1..] == FanOut(clients[1..], bytes);
      FanOutDelivers(clients[1..], bytes, c);
      assert clients == [clients[0]] + clients[1..];
      assert multiset(clients)[c] == multiset(clients[1..])[c] + (if clients[0] == c then 1 else 0);
    }
  }

  /** A listener listed once receives exactly the relayed chunks, in the order they arrived. */
  lemma {:induction false} ListenerHearsEveryChunk(clients: seq<ClientId>, chunks: seq<seq<bv8>>, c: ClientId)
    requires multiset(clients)[c] == 1
    ensures ReceivedBy(FanOutAll(clients, chunks), c) == chunks
    decreases |chunks|
  {
    if chunks != [] {
      ReceivedByAppend(FanOut(clients, chunks[0]), FanOutAll(clients, chunks[1..]), c);
      FanOutDelivers(clients, chunks[0], c);
      ListenerHearsEveryChunk(clients, chunks[1..], c);
      assert Repeat(chunks[0], 1) == [chunks[0]];
      assert chunks == [chunks[0]] + chunks[1..];
    }
  }

  /** Two listeners of the same station are sent byte-identical chunks in the same order. */
  lemma TwoListenersHearTheSame(clients: seq<ClientId>, chunks: seq<seq<bv8>>, c: ClientId, d: ClientId)
    requires multiset(clients)[c] == 1 && multiset(clients)[d] == 1
    ensures ReceivedBy(FanOutAll(clients, chunks), c) == ReceivedBy(FanOutAll(clients, chunks), d)
  {
    ListenerHearsEveryChunk(clients, chunks, c);
    ListenerHearsEveryChunk(clients, chunks, d);
  }

  // ---------------------------------------------------------------- deleteUserStream

  /** `list.splice(list.indexOf(c), 1)`. */
  function RemoveClient(list: seq<ClientId>, c: ClientId): (r: seq<ClientId>)
    // the first occurrence of a present listener is cut out and the order of the others is kept
    ensures c in list ==> r == list[..IndexOf(list, c)] + list[IndexOf(list, c) + 1..]
    ensures c in list ==> |r| == |list| - 1 && multiset(r) == multiset(list) - multiset{c}
    ensures c in list ==> forall d :: d != c ==> multiset(r)[d] == multiset(list)[d]
    ensures c !in list && |list| > 0 ==> r == list[..|list| - 1]
    ensures list == [] ==> r == []
  {
    var i := IndexOf(list, c);
    if 0 <= i then
      assert list == list[..i] + [c] + list[i + 1..];
      SpliceOne(list, i)
    else
      SpliceOne(list, i)
  }

  /**
   * Removing a listener that has already gone removes the last listener on the list instead:
   * `indexOf` yields -1 and `splice(-1, 1)` drops the final element.
   */
  lemma SecondRemovalDropsAnotherListener(list: seq<ClientId>, c: ClientId)
    requires multiset(list)[c] == 1 && |list| >= 2
    ensures var once := RemoveClient(list, c);
      c !in once && RemoveClient(once, c) == once[..|once| - 1] && |RemoveClient(once, c)| == |list| - 2
  {
    var once: seq<ClientId> := RemoveClient(list, c);
    assert multiset(once)[c] == multiset(list)[c] - 1;
  }

  /** A listener who stays on the list keeps being written to after another one is removed. */
  lemma RemovalKeepsOthers(list: seq<ClientId>, c: ClientId, d: ClientId, bytes: seq<bv8>)
    requires c in list && d != c
    ensures ReceivedBy(FanOut(RemoveClient(list, c), bytes), d) == ReceivedBy(FanOut(list, bytes), d)
    ensures ReceivedBy(FanOut(RemoveClient(list, c), bytes), c) == Repeat(bytes, multiset(list)[c] - 1)
  {
    FanOutDelivers(list, bytes, d);
    FanOutDelivers(RemoveClient(list, c), bytes, d);
    FanOutDelivers(list, bytes, c);
    FanOutDelivers(RemoveClient(list, c), bytes, c);
  }

  // ---------------------------------------------------------------- stats

  /** The sum of the list lengths over the given keys. */
  function SumLengths(keys: seq<StationId>, entries: map<StationId, seq<ClientId>>): nat
    requires forall k :: k in keys ==> k in entries
    decreases |keys|
  {
    if keys == [] then 0 else SumLengths(keys[..|keys| - 1], entries) + |entries[keys[|keys| - 1]]|
  }

  /** Every listed list counts towards the sum, which is zero exactly when all of them are empty. */
  lemma {:induction false} SumLengthsCounts(keys: seq<StationId>, entries: map<StationId, seq<ClientId>>)
    requires forall k :: k in keys ==> k in entries
    ensures forall k :: k in keys ==> |entries[k]| <= SumLengths(keys, entries)
    ensures SumLengths(keys, entries) == 0 <==> forall k :: k in keys ==> entries[k] == []
    decreases |keys|
  {
    if keys != [] {
      var init := keys[..|keys| - 1];
      SumLengthsCounts(init, entries);
      assert keys == init + [keys[|keys| - 1]];
    }
  }

  /** `activeConnections`: the total number of listener entries over all stations. */
  function ActiveConnections(clients: OrderedMap<StationId, seq<ClientId>>): nat
    requires clients.Valid()
  {
    SumLengths(clients.keys, clients.entries)
  }

  /** `activeConnections` counts every station's listeners, and is zero exactly when nobody listens. */
  lemma ActiveConnectionsCounts(clients: OrderedMap<StationId, seq<ClientId>>)
    requires clients.Valid()
    ensures forall id :: id in clients.entries ==> |clients.entries[id]| <= ActiveConnections(clients)
    ensures ActiveConnections(clients) == 0 <==> forall id :: id in clients.entries ==> clients.entries[id] == []
  {
    SumLengthsCounts(clients.keys, clients.entries);
  }

  lemma {:induction false} SumLengthsUpdate(keys: seq<StationId>, entries: map<StationId, seq<ClientId>>, id: StationId, list: seq<ClientId>)
    requires forall k :: k in keys ==> k in entries
    requires forall i, j :: 0 <= i < j < |keys| ==> keys[i] != keys[j]
    ensures id in keys ==> SumLengths(keys, entries[id := list]) == SumLengths(keys, entries) - |entries[id]| + |list|
    ensures id !in keys ==> SumLengths(keys, entries[id := list]) == SumLengths(keys, entries)
    decreases |keys|
  {
    if keys != [] {
      var init := keys[..|keys| - 1];
      SumLengthsUpdate(init, entries, id, list);
      assert keys == init + [keys[|keys| - 1]];
      if id in keys && keys[|keys| - 1] == id {
        assert id !in init;
      }
    }
  }

  /** Replacing one station's list changes the total by the difference in that list's length. */
  lemma ActiveAfterSet(clients: OrderedMap<StationId, seq<ClientId>>, id: StationId, list: seq<ClientId>)
    requires clients.Valid()
    ensures ActiveConnections(clients.Set(id, list)) == ActiveConnections(clients) - |ClientsOf(clients, id)| + |list|
  {
    SumLengthsUpdate(clients.keys, clients.entries, id, list);
    if id !in clients.entries {
      var keys' := clients.keys + [id];
      assert keys'[..|keys'| - 1] == clients.keys;
    }
  }
}
