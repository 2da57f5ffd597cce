/**
 * The feed hook (hooks/useWebSocket.ts): the connection record
 * `{isConnected, url, error}`, the socket reference, and the newest-first
 * buffer of parsed frames capped at 1000 entries.
 *
 * The browser delivers socket callbacks; here each becomes a method the
 * environment calls: HandleOpen, HandleMessage, HandleError, HandleClose,
 * each naming the socket whose handler fires. Handlers stay attached to
 * every socket `Connect` ever created, so a socket that is no longer the
 * current one still updates the record when its events arrive.
 *
 * The buffer holds whatever the frame parser produced (type parameter T):
 * no field of a parsed value is checked before it is prepended.
 */
module WebSocketHook {
  import opened Types
  import opened StableSort

  /** The buffer keeps at most this many entries. */
  const Capacity: nat := 1000

  const ConnectionError: string := "WebSocket connection error"
  const CreateError: string := "Failed to create WebSocket connection"

  /** The record before any connection and after `disconnect`. */
  const Disconnected: WebSocketState := WebSocketState(false, "", None)

  /** `[trade, ...prev].slice(0, 1000)` */
  function Prepend<T>(prev: seq<T>, x: T): (r: seq<T>)
    ensures |r| == if |prev| < Capacity then |prev| + 1 else Capacity
    ensures r[0] == x
    ensures forall i :: 0 <= i < |r| - 1 ==> r[i + 1] == prev[i]
  {
    Take([x] + prev, Capacity)
  }

  function Reverse<T>(s: seq<T>): (r: seq<T>)
    ensures |r| == |s|
  {
    if s == [] then [] else [s[|s| - 1]] + Reverse(s[..|s| - 1])
  }

  /** The newest `Capacity` values of an arrival history, newest first. */
  function Newest<T>(received: seq<T>): (r: seq<T>)
    ensures |r| <= Capacity
  {
    Take(Reverse(received), Capacity)
  }

  lemma {:induction false} ReverseAt<T>(s: seq<T>, i: nat)
    requires i < |s|
    ensures Reverse(s)[i] == s[|s| - 1 - i]
    decreases |s|
  {
    if i > 0 {
      ReverseAt(s[..|s| - 1], i - 1);
    }
  }

  /**
   * The buffer is the newest-first history of what arrived: prepending a
   * value to the newest 1000 of a history gives the newest 1000 of the
   * history extended by it, so the entry dropped is always the oldest.
   */
  lemma PrependKeepsNewest<T>(received: seq<T>, x: T)
    ensures Prepend(Newest(received), x) == Newest(received + [x])
  {
    var rs := received + [x];
    assert rs[..|rs| - 1] == received;
    assert Reverse(rs) == [x] + Reverse(received);
  }

  /** Entry `i` of the buffer is the value that arrived `i` frames before the last one. */
  lemma NewestAt<T>(received: seq<T>, i: nat)
    requires i < |Newest(received)|
    ensures Newest(received)[i] == received[|received| - 1 - i]
  {
    ReverseAt(received, i);
  }

  /** The browser's `readyState` of a socket. */
  datatype ReadyState = Connecting | Open | Closing | Closed

  /** A socket `Connect` created, with the url its handlers captured. */
  datatype SocketRecord = SocketRecord(url: string, readyState: ReadyState)

  predicate IsSpace(c: char) {
    c == ' ' || c == '\t' || c == '\n' || c == '\r'
  }

  /** The connect control only passes `url.trim()`, and only when it is non-empty. */
  predicate IsTrimmedNonEmpty(url: string) {
    |url| > 0 && !IsSpace(url[0]) && !IsSpace(url[|url| - 1])
  }

  /** `close()` moves a connecting or open socket to closing. */
  function CloseSocket(s: SocketRecord): (r: SocketRecord)
    ensures r.url == s.url
    ensures r.readyState == (if s.readyState == Closed then Closed else Closing)
  {
    match s.readyState
    case Connecting => s.(readyState := Closing)
    case Open => s.(readyState := Closing)
    case Closing => s
    case Closed => s
  }

  class TradeFeed<T> {
    var state: WebSocketState
    var trades: seq<T>
    /** `wsRef.current`: an index into `sockets`, or null. */
    var wsRef: Option<nat>
    /** Every socket created so far, in creation order. */
    var sockets: seq<SocketRecord>
    /** Every value prepended since the buffer was last cleared, oldest first. */
    ghost var received: seq<T>

    ghost predicate Valid()
      reads this
    {
      && |trades| <= Capacity
      && (wsRef.Some? ==> wsRef.value < |sockets|)
    }

    /**
     * The buffer is the newest arrivals, newest first. Every handler keeps
     * this; only a holder of the array that reorders it (`Reorder`) breaks it.
     */
    ghost predicate InArrivalOrder()
      reads this
    {
      trades == Newest(received)
    }

    constructor ()
      ensures Valid() && InArrivalOrder()
      ensures state == Disconnected && trades == [] && wsRef == None && sockets == []
    {
      state := Disconnected;
      trades := [];
      wsRef := None;
      sockets := [];
      received := [];
    }

    /**
     * `connect(url)`: closes the current socket only if it is open, then
     * creates a new one. `created` is false when the socket constructor
     * throws (a malformed url); then only `error` changes and the socket
     * reference keeps its old value. On success the record is untouched
     * until the new socket's own events arrive.
     */
    method Connect(url: string, created: bool)
      requires Valid()
      requires IsTrimmedNonEmpty(url)
      modifies this
      ensures Valid()
      ensures trades == old(trades) && received == old(received)
      ensures var before := old(sockets);
              var kept := if old(wsRef).Some? && before[old(wsRef).value].readyState == Open
                          then before[old(wsRef).value := CloseSocket(before[old(wsRef).value])]
                          else before;
              if created then
                && sockets == kept + [SocketRecord(url, Connecting)]
                && wsRef == Some(|before|)
                && state == old(state)
              else
                && sockets == kept
                && wsRef == old(wsRef)
                && state == old(state).(error := Some(CreateError))
    {
      if wsRef.Some? && sockets[wsRef.value].readyState == Open {
        var i := wsRef.value;
        sockets := sockets[i := CloseSocket(sockets[i])];
      }
      if created {
        sockets := sockets + [SocketRecord(url, Connecting)];
        wsRef := Some(|sockets| - 1);
      } else {
        state := state.(error := Some(CreateError));
      }
    }

    /** `onopen` of socket `i`: connected to the url that socket was created for. */
    method HandleOpen(i: nat)
      requires Valid()
      requires i < |sockets| && sockets[i].readyState == Connecting
      modifies this
      ensures Valid()
      ensures state == WebSocketState(true, old(sockets[i].url), None)
      ensures sockets == old(sockets)[i := old(sockets[i]).(readyState := Open)]
      ensures trades == old(trades) && received == old(received) && wsRef == old(wsRef)
    {
      state := WebSocketState(true, sockets[i].url, None);
      sockets := sockets[i := sockets[i].(readyState := Open)];
    }

    /**
     * `onmessage` of socket `i`. `parsed` is None when the frame's parse
     * throws: the buffer is left as it was. Any parsed value is prepended.
     */
    method HandleMessage(i: nat, parsed: Option<T>)
      requires Valid()
      requires i < |sockets|
      modifies this
      ensures Valid()
      ensures old(InArrivalOrder()) ==> InArrivalOrder()
      ensures trades == if parsed.Some? then Prepend(old(trades), parsed.value) else old(trades)
      ensures received == if parsed.Some? then old(received) + [parsed.value] else old(received)
      ensures state == old(state) && wsRef == old(wsRef) && sockets == old(sockets)
    {
      if parsed.Some? {
        if InArrivalOrder() {
          PrependKeepsNewest(received, parsed.value);
        }
        trades := Prepend(trades, parsed.value);
        received := received + [parsed.value];
      }
    }

    /** `onerror` of socket `i`: only the error message changes. */
    method HandleError(i: nat)
      requires Valid()
      requires i < |sockets|
      modifies this
      ensures Valid()
      ensures state == old(state).(error := Some(ConnectionError))
      ensures trades == old(trades) && received == old(received)
      ensures wsRef == old(wsRef) && sockets == old(sockets)
    {
      state := state.(error := Some(ConnectionError));
    }

    /** `onclose` of socket `i`: only `isConnected` changes; url and error are kept. */
    method HandleClose(i: nat)
      requires Valid()
      requires i < |sockets|
      modifies this
      ensures Valid()
      ensures state == old(state).(isConnected := false)
      ensures sockets == old(sockets)[i := old(sockets[i]).(readyState := Closed)]
      ensures trades == old(trades) && received == old(received) && wsRef == old(wsRef)
    {
      state := state.(isConnected := false);
      sockets := sockets[i := sockets[i].(readyState := Closed)];
    }

    /** `disconnect()`: closes the current socket, forgets it, and resets the record. */
    method Disconnect()
      requires Valid()
      modifies this
      ensures Valid()
      ensures state == Disconnected && wsRef == None
      ensures sockets == if old(wsRef).Some?
                         then old(sockets)[old(wsRef).value := CloseSocket(old(sockets)[old(wsRef).value])]
                         else old(sockets)
      ensures trades == old(trades) && received == old(received)
    {
      if wsRef.Some? {
        var i := wsRef.value;
        sockets := sockets[i := CloseSocket(sockets[i])];
        wsRef := None;
      }
      state := Disconnected;
    }

    /** `clearTrades()`: empties the buffer and nothing else. */
    method ClearTrades()
      requires Valid()
      modifies this
      ensures Valid() && InArrivalOrder()
      ensures trades == [] && received == []
      ensures state == old(state) && wsRef == old(wsRef) && sockets == old(sockets)
    {
      trades := [];
      received := [];
    }

    /**
     * Another holder of the buffer array reorders it in place (the page's
     * `filtered.sort(...)` when `filtered` is this array). The hook is not
     * told: `received` keeps the arrival history.
     */
    method Reorder(r: seq<T>)
      requires Valid()
      requires multiset(r) == multiset(trades)
      modifies this
      ensures Valid()
      ensures trades == r && received == old(received)
      ensures state == old(state) && wsRef == old(wsRef) && sockets == old(sockets)
    {
      assert |r| == |multiset(r)| == |trades|;
      trades := r;
    }
  }
}
