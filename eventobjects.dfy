/**
  The two event objects whose accessors split the body lazily.  A state event
  and a byte-count event start with no `bodyParts`; the first accessor that
  needs a field splits the body, pads a short split with empty fields, and
  keeps the result, which every later accessor reuses.  Each method is proved
  to return what the matching function of module Events defines, so the
  cached split never differs from a fresh one.
 */
module EventObjects {
  import opened Bytes
  import opened Numbers
  import opened Events

  /** `bodyParts`: nil until the first accessor fills it. */
  datatype Cache = Unfilled | Filled(parts: seq<Bytes>)

  /**
    `make([][]byte, want)` followed by `copy(expanded, parts)`: `want` empty
    entries with the shorter `parts` copied over the front.
   */
  method Expand(parts: seq<Bytes>, want: nat) returns (expanded: seq<Bytes>)
    requires |parts| < want
    ensures expanded == Pad(parts, want)
  {
    var a := new Bytes[want](_ => []);
    var i := 0;
    while i < |parts|
      invariant 0 <= i <= |parts|
      invariant forall k :: 0 <= k < i ==> a[k] == parts[k]
      invariant forall k :: i <= k < want ==> a[k] == []
    {
      a[i] := parts[i];
      i := i + 1;
    }
    expanded := a[..];
  }

  /** `stateEvent`: a STATE notification's body and its cached fields. */
  class StateEvent {
    const body: Bytes
    var bodyParts: Cache

    /** A filled cache holds the split of the body. */
    ghost predicate Valid()
      reads this
    {
      bodyParts.Filled? ==> bodyParts.parts == StateParts(body)
    }

    /** `NewStateEvent`: nothing is split yet. */
    constructor (body: Bytes)
      ensures this.body == body && bodyParts == Unfilled && Valid()
    {
      this.body := body;
      bodyParts := Unfilled;
    }

    /**
      `parts()`: split on the first call (at most 9 pieces, padded to 8),
      afterwards the cached list.
     */
    method Parts() returns (parts: seq<Bytes>)
      requires Valid()
      modifies this
      ensures Valid() && bodyParts == Filled(parts)
      ensures parts == StateParts(body)
    {
      if bodyParts.Unfilled? {
        var split := SplitN(body, FieldSep, 9);
        if |split| < 8 {
          split := Expand(split, 8);
        }
        bodyParts := Filled(split);
      }
      parts := bodyParts.parts;
    }

    method RawTimestamp() returns (s: Bytes)
      requires Valid()
      modifies this
      ensures Valid() && bodyParts == Filled(StateParts(body))
      ensures s == StateRawTimestamp(body)
    {
      var parts := Parts();
      s := parts[0];
    }

    method NewState() returns (s: Bytes)
      requires Valid()
      modifies this
      ensures Valid() && bodyParts == Filled(StateParts(body))
      ensures s == StateNewState(body)
    {
      var parts := Parts();
      s := parts[1];
    }

    method Description() returns (s: Bytes)
      requires Valid()
      modifies this
      ensures Valid() && bodyParts == Filled(StateParts(body))
      ensures s == StateDescription(body)
    {
      var parts := Parts();
      s := parts[2];
    }

    method LocalTunnelAddr() returns (s: Bytes)
      requires Valid()
      modifies this
      ensures Valid() && bodyParts == Filled(StateParts(body))
      ensures s == StateLocalTunnelAddr(body)
    {
      var parts := Parts();
      if |parts| > 8 {
        s := parts[8];
      } else {
        s := parts[3];
      }
    }

    method RemoteAddr() returns (s: Bytes)
      requires Valid()
      modifies this
      ensures Valid() && bodyParts == Filled(StateParts(body))
      ensures s == StateRemoteAddr(body)
    {
      var parts := Parts();
      s := parts[4];
    }

    /** `String()`: the switch on the new state. */
    method String() returns (s: Bytes)
      requires Valid()
      modifies this
      ensures Valid() && bodyParts == Filled(StateParts(body))
      ensures s == StateString(body)
    {
      var newState := NewState();
      if newState == "ASSIGN_IP" {
        var addr := LocalTunnelAddr();
        s := newState + ": " + addr;
      } else if newState == "CONNECTED" {
        var addr := RemoteAddr();
        s := newState + ": " + addr;
      } else {
        var desc := Description();
        if desc != [] {
          s := newState + ": " + desc;
        } else {
          s := newState;
        }
      }
    }
  }

  /** `byteCountEvent`: a BYTECOUNT or BYTECOUNT_CLI body and its cached fields. */
  class ByteCountEvent {
    const hasClient: bool
    const body: Bytes
    var bodyParts: Cache

    /** A filled cache holds the split of the body. */
    ghost predicate Valid()
      reads this
    {
      bodyParts.Filled? ==> bodyParts.parts == ByteCountParts(hasClient, body)
    }

    /** `newByteCountEvent`: nothing is split yet. */
    constructor (hasClient: bool, body: Bytes)
      ensures this.hasClient == hasClient && this.body == body
      ensures bodyParts == Unfilled && Valid()
    {
      this.hasClient := hasClient;
      this.body := body;
      bodyParts := Unfilled;
    }

    /**
      `parts()`: split on the first call (at most 4 pieces, padded to 3 for
      the per-client form and to 2 otherwise), afterwards the cached list.
     */
    method Parts() returns (parts: seq<Bytes>)
      requires Valid()
      modifies this
      ensures Valid() && bodyParts == Filled(parts)
      ensures parts == ByteCountParts(hasClient, body)
    {
      if bodyParts.Unfilled? {
        var split := SplitN(body, FieldSep, 4);
        var wantCount := 2;
        if hasClient {
          wantCount := 3;
        }
        if |split| < wantCount {
          split := Expand(split, wantCount);
        }
        bodyParts := Filled(split);
      }
      parts := bodyParts.parts;
    }

    /** `ClientId()`: empty without touching the cache unless per-client. */
    method ClientId() returns (s: Bytes)
      requires Valid()
      modifies this
      ensures Valid()
      ensures hasClient ==> bodyParts == Filled(ByteCountParts(hasClient, body))
      ensures !hasClient ==> bodyParts == old(bodyParts)
      ensures s == ByteCountClientId(hasClient, body)
    {
      if !hasClient {
        return [];
      }
      var parts := Parts();
      s := parts[0];
    }

    method BytesIn() returns (n: int)
      requires Valid()
      modifies this
      ensures Valid() && bodyParts == Filled(ByteCountParts(hasClient, body))
      ensures n == ByteCountBytesIn(hasClient, body)
    {
      var index := 0;
      if hasClient {
        index := 1;
      }
      var parts := Parts();
      n := Atoi(parts[index]);
    }

    method BytesOut() returns (n: int)
      requires Valid()
      modifies this
      ensures Valid() && bodyParts == Filled(ByteCountParts(hasClient, body))
      ensures n == ByteCountBytesOut(hasClient, body)
    {
      var index := 1;
      if hasClient {
        index := 2;
      }
      var parts := Parts();
      n := Atoi(parts[index]);
    }

    /** `String()`: the counts with `%d`, prefixed by the client in the per-client form. */
    method String() returns (s: Bytes)
      requires Valid()
      modifies this
      ensures Valid() && bodyParts == Filled(ByteCountParts(hasClient, body))
      ensures s == ByteCountString(hasClient, body)
    {
      if hasClient {
        var id := ClientId();
        var bytesIn := BytesIn();
        var bytesOut := BytesOut();
        s := "Client " + id + ": " + Decimal(bytesIn) + " in, " + Decimal(bytesOut) + " out";
      } else {
        var bytesIn := BytesIn();
        var bytesOut := BytesOut();
        s := Decimal(bytesIn) + " in, " + Decimal(bytesOut) + " out";
      }
    }
  }
}
