/**
  The management-protocol notification parser: one notification payload (the
  text after the leading `>`) becomes a typed event, and every event has a
  rendering.  Events are values here; the memoised field splitting of state
  and byte-count events is modelled by the objects in module EventObjects,
  whose methods are proved to return what the functions below define.
 */
module Events {
  import opened Bytes
  import opened Numbers
  import opened Quoting
  import opened Wrappers

  /** Separates the keyword from the body. */
  const EventSep: Byte := ':'
  /** Separates the fields of a body. */
  const FieldSep: Byte := ','

  const ByteCountKW: Bytes := "BYTECOUNT"
  const ByteCountCliKW: Bytes := "BYTECOUNT_CLI"
  const EchoKW: Bytes := "ECHO"
  const FatalKW: Bytes := "FATAL"
  const HoldKW: Bytes := "HOLD"
  const StateKW: Bytes := "STATE"
  const PasswordKW: Bytes := "PASSWORD"

  /** The keywords `Upgrade` turns into a typed event. */
  const KnownKeywords: set<Bytes> :=
    {ByteCountKW, ByteCountCliKW, EchoKW, FatalKW, HoldKW, StateKW, PasswordKW}

  datatype Event =
    | State(body: Bytes)
    | Hold(body: Bytes)
    | Echo(body: Bytes)
    | ByteCount(hasClient: bool, body: Bytes)
    | Password(body: Bytes)
    | Fatal(body: Bytes)
      /** Any other keyword; `keyword` is what `Type()` returns, `body` what `Body()` returns. */
    | Unknown(keyword: Bytes, body: Bytes)
      /** A payload without the keyword separator, kept whole. */
    | Malformed(raw: Bytes)

  /** The keyword a well-formed non-malformed event was announced with. */
  function Keyword(e: Event): Bytes
    requires !e.Malformed?
  {
    match e
    case State(_) => StateKW
    case Hold(_) => HoldKW
    case Echo(_) => EchoKW
    case ByteCount(hasClient, _) => if hasClient then ByteCountCliKW else ByteCountKW
    case Password(_) => PasswordKW
    case Fatal(_) => FatalKW
    case Unknown(keyword, _) => keyword
  }

  /** The payload an event stands for: keyword, separator, body. */
  function Serialize(e: Event): Bytes
  {
    if e.Malformed? then e.raw else Keyword(e) + [EventSep] + e.body
  }

  /** Events `Upgrade` can produce. */
  predicate WellFormed(e: Event)
  {
    match e
    case Unknown(keyword, _) => EventSep !in keyword && keyword !in KnownKeywords
    case Malformed(raw) => EventSep !in raw
    case _ => true
  }

  /**
    The switch of `UpgradeEvent`: the event kind picked by exact keyword
    match, carrying the body; any other keyword gives an unknown event that
    keeps both.
   */
  function Dispatch(keyword: Bytes, body: Bytes): (e: Event)
    ensures !e.Malformed? && Keyword(e) == keyword && e.body == body
    ensures e.Unknown? <==> keyword !in KnownKeywords
  {
    if keyword == StateKW then State(body)
    else if keyword == HoldKW then Hold(body)
    else if keyword == EchoKW then Echo(body)
    else if keyword == ByteCountKW then ByteCount(false, body)
    else if keyword == ByteCountCliKW then ByteCount(true, body)
    else if keyword == PasswordKW then Password(body)
    else if keyword == FatalKW then Fatal(body)
    else Unknown(keyword, body)
  }

  /** The keyword determines the kind: dispatching an event's own keyword rebuilds it. */
  lemma DispatchKeyword(e: Event)
    requires !e.Malformed? && WellFormed(e)
    ensures Dispatch(Keyword(e), e.body) == e
  {
  }

  /**
    `UpgradeEvent`: split the payload at its first `:` into keyword and body,
    and pick the event kind by exact keyword match.  Never fails: a payload
    without `:` is malformed and kept whole, an unmatched keyword is unknown.
    The payload can always be recovered from the event.
   */
  function Upgrade(raw: Bytes): (e: Event)
    ensures e.Malformed? <==> EventSep !in raw
    ensures e.Malformed? ==> e.raw == raw
    ensures WellFormed(e) && Serialize(e) == raw
  {
    IndexSpec(raw, EventSep);
    var i := Index(raw, EventSep);
    if i == -1 then Malformed(raw)
    else
      var keyword, body := raw[..i], raw[i + 1..];
      assert raw == keyword + [EventSep] + body;
      assert EventSep !in keyword by {
        assert forall j :: 0 <= j < i ==> keyword[j] == raw[j];
      }
      Dispatch(keyword, body)
  }

  /**
    With a separator present, the keyword is exactly the bytes before the
    first `:` and the body everything after it.
   */
  lemma UpgradeSplit(raw: Bytes)
    requires EventSep in raw
    ensures var e, i := Upgrade(raw), Index(raw, EventSep);
      !e.Malformed? && EventSep !in Keyword(e) &&
      Keyword(e) == raw[..i] && e.body == raw[i + 1..]
  {
    var e := Upgrade(raw);
    IndexAfter(Keyword(e), EventSep, e.body);
  }

  /**
    `Upgrade` inverts `Serialize` on every event it can produce, so together
    with Upgrade's contract the two are mutually inverse.
   */
  lemma UpgradeSerialize(e: Event)
    requires WellFormed(e)
    ensures Upgrade(Serialize(e)) == e
  {
    if !e.Malformed? {
      var kw, raw := Keyword(e), Serialize(e);
      IndexAfter(kw, EventSep, e.body);
      assert raw[..|kw|] == kw;
      assert raw[|kw| + 1..] == e.body;
      DispatchKeyword(e);
    }
  }

  /**
    Dispatch is by exact keyword: the result is unknown exactly when the
    keyword before the first `:` is none of the seven known ones, and then it
    keeps that keyword and the body.
   */
  lemma UpgradeUnknown(raw: Bytes)
    ensures Upgrade(raw).Unknown? <==>
      Index(raw, EventSep) >= 0 && raw[..Index(raw, EventSep)] !in KnownKeywords
    ensures Upgrade(raw).Unknown? ==>
      Upgrade(raw).keyword == raw[..Index(raw, EventSep)] &&
      Upgrade(raw).body == raw[Index(raw, EventSep) + 1..]
  {
    IndexSpec(raw, EventSep);
    if EventSep in raw {
      UpgradeSplit(raw);
    }
  }

  /** `CLIENT:CONNECT,...` splits at its first `:`, so it is unknown. */
  lemma ClientConnectIsUnknown()
    ensures Upgrade("CLIENT:CONNECT,0,1") == Unknown("CLIENT", "CONNECT,0,1")
  {
    var e := Unknown("CLIENT", "CONNECT,0,1");
    assert Serialize(e) == "CLIENT:CONNECT,0,1";
    UpgradeSerialize(e);
  }

  // ---------------------------------------------------------------------
  // State events

  /**
    `stateEvent.parts()`: the body split on `,` into at most 9 pieces, padded
    with empty pieces to at least 8.
   */
  function StateParts(body: Bytes): (p: seq<Bytes>)
    ensures 8 <= |p| <= 9
  {
    Pad(SplitN(body, FieldSep, 9), 8)
  }

  /** The first eight state parts hold no comma; only a ninth part can. */
  lemma StatePartsCommaFree(body: Bytes)
    ensures forall k :: 0 <= k < 8 ==> FieldSep !in StateParts(body)[k]
  {
    var split, p := SplitN(body, FieldSep, 9), StateParts(body);
    SplitNShape(body, FieldSep, 9);
    SplitShapeAt(split, FieldSep, 9);
    forall k | 0 <= k < 8
      ensures FieldSep !in p[k]
    {
      if k < |split| {
        assert p[k] == split[k];
      } else {
        assert p[k] == [];
      }
    }
  }

  function StateRawTimestamp(body: Bytes): (r: Bytes)
    ensures FieldSep !in r
  {
    StatePartsCommaFree(body);
    StateParts(body)[0]
  }

  function StateNewState(body: Bytes): (r: Bytes)
    ensures FieldSep !in r
  {
    StatePartsCommaFree(body);
    StateParts(body)[1]
  }

  function StateDescription(body: Bytes): (r: Bytes)
    ensures FieldSep !in r
  {
    StatePartsCommaFree(body);
    StateParts(body)[2]
  }

  /**
    Field 8 in the extended form (more than 8 parts), field 3 otherwise; it
    holds a comma only in the extended form.
   */
  function StateLocalTunnelAddr(body: Bytes): (r: Bytes)
    ensures FieldSep in r ==> Count(body, FieldSep) >= 8
  {
    var p := StateParts(body);
    StatePartsCommaFree(body);
    StateExtendedForm(body);
    if |p| > 8 then p[8] else p[3]
  }

  function StateRemoteAddr(body: Bytes): (r: Bytes)
    ensures FieldSep !in r
  {
    StatePartsCommaFree(body);
    StateParts(body)[4]
  }

  /**
    `stateEvent.String()`: the new state, then either nothing or `: ` and a
    detail.
   */
  function StateString(body: Bytes): (s: Bytes)
    ensures var ns := StateNewState(body);
      |s| >= |ns| && s[..|ns|] == ns &&
      (s != ns ==> |s| >= |ns| + 2 && s[|ns|..|ns| + 2] == ": ")
  {
    var newState := StateNewState(body);
    if newState == "ASSIGN_IP" then newState + ": " + StateLocalTunnelAddr(body)
    else if newState == "CONNECTED" then newState + ": " + StateRemoteAddr(body)
    else
      var desc := StateDescription(body);
      if desc != [] then newState + ": " + desc else newState
  }

  /** Field `k` of a field list, or empty when the list is shorter. */
  function FieldOrEmpty(fields: seq<Bytes>, k: nat): Bytes
  {
    if k < |fields| then fields[k] else []
  }

  predicate NoSeparators(fields: seq<Bytes>, sep: Byte)
  {
    forall k :: 0 <= k < |fields| ==> sep !in fields[k]
  }

  /** Joining a list whose tail is joined first gives the same string. */
  lemma {:induction false} JoinTail(a: seq<Bytes>, b: seq<Bytes>, sep: Byte)
    requires |b| >= 1
    ensures Join(a + [Join(b, sep)], sep) == Join(a + b, sep)
  {
    if |a| == 0 {
      assert a + [Join(b, sep)] == [Join(b, sep)];
      assert a + b == b;
    } else {
      JoinTail(a[1..], b, sep);
      assert a + [Join(b, sep)] == [a[0]] + (a[1..] + [Join(b, sep)]);
      assert a + b == [a[0]] + (a[1..] + b);
      JoinCons(a[0], a[1..] + [Join(b, sep)], sep);
      JoinCons(a[0], a[1..] + b, sep);
    }
  }

  /**
    The state parts of a body written as comma-free fields: the first eight
    fields (empty where missing) and, in the extended form with more than
    eight fields, the rest joined back as the ninth part.
   */
  lemma StatePartsOfFields(fields: seq<Bytes>)
    requires |fields| >= 1 && NoSeparators(fields, FieldSep)
    ensures var p := StateParts(Join(fields, FieldSep));
      (|p| > 8 <==> |fields| > 8) &&
      (forall k :: 0 <= k < 8 ==> p[k] == FieldOrEmpty(fields, k)) &&
      (|fields| > 8 ==> p[8] == Join(fields[8..], FieldSep))
  {
    var r := if |fields| <= 9 then fields else fields[..8] + [Join(fields[8..], FieldSep)];
    if |fields| > 9 {
      assert fields == fields[..8] + fields[8..];
      JoinTail(fields[..8], fields[8..], FieldSep);
    } else if |fields| == 9 {
      assert fields[8..] == [fields[8]];
    }
    assert forall k :: 0 <= k < |r| - 1 ==> r[k] == fields[k];
    SplitShapeAt(r, FieldSep, 9);
    SplitNJoin(r, FieldSep, 9);
  }

  /**
    What the state accessors read from a body of comma-free fields:
    timestamp, state, description and remote address are fields 0, 1, 2, 4
    (empty when missing); the local tunnel address is field 3, or in the
    extended form everything from field 8 on.
   */
  lemma StateAccessors(fields: seq<Bytes>)
    requires |fields| >= 1 && NoSeparators(fields, FieldSep)
    ensures var body := Join(fields, FieldSep);
      StateRawTimestamp(body) == fields[0] &&
      StateNewState(body) == FieldOrEmpty(fields, 1) &&
      StateDescription(body) == FieldOrEmpty(fields, 2) &&
      StateRemoteAddr(body) == FieldOrEmpty(fields, 4) &&
      StateLocalTunnelAddr(body) ==
        (if |fields| > 8 then Join(fields[8..], FieldSep) else FieldOrEmpty(fields, 3))
  {
    StatePartsOfFields(fields);
  }

  /** The extended form is exactly a body with at least eight commas. */
  lemma StateExtendedForm(body: Bytes)
    ensures |StateParts(body)| > 8 <==> Count(body, FieldSep) >= 8
  {
    SplitNCount(body, FieldSep, 9);
  }

  // ---------------------------------------------------------------------
  // Echo events

  /** Everything before the first `,`, or empty when there is none: a comma-free prefix. */
  function EchoRawTimestamp(body: Bytes): (r: Bytes)
    ensures |r| <= |body| && r == body[..|r|] && FieldSep !in r
  {
    var i := Index(body, FieldSep);
    IndexSpec(body, FieldSep);
    if i == -1 then [] else
      assert forall j :: 0 <= j < i ==> body[..i][j] == body[j];
      body[..i]
  }

  /**
    Everything after the first `,` (further commas included), or empty: a
    suffix that, with a comma present, completes the body after the timestamp.
   */
  function EchoMessage(body: Bytes): (r: Bytes)
    ensures |r| <= |body| && r == body[|body| - |r|..]
    ensures FieldSep in body ==> body == EchoRawTimestamp(body) + [FieldSep] + r
  {
    var i := Index(body, FieldSep);
    IndexSpec(body, FieldSep);
    if i == -1 then [] else
      assert body == body[..i] + [FieldSep] + body[i + 1..];
      body[i + 1..]
  }

  /** `echoEvent.String()`. */
  function EchoString(body: Bytes): Bytes
  {
    "ECHO: " + EchoMessage(body)
  }

  /**
    Echo splits only once: a comma-free timestamp and any message are read
    back unchanged, and a body without a comma has both empty.
   */
  lemma EchoFields(ts: Bytes, msg: Bytes)
    requires FieldSep !in ts
    ensures EchoRawTimestamp(ts + [FieldSep] + msg) == ts
    ensures EchoMessage(ts + [FieldSep] + msg) == msg
  {
    var body := ts + [FieldSep] + msg;
    IndexAfter(ts, FieldSep, msg);
    assert body[..|ts|] == ts;
    assert body[|ts| + 1..] == msg;
  }

  /** A body without a comma has an empty timestamp and message. */
  lemma EchoWithoutComma(body: Bytes)
    requires FieldSep !in body
    ensures EchoRawTimestamp(body) == [] && EchoMessage(body) == []
    ensures EchoString(body) == "ECHO: "
  {
    IndexSpec(body, FieldSep);
  }

  // ---------------------------------------------------------------------
  // Byte-count events

  /** 3 parts for the per-client form, 2 otherwise. */
  function ByteCountWant(hasClient: bool): nat
  {
    if hasClient then 3 else 2
  }

  /**
    `byteCountEvent.parts()`: the body split on `,` into at most 4 pieces,
    padded with empty pieces to 3 (per-client form) or 2.
   */
  function ByteCountParts(hasClient: bool, body: Bytes): (p: seq<Bytes>)
    ensures ByteCountWant(hasClient) <= |p| <= 4
  {
    Pad(SplitN(body, FieldSep, 4), ByteCountWant(hasClient))
  }

  /** The first three byte-count parts hold no comma; only a fourth part can. */
  lemma ByteCountPartsCommaFree(hasClient: bool, body: Bytes)
    ensures var p := ByteCountParts(hasClient, body);
      forall k :: 0 <= k < 3 && k < |p| ==> FieldSep !in p[k]
  {
    var split, p := SplitN(body, FieldSep, 4), ByteCountParts(hasClient, body);
    SplitNShape(body, FieldSep, 4);
    SplitShapeAt(split, FieldSep, 4);
    forall k | 0 <= k < 3 && k < |p|
      ensures FieldSep !in p[k]
    {
      if k < |split| {
        assert p[k] == split[k];
      } else {
        assert p[k] == [];
      }
    }
  }

  /** Empty unless per-client; a comma-free field either way. */
  function ByteCountClientId(hasClient: bool, body: Bytes): (r: Bytes)
    ensures !hasClient ==> r == []
    ensures FieldSep !in r
  {
    ByteCountPartsCommaFree(hasClient, body);
    if !hasClient then [] else ByteCountParts(hasClient, body)[0]
  }

  function ByteCountBytesIn(hasClient: bool, body: Bytes): int
  {
    Atoi(ByteCountParts(hasClient, body)[if hasClient then 1 else 0])
  }

  function ByteCountBytesOut(hasClient: bool, body: Bytes): int
  {
    Atoi(ByteCountParts(hasClient, body)[if hasClient then 2 else 1])
  }

  /** `byteCountEvent.String()`. */
  function ByteCountString(hasClient: bool, body: Bytes): Bytes
  {
    var counts := Decimal(ByteCountBytesIn(hasClient, body)) + " in, " +
                  Decimal(ByteCountBytesOut(hasClient, body)) + " out";
    if hasClient then "Client " + ByteCountClientId(hasClient, body) + ": " + counts
    else counts
  }

  /**
    The byte-count parts of a body of comma-free fields: up to four fields,
    padded to 3 (per-client form) or 2; with more, the first three and the
    rest joined back, commas included, as the fourth.
   */
  lemma ByteCountPartsOfFields(hasClient: bool, fields: seq<Bytes>)
    requires |fields| >= 1 && NoSeparators(fields, FieldSep)
    ensures |fields| <= 4 ==>
      ByteCountParts(hasClient, Join(fields, FieldSep)) == Pad(fields, ByteCountWant(hasClient))
    ensures |fields| > 4 ==>
      ByteCountParts(hasClient, Join(fields, FieldSep)) == fields[..3] + [Join(fields[3..], FieldSep)]
  {
    var r := if |fields| <= 4 then fields else fields[..3] + [Join(fields[3..], FieldSep)];
    if |fields| > 4 {
      assert fields == fields[..3] + fields[3..];
      JoinTail(fields[..3], fields[3..], FieldSep);
    }
    assert forall k :: 0 <= k < |r| - 1 ==> r[k] == fields[k];
    SplitShapeAt(r, FieldSep, 4);
    SplitNJoin(r, FieldSep, 4);
  }

  /**
    `BYTECOUNT:<in>,<out>` written with `%d` reads back both counts and no
    client id.
   */
  lemma ByteCountRoundTrip(bytesIn: int, bytesOut: int)
    ensures var body := Decimal(bytesIn) + [FieldSep] + Decimal(bytesOut);
      ByteCountClientId(false, body) == [] &&
      ByteCountBytesIn(false, body) == bytesIn &&
      ByteCountBytesOut(false, body) == bytesOut
  {
    var a, b := Decimal(bytesIn), Decimal(bytesOut);
    var fields := [a, b];
    assert NoSeparators(fields, FieldSep) by {
      DecimalNoComma(bytesIn);
      DecimalNoComma(bytesOut);
    }
    assert Join(fields, FieldSep) == a + [FieldSep] + b by {
      JoinCons(a, [b], FieldSep);
      assert [a] + [b] == fields;
    }
    ByteCountPartsOfFields(false, fields);
  }

  /**
    `BYTECOUNT_CLI:<id>,<in>,<out>` with a comma-free id reads back the id and
    both counts.
   */
  lemma ByteCountCliRoundTrip(id: Bytes, bytesIn: int, bytesOut: int)
    requires FieldSep !in id
    ensures var body := id + [FieldSep] + Decimal(bytesIn) + [FieldSep] + Decimal(bytesOut);
      ByteCountClientId(true, body) == id &&
      ByteCountBytesIn(true, body) == bytesIn &&
      ByteCountBytesOut(true, body) == bytesOut
  {
    var a, b := Decimal(bytesIn), Decimal(bytesOut);
    var fields := [id, a, b];
    assert NoSeparators(fields, FieldSep) by {
      DecimalNoComma(bytesIn);
      DecimalNoComma(bytesOut);
    }
    assert Join(fields, FieldSep) == id + [FieldSep] + a + [FieldSep] + b by {
      JoinCons(a, [b], FieldSep);
      JoinCons(id, [a, b], FieldSep);
      assert [a] + [b] == [a, b];
      assert [id] + [a, b] == fields;
    }
    ByteCountPartsOfFields(true, fields);
  }

  /** The rendering of a body `<in>,<out>` written with `%d` shows the same counts. */
  lemma ByteCountStringOfCounts(bytesIn: int, bytesOut: int)
    ensures var body := Decimal(bytesIn) + [FieldSep] + Decimal(bytesOut);
      ByteCountString(false, body) == Decimal(bytesIn) + " in, " + Decimal(bytesOut) + " out"
  {
    var body := Decimal(bytesIn) + [FieldSep] + Decimal(bytesOut);
    ByteCountRoundTrip(bytesIn, bytesOut);
    assert ByteCountBytesIn(false, body) == bytesIn;
    assert ByteCountBytesOut(false, body) == bytesOut;
  }

  /**
    The rendering of a per-client body `<id>,<in>,<out>` shows the id and the
    same counts.
   */
  lemma ByteCountCliStringOfCounts(id: Bytes, bytesIn: int, bytesOut: int)
    requires FieldSep !in id
    ensures var body := id + [FieldSep] + Decimal(bytesIn) + [FieldSep] + Decimal(bytesOut);
      ByteCountString(true, body) ==
        "Client " + id + ": " + Decimal(bytesIn) + " in, " + Decimal(bytesOut) + " out"
  {
    ByteCountCliRoundTrip(id, bytesIn, bytesOut);
    ByteCountCliString(id + [FieldSep] + Decimal(bytesIn) + [FieldSep] + Decimal(bytesOut), id, bytesIn, bytesOut);
  }

  /** The per-client rendering in terms of what the accessors read. */
  lemma ByteCountCliString(body: Bytes, id: Bytes, bytesIn: int, bytesOut: int)
    requires ByteCountClientId(true, body) == id
    requires ByteCountBytesIn(true, body) == bytesIn && ByteCountBytesOut(true, body) == bytesOut
    ensures ByteCountString(true, body) ==
      "Client " + id + ": " + Decimal(bytesIn) + " in, " + Decimal(bytesOut) + " out"
  {
  }

  /** A `%d` rendering is a sign and digits, so it holds no comma. */
  lemma DecimalNoComma(n: int)
    ensures FieldSep !in Decimal(n)
  {
    var s := Decimal(n);
    forall i | 0 <= i < |s|
      ensures s[i] != FieldSep
    {
      if i > 0 && (s[0] == '+' || s[0] == '-') {
        assert s[1..][i - 1] == s[i];
      }
    }
  }

  /** Missing counts read as 0: a body with no comma has no outgoing count. */
  lemma ByteCountMissingField(body: Bytes)
    requires FieldSep !in body
    ensures ByteCountBytesIn(false, body) == Atoi(body)
    ensures ByteCountBytesOut(false, body) == 0
    ensures ByteCountBytesIn(true, body) == 0 && ByteCountBytesOut(true, body) == 0
    ensures ByteCountClientId(true, body) == body
  {
    ByteCountPartsOfFields(false, [body]);
    ByteCountPartsOfFields(true, [body]);
    assert Atoi([]) == 0;
  }

  // ---------------------------------------------------------------------
  // Renderings

  /** `String()` of every event kind. */
  function Render(e: Event): Bytes
  {
    match e
    case State(body) => StateString(body)
    case Hold(body) => body
    case Echo(body) => EchoString(body)
    case ByteCount(hasClient, body) => ByteCountString(hasClient, body)
    case Password(body) => "PASSWORD: " + body
    case Fatal(body) => "FATAL: " + body
    case Unknown(keyword, body) => keyword + ": " + body
    case Malformed(raw) => "Malformed Event " + Quote(raw)
  }

  /**
    Unknown, password and fatal events render as their payload with a space
    inserted after the first `:`.
   */
  lemma RenderKeywordBody(raw: Bytes)
    requires EventSep in raw
    requires Upgrade(raw).Unknown? || Upgrade(raw).Password? || Upgrade(raw).Fatal?
    ensures var i := Index(raw, EventSep);
      Render(Upgrade(raw)) == raw[..i + 1] + " " + raw[i + 1..]
  {
    var e := Upgrade(raw);
    UpgradeSplit(raw);
    RenderKeyword(e);
    SpaceAfterSep(Keyword(e), e.body, raw);
  }

  /** The three kinds whose rendering is keyword, `: `, body. */
  lemma RenderKeyword(e: Event)
    requires e.Unknown? || e.Password? || e.Fatal?
    ensures Render(e) == Keyword(e) + ": " + e.body
  {
  }

  /** Inserting a space after the separator that follows `kw`. */
  lemma SpaceAfterSep(kw: Bytes, body: Bytes, raw: Bytes)
    requires raw == kw + [EventSep] + body
    ensures raw[..|kw| + 1] + " " + raw[|kw| + 1..] == kw + ": " + body
  {
    assert raw[..|kw| + 1] == kw + [EventSep];
    assert raw[|kw| + 1..] == body;
    assert [EventSep] + " " == ": ";
  }

  /** A hold event renders as its bare body, without the keyword. */
  lemma RenderHold(body: Bytes)
    ensures Render(Upgrade(HoldKW + [EventSep] + body)) == body
  {
    UpgradeSerialize(Hold(body));
  }

  /**
    A malformed event's rendering determines the raw payload, and shows it
    verbatim between quotes when every byte is printable and not a quote or
    backslash.
   */
  lemma RenderMalformed(raw: Bytes)
    requires EventSep !in raw && AllBytes(raw)
    ensures var r := Render(Upgrade(raw));
      |r| >= 16 && r[..16] == "Malformed Event " && Unquote(r[16..]) == Some(raw)
    ensures AllPlain(raw) ==> Render(Upgrade(raw)) == "Malformed Event \"" + raw + "\""
  {
    var prefix: Bytes := "Malformed Event ";
    ConcatSlices(prefix, Quote(raw));
    UnquoteQuote(raw);
    if AllPlain(raw) {
      QuotePlain(raw);
    }
  }

  /** The two halves of a concatenation, sliced back out. */
  lemma ConcatSlices(a: Bytes, b: Bytes)
    ensures (a + b)[..|a|] == a && (a + b)[|a|..] == b
  {
  }

  /** The state rendering for the four state forms of the switch on the new state. */
  lemma StateStringCases(fields: seq<Bytes>)
    requires |fields| >= 1 && NoSeparators(fields, FieldSep)
    ensures var body, state := Join(fields, FieldSep), FieldOrEmpty(fields, 1);
      StateString(body) ==
        if state == "ASSIGN_IP" then
          state + ": " + (if |fields| > 8 then Join(fields[8..], FieldSep) else FieldOrEmpty(fields, 3))
        else if state == "CONNECTED" then state + ": " + FieldOrEmpty(fields, 4)
        else if FieldOrEmpty(fields, 2) != [] then state + ": " + FieldOrEmpty(fields, 2)
        else state
  {
    StateAccessors(fields);
  }

  /** An echo notification whose message holds a further comma. */
  lemma EchoExample()
    ensures var body := "42" + [FieldSep] + "hello,world";
      var e := Upgrade(EchoKW + [EventSep] + body);
      e == Echo(body) &&
      EchoRawTimestamp(body) == "42" && EchoMessage(body) == "hello,world" &&
      Render(e) == "ECHO: " + "hello,world"
  {
    UpgradeSerialize(Echo("42" + [FieldSep] + "hello,world"));
    EchoFields("42", "hello,world");
  }
}
