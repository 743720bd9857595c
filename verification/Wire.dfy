/** Flow statistics on the wire (OpenFlow Switch Specification 1.0.0, sections 5.2.3, 5.2.4
    and 5.3.5) and how src/openflow.c reads them: whole structs are copied out of the message
    on a little-endian host, then each field is put in host order. */
module Wire {
  import opened Env

  type Bytes = seq<uint8>

  // ---- byte order ----

  /** A number and its bytes, lowest first. */
  function Join16(b0: int, b1: int): int { b0 + 0x100 * b1 }

  function Join32(b0: int, b1: int, b2: int, b3: int): int {
    b0 + 0x100 * (b1 + 0x100 * (b2 + 0x100 * b3))
  }

  function ByteOf(x: nat, j: nat): uint8
    requires j < 4
  {
    if j == 0 then x % 0x100 else ByteOf(x / 0x100, j - 1)
  }

  lemma BytesOfJoin16(b0: uint8, b1: uint8)
    ensures var x := Join16(b0, b1); 0 <= x < TWO_16 && ByteOf(x, 0) == b0 && ByteOf(x, 1) == b1
  {
    LowByte(b0, b1);
  }

  lemma LowByte(b: uint8, rest: nat)
    ensures (b + 0x100 * rest) % 0x100 == b && (b + 0x100 * rest) / 0x100 == rest
  {
  }

  lemma BytesOfJoin32(b0: uint8, b1: uint8, b2: uint8, b3: uint8)
    ensures
      var x := Join32(b0, b1, b2, b3);
      0 <= x < TWO_32 && ByteOf(x, 0) == b0 && ByteOf(x, 1) == b1 && ByteOf(x, 2) == b2 && ByteOf(x, 3) == b3
  {
    var x1, x2 := b1 + 0x100 * (b2 + 0x100 * b3), b2 + 0x100 * b3;
    LowByte(b0, x1);
    LowByte(b1, x2);
    LowByte(b2, b3);
    var x := Join32(b0, b1, b2, b3);
    assert x / 0x100 == x1 && x1 / 0x100 == x2 && x2 / 0x100 == b3;
    assert ByteOf(x, 1) == ByteOf(x1, 0);
    assert ByteOf(x, 2) == ByteOf(x1, 1) == ByteOf(x2, 0);
    assert ByteOf(x, 3) == ByteOf(x1, 2) == ByteOf(x2, 1) == ByteOf(b3, 0);
  }

  lemma SplitByte(x: nat)
    ensures x == ByteOf(x, 0) + 0x100 * (x / 0x100)
    ensures x < 0x100 ==> ByteOf(x, 0) == x
    ensures ByteOf(x, 1) == ByteOf(x / 0x100, 0) && ByteOf(x, 2) == ByteOf(x / 0x100, 1)
    ensures ByteOf(x, 3) == ByteOf(x / 0x100, 2)
  {
  }

  lemma JoinOfBytes16(x: uint16)
    ensures Join16(ByteOf(x, 0), ByteOf(x, 1)) == x
  {
    hide ByteOf;
    SplitByte(x);
    SplitByte(x / 0x100);
  }

  lemma JoinOfBytes32(x: uint32)
    ensures Join32(ByteOf(x, 0), ByteOf(x, 1), ByteOf(x, 2), ByteOf(x, 3)) == x
    ensures Join16(ByteOf(x, 2), ByteOf(x, 3)) == x / 0x1_0000
    ensures Join16(ByteOf(x, 0), ByteOf(x, 1)) == x % 0x1_0000
  {
    hide ByteOf;
    var x1 := x / 0x100;
    var x2 := x1 / 0x100;
    var x3 := x2 / 0x100;
    SplitByte(x);
    SplitByte(x1);
    SplitByte(x2);
    SplitByte(x3);
    CombineBytes(x, ByteOf(x, 0), x1, ByteOf(x1, 0), x2, ByteOf(x2, 0), x3);
  }

  lemma CombineBytes(x: uint32, b0: uint8, x1: nat, b1: uint8, x2: nat, b2: uint8, x3: nat)
    requires x == b0 + 0x100 * x1 && x1 == b1 + 0x100 * x2 && x2 == b2 + 0x100 * x3
    ensures Join32(b0, b1, b2, x3) == x && x3 < 0x100
    ensures Join16(b2, x3) == x / 0x1_0000 && Join16(b0, b1) == x % 0x1_0000
  {
    HighAndLow(x, x2, b0 + 0x100 * b1);
  }

  lemma HighAndLow(x: nat, high: nat, low: nat)
    requires x == low + 0x1_0000 * high && low < 0x1_0000
    ensures x / 0x1_0000 == high && x % 0x1_0000 == low
  {
  }

  /** What a little-endian host sees when it loads 2 or 4 bytes of a message. */
  function Raw16(b: Bytes, i: nat): uint16
    requires i + 2 <= |b|
  {
    BytesOfJoin16(b[i], b[i + 1]);
    Join16(b[i], b[i + 1])
  }

  function Raw32(b: Bytes, i: nat): uint32
    requires i + 4 <= |b|
  {
    BytesOfJoin32(b[i], b[i + 1], b[i + 2], b[i + 3]);
    Join32(b[i], b[i + 1], b[i + 2], b[i + 3])
  }

  /** ntohs and htons on such a host: the two bytes change places. */
  function Swap16(x: uint16): uint16 {
    BytesOfJoin16(ByteOf(x, 1), ByteOf(x, 0));
    Join16(ByteOf(x, 1), ByteOf(x, 0))
  }

  /** ntohl and htonl: the four bytes are reversed. */
  function Swap32(x: uint32): uint32 {
    BytesOfJoin32(ByteOf(x, 3), ByteOf(x, 2), ByteOf(x, 1), ByteOf(x, 0));
    Join32(ByteOf(x, 3), ByteOf(x, 2), ByteOf(x, 1), ByteOf(x, 0))
  }

  /** ntohs applied to a 32-bit field: the argument is first cut to 16 bits. */
  function Swap16Of32(x: uint32): uint32 { Swap16(x % 0x1_0000) }

  /** Byte `j` of a big-endian field. */
  function Be16(x: uint16, j: nat): uint8
    requires j < 2
  {
    ByteOf(x, 1 - j)
  }

  function Be32(x: uint32, j: nat): uint8
    requires j < 4
  {
    ByteOf(x, 3 - j)
  }

  function Be64(x: uint64, j: nat): uint8
    requires j < 8
  {
    if j < 4 then Be32(x / TWO_32, j) else Be32(x % TWO_32, j - 4)
  }

  lemma SwapRaw16(b: Bytes, i: nat, x: uint16)
    requires i + 2 <= |b| && b[i] == Be16(x, 0) && b[i + 1] == Be16(x, 1)
    ensures Swap16(Raw16(b, i)) == x
  {
    hide ByteOf, Join16;
    BytesOfJoin16(b[i], b[i + 1]);
    JoinOfBytes16(x);
  }

  lemma SwapRaw32(b: Bytes, i: nat, x: uint32)
    requires i + 4 <= |b| && forall j :: 0 <= j < 4 ==> b[i + j] == Be32(x, j)
    ensures Swap32(Raw32(b, i)) == x
    ensures Swap16Of32(Raw32(b, i)) == x / 0x1_0000
  {
    hide ByteOf, Join16, Join32;
    assert b[i] == Be32(x, 0) && b[i + 1] == Be32(x, 1) && b[i + 2] == Be32(x, 2) && b[i + 3] == Be32(x, 3) by {
      assert b[i + 0] == Be32(x, 0);
    }
    var raw := Raw32(b, i);
    BytesOfJoin32(b[i], b[i + 1], b[i + 2], b[i + 3]);
    JoinOfBytes32(x);
    JoinOfBytes32(raw);
    BytesOfJoin16(b[i], b[i + 1]);
  }

  lemma Swap16Twice(x: uint16)
    ensures Swap16(Swap16(x)) == x
  {
    hide ByteOf, Join16;
    BytesOfJoin16(ByteOf(x, 1), ByteOf(x, 0));
    JoinOfBytes16(x);
  }

  lemma Swap32Twice(x: uint32)
    ensures Swap32(Swap32(x)) == x
  {
    hide ByteOf, Join32;
    BytesOfJoin32(ByteOf(x, 3), ByteOf(x, 2), ByteOf(x, 1), ByteOf(x, 0));
    JoinOfBytes32(x);
  }

  // ---- structs ----

  datatype Match = Match(
    wildcards: uint32, inPort: uint16, dlSrc: Bytes, dlDst: Bytes, dlVlan: uint16, dlVlanPcp: uint8, dlType: uint16,
    nwTos: uint8, nwProto: uint8, nwSrc: uint32, nwDst: uint32, tpSrc: uint16, tpDst: uint16)

  /** The flow a match describes. */
  function KeyOf(fields: Match): FiveTuple {
    FiveTuple(fields.nwSrc, fields.nwDst, fields.tpSrc, fields.tpDst, fields.nwProto)
  }

  /** A 64-bit counter as two 32-bit halves. */
  datatype Halves = Halves(hi: uint32, lo: uint32)

  datatype FlowStats = FlowStats(
    length: uint16, tableId: uint8, fields: Match, durationSec: uint32, durationNsec: uint32,
    priority: uint16, idleTimeout: uint16, hardTimeout: uint16, cookie: Halves, packetCount: Halves, byteCount: Halves)

  const STATS_SIZE := 88
  const MATCH_SIZE := 40
  const ACTION_SIZE := 8
  const REPLY_HEADER_SIZE := 4

  const OFPAT_OUTPUT := 0
  const OFPAT_SET_VLAN_VID := 1

  /** The copy of a match out of a message, fields not yet in host order. */
  function RawMatch(b: Bytes, i: nat): Match
    requires i + MATCH_SIZE <= |b|
  {
    Match(Raw32(b, i), Raw16(b, i + 4), b[i + 6..i + 12], b[i + 12..i + 18], Raw16(b, i + 18), b[i + 20],
      Raw16(b, i + 22), b[i + 24], b[i + 25], Raw32(b, i + 28), Raw32(b, i + 32), Raw16(b, i + 36), Raw16(b, i + 38))
  }

  function RawHalves(b: Bytes, i: nat): Halves
    requires i + 8 <= |b|
  {
    Halves(Raw32(b, i), Raw32(b, i + 4))
  }

  function RawStats(b: Bytes, i: nat): FlowStats
    requires i + STATS_SIZE <= |b|
  {
    FlowStats(Raw16(b, i), b[i + 2], RawMatch(b, i + 4), Raw32(b, i + 44), Raw32(b, i + 48), Raw16(b, i + 52),
      Raw16(b, i + 54), Raw16(b, i + 56), RawHalves(b, i + 64), RawHalves(b, i + 72), RawHalves(b, i + 80))
  }

  /** ntoh_openflow_match, and hton_openflow_match, which does the same swaps. */
  function SwapMatch(m: Match): Match {
    m.(wildcards := Swap32(m.wildcards), inPort := Swap16(m.inPort), dlVlan := Swap16(m.dlVlan),
      dlType := Swap16(m.dlType), nwSrc := Swap32(m.nwSrc), nwDst := Swap32(m.nwDst),
      tpSrc := Swap16(m.tpSrc), tpDst := Swap16(m.tpDst))
  }

  function SwapHalves(h: Halves): Halves { Halves(Swap32(h.hi), Swap32(h.lo)) }

  /** ntoh_openflow_flow_stats: the two duration fields go through the 16-bit conversion. */
  function SwapStats(f: FlowStats): FlowStats {
    FlowStats(Swap16(f.length), f.tableId, SwapMatch(f.fields), Swap16Of32(f.durationSec), Swap16Of32(f.durationNsec),
      Swap16(f.priority), Swap16(f.idleTimeout), Swap16(f.hardTimeout),
      SwapHalves(f.cookie), SwapHalves(f.packetCount), SwapHalves(f.byteCount))
  }

  /** openflow_ovsbe64_to_uint64. */
  function ToUint64(h: Halves): uint64 { h.hi * TWO_32 + h.lo }

  /** Converting a match to network order and back gives the match. */
  lemma MatchRoundTrip(m: Match)
    ensures SwapMatch(SwapMatch(m)) == m
  {
    hide Swap16, Swap32;
    Swap32Twice(m.wildcards);
    Swap32Twice(m.nwSrc);
    Swap32Twice(m.nwDst);
    Swap16Twice(m.inPort);
    Swap16Twice(m.dlVlan);
    Swap16Twice(m.dlType);
    Swap16Twice(m.tpSrc);
    Swap16Twice(m.tpDst);
  }

  // ---- what the switch sends ----

  datatype Action =
    | Output(port: uint16, maxLen: uint16)
    | SetVlan(vid: uint16)
    | Other(kind: uint16, body: Bytes)

  /** One flow entry of a switch. */
  datatype Entry = Entry(
    tableId: uint8, fields: Match, durationSec: uint32, durationNsec: uint32, priority: uint16, idleTimeout: uint16,
    hardTimeout: uint16, cookie: uint64, packets: uint64, bytes: uint64, actions: seq<Action>)

  /** Actions of any other type have a length that is a positive multiple of 8. */
  ghost predicate ActionOk(a: Action) {
    a.Other? ==> (
      a.kind != OFPAT_OUTPUT && a.kind != OFPAT_SET_VLAN_VID && 4 + |a.body| < TWO_16 && (4 + |a.body|) % 8 == 0)
  }

  function EncodeAction(a: Action): (b: Bytes)
    requires ActionOk(a)
    ensures |b| >= ACTION_SIZE && |b| % 8 == 0
  {
    match a
    case Output(port, maxLen) =>
      [Be16(OFPAT_OUTPUT, 0), Be16(OFPAT_OUTPUT, 1), Be16(ACTION_SIZE, 0), Be16(ACTION_SIZE, 1),
        Be16(port, 0), Be16(port, 1), Be16(maxLen, 0), Be16(maxLen, 1)]
    case SetVlan(vid) =>
      [Be16(OFPAT_SET_VLAN_VID, 0), Be16(OFPAT_SET_VLAN_VID, 1), Be16(ACTION_SIZE, 0), Be16(ACTION_SIZE, 1),
        Be16(vid, 0), Be16(vid, 1), 0, 0]
    case Other(kind, body) =>
      [Be16(kind, 0), Be16(kind, 1), Be16(4 + |body|, 0), Be16(4 + |body|, 1)] + body
  }

  lemma SumOfEights(a: nat, b: nat)
    requires a % 8 == 0 && b % 8 == 0
    ensures (a + b) % 8 == 0
  {
  }

  function EncodeActions(actions: seq<Action>): (b: Bytes)
    requires forall a :: a in actions ==> ActionOk(a)
    ensures |b| % 8 == 0
  {
    if actions == [] then []
    else
      var first, rest := EncodeAction(actions[0]), EncodeActions(actions[1..]);
      SumOfEights(|first|, |rest|);
      first + rest
  }

  ghost predicate EntryOk(e: Entry) {
    && |e.fields.dlSrc| == |e.fields.dlDst| == 6
    && (forall a :: a in e.actions ==> ActionOk(a))
    && STATS_SIZE + |EncodeActions(e.actions)| < TWO_16
  }

  const NO_MAC: Bytes := [0, 0, 0, 0, 0, 0]

  const NO_MATCH := Match(0, 0, NO_MAC, NO_MAC, 0, 0, 0, 0, 0, 0, 0, 0, 0)

  /** The entries that can be sent. */
  type WireEntry = e: Entry | EntryOk(e) ghost witness Entry(0, NO_MATCH, 0, 0, 0, 0, 0, 0, 0, 0, [])

  /** Byte `j` of an encoded match; padding is zero. */
  function MatchByte(m: Match, j: nat): uint8
    requires j < MATCH_SIZE && |m.dlSrc| == |m.dlDst| == 6
  {
    if j < 4 then Be32(m.wildcards, j)
    else if j < 6 then Be16(m.inPort, j - 4)
    else if j < 12 then m.dlSrc[j - 6]
    else if j < 18 then m.dlDst[j - 12]
    else if j < 20 then Be16(m.dlVlan, j - 18)
    else if j == 20 then m.dlVlanPcp
    else if j == 21 then 0
    else if j < 24 then Be16(m.dlType, j - 22)
    else if j == 24 then m.nwTos
    else if j == 25 then m.nwProto
    else if j < 28 then 0
    else if j < 32 then Be32(m.nwSrc, j - 28)
    else if j < 36 then Be32(m.nwDst, j - 32)
    else if j < 38 then Be16(m.tpSrc, j - 36)
    else Be16(m.tpDst, j - 38)
  }

  /** Byte `j` of the fixed part of an encoded entry of `length` bytes. */
  function StatsByte(e: Entry, length: uint16, j: nat): uint8
    requires j < STATS_SIZE && |e.fields.dlSrc| == |e.fields.dlDst| == 6
  {
    if j < 2 then Be16(length, j)
    else if j == 2 then e.tableId
    else if j == 3 then 0
    else if j < 44 then MatchByte(e.fields, j - 4)
    else if j < 48 then Be32(e.durationSec, j - 44)
    else if j < 52 then Be32(e.durationNsec, j - 48)
    else if j < 54 then Be16(e.priority, j - 52)
    else if j < 56 then Be16(e.idleTimeout, j - 54)
    else if j < 58 then Be16(e.hardTimeout, j - 56)
    else if j < 64 then 0
    else if j < 72 then Be64(e.cookie, j - 64)
    else if j < 80 then Be64(e.packets, j - 72)
    else Be64(e.bytes, j - 80)
  }

  function EncodeEntry(e: Entry): (b: Bytes)
    requires EntryOk(e)
    ensures |b| == STATS_SIZE + |EncodeActions(e.actions)|
  {
    var actions := EncodeActions(e.actions);
    seq(STATS_SIZE, j requires 0 <= j < STATS_SIZE => StatsByte(e, STATS_SIZE + |actions|, j)) + actions
  }

  function EncodeEntries(entries: seq<Entry>): Bytes
    requires forall e :: e in entries ==> EntryOk(e)
  {
    if entries == [] then [] else EncodeEntry(entries[0]) + EncodeEntries(entries[1..])
  }

  // ---- what the parser makes of it ----

  /** The copy of an action kept for a flow; none for an action of unknown type. */
  datatype ActionData =
    | NoData
    | OutputData(otype: uint16, olen: uint16, port: uint16, maxLen: uint16)
    | VlanData(vtype: uint16, vlen: uint16, vid: uint16, pad: Bytes)

  datatype ParsedAction = ParsedAction(kind: uint16, data: ActionData)

  datatype ParsedFlow = ParsedFlow(stats: FlowStats, actions: seq<ParsedAction>)

  function ReadAction(b: Bytes, i: nat): ParsedAction
    requires i + ACTION_SIZE <= |b|
  {
    var kind := Swap16(Raw16(b, i));
    ParsedAction(kind,
      if kind == OFPAT_OUTPUT then
        OutputData(kind, Swap16(Raw16(b, i + 2)), Swap16(Raw16(b, i + 4)), Swap16(Raw16(b, i + 6)))
      else if kind == OFPAT_SET_VLAN_VID then
        VlanData(kind, Swap16(Raw16(b, i + 2)), Swap16(Raw16(b, i + 4)), b[i + 6..i + 8])
      else NoData)
  }

  /** Reading the actions of one entry stops at the first action of unknown type. */
  function ReadActions(b: Bytes): seq<ParsedAction> {
    if |b| < ACTION_SIZE then []
    else
      var a := ReadAction(b, 0);
      [a] + if a.data == NoData then [] else ReadActions(b[ACTION_SIZE..])
  }

  function Length(b: Bytes): uint16
    requires |b| >= 2
  {
    Swap16(Raw16(b, 0))
  }

  /** A body is a sequence of entries, each of its declared length. */
  predicate BodyOk(b: Bytes) {
    b == [] || (
      && |b| >= STATS_SIZE
      && STATS_SIZE <= Length(b) <= |b| && Length(b) % 8 == 0
      && BodyOk(b[Length(b)..]))
  }

  function ReadEntry(b: Bytes): ParsedFlow
    requires b != [] && BodyOk(b)
  {
    ParsedFlow(SwapStats(RawStats(b, 0)), ReadActions(b[STATS_SIZE..Length(b)]))
  }

  function ReadBody(b: Bytes): seq<ParsedFlow>
    requires BodyOk(b)
  {
    if b == [] then [] else [ReadEntry(b)] + ReadBody(b[Length(b)..])
  }

  // ---- round trip ----

  function Split64(x: uint64): Halves { Halves(x / TWO_32, x % TWO_32) }

  /** What can be recovered of an action. */
  function Recovered(a: Action): ParsedAction {
    match a
    case Output(port, maxLen) => ParsedAction(OFPAT_OUTPUT, OutputData(OFPAT_OUTPUT, ACTION_SIZE, port, maxLen))
    case SetVlan(vid) => ParsedAction(OFPAT_SET_VLAN_VID, VlanData(OFPAT_SET_VLAN_VID, ACTION_SIZE, vid, [0, 0]))
    case Other(kind, _) => ParsedAction(kind, NoData)
  }

  /** The actions up to and including the first of unknown type, in order. */
  function RecoveredActions(actions: seq<Action>): seq<ParsedAction> {
    if actions == [] then []
    else [Recovered(actions[0])] + if actions[0].Other? then [] else RecoveredActions(actions[1..])
  }

  /** Everything about the entry except the low 16 bits of the durations, which are lost, and
      the high 16 bits, which come out in their place. */
  function RecoveredEntry(e: Entry): ParsedFlow
    requires EntryOk(e)
  {
    ParsedFlow(
      FlowStats(STATS_SIZE + |EncodeActions(e.actions)|, e.tableId, e.fields, e.durationSec / 0x1_0000,
        e.durationNsec / 0x1_0000, e.priority, e.idleTimeout, e.hardTimeout,
        Split64(e.cookie), Split64(e.packets), Split64(e.bytes)),
      RecoveredActions(e.actions))
  }

  lemma ReadEncodedAction(a: Action, rest: Bytes)
    requires ActionOk(a)
    ensures ReadAction(EncodeAction(a) + rest, 0) == Recovered(a)
    ensures Recovered(a).data == NoData <==> a.Other?
    ensures !a.Other? ==> |EncodeAction(a)| == ACTION_SIZE
  {
    hide Raw16, Swap16, Be16;
    var b := EncodeAction(a) + rest;
    match a
    case Output(port, maxLen) =>
      SwapRaw16(b, 0, OFPAT_OUTPUT);
      SwapRaw16(b, 2, ACTION_SIZE);
      SwapRaw16(b, 4, port);
      SwapRaw16(b, 6, maxLen);
    case SetVlan(vid) =>
      SwapRaw16(b, 0, OFPAT_SET_VLAN_VID);
      SwapRaw16(b, 2, ACTION_SIZE);
      SwapRaw16(b, 4, vid);
      assert b[6..8] == [0, 0];
    case Other(kind, _) =>
      SwapRaw16(b, 0, kind);
  }

  lemma {:induction false} ReadEncodedActions(actions: seq<Action>)
    requires forall a :: a in actions ==> ActionOk(a)
    ensures ReadActions(EncodeActions(actions)) == RecoveredActions(actions)
  {
    hide ReadAction, Recovered, EncodeAction;
    if actions != [] {
      var rest := EncodeActions(actions[1..]);
      ReadEncodedAction(actions[0], rest);
      if !actions[0].Other? {
        assert (EncodeAction(actions[0]) + rest)[ACTION_SIZE..] == rest;
        ReadEncodedActions(actions[1..]);
      }
    }
  }

  lemma SwapRawHalves(b: Bytes, i: nat, x: uint64)
    requires i + 8 <= |b| && forall j :: 0 <= j < 8 ==> b[i + j] == Be64(x, j)
    ensures SwapHalves(RawHalves(b, i)) == Split64(x)
  {
    hide Raw32, Swap32, Be32;
    forall j | 0 <= j < 4
      ensures b[i + j] == Be32(x / TWO_32, j) && b[(i + 4) + j] == Be32(x % TWO_32, j)
    {
      assert b[i + j] == Be64(x, j) && b[i + (4 + j)] == Be64(x, 4 + j);
    }
    SwapRaw32(b, i, x / TWO_32);
    SwapRaw32(b, i + 4, x % TWO_32);
  }

  /** The two halves of a counter join to the counter. */
  lemma JoinSplit64(x: uint64)
    ensures ToUint64(Split64(x)) == x
  {
  }

  /** A 32-bit field at byte `i` of a block found at byte `from` of a message. */
  lemma Field32(b: Bytes, from: nat, i: nat, x: uint32)
    requires from + i + 4 <= |b| && forall j {:trigger Be32(x, j)} :: 0 <= j < 4 ==> b[from + (i + j)] == Be32(x, j)
    ensures Swap32(Raw32(b, from + i)) == x && Swap16Of32(Raw32(b, from + i)) == x / 0x1_0000
  {
    hide Raw32, Swap32, Be32, Swap16Of32;
    forall j | 0 <= j < 4
      ensures b[(from + i) + j] == Be32(x, j)
    {
      assert b[from + (i + j)] == Be32(x, j);
    }
    SwapRaw32(b, from + i, x);
  }

  lemma ReadEncodedMatch(b: Bytes, i: nat, m: Match)
    requires i + MATCH_SIZE <= |b| && |m.dlSrc| == |m.dlDst| == 6
    requires forall j :: 0 <= j < MATCH_SIZE ==> b[i + j] == MatchByte(m, j)
    ensures SwapMatch(RawMatch(b, i)) == m
  {
    hide Raw16, Swap16, Be16, Raw32, Swap32, Be32;
    Bytes32InMatch(b, i, m);
    Bytes16InMatch(b, i, m);
    assert b[i + 6..i + 12] == m.dlSrc by {
      forall j | 0 <= j < 6 ensures b[i + 6..i + 12][j] == m.dlSrc[j] { assert b[i + (6 + j)] == MatchByte(m, 6 + j); }
    }
    assert b[i + 12..i + 18] == m.dlDst by {
      forall j | 0 <= j < 6 ensures b[i + 12..i + 18][j] == m.dlDst[j] {
        assert b[i + (12 + j)] == MatchByte(m, 12 + j);
      }
    }
    assert b[i + 20] == MatchByte(m, 20) && b[i + 24] == MatchByte(m, 24) && b[i + 25] == MatchByte(m, 25);
  }

  lemma Bytes32InMatch(b: Bytes, i: nat, m: Match)
    requires i + MATCH_SIZE <= |b| && |m.dlSrc| == |m.dlDst| == 6
    requires forall j :: 0 <= j < MATCH_SIZE ==> b[i + j] == MatchByte(m, j)
    ensures Swap32(Raw32(b, i)) == m.wildcards
    ensures Swap32(Raw32(b, i + 28)) == m.nwSrc && Swap32(Raw32(b, i + 32)) == m.nwDst
  {
    hide Raw32, Swap32, Be32, Be16;
    forall j | 0 <= j < 4
      ensures b[i + (0 + j)] == Be32(m.wildcards, j)
      ensures b[i + (28 + j)] == Be32(m.nwSrc, j) && b[i + (32 + j)] == Be32(m.nwDst, j)
    {
      assert b[i + j] == MatchByte(m, j) && b[i + (28 + j)] == MatchByte(m, 28 + j);
      assert b[i + (32 + j)] == MatchByte(m, 32 + j);
    }
    Field32(b, i, 0, m.wildcards);
    Field32(b, i, 28, m.nwSrc);
    Field32(b, i, 32, m.nwDst);
  }

  lemma Bytes16InMatch(b: Bytes, i: nat, m: Match)
    requires i + MATCH_SIZE <= |b| && |m.dlSrc| == |m.dlDst| == 6
    requires forall j :: 0 <= j < MATCH_SIZE ==> b[i + j] == MatchByte(m, j)
    ensures Swap16(Raw16(b, i + 4)) == m.inPort && Swap16(Raw16(b, i + 18)) == m.dlVlan
    ensures Swap16(Raw16(b, i + 22)) == m.dlType
    ensures Swap16(Raw16(b, i + 36)) == m.tpSrc && Swap16(Raw16(b, i + 38)) == m.tpDst
  {
    hide Raw16, Swap16, Be32, Be16;
    assert b[i + 4] == MatchByte(m, 4) && b[i + 5] == MatchByte(m, 5);
    SwapRaw16(b, i + 4, m.inPort);
    assert b[i + 18] == MatchByte(m, 18) && b[i + 19] == MatchByte(m, 19);
    SwapRaw16(b, i + 18, m.dlVlan);
    assert b[i + 22] == MatchByte(m, 22) && b[i + 23] == MatchByte(m, 23);
    SwapRaw16(b, i + 22, m.dlType);
    assert b[i + 36] == MatchByte(m, 36) && b[i + 37] == MatchByte(m, 37);
    SwapRaw16(b, i + 36, m.tpSrc);
    assert b[i + 38] == MatchByte(m, 38) && b[i + 39] == MatchByte(m, 39);
    SwapRaw16(b, i + 38, m.tpDst);
  }

  ghost predicate StartsWithEntry(b: Bytes, e: Entry)
    requires EntryOk(e)
  {
    |b| >= |EncodeEntry(e)|
    && (forall j :: 0 <= j < STATS_SIZE ==> b[j] == StatsByte(e, |EncodeEntry(e)|, j))
    && b[STATS_SIZE..|EncodeEntry(e)|] == EncodeActions(e.actions)
  }

  lemma EncodedEntryBytes(e: Entry, rest: Bytes)
    requires EntryOk(e)
    ensures StartsWithEntry(EncodeEntry(e) + rest, e)
  {
    hide StatsByte, EncodeActions;
  }

  lemma StatsFields16(b: Bytes, e: Entry)
    requires EntryOk(e) && StartsWithEntry(b, e)
    ensures Length(b) == |EncodeEntry(e)| && b[2] == e.tableId
    ensures Swap16(Raw16(b, 52)) == e.priority && Swap16(Raw16(b, 54)) == e.idleTimeout
    ensures Swap16(Raw16(b, 56)) == e.hardTimeout
  {
    var n := |EncodeEntry(e)|;
    hide Raw16, Swap16, Be16, Be32, Be64, MatchByte, EncodeActions, EncodeEntry, EntryOk;
    assert b[0] == StatsByte(e, n, 0) && b[1] == StatsByte(e, n, 1) && b[2] == StatsByte(e, n, 2);
    SwapRaw16(b, 0, n);
    assert b[52] == StatsByte(e, n, 52) && b[53] == StatsByte(e, n, 53);
    SwapRaw16(b, 52, e.priority);
    assert b[54] == StatsByte(e, n, 54) && b[55] == StatsByte(e, n, 55);
    SwapRaw16(b, 54, e.idleTimeout);
    assert b[56] == StatsByte(e, n, 56) && b[57] == StatsByte(e, n, 57);
    SwapRaw16(b, 56, e.hardTimeout);
  }

  lemma StatsFieldsWide(b: Bytes, e: Entry)
    requires EntryOk(e) && StartsWithEntry(b, e)
    ensures Swap16Of32(Raw32(b, 44)) == e.durationSec / 0x1_0000
    ensures Swap16Of32(Raw32(b, 48)) == e.durationNsec / 0x1_0000
    ensures SwapHalves(RawHalves(b, 64)) == Split64(e.cookie)
    ensures SwapHalves(RawHalves(b, 72)) == Split64(e.packets)
    ensures SwapHalves(RawHalves(b, 80)) == Split64(e.bytes)
    ensures SwapMatch(RawMatch(b, 4)) == e.fields
  {
    var n := |EncodeEntry(e)|;
    hide Raw32, Swap32, Swap16Of32, RawHalves, SwapHalves, Split64, Be16, Be32, Be64, MatchByte, EncodeActions,
      EncodeEntry, SwapMatch, RawMatch;
    forall j | 0 <= j < 4
      ensures b[0 + (44 + j)] == Be32(e.durationSec, j) && b[0 + (48 + j)] == Be32(e.durationNsec, j)
    {
      assert b[44 + j] == StatsByte(e, n, 44 + j) && b[48 + j] == StatsByte(e, n, 48 + j);
    }
    Field32(b, 0, 44, e.durationSec);
    Field32(b, 0, 48, e.durationNsec);
    forall j | 0 <= j < 8
      ensures b[64 + j] == Be64(e.cookie, j) && b[72 + j] == Be64(e.packets, j) && b[80 + j] == Be64(e.bytes, j)
    {
      assert b[64 + j] == StatsByte(e, n, 64 + j) && b[72 + j] == StatsByte(e, n, 72 + j);
      assert b[80 + j] == StatsByte(e, n, 80 + j);
    }
    SwapRawHalves(b, 64, e.cookie);
    SwapRawHalves(b, 72, e.packets);
    SwapRawHalves(b, 80, e.bytes);
    forall j | 0 <= j < MATCH_SIZE
      ensures b[4 + j] == MatchByte(e.fields, j)
    {
      assert b[4 + j] == StatsByte(e, n, 4 + j);
    }
    ReadEncodedMatch(b, 4, e.fields);
  }

  lemma ReadEncodedEntry(e: Entry, rest: Bytes)
    requires EntryOk(e)
    ensures
      var b := EncodeEntry(e) + rest;
      && Length(b) == |EncodeEntry(e)|
      && SwapStats(RawStats(b, 0)) == RecoveredEntry(e).stats
      && ReadActions(b[STATS_SIZE..Length(b)]) == RecoveredEntry(e).actions
  {
    hide Raw32, Raw16, Swap16, Swap32, Swap16Of32, RawHalves, SwapHalves, Split64, SwapMatch, RawMatch, Length,
      ReadActions, RecoveredActions, EncodeActions, StatsByte;
    var b := EncodeEntry(e) + rest;
    EncodedEntryBytes(e, rest);
    StatsFields16(b, e);
    StatsFieldsWide(b, e);
    ReadEncodedActions(e.actions);
    assert Swap16(Raw16(b, 0)) == |EncodeEntry(e)| by { LengthIs(b); }
  }

  lemma LengthIs(b: Bytes)
    requires |b| >= 2
    ensures Length(b) == Swap16(Raw16(b, 0))
  {
  }

  /** The parser inverts the encoding: from any list of entries, with actions of any type, it
      recovers every match, counter and timeout, every OUTPUT and SET_VLAN_VID action before
      the first action of unknown type, and starts each entry where the one before ended. */
  lemma {:induction false} ReadInvertsEncode(entries: seq<Entry>)
    requires forall e :: e in entries ==> EntryOk(e)
    ensures BodyOk(EncodeEntries(entries))
    ensures ReadBody(EncodeEntries(entries)) ==
      seq(|entries|, i requires 0 <= i < |entries| => RecoveredEntry(entries[i]))
  {
    hide SwapStats, RawStats, Length, ReadActions, EncodeActions, EntryOk, RecoveredEntry;
    if entries != [] {
      var e, rest := entries[0], EncodeEntries(entries[1..]);
      var b := EncodeEntry(e) + rest;
      ReadEncodedEntry(e, rest);
      EncodedLength(e);
      ReadInvertsEncode(entries[1..]);
      assert b[|EncodeEntry(e)|..] == rest;
      assert ReadEntry(b) == RecoveredEntry(e);
    }
  }

  lemma EncodedLength(e: Entry)
    requires EntryOk(e)
    ensures STATS_SIZE <= |EncodeEntry(e)| < TWO_16 && |EncodeEntry(e)| % 8 == 0
  {
  }

  /** The durations read are the true ones if and only if these are zero. */
  lemma DurationRecoveredIff(e: Entry)
    requires EntryOk(e)
    ensures RecoveredEntry(e).stats.durationSec == e.durationSec <==> e.durationSec == 0
    ensures RecoveredEntry(e).stats.durationNsec == e.durationNsec <==> e.durationNsec == 0
  {
  }

  // ---- the layout of a message, byte by byte ----

  /** The numbers in network order at byte `i`. */
  function At16(b: Bytes, i: nat): nat
    requires i + 2 <= |b|
  {
    var b0: nat, b1: nat := b[i], b[i + 1];
    0x100 * b0 + b1
  }

  function At32(b: Bytes, i: nat): nat
    requires i + 4 <= |b|
  {
    var b0: nat, b1: nat, b2: nat, b3: nat := b[i], b[i + 1], b[i + 2], b[i + 3];
    0x100_0000 * b0 + 0x1_0000 * b1 + 0x100 * b2 + b3
  }

  function At64(b: Bytes, i: nat): nat
    requires i + 8 <= |b|
  {
    0x1_0000_0000 * At32(b, i) + At32(b, i + 4)
  }

  lemma ReadsNumber16(b: Bytes, i: nat)
    requires i + 2 <= |b|
    ensures Swap16(Raw16(b, i)) == At16(b, i)
  {
    hide ByteOf;
    BytesOfJoin16(b[i], b[i + 1]);
  }

  lemma ReadsNumber32(b: Bytes, i: nat)
    requires i + 4 <= |b|
    ensures Swap32(Raw32(b, i)) == At32(b, i) && Swap16Of32(Raw32(b, i)) == At16(b, i)
  {
    hide ByteOf, Swap16;
    BytesOfJoin32(b[i], b[i + 1], b[i + 2], b[i + 3]);
    BytesOfJoin16(b[i], b[i + 1]);
    LowHalf(b[i], b[i + 1], b[i + 2], b[i + 3]);
    ReadsNumber16(b, i);
  }

  lemma LowHalf(b0: uint8, b1: uint8, b2: uint8, b3: uint8)
    ensures Join32(b0, b1, b2, b3) % 0x1_0000 == Join16(b0, b1)
  {
    HighAndLow(Join32(b0, b1, b2, b3), Join16(b2, b3), Join16(b0, b1));
  }

  lemma ReadsNumber64(b: Bytes, i: nat)
    requires i + 8 <= |b|
    ensures ToUint64(SwapHalves(RawHalves(b, i))) == At64(b, i)
  {
    hide Swap32, Raw32, At32;
    ReadsNumber32(b, i);
    ReadsNumber32(b, i + 4);
  }

  /** Where each field of an entry is read from, and in network order: the layout of
      ofp_flow_stats and ofp_match in sections 5.3.5 and 5.2.3. Of the two durations only the
      upper halves are read. */
  lemma ReadsLayout(b: Bytes)
    requires b != [] && BodyOk(b)
    ensures |b| >= 88
    ensures
      var f := ReadEntry(b).stats;
      && f.length == At16(b, 0) && f.tableId == b[2]
      && f.durationSec == At16(b, 44) && f.durationNsec == At16(b, 48)
      && f.priority == At16(b, 52) && f.idleTimeout == At16(b, 54) && f.hardTimeout == At16(b, 56)
      && ToUint64(f.cookie) == At64(b, 64)
      && ToUint64(f.packetCount) == At64(b, 72) && ToUint64(f.byteCount) == At64(b, 80)
    ensures
      var m := ReadEntry(b).stats.fields;
      && m.wildcards == At32(b, 4) && m.inPort == At16(b, 8) && m.dlSrc == b[10..16] && m.dlDst == b[16..22]
      && m.dlVlan == At16(b, 22) && m.dlVlanPcp == b[24] && m.dlType == At16(b, 26)
      && m.nwTos == b[28] && m.nwProto == b[29] && m.nwSrc == At32(b, 32) && m.nwDst == At32(b, 36)
      && m.tpSrc == At16(b, 40) && m.tpDst == At16(b, 42)
    ensures 88 <= At16(b, 0) <= |b| && BodyOk(b[At16(b, 0)..])
    ensures ReadBody(b) == [ReadEntry(b)] + ReadBody(b[At16(b, 0)..])
    ensures ReadEntry(b).actions == ReadActions(b[88..At16(b, 0)])
  {
    hide Swap16, Raw16, Swap32, Raw32, Swap16Of32, SwapHalves, RawHalves, ToUint64, At16, At32, At64, ReadActions;
    ReadsNumber16(b, 0);
    ReadsNumber32(b, 4);
    ReadsNumber16(b, 8);
    ReadsNumber16(b, 22);
    ReadsNumber16(b, 26);
    ReadsNumber32(b, 32);
    ReadsNumber32(b, 36);
    ReadsNumber16(b, 40);
    ReadsNumber16(b, 42);
    ReadsNumber32(b, 44);
    ReadsNumber32(b, 48);
    ReadsNumber16(b, 52);
    ReadsNumber16(b, 54);
    ReadsNumber16(b, 56);
    ReadsNumber64(b, 64);
    ReadsNumber64(b, 72);
    ReadsNumber64(b, 80);
  }

  /** The same for an action: the layouts of ofp_action_output and ofp_action_vlan_vid in section
      5.2.4. */
  lemma ReadsActionLayout(b: Bytes, i: nat)
    requires i + 8 <= |b|
    ensures
      var a := ReadAction(b, i);
      && a.kind == At16(b, i)
      && (a.kind == 0 ==> a.data == OutputData(0, At16(b, i + 2), At16(b, i + 4), At16(b, i + 6)))
      && (a.kind == 1 ==> a.data == VlanData(1, At16(b, i + 2), At16(b, i + 4), b[i + 6..i + 8]))
      && (a.kind > 1 ==> a.data == NoData)
  {
    hide Swap16, Raw16, At16;
    ReadsNumber16(b, i);
    ReadsNumber16(b, i + 2);
    ReadsNumber16(b, i + 4);
    ReadsNumber16(b, i + 6);
  }

  /** Which actions of an encoded list are read: each known one at its own position, up to the
      first of unknown type, of which only the type is kept. */
  lemma {:induction false} ReadsKnownActions(actions: seq<Action>, i: nat)
    requires i < |actions| && (forall a :: a in actions ==> ActionOk(a))
    requires forall j :: 0 <= j < i ==> !actions[j].Other?
    ensures
      var read := ReadActions(EncodeActions(actions));
      && i < |read|
      && (actions[i].Output? ==>
        read[i] == ParsedAction(0, OutputData(0, 8, actions[i].port, actions[i].maxLen)))
      && (actions[i].SetVlan? ==> read[i] == ParsedAction(1, VlanData(1, 8, actions[i].vid, [0, 0])))
      && (actions[i].Other? ==> read[i] == ParsedAction(actions[i].kind, NoData) && |read| == i + 1)
      && (!actions[i].Other? && i == |actions| - 1 ==> |read| == |actions|)
  {
    hide EncodeActions, ReadActions;
    ReadEncodedActions(actions);
    if i > 0 {
      ReadsKnownActions(actions[1..], i - 1);
      ReadEncodedActions(actions[1..]);
    }
  }
}
