/** The loop of src/main.c on the heap: one turn polls the switch twice, records the second
    poll, rebalances, and sends the migrations as flow-mods. */
module ControlLoop {
  import opened Env
  import opened Rings
  import opened Slots
  import opened FlowTable
  import opened Rebalance
  import opened Balancer
  import opened Wire
  import opened FlowReader
  import opened Polls
  import opened Switches
  import opened Connections

  // ---- what a poll reads from the stream ----

  ghost function Bodies(replies: seq<Message>): seq<Bytes> {
    seq(|replies|, i requires 0 <= i < |replies| => replies[i].data)
  }

  /** The parts of the reply to `xid`, and what remains of the stream after the last one. */
  ghost function RepliesTo(ms: seq<Message>, xid: uint32): seq<Message>
    requires LastPart(ms, xid) < |ms|
  {
    Select(ms[..LastPart(ms, xid) + 1], OFP_STATS_REPLY, xid, true)
  }

  ghost function OthersBefore(ms: seq<Message>, xid: uint32): seq<Message>
    requires LastPart(ms, xid) < |ms|
  {
    Select(ms[..LastPart(ms, xid) + 1], OFP_STATS_REPLY, xid, false)
  }

  ghost function After(ms: seq<Message>, xid: uint32): seq<Message>
    requires LastPart(ms, xid) < |ms|
  {
    ms[LastPart(ms, xid) + 1..]
  }

  /** A whole, well-formed reply to `xid` comes, and everything it brings fits. */
  ghost predicate PollReady(ms: seq<Message>, xid: uint32, buffered: nat, rows: seq<seq<ParsedAction>>) {
    && ReplyComes(ms, xid, buffered)
    && RepliesOk(Bodies(RepliesTo(ms, xid)))
    && Fits(rows, ReadReplies(Bodies(RepliesTo(ms, xid))))
  }

  ghost function FlowsOf(ms: seq<Message>, xid: uint32): seq<ParsedFlow>
    requires LastPart(ms, xid) < |ms| && RepliesOk(Bodies(RepliesTo(ms, xid)))
  {
    ReadReplies(Bodies(RepliesTo(ms, xid)))
  }

  /** openflow_get_flows as a whole: a request is sent; the flows are those of its own reply. */
  method GetFlows(conn: Connection, flows: Flows, ghost rows: seq<seq<ParsedAction>>)
    requires conn.Valid() && flows.Valid() && rows == flows.actions[..]
    requires PollReady(conn.inbox, conn.transactionId, conn.nbMsgBuffered, rows)
    modifies conn`inbox, conn`outbox, conn`transactionId, conn`nbMsgBuffered, conn.msgBuffer
    modifies flows, flows.flowStats, flows.actions
    ensures conn.Valid() && conn.transactionId == Increment32(old(conn.transactionId))
    ensures conn.outbox == old(conn.outbox) + [StatsRequest(old(conn.transactionId))]
    ensures conn.inbox == After(old(conn.inbox), old(conn.transactionId))
    ensures conn.Buffered() == old(conn.Buffered()) + OthersBefore(old(conn.inbox), old(conn.transactionId))
    ensures flows.Loaded(rows, FlowsOf(old(conn.inbox), old(conn.transactionId)))
  {
    hide Flows.Loaded, ReadReplies, RepliesOk, Fits, LastPart, Select, ReplyComes;
    var xid := conn.NextTransaction();
    conn.Send(StatsRequest(xid));
    var replies := conn.CollectReplies(xid);
    var bodies := seq(|replies|, i requires 0 <= i < |replies| => replies[i].data);
    assert bodies == Bodies(replies);
    ParseReplies(flows, bodies, rows);
  }

  // ---- two polls into the same structure ----

  ghost function NoRows(): seq<seq<ParsedAction>> { seq(MAX_HANDLED_FLOWS, _ => []) }

  /** The action rows after a poll: parsed actions go behind what the rows already held. */
  ghost function GrownRows(rows: seq<seq<ParsedAction>>, flows: seq<ParsedFlow>): seq<seq<ParsedAction>> {
    seq(|rows|, i requires 0 <= i < |rows| => if i < |flows| then rows[i] + flows[i].actions else rows[i])
  }

  /** Both polls of one turn are answered. The second one parses on top of the action rows the
      first one filled, and shares the buffer with it. */
  ghost predicate TurnReady(ms: seq<Message>, xid: uint32) {
    && PollReady(ms, xid, 0, NoRows())
    && PollReady(After(ms, xid), Increment32(xid), |OthersBefore(ms, xid)|, GrownRows(NoRows(), FlowsOf(ms, xid)))
  }

  /** A flow table that does not change between the two polls of a turn is polled within the
      capacity of the action rows if and only if every flow has at most half as many actions as
      a row holds, because openflow_get_flows resets the number of flows but not of actions. */
  lemma SecondPollFitsIff(flows: seq<ParsedFlow>)
    requires |flows| <= MAX_HANDLED_FLOWS
    ensures Fits(NoRows(), flows) && Fits(GrownRows(NoRows(), flows), flows)
      <==> forall i :: 0 <= i < |flows| ==> 2 * |flows[i].actions| <= MAX_ACTIONS
  {
    var rows, none := GrownRows(NoRows(), flows), NoRows();
    forall i | 0 <= i < |flows|
      ensures |rows[i]| == |flows[i].actions| && |none[i]| == 0
    {
      assert rows[i] == none[i] + flows[i].actions;
    }
  }

  /** The flows a turn works with: those of the second poll. */
  ghost function TurnFlows(ms: seq<Message>, xid: uint32): seq<ParsedFlow>
    requires TurnReady(ms, xid)
  {
    FlowsOf(After(ms, xid), Increment32(xid))
  }

  ghost function TurnPolled(ms: seq<Message>, xid: uint32): seq<Polled>
    requires TurnReady(ms, xid)
  {
    var flows := TurnFlows(ms, xid);
    seq(|flows|, i requires 0 <= i < |flows| => PolledOf(flows[i].stats))
  }

  /** What a turn sets aside for the next one. */
  ghost function TurnOthers(ms: seq<Message>, xid: uint32): seq<Message>
    requires TurnReady(ms, xid)
  {
    OthersBefore(ms, xid) + OthersBefore(After(ms, xid), Increment32(xid))
  }

  lemma LoadedRows(flows: Flows, rows: seq<seq<ParsedAction>>, done: seq<ParsedFlow>)
    requires flows.Loaded(rows, done)
    ensures flows.Valid() && flows.actions[..] == GrownRows(rows, done) && flows.nbFlows == |done|
    ensures PolledFlows(flows.flowStats[..flows.nbFlows]) ==
      seq(|done|, i requires 0 <= i < |done| => PolledOf(done[i].stats))
  {
  }

  lemma TurnReadyParts(ms: seq<Message>, xid: uint32)
    requires TurnReady(ms, xid)
    ensures LastPart(ms, xid) < |ms| && RepliesOk(Bodies(RepliesTo(ms, xid)))
    ensures
      var ms', xid' := After(ms, xid), Increment32(xid);
      LastPart(ms', xid') < |ms'| && RepliesOk(Bodies(RepliesTo(ms', xid')))
  {
    hide LastPart, RepliesOk, Bodies, RepliesTo, Fits, Select;
  }

  method PollTwice(conn: Connection) returns (flows: Flows)
    requires conn.Valid() && conn.nbMsgBuffered == 0 && TurnReady(conn.inbox, conn.transactionId)
    modifies conn`inbox, conn`outbox, conn`transactionId, conn`nbMsgBuffered, conn.msgBuffer
    ensures fresh(flows) && fresh(flows.flowStats) && fresh(flows.actions) && flows.Valid() && conn.Valid()
    ensures PolledFlows(flows.flowStats[..flows.nbFlows]) == TurnPolled(old(conn.inbox), old(conn.transactionId))
    ensures conn.transactionId == Increment32(Increment32(old(conn.transactionId)))
    ensures conn.outbox == old(conn.outbox)
      + [StatsRequest(old(conn.transactionId)), StatsRequest(Increment32(old(conn.transactionId)))]
    ensures
      var ms, xid := old(conn.inbox), old(conn.transactionId);
      && conn.inbox == After(After(ms, xid), Increment32(xid))
      && conn.Buffered() == OthersBefore(ms, xid) + OthersBefore(After(ms, xid), Increment32(xid))
  {
    hide Flows.Loaded, FlowsOf, PollReady, GrownRows, LastPart, Select, After, OthersBefore, PolledOf;
    flows := new Flows();
    ghost var ms, xid := conn.inbox, conn.transactionId;
    assert flows.actions[..] == NoRows();
    TurnReadyParts(ms, xid);
    GetFlows(conn, flows, NoRows());
    LoadedRows(flows, NoRows(), FlowsOf(ms, xid));
    GetFlows(conn, flows, GrownRows(NoRows(), FlowsOf(ms, xid)));
    LoadedRows(flows, GrownRows(NoRows(), FlowsOf(ms, xid)), TurnFlows(ms, xid));
  }

  // ---- the end of a turn ----

  /** The transaction number after `n` messages have taken one each. */
  ghost function IdAfter(xid: uint32, n: nat): uint32 { (xid + n) % 0x1_0000_0000 }

  lemma IdAfterOneMore(xid: uint32, n: nat)
    ensures (IdAfter(xid, n) + 1) % 0x1_0000_0000 == IdAfter(xid, n + 1)
  {
  }

  /** apply_migration for every recorded migration, in order, the first one with number `xid`. */
  ghost function ModsOf(migrations: seq<Migration>, xid: uint32): (sent: seq<Sent>)
    ensures |sent| == |migrations|
  {
    seq(|migrations|, i requires 0 <= i < |migrations| =>
      FlowModSent(IdAfter(xid, i), ModVlan(migrations[i].key, migrations[i].core % TWO_16)))
  }

  method ApplyMigrations(conn: Connection, migrations: Migrations)
    requires migrations.Valid()
    modifies conn`outbox, conn`transactionId
    ensures conn.outbox == old(conn.outbox) + ModsOf(migrations.Recorded(), old(conn.transactionId))
    ensures conn.transactionId == IdAfter(old(conn.transactionId), |migrations.Recorded()|)
    ensures migrations.Recorded() == old(migrations.Recorded())
  {
    hide ModVlan, IdAfter;
    ghost var all, xid := migrations.Recorded(), conn.transactionId;
    FirstId(xid);
    for i := 0 to migrations.nbMigrations
      invariant conn.outbox == old(conn.outbox) + ModsOf(all[..i], xid)
      invariant conn.transactionId == IdAfter(xid, i)
    {
      var migration := migrations.migrations[i];
      IdAfterOneMore(xid, i);
      conn.SendModVlan(migration.key, migration.core % TWO_16);
      assert migration == all[i];
      ModsOneMore(all, xid, i);
    }
    assert all[..|all|] == all;
  }

  lemma FirstId(xid: uint32)
    ensures IdAfter(xid, 0) == xid
  {
  }

  lemma ModsOneMore(all: seq<Migration>, xid: uint32, i: nat)
    requires i < |all|
    ensures ModsOf(all[..i + 1], xid) ==
      ModsOf(all[..i], xid) + [FlowModSent(IdAfter(xid, i), ModVlan(all[i].key, all[i].core % TWO_16))]
  {
    hide ModVlan, IdAfter;
  }

  lemma NothingIdle(table: HashMap, m: RingMap, t: Table)
    requires TableIs(table, m, t) && AllActive(t)
    ensures table.IdleRings() == {} && CleanSlots(table.slots[..], {}) == table.slots[..]
  {
    hide SlotKeys, HoleFree, Separate, Size;
    var s := table.slots[..];
    forall i | 0 <= i < |s| && s[i].valid
      ensures s[i].value.isActive
    {
      IndexUnique(s, i);
      assert m[s[i].key] == s[i].value;
      assert t.rings[s[i].key] == m[s[i].key].State();
    }
  }

  /** Every ring of the table is active, so cleaning up inactive flows changes nothing. */
  method CleanupChangesNothing(table: HashMap, ghost m: RingMap, ghost t: Table)
    requires TableIs(table, m, t) && AllActive(t)
    modifies table, table.slots
    ensures TableIs(table, m, t) && table.slots[..] == old(table.slots[..])
  {
    hide SlotKeys, HoleFree, Separate, Size, SlotsOk, RingsOf, CleanSlots, AllActive;
    NothingIdle(table, m, t);
    table.CleanupInactiveFlows();
  }

  /** hashmap_destroy at the end of main frees every ring exactly once. */
  method Shutdown(table: HashMap, ghost m: RingMap, ghost t: Table) returns (freed: seq<RingBuffer?>)
    requires TableIs(table, m, t)
    ensures NoDup(freed) && (set r | r in freed) == m.Values && |freed| == |t.keys|
  {
    hide SlotsAre, RingsAre, SlotsOk, RingsOf, Freed, Size;
    FreedAreRings(table, m, t);
    freed := table.Destroy();
  }

  lemma FreedAreRings(table: HashMap, m: RingMap, t: Table)
    requires TableIs(table, m, t)
    ensures table.Valid() && |Freed(table.slots[..])| == |t.keys|
    ensures NoDup(Freed(table.slots[..])) && (set r | r in Freed(table.slots[..])) == m.Values
  {
    hide SlotKeys, Size, View, HoleFree, Separate, RingsOf, SlotsOk;
    KeysCount(table.slots[..]);
    FreedRings(table.slots[..], m);
  }

  lemma FreedRings(s: seq<RingSlot>, m: RingMap)
    requires SlotsOk(s) && HoleFree(s) && m == RingsOf(s) && Separate(m)
    ensures NoDup(Freed(s)) && forall r :: r in Freed(s) <==> r in m.Values
  {
    hide Distinct, Count, RingsOf, Keys;
    var freed := Freed(s);
    forall i | 0 <= i < |freed|
      ensures i < |s| && s[i].valid && s[i].key in m && m[s[i].key] == s[i].value == freed[i]
    {
      SlotRing(s, i);
    }
    DistinctSlots(s);
    forall r
      ensures r in freed <==> r in m.Values
    {
      if r in m.Values {
        var k :| k in m && m[k] == r;
        RingSlotOf(s, k);
        assert freed[IndexOf(s, k)] == r;
      }
    }
  }

  lemma DistinctSlots(s: seq<RingSlot>)
    requires SlotsOk(s)
    ensures forall i, j :: 0 <= i < j < |s| && s[i].valid && s[j].valid ==> s[i].key != s[j].key
  {
  }

  lemma SlotRing(s: seq<RingSlot>, i: nat)
    requires SlotsOk(s) && HoleFree(s) && i < Size(s)
    ensures i < |s| && s[i].valid && s[i].key in RingsOf(s) && RingsOf(s)[s[i].key] == s[i].value
  {
    SizeIsCardinality(s);
    IndexUnique(s, i);
  }

  lemma RingSlotOf(s: seq<RingSlot>, k: FiveTuple)
    requires SlotsOk(s) && HoleFree(s) && k in RingsOf(s)
    ensures 0 <= IndexOf(s, k) < Size(s) && s[IndexOf(s, k)].value == RingsOf(s)[k]
  {
    KeyFound(s, k);
  }

  // ---- one turn of the main loop ----

  /** The connection shares nothing with the rings. */
  ghost predicate Elsewhere(conn: Connection, m: RingMap) {
    conn !in Buffers(m) && conn.msgBuffer !in Buffers(m)
  }

  /** The echo requests a turn answers: those set aside, then those that have arrived. */
  ghost function TurnRequests(c: Conn, available: nat): seq<Message>
    requires available <= |c.unread|
  {
    Echoes(c.buffered) + Echoes(c.unread[..available])
  }

  /** What a turn makes of the messages of a connection. */
  ghost function TurnConn(c: Conn, available: nat, xid: uint32): Conn
    requires available <= |c.unread| && TurnReady(c.unread[available..], xid)
  {
    var ms := c.unread[available..];
    Conn(c.answered + TurnRequests(c, available), TurnOthers(ms, xid), After(After(ms, xid), Increment32(xid)))
  }

  method Listen(conn: Connection, available: nat, ghost table: HashMap, ghost m: RingMap, ghost t: Table)
    requires conn.Valid() && available <= |conn.inbox| && TableIs(table, m, t) && Elsewhere(conn, m)
    modifies conn
    ensures conn.Valid() && conn.nbMsgBuffered == 0 && conn.transactionId == old(conn.transactionId)
    ensures conn.inbox == old(conn.inbox)[available..]
    ensures conn.answered == old(conn.answered) + TurnRequests(old(conn.State()), available)
    ensures conn.outbox == old(conn.outbox) + Replies(TurnRequests(old(conn.State()), available))
    ensures TableIs(table, m, t)
  {
    hide SlotKeys, HoleFree, Separate, Size, SlotsOk, RingsOf, Replies, Echoes, Bare;
    ghost var c := conn.State();
    conn.Control(available);
    assert conn.State() == Step(c, Drain(available));
    assert c.answered + Echoes(c.buffered) + Echoes(c.unread[..available])
      == c.answered + TurnRequests(c, available);
  }

  method PollKeeping(conn: Connection, ghost table: HashMap, ghost m: RingMap, ghost t: Table) returns (flows: Flows)
    requires conn.Valid() && conn.nbMsgBuffered == 0 && TurnReady(conn.inbox, conn.transactionId)
    requires TableIs(table, m, t) && Elsewhere(conn, m)
    modifies conn, conn.msgBuffer
    ensures fresh(flows) && fresh(flows.flowStats) && fresh(flows.actions) && flows.Valid() && conn.Valid()
    ensures PolledFlows(flows.flowStats[..flows.nbFlows]) == TurnPolled(old(conn.inbox), old(conn.transactionId))
    ensures conn.outbox == old(conn.outbox)
      + [StatsRequest(old(conn.transactionId)), StatsRequest(Increment32(old(conn.transactionId)))]
    ensures conn.transactionId == Increment32(Increment32(old(conn.transactionId)))
    ensures conn.inbox ==
      After(After(old(conn.inbox), old(conn.transactionId)), Increment32(old(conn.transactionId)))
    ensures conn.Buffered() == TurnOthers(old(conn.inbox), old(conn.transactionId))
    ensures conn.answered == old(conn.answered) && TableIs(table, m, t)
  {
    hide SlotKeys, HoleFree, Separate, Size, SlotsOk, RingsOf, TurnReady, TurnPolled, PolledFlows, After, OthersBefore;
    flows := PollTwice(conn);
  }

  /** get_migrations with a fresh record; the connection is not involved. */
  method Decide(conn: Connection, flows: Flows, table: HashMap, seed: FiveTuple,
                ghost m: RingMap, ghost t: GoodTable, ghost ps: seq<Polled>)
    returns (ending: Ending, migrations: Migrations, ghost m': RingMap)
    requires TableIs(table, m, t) && seed !in KnownAfter(t, ps)
    requires flows.Valid() && ps == PolledFlows(flows.flowStats[..flows.nbFlows])
    requires Elsewhere(conn, m)
    modifies table, table.slots, m.Values, Buffers(m)
    ensures unchanged(conn) && unchanged(conn.msgBuffer) && Elsewhere(conn, m')
    ensures ending == EndingOf(t, ps)
    ensures fresh(migrations) && fresh(migrations.migrations) && migrations.Valid()
    ensures ending.Completed? ==> TableIs(table, m', Settled(t, ps)) && migrations.Recorded() == RunAfter(t, ps)
    ensures fresh(m'.Values - m.Values) && fresh(Buffers(m') - Buffers(m))
  {
    hide TableIs, PolledFlows, Migrations.Recorded, Appended, EndingOf, RunAfter, Settled, KnownAfter, TableGood;
    migrations := new Migrations();
    ending, m' := GetMigrations(flows, table, migrations, seed, m, t, ps);
    if ending.Completed? {
      AppendedToNone(RunAfter(t, ps), migrations.Recorded());
    }
  }

  lemma AppendedToNone(run: seq<Migration>, recorded: seq<Migration>)
    requires Appended([], run, recorded)
    ensures recorded == run
  {
  }

  /** Sending the migrations, freeing the polled flows, and the cleanup. */
  method Finish(conn: Connection, flows: Flows, migrations: Migrations, table: HashMap,
                ghost m: RingMap, ghost t: Table)
    requires TableIs(table, m, t) && AllActive(t) && flows.Valid() && migrations.Valid()
    requires conn !in Buffers(m) && flows !in Buffers(m) && flows.actions !in Buffers(m)
    modifies conn`outbox, conn`transactionId, flows, flows.actions, table, table.slots
    ensures conn.outbox == old(conn.outbox) + ModsOf(old(migrations.Recorded()), old(conn.transactionId))
    ensures conn.transactionId == IdAfter(old(conn.transactionId), |old(migrations.Recorded())|)
    ensures TableIs(table, m, t)
  {
    hide AllActive, SlotKeys, HoleFree, Separate, Size, SlotsOk, RingsOf, ModsOf, Migrations.Recorded;
    ApplyMigrations(conn, migrations);
    flows.FreeFlows();
    CleanupChangesNothing(table, m, t);
  }

  /** The first half of a turn: answering, then polling twice. */
  method Hear(conn: Connection, available: nat, ghost table: HashMap, ghost m: RingMap, ghost t: Table,
              ghost ms: seq<Message>, ghost xid: uint32)
    returns (flows: Flows)
    requires conn.Valid() && available <= |conn.inbox| && TableIs(table, m, t) && Elsewhere(conn, m)
    requires ms == conn.inbox[available..] && xid == conn.transactionId && TurnReady(ms, xid)
    modifies conn, conn.msgBuffer
    ensures fresh(flows) && fresh(flows.flowStats) && fresh(flows.actions) && flows.Valid() && conn.Valid()
    ensures PolledFlows(flows.flowStats[..flows.nbFlows]) == TurnPolled(ms, xid)
    ensures conn.outbox == old(conn.outbox) + Replies(TurnRequests(old(conn.State()), available))
      + [StatsRequest(xid), StatsRequest(Increment32(xid))]
    ensures conn.State() == TurnConn(old(conn.State()), available, xid)
    ensures conn.transactionId == Increment32(Increment32(xid))
    ensures TableIs(table, m, t)
  {
    hide TableIs, TurnReady, TurnPolled, After, Replies, Echoes, PolledFlows, TurnOthers, Elsewhere, TurnRequests;
    Listen(conn, available, table, m, t);
    flows := PollKeeping(conn, table, m, t);
  }

  /** The second half: deciding on migrations and sending them. */
  method Act(conn: Connection, flows: Flows, table: HashMap, seed: FiveTuple,
             ghost m: RingMap, ghost t: GoodTable, ghost ps: seq<Polled>)
    returns (ending: Ending, ghost m': RingMap)
    requires TableIs(table, m, t) && seed !in KnownAfter(t, ps)
    requires conn.Valid() && Elsewhere(conn, m)
    requires flows.Valid() && ps == PolledFlows(flows.flowStats[..flows.nbFlows])
    requires flows !in Buffers(m) && flows.actions !in Buffers(m)
    modifies conn`outbox, conn`transactionId, flows, flows.actions, table, table.slots, m.Values, Buffers(m)
    ensures conn.Valid() && conn.State() == old(conn.State())
    ensures ending == EndingOf(t, ps)
    ensures ending.Completed? ==> TableIs(table, m', Settled(t, ps))
    ensures conn.outbox == old(conn.outbox) + ModsOf(RunAfter(t, ps), old(conn.transactionId))
    ensures conn.transactionId == IdAfter(old(conn.transactionId), |RunAfter(t, ps)|)
    ensures Elsewhere(conn, m') && fresh(m'.Values - m.Values) && fresh(Buffers(m') - Buffers(m))
  {
    hide TableIs, PolledFlows, Migrations.Recorded, EndingOf, RunAfter, Settled, KnownAfter, TableGood;
    var migrations;
    ending, migrations, m' := Decide(conn, flows, table, seed, m, t, ps);
    if ending.Completed? {
      GoodIsActive(Settled(t, ps));
      Finish(conn, flows, migrations, table, m', Settled(t, ps));
    } else {
      NothingRecorded(t, ps, conn.transactionId);
    }
  }

  lemma GoodIsActive(t: GoodTable)
    ensures AllActive(t)
  {
  }

  lemma NothingRecorded(t: GoodTable, ps: seq<Polled>, xid: uint32)
    requires !EndingOf(t, ps).Completed?
    ensures RunAfter(t, ps) == [] && ModsOf([], xid) == [] && IdAfter(xid, 0) == xid
  {
  }

  /** One turn of the loop in main, however it ends. */
  method Iterate(conn: Connection, table: HashMap, available: nat, seed: FiveTuple,
                 ghost m: RingMap, ghost t: GoodTable, ghost ps: seq<Polled>, ghost xid: uint32)
    returns (ending: Ending, ghost m': RingMap)
    requires TableIs(table, m, t) && seed !in KnownAfter(t, ps)
    requires conn.Valid() && available <= |conn.inbox| && Elsewhere(conn, m) && xid == conn.transactionId
    requires TurnReady(conn.inbox[available..], xid) && ps == TurnPolled(conn.inbox[available..], xid)
    modifies conn, conn.msgBuffer, table, table.slots, m.Values, Buffers(m)
    ensures ending == EndingOf(t, ps)
    ensures ending.Completed? ==> TableIs(table, m', Settled(t, ps))
    ensures conn.Valid() && conn.State() == TurnConn(old(conn.State()), available, xid)
    ensures conn.transactionId == IdAfter(Increment32(Increment32(xid)), |RunAfter(t, ps)|)
    ensures SentInTurn(old(conn.outbox), TurnRequests(old(conn.State()), available), xid, RunAfter(t, ps), conn.outbox)
    ensures Elsewhere(conn, m') && fresh(m'.Values - m.Values) && fresh(Buffers(m') - Buffers(m))
  {
    hide TableIs, TurnReady, TurnPolled, Replies, ModsOf, PolledFlows, TurnConn, TurnRequests, Elsewhere, IdAfter,
      EndingOf, RunAfter, Settled, KnownAfter, TableGood;
    var flows := Hear(conn, available, table, m, t, conn.inbox[available..], xid);
    ending, m' := Act(conn, flows, table, seed, m, t, ps);
  }

  /** What one turn writes to the switch: an answer to every echo request, two statistics
      requests, and one flow-mod per migration, in order. */
  ghost predicate SentInTurn(before: seq<Sent>, requests: seq<Message>, xid: uint32, run: seq<Migration>,
                             after: seq<Sent>)
  {
    after == before + Replies(requests) + [StatsRequest(xid), StatsRequest(Increment32(xid))]
      + ModsOf(run, Increment32(Increment32(xid)))
  }

  // ---- from the switch's entries to the polled counters ----

  /** A reply message of the switch: a reply header, then the entries of this part. */
  ghost predicate Encodes(body: Bytes, entries: seq<WireEntry>) {
    |body| >= REPLY_HEADER_SIZE && body[REPLY_HEADER_SIZE..] == EncodeEntries(entries)
  }

  ghost predicate EncodeParts(bodies: seq<Bytes>, parts: seq<seq<WireEntry>>) {
    |bodies| == |parts| && forall i :: 0 <= i < |parts| ==> Encodes(bodies[i], parts[i])
  }

  ghost function Flatten(parts: seq<seq<WireEntry>>): seq<WireEntry> {
    if parts == [] then [] else Flatten(parts[..|parts| - 1]) + parts[|parts| - 1]
  }

  /** The flows the parser should make of entries. */
  ghost function RecoveredEntries(entries: seq<WireEntry>): (flows: seq<ParsedFlow>)
    ensures |flows| == |entries|
  {
    seq(|entries|, i requires 0 <= i < |entries| => RecoveredEntry(entries[i]))
  }

  /** What the loop should learn about an entry. */
  function PolledEntry(e: Entry): Polled {
    Polled(KeyOf(e.fields), e.packets)
  }

  ghost function PolledEntries(entries: seq<WireEntry>): (ps: seq<Polled>)
    ensures |ps| == |entries|
  {
    seq(|entries|, i requires 0 <= i < |entries| => PolledEntry(entries[i]))
  }

  ghost function PolledParsed(flows: seq<ParsedFlow>): seq<Polled> {
    seq(|flows|, i requires 0 <= i < |flows| => PolledOf(flows[i].stats))
  }

  lemma RecoveredConcat(a: seq<WireEntry>, b: seq<WireEntry>)
    ensures RecoveredEntries(a + b) == RecoveredEntries(a) + RecoveredEntries(b)
  {
    hide RecoveredEntry;
  }

  lemma PartIsRead(body: Bytes, entries: seq<WireEntry>)
    requires Encodes(body, entries)
    ensures ReplyOk(body) && ReadBody(body[REPLY_HEADER_SIZE..]) == RecoveredEntries(entries)
  {
    hide EncodeEntries, BodyOk, ReadBody, RecoveredEntry;
    ReadInvertsEncode(entries);
  }

  lemma AllRepliesOk(bodies: seq<Bytes>, n: nat)
    requires n == |bodies| - 1 && RepliesOk(bodies[..n]) && ReplyOk(bodies[n])
    ensures RepliesOk(bodies)
  {
    hide ReplyOk;
    assert forall i :: 0 <= i < n ==> bodies[..n][i] == bodies[i];
  }

  /** However the switch splits its entries over the parts of a reply, the parser recovers them
      all, in order. */
  lemma {:induction false} PartsAreRead(bodies: seq<Bytes>, parts: seq<seq<WireEntry>>)
    requires EncodeParts(bodies, parts)
    ensures RepliesOk(bodies) && ReadReplies(bodies) == RecoveredEntries(Flatten(parts))
    decreases |parts|
  {
    hide Encodes, BodyOk, ReadBody, RecoveredEntry, ReplyOk;
    if parts != [] {
      var n := |parts| - 1;
      assert forall i :: 0 <= i < n ==> bodies[..n][i] == bodies[i] && parts[..n][i] == parts[i];
      PartsAreRead(bodies[..n], parts[..n]);
      PartIsRead(bodies[n], parts[n]);
      AllRepliesOk(bodies, n);
      RecoveredConcat(Flatten(parts[..n]), parts[n]);
    }
  }

  lemma RecoveredArePolled(entries: seq<WireEntry>)
    ensures PolledParsed(RecoveredEntries(entries)) == PolledEntries(entries)
  {
    hide EncodeActions, RecoveredActions;
    forall i | 0 <= i < |entries|
      ensures PolledOf(RecoveredEntry(entries[i]).stats) == PolledEntry(entries[i])
    {
      JoinSplit64(entries[i].packets);
    }
  }

  /** Whatever actions the entries carry, the poll learns the five-tuple and the 64-bit packet
      count of each. */
  lemma PollSeesEntries(bodies: seq<Bytes>, parts: seq<seq<WireEntry>>)
    requires EncodeParts(bodies, parts)
    ensures RepliesOk(bodies)
    ensures PolledParsed(ReadReplies(bodies)) == PolledEntries(Flatten(parts))
  {
    hide EncodeParts, PolledParsed, PolledEntries;
    PartsAreRead(bodies, parts);
    RecoveredArePolled(Flatten(parts));
  }

  // ---- a switch that answers ----

  /** The stream holds a whole reply to `xid`, whose parts encode `parts`. Other messages may
      come before, between and after them. */
  ghost predicate Answers(ms: seq<Message>, xid: uint32, parts: seq<seq<WireEntry>>) {
    LastPart(ms, xid) < |ms| && EncodeParts(Bodies(RepliesTo(ms, xid)), parts)
  }

  lemma {:induction false} WantedIsSelected(ms: seq<Message>, j: nat, mtype: uint8, xid: uint32)
    requires j < |ms| && Wanted(ms[j], mtype, xid)
    ensures ms[j] in Select(ms, mtype, xid, true)
  {
    if j < |ms| - 1 {
      WantedIsSelected(ms[..|ms| - 1], j, mtype, xid);
    }
  }

  /** The parts of an answer carry a reply header. */
  lemma AnswersHaveHeaders(ms: seq<Message>, xid: uint32, parts: seq<seq<WireEntry>>, j: nat)
    requires Answers(ms, xid, parts) && j <= LastPart(ms, xid) && Wanted(ms[j], OFP_STATS_REPLY, xid)
    ensures |ms[j].data| >= REPLY_HEADER_SIZE
  {
    hide LastPart, Wanted, EncodeEntries, Select;
    WantedIsSelected(ms[..LastPart(ms, xid) + 1], j, OFP_STATS_REPLY, xid);
    var replies := RepliesTo(ms, xid);
    var i :| 0 <= i < |replies| && replies[i] == ms[j];
    assert Encodes(Bodies(replies)[i], parts[i]);
  }

  /** An answered poll gets through if and only if the answer fits: its parts in the array of
      replies, what comes before its last part in the buffer, its flows and actions in the rows.
      The flows read are then the entries of all parts, in order. */
  lemma AnsweredPoll(ms: seq<Message>, xid: uint32, parts: seq<seq<WireEntry>>, buffered: nat,
                     rows: seq<seq<ParsedAction>>)
    requires Answers(ms, xid, parts)
    ensures RepliesOk(Bodies(RepliesTo(ms, xid))) && FlowsOf(ms, xid) == RecoveredEntries(Flatten(parts))
    ensures PollReady(ms, xid, buffered, rows) <==>
      && |parts| <= MAX_STATS_REPLY && buffered + |OthersBefore(ms, xid)| <= MSG_BUFFER_SIZE
      && Fits(rows, RecoveredEntries(Flatten(parts)))
  {
    hide Wanted, EncodeParts, RepliesOk, Fits, LastPart, Select, RecoveredEntries, Flatten;
    PartsAreRead(Bodies(RepliesTo(ms, xid)), parts);
    PartsCount(Bodies(RepliesTo(ms, xid)), parts);
    forall j | 0 <= j <= LastPart(ms, xid) && Wanted(ms[j], OFP_STATS_REPLY, xid)
      ensures |ms[j].data| >= REPLY_HEADER_SIZE
    {
      AnswersHaveHeaders(ms, xid, parts, j);
    }
  }

  lemma PartsCount(bodies: seq<Bytes>, parts: seq<seq<WireEntry>>)
    requires EncodeParts(bodies, parts)
    ensures |bodies| == |parts|
  {
  }

  /** One part of a reply: type FLOW, the MORE flag or not, and its entries. */
  ghost function PartOf(xid: uint32, entries: seq<WireEntry>, more: bool): Message
    requires Sendable(entries)
  {
    Message(OFP_STATS_REPLY, xid, [0, 1, 0, if more then 1 else 0] + EncodeEntries(entries))
  }

  /** The entries fit in one message. */
  ghost predicate Sendable(entries: seq<WireEntry>) {
    HEADER_SIZE + REPLY_HEADER_SIZE + |EncodeEntries(entries)| < TWO_16
  }

  /** A reply in as many parts as it takes. */
  ghost function ReplyOf(xid: uint32, parts: seq<seq<WireEntry>>): (ms: seq<Message>)
    requires forall i :: 0 <= i < |parts| ==> Sendable(parts[i])
    ensures |ms| == |parts|
  {
    seq(|parts|, i requires 0 <= i < |parts| => PartOf(xid, parts[i], i + 1 < |parts|))
  }

  lemma PartIsWanted(xid: uint32, entries: seq<WireEntry>, more: bool)
    requires Sendable(entries)
    ensures var m := PartOf(xid, entries, more);
      Wanted(m, OFP_STATS_REPLY, xid) && (More(m) <==> more) && Encodes(m.data, entries)
  {
    hide EncodeEntries, Swap16, Raw16;
    var data := PartOf(xid, entries, more).data;
    assert data[REPLY_HEADER_SIZE..] == EncodeEntries(entries);
    FlagIsRead(data, if more then 1 else 0);
  }

  lemma FlagIsRead(data: Bytes, flag: uint8)
    requires |data| >= REPLY_HEADER_SIZE && data[2] == 0 && data[3] == flag <= 1
    ensures Swap16(Raw16(data, 2)) == flag
  {
    hide Swap16, Raw16;
    SwapRaw16(data, 2, flag);
  }

  /** `ms` consists of the messages of `a` and those of `b`, each in order, in any mixture. */
  ghost predicate Merges(ms: seq<Message>, a: seq<Message>, b: seq<Message>)
    decreases |ms|
  {
    if ms == [] then a == [] && b == []
    else
      var n, last := |ms| - 1, ms[|ms| - 1];
      || (a != [] && last == a[|a| - 1] && Merges(ms[..n], a[..|a| - 1], b))
      || (b != [] && last == b[|b| - 1] && Merges(ms[..n], a, b[..|b| - 1]))
  }

  /** Selecting takes a mixture apart again. */
  lemma {:induction false} MergeSelected(ms: seq<Message>, a: seq<Message>, b: seq<Message>, xid: uint32)
    requires Merges(ms, a, b)
    requires forall i :: 0 <= i < |a| ==> Wanted(a[i], OFP_STATS_REPLY, xid)
    requires forall i :: 0 <= i < |b| ==> !Wanted(b[i], OFP_STATS_REPLY, xid)
    ensures Select(ms, OFP_STATS_REPLY, xid, true) == a && Select(ms, OFP_STATS_REPLY, xid, false) == b
    decreases |ms|
  {
    hide Wanted;
    if ms != [] {
      var n, last := |ms| - 1, ms[|ms| - 1];
      if a != [] && last == a[|a| - 1] && Merges(ms[..n], a[..|a| - 1], b) {
        MergeSelected(ms[..n], a[..|a| - 1], b, xid);
        assert a == a[..|a| - 1] + [last] && b + [] == b;
      } else {
        MergeSelected(ms[..n], a, b[..|b| - 1], xid);
        assert b == b[..|b| - 1] + [last] && a + [] == a;
      }
    }
  }

  /** Every message of a mixture is one of the parts mixed. */
  lemma {:induction false} MergedFrom(ms: seq<Message>, a: seq<Message>, b: seq<Message>, j: nat)
    requires Merges(ms, a, b) && j < |ms|
    ensures ms[j] in a || ms[j] in b
    decreases |ms|
  {
    if j < |ms| - 1 {
      var n, last := |ms| - 1, ms[|ms| - 1];
      if a != [] && last == a[|a| - 1] && Merges(ms[..n], a[..|a| - 1], b) {
        MergedFrom(ms[..n], a[..|a| - 1], b, j);
      } else {
        MergedFrom(ms[..n], a, b[..|b| - 1], j);
      }
    }
  }

  lemma LastPartAt(ms: seq<Message>, xid: uint32, e: nat)
    requires e < |ms| && Wanted(ms[e], OFP_STATS_REPLY, xid) && !More(ms[e])
    requires forall j :: 0 <= j < e ==> !Wanted(ms[j], OFP_STATS_REPLY, xid) || More(ms[j])
    ensures LastPart(ms, xid) == e
  {
    hide Wanted, More;
    LastPartIs(ms, xid);
  }

  /** Any entries, split in any way into parts that can be sent, have such a reply; and it is an
      answer among any other messages: those before its last part are exactly what the poll sets
      aside, in order. */
  lemma ReplyAnswers(xid: uint32, parts: seq<seq<WireEntry>>, before: seq<Message>, others: seq<Message>,
                     rest: seq<Message>)
    requires parts != [] && forall i :: 0 <= i < |parts| ==> Sendable(parts[i])
    requires forall i :: 0 <= i < |others| ==>
      !(others[i].mtype == 0x11 && (xid == 0 || others[i].xid == xid))
    requires Merges(before, ReplyOf(xid, parts)[..|parts| - 1], others)
    ensures
      var ms := before + [ReplyOf(xid, parts)[|parts| - 1]] + rest;
      Answers(ms, xid, parts) && OthersBefore(ms, xid) == others && After(ms, xid) == rest
  {
    hide Wanted, More, Select, LastPart, Encodes, PartOf, Sendable, Merges;
    var reply, n, e := ReplyOf(xid, parts), |parts|, |before|;
    var ms := before + [reply[n - 1]] + rest;
    WantedIs(OFP_STATS_REPLY, xid);
    forall i | 0 <= i < n
      ensures Wanted(reply[i], OFP_STATS_REPLY, xid) && (More(reply[i]) <==> i + 1 < n)
      ensures Encodes(reply[i].data, parts[i])
    {
      PartIsWanted(xid, parts[i], i + 1 < n);
    }
    forall j | 0 <= j < e
      ensures !Wanted(ms[j], OFP_STATS_REPLY, xid) || More(ms[j])
    {
      MergedFrom(before, reply[..n - 1], others, j);
    }
    LastPartAt(ms, xid, e);
    assert ms[..e + 1] == before + [reply[n - 1]] && ms[e + 1..] == rest;
    MergeSelected(before, reply[..n - 1], others, xid);
    SelectLast(before, reply[n - 1], xid);
    assert reply[..n - 1] + [reply[n - 1]] == reply && others + [] == others;
  }

  lemma SelectLast(before: seq<Message>, m: Message, xid: uint32)
    requires Wanted(m, OFP_STATS_REPLY, xid)
    ensures Select(before + [m], OFP_STATS_REPLY, xid, true) == Select(before, OFP_STATS_REPLY, xid, true) + [m]
    ensures Select(before + [m], OFP_STATS_REPLY, xid, false) == Select(before, OFP_STATS_REPLY, xid, false) + []
  {
    hide Wanted;
    assert (before + [m])[..|before|] == before;
  }

  /** The answers to both polls of a turn fit. */
  ghost predicate Roomy(ms: seq<Message>, xid: uint32, first: seq<seq<WireEntry>>, second: seq<seq<WireEntry>>)
    requires Answers(ms, xid, first) && Answers(After(ms, xid), Increment32(xid), second)
  {
    && |first| <= MAX_STATS_REPLY && |second| <= MAX_STATS_REPLY
    && |OthersBefore(ms, xid)| + |OthersBefore(After(ms, xid), Increment32(xid))| <= MSG_BUFFER_SIZE
    && Fits(NoRows(), RecoveredEntries(Flatten(first)))
    && Fits(GrownRows(NoRows(), RecoveredEntries(Flatten(first))), RecoveredEntries(Flatten(second)))
  }

  /** If the switch answers both polls of a turn, with any entries, in any number of parts, and
      with any other messages in between, the turn gets through if and only if the answers fit,
      and then works with exactly the entries of the second answer. */
  lemma AnsweredTurnIsReady(ms: seq<Message>, xid: uint32, first: seq<seq<WireEntry>>, second: seq<seq<WireEntry>>)
    requires Answers(ms, xid, first) && Answers(After(ms, xid), Increment32(xid), second)
    ensures TurnReady(ms, xid) <==> Roomy(ms, xid, first, second)
    ensures TurnReady(ms, xid) ==> TurnPolled(ms, xid) == PolledEntries(Flatten(second))
  {
    hide PollReady, EncodeParts, Fits, RecoveredEntries, Flatten, FlowsOf, LastPart, OthersBefore, After, PolledOf,
      PolledEntries, GrownRows, NoRows, RepliesOk;
    var ms', xid' := After(ms, xid), Increment32(xid);
    AnsweredPoll(ms, xid, first, 0, NoRows());
    AnsweredPoll(ms', xid', second, |OthersBefore(ms, xid)|, GrownRows(NoRows(), RecoveredEntries(Flatten(first))));
    RecoveredArePolled(Flatten(second));
  }
}
