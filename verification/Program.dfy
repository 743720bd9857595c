/** The whole program: any number of turns of the loop of src/main.c on the heap, proved
    against a run on values, which together with the switch refines the state machine of
    module Systems. */
module Programs {
  import opened Env
  import opened Rings
  import opened Slots
  import opened FlowTable
  import opened Rebalance
  import opened Balancer
  import opened Wire
  import opened FlowReader
  import opened Polls
  import opened Switches
  import opened Connections
  import opened ControlLoop
  import Systems

  /** The state at the head of the loop, or where the program ended. */
  datatype Loop = Loop(conn: Conn, outbox: seq<Sent>, nextId: uint32, table: GoodTable, ending: Ending) {
    ghost predicate Running() { ending.Completed? }
  }

  /** What a turn depends on: how many messages have arrived when it begins, and the key the
      iteration over the table starts from. */
  datatype Turn = Turn(available: nat, seed: FiveTuple)

  ghost function Start(arriving: seq<Message>, firstId: uint32): Loop {
    Loop(Conn([], [], arriving), [], firstId, Table([], map[]), Completed)
  }

  /** The stream a turn polls from. */
  ghost function Unread(l: Loop, u: Turn): seq<Message>
    requires u.available <= |l.conn.unread|
  {
    l.conn.unread[u.available..]
  }

  /** Both polls of the turn are answered, and the answers fit. */
  ghost predicate Answered(l: Loop, u: Turn) {
    u.available <= |l.conn.unread| && TurnReady(Unread(l, u), l.nextId)
  }

  ghost function PolledIn(l: Loop, u: Turn): seq<Polled>
    requires Answered(l, u)
  {
    TurnPolled(Unread(l, u), l.nextId)
  }

  ghost predicate Ready(l: Loop, u: Turn) {
    Answered(l, u) && u.seed !in KnownAfter(l.table, PolledIn(l, u))
  }

  ghost function RunIn(l: Loop, u: Turn): seq<Migration>
    requires Answered(l, u)
  {
    RunAfter(l.table, PolledIn(l, u))
  }

  /** The number of the first flow-mod of a turn, after those of its two requests. */
  ghost function FirstModId(l: Loop): uint32 { Increment32(Increment32(l.nextId)) }

  ghost function SentIn(l: Loop, u: Turn): seq<Sent>
    requires Answered(l, u)
  {
    Replies(TurnRequests(l.conn, u.available)) + [StatsRequest(l.nextId), StatsRequest(Increment32(l.nextId))]
    + ModsOf(RunIn(l, u), FirstModId(l))
  }

  ghost function AfterTurn(l: Loop, u: Turn): Loop
    requires Answered(l, u)
  {
    Loop(
      TurnConn(l.conn, u.available, l.nextId),
      l.outbox + SentIn(l, u),
      IdAfter(FirstModId(l), |RunIn(l, u)|),
      Settled(l.table, PolledIn(l, u)),
      EndingOf(l.table, PolledIn(l, u)))
  }

  /** As long as the program runs, its turns are ready. */
  ghost predicate AllReady(l: Loop, us: seq<Turn>)
    decreases |us|
  {
    us == [] || !l.Running() || (Ready(l, us[0]) && AllReady(AfterTurn(l, us[0]), us[1..]))
  }

  ghost function AfterTurns(l: Loop, us: seq<Turn>): Loop
    requires AllReady(l, us)
    decreases |us|
  {
    if us == [] || !l.Running() then l else AfterTurns(AfterTurn(l, us[0]), us[1..])
  }

  // ---- on the heap ----

  /** The objects of the program hold the state `l`; a program that ended leaves its table. */
  ghost predicate LoopIs(conn: Connection, table: HashMap, m: RingMap, l: Loop)
    reads conn, conn.msgBuffer, table, table.slots, m.Values, Buffers(m)
  {
    && conn.Valid() && conn.State() == l.conn && conn.outbox == l.outbox && conn.transactionId == l.nextId
    && Elsewhere(conn, m) && (l.Running() ==> TableIs(table, m, l.table))
  }

  method TakeTurn(conn: Connection, table: HashMap, u: Turn, ghost m: RingMap, ghost l: Loop)
    returns (ending: Ending, ghost m': RingMap)
    requires LoopIs(conn, table, m, l) && l.Running() && Ready(l, u)
    modifies conn, conn.msgBuffer, table, table.slots, m.Values, Buffers(m)
    ensures LoopIs(conn, table, m', AfterTurn(l, u)) && ending == AfterTurn(l, u).ending
    ensures fresh(m'.Values - m.Values) && fresh(Buffers(m') - Buffers(m))
  {
    hide TableIs, TurnReady, TurnPolled, TurnConn, Elsewhere, TurnRequests, Replies, ModsOf, IdAfter, KnownAfter,
      EndingOf, Settled, RunAfter, TableGood;
    ending, m' := Iterate(conn, table, u.available, u.seed, m, l.table, PolledIn(l, u), l.nextId);
    SentIs(l, u, conn.outbox);
  }

  lemma SentIs(l: Loop, u: Turn, after: seq<Sent>)
    requires Answered(l, u)
    requires SentInTurn(l.outbox, TurnRequests(l.conn, u.available), l.nextId, RunIn(l, u), after)
    ensures after == l.outbox + SentIn(l, u)
  {
    hide Answered, TurnRequests, RunIn, Replies, ModsOf;
  }

  /** Any number of turns, until the program ends. */
  method TakeTurns(conn: Connection, table: HashMap, us: seq<Turn>, ghost m: RingMap, ghost l: Loop)
    returns (ending: Ending, ghost m': RingMap)
    requires LoopIs(conn, table, m, l) && l.Running() && AllReady(l, us)
    modifies conn, conn.msgBuffer, table, table.slots, m.Values, Buffers(m)
    ensures LoopIs(conn, table, m', AfterTurns(l, us)) && ending == AfterTurns(l, us).ending
    ensures fresh(m'.Values - m.Values) && fresh(Buffers(m') - Buffers(m))
  {
    hide LoopIs, Ready, AfterTurn;
    ending, m' := Completed, m;
    ghost var now := l;
    var i := 0;
    while i < |us| && ending.Completed?
      invariant i <= |us| && ending == now.ending
      invariant LoopIs(conn, table, m', now) && AllReady(now, us[i..]) && AfterTurns(now, us[i..]) == AfterTurns(l, us)
      invariant fresh(m'.Values - m.Values) && fresh(Buffers(m') - Buffers(m))
    {
      assert us[i..][1..] == us[i + 1..];
      ghost var u := us[i];
      ReadyIsAnswered(now, u);
      ending, m' := TakeTurn(conn, table, us[i], m', now);
      now := AfterTurn(now, u);
      i := i + 1;
    }
  }

  lemma EmptyTable(table: HashMap)
    requires table.Valid() && table.Contents() == map[] && HoleFree(table.slots[..])
    ensures TableIs(table, map[], Table([], map[]))
  {
    KeysCount(table.slots[..]);
  }

  /** main: what is written to the switch is what the run on values writes; the program ends as
      that run ends; and if it reaches its own end, it frees exactly the rings of its table, each
      once. */
  method Execute(arriving: seq<Message>, firstId: uint32, us: seq<Turn>)
    returns (ending: Ending, sent: seq<Sent>, freed: seq<RingBuffer?>, table: HashMap, ghost rings: RingMap)
    requires AllReady(Start(arriving, firstId), us)
    ensures
      var l := AfterTurns(Start(arriving, firstId), us);
      && ending == l.ending && sent == l.outbox
      && (ending.Completed? ==>
        TableIs(table, rings, l.table) && NoDup(freed) && (set r | r in freed) == rings.Values && |freed| == |rings|)
      && (!ending.Completed? ==> freed == [])
  {
    hide AllReady, AfterTurns, TableIs;
    table := new HashMap();
    var conn := new Connection(arriving, firstId);
    EmptyTable(table);
    ending, rings := TakeTurns(conn, table, us, map[], Start(arriving, firstId));
    sent, freed := conn.outbox, [];
    if ending.Completed? {
      ghost var t := AfterTurns(Start(arriving, firstId), us).table;
      freed := Shutdown(table, rings, t);
      RingsInTable(table, rings, t);
    }
  }

  lemma RingsInTable(table: HashMap, m: RingMap, t: GoodTable)
    requires TableIs(table, m, t)
    ensures |m| == |t.keys|
  {
    hide SlotKeys, HoleFree, Size, SlotsOk, RingsOf, Separate;
    KeysAreRings(t);
    assert m.Keys == View(m).Keys == t.rings.Keys;
    assert |m| == |m.Keys|;
  }

  // ---- the echo requests of a whole run ----

  /** The echo replies among the messages written. */
  ghost function EchoReplies(sent: seq<Sent>): seq<Sent> {
    if sent == [] then []
    else EchoReplies(sent[..|sent| - 1]) + if sent[|sent| - 1].EchoReply? then [sent[|sent| - 1]] else []
  }

  lemma {:induction false} EchoRepliesConcat(a: seq<Sent>, b: seq<Sent>)
    ensures EchoReplies(a + b) == EchoReplies(a) + EchoReplies(b)
  {
    if b == [] {
      assert a + b == a;
    } else {
      var n := |b| - 1;
      assert (a + b)[..|a + b| - 1] == a + b[..n];
      EchoRepliesConcat(a, b[..n]);
    }
  }

  lemma {:induction false} OnlyEchoReplies(sent: seq<Sent>)
    requires forall i :: 0 <= i < |sent| ==> sent[i].EchoReply?
    ensures EchoReplies(sent) == sent
  {
    if sent != [] {
      OnlyEchoReplies(sent[..|sent| - 1]);
    }
  }

  lemma {:induction false} NoEchoReplies(sent: seq<Sent>)
    requires forall i :: 0 <= i < |sent| ==> !sent[i].EchoReply?
    ensures EchoReplies(sent) == []
  {
    if sent != [] {
      NoEchoReplies(sent[..|sent| - 1]);
    }
  }

  /** A poll sets aside every echo request it reads. */
  lemma PollKeepsEchoes(ms: seq<Message>, xid: uint32)
    requires LastPart(ms, xid) < |ms|
    ensures Echoes(OthersBefore(ms, xid)) + Echoes(After(ms, xid)) == Echoes(ms)
  {
    hide Echoes, Select, LastPart;
    var read := ms[..LastPart(ms, xid) + 1];
    UnwantedKeepsEchoes(read, OFP_STATS_REPLY, xid);
    EchoesConcat(read, After(ms, xid));
    assert read + After(ms, xid) == ms;
  }

  /** A turn answers the echo requests set aside or arrived, in order, sets aside those it reads
      past, and loses none. */
  lemma TurnKeepsEchoes(l: Loop, u: Turn)
    requires Answered(l, u)
    ensures Accounted(AfterTurn(l, u).conn) == Accounted(l.conn)
    ensures AfterTurn(l, u).conn.answered == l.conn.answered + TurnRequests(l.conn, u.available)
    ensures EchoReplies(SentIn(l, u)) == Replies(TurnRequests(l.conn, u.available))
  {
    hide Echoes, TurnReady, LastPart, OthersBefore, After, RunIn, SentIn, IdAfter, Settled, EndingOf, PolledIn,
      TableGood;
    var ms, xid := Unread(l, u), l.nextId;
    TurnReadyParts(ms, xid);
    assert l.conn.unread == l.conn.unread[..u.available] + ms;
    EchoesConcat(l.conn.unread[..u.available], ms);
    PollKeepsEchoes(ms, xid);
    PollKeepsEchoes(After(ms, xid), Increment32(xid));
    EchoesConcat(OthersBefore(ms, xid), OthersBefore(After(ms, xid), Increment32(xid)));
    TurnReplies(l, u);
  }

  lemma TurnReplies(l: Loop, u: Turn)
    requires Answered(l, u)
    ensures EchoReplies(SentIn(l, u)) == Replies(TurnRequests(l.conn, u.available))
  {
    hide EchoReplies, ModVlan, TurnReady, TurnRequests, RunIn;
    var replies := Replies(TurnRequests(l.conn, u.available));
    var polls := [StatsRequest(l.nextId), StatsRequest(Increment32(l.nextId))];
    EchoRepliesConcat(replies + polls, ModsOf(RunIn(l, u), FirstModId(l)));
    EchoRepliesConcat(replies, polls);
    OnlyEchoReplies(replies);
    NoEchoReplies(polls);
    NoEchoReplies(ModsOf(RunIn(l, u), FirstModId(l)));
  }

  /** Over any turns: the echo requests answered, then those set aside, then those not read yet,
      stay the same sequence, and what is written for them is one reply each, in order. */
  lemma {:induction false} TurnsKeepEchoes(l: Loop, us: seq<Turn>)
    requires AllReady(l, us) && EchoReplies(l.outbox) == Replies(l.conn.answered)
    ensures Accounted(AfterTurns(l, us).conn) == Accounted(l.conn)
    ensures EchoReplies(AfterTurns(l, us).outbox) == Replies(AfterTurns(l, us).conn.answered)
    decreases |us|
  {
    hide Accounted, Ready, EchoReplies, SentIn, TurnConn, TurnRequests, Replies;
    if us != [] && l.Running() {
      var u := us[0];
      ReadyIsAnswered(l, u);
      TurnKeepsEchoes(l, u);
      EchoRepliesConcat(l.outbox, SentIn(l, u));
      RepliesConcat(l.conn.answered, TurnRequests(l.conn, u.available));
      TurnsKeepEchoes(AfterTurn(l, u), us[1..]);
    }
  }

  lemma ReadyIsAnswered(l: Loop, u: Turn)
    requires Ready(l, u)
    ensures Answered(l, u)
  {
  }

  /** Over a whole run of the program no echo request is lost, answered twice or reordered. */
  lemma RunAnswersEchoes(arriving: seq<Message>, firstId: uint32, us: seq<Turn>)
    requires AllReady(Start(arriving, firstId), us)
    ensures
      var l := AfterTurns(Start(arriving, firstId), us);
      && l.conn.answered + Echoes(l.conn.buffered) + Echoes(l.conn.unread) == Echoes(arriving)
      && EchoReplies(l.outbox) == Replies(l.conn.answered)
  {
    hide AllReady, AfterTurns;
    TurnsKeepEchoes(Start(arriving, firstId), us);
    assert Echoes([]) == [];
  }

  // ---- the transaction numbers of a whole run ----

  /** The numbers of the requests and flow-mods among the messages written. */
  ghost function NumbersOf(sent: seq<Sent>): seq<uint32> {
    if sent == [] then [] else NumbersOf(sent[..|sent| - 1]) + NumberOf(sent[|sent| - 1])
  }

  ghost function NumberOf(m: Sent): seq<uint32> {
    match m
    case EchoReply(_, _) => []
    case StatsRequest(xid) => [xid]
    case FlowModSent(xid, _) => [xid]
  }

  lemma {:induction false} NumbersConcat(a: seq<Sent>, b: seq<Sent>)
    ensures NumbersOf(a + b) == NumbersOf(a) + NumbersOf(b)
  {
    if b == [] {
      assert a + b == a;
    } else {
      var n := |b| - 1;
      assert (a + b)[..|a + b| - 1] == a + b[..n];
      NumbersConcat(a, b[..n]);
    }
  }

  lemma {:induction false} RepliesUnnumbered(requests: seq<Message>)
    ensures NumbersOf(Replies(requests)) == []
  {
    if requests != [] {
      var n := |requests| - 1;
      RepliesUnnumbered(requests[..n]);
      assert Replies(requests)[..n] == Replies(requests[..n]);
    }
  }

  /** Numbers that count up from `first`, modulo 2^32. */
  ghost predicate CountUp(numbers: seq<uint32>, first: uint32) {
    forall j :: 0 <= j < |numbers| ==> numbers[j] == (first + j) % 0x1_0000_0000
  }

  lemma {:induction false} ModsCountUp(run: seq<Migration>, xid: uint32)
    ensures CountUp(NumbersOf(ModsOf(run, xid)), xid) && |NumbersOf(ModsOf(run, xid))| == |run|
  {
    hide ModVlan;
    if run != [] {
      var n := |run| - 1;
      ModsCountUp(run[..n], xid);
      assert ModsOf(run, xid)[..n] == ModsOf(run[..n], xid);
    }
  }

  lemma CountOn(a: seq<uint32>, b: seq<uint32>, first: uint32, next: uint32)
    requires CountUp(a, first) && next == IdAfter(first, |a|) && CountUp(b, next)
    ensures CountUp(a + b, first) && IdAfter(first, |a + b|) == IdAfter(next, |b|)
  {
    forall j | 0 <= j < |a + b|
      ensures (a + b)[j] == (first + j) % 0x1_0000_0000
    {
      if j >= |a| {
        SumModulo(first + |a|, j - |a|);
      }
    }
    SumModulo(first + |a|, |b|);
  }

  lemma SumModulo(x: nat, y: nat)
    ensures (x % 0x1_0000_0000 + y) % 0x1_0000_0000 == (x + y) % 0x1_0000_0000
  {
  }

  lemma TurnCountsUp(l: Loop, u: Turn)
    requires Answered(l, u)
    ensures CountUp(NumbersOf(SentIn(l, u)), l.nextId)
    ensures AfterTurn(l, u).nextId == IdAfter(l.nextId, |NumbersOf(SentIn(l, u))|)
  {
    hide TurnReady, TurnRequests, RunIn, CountUp, Replies, ModsOf, NumbersOf, TurnConn, Settled, EndingOf, PolledIn,
      TableGood, Increment32, IdAfter;
    var replies, run, first := Replies(TurnRequests(l.conn, u.available)), RunIn(l, u), FirstModId(l);
    var polls := [StatsRequest(l.nextId), StatsRequest(Increment32(l.nextId))];
    NumbersConcat(replies + polls, ModsOf(run, first));
    NumbersConcat(replies, polls);
    RepliesUnnumbered(TurnRequests(l.conn, u.available));
    PollNumbers(l.nextId);
    ModsCountUp(run, first);
    CountOn(NumbersOf(polls), NumbersOf(ModsOf(run, first)), l.nextId, first);
    assert [] + NumbersOf(polls) == NumbersOf(polls);
  }

  lemma PollNumbers(xid: uint32)
    ensures
      var numbers := NumbersOf([StatsRequest(xid), StatsRequest(Increment32(xid))]);
      && numbers == [xid, Increment32(xid)] && CountUp(numbers, xid)
      && Increment32(Increment32(xid)) == IdAfter(xid, 2)
  {
    var polls := [StatsRequest(xid), StatsRequest(Increment32(xid))];
    assert polls[..1] == [StatsRequest(xid)] && polls[..1][..0] == [];
    assert NumbersOf(polls[..1]) == [] + [xid];
  }

  lemma {:induction false} TurnsCountUp(l: Loop, us: seq<Turn>, first: uint32)
    requires AllReady(l, us) && CountUp(NumbersOf(l.outbox), first)
    requires l.nextId == IdAfter(first, |NumbersOf(l.outbox)|)
    ensures CountUp(NumbersOf(AfterTurns(l, us).outbox), first)
    decreases |us|
  {
    hide Ready, CountUp, SentIn, TurnConn, NumbersOf, IdAfter, Settled, EndingOf, Answered, RunIn, PolledIn, TableGood;
    if us != [] && l.Running() {
      ReadyIsAnswered(l, us[0]);
      TurnCountsUp(l, us[0]);
      NumbersConcat(l.outbox, SentIn(l, us[0]));
      CountOn(NumbersOf(l.outbox), NumbersOf(SentIn(l, us[0])), first, l.nextId);
      TurnsCountUp(AfterTurn(l, us[0]), us[1..], first);
    }
  }

  /** Over a whole run of the program, request or flow-mod number j, counted from 0, carries the
      first transaction number plus j, modulo 2^32; so numbers less than 2^32 apart differ, and
      in particular those of the two polls of a turn. */
  lemma RunCountsUp(arriving: seq<Message>, firstId: uint32, us: seq<Turn>)
    requires AllReady(Start(arriving, firstId), us)
    ensures
      var numbers := NumbersOf(AfterTurns(Start(arriving, firstId), us).outbox);
      && (forall j :: 0 <= j < |numbers| ==> numbers[j] == (firstId + j) % 0x1_0000_0000)
      && (forall i, j :: 0 <= i < j < |numbers| && j - i < 0x1_0000_0000 ==> numbers[i] != numbers[j])
  {
    hide AllReady, AfterTurns;
    FirstId(firstId);
    TurnsCountUp(Start(arriving, firstId), us, firstId);
    var numbers := NumbersOf(AfterTurns(Start(arriving, firstId), us).outbox);
    forall i, j | 0 <= i < j < |numbers| && j - i < 0x1_0000_0000
      ensures numbers[i] != numbers[j]
    {
      NumbersDiffer(firstId + i, firstId + j);
    }
  }

  lemma NumbersDiffer(x: nat, y: nat)
    requires x < y && y - x < 0x1_0000_0000
    ensures x % 0x1_0000_0000 != y % 0x1_0000_0000
  {
  }

  // ---- from the rules of the switch to the polled counters ----

  /** A rule of the switch as it stands, the way a statistics reply describes it. */
  ghost predicate IsRule(sw: Switch, e: Entry) {
    var k := KeyOf(e.fields);
    k in sw && e.fields == InstalledMatch(k, 1) && e.packets == sw[k].packets && e.actions == sw[k].actions
  }

  ghost predicate AreRules(sw: Switch, entries: seq<WireEntry>) {
    forall i :: 0 <= i < |entries| ==> IsRule(sw, entries[i])
  }

  lemma RulesAreReported(sw: Switch, entries: seq<WireEntry>)
    requires AreRules(sw, entries)
    ensures Systems.Reports(sw, PolledEntries(entries))
    ensures forall k ::
      k in KeysOf(PolledEntries(entries)) <==> exists i :: 0 <= i < |entries| && KeyOf(entries[i].fields) == k
  {
    hide EncodeActions;
    var ps := PolledEntries(entries);
    forall i | 0 <= i < |entries|
      ensures ps[i].key == KeyOf(entries[i].fields) && ps[i].key in sw && ps[i].packets == sw[ps[i].key].packets
    {
      assert IsRule(sw, entries[i]);
    }
    forall k
      ensures k in KeysOf(ps) <==> exists i :: 0 <= i < |entries| && KeyOf(entries[i].fields) == k
    {
      if k in KeysOf(ps) {
        var p :| p in ps && p.key == k;
        var i :| 0 <= i < |ps| && ps[i] == p;
        assert KeyOf(entries[i].fields) == k;
      }
      if i :| 0 <= i < |entries| && KeyOf(entries[i].fields) == k {
        assert ps[i] in ps;
      }
    }
  }

  /** From bytes to rules: when a reply, in any number of parts and among any other messages,
      describes rules of the switch, the poll learns the present counter of each of them under
      its own five-tuple, and of no other flow. */
  lemma RuleIsPolled(sw: Switch, ms: seq<Message>, xid: uint32, parts: seq<seq<WireEntry>>)
    requires Answers(ms, xid, parts) && AreRules(sw, Flatten(parts))
    ensures RepliesOk(Bodies(RepliesTo(ms, xid)))
    ensures
      var ps, entries := PolledParsed(FlowsOf(ms, xid)), Flatten(parts);
      && Systems.Reports(sw, ps)
      && forall k :: k in KeysOf(ps) <==> exists i :: 0 <= i < |entries| && KeyOf(entries[i].fields) == k
  {
    hide EncodeParts, Flatten, AreRules, KeyOf, KeysOf, PolledEntries, PolledParsed, RecoveredEntries, Systems.Reports,
      LastPart, Select;
    PartsAreRead(Bodies(RepliesTo(ms, xid)), parts);
    RecoveredArePolled(Flatten(parts));
    RulesAreReported(sw, Flatten(parts));
  }

  // ---- the program and the switch together ----

  /** The program, a switch that has received the first `delivered` flow-mods, and the counter
      values polled so far. */
  datatype World = World(loop: Loop, sw: Switch, delivered: nat, history: map<FiveTuple, seq<uint64>>)

  /** A turn takes place when the switch answers its second poll. `first` and `second` are the
      entries of the two answers, by parts. */
  datatype Happening =
    | Installed(key: FiveTuple, maxLen: uint16)
    | Counted(key: FiveTuple, n: uint64)
    | Received
    | Turned(turn: Turn, first: seq<seq<WireEntry>>, second: seq<seq<WireEntry>>)

  /** The flow-mods among the messages written. */
  ghost function FlowMods(sent: seq<Sent>): seq<FlowMod> {
    if sent == [] then []
    else FlowMods(sent[..|sent| - 1]) + match sent[|sent| - 1] case FlowModSent(_, mod) => [mod] case _ => []
  }

  /** The stream brings answers to both polls, which fit; the second describes the rules of the
      switch as they are. */
  ghost predicate TurnPossible(w: World, u: Turn, first: seq<seq<WireEntry>>, second: seq<seq<WireEntry>>) {
    && w.loop.Running() && u.available <= |w.loop.conn.unread| && u.seed !in w.sw
    && var ms, xid := Unread(w.loop, u), w.loop.nextId;
       && Answers(ms, xid, first) && Answers(After(ms, xid), Increment32(xid), second)
       && Roomy(ms, xid, first, second) && AreRules(w.sw, Flatten(second))
  }

  lemma PossibleTurn(w: World, u: Turn, first: seq<seq<WireEntry>>, second: seq<seq<WireEntry>>)
    requires TurnPossible(w, u, first, second)
    ensures Answered(w.loop, u) && Systems.Reports(w.sw, PolledIn(w.loop, u))
  {
    hide Answers, Roomy, AreRules, TurnReady, TurnPolled, Systems.Reports;
    AnswersPart(Unread(w.loop, u), w.loop.nextId, first);
    AnsweredTurnIsReady(Unread(w.loop, u), w.loop.nextId, first, second);
    RulesAreReported(w.sw, Flatten(second));
  }

  lemma AnswersPart(ms: seq<Message>, xid: uint32, parts: seq<seq<WireEntry>>)
    requires Answers(ms, xid, parts)
    ensures LastPart(ms, xid) < |ms|
  {
    hide EncodeParts, LastPart;
  }

  ghost predicate Possible(w: World, h: Happening) {
    match h
    case Installed(key, _) => key !in w.sw
    case Counted(key, n) => key in w.sw && Systems.TotalPackets(w.sw) + n < TWO_64
    case Received => w.delivered < |FlowMods(w.loop.outbox)|
    case Turned(u, first, second) => TurnPossible(w, u, first, second)
  }

  ghost function Afterwards(w: World, h: Happening): World
    requires Possible(w, h)
  {
    match h
    case Installed(key, maxLen) => w.(sw := WithRule(w.sw, key, maxLen))
    case Counted(key, n) => w.(sw := WithPackets(w.sw, key, n))
    case Received =>
      var mod := FlowMods(w.loop.outbox)[w.delivered];
      w.(sw := Modify(w.sw, KeyOf(mod.fields), mod), delivered := w.delivered + 1)
    case Turned(u, first, second) =>
      PossibleTurn(w, u, first, second);
      w.(loop := AfterTurn(w.loop, u),
        history := Systems.HistoryAfter(w.history, w.loop.table, PolledIn(w.loop, u)))
  }

  ghost predicate AllPossible(w: World, hs: seq<Happening>)
    decreases |hs|
  {
    hs == [] || (Possible(w, hs[0]) && AllPossible(Afterwards(w, hs[0]), hs[1..]))
  }

  ghost function AfterAll(w: World, hs: seq<Happening>): World
    requires AllPossible(w, hs)
    decreases |hs|
  {
    if hs == [] then w else AfterAll(Afterwards(w, hs[0]), hs[1..])
  }

  /** The turns the program takes in a history. */
  ghost function TurnsOf(hs: seq<Happening>): seq<Turn> {
    if hs == [] then [] else (if hs[0].Turned? then [hs[0].turn] else []) + TurnsOf(hs[1..])
  }

  /** The flow-mods openflow_mod_vlan makes of migrations. */
  ghost function ModVlans(ms: seq<Migration>): (mods: seq<FlowMod>)
    ensures |mods| == |ms|
  {
    seq(|ms|, i requires 0 <= i < |ms| => ModVlan(ms[i].key, ms[i].core % TWO_16))
  }

  /** The world as a state of the system: the flow-mods not received yet are the migrations on
      their way. */
  ghost predicate Shows(w: World, s: Systems.System) {
    && s.sw == w.sw && s.table == w.loop.table && s.history == w.history && s.ending == w.loop.ending
    && w.delivered <= |FlowMods(w.loop.outbox)|
    && FlowMods(w.loop.outbox)[w.delivered..] == ModVlans(s.inFlight)
  }

  ghost function EventOf(w: World, h: Happening): Systems.Event
    requires Possible(w, h)
  {
    match h
    case Installed(key, maxLen) => Systems.Install(key, maxLen)
    case Counted(key, n) => Systems.CountPackets(key, n)
    case Received => Systems.Deliver
    case Turned(u, first, second) =>
      PossibleTurn(w, u, first, second);
      Systems.Iterate(PolledIn(w.loop, u))
  }

  ghost function EventsOf(w: World, hs: seq<Happening>): seq<Systems.Event>
    requires AllPossible(w, hs)
    decreases |hs|
  {
    if hs == [] then [] else [EventOf(w, hs[0])] + EventsOf(Afterwards(w, hs[0]), hs[1..])
  }

  lemma {:induction false} FlowModsConcat(a: seq<Sent>, b: seq<Sent>)
    ensures FlowMods(a + b) == FlowMods(a) + FlowMods(b)
  {
    if b == [] {
      assert a + b == a;
    } else {
      var n := |b| - 1;
      assert (a + b)[..|a + b| - 1] == a + b[..n];
      FlowModsConcat(a, b[..n]);
    }
  }

  lemma {:induction false} NoFlowMods(sent: seq<Sent>)
    requires forall i :: 0 <= i < |sent| ==> !sent[i].FlowModSent?
    ensures FlowMods(sent) == []
  {
    if sent != [] {
      NoFlowMods(sent[..|sent| - 1]);
    }
  }

  lemma {:induction false} ModsAreFlowMods(run: seq<Migration>, xid: uint32)
    ensures FlowMods(ModsOf(run, xid)) == ModVlans(run)
  {
    hide ModVlan;
    if run != [] {
      var n := |run| - 1;
      ModsAreFlowMods(run[..n], xid);
      assert ModsOf(run, xid)[..n] == ModsOf(run[..n], xid);
    }
  }

  /** The flow-mods of a turn are those of its migrations, in order, after all earlier ones. */
  lemma TurnFlowMods(l: Loop, u: Turn)
    requires Answered(l, u)
    ensures FlowMods(AfterTurn(l, u).outbox) == FlowMods(l.outbox) + ModVlans(RunIn(l, u))
  {
    hide FlowMods, TurnReady, PolledIn, RunIn, ModVlan, ModVlans, TurnRequests, TurnConn, IdAfter, Settled, EndingOf,
      TableGood;
    var replies := Replies(TurnRequests(l.conn, u.available));
    var polls := [StatsRequest(l.nextId), StatsRequest(Increment32(l.nextId))];
    FlowModsConcat(l.outbox, SentIn(l, u));
    FlowModsConcat(replies + polls, ModsOf(RunIn(l, u), FirstModId(l)));
    FlowModsConcat(replies, polls);
    NoFlowMods(replies);
    NoFlowMods(polls);
    ModsAreFlowMods(RunIn(l, u), FirstModId(l));
  }

  lemma ReceiveIsDeliver(w: World, s: Systems.System)
    requires Shows(w, s) && Possible(w, Received)
    ensures Systems.Enabled(s, Systems.Deliver)
    ensures Shows(Afterwards(w, Received), Systems.Step(s, Systems.Deliver))
  {
    hide FlowMods, Modify, TableGood;
    var mods, m := FlowMods(w.loop.outbox), s.inFlight[0];
    assert mods[w.delivered] == mods[w.delivered..][0] == ModVlan(m.key, m.core % TWO_16);
    assert KeyOf(FlowMatch(m.key)) == m.key;
    assert mods[w.delivered + 1..] == mods[w.delivered..][1..];
    assert ModVlans(s.inFlight)[1..] == ModVlans(s.inFlight[1..]);
  }

  lemma TurnIsIterate(w: World, s: Systems.System, u: Turn, first: seq<seq<WireEntry>>, second: seq<seq<WireEntry>>)
    requires Shows(w, s) && Possible(w, Turned(u, first, second))
    ensures Systems.Enabled(s, EventOf(w, Turned(u, first, second)))
    ensures Shows(Afterwards(w, Turned(u, first, second)), Systems.Step(s, EventOf(w, Turned(u, first, second))))
  {
    hide FlowMods, TurnReady, PolledIn, ModVlan, Settled, RunAfter, EndingOf, TableGood, Systems.HistoryAfter,
      Answers, Roomy, AreRules, TurnConn, IdAfter, SentIn, Systems.Reports;
    PossibleTurn(w, u, first, second);
    TurnFlowMods(w.loop, u);
    var run := RunIn(w.loop, u);
    assert ModVlans(s.inFlight + run) == ModVlans(s.inFlight) + ModVlans(run);
    var mods := FlowMods(w.loop.outbox);
    assert (mods + ModVlans(run))[w.delivered..] == mods[w.delivered..] + ModVlans(run);
  }

  /** Every happening is an event of the system. */
  lemma HappeningIsEvent(w: World, s: Systems.System, h: Happening)
    requires Shows(w, s) && Possible(w, h)
    ensures Systems.Enabled(s, EventOf(w, h))
    ensures Shows(Afterwards(w, h), Systems.Step(s, EventOf(w, h)))
  {
    hide FlowMods, ModVlans, AfterTurn, TurnPossible, TableGood, Systems.TotalPackets;
    match h
    case Installed(_, _) =>
    case Counted(_, _) =>
    case Received => ReceiveIsDeliver(w, s);
    case Turned(u, first, second) => TurnIsIterate(w, s, u, first, second);
  }

  /** Every history of the program and the switch is a run of the system. */
  lemma {:induction false} WorldRefinesSystem(w: World, s: Systems.System, hs: seq<Happening>)
    requires Shows(w, s) && AllPossible(w, hs)
    ensures Systems.AllEnabled(s, EventsOf(w, hs))
    ensures Shows(AfterAll(w, hs), Systems.Steps(s, EventsOf(w, hs)))
    decreases |hs|
  {
    hide Shows, Possible, Afterwards, EventOf, Systems.Enabled, Systems.Step;
    if hs != [] {
      var w', e := Afterwards(w, hs[0]), EventOf(w, hs[0]);
      HappeningIsEvent(w, s, hs[0]);
      WorldRefinesSystem(w', Systems.Step(s, e), hs[1..]);
      assert ([e] + EventsOf(w', hs[1..]))[1..] == EventsOf(w', hs[1..]);
    }
  }

  /** A turn that is possible in a reachable world is ready for the program. */
  lemma PossibleIsReady(w: World, s: Systems.System, u: Turn, first: seq<seq<WireEntry>>, second: seq<seq<WireEntry>>)
    requires Shows(w, s) && Systems.Inv(s) && Possible(w, Turned(u, first, second))
    ensures Ready(w.loop, u)
  {
    hide Answers, Roomy, AreRules, TurnReady, PolledIn, Systems.TagsFollowCores, Systems.RingsFollow,
      Systems.CountersFollow, Systems.TotalPackets, TableGood, Addressed, FlowMods, ModVlans, Systems.Reports;
    PossibleTurn(w, u, first, second);
    Systems.ReportedKeys(w.sw, PolledIn(w.loop, u));
  }

  /** The program takes no notice of what happens between its turns: its part in a history is
      the run of the turns alone, which is the one Execute carries out. */
  lemma {:induction false} WorldRunsProgram(w: World, s: Systems.System, hs: seq<Happening>)
    requires Shows(w, s) && Systems.Inv(s) && AllPossible(w, hs)
    ensures AllReady(w.loop, TurnsOf(hs))
    ensures AfterAll(w, hs).loop == AfterTurns(w.loop, TurnsOf(hs))
    decreases |hs|
  {
    hide Shows, Systems.Inv, Systems.Enabled, Systems.Step, EventOf, Ready, AfterTurn, TurnPossible, FlowMods, Modify;
    if hs != [] {
      var w', e := Afterwards(w, hs[0]), EventOf(w, hs[0]);
      HappeningIsEvent(w, s, hs[0]);
      Systems.StepKeepsInv(s, e);
      WorldRunsProgram(w', Systems.Step(s, e), hs[1..]);
      if hs[0].Turned? {
        var u, first, second := hs[0].turn, hs[0].first, hs[0].second;
        PossibleIsReady(w, s, u, first, second);
        TurnFirst(w, u, first, second, TurnsOf(hs[1..]));
      } else {
        assert [] + TurnsOf(hs[1..]) == TurnsOf(hs[1..]);
      }
    }
  }

  lemma TurnFirst(w: World, u: Turn, first: seq<seq<WireEntry>>, second: seq<seq<WireEntry>>, rest: seq<Turn>)
    requires Possible(w, Turned(u, first, second)) && Ready(w.loop, u)
    requires AllReady(Afterwards(w, Turned(u, first, second)).loop, rest)
    ensures AllReady(w.loop, [u] + rest)
    ensures AfterTurns(w.loop, [u] + rest) == AfterTurns(Afterwards(w, Turned(u, first, second)).loop, rest)
  {
    hide AfterTurn, Answers, Roomy, AreRules, TurnReady, FlowMods, Systems.HistoryAfter;
    assert ([u] + rest)[1..] == rest;
  }

  /** A world before anything has happened. */
  ghost predicate Fresh(w: World, arriving: seq<Message>, firstId: uint32) {
    && w == World(Start(arriving, firstId), w.sw, 0, map[])
    && Systems.TotalPackets(w.sw) < TWO_64 && forall k :: k in w.sw ==> Steers(w.sw[k].actions, 0)
  }

  ghost function InitialSystem(sw: Switch): Systems.System {
    Systems.System(sw, [], Table([], map[]), map[], Completed)
  }

  lemma FreshShows(w: World, arriving: seq<Message>, firstId: uint32)
    requires Fresh(w, arriving, firstId)
    ensures Shows(w, InitialSystem(w.sw)) && Systems.Initial(InitialSystem(w.sw)) && Systems.Inv(InitialSystem(w.sw))
  {
    hide Systems.TotalPackets, Systems.Inv;
    assert FlowMods([]) == [];
    Systems.InitialInv(InitialSystem(w.sw));
  }

  /** Whatever messages arrive, however turns interleave with flows being installed, packets
      being counted and flow-mods being received: the program writes what Execute writes for
      the turns taken, and whenever the switch has received all of it, every packet of every flow
      leaves the switch once, to the host, with the core the program assigns the flow to as VLAN. */
  lemma ProgramTagsAreCores(w: World, arriving: seq<Message>, firstId: uint32, hs: seq<Happening>, k: FiveTuple)
    requires Fresh(w, arriving, firstId) && AllPossible(w, hs)
    ensures AllReady(Start(arriving, firstId), TurnsOf(hs))
    ensures
      var l, w' := AfterTurns(Start(arriving, firstId), TurnsOf(hs)), AfterAll(w, hs);
      && w'.loop == l
      && (w'.delivered == |FlowMods(l.outbox)| && k in w'.sw ==> (
        CoreOf(l.table, k) < NB_CORES
        && forall arrival: uint16 :: Forward(w'.sw[k].actions, arrival) == [Outgoing(2, CoreOf(l.table, k))]))
  {
    hide AllPossible, AfterAll, EventsOf, Systems.AllEnabled, Systems.Steps, Forward, AllReady, AfterTurns, TurnsOf,
      Systems.Initial, Systems.Inv, InitialSystem, CoreOf, TableGood;
    var s := InitialSystem(w.sw);
    FreshShows(w, arriving, firstId);
    WorldRunsProgram(w, s, hs);
    WorldRefinesSystem(w, s, hs);
    var w' := AfterAll(w, hs);
    if w'.delivered == |FlowMods(w'.loop.outbox)| && k in w'.sw {
      assert Systems.Steps(s, EventsOf(w, hs)).inFlight == [];
      Systems.TagsAreCores(s, EventsOf(w, hs), k);
    }
  }

  /** As long as the switch has fewer flows than the table has slots, the program neither exits
      nor gets lost. */
  lemma ProgramNeverEnds(w: World, arriving: seq<Message>, firstId: uint32, hs: seq<Happening>)
    requires Fresh(w, arriving, firstId) && AllPossible(w, hs)
    ensures AllReady(Start(arriving, firstId), TurnsOf(hs))
    ensures |AfterAll(w, hs).sw| < HASHMAP_SIZE
      ==> AfterTurns(Start(arriving, firstId), TurnsOf(hs)).ending.Completed?
  {
    hide AllPossible, AfterAll, EventsOf, Systems.AllEnabled, Systems.Steps, Forward, AllReady, AfterTurns, TurnsOf,
      Systems.Initial, Systems.Inv, InitialSystem, TableGood, FlowMods, ModVlans;
    var s := InitialSystem(w.sw);
    FreshShows(w, arriving, firstId);
    WorldRunsProgram(w, s, hs);
    WorldRefinesSystem(w, s, hs);
    Systems.NeverEnds(s, EventsOf(w, hs));
  }
}
