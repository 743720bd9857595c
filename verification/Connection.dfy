/** The message layer of src/openflow.c over an unbounded stream of whole messages: waiting
    for one kind of message while buffering the others, collecting a multipart reply, and
    answering echo requests (OpenFlow Switch Specification 1.0.0, sections 5.1, 5.3.5, 5.5). */
module Connections {
  import opened Env
  import opened Wire
  import opened Switches

  const OFP_ECHO_REQUEST := 0x02
  const OFP_STATS_REPLY := 0x11

  const HEADER_SIZE := 8

  /** The 16-bit length in a message header counts the header and what follows it. */
  type Payload = b: Bytes | HEADER_SIZE + |b| < TWO_16 witness []

  datatype Message = Message(mtype: uint8, xid: uint32, data: Payload)

  datatype Sent =
    | EchoReply(xid: uint32, data: Payload)
    | StatsRequest(xid: uint32)
    | FlowModSent(xid: uint32, mod: FlowMod)

  /** Transaction numbers wrap around. */
  function Increment32(xid: uint32): (r: uint32)
    ensures r == (xid + 1) % 0x1_0000_0000
  {
    if xid + 1 == TWO_32 then 0 else xid + 1
  }

  /** A message as the waiting loop tests it: 0 stands for any transaction. */
  predicate Wanted(m: Message, mtype: uint8, xid: uint32) {
    m.mtype == mtype && (xid == 0 || m.xid == xid)
  }

  /** The echo requests of a stream, in order. */
  ghost function Echoes(ms: seq<Message>): seq<Message> {
    if ms == [] then []
    else Echoes(ms[..|ms| - 1]) + if ms[|ms| - 1].mtype == OFP_ECHO_REQUEST then [ms[|ms| - 1]] else []
  }

  /** The wanted, or the unwanted, messages of a stream, in order. */
  ghost function Select(ms: seq<Message>, mtype: uint8, xid: uint32, wanted: bool): seq<Message> {
    if ms == [] then []
    else
      Select(ms[..|ms| - 1], mtype, xid, wanted)
      + if Wanted(ms[|ms| - 1], mtype, xid) == wanted then [ms[|ms| - 1]] else []
  }

  lemma {:induction false} EchoesConcat(a: seq<Message>, b: seq<Message>)
    ensures Echoes(a + b) == Echoes(a) + Echoes(b)
  {
    if b == [] {
      assert a + b == a;
    } else {
      var n := |b| - 1;
      assert (a + b)[..|a + b| - 1] == a + b[..n];
      EchoesConcat(a, b[..n]);
    }
  }

  lemma {:induction false} SelectConcat(a: seq<Message>, b: seq<Message>, mtype: uint8, xid: uint32, wanted: bool)
    ensures Select(a + b, mtype, xid, wanted) == Select(a, mtype, xid, wanted) + Select(b, mtype, xid, wanted)
  {
    if b == [] {
      assert a + b == a;
    } else {
      var n := |b| - 1;
      assert (a + b)[..|a + b| - 1] == a + b[..n];
      SelectConcat(a, b[..n], mtype, xid, wanted);
    }
  }

  /** Only messages of other types are set aside, so no echo request is consumed. */
  lemma {:induction false} UnwantedKeepsEchoes(ms: seq<Message>, mtype: uint8, xid: uint32)
    requires mtype != OFP_ECHO_REQUEST
    ensures Echoes(Select(ms, mtype, xid, false)) == Echoes(ms)
  {
    if ms != [] {
      var init, last := ms[..|ms| - 1], ms[|ms| - 1];
      UnwantedKeepsEchoes(init, mtype, xid);
      assert Select(init, mtype, xid, false) + [] == Select(init, mtype, xid, false);
      EchoesConcat(Select(init, mtype, xid, false), [last]);
      assert Echoes([last]) == Echoes([]) + if last.mtype == OFP_ECHO_REQUEST then [last] else [];
    }
  }

  /** The position of the first wanted message, or the length of the stream. */
  ghost function First(ms: seq<Message>, mtype: uint8, xid: uint32): (k: nat)
    ensures k <= |ms|
    ensures forall j :: 0 <= j < k ==> !Wanted(ms[j], mtype, xid)
    ensures k < |ms| ==> Wanted(ms[k], mtype, xid)
  {
    if ms == [] || Wanted(ms[0], mtype, xid) then 0 else 1 + First(ms[1..], mtype, xid)
  }

  lemma {:induction false} SelectUnwanted(ms: seq<Message>, mtype: uint8, xid: uint32)
    requires forall j :: 0 <= j < |ms| ==> !Wanted(ms[j], mtype, xid)
    ensures Select(ms, mtype, xid, false) == ms && Select(ms, mtype, xid, true) == []
  {
    if ms != [] {
      SelectUnwanted(ms[..|ms| - 1], mtype, xid);
    }
  }

  // ---- the protocol as a state machine ----

  /** Echo requests answered so far, messages set aside, and messages not read yet. */
  datatype Conn = Conn(answered: seq<Message>, buffered: seq<Message>, unread: seq<Message>)

  datatype Event = Arrive(ms: seq<Message>) | Wait(mtype: uint8, xid: uint32) | Drain(n: nat)

  /** A wait ends if the wanted message comes; it stays within the buffer; it never asks for
      echo requests, which nothing in the program does. A drain reads `n` messages. */
  ghost predicate Enabled(c: Conn, e: Event) {
    match e
    case Arrive(_) => true
    case Wait(mtype, xid) =>
      var k := First(c.unread, mtype, xid);
      k < |c.unread| && |c.buffered| + k <= MSG_BUFFER_SIZE && mtype != OFP_ECHO_REQUEST
    case Drain(n) => n <= |c.unread|
  }

  ghost function Step(c: Conn, e: Event): Conn
    requires Enabled(c, e)
  {
    match e
    case Arrive(ms) => c.(unread := c.unread + ms)
    case Wait(mtype, xid) =>
      var k := First(c.unread, mtype, xid);
      Conn(c.answered, c.buffered + c.unread[..k], c.unread[k + 1..])
    case Drain(n) =>
      Conn(c.answered + Echoes(c.buffered) + Echoes(c.unread[..n]), [], c.unread[n..])
  }

  ghost predicate AllEnabled(c: Conn, es: seq<Event>)
    decreases |es|
  {
    es == [] || (Enabled(c, es[0]) && AllEnabled(Step(c, es[0]), es[1..]))
  }

  ghost function Steps(c: Conn, es: seq<Event>): Conn
    requires AllEnabled(c, es)
    decreases |es|
  {
    if es == [] then c else Steps(Step(c, es[0]), es[1..])
  }

  ghost function Arrivals(es: seq<Event>): seq<Message> {
    if es == [] then [] else (if es[0].Arrive? then es[0].ms else []) + Arrivals(es[1..])
  }

  /** All echo requests of a connection: answered, then set aside, then unread. */
  ghost function Accounted(c: Conn): seq<Message> {
    c.answered + Echoes(c.buffered) + Echoes(c.unread)
  }

  lemma NotAnEcho(m: Message, rest: seq<Message>)
    requires m.mtype != OFP_ECHO_REQUEST
    ensures Echoes([m] + rest) == Echoes(rest)
  {
    EchoesConcat([m], rest);
    assert Echoes([m]) == Echoes([]) + [];
  }

  lemma WaitAccounts(c: Conn, k: nat)
    requires k < |c.unread| && c.unread[k].mtype != OFP_ECHO_REQUEST
    ensures Accounted(Conn(c.answered, c.buffered + c.unread[..k], c.unread[k + 1..])) == Accounted(c)
  {
    hide Echoes;
    var skipped, wanted, rest := c.unread[..k], c.unread[k], c.unread[k + 1..];
    assert c.unread == skipped + ([wanted] + rest);
    EchoesConcat(c.buffered, skipped);
    EchoesConcat(skipped, [wanted] + rest);
    NotAnEcho(wanted, rest);
  }

  lemma DrainAccounts(c: Conn, n: nat)
    requires n <= |c.unread|
    ensures
      Accounted(Conn(c.answered + Echoes(c.buffered) + Echoes(c.unread[..n]), [], c.unread[n..])) == Accounted(c)
  {
    hide Echoes;
    assert c.unread == c.unread[..n] + c.unread[n..];
    EchoesConcat(c.unread[..n], c.unread[n..]);
    NoEchoes(c);
  }

  lemma ArriveAccounts(c: Conn, ms: seq<Message>)
    ensures Accounted(c.(unread := c.unread + ms)) == Accounted(c) + Echoes(ms)
  {
    hide Echoes;
    EchoesConcat(c.unread, ms);
  }

  lemma StepAccounts(c: Conn, e: Event)
    requires Enabled(c, e)
    ensures Accounted(Step(c, e)) == Accounted(c) + if e.Arrive? then Echoes(e.ms) else []
  {
    hide Accounted, Echoes;
    NoEchoes(c);
    match e
    case Arrive(ms) =>
      ArriveAccounts(c, ms);
    case Wait(mtype, xid) =>
      WaitAccounts(c, First(c.unread, mtype, xid));
    case Drain(n) =>
      DrainAccounts(c, n);
  }

  /** Over any interleaving of arrivals, waits and drains, no echo request is lost, answered
      twice or reordered. */
  lemma {:induction false} EchoesConserved(c: Conn, es: seq<Event>)
    requires AllEnabled(c, es)
    ensures Accounted(Steps(c, es)) == Accounted(c) + Echoes(Arrivals(es))
    decreases |es|
  {
    hide Accounted, Step, Enabled, Echoes;
    if es == [] {
      NoEchoes(c);
    } else {
      var arrived := if es[0].Arrive? then es[0].ms else [];
      StepAccounts(c, es[0]);
      EchoesConserved(Step(c, es[0]), es[1..]);
      EchoesConcat(arrived, Arrivals(es[1..]));
      NoEchoes(c);
    }
  }

  lemma NoEchoes(c: Conn)
    ensures Echoes([]) == [] && Accounted(c) + [] == Accounted(c)
  {
  }

  // ---- multipart replies ----

  /** The OFPSF_REPLY_MORE bit of a stats reply. */
  predicate More(m: Message) {
    |m.data| >= REPLY_HEADER_SIZE && Swap16(Raw16(m.data, 2)) % 2 == 1
  }

  /** The position of the last part of the reply to `xid`, or the length of the stream. */
  ghost function LastPart(ms: seq<Message>, xid: uint32): (e: nat)
    ensures e <= |ms|
    ensures e < |ms| ==> Wanted(ms[e], OFP_STATS_REPLY, xid) && !More(ms[e])
    ensures forall j :: 0 <= j < e && Wanted(ms[j], OFP_STATS_REPLY, xid) ==> More(ms[j])
  {
    if ms == [] || (Wanted(ms[0], OFP_STATS_REPLY, xid) && !More(ms[0])) then 0
    else 1 + LastPart(ms[1..], xid)
  }

  /** Where a collection stands, after reading `n` messages of the stream `ms`. */
  ghost predicate Collected(ms: seq<Message>, xid: uint32, before: seq<Message>, n: nat,
                            replies: seq<Message>, buffered: seq<Message>, unread: seq<Message>)
  {
    && n <= |ms| && unread == ms[n..]
    && replies == Select(ms[..n], OFP_STATS_REPLY, xid, true)
    && buffered == before + Select(ms[..n], OFP_STATS_REPLY, xid, false)
  }

  /** One wait within a collection. */
  lemma CollectWait(ms: seq<Message>, xid: uint32, before: seq<Message>, n: nat,
                    replies: seq<Message>, buffered: seq<Message>, unread: seq<Message>)
    requires Collected(ms, xid, before, n, replies, buffered, unread)
    requires First(unread, OFP_STATS_REPLY, xid) < |unread|
    ensures
      var k := First(unread, OFP_STATS_REPLY, xid);
      Collected(ms, xid, before, n + k + 1, replies + [unread[k]], buffered + unread[..k], unread[k + 1..])
  {
    hide First, Wanted, Select;
    var k := First(unread, OFP_STATS_REPLY, xid);
    FirstIs(unread, OFP_STATS_REPLY, xid);
    SelectToFirst(unread, k, OFP_STATS_REPLY, xid);
    assert ms[..n + k + 1] == ms[..n] + (unread[..k] + [unread[k]]);
    assert unread[k + 1..] == ms[n + k + 1..];
    SelectConcat(ms[..n], unread[..k] + [unread[k]], OFP_STATS_REPLY, xid, true);
    SelectConcat(ms[..n], unread[..k] + [unread[k]], OFP_STATS_REPLY, xid, false);
  }

  lemma FirstIs(ms: seq<Message>, mtype: uint8, xid: uint32)
    ensures var k := First(ms, mtype, xid);
      && (forall j :: 0 <= j < k <= |ms| ==> !Wanted(ms[j], mtype, xid))
      && (k < |ms| ==> Wanted(ms[k], mtype, xid))
  {
  }

  lemma SelectToFirst(ms: seq<Message>, k: nat, mtype: uint8, xid: uint32)
    requires k < |ms| && Wanted(ms[k], mtype, xid) && forall j :: 0 <= j < k ==> !Wanted(ms[j], mtype, xid)
    ensures Select(ms[..k] + [ms[k]], mtype, xid, true) == [ms[k]]
    ensures Select(ms[..k] + [ms[k]], mtype, xid, false) == ms[..k]
  {
    hide Wanted;
    var t := ms[..k] + [ms[k]];
    SelectUnwanted(ms[..k], mtype, xid);
    assert t[..|t| - 1] == ms[..k];
  }

  /** The stream holds a whole reply to `xid`, its parts fit in the array of replies and carry
      a reply header, and what comes between them fits in the buffer. */
  ghost predicate ReplyComes(ms: seq<Message>, xid: uint32, buffered: nat) {
    var e := LastPart(ms, xid);
    && e < |ms|
    && (forall j :: 0 <= j <= e && Wanted(ms[j], OFP_STATS_REPLY, xid) ==> |ms[j].data| >= REPLY_HEADER_SIZE)
    && buffered + |Select(ms[..e + 1], OFP_STATS_REPLY, xid, false)| <= MSG_BUFFER_SIZE
    && |Select(ms[..e + 1], OFP_STATS_REPLY, xid, true)| <= MAX_STATS_REPLY
  }

  lemma SelectPrefix(ms: seq<Message>, a: nat, b: nat, mtype: uint8, xid: uint32, wanted: bool)
    requires a <= b <= |ms|
    ensures |Select(ms[..a], mtype, xid, wanted)| <= |Select(ms[..b], mtype, xid, wanted)|
  {
    assert ms[..b] == ms[..a] + ms[a..b];
    SelectConcat(ms[..a], ms[a..b], mtype, xid, wanted);
  }

  /** Until the last part is read, the next wait of the collection ends, within the buffer, on
      a part that has the MORE flag exactly when it is not the last one. */
  lemma CollectNext(ms: seq<Message>, xid: uint32, before: seq<Message>, n: nat,
                    replies: seq<Message>, buffered: seq<Message>, unread: seq<Message>)
    requires Collected(ms, xid, before, n, replies, buffered, unread)
    requires ReplyComes(ms, xid, |before|) && n <= LastPart(ms, xid)
    ensures
      var k := First(unread, OFP_STATS_REPLY, xid);
      && k < |unread| && |buffered| + k <= MSG_BUFFER_SIZE && n + k <= LastPart(ms, xid)
      && (More(unread[k]) <==> n + k < LastPart(ms, xid))
      && |replies| < MAX_STATS_REPLY
  {
    hide First, Wanted, More, Select, LastPart, ReplyComes;
    var k := First(unread, OFP_STATS_REPLY, xid);
    ReplyIsThere(ms, xid, |before|);
    FirstBeforeLast(ms, xid, n);
    CollectWait(ms, xid, before, n, replies, buffered, unread);
    CollectedFits(ms, xid, before, n + k + 1, replies + [unread[k]], buffered + unread[..k], unread[k + 1..]);
  }

  lemma ReplyIsThere(ms: seq<Message>, xid: uint32, buffered: nat)
    requires ReplyComes(ms, xid, buffered)
    ensures LastPart(ms, xid) < |ms|
  {
    hide LastPart, Select;
  }

  /** Up to the last part, what is collected and what is set aside fit. */
  lemma CollectedFits(ms: seq<Message>, xid: uint32, before: seq<Message>, n: nat,
                      replies: seq<Message>, buffered: seq<Message>, unread: seq<Message>)
    requires Collected(ms, xid, before, n, replies, buffered, unread)
    requires ReplyComes(ms, xid, |before|) && n <= LastPart(ms, xid) + 1
    ensures |replies| <= MAX_STATS_REPLY && |buffered| <= MSG_BUFFER_SIZE
  {
    hide Select, LastPart, Wanted;
    SelectPrefix(ms, n, LastPart(ms, xid) + 1, OFP_STATS_REPLY, xid, true);
    SelectPrefix(ms, n, LastPart(ms, xid) + 1, OFP_STATS_REPLY, xid, false);
  }

  /** The next part of a reply comes no later than the last one. */
  lemma FirstBeforeLast(ms: seq<Message>, xid: uint32, n: nat)
    requires n <= LastPart(ms, xid) < |ms|
    ensures
      var k := First(ms[n..], OFP_STATS_REPLY, xid);
      && n + k <= LastPart(ms, xid)
      && (More(ms[n + k]) <==> n + k < LastPart(ms, xid))
  {
    hide First, Wanted, More, LastPart;
    var unread, e := ms[n..], LastPart(ms, xid);
    var k := First(unread, OFP_STATS_REPLY, xid);
    LastPartIs(ms, xid);
    FirstIs(unread, OFP_STATS_REPLY, xid);
    assert unread[e - n] == ms[e];
    if k < |unread| { assert unread[k] == ms[n + k]; }
  }

  lemma LastPartIs(ms: seq<Message>, xid: uint32)
    ensures var e := LastPart(ms, xid);
      && (e < |ms| ==> Wanted(ms[e], OFP_STATS_REPLY, xid) && !More(ms[e]))
      && (forall j :: 0 <= j < e <= |ms| && Wanted(ms[j], OFP_STATS_REPLY, xid) ==> More(ms[j]))
  {
  }

  /** What is collected are replies to `xid`; what is set aside is anything else. */
  lemma CollectedAre(ms: seq<Message>, xid: uint32, before: seq<Message>, n: nat,
                     replies: seq<Message>, buffered: seq<Message>, unread: seq<Message>)
    requires Collected(ms, xid, before, n, replies, buffered, unread)
    ensures forall m :: m in replies ==> m.mtype == 0x11 && (xid == 0 || m.xid == xid)
    ensures |before| <= |buffered|
    ensures forall i :: |before| <= i < |buffered| ==>
      !(buffered[i].mtype == 0x11 && (xid == 0 || buffered[i].xid == xid))
  {
    hide Wanted;
    SelectedAre(ms[..n], OFP_STATS_REPLY, xid, true);
    SelectedAre(ms[..n], OFP_STATS_REPLY, xid, false);
    WantedIs(OFP_STATS_REPLY, xid);
  }

  lemma WantedIs(mtype: uint8, xid: uint32)
    ensures forall m :: Wanted(m, mtype, xid) <==> m.mtype == mtype && (xid == 0 || m.xid == xid)
  {
  }

  lemma {:induction false} SelectedAre(ms: seq<Message>, mtype: uint8, xid: uint32, wanted: bool)
    ensures forall i :: 0 <= i < |Select(ms, mtype, xid, wanted)| ==>
      Wanted(Select(ms, mtype, xid, wanted)[i], mtype, xid) == wanted
  {
    hide Wanted;
    if ms != [] {
      SelectedAre(ms[..|ms| - 1], mtype, xid, wanted);
    }
  }

  lemma CollectStart(ms: seq<Message>, xid: uint32, before: seq<Message>)
    ensures Collected(ms, xid, before, 0, [], before, ms)
  {
    assert ms[..0] == [];
  }

  // ---- on the heap ----

  class Connection {
    var inbox: seq<Message>            // every message the switch will have sent, not read yet
    var outbox: seq<Sent>              // everything written to the socket
    var transactionId: uint32
    const msgBuffer: array<Message>
    var nbMsgBuffered: nat
    ghost var answered: seq<Message>

    ghost predicate Valid()
      reads `nbMsgBuffered
    {
      msgBuffer.Length == MSG_BUFFER_SIZE && nbMsgBuffered <= MSG_BUFFER_SIZE
    }

    ghost function Buffered(): (ms: seq<Message>)
      requires Valid()
      reads `nbMsgBuffered, msgBuffer
      ensures |ms| == nbMsgBuffered
    {
      msgBuffer[..nbMsgBuffered]
    }

    ghost function State(): Conn
      requires Valid()
      reads this, msgBuffer
    {
      Conn(answered, Buffered(), inbox)
    }

    constructor (arriving: seq<Message>, firstId: uint32)
      ensures Valid() && fresh(msgBuffer) && State() == Conn([], [], arriving)
      ensures outbox == [] && transactionId == firstId
    {
      inbox, outbox, transactionId, nbMsgBuffered, answered := arriving, [], firstId, 0, [];
      msgBuffer := new Message[MSG_BUFFER_SIZE](_ => Message(0, 0, []));
    }

    method SetAside(m: Message)
      requires Valid() && nbMsgBuffered < MSG_BUFFER_SIZE
      modifies `nbMsgBuffered, msgBuffer
      ensures Valid() && Buffered() == old(Buffered()) + [m] && nbMsgBuffered == old(nbMsgBuffered) + 1
    {
      msgBuffer[nbMsgBuffered] := m;
      nbMsgBuffered := nbMsgBuffered + 1;
    }

    /** openflow_wait_for_message: terminates when the wanted message is in the stream. */
    method WaitForMessage(mtype: uint8, xid: uint32) returns (msg: Message)
      requires Valid() && Enabled(State(), Wait(mtype, xid))
      modifies `inbox, `nbMsgBuffered, msgBuffer
      ensures Valid() && State() == Step(old(State()), Wait(mtype, xid))
      ensures msg == old(inbox)[First(old(inbox), mtype, xid)]
      ensures msg.mtype == mtype && (xid == 0 || msg.xid == xid)
      ensures old(nbMsgBuffered) <= nbMsgBuffered
      ensures forall i :: old(nbMsgBuffered) <= i < nbMsgBuffered ==>
        !(Buffered()[i].mtype == mtype && (xid == 0 || Buffered()[i].xid == xid))
    {
      hide First;
      FirstIs(inbox, mtype, xid);
      ghost var ms, before, k := inbox, Buffered(), First(inbox, mtype, xid);
      var received := false;
      ghost var i := 0;
      msg := inbox[0];
      assert before == before + ms[..0] && ms[0..] == ms;
      while !received
        invariant Valid() && i <= k && nbMsgBuffered == old(nbMsgBuffered) + i
        invariant inbox == ms[if received then k + 1 else i..]
        invariant Buffered() == before + ms[..i]
        invariant received ==> i == k && msg == ms[k]
        decreases k - i, !received
      {
        msg := inbox[0];
        inbox := inbox[1..];
        if Wanted(msg, mtype, xid) {
          received := true;
        } else {
          SetAside(msg);
          assert ms[..i + 1] == ms[..i] + [msg];
          i := i + 1;
        }
      }
    }

    /** The collecting loop of openflow_get_flows: exactly the replies to `xid` up to and
        including the last part; everything else read meanwhile is set aside in order. */
    method CollectReplies(xid: uint32) returns (replies: seq<Message>)
      requires Valid() && ReplyComes(inbox, xid, nbMsgBuffered)
      modifies `inbox, `nbMsgBuffered, msgBuffer
      ensures Valid()
      ensures Collected(old(inbox), xid, old(Buffered()), LastPart(old(inbox), xid) + 1, replies, Buffered(), inbox)
      ensures |replies| <= MAX_STATS_REPLY
      ensures forall m :: m in replies ==> m.mtype == 0x11 && (xid == 0 || m.xid == xid)
      ensures old(nbMsgBuffered) <= nbMsgBuffered
      ensures forall i :: old(nbMsgBuffered) <= i < nbMsgBuffered ==>
        !(Buffered()[i].mtype == 0x11 && (xid == 0 || Buffered()[i].xid == xid))
    {
      hide First, Wanted, More, Select, LastPart, Collected, ReplyComes;
      ghost var ms, before, n := inbox, Buffered(), 0;
      replies := [];
      var fullyReceived := false;
      CollectStart(ms, xid, before);
      while !fullyReceived
        invariant Valid() && Collected(ms, xid, before, n, replies, Buffered(), inbox) && |replies| <= MAX_STATS_REPLY
        invariant n == LastPart(ms, xid) + 1 || (!fullyReceived && n <= LastPart(ms, xid))
        invariant fullyReceived <==> n == LastPart(ms, xid) + 1
        decreases LastPart(ms, xid) + 1 - n
      {
        ghost var k := First(inbox, OFP_STATS_REPLY, xid);
        CollectNext(ms, xid, before, n, replies, Buffered(), inbox);
        CollectWait(ms, xid, before, n, replies, Buffered(), inbox);
        var message := WaitForMessage(OFP_STATS_REPLY, xid);
        replies := replies + [message];
        n := n + k + 1;
        if !More(message) {
          fullyReceived := true;
        }
      }
      CollectedAre(ms, xid, before, n, replies, Buffered(), inbox);
    }

    method Send(message: Sent)
      modifies `outbox
      ensures outbox == old(outbox) + [message]
    {
      outbox := outbox + [message];
    }

    method NextTransaction() returns (xid: uint32)
      modifies `transactionId
      ensures xid == old(transactionId) && transactionId == (xid + 1) % 0x1_0000_0000
    {
      xid := transactionId;
      transactionId := Increment32(transactionId);
    }

    /** openflow_mod_vlan. */
    method SendModVlan(key: FiveTuple, vlan: uint16)
      modifies `outbox, `transactionId
      ensures outbox == old(outbox) + [FlowModSent(old(transactionId), ModVlan(key, vlan))]
      ensures transactionId == (old(transactionId) + 1) % 0x1_0000_0000
    {
      var xid := NextTransaction();
      Send(FlowModSent(xid, ModVlan(key, vlan)));
    }

    /** send_openflow_echo_reply: a bare header of transaction 0. */
    method SendEchoReply()
      modifies `outbox
      ensures outbox == old(outbox) + [EchoReply(0, [])]
    {
      Send(EchoReply(0, []));
    }

    /** control_logic: an echo request is answered, other messages are ignored. */
    method ControlLogic(m: Message)
      modifies `outbox, `answered
      ensures answered == old(answered) + Echoes([m])
      ensures outbox == old(outbox) + Replies(Echoes([m]))
      ensures outbox == old(outbox) + if m.mtype == 2 then [EchoReply(0, [])] else []
    {
      OneEcho(m);
      if m.mtype == OFP_ECHO_REQUEST {
        SendEchoReply();
        answered := answered + [m];
      }
    }

    /** openflow_control: first the messages set aside, then those that have arrived. What it
        writes is what the specification asks for if and only if all requests are bare too. */
    method Control(available: nat)
      requires Valid() && available <= |inbox|
      modifies `inbox, `outbox, `nbMsgBuffered, `answered
      ensures Valid() && State() == Step(old(State()), Drain(available))
      ensures inbox == old(inbox)[available..] && nbMsgBuffered == 0
      ensures
        var requests := Echoes(old(Buffered())) + Echoes(old(inbox)[..available]);
        && outbox == old(outbox) + Replies(requests)
        && (outbox == old(outbox) + ProperReplies(requests) <==> forall m :: m in requests ==> Bare(m))
    {
      ghost var buffered, ms := Buffered(), inbox;
      AnswerAll(buffered);
      nbMsgBuffered := 0;
      ghost var sent, done := outbox, answered;
      ReadAll(available);
      RepliesConcat(Echoes(buffered), Echoes(ms[..available]));
      RepliesProperIff(old(outbox), Echoes(buffered) + Echoes(ms[..available]));
    }

    method AnswerAll(ghost buffered: seq<Message>)
      requires Valid() && buffered == Buffered()
      modifies `outbox, `answered
      ensures answered == old(answered) + Echoes(buffered)
      ensures outbox == old(outbox) + Replies(Echoes(buffered))
    {
      hide Echoes, Replies;
      NoReplies();
      for i := 0 to nbMsgBuffered
        invariant answered == old(answered) + Echoes(buffered[..i])
        invariant outbox == old(outbox) + Replies(Echoes(buffered[..i]))
      {
        AnswerOneMore(buffered, i);
        ControlLogic(msgBuffer[i]);
      }
      assert buffered[..|buffered|] == buffered;
    }

    method ReadAll(available: nat)
      requires available <= |inbox|
      modifies `inbox, `outbox, `answered
      ensures inbox == old(inbox)[available..]
      ensures answered == old(answered) + Echoes(old(inbox)[..available])
      ensures outbox == old(outbox) + Replies(Echoes(old(inbox)[..available]))
    {
      hide Echoes, Replies;
      NoReplies();
      ghost var ms := inbox;
      for i := 0 to available
        invariant inbox == ms[i..]
        invariant answered == old(answered) + Echoes(ms[..i])
        invariant outbox == old(outbox) + Replies(Echoes(ms[..i]))
      {
        AnswerOneMore(ms, i);
        var message := inbox[0];
        inbox := inbox[1..];
        ControlLogic(message);
      }
    }
  }

  // ---- answers ----

  /** One bare echo reply for each request. */
  ghost function Replies(requests: seq<Message>): (sent: seq<Sent>)
    ensures |sent| == |requests|
  {
    seq(|requests|, _ => EchoReply(0, []))
  }

  /** What section 5.5.3 asks for: replies with the data of their requests, and by section 5.1
      with their transaction numbers. */
  ghost function ProperReplies(requests: seq<Message>): (sent: seq<Sent>)
    ensures |sent| == |requests|
  {
    seq(|requests|, i requires 0 <= i < |requests| => EchoReply(requests[i].xid, requests[i].data))
  }

  /** A request of transaction 0 without data. */
  predicate Bare(m: Message) { m.xid == 0 && m.data == [] }

  /** The replies are the proper ones if and only if every request is bare. */
  lemma RepliesProperIff(before: seq<Sent>, requests: seq<Message>)
    ensures before + Replies(requests) == before + ProperReplies(requests) <==> forall m :: m in requests ==> Bare(m)
  {
    var actual, proper := before + Replies(requests), before + ProperReplies(requests);
    if actual == proper {
      forall i | 0 <= i < |requests|
        ensures Bare(requests[i])
      {
        assert actual[|before| + i] == proper[|before| + i];
        assert Replies(requests)[i] == ProperReplies(requests)[i];
      }
    }
    if forall m :: m in requests ==> Bare(m) {
      forall i | 0 <= i < |requests|
        ensures Replies(requests)[i] == ProperReplies(requests)[i]
      {
        assert Bare(requests[i]);
      }
      assert Replies(requests) == ProperReplies(requests);
    }
  }

  /** A keep-alive with a transaction number, or with a single byte of data, is answered wrongly. */
  lemma KeepAliveMisanswered(xid: uint32, data: Payload)
    requires xid != 0 || data != []
    ensures
      var request := Message(OFP_ECHO_REQUEST, xid, data);
      Replies(Echoes([request])) == [EchoReply(0, [])] != ProperReplies(Echoes([request])) == [EchoReply(xid, data)]
  {
    var request := Message(OFP_ECHO_REQUEST, xid, data);
    OneEcho(request);
    assert Replies([request]) == [EchoReply(0, [])];
    assert ProperReplies([request]) == [EchoReply(xid, data)];
  }

  lemma OneEcho(m: Message)
    ensures Echoes([m]) == if m.mtype == OFP_ECHO_REQUEST then [m] else []
  {
    assert [m][..0] == [];
  }

  lemma NoReplies()
    ensures Echoes([]) == [] && Replies([]) == []
  {
  }

  lemma RepliesConcat(a: seq<Message>, b: seq<Message>)
    ensures Replies(a + b) == Replies(a) + Replies(b)
  {
  }

  lemma AnswerOneMore(ms: seq<Message>, i: nat)
    requires i < |ms|
    ensures Echoes(ms[..i + 1]) == Echoes(ms[..i]) + Echoes([ms[i]])
    ensures Replies(Echoes(ms[..i + 1])) == Replies(Echoes(ms[..i])) + Replies(Echoes([ms[i]]))
  {
    hide Echoes;
    assert ms[..i + 1] == ms[..i] + [ms[i]];
    EchoesConcat(ms[..i], [ms[i]]);
    RepliesConcat(Echoes(ms[..i]), Echoes([ms[i]]));
  }
}