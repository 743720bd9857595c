/** The parsing half of openflow_get_flows, and openflow_free_flows (src/openflow.c). */
module FlowReader {
  import opened Env
  import opened Wire

  predicate ReplyOk(b: Bytes) {
    |b| >= REPLY_HEADER_SIZE && BodyOk(b[REPLY_HEADER_SIZE..])
  }

  ghost predicate RepliesOk(bodies: seq<Bytes>) {
    forall i :: 0 <= i < |bodies| ==> ReplyOk(bodies[i])
  }

  /** All flows of a reply, message by message. */
  ghost function ReadReplies(bodies: seq<Bytes>): seq<ParsedFlow>
    requires RepliesOk(bodies)
  {
    if bodies == [] then []
    else ReadReplies(bodies[..|bodies| - 1]) + ReadBody(bodies[|bodies| - 1][REPLY_HEADER_SIZE..])
  }

  /** Row `i` of a table of action rows after parsing flow `i` on top of it. */
  ghost predicate Grown(rows: seq<seq<ParsedAction>>, flows: seq<ParsedFlow>, rows': seq<seq<ParsedAction>>) {
    |rows'| == |rows| && forall i :: 0 <= i < |rows| ==>
      rows'[i] == if i < |flows| then rows[i] + flows[i].actions else rows[i]
  }

  /** The rows have room for the flows. */
  ghost predicate Fits(rows: seq<seq<ParsedAction>>, flows: seq<ParsedFlow>) {
    |flows| <= |rows| && forall i :: 0 <= i < |flows| ==> |rows[i]| + |flows[i].actions| <= MAX_ACTIONS
  }

  /** A whole number of 8-byte units. */
  ghost predicate Aligned(n: int) { n % 8 == 0 }

  /** Where the reading of the actions of one entry stands. */
  ghost predicate Reading(b: Bytes, start: nat, head: nat, end: nat, row: seq<ParsedAction>, row': seq<ParsedAction>)
    requires start <= end <= |b| && head <= end
  {
    Aligned(end - head) && row + ReadActions(b[start..end]) == row' + ReadActions(b[head..end])
  }

  lemma ReadingStep(b: Bytes, start: nat, head: nat, end: nat, row: seq<ParsedAction>, row': seq<ParsedAction>)
    requires start <= end <= |b| && head < end && Reading(b, start, head, end, row, row')
    ensures head + ACTION_SIZE <= end
    ensures
      var a := ReadAction(b, head);
      Reading(b, start, if a.data == NoData then end else head + ACTION_SIZE, end, row, row' + [a])
  {
    hide ReadActions, ReadAction;
    var a := ReadAction(b, head);
    var next := if a.data == NoData then end else head + ACTION_SIZE;
    ReadActionAt(b, head, end);
    assert row' + ([a] + ReadActions(b[next..end])) == (row' + [a]) + ReadActions(b[next..end]);
  }

  lemma ReadActionAt(b: Bytes, head: nat, end: nat)
    requires head + ACTION_SIZE <= end <= |b|
    ensures
      var a := ReadAction(b, head);
      ReadActions(b[head..end]) == [a] + ReadActions(b[if a.data == NoData then end else head + ACTION_SIZE..end])
  {
    var s := b[head..end];
    hide ReadActions, ReadAction;
    ReadActionSame(b, head, end);
    ReadActionsUnfold(s);
    assert s[ACTION_SIZE..] == b[head + ACTION_SIZE..end];
    assert b[end..end] == [];
  }

  lemma ReadActionsUnfold(s: Bytes)
    requires |s| >= ACTION_SIZE
    ensures
      var a := ReadAction(s, 0);
      ReadActions(s) == [a] + (if a.data == NoData then [] else ReadActions(s[ACTION_SIZE..]))
    ensures ReadActions([]) == []
  {
    hide ReadAction;
  }

  lemma ReadActionSame(b: Bytes, head: nat, end: nat)
    requires head + ACTION_SIZE <= end <= |b|
    ensures ReadAction(b[head..end], 0) == ReadAction(b, head)
  {
    hide Swap16;
    var s := b[head..end];
    assert s[6] == b[head + 6] && s[7] == b[head + 7];
    assert s[6..8] == b[head + 6..head + 8];
  }

  lemma ReadingStarts(b: Bytes, start: nat, end: nat, row: seq<ParsedAction>)
    requires start <= end <= |b| && Aligned(end - start)
    ensures Reading(b, start, start, end, row, row)
  {
  }

  lemma ReadingEnds(b: Bytes, start: nat, end: nat, row: seq<ParsedAction>, row': seq<ParsedAction>)
    requires start <= end <= |b| && Reading(b, start, end, end, row, row')
    ensures Joined(row, ReadActions(b[start..end]), row') && |row'| == |row| + |ReadActions(b[start..end])|
  {
    hide ReadAction;
    assert b[end..end] == [];
    assert row' + [] == row';
  }

  ghost predicate Joined(first: seq<ParsedAction>, second: seq<ParsedAction>, both: seq<ParsedAction>) {
    both == first + second
  }

  /** The action part of one entry, read from `b` between `start` and `end` into the row of
      its flow, after whatever the row already held. */
  method ReadActionList(b: Bytes, start: nat, end: nat, row: seq<ParsedAction>, ghost added: seq<ParsedAction>)
    returns (row': seq<ParsedAction>)
    requires start <= end <= |b| && Aligned(end - start) && added == ReadActions(b[start..end])
    ensures Joined(row, added, row') && |row'| == |row| + |added|
  {
    hide Reading, ReadActions, ReadAction, Aligned, Joined;
    row' := row;
    var head := start;
    ReadingStarts(b, start, end, row);
    while head < end
      invariant start <= head <= end
      invariant Reading(b, start, head, end, row, row')
      decreases end - head
    {
      ReadingStep(b, start, head, end, row, row');
      var action := ReadAction(b, head);
      if action.data == NoData {
        head := end;   // unknown action type: the rest of the entry is skipped
      } else {
        head := head + ACTION_SIZE;
      }
      row' := row' + [action];
    }
    ReadingEnds(b, start, end, row, row');
  }

  /** The body, the next entry and its length as seen from byte `head`. */
  ghost predicate BodyFrom(b: Bytes, head: nat) {
    head <= |b| && BodyOk(b[head..])
  }

  ghost function EntryFrom(b: Bytes, head: nat): ParsedFlow
    requires BodyFrom(b, head) && head < |b|
  {
    ReadEntry(b[head..])
  }

  ghost function LengthFrom(b: Bytes, head: nat): uint16
    requires BodyFrom(b, head) && head < |b|
  {
    Length(b[head..])
  }

  class Flows {
    var nbFlows: nat
    const flowStats: array<FlowStats>
    const actions: array<seq<ParsedAction>>

    ghost predicate Valid()
      reads this
    {
      flowStats.Length == actions.Length == MAX_HANDLED_FLOWS && nbFlows <= MAX_HANDLED_FLOWS
    }

    /** openflow_flows flows = {0} */
    constructor ()
      ensures Valid() && nbFlows == 0 && fresh(flowStats) && fresh(actions)
      ensures forall i :: 0 <= i < actions.Length ==> actions[i] == []
    {
      nbFlows := 0;
      var noMatch := Match(0, 0, [], [], 0, 0, 0, 0, 0, 0, 0, 0, 0);
      var none := Halves(0, 0);
      flowStats := new FlowStats[MAX_HANDLED_FLOWS](_ => FlowStats(0, 0, noMatch, 0, 0, 0, 0, 0, none, none, none));
      actions := new seq<ParsedAction>[MAX_HANDLED_FLOWS](_ => []);
    }

    /** Parses the entry at `head`; the cursor moves by the declared length of the entry. */
    method ReadFlow(b: Bytes, head: nat) returns (next: nat)
      requires Valid() && nbFlows < MAX_HANDLED_FLOWS
      requires head < |b| && BodyFrom(b, head)
      requires |actions[nbFlows]| + |EntryFrom(b, head).actions| <= MAX_ACTIONS
      modifies this, flowStats, actions
      ensures Valid() && nbFlows == old(nbFlows) + 1
      ensures next == head + LengthFrom(b, head) <= |b|
      ensures
        var flow := EntryFrom(b, head);
        && Stored(old(flowStats[..]), old(nbFlows), flow.stats, flowStats[..])
        && Stored(old(actions[..]), old(nbFlows), actions[old(nbFlows)], actions[..])
        && Joined(old(actions[nbFlows]), flow.actions, actions[old(nbFlows)])
    {
      hide BodyFrom, SwapStats, RawStats, ReadActions, LengthFrom, EntryFrom, Joined, Stored, Aligned;
      EntryAt(b, head);
      var stats := SwapStats(RawStats(b, head));
      next := head + stats.length;
      var row := ReadActionList(b, head + STATS_SIZE, next, actions[nbFlows], EntryFrom(b, head).actions);
      Store(stats, row);
    }

    /** Fills row `nbFlows`, which must not outgrow its array of MAX_ACTIONS descriptors. */
    method Store(stats: FlowStats, row: seq<ParsedAction>)
      requires Valid() && nbFlows < MAX_HANDLED_FLOWS && |row| <= MAX_ACTIONS
      modifies this, flowStats, actions
      ensures Valid() && nbFlows == old(nbFlows) + 1
      ensures Stored(old(flowStats[..]), old(nbFlows), stats, flowStats[..])
      ensures Stored(old(actions[..]), old(nbFlows), row, actions[..]) && actions[old(nbFlows)] == row
    {
      flowStats[nbFlows] := stats;
      actions[nbFlows] := row;
      nbFlows := nbFlows + 1;
    }

    /** The first flows are `done`, on top of action rows that began as `rows`. */
    ghost predicate Loaded(rows: seq<seq<ParsedAction>>, done: seq<ParsedFlow>)
      reads this, flowStats, actions
    {
      && Valid() && nbFlows == |done|
      && (forall i :: 0 <= i < |done| ==> flowStats[i] == done[i].stats)
      && Grown(rows, done, actions[..])
    }

    /** Forgets the flows and their actions. */
    method FreeFlows()
      requires Valid()
      modifies this, actions
      ensures Valid() && nbFlows == 0
      ensures forall i :: 0 <= i < actions.Length ==> actions[i] == if i < old(nbFlows) then [] else old(actions[i])
    {
      for i := 0 to nbFlows
        invariant forall j :: 0 <= j < actions.Length ==> actions[j] == if j < i then [] else old(actions[j])
      {
        actions[i] := [];
      }
      nbFlows := 0;
    }
  }

  method ReadNext(flows: Flows, b: Bytes, head: nat, ghost rows: seq<seq<ParsedAction>>, ghost done: seq<ParsedFlow>)
    returns (next: nat)
    requires flows.Loaded(rows, done) && |done| < MAX_HANDLED_FLOWS
    requires head < |b| && BodyFrom(b, head)
    requires |done| < |rows| && |rows[|done|]| + |EntryFrom(b, head).actions| <= MAX_ACTIONS
    modifies flows, flows.flowStats, flows.actions
    ensures next == head + LengthFrom(b, head) <= |b|
    ensures flows.Loaded(rows, done + [EntryFrom(b, head)])
  {
    hide BodyFrom, EntryFrom, LengthFrom;
    next := flows.ReadFlow(b, head);
  }

  // ---- one reply message ----

  /** Where the parsing of a message stands: `done` of the flows `all` are read and the cursor
      is at `head`. */
  ghost predicate Walking(b: Bytes, all: seq<ParsedFlow>, head: nat, done: seq<ParsedFlow>) {
    BodyFrom(b, head) && all == done + ReadBody(b[head..])
  }

  lemma WalkingStep(b: Bytes, all: seq<ParsedFlow>, head: nat, done: seq<ParsedFlow>)
    requires Walking(b, all, head, done) && head < |b|
    ensures BodyFrom(b, head) && head < head + LengthFrom(b, head) <= |b|
    ensures Walking(b, all, head + LengthFrom(b, head), done + [EntryFrom(b, head)])
    ensures |done| < |all| && all[|done|] == EntryFrom(b, head)
  {
    hide Length, ReadEntry;
    var s := b[head..];
    assert s[Length(s)..] == b[head + Length(s)..];
    var rest := ReadBody(s[Length(s)..]);
    assert done + ([ReadEntry(s)] + rest) == (done + [ReadEntry(s)]) + rest;
  }

  lemma WalkingStart(b: Bytes, before: seq<ParsedFlow>, all: seq<ParsedFlow>)
    requires ReplyOk(b) && all == before + ReadBody(b[REPLY_HEADER_SIZE..])
    ensures Walking(b, all, REPLY_HEADER_SIZE, before) && REPLY_HEADER_SIZE <= |b|
  {
    hide BodyOk, ReadBody;
  }

  /** There is room for the next flow. */
  lemma LoadedFits(flows: Flows, rows: seq<seq<ParsedAction>>, done: seq<ParsedFlow>, all: seq<ParsedFlow>)
    requires flows.Loaded(rows, done) && Fits(rows, all) && |done| < |all|
    ensures |done| < |rows| <= MAX_HANDLED_FLOWS
    ensures |rows[|done|]| + |all[|done|].actions| <= MAX_ACTIONS
  {
  }

  lemma WalkingEnd(b: Bytes, all: seq<ParsedFlow>, done: seq<ParsedFlow>)
    requires Walking(b, all, |b|, done)
    ensures done == all
  {
    assert b[|b|..] == [];
  }

  method ReadReply(flows: Flows, b: Bytes, ghost rows: seq<seq<ParsedAction>>,
                   ghost before: seq<ParsedFlow>, ghost all: seq<ParsedFlow>)
    requires ReplyOk(b) && all == before + ReadBody(b[REPLY_HEADER_SIZE..])
    requires flows.Loaded(rows, before) && Fits(rows, all)
    modifies flows, flows.flowStats, flows.actions
    ensures flows.Loaded(rows, all)
  {
    hide ReplyOk, BodyFrom, EntryFrom, ReadBody, LengthFrom, Walking, Fits, Flows.Loaded;
    WalkingStart(b, before, all);
    var head := REPLY_HEADER_SIZE;
    ghost var done := before;
    while head < |b|
      invariant Walking(b, all, head, done) && flows.Loaded(rows, done) && head <= |b|
      decreases |b| - head
    {
      WalkingStep(b, all, head, done);
      LoadedFits(flows, rows, done, all);
      ghost var flow := EntryFrom(b, head);
      head := ReadNext(flows, b, head, rows, done);
      done := done + [flow];
    }
    WalkingEnd(b, all, done);
  }

  ghost function ReadUpTo(bodies: seq<Bytes>, i: nat): seq<ParsedFlow>
    requires RepliesOk(bodies) && i <= |bodies|
  {
    ReadReplies(bodies[..i])
  }

  lemma {:induction false} ReadUpToStep(bodies: seq<Bytes>, i: nat, rows: seq<seq<ParsedAction>>)
    requires RepliesOk(bodies) && i < |bodies| && Fits(rows, ReadReplies(bodies))
    ensures ReplyOk(bodies[i])
    ensures ReadUpTo(bodies, i + 1) == ReadUpTo(bodies, i) + ReadBody(bodies[i][REPLY_HEADER_SIZE..])
    ensures Fits(rows, ReadUpTo(bodies, i + 1))
    decreases |bodies| - i
  {
    hide BodyOk, ReadBody;
    assert bodies[..i + 1][..i] == bodies[..i];
    if i + 1 < |bodies| {
      ReadUpToStep(bodies, i + 1, rows);
      FitsPrefix(rows, ReadUpTo(bodies, i + 1), ReadBody(bodies[i + 1][REPLY_HEADER_SIZE..]));
    } else {
      assert bodies[..i + 1] == bodies;
    }
  }

  lemma FitsPrefix(rows: seq<seq<ParsedAction>>, first: seq<ParsedFlow>, rest: seq<ParsedFlow>)
    requires Fits(rows, first + rest)
    ensures Fits(rows, first)
  {
    assert forall i :: 0 <= i < |first| ==> (first + rest)[i] == first[i];
  }

  lemma ReadAll(bodies: seq<Bytes>)
    requires RepliesOk(bodies)
    ensures ReadUpTo(bodies, |bodies|) == ReadReplies(bodies)
  {
    assert bodies[..|bodies|] == bodies;
  }

  /** flows->nb_flows = 0: the flows are forgotten, the action rows are not. */
  method Restart(flows: Flows, ghost rows: seq<seq<ParsedAction>>, ghost bodies: seq<Bytes>)
    requires flows.Valid() && rows == flows.actions[..] && RepliesOk(bodies)
    modifies flows
    ensures flows.Loaded(rows, ReadUpTo(bodies, 0))
  {
    flows.nbFlows := 0;
  }

  /** The parsing loop of openflow_get_flows: every entry of every message, in order, each on
      top of the actions its row held before the call. */
  method ParseReplies(flows: Flows, bodies: seq<Bytes>, ghost rows: seq<seq<ParsedAction>>)
    requires flows.Valid() && rows == flows.actions[..] && RepliesOk(bodies) && Fits(rows, ReadReplies(bodies))
    modifies flows, flows.flowStats, flows.actions
    ensures flows.Loaded(rows, ReadReplies(bodies))
  {
    hide Flows.Loaded, ReplyOk, ReadBody, ReadUpTo, ReadReplies, Fits, RepliesOk;
    Restart(flows, rows, bodies);
    ReadAll(bodies);
    for i := 0 to |bodies|
      invariant flows.Loaded(rows, ReadUpTo(bodies, i))
    {
      ReadUpToStep(bodies, i, rows);
      ReadReply(flows, bodies[i], rows, ReadUpTo(bodies, i), ReadUpTo(bodies, i + 1));
    }
  }

  /** `after` is `before` with `x` at index `i`. */
  ghost predicate Stored<T>(before: seq<T>, i: nat, x: T, after: seq<T>) {
    |after| == |before| && forall j :: 0 <= j < |before| ==> after[j] == if j == i then x else before[j]
  }

  /** An entry parsed in place. */
  lemma EntryAt(b: Bytes, head: nat)
    requires head < |b| && BodyFrom(b, head)
    ensures head + STATS_SIZE <= |b|
    ensures
      var length, stats := LengthFrom(b, head), SwapStats(RawStats(b, head));
      && stats.length == length && STATS_SIZE <= length <= |b| - head && Aligned(length - STATS_SIZE)
      && EntryFrom(b, head) == ParsedFlow(stats, ReadActions(b[head + STATS_SIZE..head + length]))
  {
    hide Swap16, Swap32, Raw16, Raw32, ReadActions;
    var s := b[head..];
    RawShift(b, head);
    assert s[STATS_SIZE..Length(s)] == b[head + STATS_SIZE..head + Length(s)];
  }

  lemma RawShift(b: Bytes, head: nat)
    requires head + STATS_SIZE <= |b|
    ensures RawStats(b, head) == RawStats(b[head..], 0)
  {
    var s := b[head..];
    assert s[10..16] == b[head + 10..head + 16];
    assert s[16..22] == b[head + 16..head + 22];
  }
}
