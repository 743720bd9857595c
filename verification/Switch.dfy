/** The switch as the controllers see it: flow rules per five-tuple, and what the flow-mods of
    openflow_mod_vlan do to them (OpenFlow Switch Specification 1.0.0, sections 5.2.3 and 5.3.3). */
module Switches {
  import opened Env
  import opened Wire

  const OFPW_MATCH_FIVE_TUPLE := 0x0030_000e
  const IPV4_ETH_TYPE := 0x0800
  const DEFAULT_VLAN := 0

  // ---- matches ----

  /** Whether the wildcard bit worth `unit` is set. */
  predicate Wild(wildcards: uint32, unit: Positive) { wildcards / unit % 2 == 1 }

  /** How many low bits of the source or destination address are ignored. */
  function SrcBits(wildcards: uint32): nat { wildcards / 0x100 % 0x40 }

  function DstBits(wildcards: uint32): nat { wildcards / 0x4000 % 0x40 }

  function Halved(x: nat, times: nat): nat {
    if times == 0 then x else Halved(x / 2, times - 1)
  }

  /** An address field of a description covers that of a rule. */
  predicate AddressCovers(bits: nat, address: uint32, ruleBits: nat, ruleAddress: uint32) {
    bits >= 32 || (ruleBits <= bits && Halved(address, bits) == Halved(ruleAddress, bits))
  }

  /** One field of a description covers that of a rule. */
  predicate FieldCovers(d: Match, r: Match, unit: Positive, same: bool) {
    Wild(d.wildcards, unit) || (!Wild(r.wildcards, unit) && same)
  }

  /** The description `d` of a non-strict flow-mod covers the rule `r`. */
  predicate Covers(d: Match, r: Match) {
    && FieldCovers(d, r, 0x1, d.inPort == r.inPort)
    && FieldCovers(d, r, 0x2, d.dlVlan == r.dlVlan)
    && FieldCovers(d, r, 0x4, d.dlSrc == r.dlSrc)
    && FieldCovers(d, r, 0x8, d.dlDst == r.dlDst)
    && FieldCovers(d, r, 0x10, d.dlType == r.dlType)
    && FieldCovers(d, r, 0x20, d.nwProto == r.nwProto)
    && FieldCovers(d, r, 0x40, d.tpSrc == r.tpSrc)
    && FieldCovers(d, r, 0x80, d.tpDst == r.tpDst)
    && FieldCovers(d, r, 0x10_0000, d.dlVlanPcp == r.dlVlanPcp)
    && FieldCovers(d, r, 0x20_0000, d.nwTos == r.nwTos)
    && AddressCovers(SrcBits(d.wildcards), d.nwSrc, SrcBits(r.wildcards), r.nwSrc)
    && AddressCovers(DstBits(d.wildcards), d.nwDst, DstBits(r.wildcards), r.nwDst)
  }

  // What the installing controller puts in a rule (controller/controller.py): the match of
  // its OpenFlow library has all fields wildcarded but those it is given.
  const OFPFW_ALL := 0x3f_ffff
  const OFPFW_GIVEN := 0x1 + 0x10 + 0x20 + 0x40 + 0x80 + 0x3f00 + 0xf_c000
  const ETH_TYPE_IP := 0x800
  const OUT_PORT := 1
  const HOST_PORT := 2

  /** The match of the rule installed for the packets of a TCP or UDP flow that come in by a port. */
  function InstalledMatch(k: FiveTuple, inPort: uint16): Match {
    Match(OFPFW_ALL - OFPFW_GIVEN, inPort, NO_MAC, NO_MAC, 0, 0, ETH_TYPE_IP, 0, k.proto,
      k.srcIp, k.dstIp, k.srcPort, k.dstPort)
  }

  /** The match openflow_mod_vlan fills in. */
  function FlowMatch(k: FiveTuple): Match {
    Match(OFPW_MATCH_FIVE_TUPLE, OVS_NETWORK_IFINDEX, NO_MAC, NO_MAC, 0, 0, IPV4_ETH_TYPE, 0, k.proto,
      k.srcIp, k.dstIp, k.srcPort, k.dstPort)
  }

  /** A modifying flow-mod covers exactly the rules that leave none of the input port, the
      Ethernet type and the five-tuple open, and have port 1, type IPv4 and its own five-tuple. */
  lemma FlowMatchCovers(key: FiveTuple, r: Match)
    ensures Covers(FlowMatch(key), r) <==>
      && r.wildcards % 2 == 0 && r.inPort == 1
      && r.wildcards / 0x10 % 2 == 0 && r.dlType == 0x0800
      && r.wildcards / 0x20 % 2 == 0 && r.nwProto == key.proto
      && r.wildcards / 0x40 % 2 == 0 && r.tpSrc == key.srcPort
      && r.wildcards / 0x80 % 2 == 0 && r.tpDst == key.dstPort
      && r.wildcards / 0x100 % 0x40 == 0 && r.nwSrc == key.srcIp
      && r.wildcards / 0x4000 % 0x40 == 0 && r.nwDst == key.dstIp
  {
    var w := OFPW_MATCH_FIVE_TUPLE;
    assert SrcBits(w) == 0 && DstBits(w) == 0;
    assert !Wild(w, 0x1) && !Wild(w, 0x10) && !Wild(w, 0x20) && !Wild(w, 0x40) && !Wild(w, 0x80);
    assert Wild(w, 0x2) && Wild(w, 0x4) && Wild(w, 0x8) && Wild(w, 0x10_0000) && Wild(w, 0x20_0000);
    assert Halved(key.srcIp, 0) == key.srcIp && Halved(key.dstIp, 0) == key.dstIp;
    assert Halved(r.nwSrc, 0) == r.nwSrc && Halved(r.nwDst, 0) == r.nwDst;
  }

  /** Among the rules installed for flows, whatever port their packets come from, that is the
      rule of its own flow from the network, and no other. */
  lemma FlowMatchCoversItself(key: FiveTuple, k: FiveTuple, inPort: uint16)
    ensures Covers(FlowMatch(key), InstalledMatch(k, inPort)) <==> key == k && inPort == 1
  {
    hide Covers;
    FlowMatchCovers(key, InstalledMatch(k, inPort));
  }

  // ---- rules ----

  datatype Rule = Rule(actions: seq<Action>, packets: uint64)

  /** The rules for the packets of TCP and UDP flows that come from the network. */
  type Switch = map<FiveTuple, Rule>

  /** A packet on its way out. */
  datatype Outgoing = Outgoing(port: uint16, vlan: uint16)

  /** What becomes of a packet that arrives with a VLAN: the actions are carried out in the order
      of the list. Actions of other types do not occur in the rules of this system. */
  function Forward(actions: seq<Action>, vlan: uint16): seq<Outgoing> {
    if actions == [] then []
    else match actions[0]
      case SetVlan(vid) => Forward(actions[1..], vid)
      case Output(port, _) => [Outgoing(port, vlan)] + Forward(actions[1..], vlan)
      case Other(_, _) => Forward(actions[1..], vlan)
  }

  /** The VLAN with which a rule first sends a packet out. */
  function TagOf(actions: seq<Action>): uint16 {
    var out := Forward(actions, DEFAULT_VLAN);
    if out == [] then DEFAULT_VLAN else out[0].vlan
  }

  /** Whatever VLAN a packet arrives with, it is sent out once, to the host, tagged `vlan`. */
  ghost predicate Steers(actions: seq<Action>, vlan: uint16) {
    forall arrival: uint16 :: Forward(actions, arrival) == [Outgoing(2, vlan)]
  }

  lemma TwoActionsSteer(actions: seq<Action>, vlan: uint16, maxLen: uint16)
    requires actions == [SetVlan(vlan), Output(2, maxLen)]
    ensures Steers(actions, vlan) && TagOf(actions) == vlan
  {
    forall arrival: uint16
      ensures Forward(actions, arrival) == [Outgoing(2, vlan)]
    {
      assert actions[1..] == [Output(2, maxLen)] && actions[1..][1..] == [];
      assert Forward(actions, arrival) == Forward(actions[1..], vlan);
    }
  }

  /** The installing controller adds a rule for a new flow. */
  ghost function WithRule(sw: Switch, key: FiveTuple, maxLen: uint16): Switch {
    sw[key := Rule([SetVlan(DEFAULT_VLAN), Output(HOST_PORT, maxLen)], 0)]
  }

  /** A new rule sends its packets to the host with VLAN 0; no other rule changes. */
  lemma NewRuleSteers(sw: Switch, key: FiveTuple, maxLen: uint16)
    requires key !in sw
    ensures
      var sw' := WithRule(sw, key, maxLen);
      && sw'.Keys == sw.Keys + {key} && (forall k :: k in sw ==> sw'[k] == sw[k])
      && sw'[key].packets == 0 && Steers(sw'[key].actions, 0)
      && TagOf(sw'[key].actions) == 0
  {
    TwoActionsSteer(WithRule(sw, key, maxLen)[key].actions, 0, maxLen);
  }

  ghost function WithPackets(sw: Switch, key: FiveTuple, n: uint64): Switch
    requires key in sw
  {
    sw[key := sw[key].(packets := Add64(sw[key].packets, n))]
  }

  /** A flow-mod with command MODIFY. */
  datatype FlowMod = FlowMod(fields: Match, actions: seq<Action>)

  function ModVlan(key: FiveTuple, vlan: uint16): FlowMod {
    FlowMod(FlowMatch(key), [SetVlan(vlan), Output(OVS_HOST_IFINDEX, OVS_OUTPUT_ACTION_MAX_LEN)])
  }

  /** All covered rules get the actions of the flow-mod; without a covered rule it adds one. */
  ghost function Modify(sw: Switch, key: FiveTuple, mod: FlowMod): Switch {
    if exists k :: k in sw && Covers(mod.fields, InstalledMatch(k, OUT_PORT)) then
      map k | k in sw ::
        if Covers(mod.fields, InstalledMatch(k, OUT_PORT)) then sw[k].(actions := mod.actions) else sw[k]
    else
      sw[key := Rule(mod.actions, 0)]
  }

  /** On an installed flow openflow_mod_vlan makes all packets of that flow leave once, to the
      host, with the VLAN; it keeps the counter of the flow, and touches no other rule. */
  lemma ModVlanRetags(sw: Switch, key: FiveTuple, vlan: uint16)
    requires key in sw
    ensures
      var sw' := Modify(sw, key, ModVlan(key, vlan));
      && sw'.Keys == sw.Keys && (forall k :: k in sw && k != key ==> sw'[k] == sw[k])
      && sw'[key].packets == sw[key].packets && Steers(sw'[key].actions, vlan)
      && TagOf(sw'[key].actions) == vlan
  {
    hide Covers;
    forall k ensures Covers(FlowMatch(key), InstalledMatch(k, OUT_PORT)) <==> key == k {
      FlowMatchCoversItself(key, k, OUT_PORT);
    }
    TwoActionsSteer(ModVlan(key, vlan).actions, vlan, OVS_OUTPUT_ACTION_MAX_LEN);
  }
}
