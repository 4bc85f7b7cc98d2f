/** The E2 setup handshake: src/agent/gen_msg_agent.c, src/ric/generate_setup_response.c,
    src/ric/e2_node.c. A failed assertion of the source is `Failed`. */
module SetupHandshake {
  import opened E2apTypes

  datatype NodeId = NodeId(nbId: nat)

  /** What a service model of the agent says about itself. */
  datatype ServiceModel = ServiceModel(id: nat, rev: nat, oid: string, defn: string)

  /** The agent's registry is traversed in the order of its keys. */
  datatype SmEntry = SmEntry(key: nat, sm: ServiceModel)

  datatype RanFunction = RanFunction(id: nat, rev: nat, oid: string, defn: string)

  datatype Component = Component(interfaceType: nat, compId: nat, config: string)

  datatype SetupRequest = SetupRequest(transId: nat, node: NodeId, ranFuncs: seq<RanFunction>, comps: seq<Component>)

  datatype AckOutcome = AckSuccess | AckFailure

  datatype ComponentAck = ComponentAck(interfaceType: nat, compId: nat, outcome: AckOutcome)

  datatype SetupResponse = SetupResponse(transId: nat, ricId: nat, accepted: seq<nat>, acks: seq<ComponentAck>)

  datatype E2Node = E2Node(id: NodeId, accepted: seq<nat>)

  datatype Result<+T> = Ok(value: T) | Failed

  const NEAR_RIC_ID := 25
  const MAX_COMPONENTS := 1024

  // ---- Agent ----

  /** Keys and models of the registry agree. */
  predicate Registered(reg: seq<SmEntry>) {
    forall e :: e in reg ==> e.sm.id == e.key
  }

  function RanFunctionOf(e: SmEntry): RanFunction {
    RanFunction(e.sm.id, e.sm.rev, e.sm.oid, e.sm.defn)
  }

  /** The request lists the registry once, in its order; an empty registry or one whose keys and
      models disagree trips an assertion. */
  method GenSetupRequest(transId: nat, node: NodeId, reg: seq<SmEntry>, comps: seq<Component>)
    returns (r: Result<SetupRequest>)
    ensures r.Ok? <==> reg != [] && Registered(reg)
    ensures r.Ok? <==> |reg| > 0 && forall i :: 0 <= i < |reg| ==> reg[i].sm.id == reg[i].key
    ensures r.Ok? ==> r.value.transId == transId % 0x100 && r.value.node == node && r.value.comps == comps
    ensures r.Ok? ==> |r.value.ranFuncs| == |reg|
    ensures r.Ok? ==> forall i :: 0 <= i < |reg| ==>
              && r.value.ranFuncs[i].id == reg[i].sm.id && r.value.ranFuncs[i].rev == reg[i].sm.rev
              && r.value.ranFuncs[i].oid == reg[i].sm.oid && r.value.ranFuncs[i].defn == reg[i].sm.defn
  {
    if |reg| == 0 {
      return Failed;
    }
    var ranFunc := new RanFunction[|reg|](_ => RanFunction(0, 0, "", ""));
    for i := 0 to |reg|
      invariant Registered(reg[..i])
      invariant forall j :: 0 <= j < i ==> ranFunc[j] == RanFunctionOf(reg[j])
    {
      if reg[i].sm.id != reg[i].key {
        assert reg[i] in reg;
        return Failed;
      }
      var sm := reg[i].sm;
      ranFunc[i] := RanFunction(sm.id, sm.rev, sm.oid, sm.defn);
      assert reg[..i + 1] == reg[..i] + [reg[i]];
    }
    assert reg[..|reg|] == reg;
    r := Ok(SetupRequest(transId % U8, node, ranFunc[..], comps));
  }

  // ---- Near-RT RIC ----

  /** find_if over the RIC's own service models. */
  method Knows(known: seq<nat>, id: nat) returns (found: bool)
    ensures found <==> id in known
  {
    for i := 0 to |known|
      invariant id !in known[..i]
    {
      if known[i] == id {
        return true;
      }
      assert known[..i + 1] == known[..i] + [known[i]];
    }
    assert known[..|known|] == known;
    found := false;
  }

  /** Every function is accepted, in request order, or the RIC stops at the first unknown one. */
  method AcceptRanFunc(known: seq<nat>, ranFuncs: seq<RanFunction>) returns (r: Result<seq<nat>>)
    ensures r.Ok? <==> forall i :: 0 <= i < |ranFuncs| ==> ranFuncs[i].id in known
    ensures r.Ok? ==> |r.value| == |ranFuncs| && forall i :: 0 <= i < |ranFuncs| ==> r.value[i] == ranFuncs[i].id
  {
    var acc := new nat[|ranFuncs|](_ => 0);
    for i := 0 to |ranFuncs|
      invariant forall j :: 0 <= j < i ==> ranFuncs[j].id in known && acc[j] == ranFuncs[j].id
    {
      var found := Knows(known, ranFuncs[i].id);
      if !found {
        return Failed;
      }
      acc[i] := ranFuncs[i].id;
    }
    r := Ok(acc[..]);
  }

  /** What the RIC accepts: known functions only, and 1 to 1024 components. */
  predicate Acceptable(known: seq<nat>, req: SetupRequest) {
    && (forall i :: 0 <= i < |req.ranFuncs| ==> req.ranFuncs[i].id in known)
    && 0 < |req.comps| <= MAX_COMPONENTS
  }

  method GenerateSetupResponse(known: seq<nat>, req: SetupRequest) returns (r: Result<SetupResponse>)
    ensures r.Ok? <==> Acceptable(known, req)
    ensures r.Ok? <==> && (forall f :: f in req.ranFuncs ==> f.id in known)
                       && 1 <= |req.comps| <= 1024
    ensures r.Ok? ==> r.value.transId == req.transId && r.value.ricId == 25
    ensures r.Ok? ==> |r.value.accepted| == |req.ranFuncs|
    ensures r.Ok? ==> forall i :: 0 <= i < |req.ranFuncs| ==> r.value.accepted[i] == req.ranFuncs[i].id
    ensures r.Ok? ==> |r.value.acks| == |req.comps|
    ensures r.Ok? ==> forall i :: 0 <= i < |req.comps| ==>
              && r.value.acks[i].interfaceType == req.comps[i].interfaceType
              && r.value.acks[i].compId == req.comps[i].compId && r.value.acks[i].outcome == AckSuccess
  {
    var acc := AcceptRanFunc(known, req.ranFuncs);
    if acc.Failed? || |req.comps| == 0 || |req.comps| > MAX_COMPONENTS {
      return Failed;
    }
    var ack := new ComponentAck[|req.comps|](_ => ComponentAck(0, 0, AckFailure));
    for i := 0 to |req.comps|
      invariant forall j :: 0 <= j < i ==>
                  ack[j] == ComponentAck(req.comps[j].interfaceType, req.comps[j].compId, AckSuccess)
    {
      ack[i] := ComponentAck(req.comps[i].interfaceType, req.comps[i].compId, AckSuccess);
    }
    r := Ok(SetupResponse(req.transId, NEAR_RIC_ID, acc.value, ack[..]));
  }

  /** The RIC's record of a node; a node without functions keeps a null list. */
  method InitE2Node(id: NodeId, accepted: seq<nat>) returns (n: E2Node)
    ensures n == E2Node(id, accepted)
  {
    n := E2Node(id, []);
    if |accepted| > 0 {
      n := n.(accepted := accepted);
    }
  }

  /** The copy handed to the users of the node list. */
  method CpE2Node(src: E2Node) returns (dst: E2Node)
    ensures dst == src
  {
    var acc := new nat[|src.accepted|](_ => 0);
    for i := 0 to |src.accepted|
      invariant forall j :: 0 <= j < i ==> acc[j] == src.accepted[j]
    {
      acc[i] := src.accepted[i];
    }
    dst := E2Node(src.id, acc[..]);
  }

  // ---- Both ends ----

  /** The registry's identifiers in its order. */
  function KeysOf(reg: seq<SmEntry>): (ids: seq<nat>)
    ensures |ids| == |reg| && forall i :: 0 <= i < |reg| ==> ids[i] == reg[i].key
  {
    if reg == [] then [] else [reg[0].key] + KeysOf(reg[1..])
  }

  /** The handshake succeeds exactly for a non-empty, consistent registry of functions the RIC knows
      and 1 to 1024 components; then the node's stored list is the agent's registry in order, the
      transaction identifier is echoed and every component is acknowledged in order. */
  method Handshake(transId: nat, node: NodeId, reg: seq<SmEntry>, comps: seq<Component>, known: seq<nat>)
    returns (r: Result<(SetupResponse, E2Node)>)
    ensures r.Ok? <==> && reg != [] && Registered(reg) && (forall e :: e in reg ==> e.key in known)
                       && 1 <= |comps| <= 1024
    ensures r.Ok? ==> r.value.0.transId == transId % 0x100 && |r.value.0.acks| == |comps|
    ensures r.Ok? ==> forall i :: 0 <= i < |comps| ==>
              r.value.0.acks[i] == ComponentAck(comps[i].interfaceType, comps[i].compId, AckSuccess)
    ensures r.Ok? ==> r.value.1 == E2Node(node, KeysOf(reg)) && r.value.0.accepted == KeysOf(reg)
  {
    var req := GenSetupRequest(transId, node, reg, comps);
    if req.Failed? {
      return Failed;
    }
    var resp := GenerateSetupResponse(known, req.value);
    if resp.Failed? {
      if 0 < |comps| <= MAX_COMPONENTS {
        var i :| 0 <= i < |reg| && req.value.ranFuncs[i].id !in known;
        assert reg[i] in reg && reg[i].key !in known;
      }
      return Failed;
    }
    forall e | e in reg ensures e.key in known {
      var i :| 0 <= i < |reg| && reg[i] == e;
      assert req.value.ranFuncs[i].id == e.key;
    }
    forall i | 0 <= i < |reg| ensures resp.value.accepted[i] == KeysOf(reg)[i] {
      assert reg[i] in reg;
      assert req.value.ranFuncs[i] == RanFunctionOf(reg[i]);
    }
    var n := InitE2Node(req.value.node, resp.value.accepted);
    r := Ok((resp.value, n));
  }
}
