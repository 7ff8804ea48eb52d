/** The controller's mutable records: the probes and the targets they belong to. */
module ObsessNodes {
  import opened Common
  import opened ObsessTarget

  /** An address with its zone; an invalid address is `None`. Responders are compared without zones. */
  datatype Address = Address(ip: nat, zone: nat)

  predicate SameResponder(a: Address, b: Address) { a.ip == b.ip }

  /** A tracked probe. Only accepted, unresolved probes sit in the deadline heap, at `heapIndex`. */
  class Node {
    const key: ProbeKey
    const endpoint: Address
    const sentAt: int
    const timeout: int
    const target: TargetState
    const baseline: real
    const baselineCount: nat
    const threshold: Option<real>
    var accepted: bool
    var done: bool
    var good: bool
    var rtt: int
    var replyAt: int
    var early: Option<Reply>
    var heapIndex: int

    constructor (target: TargetState, endpoint: Address, p: Probe)
      ensures Value() == p.(accepted := false, done := false, good := false, rtt := 0, replyAt := 0, early := None)
      ensures this.target == target && this.endpoint == endpoint && key == p.key && heapIndex == -1
    {
      key, sentAt, timeout := p.key, p.sentAt, p.timeout;
      this.target, this.endpoint := target, endpoint;
      baseline, baselineCount, threshold := p.baseline, p.baselineCount, p.threshold;
      accepted, done, good, rtt, replyAt, early, heapIndex := false, false, false, 0, 0, None, -1;
    }

    function Deadline(): int { sentAt + timeout }

    function Value(): Probe
      reads this`accepted, this`done, this`good, this`rtt, this`replyAt, this`early
    {
      Probe(key, sentAt, timeout, accepted, done, good, rtt, replyAt, early, baseline, baselineCount, threshold)
    }
  }

  ghost function Values(nodes: seq<Node>): seq<Probe>
    reads nodes`accepted, nodes`done, nodes`good, nodes`rtt, nodes`replyAt, nodes`early
  {
    if nodes == [] then [] else Values(nodes[..|nodes| - 1]) + [nodes[|nodes| - 1].Value()]
  }

  lemma {:induction false} ValuesAt(nodes: seq<Node>)
    ensures |Values(nodes)| == |nodes|
    ensures forall i | 0 <= i < |nodes| :: Values(nodes)[i] == nodes[i].Value()
  {
    if nodes != [] {
      ValuesAt(nodes[..|nodes| - 1]);
    }
  }

  lemma {:induction false} ValuesTail(nodes: seq<Node>)
    requires nodes != []
    ensures Values(nodes) != [] && Values(nodes[1..]) == Values(nodes)[1..] && Values(nodes)[0] == nodes[0].Value()
  {
    ValuesAt(nodes);
    ValuesAt(nodes[1..]);
  }

  lemma ValuesOfNone()
    ensures Values([]) == []
  {
  }

  lemma ValuesAppend(nodes: seq<Node>, p: Node)
    ensures Values(nodes + [p]) == Values(nodes) + [p.Value()]
  {
    assert (nodes + [p])[..|nodes|] == nodes;
  }

  // A change to one probe shows at its own place only.
  lemma ValuesUpdated(nodes: seq<Node>, i: nat, before: seq<Probe>)
    requires i < |nodes| == |before| && forall j | 0 <= j < |nodes| && j != i :: nodes[j].Value() == before[j]
    ensures Values(nodes) == before[i := nodes[i].Value()]
  {
    ValuesAt(nodes);
  }

  /** A monitored target. Samples before `historyHead` have been dropped but not yet compacted away. */
  class TargetState {
    const id: int
    const policy: Policy
    var endpoint: Option<Address>
    var active: bool
    var reason: Option<Reason>
    var since: Option<int>
    var baseline: real
    var baselineCount: nat
    var threshold: Option<real>
    var healthySince: Option<int>
    var healthyThrough: Option<int>
    var lastBad: Option<int>
    var history: seq<Sample>
    var historyHead: nat
    var fifo: seq<Node>
    var trackingLimited: bool

    constructor (id: int, policy: Policy, endpoint: Option<Address>)
      ensures this.id == id && this.policy == policy && this.endpoint == endpoint
      ensures history == [] && historyHead == 0 && fifo == [] && Value() == Initial(policy)
    {
      this.id, this.policy, this.endpoint := id, policy, endpoint;
      active, reason, since, baseline, baselineCount, threshold := false, None, None, 0.0, 0, None;
      healthySince, healthyThrough, lastBad := None, None, None;
      history, historyHead, fifo, trackingLimited := [], 0, [], false;
    }

    ghost function Value(): Target
      requires historyHead <= |history|
      reads this, fifo`accepted, fifo`done, fifo`good, fifo`rtt, fifo`replyAt, fifo`early
    {
      Target(policy, active, reason, since, baseline, baselineCount, threshold,
             healthySince, healthyThrough, lastBad, history[historyHead..], Values(fifo), trackingLimited)
    }
  }
}
