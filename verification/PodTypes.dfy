/** The parts of a pod's spec that admission, CPU assignment and eviction share. */
module PodTypes {
  import opened Wrappers
  import opened Quantity

  datatype Qos = BestEffort | Burstable | Guaranteed

  datatype Protocol = TCP | UDP | SCTP

  datatype Port = Port(hostPort: Option<nat>, protocol: Protocol)

  datatype Container = Container(requests: map<string, Quantity>, limits: map<string, Quantity>, ports: seq<Port>)

  function RequestOf(c: Container, name: string): nat {
    if name in c.requests && c.requests[name].value > 0 then c.requests[name].value else 0
  }

  function Total(cs: seq<Container>, name: string): nat {
    if cs == [] then 0 else Total(cs[..|cs| - 1], name) + RequestOf(cs[|cs| - 1], name)
  }

  lemma {:induction false} TotalConcat(a: seq<Container>, b: seq<Container>, name: string)
    ensures Total(a + b, name) == Total(a, name) + Total(b, name)
    decreases |b|
  {
    if b == [] {
      assert a + b == a;
    } else {
      TotalConcat(a, b[..|b| - 1], name);
      assert (a + b)[..|a + b| - 1] == a + b[..|b| - 1];
    }
  }

  /** A container adds its positive request to any total; one that is missing, zero or negative adds nothing. */
  lemma RequestCounts(cs: seq<Container>, c: Container, name: string)
    ensures name in c.requests && c.requests[name].value >= 0 ==>
              Total(cs + [c], name) == Total(cs, name) + c.requests[name].value
    ensures name !in c.requests || c.requests[name].value <= 0 ==> Total(cs + [c], name) == Total(cs, name)
  {
    assert (cs + [c])[..|cs|] == cs;
  }
}
