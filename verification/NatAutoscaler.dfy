/** Sizing a NAT gateway: internal/controllers/natgatewayautoscaler_controller.go. */
module NatAutoscaler {
  import opened Core
  import opened NatAllocation
  import opened Sorting

  /** Go's integer division, which truncates toward zero. */
  function TruncDiv(a: int, b: int): int
    requires b > 0
  {
    if a >= 0 then a / b else -((-a) / b)
  }

  function CeilDiv(a: nat, b: nat): nat
    requires b > 0
  {
    (a + b - 1) / b
  }

  function Unclamped(slots: nat, current: nat, requests: nat): int
    requires slots > 0
  {
    current - TruncDiv(slots * current - requests, slots)
  }

  function Clamp(min: Option<int>, max: Option<int>, n: int): int {
    var raised := if min.Some? then Max(min.value, n) else n;
    if max.Some? then Min(max.value, raised) else raised
  }

  /** determineDesiredNumberOfIPs; `ports` must leave at least one slot per IP, or Go divides by zero. */
  function Desired(ports: nat, min: Option<int>, max: Option<int>, current: nat, requests: nat): int
    requires 0 < ports <= NO_OF_EPHEMERAL_PORTS
  {
    Clamp(min, max, Unclamped(SlotsPerIP(ports), current, requests))
  }

  lemma SomeSlots(ports: nat)
    requires 0 < ports <= NO_OF_EPHEMERAL_PORTS
    ensures SlotsPerIP(ports) > 0
  {
    Quotient(NO_OF_EPHEMERAL_PORTS, ports, 0);
  }

  lemma MulDist(a: int, b: int, c: int)
    ensures (a - b) * c == a * c - b * c
    ensures (a + b) * c == a * c + b * c
  {
  }

  lemma MulPositive(a: int, c: nat)
    requires a >= 0
    ensures a * c >= 0
  {
  }

  lemma MulLess(a: int, b: int, c: nat)
    requires a < b
    ensures a * c + c <= b * c
  {
    MulDist(b - 1, a, c);
    MulDist(b, 1, c);
    MulPositive(b - 1 - a, c);
  }

  lemma DivUnique(a: int, b: nat, q: int, r: int)
    requires b > 0 && a == q * b + r && 0 <= r < b
    ensures a / b == q
  {
    var q', r' := a / b, a % b;
    assert a == q' * b + r';
    if q' < q {
      MulLess(q', q, b);
    } else if q < q' {
      MulLess(q, q', b);
    }
  }

  /** The unclamped target rounds up while capacity suffices, and down while it does not. */
  lemma UnclampedIs(slots: nat, current: nat, requests: nat)
    requires slots > 0
    ensures Unclamped(slots, current, requests)
         == if slots * current >= requests then CeilDiv(requests, slots) else requests / slots
  {
    var d := slots * current - requests;
    if d >= 0 {
      // floor((current * slots - requests) / slots) == current - ceil(requests / slots)
      var c := CeilDiv(requests, slots);
      var r := (requests + slots - 1) % slots;
      assert requests + slots - 1 == c * slots + r;
      MulDist(current, c, slots);
      DivUnique(d, slots, current - c, slots - 1 - r);
    } else {
      var q, r := requests / slots, requests % slots;
      assert requests == q * slots + r;
      MulDist(q, current, slots);
      DivUnique(-d, slots, q - current, r);
    }
  }

  lemma CeilIs(a: nat, b: nat)
    requires b > 0
    ensures CeilDiv(a, b) * b - b < a <= CeilDiv(a, b) * b
    ensures CeilDiv(a, b) == if a % b == 0 then a / b else a / b + 1
  {
    var q, r := a / b, a % b;
    assert a == q * b + r;
    MulDist(q, 1, b);
    if r == 0 {
      DivUnique(a + b - 1, b, q, b - 1);
    } else {
      DivUnique(a + b - 1, b, q + 1, r - 1);
    }
  }

  /**
   * Capacity at the target is within one IP of the requests. It covers them exactly when it already did
   * before or the requests fill whole IPs: growing rounds down and may stop one IP short.
   */
  lemma WithinOneIP(slots: nat, current: nat, requests: nat)
    requires slots > 0
    ensures var n := Unclamped(slots, current, requests);
            && n >= 0 && requests < n * slots + slots && n * slots < requests + slots
            && (n * slots >= requests <==> slots * current >= requests || requests % slots == 0)
  {
    UnclampedIs(slots, current, requests);
    CeilIs(requests, slots);
    assert requests == (requests / slots) * slots + requests % slots;
  }

  /** No oscillation: with unchanged requests one step reaches a fixed point, clamped or not. */
  lemma FixedPoint(ports: nat, min: Option<int>, max: Option<int>, current: nat, requests: nat)
    requires 0 < ports <= NO_OF_EPHEMERAL_PORTS
    requires Desired(ports, min, max, current, requests) >= 0
    ensures var n := Desired(ports, min, max, current, requests);
            Desired(ports, min, max, n, requests) == n
  {
    SomeSlots(ports);
    var slots := SlotsPerIP(ports);
    var n := Desired(ports, min, max, current, requests);
    FixedPointOf(slots, current, requests, n, min, max);
  }

  lemma FixedPointOf(slots: nat, current: nat, requests: nat, n: nat, min: Option<int>, max: Option<int>)
    requires slots > 0 && n == Clamp(min, max, Unclamped(slots, current, requests))
    ensures Clamp(min, max, Unclamped(slots, n, requests)) == n
  {
    hide Unclamped;
    UnclampedIs(slots, current, requests);
    UnclampedAt(slots, n, requests);
    CeilIs(requests, slots);
  }

  /** The target, by comparing the number of IPs itself. */
  lemma UnclampedAt(slots: nat, n: nat, requests: nat)
    requires slots > 0
    ensures Unclamped(slots, n, requests) == if n >= CeilDiv(requests, slots) then CeilDiv(requests, slots) else requests / slots
  {
    hide Unclamped;
    UnclampedIs(slots, n, requests);
    CeilIs(requests, slots);
    hide CeilDiv;
    var hi := CeilDiv(requests, slots);
    if n >= hi {
      MulMono(hi, n, slots);
    } else {
      MulLess(n, hi, slots);
    }
  }

  /**
   * The limits: never above the maximum; not below the minimum unless the maximum is; and within them the
   * unlimited target.
   */
  lemma DesiredWithin(ports: nat, min: Option<int>, max: Option<int>, current: nat, requests: nat)
    requires 0 < ports <= NO_OF_EPHEMERAL_PORTS
    ensures var n, target := Desired(ports, min, max, current, requests), Unclamped(NO_OF_EPHEMERAL_PORTS / ports, current, requests);
            && (max.Some? ==> n <= max.value)
            && (min.Some? && (max.Some? ==> min.value <= max.value) ==> n >= min.value)
            && (min.Some? && max.Some? && min.value > max.value ==> n == max.value)
            && ((min.Some? ==> min.value <= target) && (max.Some? ==> target <= max.value) ==> n == target)
            && (n != target ==> (min.Some? && n == min.value) || (max.Some? && n == max.value))
  {
    SomeSlots(ports);
    hide Unclamped;
  }

  /** A negative maximum, and nothing else, makes the target negative. */
  lemma DesiredNonNegative(ports: nat, min: Option<int>, max: Option<int>, current: nat, requests: nat)
    requires 0 < ports <= NO_OF_EPHEMERAL_PORTS
    ensures Desired(ports, min, max, current, requests) >= 0 <==> (max.Some? ==> max.value >= 0)
  {
    SomeSlots(ports);
    WithinOneIP(SlotsPerIP(ports), current, requests);
  }

  // ---- Changing the list of IPs ----

  datatype GatewayIP = GatewayIP(name: Name, ip: IP)

  ghost predicate DistinctNames(ips: seq<GatewayIP>) {
    forall i, j | 0 <= i < j < |ips| :: ips[i].name != ips[j].name
  }

  function NamesOf(ips: seq<GatewayIP>): set<Name> {
    set i | 0 <= i < |ips| :: ips[i].name
  }

  /** The drawn names that are not in use yet. */
  function Usable(existing: seq<GatewayIP>, draws: seq<Name>): set<Name> {
    set n | n in draws && n !in NamesOf(existing)
  }

  /**
   * generateNewNATGatewayIPs: `draws` is the stream of random names; None stands for a stream without
   * enough different new names.
   */
  method GenerateIPs(existing: seq<GatewayIP>, count: nat, draws: seq<Name>) returns (r: Option<seq<GatewayIP>>)
    ensures r.None? <==> |Usable(existing, draws)| < count
    ensures r.Some? ==> |r.value| == count && DistinctNames(r.value)
    ensures r.Some? ==> forall i | 0 <= i < |r.value| :: r.value[i].ip == NoIP && r.value[i].name in Usable(existing, draws)
  {
    var names: set<Name>, d := {}, 0;
    while |names| != count
      invariant d <= |draws| && |names| <= count && names == Usable(existing, draws[..d])
      decreases |draws| - d
    {
      if d >= |draws| {
        assert draws[..d] == draws;
        return None;
      }
      assert draws[..d + 1] == draws[..d] + [draws[d]];
      if draws[d] !in NamesOf(existing) {
        names := names + {draws[d]};
      }
      d := d + 1;
    }
    assert forall n | n in draws[..d] :: n in draws;
    CardSubset(names, Usable(existing, draws));
    var list := Listed(names);
    return Some(seq(count, i requires 0 <= i < count => GatewayIP(list[i], NoIP)));
  }

  /** manageNATGatewayIPs: grow at the end with new names, or drop the newest IPs from the end. A negative target would panic. */
  method ManageIPs(ports: nat, min: Option<int>, max: Option<int>, ips: seq<GatewayIP>, requests: nat, draws: seq<Name>)
    returns (r: Option<seq<GatewayIP>>)
    requires 0 < ports <= NO_OF_EPHEMERAL_PORTS && Desired(ports, min, max, |ips|, requests) >= 0
    requires DistinctNames(ips)
    ensures r.None? <==> |Usable(ips, draws)| < Desired(ports, min, max, |ips|, requests) - |ips|
    ensures r.Some? ==> |r.value| == Desired(ports, min, max, |ips|, requests) == Desired(ports, min, max, |r.value|, requests)
    ensures r.Some? ==> DistinctNames(r.value) && forall i | 0 <= i < Min(|ips|, |r.value|) :: r.value[i] == ips[i]
    ensures r.Some? ==> forall i | |ips| <= i < |r.value| :: r.value[i].ip == NoIP
  {
    hide Desired;
    hide Usable;
    var desired := Desired(ports, min, max, |ips|, requests);
    FixedPoint(ports, min, max, |ips|, requests);
    if |ips| < desired {
      var added := GenerateIPs(ips, desired - |ips|, draws);
      if added.None? {
        return None;
      }
      UsableNew(ips, draws);
      return Some(ips + added.value);
    } else if |ips| > desired {
      return Some(ips[..desired]);
    }
    return Some(ips);
  }

  lemma UsableNew(ips: seq<GatewayIP>, draws: seq<Name>)
    ensures forall n, i | n in Usable(ips, draws) && 0 <= i < |ips| :: ips[i].name != n
  {
  }
}
