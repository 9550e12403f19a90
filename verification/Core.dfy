/** Values shared by the NAT and the address-allocation models. */
module Core {

  datatype Option<+T> = None | Some(value: T)

  datatype IPFamily = IPv4 | IPv6

  /** A `netip.Addr`; `NoIP` is the zero value, which is not a valid address. */
  datatype IP = NoIP | IP(family: IPFamily, bits: nat)

  /**
   * Strings that are only ever compared for equality (names, UIDs, label keys and values) are numbers;
   * the empty string is 0.
   */
  type Name = nat
  type UID = nat

  const EMPTY: nat := 0

  predicate HasFamily(ip: IP, family: IPFamily) {
    ip.IP? && ip.family == family
  }

  /** Address order: bit length first (invalid, v4, v6), then the numeric value. */
  predicate IPLess(a: IP, b: IP) {
    match (a, b)
    case (NoIP, NoIP) => false
    case (NoIP, IP(_, _)) => true
    case (IP(_, _), NoIP) => false
    case (IP(f, x), IP(g, y)) => (f.IPv4? && g.IPv6?) || (f == g && x < y)
  }

  function Min(a: int, b: int): int {
    if a <= b then a else b
  }

  function Max(a: int, b: int): int {
    if a >= b then a else b
  }

  /** The numbers below `n`; there are `n` of them. */
  ghost function Below(n: nat): (r: set<nat>)
    ensures forall i: nat :: i in r <==> i < n
    ensures |r| == n
  {
    if n == 0 then {} else Below(n - 1) + {n - 1}
  }

  lemma CardSubset<T>(a: set<T>, b: set<T>)
    requires a <= b
    ensures |a| <= |b|
    ensures |a| == |b| ==> a == b
  {
    assert b == a + (b - a);
    assert |b| == |a| + |b - a|;
  }

  lemma UpperBound(xs: set<nat>) returns (b: nat)
    ensures forall x | x in xs :: x < b
  {
    if xs == {} {
      b := 0;
    } else {
      var x :| x in xs;
      var c := UpperBound(xs - {x});
      b := c + x + 1;
      assert forall y | y in xs :: y == x || y in xs - {x};
    }
  }
}
