/** Port ranges per NAT IP: internal/natgateway/allocation.go. */
module NatAllocation {
  import opened Core
  import opened KeySlots

  const MIN_EPHEMERAL_PORT := 1024
  const MAX_EPHEMERAL_PORT := 65535
  const NO_OF_EPHEMERAL_PORTS := MAX_EPHEMERAL_PORT + 1 - MIN_EPHEMERAL_PORT

  /** Division by a positive number of ports; the operands are never negative. */
  function SlotsPerIP(ports: nat): nat
    requires ports > 0
  {
    NO_OF_EPHEMERAL_PORTS / ports
  }

  /** The number of slots of a gateway with these addresses. */
  function Total(ports: nat, ips: set<IP>): nat
    requires ports > 0
  {
    |ips| * SlotsPerIP(ports)
  }

  function FirstPort(ports: nat, slot: nat): nat {
    slot * ports + MIN_EPHEMERAL_PORT
  }

  /** 32-bit overflow cannot change the outcome of comparing this with an end port of at most 65535. */
  function EndPort(ports: nat, port: int): int {
    port + ports - 1
  }

  function SlotAt(ports: nat, port: int): int
    requires ports > 0
  {
    (port - MIN_EPHEMERAL_PORT) / ports
  }

  /** The range check rejects a one-port range, and no check of alignment is made. */
  function SlotForPorts(ports: nat, port: int, endPort: int): Option<nat>
    requires ports > 0
  {
    if port < MIN_EPHEMERAL_PORT || port >= endPort || endPort > MAX_EPHEMERAL_PORT then None
    else if EndPort(ports, port) != endPort then None
    else Some(SlotAt(ports, port))
  }

  /** A range that some slot of an IP hands out. */
  predicate IsSlotRange(ports: nat, port: int, endPort: int)
    requires ports > 0
  {
    && 0 <= SlotAt(ports, port) < SlotsPerIP(ports)
    && port == FirstPort(ports, SlotAt(ports, port))
    && endPort == EndPort(ports, port)
  }

  lemma MulMono(a: nat, b: nat, c: nat)
    requires a <= b
    ensures a * c <= b * c
  {
  }

  lemma MulSucc(a: nat, c: nat)
    ensures (a + 1) * c == a * c + c
  {
  }

  /** The quotient is the only `q` with `q * c <= x < q * c + c`. */
  lemma Quotient(x: nat, c: nat, q: nat)
    requires c > 0
    ensures q == x / c <==> q * c <= x < q * c + c
  {
    var r := x / c;
    assert x == r * c + x % c;
    if q < r {
      MulMono(q + 1, r, c);
      MulSucc(q, c);
    } else if r < q {
      MulMono(r + 1, q, c);
      MulSucc(r, c);
    }
  }

  /** Slot ranges lie in the ephemeral ports, and the slot is found again from its first port. */
  lemma SlotRange(ports: nat, slot: nat)
    requires ports > 0 && slot < SlotsPerIP(ports)
    ensures SlotAt(ports, FirstPort(ports, slot)) == slot
    ensures MIN_EPHEMERAL_PORT <= FirstPort(ports, slot)
    ensures FirstPort(ports, slot) <= EndPort(ports, FirstPort(ports, slot)) <= MAX_EPHEMERAL_PORT
    ensures IsSlotRange(ports, FirstPort(ports, slot), EndPort(ports, FirstPort(ports, slot)))
  {
    Quotient(slot * ports, ports, slot);
    Quotient(NO_OF_EPHEMERAL_PORTS, ports, SlotsPerIP(ports));
    MulMono(slot + 1, SlotsPerIP(ports), ports);
    MulSucc(slot, ports);
  }

  /** Two different slots of one IP never share a port. */
  lemma SlotRangesDisjoint(ports: nat, slot: nat, other: nat)
    requires ports > 0 && slot < other
    ensures EndPort(ports, FirstPort(ports, slot)) < FirstPort(ports, other)
  {
    MulMono(slot + 1, other, ports);
    MulSucc(slot, ports);
  }

  /**
   * The slots tile the ephemeral ports: the first range starts at the first port, each has as many ports as
   * an interface gets, the next one starts right after it, and there are as many slots as fit.
   */
  lemma SlotsTile(ports: nat, slot: nat)
    requires ports > 0
    ensures FirstPort(ports, 0) == 1024
    ensures EndPort(ports, FirstPort(ports, slot)) - FirstPort(ports, slot) + 1 == ports
    ensures FirstPort(ports, slot + 1) == EndPort(ports, FirstPort(ports, slot)) + 1
    ensures slot < SlotsPerIP(ports) <==> EndPort(ports, FirstPort(ports, slot)) <= 65535
  {
    MulSucc(slot, ports);
    Quotient(NO_OF_EPHEMERAL_PORTS, ports, SlotsPerIP(ports));
    if slot < SlotsPerIP(ports) {
      MulMono(slot + 1, SlotsPerIP(ports), ports);
    } else {
      MulMono(SlotsPerIP(ports), slot, ports);
    }
  }

  /** Reading back a slot's own range: recognised exactly when the range has at least two ports. */
  lemma SlotForOwnRange(ports: nat, slot: nat)
    requires ports > 0 && slot < SlotsPerIP(ports)
    ensures var port := FirstPort(ports, slot);
            SlotForPorts(ports, port, EndPort(ports, port)) == if ports >= 2 then Some(slot) else None
  {
    SlotRange(ports, slot);
  }

  /** What a recognised range's slot is bounded by: the range check alone keeps it below SlotsPerIP. */
  lemma RecognisedSlotInRange(ports: nat, port: int, endPort: int)
    requires ports > 0 && SlotForPorts(ports, port, endPort).Some?
    ensures SlotForPorts(ports, port, endPort).value < SlotsPerIP(ports)
  {
    var s := SlotAt(ports, port);
    var n := SlotsPerIP(ports);
    Quotient(port - MIN_EPHEMERAL_PORT, ports, s);
    Quotient(NO_OF_EPHEMERAL_PORTS, ports, n);
    MulSucc(s, ports);
    if n <= s {
      MulMono(n, s, ports);
    }
  }

  /**
   * A recognised range is one that a slot hands out if and only if it starts a whole number of slots above
   * the first port; any other one is taken for a slot and reaches into the range of the next.
   */
  lemma RecognisedIffAligned(ports: nat, port: int, endPort: int)
    requires ports > 0 && SlotForPorts(ports, port, endPort).Some?
    ensures IsSlotRange(ports, port, endPort) <==> (port - MIN_EPHEMERAL_PORT) % ports == 0
    ensures var slot := SlotForPorts(ports, port, endPort).value;
            !IsSlotRange(ports, port, endPort) ==> FirstPort(ports, slot) < port < FirstPort(ports, slot + 1) <= endPort
  {
    RecognisedSlotInRange(ports, port, endPort);
    var s := SlotAt(ports, port);
    assert port - MIN_EPHEMERAL_PORT == s * ports + (port - MIN_EPHEMERAL_PORT) % ports;
    MulSucc(s, ports);
  }

  /**
   * The failing family is not empty: with 64 ports per interface, 1034..1097 is taken for slot 0. That
   * stored tables hold slot ranges only has to come from the controller that writes them.
   */
  lemma UnalignedRangeIsRecognised()
    ensures SlotForPorts(64, 1034, 1097) == Some(0) && !IsSlotRange(64, 1034, 1097)
  {
    RecognisedIffAligned(64, 1034, 1097);
  }

  class AllocationManager {
    const ports: nat
    const slots: KeySlots<IP>

    ghost predicate Valid()
      reads slots
    {
      ports > 0 && slots.slotsPerKey == SlotsPerIP(ports) && slots.Valid()
    }

    ghost function Taken(): set<(IP, nat)>
      reads slots
    {
      slots.Taken()
    }

    ghost function IPs(): set<IP>
      reads slots
    {
      slots.slotsByKey.Keys
    }

    constructor (ports: nat, ips: seq<IP>)
      requires ports > 0
      ensures Valid() && fresh(slots) && this.ports == ports
      ensures IPs() == (set ip | ip in ips) && Taken() == {}
    {
      this.ports := ports;
      var s := new KeySlots<IP>(SlotsPerIP(ports), ips);
      slots := s;
    }

    lemma TakenBound()
      requires Valid()
      ensures |Taken()| <= Total(ports, IPs())
    {
      RoomIffBelowTotal(slots.slotsByKey, slots.slotsPerKey);
    }

    method HasIP(ip: IP) returns (has: bool)
      ensures has <==> ip in IPs()
    {
      has := ip in slots.slotsByKey;
    }

    method Used() returns (used: nat)
      requires Valid()
      ensures used == |Taken()|
    {
      used := slots.used;
    }

    method Use(ip: IP, port: int, endPort: int) returns (ok: bool)
      requires Valid()
      modifies slots
      ensures Valid() && IPs() == old(IPs())
      ensures var slot := SlotForPorts(ports, port, endPort);
              && ok == (slot.Some? && ip in IPs() && (ip, slot.value) !in old(Taken()))
              && Taken() == if ok then old(Taken()) + {(ip, slot.value)} else old(Taken())
    {
      var slot := SlotForPorts(ports, port, endPort);
      if slot.None? {
        return false;
      }
      RecognisedSlotInRange(ports, port, endPort);
      ok := slots.Use(ip, slot.value);
    }

    method UseNextFree() returns (ip: IP, port: int, endPort: int, ok: bool)
      requires Valid()
      modifies slots
      ensures Valid() && IPs() == old(IPs())
      ensures ok <==> |old(Taken())| < Total(ports, IPs())
      ensures !ok ==> Taken() == old(Taken())
      ensures ok ==>
        && ip in IPs() && IsSlotRange(ports, port, endPort)
        && (ip, SlotAt(ports, port)) !in old(Taken())
        && (forall s: nat | s < SlotAt(ports, port) :: (ip, s) in old(Taken()))
        && Taken() == old(Taken()) + {(ip, SlotAt(ports, port))}
    {
      var r := slots.UseNextFree();
      if r.None? {
        return NoIP, 0, 0, false;
      }
      SlotRange(ports, r.value.1);
      port := FirstPort(ports, r.value.1);
      return r.value.0, port, EndPort(ports, port), true;
    }
  }
}
