/** Network interfaces as the NAT gateway controller and the claim protocol see them. */
module NatInterface {
  import opened Core

  datatype ClaimRef = ClaimRef(name: Name, uid: UID)
  datatype NAT = NAT(family: IPFamily, claimRef: ClaimRef)

  datatype Interface = Interface(
    uid: UID,
    name: Name,
    nodeRef: Name,
    ips: seq<IP>,
    publicIPFamilies: seq<IPFamily>,
    nats: seq<NAT>,
    deleting: bool)

  /** GetNetworkInterfaceNATClaimer: the claim of the first entry of the family. */
  function Claimer(nats: seq<NAT>, family: IPFamily): Option<ClaimRef> {
    if nats == [] then None
    else if nats[0].family == family then Some(nats[0].claimRef)
    else Claimer(nats[1..], family)
  }

  lemma {:induction false} ClaimerNone(nats: seq<NAT>, family: IPFamily)
    ensures Claimer(nats, family).None? <==> forall i | 0 <= i < |nats| :: nats[i].family != family
    ensures Claimer(nats, family).Some? ==> NAT(family, Claimer(nats, family).value) in nats
  {
    if nats != [] {
      ClaimerNone(nats[1..], family);
      assert forall i | 1 <= i < |nats| :: nats[i] == nats[1..][i - 1];
    }
  }

  lemma {:induction false} ClaimerAppend(nats: seq<NAT>, family: IPFamily, claimRef: ClaimRef)
    requires Claimer(nats, family).None?
    ensures Claimer(nats + [NAT(family, claimRef)], family) == Some(claimRef)
  {
    if nats != [] {
      ClaimerAppend(nats[1..], family, claimRef);
      assert (nats + [NAT(family, claimRef)])[1..] == nats[1..] + [NAT(family, claimRef)];
    }
  }

  /** The first address of the family, or the invalid address. */
  function FamilyIP(ips: seq<IP>, family: IPFamily): IP {
    if ips == [] then NoIP
    else if HasFamily(ips[0], family) then ips[0]
    else FamilyIP(ips[1..], family)
  }
}
