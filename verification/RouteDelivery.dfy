/** What the network delivers is what the codec makes of it. */
module RouteDelivery {
  import opened RouteUpdateCodec
  import opened RouterNetwork

  /** An update that is written and read back is one that the network may deliver for it. */
  lemma DecodedUpdateMayArrive(net: Network, p: Packet, now: nat)
    requires p in net.sent && p.to in net.routers && AllEncodable(p.update) && SizesFit(p.update)
    ensures var seen := Deserialize(Serialize(p.update));
      seen.Some? && Enabled(net, Deliver(p, seen.value, now))
  {
    RoundTripQuantises(p.update, []);
    assert Serialize(p.update) + [] == Serialize(p.update);
    forall i | 0 <= i < |p.update.updates|
      ensures QuantisedUpdate(p.update).updates[i].peerId == p.update.updates[i].peerId
      ensures QuantisedUpdate(p.update).updates[i].hopCount == p.update.updates[i].hopCount
    {
      QuantisationLoss(p.update.updates[i]);
    }
  }
}
