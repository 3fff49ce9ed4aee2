/** The nonce manager of the encryption layer: nonces as bytes, a counter for outgoing nonces, and the
    in-place pruning that implements the window of module NonceWindow. */
module NonceManager {
  import opened Bounded
  import opened Endian
  import opened NonceWindow

  type Nonce = s: seq<u8> | |s| == 12 witness seq(12, _ => 0)

  /** The counter value inside a nonce; the last four bytes do not take part. */
  function ValueOf(nonce: Nonce): u64 {
    LittleBound(nonce[..8]);
    Powers();
    LittleValue(nonce[..8])
  }

  function NonceFor(value: u64, random: seq<u8>): Nonce
    requires |random| == 4
  {
    LittleBytes(value, 8) + random
  }

  lemma NonceRoundTrip(value: u64, random: seq<u8>)
    requires |random| == 4
    ensures ValueOf(NonceFor(value, random)) == value
    ensures NonceFor(value, random) == Low(value, 8) + random
  {
    Powers();
    LittleIsLow(value, 8);
    LittleRoundTrip(value, 8);
    assert NonceFor(value, random)[..8] == LittleBytes(value, 8);
  }

  lemma {:induction false} Least(s: set<u64>) returns (least: u64)
    requires s != {}
    ensures least in s && forall y | y in s :: least <= y
    decreases |s|
  {
    var x :| x in s;
    var others := s - {x};
    least := x;
    if others != {} {
      var z := Least(others);
      if z < x { least := z; }
    }
    forall y | y in s ensures least <= y {
      if y != x { assert y in others; }
    }
  }

  /** Erase from the front, in ascending order, while the front is below the cutoff. */
  method EraseBelow(values: set<u64>, cutoff: u64) returns (kept: set<u64>)
    ensures kept == set x | x in values && x >= cutoff
  {
    kept := values;
    while kept != {}
      invariant kept <= values
      invariant forall x | x in values && x >= cutoff :: x in kept
      decreases |kept|
    {
      ghost var least := Least(kept);
      var first :| first in kept && forall y | y in kept :: first <= y;
      if first >= cutoff { break; }
      kept := kept - {first};
    }
  }

  class NonceManager {
    var peers: map<PeerId, PeerNonces>
    var windowSize: u64
    var outgoing: u64

    function State(): Manager
      reads this
    {
      Manager(peers, windowSize)
    }

    constructor ()
      ensures State() == Manager(map[], 1000) && outgoing == 1
    {
      peers, windowSize, outgoing := map[], 1000, 1;
    }

    method SetWindowSize(size: u64)
      modifies this
      ensures State() == Step(old(State()), Resize(size)) && outgoing == old(outgoing)
    {
      windowSize := size;
    }

    /** `random` stands for the four bytes drawn from the secure generator. */
    method GenerateOutgoingNonce(random: seq<u8>) returns (nonce: Nonce)
      requires |random| == 4
      modifies this`outgoing
      ensures ValueOf(nonce) == old(outgoing) && nonce == Low(old(outgoing), 8) + random
      ensures outgoing == (old(outgoing) + 1) % TWO_TO_THE_64
    {
      nonce := NonceFor(outgoing, random);
      NonceRoundTrip(outgoing, random);
      outgoing := (outgoing + 1) % TWO_TO_THE_64;
    }

    method VerifyIncomingNonce(nonce: Nonce, peer: PeerId) returns (accepted: bool)
      modifies this`peers
      ensures accepted == Accepts(old(State()), peer, ValueOf(nonce))
      ensures State() == Step(old(State()), Incoming(peer, ValueOf(nonce)))
    {
      var value := ValueOf(nonce);
      if peer !in peers { peers := peers[peer := FRESH]; }
      var s := peers[peer];
      assert peers == old(peers)[peer := s];
      if value in s.recent { return false; }
      if (value + windowSize) % TWO_TO_THE_64 < s.highest { return false; }
      var highest := if s.highest < value then value else s.highest;
      var cutoff := if highest > windowSize then highest - windowSize else 0;
      var recent := EraseBelow(s.recent + {value}, cutoff);
      peers := peers[peer := PeerNonces(highest, recent)];
      assert peers == old(peers)[peer := Absorb(s, windowSize, value)];
      return true;
    }

    method ResetPeerNonces(peer: PeerId)
      modifies this`peers
      ensures State() == Step(old(State()), Reset(peer))
    {
      peers := peers - {peer};
    }
  }
}
