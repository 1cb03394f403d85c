/**
 * Stateless retry tokens: minting, verifying, and exactly which tokens are
 * accepted. The keyed signature is any function that gives 16 bytes.
 */
module Retry {
  import opened Bytes
  import opened Integers
  import opened Transport

  type Sign = seq<Byte> -> seq<Byte>

  const MAGIC: seq<Byte> := [0x71, 0x66, 0x74, 0x70, 0x31]
  const TS_LEN: nat := 8
  const HMAC_LEN: nat := 16
  const TOKEN_LIFETIME_SECS: nat := 60

  ghost predicate Signs(sign: Sign) {
    forall data :: |sign(data)| == HMAC_LEN
  }

  predicate ValidPeer(peer: SocketAddr) {
    (|peer.octets| == 4 || |peer.octets| == 16) && peer.port < Range(2)
  }

  /** What the token commits to after its timestamp. The address carries no label of its family. */
  function Claim(peer: SocketAddr, dcid: seq<Byte>): seq<Byte> {
    peer.octets + BigEndian(peer.port, 2) + [|dcid| % 256] + dcid
  }

  function Payload(peer: SocketAddr, dcid: seq<Byte>, now: nat): seq<Byte> {
    MAGIC + BigEndian(now, TS_LEN) + Claim(peer, dcid)
  }

  function Mint(sign: Sign, peer: SocketAddr, dcid: seq<Byte>, now: nat): Option<seq<Byte>> {
    if 8 <= |dcid| <= 20 then Some(Payload(peer, dcid, now) + sign(Payload(peer, dcid, now))) else None
  }

  /** Clock differences saturate at zero, so a token may also come from the near future. */
  predicate InWindow(minted: nat, now: nat) {
    var age := if now >= minted then now - minted else 0;
    var skew := if minted >= now then minted - now else 0;
    age <= TOKEN_LIFETIME_SECS && skew <= TOKEN_LIFETIME_SECS
  }

  /** Read the claim as one made by `peer`. */
  function ReadClaim(peer: SocketAddr, cursor: seq<Byte>): Option<seq<Byte>> {
    var ip := |peer.octets|;
    if |cursor| < ip + 3 then None
    else if cursor[..ip] != peer.octets then None
    else if FromBigEndian(cursor[ip..ip + 2]) != peer.port then None
    else
      var len, dcid := cursor[ip + 2], cursor[ip + 3..];
      if |dcid| != len || !(8 <= len <= 20) then None else Some(dcid)
  }

  function Verify(sign: Sign, peer: SocketAddr, token: seq<Byte>, now: nat): Option<seq<Byte>> {
    if |token| < |MAGIC| + TS_LEN + HMAC_LEN + 3 then None
    else if token[..|MAGIC|] != MAGIC then None
    else
      var split := |token| - HMAC_LEN;
      var payload, tag := token[..split], token[split..];
      if tag != sign(payload) then None
      else if !InWindow(FromBigEndian(payload[|MAGIC|..|MAGIC| + TS_LEN]), now) then None
      else ReadClaim(peer, payload[|MAGIC| + TS_LEN..])
  }

  // ---- the exact acceptance set -----------------------------------------

  lemma SmallRemainder(n: nat, m: nat)
    requires n < m
    ensures n % m == n
  {
  }

  lemma ClaimReads(peer: SocketAddr, cursor: seq<Byte>, dcid: seq<Byte>)
    requires ValidPeer(peer)
    ensures ReadClaim(peer, cursor) == Some(dcid) <==> 8 <= |dcid| <= 20 && cursor == Claim(peer, dcid)
  {
    hide BigEndian, FromBigEndian, Range;
    var ip := |peer.octets|;
    BigEndianReads(peer.port, 2);
    SmallRemainder(peer.port, Range(2));
    var whole := Claim(peer, dcid);
    assert whole[..ip] == peer.octets && whole[ip..ip + 2] == BigEndian(peer.port, 2) && whole[ip + 3..] == dcid;
    if ReadClaim(peer, cursor) == Some(dcid) {
      BigEndianWrites(cursor[ip..ip + 2]);
      assert cursor == cursor[..ip] + cursor[ip..ip + 2] + [cursor[ip + 2]] + cursor[ip + 3..];
    }
  }

  /** A token cut at its fixed places. */
  lemma Layout(sign: Sign, peer: SocketAddr, dcid: seq<Byte>, ts: nat)
    requires Signs(sign) && ValidPeer(peer) && 8 <= |dcid| <= 20 && ts < Range(TS_LEN)
    ensures var token := Mint(sign, peer, dcid, ts).value;
            && |token| >= |MAGIC| + TS_LEN + HMAC_LEN + 3
            && token[..|MAGIC|] == MAGIC
            && token[..|token| - HMAC_LEN] == Payload(peer, dcid, ts)
            && token[|token| - HMAC_LEN..] == sign(Payload(peer, dcid, ts))
            && FromBigEndian(Payload(peer, dcid, ts)[|MAGIC|..|MAGIC| + TS_LEN]) == ts
            && Payload(peer, dcid, ts)[|MAGIC| + TS_LEN..] == Claim(peer, dcid)
  {
    var p := Payload(peer, dcid, ts);
    var token := Mint(sign, peer, dcid, ts).value;
    BigEndianReads(ts, TS_LEN);
    assert p[|MAGIC|..|MAGIC| + TS_LEN] == BigEndian(ts, TS_LEN);
    assert token[..|token| - HMAC_LEN] == p;
    assert token[..|MAGIC|] == p[..|MAGIC|];
  }

  /** `verify` accepts exactly the tokens `mint` makes for this peer at a moment within the window. */
  lemma AcceptsExactlyMinted(sign: Sign, peer: SocketAddr, token: seq<Byte>, now: nat, dcid: seq<Byte>)
    requires Signs(sign) && ValidPeer(peer)
    ensures Verify(sign, peer, token, now) == Some(dcid)
       <==> exists ts: nat :: ts < Range(TS_LEN) && InWindow(ts, now) && Mint(sign, peer, dcid, ts) == Some(token)
  {
    if Verify(sign, peer, token, now) == Some(dcid) {
      var split := |token| - HMAC_LEN;
      var payload := token[..split];
      var stamp := payload[|MAGIC|..|MAGIC| + TS_LEN];
      BigEndianWrites(stamp);
      ClaimReads(peer, payload[|MAGIC| + TS_LEN..], dcid);
      assert payload[..|MAGIC|] == MAGIC;
      assert payload == payload[..|MAGIC|] + stamp + payload[|MAGIC| + TS_LEN..];
      assert token == payload + token[split..];
      assert Mint(sign, peer, dcid, FromBigEndian(stamp)) == Some(token);
    }
    if ts: nat :| ts < Range(TS_LEN) && InWindow(ts, now) && Mint(sign, peer, dcid, ts) == Some(token) {
      Layout(sign, peer, dcid, ts);
      ClaimReads(peer, Claim(peer, dcid), dcid);
    }
  }

  /** What any peer gets from a minted token: the claim read as its own, within the window. */
  lemma VerifyMinted(sign: Sign, peer: SocketAddr, dcid: seq<Byte>, ts: nat, other: SocketAddr, now: nat)
    requires Signs(sign) && ValidPeer(peer) && 8 <= |dcid| <= 20 && ts < Range(TS_LEN)
    ensures Verify(sign, other, Mint(sign, peer, dcid, ts).value, now)
         == if InWindow(ts, now) then ReadClaim(other, Claim(peer, dcid)) else None
  {
    Layout(sign, peer, dcid, ts);
  }

  /**
   * Within one address family, a minted token gives back the DCID to the same address and port, in
   * time, and to nobody else.
   */
  lemma SameFamilyAcceptance(sign: Sign, peer: SocketAddr, dcid: seq<Byte>, ts: nat, other: SocketAddr, now: nat)
    requires Signs(sign) && ValidPeer(peer) && ValidPeer(other) && |peer.octets| == |other.octets|
    requires ts < Range(TS_LEN)
    ensures Mint(sign, peer, dcid, ts).Some? <==> 8 <= |dcid| <= 20
    ensures Mint(sign, peer, dcid, ts).Some? ==>
              var accepted := Verify(sign, other, Mint(sign, peer, dcid, ts).value, now);
              accepted == if other == peer && -60 <= now - ts <= 60 then Some(dcid) else None
  {
    if Mint(sign, peer, dcid, ts).Some? {
      VerifyMinted(sign, peer, dcid, ts, other, now);
      ClaimReads(peer, Claim(peer, dcid), dcid);
      var ip, whole := |peer.octets|, Claim(peer, dcid);
      assert whole[..ip] == peer.octets && whole[ip..ip + 2] == BigEndian(peer.port, 2);
      BigEndianReads(peer.port, 2);
    }
  }

  // ---- across address families ------------------------------------------

  /**
   * The claim's bytes have a second reading, as one made by a peer of the
   * other family: the length byte that peer would look at says how many bytes
   * follow it. For an IPv4 peer it is a byte of the DCID, for an IPv6 peer
   * one of the address.
   */
  predicate ReadsTwice(peer: SocketAddr, dcid: seq<Byte>)
    requires ValidPeer(peer)
  {
    if |peer.octets| == 4 then |dcid| == 20 && dcid[11] == 8
    else |dcid| == 8 && peer.octets[6] == 20
  }

  /** The peer of the other family that would read this claim as its own. */
  function OtherReader(peer: SocketAddr, dcid: seq<Byte>): SocketAddr
    requires ValidPeer(peer) && ReadsTwice(peer, dcid)
  {
    var whole, ip := Claim(peer, dcid), 20 - |peer.octets|;
    SocketAddr(whole[..ip], FromBigEndian(whole[ip..ip + 2]))
  }

  lemma OtherReaderReads(peer: SocketAddr, dcid: seq<Byte>)
    requires ValidPeer(peer) && ReadsTwice(peer, dcid)
    ensures ValidPeer(OtherReader(peer, dcid)) && |OtherReader(peer, dcid).octets| != |peer.octets|
    ensures ReadClaim(OtherReader(peer, dcid), Claim(peer, dcid)).Some?
  {
    hide BigEndian, FromBigEndian, Range;
    BigEndianReads(peer.port, 2);
    var whole, ip := Claim(peer, dcid), 20 - |peer.octets|;
    BigEndianWrites(whole[ip..ip + 2]);
    assert whole[ip + 2] == if ip == 16 then dcid[11] else peer.octets[6];
  }

  /** Across families, a claim is read only if it has 27 bytes and its second length byte agrees. */
  lemma CrossFamilyReads(peer: SocketAddr, dcid: seq<Byte>, other: SocketAddr)
    requires ValidPeer(peer) && ValidPeer(other) && |peer.octets| != |other.octets| && 8 <= |dcid| <= 20
    requires ReadClaim(other, Claim(peer, dcid)).Some?
    ensures |Claim(peer, dcid)| == 27 && ReadsTwice(peer, dcid)
  {
    hide BigEndian, FromBigEndian, Range;
    BigEndianReads(peer.port, 2);
    var whole, ip := Claim(peer, dcid), |other.octets|;
    assert whole[ip + 2] == if ip == 16 then dcid[11] else peer.octets[6];
  }

  /** `other`, of the other family, reads the claim of `peer` as its own. */
  predicate ReadsAcross(other: SocketAddr, peer: SocketAddr, dcid: seq<Byte>) {
    ValidPeer(other) && |other.octets| != |peer.octets| && ReadClaim(other, Claim(peer, dcid)).Some?
  }

  /** Some peer of the other family reads the claim as its own, exactly when it has a second reading. */
  lemma OtherFamilyReadsIff(peer: SocketAddr, dcid: seq<Byte>)
    requires ValidPeer(peer) && 8 <= |dcid| <= 20
    ensures (exists other :: ReadsAcross(other, peer, dcid)) <==> ReadsTwice(peer, dcid)
  {
    hide ReadClaim, Claim, Range;
    if ReadsTwice(peer, dcid) {
      OtherReaderReads(peer, dcid);
      assert ReadsAcross(OtherReader(peer, dcid), peer, dcid);
    } else if other :| ReadsAcross(other, peer, dcid) {
      CrossFamilyReads(peer, dcid, other);
    }
  }

  /** A minted token serves the peer it was minted for and nobody else, exactly when its claim has one reading. */
  lemma ServesOnlyItsPeerIff(sign: Sign, peer: SocketAddr, dcid: seq<Byte>, ts: nat, now: nat)
    requires Signs(sign) && ValidPeer(peer) && 8 <= |dcid| <= 20 && ts < Range(TS_LEN) && InWindow(ts, now)
    ensures (forall other :: ValidPeer(other) && Verify(sign, other, Mint(sign, peer, dcid, ts).value, now).Some? ==>
               other == peer)
       <==> !ReadsTwice(peer, dcid)
  {
    hide Verify, InWindow, ReadClaim, Claim, Range;
    var token := Mint(sign, peer, dcid, ts).value;
    forall other | ValidPeer(other) && Verify(sign, other, token, now).Some? && !ReadsTwice(peer, dcid)
      ensures other == peer
    {
      VerifyMinted(sign, peer, dcid, ts, other, now);
      if |other.octets| == |peer.octets| {
        SameFamilyAcceptance(sign, peer, dcid, ts, other, now);
      } else {
        CrossFamilyReads(peer, dcid, other);
        assert false;
      }
    }
    if ReadsTwice(peer, dcid) {
      OtherReaderReads(peer, dcid);
      VerifyMinted(sign, peer, dcid, ts, OtherReader(peer, dcid), now);
    }
  }

  /** For every IPv4 peer there are such claims: here with any 8-byte DCID read by the IPv6 peer. */
  lemma CrossFamilyCoincidence(sign: Sign, v4: SocketAddr, tail: seq<Byte>, ts: nat)
      returns (dcid: seq<Byte>, v6: SocketAddr)
    requires Signs(sign) && ValidPeer(v4) && |v4.octets| == 4 && |tail| == 8 && ts < Range(TS_LEN)
    ensures |dcid| == 20 && ValidPeer(v6) && |v6.octets| == 16
    ensures Verify(sign, v6, Mint(sign, v4, dcid, ts).value, ts) == Some(tail)
  {
    // The nine bytes after the IPv6 peer's seven are the rest of its address.
    var rest: seq<Byte> := seq(9, _ => 0);
    dcid := rest + [0, 0] + [8] + tail;
    v6 := SocketAddr(v4.octets + BigEndian(v4.port, 2) + [20] + rest, 0);
    assert BigEndian(0, 2) == [0, 0] by {
      assert BigEndian(0, 1) == [0] by {
        assert BigEndian(0, 0) == [];
      }
    }
    assert Claim(v4, dcid) == Claim(v6, tail);
    VerifyMinted(sign, v4, dcid, ts, v6, ts);
    ClaimReads(v6, Claim(v6, tail), tail);
  }
}
