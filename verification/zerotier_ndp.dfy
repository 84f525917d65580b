/**
 * The ZeroTier 6plane address of a network member: a unique-local IPv6 address (prefix
 * 0xfc, inside the fc00::/7 range of section 3.1 of RFC 4193) built from the network ID,
 * folded to 32 bits, and the member's 40-bit node address.
 */
module ZerotierNDP {
  import opened Wrappers
  import opened GoHex

  /** The folded network-ID byte at index `i`: XORed with the byte four places on, when there is one. */
  function Folded(id: seq<bv8>, i: nat): bv8
    requires i < |id|
  {
    if i + 4 < |id| then id[i] ^ id[i + 4] else id[i]
  }

  /**
   * Folds the network-ID bytes in place: each byte with a byte four places on is XORed with
   * it. The byte four places on is read before it is itself rewritten, so every result
   * depends on the original bytes only.
   */
  method FoldInPlace(idBytes: array<bv8>)
    modifies idBytes
    ensures forall i :: 0 <= i < idBytes.Length ==> idBytes[i] == Folded(old(idBytes[..]), i)
  {
    ghost var id := idBytes[..];
    var i := 0;
    while i < idBytes.Length
      invariant 0 <= i <= idBytes.Length
      invariant forall j :: 0 <= j < i ==> idBytes[j] == Folded(id, j)
      invariant forall j :: i <= j < idBytes.Length ==> idBytes[j] == id[j]
    {
      var b := idBytes[i];
      if i + 4 < idBytes.Length {
        idBytes[i] := b ^ idBytes[i + 4];
      }
      i := i + 1;
    }
  }

  /**
   * Fills the sixteen address bytes: 0xfc, the network part, the node part, zeros, and 0x01
   * as the last byte.
   */
  method BuildAddress(networkPart: seq<bv8>, nodePart: seq<bv8>) returns (ip: seq<bv8>)
    requires |networkPart| == 4 && |nodePart| == 5
    ensures |ip| == 16 && ip[0] == 0xfc && ip[15] == 0x01
    ensures ip[1..5] == networkPart && ip[5..10] == nodePart
    ensures forall i :: 10 <= i < 15 ==> ip[i] == 0
  {
    var ipv6 := new bv8[16](_ => 0);
    ipv6[0] := 0xfc;
    var i := 0;
    while i < |networkPart|
      invariant 0 <= i <= 4
      invariant ipv6[0] == 0xfc && forall j :: 5 <= j < 16 ==> ipv6[j] == 0
      invariant forall j :: 0 <= j < i ==> ipv6[1 + j] == networkPart[j]
    {
      ipv6[i + 1] := networkPart[i];
      i := i + 1;
    }
    i := 0;
    while i < |nodePart|
      invariant 0 <= i <= 5
      invariant ipv6[0] == 0xfc && forall j :: 0 <= j < 4 ==> ipv6[1 + j] == networkPart[j]
      invariant forall j :: 0 <= j < i ==> ipv6[5 + j] == nodePart[j]
      invariant forall j :: 5 + i <= j < 16 ==> ipv6[j] == 0
    {
      ipv6[i + 1 + |networkPart|] := nodePart[i];
      i := i + 1;
    }
    ipv6[ipv6.Length - 1] := 0x01;
    ip := ipv6[..];
  }

  /**
   * The address bytes from the decoded network ID and member address: 0xfc, the four folded
   * network-ID bytes, the first five address bytes, five zero bytes and 0x01.
   */
  method SixPlaneBytes(id: seq<bv8>, addr: seq<bv8>) returns (ip: seq<bv8>)
    requires |id| >= 4 && |addr| >= 5
    ensures |ip| == 16 && ip[0] == 0xfc && ip[15] == 0x01
    ensures forall i :: 0 <= i < 4 ==> ip[1 + i] == Folded(id, i)
    ensures forall i :: 0 <= i < 5 ==> ip[5 + i] == addr[i]
    ensures forall i :: 10 <= i < 15 ==> ip[i] == 0
  {
    var idBytes := new bv8[|id|](i requires 0 <= i < |id| => id[i]);
    assert idBytes[..] == id;
    FoldInPlace(idBytes);
    var networkPart := idBytes[0..4];
    assert forall i :: 0 <= i < 4 ==> networkPart[i] == Folded(id, i);
    var nodePart := addr[0..5];
    ip := BuildAddress(networkPart, nodePart);
    forall i | 0 <= i < 4
      ensures ip[1 + i] == Folded(id, i)
    {
      assert ip[1 + i] == ip[1..5][i];
    }
    forall i | 0 <= i < 5
      ensures ip[5 + i] == addr[i]
    {
      assert ip[5 + i] == ip[5..10][i] == nodePart[i];
    }
  }

  /**
   * `Get6Plane`, up to the text formatting of the address: a decoding error of the network ID
   * (checked first) or of the member address is returned; otherwise the address bytes are
   * those `SixPlaneBytes` lays out.
   */
  method Get6Plane(networkID: string, address: string) returns (r: Result<seq<bv8>>)
    requires |networkID| >= 8 && |address| >= 10
    ensures DecodeString(networkID).Err? ==> r == DecodeString(networkID)
    ensures DecodeString(networkID).Ok? && DecodeString(address).Err? ==> r == DecodeString(address)
    ensures r.Ok? <==> DecodeString(networkID).Ok? && DecodeString(address).Ok?
    ensures r.Ok? ==> (
      var id, addr := DecodeString(networkID).value, DecodeString(address).value;
      |r.value| == 16 && r.value[0] == 0xfc && r.value[15] == 0x01 &&
      (forall i :: 0 <= i < 4 ==> r.value[1 + i] == Folded(id, i)) &&
      (forall i :: 0 <= i < 5 ==> r.value[5 + i] == addr[i]) &&
      (forall i :: 10 <= i < 15 ==> r.value[i] == 0))
  {
    var decodedID := DecodeString(networkID);
    if decodedID.Err? {
      return decodedID;
    }
    var decodedAddress := DecodeString(address);
    if decodedAddress.Err? {
      return decodedAddress;
    }
    var ip := SixPlaneBytes(decodedID.value, decodedAddress.value);
    r := Ok(ip);
  }
}
