/** The answer to a WebSocket key (section 4.2.2 of RFC 6455). */
module AcceptKey {
  import opened Bytes
  import opened Text
  import opened Wrappers
  import Base64
  import Sha1

  /** Section 1.3 of RFC 6455. */
  const GUID: Buf := Ascii("258EAFA5-E914-47DA-95CA-C5AB0DC85B11")

  function Accept(clientKey: Buf): Buf { Base64.Encode(Sha1.Digest(clientKey + GUID)) }

  method AcceptKey(clientKey: Buf) returns (r: Buf)
    ensures r == Accept(clientKey)
  {
    var digest := Sha1.ComputeSha1(clientKey + GUID);
    r := Base64.Base64Encode(digest);
  }

  /** The answer is always 28 characters, and a client that decodes it finds the digest of its key. */
  lemma AcceptIsDigest(clientKey: Buf)
    ensures |Accept(clientKey)| == 28
    ensures Base64.Decode(Accept(clientKey)) == Some(Sha1.Digest(clientKey + GUID))
  {
    hide Base64.Encode, Base64.Decode, Sha1.Digest;
    Base64.EncodeLength(Sha1.Digest(clientKey + GUID));
    Base64.DecodeEncode(Sha1.Digest(clientKey + GUID));
  }

  /** Different keys are hashed from different padded messages. */
  lemma KeysArePaddedApart(k1: Buf, k2: Buf)
    requires |k1| < 0x1000_0000_0000_0000 && |k2| < 0x1000_0000_0000_0000
    requires Sha1.Pad(k1 + GUID) == Sha1.Pad(k2 + GUID)
    ensures k1 == k2
  {
    hide Sha1.Pad;
    Sha1.PadIsInjective(k1 + GUID, k2 + GUID);
    assert k1 == (k1 + GUID)[..|k1 + GUID| - |GUID|];
    assert k2 == (k2 + GUID)[..|k2 + GUID| - |GUID|];
  }
}
