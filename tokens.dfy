/** Token generation shared by the three token stores: `genToken()` hashes
    256 random bytes with SHA-1 (FIPS 180-4), hex-encodes the 20-byte digest
    and stamps an expiry a fixed number of seconds after now. The random
    source, SHA-1 and the clock are parameters. */
module Tokens {
  import opened Common
  import opened Uri

  /** A SHA-1 digest: 20 bytes. */
  type Digest = s: seq<Byte> | |s| == 20 witness seq(20, (i: int) => 0 as Byte)

  /** The output of `crypto.randomBytes(256)`. */
  type RandomBytes = s: seq<Byte> | |s| == 256 witness seq(256, (i: int) => 0 as Byte)

  /** `{value, expired}` */
  datatype Token = Token(value: string, expired: Time)

  /** `genToken()` for a store whose token life time is `lifeTime` seconds. */
  function GenToken(sha1: seq<Byte> -> Digest, random: RandomBytes, now: Time, lifeTime: int): (t: Token)
    ensures |t.value| == 40 && IsLowerHex(t.value)
    ensures HexDecode(t.value) == sha1(random)
    ensures t.expired == now + lifeTime * 1000
  {
    var digest := sha1(random);
    HexRoundTrip(digest);
    Token(HexEncode(digest), now + lifeTime * 1000)
  }

  /** With a non-negative life time a token is not expired when it is made,
      and it stays unexpired up to and including its expiry instant. */
  lemma FreshTokenNotExpired(sha1: seq<Byte> -> Digest, random: RandomBytes, now: Time, lifeTime: int, later: Time)
    requires lifeTime >= 0 && now <= later <= now + lifeTime * 1000
    ensures !IsBefore(GenToken(sha1, random, now, lifeTime).expired, later)
  {
  }

  /** A generated token goes into a URL unchanged. */
  lemma TokenNeedsNoEscaping(sha1: seq<Byte> -> Digest, random: RandomBytes, now: Time, lifeTime: int)
    ensures var v := GenToken(sha1, random, now, lifeTime).value;
      EncodeUriComponent(v) == v
  {
    HexIsUnchanged(GenToken(sha1, random, now, lifeTime).value);
  }
}
