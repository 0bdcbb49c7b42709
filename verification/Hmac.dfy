/** HMAC-SHA-256 of src/net/crypto.c against section 2 of RFC 2104. */
module Hmac {
  import opened Bits
  import opened Bytes
  import Sha256

  /** The key, hashed first if it is longer than a block, extended with zeros to a block. */
  ghost function BlockKey(key: seq<Byte>): (k: seq<Byte>)
    ensures |k| == 64
  {
    var k := if |key| > 64 then Sha256.Sha(key) else key;
    k + Zeros(64 - |k|)
  }

  ghost function XorPad(k: seq<Byte>, pad: Byte): (r: seq<Byte>)
    ensures |r| == |k|
  {
    seq(|k|, i requires 0 <= i < |k| => XorByte(k[i], pad))
  }

  ghost function InnerKey(key: seq<Byte>): seq<Byte> { XorPad(BlockKey(key), 0x36) }

  ghost function OuterKey(key: seq<Byte>): seq<Byte> { XorPad(BlockKey(key), 0x5c) }

  ghost function Mac(key: seq<Byte>, msg: seq<Byte>): seq<Byte> {
    Sha256.Sha(OuterKey(key) + Sha256.Sha(InnerKey(key) + msg))
  }

  /** Byte `i` of the key as it enters the pads: of the key or of its hash, and zero after that. */
  ghost function KeyByte(key: seq<Byte>, i: nat): Byte {
    if |key| > 64 then if i < 32 then Sha256.Sha(key)[i] else 0
    else if i < |key| then key[i] else 0
  }

  /** Section 2 of RFC 2104, byte by byte. */
  lemma MacBytes(key: seq<Byte>, msg: seq<Byte>) returns (inner: seq<Byte>, outer: seq<Byte>)
    ensures |inner| == |outer| == 64 && Mac(key, msg) == Sha256.Sha(outer + Sha256.Sha(inner + msg))
    ensures forall i | 0 <= i < 64 ::
      inner[i] == Xor(KeyByte(key, i), 0x36) && outer[i] == Xor(KeyByte(key, i), 0x5c)
  {
    hide Sha256.Sha, Xor;
    inner, outer := InnerKey(key), OuterKey(key);
    forall i | 0 <= i < 64 ensures BlockKey(key)[i] == KeyByte(key, i) {
    }
  }

  /** `crypto_sha256`. */
  method HashOnce(data: seq<Byte>) returns (digest: seq<Byte>)
    ensures digest == Sha256.Sha(data)
  {
    hide Sha256.Sha, Sha256.Context.Valid;
    var ctx := new Sha256.Context();
    ctx.Update(data);
    assert ctx.absorbed == data;
    digest := ctx.Final();
  }

  method DeriveKey(key: seq<Byte>) returns (k: seq<Byte>)
    ensures k == BlockKey(key)
  {
    hide Sha256.Sha;
    if |key| > 64 {
      k := HashOnce(key);
      k := k + Zeros(32);
    } else {
      k := key + Zeros(64 - |key|);
    }
  }

  class Context {
    const inner: Sha256.Context
    const outer: Sha256.Context
    ghost var key: seq<Byte>
    ghost var absorbed: seq<Byte>

    ghost predicate Valid()
      reads this, inner, outer, inner.buf, outer.buf
    {
      && inner != outer && inner.buf != outer.buf && inner.Valid() && outer.Valid()
      && inner.absorbed == InnerKey(key) + absorbed && outer.absorbed == OuterKey(key)
    }

    /** `crypto_hmac_sha256_init`. */
    constructor (k: seq<Byte>)
      ensures Valid() && key == k && absorbed == []
      ensures fresh(inner) && fresh(outer) && fresh(inner.buf) && fresh(outer.buf)
    {
      hide *;
      inner := new Sha256.Context();
      outer := new Sha256.Context();
      key, absorbed := k, [];
      new;
      var kPrime := DeriveKey(k);
      LoadKeys(kPrime);
    }

    method LoadKeys(kPrime: seq<Byte>)
      requires inner != outer && inner.buf != outer.buf && inner.Valid() && outer.Valid()
      requires inner.absorbed == [] && outer.absorbed == [] && absorbed == [] && kPrime == BlockKey(key)
      modifies inner, outer, inner.buf, outer.buf
      ensures Valid()
    {
      hide Sha256.Context.Valid, BlockKey, XorPad;
      var ipad := PadKey(kPrime, 0x36);
      var opad := PadKey(kPrime, 0x5c);
      inner.Update(ipad);
      outer.Update(opad);
      assert inner.absorbed == InnerKey(key) + [] && outer.absorbed == OuterKey(key);
    }

    /** `crypto_hmac_sha256_update`. */
    method Update(data: seq<Byte>)
      requires Valid()
      modifies this, inner, inner.buf
      ensures Valid() && key == old(key) && absorbed == old(absorbed) + data
    {
      hide InnerKey, OuterKey, Sha256.Context.Valid;
      inner.Update(data);
      absorbed := absorbed + data;
      assert inner.absorbed == InnerKey(key) + absorbed;
    }

    /** `crypto_hmac_sha256_final`. */
    method Final() returns (tag: seq<Byte>)
      requires Valid()
      modifies this, inner, outer, inner.buf, outer.buf
      ensures tag == Mac(old(key), old(absorbed))
    {
      hide InnerKey, OuterKey, Sha256.Sha, Sha256.Context.Valid;
      var digest := inner.Final();
      outer.Update(digest);
      tag := outer.Final();
    }
  }

  method PadKey(k: seq<Byte>, pad: Byte) returns (r: seq<Byte>)
    ensures r == XorPad(k, pad)
  {
    hide XorByte;
    r := [];
    var i := 0;
    while i < |k|
      invariant 0 <= i <= |k| && |r| == i
      invariant forall j | 0 <= j < i :: r[j] == XorByte(k[j], pad)
    {
      r := r + [XorByte(k[i], pad)];
      i := i + 1;
    }
  }
}
