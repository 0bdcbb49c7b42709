/** ChaCha20-Poly1305 of src/net/crypto.c against section 2.8 of RFC 8439. */
module Aead {
  import opened Bits
  import opened Bytes
  import ChaCha20
  import Poly1305

  // ---------------------------------------------------------------- specification

  ghost function Cipher(key: seq<Byte>, nonce: seq<Byte>, counter: nat, data: seq<Byte>): (out: seq<Byte>)
    requires |key| == 32 && |nonce| == 12
    ensures |out| == |data|
  {
    ChaCha20.XorStream(ChaCha20.ChaChaBlock(), ChaCha20.InitialState(key, nonce, counter), 0, data)
  }

  /** The one-time MAC key: 32 zero bytes enciphered with block counter 0. */
  ghost function OneTimeKey(key: seq<Byte>, nonce: seq<Byte>): (k: seq<Byte>)
    requires |key| == 32 && |nonce| == 12
    ensures |k| == 32
  {
    Cipher(key, nonce, 0, Zeros(32))
  }

  ghost function Pad16(s: seq<Byte>): (p: seq<Byte>)
    ensures |s + p| % 16 == 0 && |p| < 16
  {
    Zeros((16 - |s| % 16) % 16)
  }

  ghost function MacData(aad: seq<Byte>, ct: seq<Byte>): seq<Byte> {
    aad + Pad16(aad) + ct + Pad16(ct) + ToLE(8, |aad|) + ToLE(8, |ct|)
  }

  ghost function Tag(key: seq<Byte>, nonce: seq<Byte>, aad: seq<Byte>, ct: seq<Byte>): (t: seq<Byte>)
    requires |key| == 32 && |nonce| == 12
    ensures |t| == 16
  {
    hide Poly1305.Horner, Poly1305.R;
    Poly1305.Mac(OneTimeKey(key, nonce), MacData(aad, ct))
  }

  datatype Outcome = Ok | ErrAuth

  /** The next multiple of 16. */
  function Up16(n: nat): nat { (n + 15) / 16 * 16 }

  /** What is authenticated: the data from 0 on and the ciphertext from the next multiple of 16 on, zeros after either
      up to a multiple of 16, and two 64-bit lengths, of the data first. */
  lemma MacDataShape(aad: seq<Byte>, ct: seq<Byte>)
    requires |aad| < 0x1_0000_0000_0000_0000 && |ct| < 0x1_0000_0000_0000_0000
    ensures var m, a, c := MacData(aad, ct), Up16(|aad|), Up16(|aad|) + |ct|;
      var end := Up16(|aad|) + Up16(|ct|);
      && |m| == end + 16 && |aad| <= a < |aad| + 16 && c <= end < c + 16
      && m[..|aad|] == aad && m[a..c] == ct
      && (forall i | |aad| <= i < a || c <= i < end :: m[i] == 0)
      && LE(m[end..end + 8]) == |aad| && LE(m[end + 8..]) == |ct|
  {
    hide ToLE, LE;
    var m, end := MacData(aad, ct), Up16(|aad|) + Up16(|ct|);
    PadUp(aad);
    PadUp(ct);
    assert m[end..end + 8] == ToLE(8, |aad|) && m[end + 8..] == ToLE(8, |ct|);
    assert Pow256(8) == 0x1_0000_0000_0000_0000;
    Bytes.RoundTrip(8, |aad|);
    Bytes.RoundTrip(8, |ct|);
  }

  lemma PadUp(s: seq<Byte>)
    ensures |s| + |Pad16(s)| == Up16(|s|) && forall i | 0 <= i < |Pad16(s)| :: Pad16(s)[i] == 0
  {
  }

  // ---------------------------------------------------------------- tag comparison

  lemma {:induction false} OrBothZero(a: nat, b: nat)
    ensures Or(a, b) == 0 <==> a == 0 && b == 0
    decreases a + b
  {
    if a != 0 && b != 0 { OrBothZero(a / 2, b / 2); }
  }

  lemma {:induction false} OrBound(a: nat, b: nat, k: nat)
    requires a < Pow2(k) && b < Pow2(k)
    ensures Or(a, b) < Pow2(k)
    decreases k
  {
    if k > 0 && a > 0 && b > 0 { OrBound(a / 2, b / 2, k - 1); }
  }

  lemma {:induction false} XorZero(a: nat, b: nat)
    ensures Xor(a, b) == 0 <==> a == b
    decreases a + b
  {
    if a != 0 && b != 0 { XorZero(a / 2, b / 2); }
  }

  function OrByte(a: Byte, b: Byte): Byte {
    Pow2Literals();
    OrBound(a, b, 8);
    Or(a, b)
  }

  /** `poly1305_tag_eq`: differences are collected, then 0 is mapped to 1 and 1..255 to 0 without a branch. */
  method TagsEqual(a: seq<Byte>, b: seq<Byte>) returns (r: nat)
    requires |a| == 16 && |b| == 16
    ensures r == if a == b then 1 else 0
  {
    hide Or, Xor;
    var diff: Byte := 0;
    var i := 0;
    while i < 16
      invariant 0 <= i <= 16
      invariant diff == 0 <==> forall j | 0 <= j < i :: a[j] == b[j]
    {
      OrBothZero(diff, XorByte(a[i], b[i]));
      XorZero(a[i], b[i]);
      diff := OrByte(diff, XorByte(a[i], b[i]));
      i := i + 1;
    }
    r := (U32(diff + 0x1_0000_0000 - 1) / 0x100) % 2;
    assert a == b <==> diff == 0;
  }

  // ---------------------------------------------------------------- the operations

  /** `aead_poly1305_feed`: the data and zeros up to a multiple of 16. */
  method Feed(mac: Poly1305.Context, data: seq<Byte>)
    requires mac.Valid()
    modifies mac, mac.buf
    ensures mac.Valid() && mac.key == old(mac.key) && mac.absorbed == old(mac.absorbed) + data + Pad16(data)
  {
    hide Poly1305.Context.Valid;
    var pad := (16 - |data| % 16) % 16;
    if |data| > 0 { mac.Update(data); }
    assert mac.absorbed == old(mac.absorbed) + data;
    if pad > 0 { mac.Update(seq(pad, _ => 0)); }
    assert mac.absorbed == old(mac.absorbed) + data + Pad16(data);
  }

  /** Steps 1 and 3 (or 2 when deciphering): derive the one-time key, authenticate the ciphertext. */
  method Authenticate(key: seq<Byte>, nonce: seq<Byte>, aad: seq<Byte>, ct: seq<Byte>) returns (tag: seq<Byte>)
    requires |key| == 32 && |nonce| == 12
    ensures tag == Tag(key, nonce, aad, ct)
  {
    hide Poly1305.Context.Valid, ChaCha20.Context.Valid, ChaCha20.InitialState, ChaCha20.XorStream, ToLE, Poly1305.Mac;
    var cipher := new ChaCha20.Context(key, nonce, 0);
    var polyKey := new Byte[32](_ => 0);
    assert polyKey[..32] == Zeros(32);
    cipher.Xor(polyKey, polyKey, 32);
    assert polyKey[..] == polyKey[..32];
    var mac := new Poly1305.Context(polyKey[..]);
    Feed(mac, aad);
    Feed(mac, ct);
    mac.Update(ToLE(8, |aad|));
    mac.Update(ToLE(8, |ct|));
    assert mac.absorbed == MacData(aad, ct);
    tag := mac.Final();
  }

  /** `crypto_chacha20poly1305_encrypt`. */
  method Encrypt(key: seq<Byte>, nonce: seq<Byte>, aad: seq<Byte>, plaintext: array<Byte>, ciphertext: array<Byte>)
    returns (tag: seq<Byte>)
    requires |key| == 32 && |nonce| == 12 && plaintext.Length == ciphertext.Length
    modifies ciphertext
    ensures ciphertext[..] == Cipher(key, nonce, 1, old(plaintext[..]))
    ensures tag == Tag(key, nonce, aad, ciphertext[..])
  {
    hide ChaCha20.Context.Valid, ChaCha20.InitialState, ChaCha20.XorStream, Tag;
    var cipher := new ChaCha20.Context(key, nonce, 1);
    assert plaintext[..plaintext.Length] == plaintext[..];
    cipher.Xor(plaintext, ciphertext, plaintext.Length);
    assert ciphertext[..plaintext.Length] == ciphertext[..];
    tag := Authenticate(key, nonce, aad, ciphertext[..]);
  }

  /** `crypto_chacha20poly1305_decrypt`: nothing is deciphered unless the tag is right. */
  method Decrypt(key: seq<Byte>, nonce: seq<Byte>, aad: seq<Byte>, ciphertext: array<Byte>, plaintext: array<Byte>,
      tag: seq<Byte>)
    returns (r: Outcome)
    requires |key| == 32 && |nonce| == 12 && plaintext.Length == ciphertext.Length && |tag| == 16
    modifies plaintext
    ensures r == Ok <==> tag == Tag(key, nonce, aad, old(ciphertext[..]))
    ensures plaintext[..] == if r == Ok then Cipher(key, nonce, 1, old(ciphertext[..])) else old(plaintext[..])
  {
    hide ChaCha20.Context.Valid, ChaCha20.InitialState, ChaCha20.XorStream, Tag;
    var expected := Authenticate(key, nonce, aad, ciphertext[..]);
    var same := TagsEqual(expected, tag);
    if same == 0 { return ErrAuth; }
    var cipher := new ChaCha20.Context(key, nonce, 1);
    assert ciphertext[..ciphertext.Length] == ciphertext[..];
    cipher.Xor(ciphertext, plaintext, ciphertext.Length);
    assert plaintext[..ciphertext.Length] == plaintext[..];
    r := Ok;
  }

  /** For every key, nonce, associated data and message, deciphering what was enciphered succeeds and gives the
      message back; with any other tag it reports an authentication error and leaves the output alone. */
  method RoundTrip(key: seq<Byte>, nonce: seq<Byte>, aad: seq<Byte>, message: array<Byte>, tag': seq<Byte>)
    returns (genuine: Outcome, forged: Outcome, recovered: seq<Byte>)
    requires |key| == 32 && |nonce| == 12 && |tag'| == 16
    ensures genuine == Ok && recovered == message[..]
    ensures forged == Ok <==> tag' == Tag(key, nonce, aad, Cipher(key, nonce, 1, message[..]))
  {
    hide Tag, ChaCha20.XorStream, ChaCha20.InitialState;
    var ct := new Byte[message.Length](_ => 0);
    var pt := new Byte[message.Length](_ => 0);
    var tag := Encrypt(key, nonce, aad, message, ct);
    genuine := Decrypt(key, nonce, aad, ct, pt, tag);
    ChaCha20.XorStreamInverse(ChaCha20.ChaChaBlock(), ChaCha20.InitialState(key, nonce, 1), 0, message[..]);
    recovered := pt[..];
    forged := Decrypt(key, nonce, aad, ct, pt, tag');
  }

  /** The one-time key is the first half of key-stream block 0, as section 2.6 of RFC 8439 has it. */
  lemma OneTimeKeyIsBlockZero(key: seq<Byte>, nonce: seq<Byte>)
    requires |key| == 32 && |nonce| == 12
    ensures OneTimeKey(key, nonce) == ChaCha20.KeyBlock(ChaCha20.InitialState(key, nonce, 0))[..32]
  {
    hide ChaCha20.KeyBlock, ChaCha20.InitialState;
    var init := ChaCha20.InitialState(key, nonce, 0);
    CounterZero(key, nonce);
    assert ChaCha20.Advanced(init, 0) == init;
  }

  lemma CounterZero(key: seq<Byte>, nonce: seq<Byte>)
    requires |key| == 32 && |nonce| == 12
    ensures ChaCha20.InitialState(key, nonce, 0)[12] == 0
  {
    hide Load32;
  }

  // ---------------------------------------------------------------- what the layout is for

  /** Padding and length fields: different inputs are never authenticated as the same bytes. */
  lemma MacDataInjective(aad: seq<Byte>, ct: seq<Byte>, aad': seq<Byte>, ct': seq<Byte>)
    requires |aad| < TWO64 && |ct| < TWO64 && |aad'| < TWO64 && |ct'| < TWO64
    requires MacData(aad, ct) == MacData(aad', ct')
    ensures aad == aad' && ct == ct'
  {
    hide ToLE, Zeros;
    var m, m' := MacData(aad, ct), MacData(aad', ct');
    Fields(aad, ct);
    Fields(aad', ct');
    LengthField(|aad|);
    LengthField(|aad'|);
    LengthField(|ct|);
    LengthField(|ct'|);
    assert Pad16(aad) == Pad16(aad') && Pad16(ct) == Pad16(ct');
  }

  const TWO64: nat := 0x1_0000_0000_0000_0000

  /** Where the parts are: the lengths at the end, the data at places that depend on the lengths only. */
  lemma Fields(aad: seq<Byte>, ct: seq<Byte>)
    ensures var m, p := MacData(aad, ct), |aad + Pad16(aad)|;
      && |m| == p + |ct + Pad16(ct)| + 16
      && m[|m| - 8..] == ToLE(8, |ct|) && m[|m| - 16..|m| - 8] == ToLE(8, |aad|)
      && m[..|aad|] == aad && m[p..p + |ct|] == ct
  {
    hide ToLE, Zeros;
  }

  lemma LengthField(n: nat)
    requires n < TWO64
    ensures LE(ToLE(8, n)) == n
  {
    hide ToLE, LE;
    assert Pow256(8) == TWO64;
    Bytes.RoundTrip(8, n);
  }

  /** Block 0 of the key stream, half of which is the one-time key, is used again for the message exactly when the
      message is longer than 2^32 - 1 blocks, because the counter is 32 bits wide. */
  lemma KeyBlockReused(key: seq<Byte>, nonce: seq<Byte>, len: nat)
    requires |key| == 32 && |nonce| == 12
    ensures (exists i: nat | i < len :: UsesBlockZero(key, nonce, i)) <==> len > 64 * 0xffff_ffff
  {
    hide UsesBlockZero;
    if len > 64 * 0xffff_ffff {
      BlockZeroAt(key, nonce, 64 * 0xffff_ffff);
      assert UsesBlockZero(key, nonce, 64 * 0xffff_ffff);
    }
    forall i: nat | i < len && UsesBlockZero(key, nonce, i) ensures i >= 64 * 0xffff_ffff {
      BlockZeroAt(key, nonce, i);
    }
  }

  /** Byte `i` of a message is enciphered with the block of the one-time key. */
  ghost predicate UsesBlockZero(key: seq<Byte>, nonce: seq<Byte>, i: nat)
    requires |key| == 32 && |nonce| == 12
  {
    ChaCha20.Advanced(ChaCha20.InitialState(key, nonce, 1), i / ChaCha20.SIZE) == ChaCha20.InitialState(key, nonce, 0)
  }

  lemma BlockZeroAt(key: seq<Byte>, nonce: seq<Byte>, i: nat)
    requires |key| == 32 && |nonce| == 12
    ensures UsesBlockZero(key, nonce, i) <==> (1 + i / 64) % 0x1_0000_0000 == 0
  {
    hide Load32;
    var a, b := ChaCha20.InitialState(key, nonce, 1), ChaCha20.InitialState(key, nonce, 0);
    assert forall j | 0 <= j < 16 && j != 12 :: a[j] == b[j];
    assert ChaCha20.Advanced(a, i / 64)[12] == (1 + i / 64) % 0x1_0000_0000 && b[12] == 0;
  }
}
