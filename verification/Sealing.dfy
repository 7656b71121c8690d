/** Envelope encryption: a fresh data key wrapped under the master key, framed with
    the data it encrypts, over an abstract authenticated cipher. */
module Sealing {
  import opened Wrappers
  import opened Text

  type Bytes = seq<byte>

  /** An authenticated cipher; seal and open take key, nonce, text, associated data. */
  datatype AEAD = AEAD(
    nonceSize: nat,
    overhead: nat,
    seal: (Bytes, Bytes, Bytes, Bytes) -> Bytes,
    open: (Bytes, Bytes, Bytes, Bytes) -> Option<Bytes>)

  const VERSION: byte := 1
  const KEY_SIZE := 32

  /** Opening inverts sealing, and sealing adds a fixed overhead. */
  ghost predicate Correct(a: AEAD) {
    forall k, n, p, d :: |k| == KEY_SIZE && |n| == a.nonceSize ==>
      && |a.seal(k, n, p, d)| == |p| + a.overhead
      && a.open(k, n, a.seal(k, n, p, d), d) == Some(p)
  }

  /** Opening succeeds only on what sealing the result gives. */
  ghost predicate Authentic(a: AEAD) {
    forall k, n, c, d :: |k| == KEY_SIZE && |n| == a.nonceSize && a.open(k, n, c, d).Some? ==>
      c == a.seal(k, n, a.open(k, n, c, d).value, d)
  }

  /** The random values one sealing draws. */
  datatype Entropy = Entropy(dataKey: Bytes, keyNonce: Bytes, dataNonce: Bytes) {
    ghost predicate Fits(a: AEAD) {
      |dataKey| == KEY_SIZE && |keyNonce| == a.nonceSize && |dataNonce| == a.nonceSize
    }
  }

  /** version, key nonce, wrapped key, data nonce, ciphertext. */
  function Sealed(a: AEAD, master: Bytes, plaintext: Bytes, ad: Bytes, e: Entropy): Bytes {
    var wrappedKey := a.seal(master, e.keyNonce, e.dataKey, ad);
    var ciphertext := a.seal(e.dataKey, e.dataNonce, plaintext, ad);
    [VERSION] + (e.keyNonce + (wrappedKey + (e.dataNonce + ciphertext)))
  }

  function MinimumSize(a: AEAD): nat {
    1 + a.nonceSize + (KEY_SIZE + a.overhead) + a.nonceSize + a.overhead
  }

  datatype Frame = Frame(keyNonce: Bytes, wrappedKey: Bytes, dataNonce: Bytes, ciphertext: Bytes)

  /** The parts of an envelope that is long enough. */
  function Split(a: AEAD, envelope: Bytes): Frame
    requires |envelope| >= MinimumSize(a)
  {
    var k := 1 + a.nonceSize;
    var w := k + KEY_SIZE + a.overhead;
    var n := w + a.nonceSize;
    Frame(envelope[1..k], envelope[k..w], envelope[w..n], envelope[n..])
  }

  function Opened(a: AEAD, master: Bytes, envelope: Bytes, ad: Bytes): Option<Bytes> {
    if |envelope| < MinimumSize(a) || envelope[0] != VERSION then None
    else
      var f := Split(a, envelope);
      match a.open(master, f.keyNonce, f.wrappedKey, ad)
      case None => None
      case Some(dataKey) => a.open(dataKey, f.dataNonce, f.ciphertext, ad)
  }

  lemma SplitOfSealed(a: AEAD, master: Bytes, plaintext: Bytes, ad: Bytes, e: Entropy)
    requires Correct(a) && |master| == KEY_SIZE && e.Fits(a)
    ensures |Sealed(a, master, plaintext, ad, e)| >= MinimumSize(a)
    ensures Split(a, Sealed(a, master, plaintext, ad, e))
         == Frame(e.keyNonce, a.seal(master, e.keyNonce, e.dataKey, ad), e.dataNonce,
                  a.seal(e.dataKey, e.dataNonce, plaintext, ad))
  {
  }

  /** With the sizes of AES-GCM: one byte of version, twelve of nonce, 48 of wrapped key, twelve
      of nonce, and the ciphertext with its tag. */
  lemma FrameLayout(a: AEAD, master: Bytes, plaintext: Bytes, ad: Bytes, e: Entropy)
    requires Correct(a) && |master| == KEY_SIZE && e.Fits(a) && a.nonceSize == 12 && a.overhead == 16
    ensures var s := Sealed(a, master, plaintext, ad, e);
            && |s| == 89 + |plaintext| && s[0] == 1
            && s[1..13] == e.keyNonce && s[13..61] == a.seal(master, e.keyNonce, e.dataKey, ad)
            && s[61..73] == e.dataNonce && s[73..] == a.seal(e.dataKey, e.dataNonce, plaintext, ad)
    ensures forall envelope :: |envelope| < 89 || envelope[0] != 1 ==> Opened(a, master, envelope, ad) == None
  {
    SplitOfSealed(a, master, plaintext, ad, e);
  }

  /** Opening fails under other associated data. */
  ghost predicate Bound(a: AEAD) {
    forall k, n, p, d, d' :: |k| == KEY_SIZE && |n| == a.nonceSize && d != d' ==>
      a.open(k, n, a.seal(k, n, p, d), d').None?
  }

  /** A sealing opens under its own context and no other. */
  lemma OpensInContext(a: AEAD, master: Bytes, plaintext: Bytes, ad: Bytes, ad': Bytes, e: Entropy)
    requires Correct(a) && Bound(a) && |master| == KEY_SIZE && e.Fits(a)
    ensures Opened(a, master, Sealed(a, master, plaintext, ad, e), ad') == if ad' == ad then Some(plaintext) else None
  {
    SplitOfSealed(a, master, plaintext, ad, e);
  }

  /** Opening inverts sealing for every plaintext, context and draw. */
  lemma OpenInvertsSeal(a: AEAD, master: Bytes, plaintext: Bytes, ad: Bytes, e: Entropy)
    requires Correct(a) && |master| == KEY_SIZE && e.Fits(a)
    ensures Opened(a, master, Sealed(a, master, plaintext, ad, e), ad) == Some(plaintext)
  {
    SplitOfSealed(a, master, plaintext, ad, e);
  }

  /** Opening succeeds on nothing but the sealings of its result under the same context. */
  lemma OpenOnlySealed(a: AEAD, master: Bytes, envelope: Bytes, ad: Bytes)
    requires Correct(a) && Authentic(a) && |master| == KEY_SIZE
    requires Opened(a, master, envelope, ad).Some?
    ensures var plaintext := Opened(a, master, envelope, ad).value;
            exists e: Entropy :: e.Fits(a) && envelope == Sealed(a, master, plaintext, ad, e)
  {
    var f := Split(a, envelope);
    var dataKey := a.open(master, f.keyNonce, f.wrappedKey, ad).value;
    assert f.wrappedKey == a.seal(master, f.keyNonce, dataKey, ad);
    assert |dataKey| == KEY_SIZE;
    var e := Entropy(dataKey, f.keyNonce, f.dataNonce);
    assert e.Fits(a);
    Reassembled(a, envelope);
  }

  lemma Reassembled(a: AEAD, envelope: Bytes)
    requires |envelope| >= MinimumSize(a)
    ensures var f := Split(a, envelope);
            envelope == [envelope[0]] + (f.keyNonce + (f.wrappedKey + (f.dataNonce + f.ciphertext)))
  {
  }

  class Envelope {
    const master: Bytes
    const aead: AEAD

    ghost predicate Valid() {
      |master| == KEY_SIZE && Correct(aead)
    }

    constructor (master: Bytes, aead: AEAD)
      ensures this.master == master && this.aead == aead
    {
      this.master, this.aead := master, aead;
    }

    static method New(master: Bytes, aead: AEAD) returns (r: Option<Envelope>)
      ensures r.Some? <==> |master| == KEY_SIZE
      ensures r.Some? ==> fresh(r.value) && r.value.master == master && r.value.aead == aead
    {
      if |master| != KEY_SIZE {
        return None;
      }
      var envelope := new Envelope(master, aead);
      return Some(envelope);
    }

    /** No entropy means that the random source failed. */
    method Seal(plaintext: Bytes, associatedData: Bytes, entropy: Option<Entropy>) returns (r: Option<Bytes>)
      requires Valid() && (entropy.Some? ==> entropy.value.Fits(aead))
      ensures r.Some? <==> entropy.Some?
      ensures r.Some? ==> r.value == Sealed(aead, master, plaintext, associatedData, entropy.value)
      ensures r.Some? ==> Opened(aead, master, r.value, associatedData) == Some(plaintext)
    {
      if entropy.None? {
        return None;
      }
      var e := entropy.value;
      var wrappedKey := aead.seal(master, e.keyNonce, e.dataKey, associatedData);
      var ciphertext := aead.seal(e.dataKey, e.dataNonce, plaintext, associatedData);
      var result: Bytes := [];
      result := result + [VERSION];
      result := result + e.keyNonce;
      result := result + wrappedKey;
      result := result + e.dataNonce;
      result := result + ciphertext;
      OpenInvertsSeal(aead, master, plaintext, associatedData, e);
      assert result == Sealed(aead, master, plaintext, associatedData, e);
      return Some(result);
    }

    method Open(envelope: Bytes, associatedData: Bytes) returns (r: Option<Bytes>)
      requires Valid()
      ensures r == Opened(aead, master, envelope, associatedData)
    {
      var keyNonceSize := aead.nonceSize;
      var wrappedKeySize := KEY_SIZE + aead.overhead;
      var minimum := 1 + keyNonceSize + wrappedKeySize + keyNonceSize + aead.overhead;
      if |envelope| < minimum || envelope[0] != VERSION {
        return None;
      }
      var offset := 1;
      var keyNonce := envelope[offset..offset + keyNonceSize];
      offset := offset + keyNonceSize;
      var wrappedKey := envelope[offset..offset + wrappedKeySize];
      offset := offset + wrappedKeySize;
      var dataNonce := envelope[offset..offset + keyNonceSize];
      offset := offset + keyNonceSize;
      var ciphertext := envelope[offset..];
      var dataKey := aead.open(master, keyNonce, wrappedKey, associatedData);
      if dataKey.None? {
        return None;
      }
      return aead.open(dataKey.value, dataNonce, ciphertext, associatedData);
    }
  }
}
