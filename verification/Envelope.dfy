/** Lower-case hexadecimal, as fmt's %x writes it and hex.DecodeString reads it. */
module Hex {
  import opened Common

  function Digit(n: int): (c: char)
    requires 0 <= n < 16
  {
    if n < 10 then '0' + n as char else 'a' + (n - 10) as char
  }

  function Value(c: char): Option<int> {
    if '0' <= c <= '9' then Some(c as int - '0' as int)
    else if 'a' <= c <= 'f' then Some(c as int - 'a' as int + 10)
    else if 'A' <= c <= 'F' then Some(c as int - 'A' as int + 10)
    else None
  }

  function Encode(b: Bytes): (s: string)
    ensures |s| == 2 * |b|
  {
    if b == [] then "" else [Digit(b[0] / 16), Digit(b[0] % 16)] + Encode(b[1..])
  }

  /** None for an odd number of digits or a character that is not a digit. */
  function Decode(s: string): (r: Option<Bytes>)
    ensures r.Some? ==> |s| == 2 * |r.value|
  {
    if s == "" then Some([])
    else if |s| == 1 then None
    else
      var hi, lo, rest := Value(s[0]), Value(s[1]), Decode(s[2..]);
      if hi.Some? && lo.Some? && rest.Some? then
        ValueRange(s[0]);
        ValueRange(s[1]);
        Some([hi.value * 16 + lo.value] + rest.value)
      else None
  }

  lemma ValueRange(c: char)
    ensures Value(c).Some? ==> 0 <= Value(c).value < 16
  {
  }

  lemma ValueOfDigit(n: int)
    requires 0 <= n < 16
    ensures Value(Digit(n)) == Some(n)
  {
  }

  lemma {:induction false} RoundTrip(b: Bytes)
    ensures Decode(Encode(b)) == Some(b)
  {
    if b != [] {
      var s := Encode(b);
      ValueOfDigit(b[0] / 16);
      ValueOfDigit(b[0] % 16);
      assert s[2..] == Encode(b[1..]);
      RoundTrip(b[1..]);
      assert b == [b[0]] + b[1..];
    }
  }
}

/** Two-tier encryption: a random data key encrypts the value, the master key encrypts the data key. */
module Envelopes {
  import opened Common

  const DATA_KEY_SIZE := 32
  const NONCE_SIZE := 12
  const MAX_SECRET_SIZE := 1024 * 1024

  /** AES-256-GCM: seal(key, nonce, plaintext) and open(key, nonce, ciphertext). */
  datatype Cipher = Cipher(seal: (Bytes, Bytes, Bytes) -> Bytes, open: (Bytes, Bytes, Bytes) -> Option<Bytes>)

  /** All that is assumed of the cipher: opening undoes sealing, and the tag makes ciphertexts non-empty. */
  ghost predicate Sound(c: Cipher) {
    forall k: Bytes, n: Bytes, p: Bytes :: |k| == DATA_KEY_SIZE && |n| == NONCE_SIZE ==>
      c.open(k, n, c.seal(k, n, p)) == Some(p) && 0 < |c.seal(k, n, p)|
  }

  /** A ciphertext opens under one key at most. Assumed only where it is said who cannot read. */
  ghost predicate OneKey(c: Cipher) {
    forall j: Bytes, k: Bytes, n: Bytes, t: Bytes :: c.open(j, n, t).Some? && c.open(k, n, t).Some? ==> j == k
  }

  /** The assumptions are satisfiable together. */
  lemma SoundCipherExists() returns (c: Cipher)
    ensures Sound(c) && OneKey(c)
  {
    c := Cipher((k: Bytes, n: Bytes, p: Bytes) => k + p,
                (k: Bytes, n: Bytes, t: Bytes) =>
                  if |k| == DATA_KEY_SIZE && k <= t then Some(t[DATA_KEY_SIZE..]) else None);
    forall k: Bytes, n: Bytes, p: Bytes | |k| == DATA_KEY_SIZE && |n| == NONCE_SIZE
      ensures c.open(k, n, c.seal(k, n, p)) == Some(p) && 0 < |c.seal(k, n, p)|
    {
      assert (k + p)[DATA_KEY_SIZE..] == p;
    }
  }

  datatype Envelope = Envelope(data: Bytes, edk: Bytes, nonce: Bytes)

  /** The random inputs of one encryption. */
  datatype Randomness = Randomness(dataKey: Bytes, nonce: Bytes, keyNonce: Bytes)

  predicate Proper(r: Randomness) {
    |r.dataKey| == DATA_KEY_SIZE && |r.nonce| == NONCE_SIZE && |r.keyNonce| == NONCE_SIZE
  }

  predicate Encryptable(p: Bytes) {
    0 < |p| <= MAX_SECRET_SIZE
  }

  /** The nonce of the data key travels in front of the encrypted data key. */
  function Encrypt(c: Cipher, master: Bytes, p: Bytes, r: Randomness): Option<Envelope> {
    if |p| == 0 then None
    else if |p| > MAX_SECRET_SIZE then None
    else Some(Envelope(c.seal(r.dataKey, r.nonce, p), r.keyNonce + c.seal(master, r.keyNonce, r.dataKey), r.nonce))
  }

  function Decrypt(c: Cipher, master: Bytes, e: Envelope): Option<Bytes> {
    if |e.data| == 0 then None
    else if |e.edk| == 0 then None
    else if |e.nonce| != NONCE_SIZE then None
    else if |e.edk| < NONCE_SIZE then None
    else
      var dataKey := c.open(master, e.edk[..NONCE_SIZE], e.edk[NONCE_SIZE..]);
      if dataKey.None? then None
      else if |dataKey.value| != DATA_KEY_SIZE then None
      else c.open(dataKey.value, e.nonce, e.data)
  }

  lemma RoundTrip(c: Cipher, master: Bytes, p: Bytes, r: Randomness)
    requires Sound(c) && |master| == DATA_KEY_SIZE && Proper(r)
    ensures Encrypt(c, master, p, r).Some? <==> Encryptable(p)
    ensures Encryptable(p) ==>
              var e := Encrypt(c, master, p, r).value;
              Decrypt(c, master, e) == Some(p) && |e.nonce| == NONCE_SIZE && 0 < |e.edk|
  {
    if Encryptable(p) {
      var e := Encrypt(c, master, p, r).value;
      assert e.edk[..NONCE_SIZE] == r.keyNonce;
      assert e.edk[NONCE_SIZE..] == c.seal(master, r.keyNonce, r.dataKey);
      assert 0 < |c.seal(r.dataKey, r.nonce, p)|;
    }
  }

  /** Only the master key reads the envelope, and only the data key opens the value in it. */
  lemma OnlyKeysOpen(c: Cipher, master: Bytes, p: Bytes, r: Randomness, other: Bytes)
    requires Sound(c) && OneKey(c) && |master| == DATA_KEY_SIZE && Proper(r) && Encryptable(p)
    ensures var e := Encrypt(c, master, p, r).value;
            && (other != master ==> Decrypt(c, other, e).None?)
            && (other != r.dataKey ==> c.open(other, e.nonce, e.data).None?)
  {
    RoundTrip(c, master, p, r);
    var e := Encrypt(c, master, p, r).value;
    if other != master {
      WrongKeyFails(c, master, other, e);
    }
    assert c.open(r.dataKey, e.nonce, e.data) == Some(p);
  }

  /** What one master key reads, no other does. */
  lemma WrongKeyFails(c: Cipher, master: Bytes, other: Bytes, e: Envelope)
    requires OneKey(c) && Decrypt(c, master, e).Some? && other != master
    ensures Decrypt(c, other, e).None?
  {
    assert c.open(master, e.edk[..NONCE_SIZE], e.edk[NONCE_SIZE..]).Some?;
  }

  function ReEncrypt(c: Cipher, oldKey: Bytes, newKey: Bytes, e: Envelope, r: Randomness): Option<Envelope> {
    var p := Decrypt(c, oldKey, e);
    if p.None? then None else Encrypt(c, newKey, p.value, r)
  }

  /** Re-encryption moves the same plaintext under the new key, or fails as a whole. */
  lemma ReEncryptPreserves(c: Cipher, oldKey: Bytes, newKey: Bytes, e: Envelope, r: Randomness)
    requires Sound(c) && |newKey| == DATA_KEY_SIZE && Proper(r)
    ensures var p, e' := Decrypt(c, oldKey, e), ReEncrypt(c, oldKey, newKey, e, r);
            && (e'.Some? <==> p.Some? && Encryptable(p.value))
            && (e'.Some? ==> Decrypt(c, newKey, e'.value) == p && |e'.value.nonce| == NONCE_SIZE && 0 < |e'.value.edk|)
  {
    var p := Decrypt(c, oldKey, e);
    if p.Some? {
      RoundTrip(c, newKey, p.value, r);
    }
  }
}
