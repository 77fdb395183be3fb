// Authenticated ciphers as the stream uses them: `seal` is the library's lock, `open` its
// unlock, and a box is the MAC followed by the ciphertext.

module Ciphers {
  import opened Prelude
  import opened Octets

  type Key = seq<Octet>

  const MAC_SIZE: nat := 16

  // 192-bit nonces, counted modulo 2^192.
  const NONCE_COUNT: nat := 0x1_000000000000_000000000000_000000000000_000000000000
  type Nonce = n: int | 0 <= n < NONCE_COUNT

  datatype Sealed = Sealed(mac: seq<Octet>, ciphertext: seq<Octet>)

  datatype RawCipher = RawCipher(
    seal: (Key, Nonce, seq<Octet>) -> Sealed,
    open: (Key, Nonce, Sealed) -> Option<seq<Octet>>)

  // What any encrypt-then-MAC stream cipher satisfies: fixed MAC size, length-preserving
  // ciphertext, and `open` accepting exactly what `seal` makes.
  ghost predicate Lawful(c: RawCipher) {
    && (forall k, n, m :: |c.seal(k, n, m).mac| == MAC_SIZE && |c.seal(k, n, m).ciphertext| == |m|)
    && (forall k, n, m :: c.open(k, n, c.seal(k, n, m)) == Some(m))
    && (forall k, n, s :: c.open(k, n, s).Some? ==> c.seal(k, n, c.open(k, n, s).value) == s)
  }

  const ZERO_MAC: seq<Octet> := seq(16, _ => 0)

  const PLAIN_CIPHER: RawCipher := RawCipher(
    (k: Key, n: Nonce, m: seq<Octet>) => Sealed(ZERO_MAC, m),
    (k: Key, n: Nonce, s: Sealed) => if s.mac == ZERO_MAC then Some(s.ciphertext) else None)

  type Cipher = c: RawCipher | Lawful(c) witness PLAIN_CIPHER

  function Next(n: Nonce): (r: Nonce) {
    if n + 1 == NONCE_COUNT then 0 else n + 1
  }

  function Box(c: Cipher, k: Key, n: Nonce, m: seq<Octet>): (b: seq<Octet>)
    ensures |b| == |m| + MAC_SIZE
    ensures Unbox(c, k, n, b) == Some(m)
  {
    var s := c.seal(k, n, m);
    assert (s.mac + s.ciphertext)[..MAC_SIZE] == s.mac;
    assert (s.mac + s.ciphertext)[MAC_SIZE..] == s.ciphertext;
    s.mac + s.ciphertext
  }

  function Unbox(c: Cipher, k: Key, n: Nonce, b: seq<Octet>): (m: Option<seq<Octet>>)
    ensures m.Some? ==> |b| == |m.value| + MAC_SIZE
  {
    if |b| < MAC_SIZE then None else c.open(k, n, Sealed(b[..MAC_SIZE], b[MAC_SIZE..]))
  }

  // A box that opens is the one its plaintext is sealed into.
  lemma UnboxExact(c: Cipher, k: Key, n: Nonce, b: seq<Octet>)
    requires Unbox(c, k, n, b).Some?
    ensures b == Box(c, k, n, Unbox(c, k, n, b).value)
  {
    assert b == b[..MAC_SIZE] + b[MAC_SIZE..];
  }
}
