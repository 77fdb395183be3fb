// The nonces a run of messages uses.

module Nonces {
  import opened Ciphers
  import opened Frames
  import opened FrameStreams

  // The nonces k messages use: one each, or two when their headers are boxed as well.
  function Uses(p: Protocol, k: nat): nat {
    if p.BoxStream? then 2 * k else k
  }

  // The i-th nonce counted from n.
  function NonceAt(n: Nonce, i: nat): Nonce {
    (n + i) % NONCE_COUNT
  }

  lemma NextNonceAt(n: Nonce, i: nat)
    ensures Next(NonceAt(n, i)) == NonceAt(n, i + 1)
  {
  }

  // After k messages the nonce has moved by k, or by 2k, modulo 2^192.
  lemma {:induction false} AdvanceByCounts(p: Protocol, n: Nonce, k: nat)
    ensures AdvanceBy(p, n, k) == NonceAt(n, Uses(p, k))
    decreases k
  {
    if k > 0 {
      AdvanceByAdd(p, n, k - 1, 1);
      AdvanceByCounts(p, n, k - 1);
      NextNonceAt(n, Uses(p, k - 1));
      NextNonceAt(n, Uses(p, k - 1) + 1);
    }
  }

  // Counting fewer than 2^192 nonces meets none of them twice.
  lemma NoncesDistinct(n: Nonce, i: nat, j: nat)
    requires i < j < NONCE_COUNT
    ensures NonceAt(n, i) != NonceAt(n, j)
  {
  }
}
