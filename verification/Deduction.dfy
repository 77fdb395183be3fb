// What an attacker can put on the network: whatever it can make, by hashing, boxing, signing and
// multiplying, from octets, from public keys, and from what honest runs have let out.

module Deduction {
  import opened Symbolic

  // The signing keys an attacker cannot sign with, and the scalars it does not hold. Every other
  // key and scalar is its own.
  datatype Attacker = Attacker(honest: set<nat>, secrets: set<Scalar>)

  // The multiples of a point that can be computed without the secret scalars: at most one of them
  // may be a factor, and only once, as it is in the public key that was multiplied further.
  predicate Light(secrets: set<Scalar>, f: Factors) {
    forall s, r | s in f && r in f && s in secrets && r in secrets :: s == r && Exponent(f, s) == 1
  }

  // Honest runs let out HMACs, boxes and signatures, besides public keys, which anyone can make.
  ghost predicate OnlyMessages(out: set<Term>) {
    forall t | t in out :: t.Hmac? || t.Boxed? || t.Signature?
  }

  ghost predicate CanMake(att: Attacker, out: set<Term>, t: Term)
    decreases t
  {
    t in out
    || match t
       case Hash(data) => forall b | b in data && b.Part? :: CanMake(att, out, b.term)
       case Hmac(key, data) =>
         && (forall b | b in key && b.Part? :: CanMake(att, out, b.term))
         && (forall b | b in data && b.Part? :: CanMake(att, out, b.term))
       case Curve(factors, base, _) =>
         && Light(att.secrets, factors)
         && (base.Stray? ==> forall b | b in base.bytes && b.Part? :: CanMake(att, out, b.term))
       case SigningPublic(_, _) => true
       case Signature(id, message) =>
         id !in att.honest && forall b | b in message && b.Part? :: CanMake(att, out, b.term)
       case Boxed(key, plaintext) =>
         && (forall b | b in key && b.Part? :: CanMake(att, out, b.term))
         && (forall b | b in plaintext && b.Part? :: CanMake(att, out, b.term))
  }

  ghost predicate CanSend(att: Attacker, out: set<Term>, bytes: Bytes) {
    forall b | b in bytes && b.Part? :: CanMake(att, out, b.term)
  }

  // The more honest runs have let out, the more an attacker can make.
  lemma {:induction false} CanMakeGrows(att: Attacker, out: set<Term>, more: set<Term>, t: Term)
    requires out <= more && CanMake(att, out, t)
    ensures CanMake(att, more, t)
    decreases t
  {
    if t !in out {
      match t
      case Hash(data) => PartsGrow(att, out, more, t, data);
      case Hmac(key, data) =>
        PartsGrow(att, out, more, t, key);
        PartsGrow(att, out, more, t, data);
      case Curve(_, base, _) =>
        if base.Stray? {
          PartsGrow(att, out, more, t, base.bytes);
        }
      case SigningPublic(_, _) =>
      case Signature(_, message) => PartsGrow(att, out, more, t, message);
      case Boxed(key, plaintext) =>
        PartsGrow(att, out, more, t, key);
        PartsGrow(att, out, more, t, plaintext);
    }
  }

  lemma {:induction false} PartsGrow(
    att: Attacker, out: set<Term>, more: set<Term>, t: Term, bytes: Bytes)
    requires out <= more && CanSend(att, out, bytes)
    requires forall b | b in bytes && b.Part? :: b.term < t
    ensures CanSend(att, more, bytes)
    decreases t, 0
  {
    forall b | b in bytes && b.Part?
      ensures CanMake(att, more, b.term)
    {
      CanMakeGrows(att, out, more, b.term);
    }
  }

  lemma {:induction false} CanSendGrows(att: Attacker, out: set<Term>, more: set<Term>, bytes: Bytes)
    requires out <= more && CanSend(att, out, bytes)
    ensures CanSend(att, more, bytes)
  {
    forall b | b in bytes && b.Part?
      ensures CanMake(att, more, b.term)
    {
      CanMakeGrows(att, out, more, b.term);
    }
  }

  // -------------------------------------------------------------------------------------
  // The attacker's means

  lemma CanSendTerm(att: Attacker, out: set<Term>, t: Term)
    ensures CanSend(att, out, Encode(t)) <==> CanMake(att, out, t)
  {
    assert Encode(t)[0] == Part(t, 0);
    assert Part(t, 0) in Encode(t);
  }

  // Strings can be joined and cut.
  lemma CanSendJoined(att: Attacker, out: set<Term>, a: Bytes, b: Bytes)
    ensures CanSend(att, out, a + b) <==> CanSend(att, out, a) && CanSend(att, out, b)
  {
    if CanSend(att, out, a + b) {
      assert forall x | x in a :: x in a + b;
      assert forall x | x in b :: x in a + b;
    }
  }

  lemma CanSendFront(att: Attacker, out: set<Term>, a: Bytes, b: Bytes)
    requires a <= b && CanSend(att, out, b)
    ensures CanSend(att, out, a)
  {
    assert b == a + b[|a|..];
    CanSendJoined(att, out, a, b[|a|..]);
  }

  // What can be sent can be hashed, boxed and, with a key of the attacker's, signed.
  lemma CanSendMade(att: Attacker, out: set<Term>, key: Bytes, data: Bytes, id: nat)
    requires CanSend(att, out, key) && CanSend(att, out, data)
    ensures CanSend(att, out, Encode(Hash(data))) && CanSend(att, out, Encode(Hmac(key, data)))
    ensures CanSend(att, out, Box(key, data))
    ensures id !in att.honest ==> CanSend(att, out, Sign(id, data))
  {
    CanSendTerm(att, out, Hash(data));
    CanSendTerm(att, out, Hmac(key, data));
    CanSendTerm(att, out, Boxed(key, data));
    CanSendTerm(att, out, Signature(id, data));
  }

  // All public keys can be sent, in any form.
  lemma CanSendKeys(att: Attacker, out: set<Term>, s: Scalar, id: nat, form: nat)
    ensures CanSend(att, out, KxForm(s, form)) && CanSend(att, out, Encode(SigningPublic(id, form)))
  {
    CanSendTerm(att, out, Curve(Once(s), Generator, form));
    CanSendTerm(att, out, SigningPublic(id, form));
  }

  // A key that can be sent can be multiplied and divided by the attacker's scalars, and the result
  // sent in any form.
  lemma {:induction false} CanSendProduct(
    att: Attacker, out: set<Term>, key: Bytes, s: Scalar, power: int, form: nat)
    requires CanSend(att, out, key) && s !in att.secrets && OnlyMessages(out)
    ensures var p := PointOf(key);
            p.Multiple? ==> CanSend(att, out, Encode(Curve(Scale(p.factors, s, power), p.base, form)))
  {
    hide Scale;
    var p := PointOf(key);
    if p.Multiple? {
      var f := Scale(p.factors, s, power);
      if TermOf(key).Some? {
        CanSendTerm(att, out, TermOf(key).value);
      }
      LightScaled(att.secrets, p.factors, s, power);
      CanSendTerm(att, out, Curve(f, p.base, form));
    }
  }

  lemma {:induction false} LightScaled(secrets: set<Scalar>, f: Factors, s: Scalar, power: int)
    requires Light(secrets, f) && s !in secrets
    ensures Light(secrets, Scale(f, s, power))
  {
    ScaledExponents(f, s, power);
    forall x | x in Scale(f, s, power) && x in secrets
      ensures x in f && Exponent(f, x) == Exponent(Scale(f, s, power), x)
    {
      assert Exponent(Scale(f, s, power), x) == Exponent(f, x);
    }
  }

  // -------------------------------------------------------------------------------------
  // The attacker's limits

  // What two secret scalars share cannot be made.
  lemma {:induction false} SecretIsKept(att: Attacker, out: set<Term>, s: Scalar, r: Scalar)
    requires s != r && s in att.secrets && r in att.secrets && OnlyMessages(out)
    ensures !CanSend(att, out, Secret(s, r))
  {
    var f := Scale(Once(s), r, 1);
    TermOfEncode(Curve(f, Generator, 0));
    CanSendTerm(att, out, Curve(f, Generator, 0));
    assert s in f && r in f;
  }
}
