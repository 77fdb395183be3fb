// The handshake's cryptography as free terms. A byte is either a plain octet or one byte of
// the encoding of a term, so messages can be cut, joined and forged byte by byte, while two
// encodings agree only if their terms do.

module Symbolic {
  import opened Prelude
  import opened Octets

  // Secret scalars: those of ephemeral X25519 keys, and those of Ed25519 signing keys.
  datatype Scalar = Ephemeral(id: nat) | LongTerm(id: nat)

  datatype Byte = Raw(value: Octet) | Part(term: Term, index: int)

  type Bytes = seq<Byte>

  // A nonzero exponent: 1 and more, or -1 and less.
  datatype Power = Up(more: nat) | Down(more: nat)

  function Value(p: Power): int {
    match p
    case Up(more) => 1 + more
    case Down(more) => -1 - more
  }

  function PowerOf(k: int): (p: Power)
    requires k != 0
    ensures Value(p) == k
  {
    if k > 0 then Up(k - 1) else Down(-1 - k)
  }

  // A product of powers of scalars, negative ones included.
  type Factors = map<Scalar, Power>

  function Exponent(f: Factors, s: Scalar): int {
    if s in f then Value(f[s]) else 0
  }

  // A single scalar.
  function Once(s: Scalar): Factors {
    map[s := Up(0)]
  }

  // f times a power of s.
  function Scale(f: Factors, s: Scalar, power: int): Factors {
    var e := Exponent(f, s) + power;
    if e == 0 then f - {s} else f[s := PowerOf(e)]
  }

  lemma ScaledExponents(f: Factors, s: Scalar, power: int)
    ensures forall x :: Exponent(Scale(f, s, power), x) == Exponent(f, x) + (if x == s then power else 0)
  {
  }

  // Equal exponents make equal products.
  lemma SameExponents(f: Factors, g: Factors)
    requires forall x :: Exponent(f, x) == Exponent(g, x)
    ensures f == g
  {
    forall x
      ensures x in f <==> x in g
    {
      assert Exponent(f, x) == Exponent(g, x);
    }
    forall x | x in f
      ensures f[x] == g[x]
    {
      assert Exponent(f, x) == Exponent(g, x);
    }
  }

  // What a point of the curve is a multiple of: the generator, a point given by its coordinate,
  // or whatever a string that is neither a point's encoding nor made of octets decodes to.
  datatype Base = Generator | Coordinate(u: nat) | Stray(bytes: Bytes)

  // A point is read from several strings, of which the library writes form 0: its other encodings,
  // and those of the points that differ from it by one of low order. Likewise an Ed25519 public key
  // is form 0, and its other forms are the strings that convert to one of those.
  datatype Term =
    | Hash(data: Bytes)
    | Hmac(key: Bytes, data: Bytes)
    | Curve(factors: Factors, base: Base, form: nat)
    | SigningPublic(id: nat, form: nat)
    | Signature(id: nat, message: Bytes)
    | Boxed(key: Bytes, plaintext: Bytes)

  function Size(t: Term): (n: nat)
    ensures n > 0
  {
    match t
    case Signature(_, _) => 64
    case Boxed(_, plaintext) => |plaintext| + 16
    case _ => 32
  }

  function Encode(t: Term): (b: Bytes)
    ensures |b| == Size(t)
  {
    seq(Size(t), i => Part(t, i))
  }

  // The term a byte string encodes, if it encodes one.
  function TermOf(b: Bytes): (t: Option<Term>)
    ensures t.Some? ==> Encode(t.value) == b
  {
    if b != [] && b[0].Part? && b == Encode(b[0].term) then Some(b[0].term) else None
  }

  lemma TermOfEncode(t: Term)
    ensures TermOf(Encode(t)) == Some(t)
  {
    assert Encode(t)[0] == Part(t, 0);
  }

  lemma EncodeInjective(t: Term, u: Term)
    requires Encode(t) == Encode(u)
    ensures t == u
  {
    assert Encode(t)[0] == Encode(u)[0];
  }

  // Equal concatenations of equally long parts have equal parts.
  lemma SplitEqual(a: Bytes, b: Bytes, c: Bytes, d: Bytes)
    requires a + b == c + d && |a| == |c|
    ensures a == c && b == d
  {
    assert a == (a + b)[..|a|] == (c + d)[..|c|] == c;
    assert b == (a + b)[|a|..] == (c + d)[|c|..] == d;
  }

  // -------------------------------------------------------------------------------------
  // Points

  // Points as scalars see them. X25519 scalars are multiples of 8, so they take the points of
  // order dividing 8 to zero, and do not tell points apart that differ by one of those.
  datatype Point = LowOrder | Multiple(factors: Factors, base: Base)

  const TOP_BIT: nat := 0x8000000000000000000000000000000000000000000000000000000000000000

  // The field's prime.
  const PRIME: nat := 57896044618658097711785492504343953926634992332820282019728792003956564819949

  // The coordinates of the points of low order.
  predicate IsLowOrder(u: nat) {
    || u == 0 || u == 1 || u == PRIME - 1
    || u == 325606250916557431795983626356110631294008115727848805560023387167927233504
    || u == 39382357235489614581723060781553021112529911719440698176882885853963445705823
  }

  const GENERATOR: nat := 9

  predicate AllRaw(b: Bytes) {
    forall i | 0 <= i < |b| :: b[i].Raw?
  }

  // A little-endian number.
  function Number(b: Bytes): nat
    requires AllRaw(b)
  {
    if b == [] then 0 else b[0].value as nat + 256 * Number(b[1..])
  }

  // A field element is read without its top bit, and modulo the prime (section 5 of RFC 7748).
  function Element(b: Bytes): nat
    requires AllRaw(b)
  {
    Number(b) % TOP_BIT % PRIME
  }

  function PowerModulo(x: nat, n: nat): nat
    decreases n
  {
    if n == 0 then 1
    else if n % 2 == 0 then PowerModulo(x * x % PRIME, n / 2)
    else x * PowerModulo(x, n - 1) % PRIME
  }

  function At(u: nat): Point {
    if IsLowOrder(u) then LowOrder
    else if u == GENERATOR then Multiple(map[], Generator)
    else Multiple(map[], Coordinate(u))
  }

  // The point of a received X25519 public key.
  function PointOf(b: Bytes): Point {
    match TermOf(b)
    case Some(Curve(factors, base, _)) => Multiple(factors, base)
    case _ => if AllRaw(b) then At(Element(b)) else Multiple(map[], Stray(b))
  }

  // The birational map from Ed25519's curve, u = (1 + y) / (1 - y), in which the sign of x plays
  // no part (section 4.1 of RFC 7748).
  function ToCoordinate(y: nat): nat {
    (1 + y) * PowerModulo((1 - y) % PRIME, PRIME - 2) % PRIME
  }

  // An Ed25519 public key taken to the curve of the key exchange.
  function ForKeyExchange(publicKey: Bytes): Point {
    match TermOf(publicKey)
    case Some(SigningPublic(id, _)) => KeyPoint(LongTerm(id))
    case _ =>
      if AllRaw(publicKey) then At(ToCoordinate(Element(publicKey))) else Multiple(map[], Stray(publicKey))
  }

  // The point of a scalar's own public key.
  function KeyPoint(s: Scalar): Point {
    Multiple(Once(s), Generator)
  }

  // -------------------------------------------------------------------------------------
  // The primitives

  function PublicKey(id: nat): (pk: Bytes)
    ensures |pk| == 32
  {
    Encode(SigningPublic(id, 0))
  }

  // The strings that are read as a scalar's public key, and the one the library makes.
  function KxForm(s: Scalar, form: nat): (pk: Bytes)
    ensures |pk| == 32
  {
    Encode(Curve(Once(s), Generator, form))
  }

  function KxKey(s: Scalar): (pk: Bytes)
    ensures |pk| == 32
  {
    KxForm(s, 0)
  }

  // What the library computes from a point of low order.
  function NoSecret(): (b: Bytes)
    ensures |b| == 32
  {
    seq(32, _ => Raw(0))
  }

  // Scalar multiplication (section 6.1 of RFC 7748).
  function Times(s: Scalar, point: Point): (r: Bytes)
    ensures |r| == 32
  {
    match point
    case LowOrder => NoSecret()
    case Multiple(factors, base) => Encode(Curve(Scale(factors, s, 1), base, 0))
  }

  // What two scalars share.
  function Secret(s: Scalar, r: Scalar): (b: Bytes)
    ensures |b| == 32
  {
    Encode(Curve(Scale(Once(s), r, 1), Generator, 0))
  }

  // Signing and checking (sections 5.1.6 and 5.1.7 of RFC 8032).
  function Sign(id: nat, message: Bytes): (sig: Bytes)
    ensures |sig| == 64
  {
    Encode(Signature(id, message))
  }

  predicate Check(publicKey: Bytes, sig: Bytes, message: Bytes) {
    match TermOf(publicKey)
    case Some(SigningPublic(id, form)) => form == 0 && sig == Sign(id, message)
    case _ => false
  }

  function Box(key: Bytes, plaintext: Bytes): (b: Bytes)
    ensures |b| == |plaintext| + 16
  {
    Encode(Boxed(key, plaintext))
  }

  function Unbox(key: Bytes, box: Bytes): (m: Option<Bytes>)
    ensures m.Some? ==> box == Box(key, m.value)
  {
    match TermOf(box)
    case Some(Boxed(k, plaintext)) => if k == key then Some(plaintext) else None
    case _ => None
  }

  lemma UnboxBox(key: Bytes, other: Bytes, plaintext: Bytes)
    ensures Unbox(other, Box(key, plaintext)) == if other == key then Some(plaintext) else None
  {
    TermOfEncode(Boxed(key, plaintext));
  }

  lemma CheckSign(id: nat, message: Bytes)
    ensures Check(PublicKey(id), Sign(id, message), message)
  {
    TermOfEncode(SigningPublic(id, 0));
  }

  // Every form of a public key is the same point.
  lemma KeyDecodes(s: Scalar, form: nat)
    ensures PointOf(KxForm(s, form)) == KeyPoint(s)
  {
    TermOfEncode(Curve(Once(s), Generator, form));
  }

  // Both ends of a key exchange reach the same secret.
  lemma TimesCommutes(s: Scalar, r: Scalar)
    ensures Times(s, KeyPoint(r)) == Times(r, KeyPoint(s)) == Secret(s, r) == Secret(r, s)
  {
    ScaleCommutes(map[], s, 1, r, 1);
    assert Scale(map[], s, 1) == Once(s) && Scale(map[], r, 1) == Once(r);
  }

  lemma ScaleCommutes(f: Factors, s: Scalar, i: int, r: Scalar, j: int)
    ensures Scale(Scale(f, s, i), r, j) == Scale(Scale(f, r, j), s, i)
  {
    hide Scale;
    ScaledExponents(f, s, i);
    ScaledExponents(f, r, j);
    ScaledExponents(Scale(f, s, i), r, j);
    ScaledExponents(Scale(f, r, j), s, i);
    SameExponents(Scale(Scale(f, s, i), r, j), Scale(Scale(f, r, j), s, i));
  }

  lemma ScaleUndone(f: Factors, s: Scalar, i: int)
    ensures Scale(Scale(f, s, i), s, -i) == f
  {
    hide Scale;
    ScaledExponents(f, s, i);
    ScaledExponents(Scale(f, s, i), s, -i);
    SameExponents(Scale(Scale(f, s, i), s, -i), f);
  }

  lemma PublicKeyConverts(id: nat)
    ensures ForKeyExchange(PublicKey(id)) == KeyPoint(LongTerm(id))
  {
    TermOfEncode(SigningPublic(id, 0));
  }

  // Products by one scalar are equal only for one point.
  lemma TimesCancels(s: Scalar, p: Point, q: Point)
    requires Times(s, p) == Times(s, q)
    ensures p == q
  {
    match (p, q)
    case (LowOrder, LowOrder) =>
    case (LowOrder, Multiple(g, base)) => NeverZero(Scale(g, s, 1), base);
    case (Multiple(f, base), LowOrder) => NeverZero(Scale(f, s, 1), base);
    case (Multiple(f, base), Multiple(g, other)) =>
      EncodeInjective(Curve(Scale(f, s, 1), base, 0), Curve(Scale(g, s, 1), other, 0));
      ScaleUndone(f, s, 1);
      ScaleUndone(g, s, 1);
  }

  lemma NeverZero(factors: Factors, base: Base)
    ensures Encode(Curve(factors, base, 0)) != NoSecret()
  {
    assert Encode(Curve(factors, base, 0))[0].Part? && NoSecret()[0].Raw?;
  }

  // A product that is the secret two scalars share was computed from the other's point.
  lemma TimesOnlyShares(s: Scalar, point: Point, r: Scalar)
    ensures Times(s, point) == Secret(s, r) <==> point == KeyPoint(r)
  {
    TimesCommutes(s, r);
    if Times(s, point) == Secret(s, r) {
      TimesCancels(s, point, KeyPoint(r));
    }
  }

  // A string of zeros is a point of low order.
  lemma ZerosAreLowOrder()
    ensures PointOf(NoSecret()) == LowOrder
  {
    assert TermOf(NoSecret()) == None;
    NumberOfZeros(NoSecret());
  }

  lemma {:induction false} NumberOfZeros(b: Bytes)
    requires forall i | 0 <= i < |b| :: b[i] == Raw(0)
    ensures Number(b) == 0
  {
    if b != [] {
      NumberOfZeros(b[1..]);
    }
  }

  // -------------------------------------------------------------------------------------
  // Keys made of octets

  // The weight of the k-th byte of a number.
  function Weight(k: nat): nat {
    if k == 0 then 1 else 256 * Weight(k - 1)
  }

  lemma {:induction false} WeightSum(i: nat, j: nat)
    ensures Weight(i + j) == Weight(i) * Weight(j)
    decreases i
  {
    if i > 0 {
      WeightSum(i - 1, j);
      assert 256 * (Weight(i - 1) * Weight(j)) == (256 * Weight(i - 1)) * Weight(j);
    }
  }

  lemma {:induction false} NumberJoined(a: Bytes, x: Byte)
    requires AllRaw(a) && x.Raw?
    ensures AllRaw(a + [x]) && Number(a + [x]) == Number(a) + Weight(|a|) * x.value as nat
  {
    if a == [] {
      assert [] + [x] == [x] && [x][1..] == [];
    } else {
      assert (a + [x])[1..] == a[1..] + [x];
      NumberJoined(a[1..], x);
    }
  }

  lemma LastBit()
    ensures Weight(31) * 128 == 0x8000000000000000000000000000000000000000000000000000000000000000
  {
    WeightSum(1, 1);
    WeightSum(2, 2);
    WeightSum(4, 4);
    WeightSum(8, 8);
    WeightSum(16, 8);
    WeightSum(24, 4);
    WeightSum(28, 2);
    WeightSum(30, 1);
    assert Weight(1) == 256;
  }

  lemma SameElement(b: Bytes, c: Bytes)
    requires AllRaw(b) && AllRaw(c)
    requires Number(c) == Number(b) + TOP_BIT
    ensures Element(b) == Element(c)
  {
    hide Number;
    WholeTurn(Number(b));
  }

  lemma WholeTurn(x: nat)
    ensures (x + TOP_BIT) % TOP_BIT == x % TOP_BIT
  {
  }

  lemma RawKey(b: Bytes)
    requires AllRaw(b)
    ensures PointOf(b) == At(Element(b)) && ForKeyExchange(b) == At(ToCoordinate(Element(b)))
  {
    assert TermOf(b).None?;
  }

  // Two keys of 32 octets that differ in their top bit alone are one point, as X25519 keys and as
  // Ed25519 keys.
  lemma {:induction false} TopBitIgnored(front: Bytes, low: Octet, high: Octet)
    requires AllRaw(front) && |front| == 31 && high as nat == low as nat + 128
    ensures PointOf(front + [Raw(low)]) == PointOf(front + [Raw(high)])
    ensures ForKeyExchange(front + [Raw(low)]) == ForKeyExchange(front + [Raw(high)])
  {
    hide At, ToCoordinate, PointOf, ForKeyExchange, Number, Weight, Element, AllRaw;
    var b, c := front + [Raw(low)], front + [Raw(high)];
    NumberJoined(front, Raw(low));
    NumberJoined(front, Raw(high));
    LastBit();
    assert Weight(31) * high as nat == Weight(31) * low as nat + Weight(31) * 128;
    SameElement(b, c);
    RawKey(b);
    RawKey(c);
  }
}
