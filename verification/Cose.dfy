/** COSE public keys: the validation of what a credential carries, and the maps it accepts. */
module Cose {
  import opened Bytes
  import opened Wrappers
  import Cbor
  import CborEncoder

  datatype Error =
    | NothingAllowed
    | NotCbor
    | NotMap
    | NotInteger
    | NotBytes
    | AlgorithmNotAllowed
    | AlgorithmNotSupported
    | KeyTypeMismatch
    | UnsupportedCurve
    | WrongCoordinateLength
    | ModulusTooSmall
    | ModulusTooLarge
    | InvalidExponent
    | ExponentTooLarge

  const ES256 := -7
  const EDDSA := -8
  const RS256 := -257

  const LABEL_KTY := 1
  const LABEL_ALG := 3
  const LABEL_CRV := -1
  const LABEL_X := -2
  const LABEL_Y := -3
  const LABEL_RSA_N := -1
  const LABEL_RSA_E := -2

  const KTY_OKP := 1
  const KTY_EC2 := 2
  const KTY_RSA := 3
  const CRV_P256 := 1
  const CRV_ED25519 := 6
  const COORDINATE_BYTES := 32
  const MIN_MODULUS_BITS := 2048
  const MAX_MODULUS_BITS := 8192
  const MAX_EXPONENT_BITS := 64

  /** Key material by kind; the kind fixes the algorithm. */
  datatype Material = Ec2(x: ByteString, y: ByteString) | Okp(k: ByteString) | Rsa(n: ByteString, e: ByteString)

  function AlgorithmOf(m: Material): int {
    match m
    case Ec2(_, _) => ES256
    case Okp(_) => EDDSA
    case Rsa(_, _) => RS256
  }

  // ---- Significant bits ------------------------------------------------------------------

  /** The significant bits of one byte. */
  function ByteBits(b: Byte): nat {
    if b >= 128 then 8 else if b >= 64 then 7 else if b >= 32 then 6 else if b >= 16 then 5
    else if b >= 8 then 4 else if b >= 4 then 3 else if b >= 2 then 2 else if b >= 1 then 1 else 0
  }

  /** The significant bits of the number a byte string denotes; leading zeros do not count. */
  function BitLength(b: ByteString): nat {
    if |b| == 0 then 0
    else if b[0] == 0 then BitLength(b[1..])
    else (|b| - 1) * 8 + ByteBits(b[0])
  }

  method CountBits(b: ByteString) returns (bits: nat)
    ensures bits == BitLength(b)
  {
    var index := 0;
    while index < |b| && b[index] == 0
      invariant index <= |b|
      invariant BitLength(b[index..]) == BitLength(b)
    {
      assert b[index..][1..] == b[index + 1..];
      index := index + 1;
    }
    if index == |b| {
      return 0;
    }
    bits := (|b| - index - 1) * 8 + ByteBits(b[index]);
  }

  function Pow2(n: nat): (p: nat)
    ensures p >= 1
  {
    if n == 0 then 1 else 2 * Pow2(n - 1)
  }

  lemma {:induction false} Pow2Grows(a: nat, b: nat)
    requires a <= b
    ensures Pow2(a) <= Pow2(b)
    decreases b
  {
    if a < b {
      Pow2Grows(a, b - 1);
    }
  }

  lemma ByteBitsIsLog(b: Byte)
    requires b > 0
    ensures ByteBits(b) >= 1 && Pow2(ByteBits(b) - 1) <= b && b + 1 <= Pow2(ByteBits(b))
  {
    assert Pow2(1) == 2 && Pow2(2) == 4 && Pow2(3) == 8 && Pow2(4) == 16;
    assert Pow2(5) == 32 && Pow2(6) == 64 && Pow2(7) == 128 && Pow2(8) == 256;
  }

  lemma {:induction false} Pow2Adds(m: nat, n: nat)
    ensures Pow2(m + n) == Pow2(m) * Pow2(n)
    decreases m
  {
    if m > 0 {
      Pow2Adds(m - 1, n);
      assert m + n - 1 == m - 1 + n;
    }
  }

  lemma ScaleKeepsOrder(a: nat, b: nat, p: nat)
    requires a <= b
    ensures a * p <= b * p
  {
  }

  lemma {:induction false} Pow256IsPow2(n: nat)
    ensures Pow256(n) == Pow2(8 * n)
  {
    if n > 0 {
      Pow256IsPow2(n - 1);
      Pow2Adds(8, 8 * (n - 1));
      assert Pow2(4) == 16;
      Pow2Adds(4, 4);
    }
  }

  /** A number with a leading non-zero byte `x` above `m` bits lies between two powers of two. */
  lemma LeadingByte(x: Byte, m: nat, low: nat, value: nat)
    requires x > 0 && low < Pow2(m) && value == x * Pow2(m) + low
    ensures Pow2(m + ByteBits(x) - 1) <= value < Pow2(m + ByteBits(x))
  {
    hide Pow2, ByteBits;
    ByteBitsIsLog(x);
    var bits := ByteBits(x);
    Pow2Adds(bits - 1, m);
    Pow2Adds(bits, m);
    ScaleKeepsOrder(Pow2(bits - 1), x, Pow2(m));
    ScaleKeepsOrder(x + 1, Pow2(bits), Pow2(m));
    assert bits - 1 + m == m + bits - 1 && bits + m == m + bits;
    assert (x + 1) * Pow2(m) == x * Pow2(m) + Pow2(m);
  }

  /** The bit length is the place of the highest one bit of the number denoted. */
  lemma {:induction false} BitLengthIsLog(b: ByteString, k: nat)
    ensures BitLength(b) <= k <==> BigEndian(b) < Pow2(k)
    decreases |b|
  {
    hide Pow2, ByteBits, BigEndian;
    if |b| == 0 {
      EmptyIsZero();
    } else {
      var x, r := b[0], b[1..];
      assert b == [x] + r;
      BigEndianAppend([x], r);
      BigEndian1([x]);
      if x == 0 {
        BitLengthIsLog(r, k);
      } else {
        BigEndianBound(r);
        Pow256IsPow2(|r|);
        LeadingByte(x, 8 * |r|, BigEndian(r), BigEndian(b));
        if BitLength(b) <= k {
          Pow2Grows(BitLength(b), k);
        } else {
          Pow2Grows(k, BitLength(b) - 1);
        }
      }
    }
  }

  lemma EmptyIsZero()
    ensures BigEndian([]) == 0
  {
  }

  // ---- The parser ------------------------------------------------------------------------

  /** The value under a numeric label. */
  function Get(pairs: seq<Cbor.Entry>, at: int): Option<Cbor.Value> {
    Cbor.Lookup(pairs, Cbor.Num(at))
  }

  function RequireInteger(pairs: seq<Cbor.Entry>, at: int): Result<int, Error> {
    match Get(pairs, at)
    case Some(Num(n)) => Ok(n)
    case _ => Err(NotInteger)
  }

  function RequireBytes(pairs: seq<Cbor.Entry>, at: int): Result<ByteString, Error> {
    match Get(pairs, at)
    case Some(Bytes(b)) => Ok(b)
    case _ => Err(NotBytes)
  }

  function Ec2Material(pairs: seq<Cbor.Entry>): Result<Material, Error> {
    var curve :- RequireInteger(pairs, LABEL_CRV);
    if curve != CRV_P256 then Err(UnsupportedCurve)
    else
      var x :- RequireBytes(pairs, LABEL_X);
      var y :- RequireBytes(pairs, LABEL_Y);
      if |x| != COORDINATE_BYTES || |y| != COORDINATE_BYTES then Err(WrongCoordinateLength) else Ok(Ec2(x, y))
  }

  function OkpMaterial(pairs: seq<Cbor.Entry>): Result<Material, Error> {
    var curve :- RequireInteger(pairs, LABEL_CRV);
    if curve != CRV_ED25519 then Err(UnsupportedCurve)
    else
      var k :- RequireBytes(pairs, LABEL_X);
      if |k| != COORDINATE_BYTES then Err(WrongCoordinateLength) else Ok(Okp(k))
  }

  function RsaMaterial(pairs: seq<Cbor.Entry>): Result<Material, Error> {
    var n :- RequireBytes(pairs, LABEL_RSA_N);
    var e :- RequireBytes(pairs, LABEL_RSA_E);
    if BitLength(n) < MIN_MODULUS_BITS then Err(ModulusTooSmall)
    else if BitLength(n) > MAX_MODULUS_BITS then Err(ModulusTooLarge)
    else if BitLength(e) < 2 || e[|e| - 1] % 2 == 0 then Err(InvalidExponent)
    else if BitLength(e) > MAX_EXPONENT_BITS then Err(ExponentTooLarge)
    else Ok(Rsa(n, e))
  }

  function ReadMaterial(pairs: seq<Cbor.Entry>, allowed: seq<int>): Result<Material, Error> {
    var alg :- RequireInteger(pairs, LABEL_ALG);
    if alg !in allowed then Err(AlgorithmNotAllowed)
    else if alg != ES256 && alg != EDDSA && alg != RS256 then Err(AlgorithmNotSupported)
    else
      var kty :- RequireInteger(pairs, LABEL_KTY);
      var expected := if alg == ES256 then KTY_EC2 else if alg == EDDSA then KTY_OKP else KTY_RSA;
      if kty != expected then Err(KeyTypeMismatch)
      else if kty == KTY_EC2 then Ec2Material(pairs)
      else if kty == KTY_OKP then OkpMaterial(pairs)
      else RsaMaterial(pairs)
  }

  function ParseKey(b: ByteString, allowed: seq<int>): Result<Material, Error> {
    if |allowed| == 0 then Err(NothingAllowed)
    else
      match Cbor.DecodeAll(b)
      case Err(_) => Err(NotCbor)
      case Ok(v) => if !v.Map? then Err(NotMap) else ReadMaterial(v.entries, allowed)
  }

  // ---- What is accepted ------------------------------------------------------------------

  /** The keys fit for use: exact coordinate widths; RSA within bounds, with an odd exponent above one. */
  predicate Sound(m: Material) {
    match m
    case Ec2(x, y) => |x| == COORDINATE_BYTES && |y| == COORDINATE_BYTES
    case Okp(k) => |k| == COORDINATE_BYTES
    case Rsa(n, e) =>
      && Pow2(MIN_MODULUS_BITS - 1) <= BigEndian(n) < Pow2(MAX_MODULUS_BITS)
      && 2 <= BigEndian(e) < Pow2(MAX_EXPONENT_BITS) && BigEndian(e) % 2 == 1
  }

  lemma RsaChecksAreSound(n: ByteString, e: ByteString)
    ensures
      && MIN_MODULUS_BITS <= BitLength(n) <= MAX_MODULUS_BITS
      && 2 <= BitLength(e) <= MAX_EXPONENT_BITS && e[|e| - 1] % 2 == 1
      <==> Sound(Rsa(n, e))
  {
    hide BitLength, Pow2, BigEndian;
    BitLengthIsLog(n, MIN_MODULUS_BITS - 1);
    BitLengthIsLog(n, MAX_MODULUS_BITS);
    BitLengthIsLog(e, 1);
    BitLengthIsLog(e, MAX_EXPONENT_BITS);
    assert Pow2(1) == 2 by { Pow2Of1(); }
    if |e| > 0 {
      LastByteParity(e);
    } else {
      EmptyIsZero();
    }
  }

  lemma Pow2Of1()
    ensures Pow2(1) == 2
  {
  }

  lemma LastByteParity(b: ByteString)
    requires |b| > 0
    ensures BigEndian(b) % 2 == b[|b| - 1] % 2
  {
    assert BigEndian(b) == 2 * (BigEndian(b[..|b| - 1]) * 128) + b[|b| - 1];
  }

  /** Whatever key is accepted is sound, of an allowed algorithm, and of the kind that algorithm requires. */
  lemma AcceptedIsSound(b: ByteString, allowed: seq<int>)
    requires ParseKey(b, allowed).Ok?
    ensures Sound(ParseKey(b, allowed).value) && AlgorithmOf(ParseKey(b, allowed).value) in allowed
  {
    hide Cbor.DecodeAll, BitLength, Pow2, BigEndian;
    var m := ParseKey(b, allowed).value;
    if m.Rsa? {
      RsaChecksAreSound(m.n, m.e);
    }
  }

  /** The map an authenticator writes for a key. */
  function KeyMap(m: Material): seq<Cbor.Entry> {
    match m
    case Ec2(x, y) =>
      [NumEntry(LABEL_KTY, KTY_EC2), NumEntry(LABEL_ALG, ES256), NumEntry(LABEL_CRV, CRV_P256),
       BytesEntry(LABEL_X, x), BytesEntry(LABEL_Y, y)]
    case Okp(k) =>
      [NumEntry(LABEL_KTY, KTY_OKP), NumEntry(LABEL_ALG, EDDSA), NumEntry(LABEL_CRV, CRV_ED25519),
       BytesEntry(LABEL_X, k)]
    case Rsa(n, e) =>
      [NumEntry(LABEL_KTY, KTY_RSA), NumEntry(LABEL_ALG, RS256), BytesEntry(LABEL_RSA_N, n),
       BytesEntry(LABEL_RSA_E, e)]
  }

  function NumEntry(at: int, n: int): Cbor.Entry {
    Cbor.Entry(Cbor.Num(at), Cbor.Num(n))
  }

  function BytesEntry(at: int, b: ByteString): Cbor.Entry {
    Cbor.Entry(Cbor.Num(at), Cbor.Bytes(b))
  }

  lemma KeyMapEncodable(m: Material)
    ensures CborEncoder.Encodable(Cbor.Map(KeyMap(m)))
  {
    var pairs := KeyMap(m);
    forall i | 0 <= i < |pairs| ensures CborEncoder.EntryEncodable(pairs[i]) {
    }
    assert CborEncoder.EntriesEncodable(pairs);
  }

  function Build(m: Material): ByteString {
    KeyMapEncodable(m);
    CborEncoder.Encode(Cbor.Map(KeyMap(m)))
  }

  /** Byte strings whose length the encoder can write. */
  predicate Writable(m: Material) {
    match m
    case Ec2(x, y) => |x| < CborEncoder.TWO_32 && |y| < CborEncoder.TWO_32
    case Okp(k) => |k| < CborEncoder.TWO_32
    case Rsa(n, e) => |n| < CborEncoder.TWO_32 && |e| < CborEncoder.TWO_32
  }

  lemma KeyMapRepresentable(m: Material)
    requires Writable(m)
    ensures CborEncoder.Representable(Cbor.Map(KeyMap(m)), 0)
  {
    var pairs := KeyMap(m);
    forall i | 0 <= i < |pairs| ensures CborEncoder.EntryRepresentable(pairs[i], 1) {
    }
    assert CborEncoder.EntriesRepresentable(pairs, 1);
  }

  /** Looking a label up in a built map finds the entry written for it. */
  lemma KeyMapLookups(m: Material)
    ensures RequireInteger(KeyMap(m), LABEL_ALG) == Ok(AlgorithmOf(m))
    ensures match m
            case Ec2(x, y) =>
              && RequireInteger(KeyMap(m), LABEL_KTY) == Ok(KTY_EC2)
              && RequireInteger(KeyMap(m), LABEL_CRV) == Ok(CRV_P256)
              && RequireBytes(KeyMap(m), LABEL_X) == Ok(x) && RequireBytes(KeyMap(m), LABEL_Y) == Ok(y)
            case Okp(k) =>
              && RequireInteger(KeyMap(m), LABEL_KTY) == Ok(KTY_OKP)
              && RequireInteger(KeyMap(m), LABEL_CRV) == Ok(CRV_ED25519)
              && RequireBytes(KeyMap(m), LABEL_X) == Ok(k)
            case Rsa(n, e) =>
              && RequireInteger(KeyMap(m), LABEL_KTY) == Ok(KTY_RSA)
              && RequireBytes(KeyMap(m), LABEL_RSA_N) == Ok(n) && RequireBytes(KeyMap(m), LABEL_RSA_E) == Ok(e)
  {
    var pairs := KeyMap(m);
    GetSkips(pairs);
    GetSkips(pairs[1..]);
    GetSkips(pairs[2..]);
    GetSkips(pairs[3..]);
    if m.Ec2? {
      GetSkips(pairs[4..]);
    }
    assert pairs[1..][1..] == pairs[2..] && pairs[2..][1..] == pairs[3..];
    assert |pairs| > 4 ==> pairs[3..][1..] == pairs[4..];
  }

  lemma GetSkips(pairs: seq<Cbor.Entry>)
    requires |pairs| > 0
    ensures forall at: int ::
      Get(pairs, at) == if pairs[0].key == Cbor.Num(at) then Some(pairs[0].value) else Get(pairs[1..], at)
  {
  }

  /** A modulus or an exponent too long to be written is not read back. */
  lemma LongKeyIsLost(m: Material, allowed: seq<int>)
    requires m.Rsa? && !Writable(m)
    ensures ParseKey(Build(m), allowed) != Ok(m)
  {
    hide CborEncoder.Encode, CborEncoder.EncodeEntries, Cbor.DecodeEntries, Cbor.ReadFront, BitLength, CborEncoder.Head;
    if ParseKey(Build(m), allowed).Ok? {
      var pairs := KeyMap(m);
      KeyMapEncodable(m);
      var entries := DecodedPairs(m);
      var p := if |m.n| >= CborEncoder.TWO_32 then 2 else 3;
      CborEncoder.LongEntryIsCut(pairs, [], 1, [], p);
    }
  }

  /** A map of few entries is decoded entry by entry. */
  lemma DecodedPairs(m: Material) returns (entries: seq<Cbor.Entry>)
    requires Cbor.DecodeAll(Build(m)).Ok?
    ensures CborEncoder.EntriesEncodable(KeyMap(m))
    ensures var r := Cbor.DecodeEntries(CborEncoder.EncodeEntries(KeyMap(m)) + [], |KeyMap(m)|, [], 1);
      r.Ok? && r.value.value == entries
    ensures Cbor.DecodeAll(Build(m)) == Ok(Cbor.Map(entries))
  {
    hide CborEncoder.EncodeEntries, Cbor.DecodeEntries, Cbor.ReadFront, CborEncoder.Head;
    KeyMapEncodable(m);
    var pairs := KeyMap(m);
    var tail := CborEncoder.EncodeEntries(pairs) + [];
    CborEncoder.CompositeFront(5, |pairs|, tail);
    assert Build(m) == CborEncoder.Head(5, |pairs|) + tail;
    var p := Cbor.MapRead(Build(m), 0);
    entries := p.value;
  }

  /** A written key is read back if and only if it is sound, not too long to write, and of an allowed algorithm. */
  lemma ReadUndoesBuild(m: Material, allowed: seq<int>)
    ensures ParseKey(Build(m), allowed) == Ok(m) <==> Sound(m) && Writable(m) && AlgorithmOf(m) in allowed
  {
    hide ParseKey, Sound, Build;
    if ParseKey(Build(m), allowed) == Ok(m) {
      AcceptedIsSound(Build(m), allowed);
      if !m.Rsa? {
        SoundIsWritable(m);
      } else if !Writable(m) {
        LongKeyIsLost(m, allowed);
      }
    }
    if Writable(m) {
      WritableReadBack(m, allowed);
    }
  }

  lemma SoundIsWritable(m: Material)
    requires Sound(m) && !m.Rsa?
    ensures Writable(m)
  {
  }

  lemma WritableReadBack(m: Material, allowed: seq<int>)
    requires Writable(m)
    ensures ParseKey(Build(m), allowed) == Ok(m) <==> Sound(m) && AlgorithmOf(m) in allowed
  {
    hide Cbor.Decode, CborEncoder.Encode, CborEncoder.Representable, CborEncoder.Encodable;
    hide BitLength, Pow2, BigEndian;
    hide KeyMap, Get, RequireInteger, RequireBytes;
    var v := Cbor.Map(KeyMap(m));
    KeyMapEncodable(m);
    KeyMapRepresentable(m);
    CborEncoder.RoundTrip(v, 0, []);
    assert Build(m) + [] == Build(m);
    KeyMapLookups(m);
    if m.Rsa? {
      RsaChecksAreSound(m.n, m.e);
    }
  }
}
