/** Object identifiers as their DER content bytes (section 8.19 of ITU-T X.690). */
module Oid {
  import opened Bytes
  import opened Wrappers
  import Base128

  /** The numbers of a dotted OID. */
  type Oid = seq<nat>

  const MAX_SAFE := 0x1F_FFFF_FFFF_FFFF

  datatype Error = InvalidComponent | TooFewComponents

  function Component(part: nat): (b: ByteString)
    ensures |b| > 0
  {
    if part == 0 then [0]
    else
      assert |Base128.Groups(part)| > 0;
      Base128.Encoded(part)
  }

  function Components(parts: seq<nat>): ByteString {
    if |parts| == 0 then [] else Component(parts[0]) + Components(parts[1..])
  }

  /** The content bytes: the first two numbers in one byte, the others in groups. */
  function Content(oid: Oid): ByteString
    requires |oid| >= 2
  {
    [(oid[0] * 40 + oid[1]) % 256] + Components(oid[2..])
  }

  function Encode(oid: Oid): Result<ByteString, Error> {
    if exists i :: 0 <= i < |oid| && oid[i] > MAX_SAFE then Err(InvalidComponent)
    else if |oid| < 2 then Err(TooFewComponents)
    else Ok(Content(oid))
  }

  method EncodeComponent(part: nat) returns (b: ByteString)
    ensures b == Component(part)
  {
    if part == 0 {
      return [0];
    }
    b := Base128.Encode(part);
  }

  /** The loop that appends one component after another. */
  method EncodeOid(oid: Oid) returns (r: Result<ByteString, Error>)
    ensures r == Encode(oid)
  {
    for i := 0 to |oid|
      invariant forall k :: 0 <= k < i ==> oid[k] <= MAX_SAFE
    {
      if oid[i] > MAX_SAFE {
        return Err(InvalidComponent);
      }
    }
    if |oid| < 2 {
      return Err(TooFewComponents);
    }
    hide Component;
    var bytes: ByteString := [(oid[0] * 40 + oid[1]) % 256];
    for i := 2 to |oid|
      invariant bytes + Components(oid[i..]) == Content(oid)
    {
      assert oid[i..][1..] == oid[i + 1..];
      ghost var part, rest := Component(oid[i]), Components(oid[i + 1..]);
      assert bytes + (part + rest) == (bytes + part) + rest;
      var component := EncodeComponent(oid[i]);
      bytes := bytes + component;
    }
    assert bytes + [] == bytes;
    return Ok(bytes);
  }

  /** An OID whose numbers the encoding can tell apart. */
  predicate WellFormed(oid: Oid) {
    && |oid| >= 2 && oid[0] <= 2 && (oid[0] < 2 ==> oid[1] < 40) && oid[0] * 40 + oid[1] < 256
    && forall i :: 0 <= i < |oid| ==> oid[i] < Base128.TWO_32
  }

  lemma ComponentSelfDelimiting(x: nat, y: nat, p: ByteString, q: ByteString)
    requires x < Base128.TWO_32 && y < Base128.TWO_32 && Component(x) + p == Component(y) + q
    ensures x == y && p == q
  {
    ComponentLead(x);
    ComponentLead(y);
    assert (Component(x) + p)[0] == Component(x)[0] && (Component(y) + q)[0] == Component(y)[0];
    if x == 0 {
      assert p == ([0] + p)[1..] && q == ([0] + q)[1..];
    } else {
      Base128.EncodedSelfDelimiting(x, y, p, q);
    }
  }

  lemma ComponentLead(x: nat)
    requires x < Base128.TWO_32
    ensures Component(x)[0] == 0 <==> x == 0
  {
    if x > 0 {
      Base128.GroupsDenote(x);
      Base128.GroupsAreSmall(x);
    }
  }

  lemma {:induction false} ComponentsInjective(x: seq<nat>, y: seq<nat>)
    requires forall i :: 0 <= i < |x| ==> x[i] < Base128.TWO_32
    requires forall i :: 0 <= i < |y| ==> y[i] < Base128.TWO_32
    requires Components(x) == Components(y)
    ensures x == y
  {
    if |x| > 0 && |y| > 0 {
      ComponentSelfDelimiting(x[0], y[0], Components(x[1..]), Components(y[1..]));
      ComponentsInjective(x[1..], y[1..]);
      assert x == [x[0]] + x[1..] && y == [y[0]] + y[1..];
    }
  }

  /** The bytes without their top bits. */
  function LowBits(b: ByteString): (low: ByteString)
    ensures |low| == |b| && forall i :: 0 <= i < |b| ==> low[i] == b[i] % 128
  {
    seq(|b|, i requires 0 <= i < |b| => b[i] % 128)
  }

  lemma LowBitsOfGroups(groups: ByteString)
    requires forall i :: 0 <= i < |groups| ==> groups[i] < 128
    ensures LowBits(Base128.Continued(groups)) == groups
    ensures forall i :: 0 <= i < |groups| ==> (Base128.Continued(groups)[i] >= 128 <==> i < |groups| - 1)
  {
  }

  /**
   * A number is written in base 128, most significant group first, with the top bit set on every byte but the last
   * and no leading zero group.
   */
  lemma ComponentDenotes(part: nat)
    requires part < Base128.TWO_32
    ensures Base128.Fold(0, LowBits(Component(part))) == part
    ensures part > 0 ==> LowBits(Component(part))[0] != 0
    ensures forall i :: 0 <= i < |Component(part)| ==> (Component(part)[i] >= 128 <==> i < |Component(part)| - 1)
  {
    if part > 0 {
      hide Base128.Groups, Base128.Fold, Base128.Shift7, LowBits, Base128.Continued;
      Base128.GroupsAreSmall(part);
      Base128.GroupsDenote(part);
      LowBitsOfGroups(Base128.Groups(part));
    } else {
      assert LowBits([0]) == [0];
      Base128.FoldSnoc(0, [], 0);
      assert [] + [0] == [0];
    }
  }

  lemma {:induction false} ComponentsGrow(parts: seq<nat>, part: nat)
    ensures Components(parts + [part]) == Components(parts) + Component(part)
  {
    hide Component;
    if |parts| > 0 {
      var head, tail := Component(parts[0]), Components(parts[1..]);
      ComponentsGrow(parts[1..], part);
      assert (parts + [part])[1..] == parts[1..] + [part];
      assert head + (tail + Component(part)) == (head + tail) + Component(part);
    } else {
      assert parts + [part] == [part] && [part][1..] == [];
      assert Component(part) + [] == [] + Component(part);
    }
  }

  lemma NoComponents()
    ensures Components([]) == []
  {
  }

  /** An OID begins with a byte for its first two numbers, and each further number adds its own bytes. */
  lemma ContentGrows(oid: Oid, part: nat)
    requires |oid| >= 2
    ensures Content(oid[..2]) == [(40 * oid[0] + oid[1]) % 256]
    ensures Content(oid + [part]) == Content(oid) + Component(part)
  {
    hide Component, Components;
    var first, rest := [(40 * oid[0] + oid[1]) % 256], oid[2..];
    ComponentsGrow(rest, part);
    assert (oid + [part])[2..] == rest + [part];
    assert first + (Components(rest) + Component(part)) == (first + Components(rest)) + Component(part);
    NoComponents();
    assert oid[..2][2..] == [] && first + [] == first;
  }

  /** Comparing encoded bytes is comparing OIDs. */
  lemma EncodeInjective(x: Oid, y: Oid)
    requires WellFormed(x) && WellFormed(y) && Content(x) == Content(y)
    ensures x == y
  {
    assert Content(x)[0] == x[0] * 40 + x[1] && Content(y)[0] == y[0] * 40 + y[1];
    assert Components(x[2..]) == Content(x)[1..] && Components(y[2..]) == Content(y)[1..];
    ComponentsInjective(x[2..], y[2..]);
    assert x == x[..2] + x[2..] && y == y[..2] + y[2..];
  }

  // ---- Oversize numbers --------------------------------------------------------------------

  /** A component is written as if it had been cut to thirty-two bits. */
  lemma ComponentIsCut(part: nat)
    ensures Component(part) == Component(part % Base128.TWO_32)
  {
    var low := part % Base128.TWO_32;
    if part > 0 {
      assert part % 128 == low % 128 && Base128.Shift7(part) == Base128.Shift7(low) == low / 128;
      if low == 0 {
        assert Base128.Groups(part) == [0];
        Base128.GroupsAreSmall(part);
        assert Base128.Encoded(part) == [0];
      }
    }
  }

  function Cut(parts: seq<nat>): (cut: seq<nat>)
    ensures |cut| == |parts| && forall i :: 0 <= i < |parts| ==> cut[i] == parts[i] % Base128.TWO_32
  {
    seq(|parts|, i requires 0 <= i < |parts| => parts[i] % Base128.TWO_32)
  }

  lemma {:induction false} ComponentsAreCut(parts: seq<nat>)
    ensures Components(parts) == Components(Cut(parts))
  {
    hide Component;
    if |parts| > 0 {
      ComponentIsCut(parts[0]);
      ComponentsAreCut(parts[1..]);
      assert Cut(parts)[1..] == Cut(parts[1..]);
    }
  }

  /** The encoding sees the first pair modulo one byte, and every other number modulo thirty-two bits. */
  predicate SameUpToWidth(x: Oid, y: Oid)
    requires |x| >= 2 && |y| >= 2
  {
    && (x[0] * 40 + x[1]) % 256 == (y[0] * 40 + y[1]) % 256
    && |x| == |y|
    && forall i :: 2 <= i < |x| ==> x[i] % Base128.TWO_32 == y[i] % Base128.TWO_32
  }

  /** Two OIDs of any numbers collide exactly when they agree up to those widths. */
  lemma EncodeCollidesExactly(x: Oid, y: Oid)
    requires |x| >= 2 && |y| >= 2
    ensures Content(x) == Content(y) <==> SameUpToWidth(x, y)
  {
    var p, q := Cut(x[2..]), Cut(y[2..]);
    ComponentsAreCut(x[2..]);
    ComponentsAreCut(y[2..]);
    assert Content(x)[1..] == Components(p) && Content(y)[1..] == Components(q);
    if Content(x) == Content(y) {
      assert Content(x)[0] == Content(y)[0];
      ComponentsInjective(p, q);
      forall i | 2 <= i < |x| ensures x[i] % Base128.TWO_32 == y[i] % Base128.TWO_32 {
        assert p[i - 2] == q[i - 2];
      }
    }
    if SameUpToWidth(x, y) {
      assert p == q;
    }
  }

  /** A component past thirty-two bits, and a first pair past one byte, each with an OID it is taken for. */
  lemma OversizeCollides()
    ensures Content([1, 2, Base128.TWO_32]) == Content([1, 2, 0])
    ensures Content([2, 176, 5]) == Content([0, 0, 5])
  {
    EncodeCollidesExactly([1, 2, Base128.TWO_32], [1, 2, 0]);
    EncodeCollidesExactly([2, 176, 5], [0, 0, 5]);
  }
}
