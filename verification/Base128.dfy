/** Base-128 groups with continuation bits, as DER writes tag numbers and OID components. */
module Base128 {
  import opened Bytes

  const TWO_32 := 0x1_0000_0000

  /** An unsigned 32-bit shift right by seven. */
  function Shift7(value: nat): (r: nat)
    ensures r < 0x200_0000
    ensures value < TWO_32 ==> r == value / 128
    ensures r <= value / 128
  {
    var low := value % TWO_32;
    assert low <= value;
    low / 128
  }

  /** Base-128 digits, most significant first; a value is cut to 32 bits after its last digit. */
  function Groups(value: nat): (g: ByteString)
    ensures value > 0 ==> |g| > 0
  {
    if value == 0 then [] else Groups(Shift7(value)) + [value % 128]
  }

  /** The groups with the continuation bit set on all but the last. */
  function Continued(groups: ByteString): (b: ByteString)
    requires forall i :: 0 <= i < |groups| ==> groups[i] < 128
    ensures |b| == |groups|
    ensures forall i :: 0 <= i < |b| ==> b[i] == if i < |b| - 1 then groups[i] + 128 else groups[i]
  {
    seq(|groups|, i requires 0 <= i < |groups| => if i < |groups| - 1 then groups[i] + 128 else groups[i])
  }

  lemma {:induction false} GroupsAreSmall(value: nat)
    ensures forall i :: 0 <= i < |Groups(value)| ==> Groups(value)[i] < 128
  {
    if value > 0 {
      GroupsAreSmall(Shift7(value));
    }
  }

  /** A positive value in its continued groups. */
  function Encoded(value: nat): (b: ByteString) {
    GroupsAreSmall(value);
    Continued(Groups(value))
  }

  /** Groups folded from the left onto `number`. */
  function Fold(number: nat, groups: ByteString): nat
    decreases |groups|
  {
    if |groups| == 0 then number else Fold(number * 128 + groups[0], groups[1..])
  }

  lemma {:induction false} FoldSnoc(number: nat, groups: ByteString, last: Byte)
    ensures Fold(number, groups + [last]) == Fold(number, groups) * 128 + last
    decreases |groups|
  {
    if |groups| > 0 {
      assert (groups + [last])[1..] == groups[1..] + [last];
      FoldSnoc(number * 128 + groups[0], groups[1..], last);
    } else {
      assert groups + [last] == [last];
    }
  }

  /** The groups of a 32-bit value denote it, without a leading zero group. */
  lemma {:induction false} GroupsDenote(value: nat)
    requires value < TWO_32
    ensures Fold(0, Groups(value)) == value
    ensures value > 0 ==> Groups(value)[0] != 0
  {
    hide Shift7, Fold;
    if value > 0 {
      GroupsDenote(value / 128);
      FoldSnoc(0, Groups(value / 128), value % 128);
    } else {
      FoldEmpty(0);
    }
  }

  lemma FoldEmpty(number: nat)
    ensures Fold(number, []) == number
  {
  }

  lemma {:induction false} GroupsCount(value: nat)
    ensures value < 0x80 ==> |Groups(value)| <= 1
    ensures value < 0x4000 ==> |Groups(value)| <= 2
    ensures value < 0x20_0000 ==> |Groups(value)| <= 3
  {
    if value > 0 {
      GroupsCount(Shift7(value));
    }
  }

  /** Any groups without a leading zero are the ones the printer writes for their value. */
  lemma {:induction false} GroupsUnique(groups: ByteString)
    requires |groups| <= 3 && forall i :: 0 <= i < |groups| ==> groups[i] < 128
    requires |groups| > 0 ==> groups[0] != 0
    ensures Groups(Fold(0, groups)) == groups && Fold(0, groups) < 0x20_0000
    ensures |groups| <= 2 ==> Fold(0, groups) < 0x4000
    ensures |groups| <= 1 ==> Fold(0, groups) < 0x80
    ensures |groups| > 0 ==> Fold(0, groups) > 0
    decreases |groups|
  {
    hide Shift7, Fold;
    if |groups| == 0 {
      assert groups == [];
      FoldEmpty(0);
    } else {
      var high, low := groups[..|groups| - 1], groups[|groups| - 1];
      assert groups == high + [low];
      GroupsUnique(high);
      FoldSnoc(0, high, low);
      var value := Fold(0, groups);
      assert value / 128 == Fold(0, high) && value % 128 == low;
      assert |high| == 0 ==> Fold(0, high) == 0;
    }
  }

  /** Values below 2^32 that share their continued groups are equal. */
  lemma EncodedInjective(x: nat, y: nat)
    requires x < TWO_32 && y < TWO_32 && Encoded(x) == Encoded(y)
    ensures x == y
  {
    var g, h := Groups(x), Groups(y);
    GroupsAreSmall(x);
    GroupsAreSmall(y);
    assert forall i :: 0 <= i < |g| ==> Encoded(x)[i] == Encoded(y)[i];
    assert g == h;
    GroupsDenote(x);
    GroupsDenote(y);
  }

  /** Continued groups announce their own end, so what follows them cannot be confused with them. */
  lemma EncodedSelfDelimiting(x: nat, y: nat, p: ByteString, q: ByteString)
    requires 0 < x < TWO_32 && 0 < y < TWO_32 && Encoded(x) + p == Encoded(y) + q
    ensures x == y && p == q
  {
    var a, b := Encoded(x), Encoded(y);
    GroupsAreSmall(x);
    GroupsAreSmall(y);
    var all := a + p;
    assert all == b + q;
    assert all[|a| - 1] == a[|a| - 1] < 128 && all[|b| - 1] == b[|b| - 1] < 128;
    assert forall i :: 0 <= i < |a| - 1 ==> all[i] == a[i] >= 128;
    assert forall i :: 0 <= i < |b| - 1 ==> all[i] == b[i] >= 128;
    assert |a| == |b|;
    assert a == (a + p)[..|a|] == (b + q)[..|b|] == b;
    assert p == (a + p)[|a|..] == (b + q)[|b|..] == q;
    EncodedInjective(x, y);
  }

  /** The loop that peels groups off the low end. */
  method SplitGroups(value: nat) returns (groups: ByteString)
    ensures groups == Groups(value)
  {
    hide Shift7;
    groups := [];
    var rest := value;
    while rest > 0
      invariant Groups(rest) + groups == Groups(value)
    {
      ghost var high, low := Groups(Shift7(rest)), [rest % 128];
      assert (high + low) + groups == high + (low + groups);
      groups := [rest % 128] + groups;
      rest := Shift7(rest);
    }
    assert [] + groups == groups;
  }

  /** The loop that sets the continuation bits. */
  method Encode(value: nat) returns (out: ByteString)
    requires value > 0
    ensures out == Encoded(value)
  {
    hide Groups;
    var groups := SplitGroups(value);
    GroupsAreSmall(value);
    out := [];
    for i := 0 to |groups| - 1
      invariant |out| == i
      invariant forall k :: 0 <= k < i ==> out[k] == groups[k] + 128
    {
      out := out + [groups[i] + 128];
    }
    out := out + [groups[|groups| - 1]];
  }
}
