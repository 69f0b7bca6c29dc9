/** Membership vectors and the length of their common bit prefix. */
module MembershipVectors {
  const MEMBERSHIP_VECTOR_BYTES: nat := 32
  const MEMBERSHIP_VECTOR_BITS: nat := 256

  type MembershipVector = s: seq<bv8> | |s| == MEMBERSHIP_VECTOR_BYTES
    witness seq(MEMBERSHIP_VECTOR_BYTES, _ => 0)

  /** Selects the `i`-th bit of a byte, bit 7 being the most significant. */
  function Mask(i: nat): bv8
    requires i < 8
  {
    [0x01, 0x02, 0x04, 0x08, 0x10, 0x20, 0x40, 0x80][i]
  }

  /** The `k`-th bit of a vector, counted from the most significant bit of its first byte. */
  function Bit(mv: MembershipVector, k: nat): bool
    requires k < MEMBERSHIP_VECTOR_BITS
  {
    mv[k / 8] & Mask(7 - k % 8) != 0
  }

  ghost predicate AgreeUpTo(a: MembershipVector, b: MembershipVector, n: nat)
    requires n <= MEMBERSHIP_VECTOR_BITS
  {
    forall k :: 0 <= k < n ==> Bit(a, k) == Bit(b, k)
  }

  /** The length of the longest common bit prefix. */
  function CommonPrefix(a: MembershipVector, b: MembershipVector): nat {
    CommonPrefixFrom(a, b, 0)
  }

  function CommonPrefixFrom(a: MembershipVector, b: MembershipVector, k: nat): nat
    requires k <= MEMBERSHIP_VECTOR_BITS
    decreases MEMBERSHIP_VECTOR_BITS - k
  {
    if k == MEMBERSHIP_VECTOR_BITS || Bit(a, k) != Bit(b, k) then k else CommonPrefixFrom(a, b, k + 1)
  }

  lemma {:induction false} CommonPrefixFromIsLongest(a: MembershipVector, b: MembershipVector, k: nat)
    requires k <= MEMBERSHIP_VECTOR_BITS && AgreeUpTo(a, b, k)
    ensures var n := CommonPrefixFrom(a, b, k);
            && n <= MEMBERSHIP_VECTOR_BITS && AgreeUpTo(a, b, n)
            && (n < MEMBERSHIP_VECTOR_BITS ==> Bit(a, n) != Bit(b, n))
    decreases MEMBERSHIP_VECTOR_BITS - k
  {
    if k < MEMBERSHIP_VECTOR_BITS && Bit(a, k) == Bit(b, k) { CommonPrefixFromIsLongest(a, b, k + 1); }
  }

  /** The vectors agree on the prefix and differ right after it. */
  lemma CommonPrefixIsLongest(a: MembershipVector, b: MembershipVector)
    ensures var n := CommonPrefix(a, b);
            && n <= MEMBERSHIP_VECTOR_BITS && AgreeUpTo(a, b, n)
            && (n < MEMBERSHIP_VECTOR_BITS ==> Bit(a, n) != Bit(b, n))
  {
    CommonPrefixFromIsLongest(a, b, 0);
  }

  /** The number left of a byte without its `i` lowest bits. */
  function Upper(x: bv8, i: nat): bv8
    requires i <= 8
  {
    match i
    case 0 => x
    case 1 => x >> 1
    case 2 => x >> 2
    case 3 => x >> 3
    case 4 => x >> 4
    case 5 => x >> 5
    case 6 => x >> 6
    case 7 => x >> 7
    case 8 => 0
  }

  lemma ShiftLiterals(x: bv8, y: bv8)
    ensures x == y <==> x >> 1 == y >> 1 && (x & 0x01 != 0) == (y & 0x01 != 0)
    ensures x >> 1 == y >> 1 <==> x >> 2 == y >> 2 && (x & 0x02 != 0) == (y & 0x02 != 0)
    ensures x >> 2 == y >> 2 <==> x >> 3 == y >> 3 && (x & 0x04 != 0) == (y & 0x04 != 0)
    ensures x >> 3 == y >> 3 <==> x >> 4 == y >> 4 && (x & 0x08 != 0) == (y & 0x08 != 0)
    ensures x >> 4 == y >> 4 <==> x >> 5 == y >> 5 && (x & 0x10 != 0) == (y & 0x10 != 0)
    ensures x >> 5 == y >> 5 <==> x >> 6 == y >> 6 && (x & 0x20 != 0) == (y & 0x20 != 0)
    ensures x >> 6 == y >> 6 <==> x >> 7 == y >> 7 && (x & 0x40 != 0) == (y & 0x40 != 0)
    ensures x >> 7 == y >> 7 <==> (x & 0x80 != 0) == (y & 0x80 != 0)
  {
  }

  /** A mask selects the bit that one more shift drops. */
  lemma UpperStep(x: bv8, y: bv8, i: nat)
    requires i < 8
    ensures Upper(x, i) == Upper(y, i) <==>
            Upper(x, i + 1) == Upper(y, i + 1) && (x & Mask(i) != 0) == (y & Mask(i) != 0)
  {
    ShiftLiterals(x, y);
    assert Mask(0) == 0x01 && Mask(1) == 0x02 && Mask(2) == 0x04 && Mask(3) == 0x08;
    assert Mask(4) == 0x10 && Mask(5) == 0x20 && Mask(6) == 0x40 && Mask(7) == 0x80;
  }

  /** The bits from `i` up determine the byte without its `i` lowest bits, and all bits the byte. */
  lemma {:induction false} UpperBits(x: bv8, y: bv8, i: nat)
    requires i <= 8
    requires forall k :: i <= k < 8 ==> (x & Mask(k) != 0) == (y & Mask(k) != 0)
    ensures Upper(x, i) == Upper(y, i)
    decreases 8 - i
  {
    if i < 8 {
      UpperBits(x, y, i + 1);
      UpperStep(x, y, i);
    }
  }

  /** The byte-then-bit scan finds the length of the longest common bit prefix. */
  method CommonPrefixBit(a: MembershipVector, b: MembershipVector) returns (commonBits: nat)
    ensures commonBits == CommonPrefix(a, b)
  {
    commonBits := 0;
    for j := 0 to MEMBERSHIP_VECTOR_BYTES
      invariant commonBits == 8 * j
      invariant AgreeUpTo(a, b, commonBits)
    {
      var xor := a[j] ^ b[j];
      if xor == 0 {
        EqualBytesAgree(a, b, j);
        commonBits := commonBits + 8;
        continue;
      }
      for i := 8 downto 0
        invariant commonBits == 8 * j + (8 - i)
        invariant AgreeUpTo(a, b, commonBits)
      {
        XorShowsDifference(a, b, j, i);
        ScanBit(a, b, commonBits, xor & Mask(i) != 0);
        if xor & Mask(i) != 0 {
          return;
        }
        commonBits := commonBits + 1;
      }
    }
    PrefixUnique(a, b, commonBits);
  }

  /** Bit `i` of byte `j`, by its position in the whole vector. */
  lemma BitOfByte(mv: MembershipVector, j: nat, i: nat)
    requires j < MEMBERSHIP_VECTOR_BYTES && i < 8
    ensures Bit(mv, 8 * j + (7 - i)) == (mv[j] & Mask(i) != 0)
  {
  }

  /** A bit of the exclusive or is set exactly where the vectors differ. */
  lemma XorShowsDifference(a: MembershipVector, b: MembershipVector, j: nat, i: nat)
    requires j < MEMBERSHIP_VECTOR_BYTES && i < 8
    ensures (a[j] ^ b[j]) & Mask(i) != 0 <==> Bit(a, 8 * j + (7 - i)) != Bit(b, 8 * j + (7 - i))
  {
  }

  /** One step of the bit scan: the prefix ends at this bit, or covers it. */
  lemma ScanBit(a: MembershipVector, b: MembershipVector, k: nat, differs: bool)
    requires k < MEMBERSHIP_VECTOR_BITS && AgreeUpTo(a, b, k) && differs == (Bit(a, k) != Bit(b, k))
    ensures if differs then CommonPrefix(a, b) == k else AgreeUpTo(a, b, k + 1)
  {
    if differs { PrefixUnique(a, b, k); }
  }

  lemma EqualBytesAgree(a: MembershipVector, b: MembershipVector, j: nat)
    requires j < MEMBERSHIP_VECTOR_BYTES && AgreeUpTo(a, b, 8 * j)
    requires a[j] ^ b[j] == 0
    ensures AgreeUpTo(a, b, 8 * j + 8)
  {
  }

  /** Agreement up to the first difference pins the prefix length down. */
  lemma PrefixUnique(a: MembershipVector, b: MembershipVector, n: nat)
    requires n <= MEMBERSHIP_VECTOR_BITS && AgreeUpTo(a, b, n)
    requires n < MEMBERSHIP_VECTOR_BITS ==> Bit(a, n) != Bit(b, n)
    ensures CommonPrefix(a, b) == n
  {
    CommonPrefixIsLongest(a, b);
    var m := CommonPrefix(a, b);
    assert forall k :: 0 <= k < n ==> Bit(a, k) == Bit(b, k);
    assert forall k :: 0 <= k < m ==> Bit(a, k) == Bit(b, k);
  }

  lemma CommonPrefixSymmetric(a: MembershipVector, b: MembershipVector)
    ensures CommonPrefix(a, b) == CommonPrefix(b, a)
  {
    CommonPrefixIsLongest(a, b);
    PrefixUnique(b, a, CommonPrefix(a, b));
  }

  /** The prefix is the whole vector exactly when the vectors are equal. */
  lemma CommonPrefixFull(a: MembershipVector, b: MembershipVector)
    ensures CommonPrefix(a, b) == MEMBERSHIP_VECTOR_BITS <==> a == b
  {
    CommonPrefixIsLongest(a, b);
    if a == b {
      PrefixUnique(a, b, MEMBERSHIP_VECTOR_BITS);
    } else if CommonPrefix(a, b) == MEMBERSHIP_VECTOR_BITS {
      forall j | 0 <= j < MEMBERSHIP_VECTOR_BYTES
        ensures a[j] == b[j]
      {
        forall i | 0 <= i < 8
          ensures (a[j] & Mask(i) != 0) == (b[j] & Mask(i) != 0)
        {
          BitOfByte(a, j, i);
          BitOfByte(b, j, i);
        }
        UpperBits(a[j], b[j], 0);
      }
    }
  }

  /** Byte `j` agrees on its bits from `i` up if the prefix covers them. */
  lemma PrefixCoversByte(a: MembershipVector, b: MembershipVector, j: nat, i: nat)
    requires j < MEMBERSHIP_VECTOR_BYTES && i <= 8 && 8 * j + (8 - i) <= CommonPrefix(a, b)
    ensures Upper(a[j], i) == Upper(b[j], i)
  {
    CommonPrefixIsLongest(a, b);
    forall k | i <= k < 8
      ensures (a[j] & Mask(k) != 0) == (b[j] & Mask(k) != 0)
    {
      BitOfByte(a, j, k);
      BitOfByte(b, j, k);
    }
    UpperBits(a[j], b[j], i);
  }

  /**
   The prefix in terms of the bytes, each read from its most significant bit: the bytes before the
   first difference are equal, and in the byte of the difference exactly the upper `n % 8` bits are.
   */
  lemma PrefixInBytes(a: MembershipVector, b: MembershipVector)
    requires a != b
    ensures var n := CommonPrefix(a, b); var j := n / 8;
            && n < MEMBERSHIP_VECTOR_BITS
            && a[..j] == b[..j]
            && Upper(a[j], 8 - n % 8) == Upper(b[j], 8 - n % 8)
            && Upper(a[j], 7 - n % 8) != Upper(b[j], 7 - n % 8)
  {
    CommonPrefixFull(a, b);
    CommonPrefixIsLongest(a, b);
    var n := CommonPrefix(a, b);
    var j := n / 8;
    forall k | 0 <= k < j
      ensures a[k] == b[k]
    {
      PrefixCoversByte(a, b, k, 0);
    }
    PrefixCoversByte(a, b, j, 8 - n % 8);
    BitOfByte(a, j, 7 - n % 8);
    BitOfByte(b, j, 7 - n % 8);
    UpperStep(a[j], b[j], 7 - n % 8);
  }

  /** The ultrametric law. */
  lemma CommonPrefixUltrametric(a: MembershipVector, b: MembershipVector, c: MembershipVector)
    ensures CommonPrefix(a, c) >= CommonPrefix(a, b) || CommonPrefix(a, c) >= CommonPrefix(b, c)
  {
    CommonPrefixIsLongest(a, b);
    CommonPrefixIsLongest(b, c);
    CommonPrefixIsLongest(a, c);
    var m := CommonPrefix(a, c);
    var n := if CommonPrefix(a, b) <= CommonPrefix(b, c) then CommonPrefix(a, b) else CommonPrefix(b, c);
    assert forall k :: 0 <= k < n ==> Bit(a, k) == Bit(b, k) && Bit(b, k) == Bit(c, k);
    assert forall k :: 0 <= k < n ==> Bit(a, k) == Bit(c, k);
  }

  /** Whether two vectors belong to one level-`level` list. */
  predicate PrefixMatch(a: MembershipVector, b: MembershipVector, level: nat) {
    CommonPrefix(a, b) >= level
  }

  /** At each level up to the vector length, prefix match is an equivalence. */
  lemma PrefixMatchEquivalence(a: MembershipVector, b: MembershipVector, c: MembershipVector, level: nat)
    ensures PrefixMatch(a, a, level) <==> level <= MEMBERSHIP_VECTOR_BITS
    ensures PrefixMatch(a, b, level) ==> PrefixMatch(b, a, level)
    ensures PrefixMatch(a, b, level) && PrefixMatch(b, c, level) ==> PrefixMatch(a, c, level)
  {
    CommonPrefixFull(a, a);
    CommonPrefixIsLongest(a, a);
    CommonPrefixSymmetric(a, b);
    CommonPrefixUltrametric(a, b, c);
  }

  /** Each level's lists refine those of the level below, down to the single list of level 0. */
  lemma PrefixMatchRefines(a: MembershipVector, b: MembershipVector, level: nat)
    ensures PrefixMatch(a, b, level + 1) ==> PrefixMatch(a, b, level)
    ensures PrefixMatch(a, b, 0)
  {
  }
}
