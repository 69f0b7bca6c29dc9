/** 32-byte node identifiers: byte-wise comparison and construction by left padding. */
module Identifiers {
  import opened Wrappers

  const IDENTIFIER_SIZE_BYTES: nat := 32

  newtype byte = b: int | 0 <= b < 256

  type Identifier = s: seq<byte> | |s| == IDENTIFIER_SIZE_BYTES
    witness seq(IDENTIFIER_SIZE_BYTES, _ => 0)

  datatype ComparisonResult = CompareGreater | CompareEqual | CompareLess

  datatype ComparisonContext = ComparisonContext(
    result: ComparisonResult, left: Identifier, right: Identifier, diffIndex: nat)

  /** The big-endian number a byte string stands for. */
  function Value(s: seq<byte>): nat {
    if s == [] then 0 else Value(s[..|s| - 1]) * 256 + s[|s| - 1] as nat
  }

  function Power256(n: nat): nat {
    if n == 0 then 1 else 256 * Power256(n - 1)
  }

  /** A string of `n` bytes stands for a number of `8 * n` bits; one of the largest bytes for the largest. */
  lemma {:induction false} ValueInRange(s: seq<byte>)
    ensures Value(s) < Power256(|s|)
    ensures (forall k :: 0 <= k < |s| ==> s[k] == 255) ==> Value(s) == Power256(|s|) - 1
  {
    if s != [] { ValueInRange(s[..|s| - 1]); }
  }

  /** Among strings of one length, the first differing byte decides the numeric order. */
  lemma {:induction false} FirstDifferenceDecides(a: seq<byte>, b: seq<byte>, i: nat)
    requires |a| == |b| && i < |a|
    requires a[..i] == b[..i] && a[i] < b[i]
    ensures Value(a) < Value(b)
    decreases |a|
  {
    var n := |a| - 1;
    if i < n {
      assert a[..n][..i] == a[..i] && b[..n][..i] == b[..i];
      FirstDifferenceDecides(a[..n], b[..n], i);
    }
  }

  /** Strings of one length are determined by their value, so comparing values loses nothing. */
  lemma {:induction false} ValueInjective(a: seq<byte>, b: seq<byte>)
    requires |a| == |b|
    ensures Value(a) == Value(b) <==> a == b
  {
    if a != b {
      var i :| 0 <= i < |a| && a[i] != b[i] && a[..i] == b[..i] by { FirstDifference(a, b); }
      if a[i] < b[i] { FirstDifferenceDecides(a, b, i); } else { FirstDifferenceDecides(b, a, i); }
    }
  }

  lemma {:induction false} FirstDifference(a: seq<byte>, b: seq<byte>)
    requires |a| == |b| && a != b
    ensures exists i :: 0 <= i < |a| && a[i] != b[i] && a[..i] == b[..i]
  {
    var n := |a| - 1;
    if a[..n] != b[..n] {
      FirstDifference(a[..n], b[..n]);
      var i :| 0 <= i < n && a[..n][i] != b[..n][i] && a[..n][..i] == b[..n][..i];
      assert a[..n][..i] == a[..i] && b[..n][..i] == b[..i];
      assert a[i] != b[i] && a[..i] == b[..i];
    } else {
      assert a == a[..n] + [a[n]] && b == b[..n] + [b[n]];
    }
  }

  /** Byte-wise comparison is comparison of big-endian values, and reports the first differing byte. */
  method Compare(left: Identifier, right: Identifier) returns (ctx: ComparisonContext)
    ensures ctx.left == left && ctx.right == right
    ensures ctx.result == CompareLess <==> Value(left) < Value(right)
    ensures ctx.result == CompareGreater <==> Value(left) > Value(right)
    ensures ctx.result == CompareEqual <==> left == right
    ensures ctx.diffIndex <= IDENTIFIER_SIZE_BYTES
    ensures left[..ctx.diffIndex] == right[..ctx.diffIndex]
    ensures if ctx.diffIndex < IDENTIFIER_SIZE_BYTES
            then left[ctx.diffIndex] != right[ctx.diffIndex] else left == right
  {
    for i := 0 to IDENTIFIER_SIZE_BYTES
      invariant left[..i] == right[..i]
    {
      if left[i] < right[i] {
        FirstDifferenceDecides(left, right, i);
        return ComparisonContext(CompareLess, left, right, i);
      } else if left[i] > right[i] {
        FirstDifferenceDecides(right, left, i);
        return ComparisonContext(CompareGreater, left, right, i);
      }
    }
    assert left == left[..IDENTIFIER_SIZE_BYTES] && right == right[..IDENTIFIER_SIZE_BYTES];
    return ComparisonContext(CompareEqual, left, right, IDENTIFIER_SIZE_BYTES);
  }

  /** Zero bytes in front of a string do not change its value. */
  lemma {:induction false} LeadingZeros(zeros: seq<byte>, s: seq<byte>)
    requires forall k :: 0 <= k < |zeros| ==> zeros[k] == 0
    ensures Value(zeros + s) == Value(s)
    decreases |zeros| + |s|
  {
    if s != [] {
      assert (zeros + s)[..|zeros + s| - 1] == zeros + s[..|s| - 1];
      LeadingZeros(zeros, s[..|s| - 1]);
    } else if zeros != [] {
      assert zeros + s == zeros;
      assert zeros[..|zeros| - 1] + [] == zeros[..|zeros| - 1];
      LeadingZeros(zeros[..|zeros| - 1], []);
    }
  }

  /** Short inputs are padded on the left, which keeps the number they stand for; long ones are errors. */
  method FromBytes(bytes: seq<byte>) returns (r: Result<Identifier>)
    ensures r.Success? <==> |bytes| <= IDENTIFIER_SIZE_BYTES
    ensures r.Success? ==> Value(r.value) == Value(bytes)
    ensures r.Success? ==> r.value[IDENTIFIER_SIZE_BYTES - |bytes|..] == bytes
  {
    if |bytes| > IDENTIFIER_SIZE_BYTES {
      return Failure("identifier size is too large");
    }
    var buffer := new byte[IDENTIFIER_SIZE_BYTES](_ => 0);
    var offset := IDENTIFIER_SIZE_BYTES - |bytes|;
    for i := 0 to |bytes|
      invariant forall k :: 0 <= k < offset ==> buffer[k] == 0
      invariant buffer[offset..offset + i] == bytes[..i]
    {
      buffer[offset + i] := bytes[i];
    }
    assert buffer[offset..] == bytes;
    assert buffer[..] == buffer[..offset] + bytes;
    LeadingZeros(buffer[..offset], bytes);
    return Success(buffer[..]);
  }

  /** Inputs of any two lengths are ordered by `Compare` exactly as the numbers they spell. */
  method FromBytesKeepsOrder(a: seq<byte>, b: seq<byte>) returns (ctx: ComparisonContext)
    requires |a| <= IDENTIFIER_SIZE_BYTES && |b| <= IDENTIFIER_SIZE_BYTES
    ensures ctx.result == CompareLess <==> Value(a) < Value(b)
    ensures ctx.result == CompareEqual <==> Value(a) == Value(b)
  {
    var l := FromBytes(a);
    var r := FromBytes(b);
    ctx := Compare(l.value, r.value);
  }
}
