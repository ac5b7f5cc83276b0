/**
  The FIX checksum: the byte sum modulo 256, in its scalar form and in the AVX2 form that sums
  32 bytes at a time in sixteen 16-bit lanes.
 */
module Checksum {
  import opened Bytes
  import opened Decimal

  function Sum(s: seq<int>): int {
    if s == [] then 0 else s[0] + Sum(s[1..])
  }

  function CheckSumOf(s: seq<byte>): (c: int)
    ensures 0 <= c < 256
  {
    Sum(s) % 256
  }

  lemma {:induction false} SumAppend(a: seq<int>, b: seq<int>)
    ensures Sum(a + b) == Sum(a) + Sum(b)
  {
    if a == [] {
      assert a + b == b;
    } else {
      assert (a + b)[1..] == a[1..] + b;
      SumAppend(a[1..], b);
    }
  }

  /** The three decimal digits written after "10=". */
  function ThreeDigits(c: int): seq<byte>
    requires 0 <= c < 256
  {
    [48 + c / 100, 48 + (c / 10) % 10, 48 + c % 10]
  }

  /** The validator reads back exactly the checksum the encoder wrote. */
  lemma {:induction false} ThreeDigitsRead(c: int)
    requires 0 <= c < 256
    ensures CharsToU32(ThreeDigits(c)) == c && IsNumeric(ThreeDigits(c))
  {
    SplitDigits(c);
    ReadThree(c / 100, (c / 10) % 10, c % 10);
  }

  lemma {:induction false} SplitDigits(c: int)
    requires 0 <= c < 256
    ensures 0 <= c / 100 < 10 && 0 <= (c / 10) % 10 < 10 && 0 <= c % 10 < 10
    ensures c == 100 * (c / 100) + 10 * ((c / 10) % 10) + c % 10
  {
    assert c / 10 / 10 == c / 100;
  }

  lemma {:induction false} ReadThree(a: int, b: int, c: int)
    requires 0 <= a < 10 && 0 <= b < 10 && 0 <= c < 10
    ensures CharsToU32([48 + a, 48 + b, 48 + c]) == 100 * a + 10 * b + c && IsNumeric([48 + a, 48 + b, 48 + c])
  {
    var s: seq<byte> := [48 + a, 48 + b, 48 + c];
    assert s[..2] == [48 + a, 48 + b] && s[..2][..1] == [48 + a] && [48 + a as byte][..0] == [];
    assert Accumulate([48 + a]) == a;
    assert Accumulate([48 + a, 48 + b]) == 10 * a + b;
    assert IsDigit(s[0]) && IsDigit(s[1]) && IsDigit(s[2]);
  }

  // ---- 16-bit lanes ---------------------------------------------------------------------------

  type Lane = x: int | 0 <= x < 65536

  function AddLanes(a: seq<Lane>, b: seq<Lane>): (r: seq<Lane>)
    requires |a| == |b|
    ensures |r| == |a|
  {
    if a == [] then [] else [(a[0] as int + b[0] as int) % 65536] + AddLanes(a[1..], b[1..])
  }

  lemma {:induction false} RemainderIs(x: int, k: int, r: int)
    requires 0 <= r < 256 && x == 256 * k + r
    ensures x % 256 == r
  {
  }

  lemma {:induction false} WrapsAway(x: int)
    ensures x % 65536 % 256 == x % 256 && x % U32 % 256 == x % 256
  {
    var y := x % 65536;
    RemainderIs(x, 256 * (x / 65536) + y / 256, y % 256);
    var z := x % U32;
    RemainderIs(x, 0x100_0000 * (x / U32) + z / 256, z % 256);
  }

  lemma {:induction false} Congruent(a: int, b: int, c: int, d: int)
    requires a % 256 == b % 256 && c % 256 == d % 256
    ensures (a + c) % 256 == (b + d) % 256
  {
  }

  lemma {:induction false} Chain(total: int, m: int, x: int, y: int)
    requires total % 256 == (m + y) % 256 && m % 256 == x % 256
    ensures total % 256 == (x + y) % 256
  {
    Congruent(m, x, y, y);
  }

  /** A lane may wrap at 2^16 without changing the total modulo 256. */
  lemma {:induction false} AddLanesSum(a: seq<Lane>, b: seq<Lane>)
    requires |a| == |b|
    ensures Sum(AddLanes(a, b)) % 256 == (Sum(a) + Sum(b)) % 256
  {
    if a != [] {
      AddLanesSum(a[1..], b[1..]);
      var r := AddLanes(a, b);
      assert r[1..] == AddLanes(a[1..], b[1..]);
      var x: int, y: int := a[0], b[0];
      WrapsAway(x + y);
      Congruent(r[0], x + y, Sum(r[1..]), Sum(a[1..]) + Sum(b[1..]));
    }
  }

  /** _mm256_unpacklo_epi8 with zero: the low eight bytes of each 128-bit half, widened. */
  function UnpackLo(block: seq<byte>): seq<Lane>
    requires |block| == 32
  {
    block[0..8] + block[16..24]
  }

  /** _mm256_unpackhi_epi8 with zero: the high eight bytes of each 128-bit half, widened. */
  function UnpackHi(block: seq<byte>): seq<Lane>
    requires |block| == 32
  {
    block[8..16] + block[24..32]
  }

  lemma {:induction false} UnpackSum(block: seq<byte>)
    requires |block| == 32
    ensures Sum(UnpackLo(block)) + Sum(UnpackHi(block)) == Sum(block)
  {
    assert block == ((block[0..8] + block[8..16]) + block[16..24]) + block[24..32];
    SumAppend((block[0..8] + block[8..16]) + block[16..24], block[24..32]);
    SumAppend(block[0..8] + block[8..16], block[16..24]);
    SumAppend(block[0..8], block[8..16]);
    SumAppend(block[0..8], block[16..24]);
    SumAppend(block[8..16], block[24..32]);
  }

  lemma {:induction false} AddLanesTwice(acc: seq<Lane>, lo: seq<Lane>, hi: seq<Lane>)
    requires |acc| == |lo| == |hi|
    ensures Sum(AddLanes(AddLanes(acc, lo), hi)) % 256 == (Sum(acc) + Sum(lo) + Sum(hi)) % 256
  {
    var m := AddLanes(acc, lo);
    AddLanesSum(acc, lo);
    AddLanesSum(m, hi);
    Chain(Sum(AddLanes(m, hi)), Sum(m), Sum(acc) + Sum(lo), Sum(hi));
  }

  lemma {:induction false} SumPrefix(s: seq<int>, i: nat, j: nat)
    requires i <= j <= |s|
    ensures Sum(s[..j]) == Sum(s[..i]) + Sum(s[i..j])
  {
    assert s[..j] == s[..i] + s[i..j];
    SumAppend(s[..i], s[i..j]);
  }

  lemma {:induction false} SumStep(s: seq<int>, i: nat, sum: int)
    requires i < |s| && sum % 256 == Sum(s[..i]) % 256
    ensures (sum + s[i]) % U32 % 256 == Sum(s[..i + 1]) % 256
  {
    SumPrefix(s, i, i + 1);
    assert s[i..i + 1] == [s[i]];
    Congruent(sum, Sum(s[..i]), s[i], s[i]);
    WrapsAway(sum + s[i]);
  }

  /** The loop of encode_checksum_no_simd and validate_checksum_no_simd, with its uint32_t sum. */
  method ScalarChecksum(buffer: seq<byte>) returns (checksum: int)
    ensures checksum == CheckSumOf(buffer)
  {
    var sum := 0;
    for i := 0 to |buffer|
      invariant 0 <= sum < U32 && sum % 256 == Sum(buffer[..i]) % 256
    {
      SumStep(buffer, i, sum);
      sum := (sum + buffer[i]) % U32;
    }
    assert buffer[..|buffer|] == buffer;
    checksum := sum % 256;
  }

  /** The loops of encode_checksum_simd_avx2 and validate_checksum_simd_avx2. */
  method SimdChecksum(buffer: seq<byte>) returns (checksum: int)
    ensures checksum == CheckSumOf(buffer)
  {
    var acc: seq<Lane> := seq(16, _ => 0);
    SumZeros(16);
    var i := 0;
    while i + 32 <= |buffer|
      invariant 0 <= i <= |buffer| && |acc| == 16
      invariant Sum(acc) % 256 == Sum(buffer[..i]) % 256
    {
      var bytes := buffer[i..i + 32];
      AddLanesTwice(acc, UnpackLo(bytes), UnpackHi(bytes));
      UnpackSum(bytes);
      SumPrefix(buffer, i, i + 32);
      Congruent(Sum(acc), Sum(buffer[..i]), Sum(bytes), Sum(bytes));
      acc := AddLanes(acc, UnpackLo(bytes));
      acc := AddLanes(acc, UnpackHi(bytes));
      i := i + 32;
    }
    var total := AddLanes(acc[..8], acc[8..]);
    AddLanesSum(acc[..8], acc[8..]);
    SumPrefix(acc, 8, 16);
    assert acc[..16] == acc && acc[8..16] == acc[8..];

    var sum := 0;
    for j := 0 to 8
      invariant 0 <= sum < U32 && sum % 256 == Sum(total[..j]) % 256
    {
      SumStep(total, j, sum);
      sum := (sum + total[j]) % U32;
    }
    assert total[..8] == total;
    while i < |buffer|
      invariant 0 <= i <= |buffer|
      invariant 0 <= sum < U32 && sum % 256 == Sum(buffer[..i]) % 256
    {
      SumStep(buffer, i, sum);
      sum := (sum + buffer[i]) % U32;
      i := i + 1;
    }
    assert buffer[..|buffer|] == buffer;
    checksum := sum % 256;
  }

  lemma {:induction false} SumZeros(n: nat)
    ensures Sum(seq(n, _ => 0)) == 0
  {
    if n > 0 {
      assert seq(n, _ => 0)[1..] == seq(n - 1, _ => 0);
      SumZeros(n - 1);
    }
  }
}
