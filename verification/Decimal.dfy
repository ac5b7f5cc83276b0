/** The decimal converters of core/utilities/converters.h, with their 32-bit wrap-around. */
module Decimal {
  import opened Bytes

  /** Canonical decimal text of a number. */
  function Digits(n: nat): (s: seq<byte>)
    ensures |s| > 0
    ensures forall i :: 0 <= i < |s| ==> IsDigit(s[i])
  {
    if n < 10 then [48 + n] else Digits(n / 10) + [48 + n % 10]
  }

  /** A byte read as a signed char, as on the platforms the source targets. */
  function SignedChar(b: byte): int { if b < 128 then b else b - 256 }

  /** Value of a run of characters, one `result * 10 + (c - '0')` per character in uint32_t arithmetic. */
  function Accumulate(s: seq<byte>): (n: nat)
    ensures n < U32
  {
    if s == [] then 0 else (Accumulate(s[..|s| - 1]) * 10 + SignedChar(s[|s| - 1]) - 48) % U32
  }

  /** chars_to_unsigned_int<uint32_t>: a leading plus sign is skipped. */
  function CharsToU32(s: seq<byte>): (n: nat)
    ensures n < U32
  {
    if s != [] && s[0] == PLUS then Accumulate(s[1..]) else Accumulate(s)
  }

  /** FixStringView::is_numeric: optional sign, then at least one digit and nothing else. */
  predicate IsNumeric(s: seq<byte>) {
    Unsigned(s) != [] && AllDigits(Unsigned(s))
  }

  predicate AllDigits(s: seq<byte>) {
    forall i :: 0 <= i < |s| ==> IsDigit(s[i])
  }

  /** The characters behind an optional sign. */
  function Unsigned(s: seq<byte>): seq<byte> {
    if s != [] && (s[0] == PLUS || s[0] == MINUS) then s[1..] else s
  }

  /** A number is written as digits, at least one, behind at most one sign; nothing else is numeric. */
  lemma {:induction false} NumericExact(s: seq<byte>)
    ensures IsNumeric(s) <==>
      exists sign: seq<byte>, digits: seq<byte> ::
        && s == sign + digits && sign in {[], [43], [45]} && digits != []
        && AllDigits(digits)
  {
    if IsNumeric(s) {
      var sign: seq<byte> := if s[0] == PLUS || s[0] == MINUS then [s[0]] else [];
      assert s == sign + Unsigned(s);
      assert forall i :: 0 <= i < |Unsigned(s)| ==> IsDigit(Unsigned(s)[i]);
    }
    forall sign: seq<byte>, digits: seq<byte> | s == sign + digits && sign in {[], [43], [45]} && digits != []
      ensures AllDigits(digits) ==> IsNumeric(s)
    {
      if AllDigits(digits) {
        assert IsDigit(digits[0]);
        assert sign == [] ==> s == digits;
        assert Unsigned(s) == digits;
      }
    }
  }

  /** A plus sign in front of digits makes no difference to the number read. */
  lemma {:induction false} PlusIgnored(s: seq<byte>)
    requires s != [] && AllDigits(s)
    ensures CharsToU32([43] + s) == CharsToU32(s) == Accumulate(s)
  {
    assert ([43 as byte] + s)[1..] == s && IsDigit(s[0]);
  }

  /** `a` moved up by the factor `p`, with `b` behind it. */
  function Joined(a: nat, p: nat, b: nat): nat {
    (a * p + b) % U32
  }

  /** What a run of digits is worth: reading on shifts what was read and adds the rest, modulo 2^32. */
  lemma {:induction false} AccumulateAppend(a: seq<byte>, b: seq<byte>)
    requires AllDigits(b)
    ensures Accumulate(a + b) == Joined(Accumulate(a), Pow(10, |b|), Accumulate(b))
    decreases |b|
  {
    hide Accumulate, Pow, Joined;
    if b == [] {
      NothingRead(a);
      assert a + b == a;
    } else {
      var front, x := b[..|b| - 1], b[|b| - 1] - 48;
      AccumulateAppend(a, front);
      AccumulateSnoc(a + front, b[|b| - 1]);
      AccumulateSnoc(front, b[|b| - 1]);
      assert (a + front) + [b[|b| - 1]] == a + b && front + [b[|b| - 1]] == b;
      PowStep(|front|);
      ReadOn(Accumulate(a), Pow(10, |front|), Pow(10, |b|), Accumulate(front), x);
    }
  }

  lemma {:induction false} PowStep(k: nat)
    ensures Pow(10, k + 1) == 10 * Pow(10, k)
  {
  }

  lemma {:induction false} ReadOn(a: nat, p: nat, next: nat, q: nat, x: nat)
    requires next == 10 * p
    ensures Joined(Joined(a, p, q), 10, x) == Joined(a, next, Joined(q, 10, x))
  {
    ModularStep(a * p, q, x);
    ShiftedStep(a, p, q, x);
  }

  lemma {:induction false} NothingRead(a: seq<byte>)
    ensures Accumulate(a) == Joined(Accumulate(a), Pow(10, 0), Accumulate([]))
  {
  }

  lemma {:induction false} AccumulateSnoc(s: seq<byte>, c: byte)
    requires IsDigit(c)
    ensures Accumulate(s + [c]) == Joined(Accumulate(s), 10, c - 48)
  {
    assert (s + [c])[..|s|] == s;
  }

  lemma {:induction false} ModularStep(p: int, q: int, x: int)
    ensures ((p + q) % U32 * 10 + x) % U32 == (p * 10 + q * 10 + x) % U32
  {
    var k := (p + q) / U32;
    assert (p + q) % U32 == p + q - k * U32;
    assert ((p + q) % U32 * 10 + x) == p * 10 + q * 10 + x - (10 * k) * U32;
    MultipleAway(p * 10 + q * 10 + x, 10 * k);
  }

  lemma {:induction false} MultipleAway(y: int, k: int)
    ensures (y - k * U32) % U32 == y % U32
  {
    var q, r := y / U32, y % U32;
    assert y - k * U32 == (q - k) * U32 + r;
  }

  lemma {:induction false} ShiftedStep(a: int, p: int, q: int, x: int)
    ensures (a * p * 10 + q * 10 + x) % U32 == (a * (10 * p) + (q * 10 + x) % U32) % U32
  {
    var y := q * 10 + x;
    assert a * p * 10 == a * (10 * p);
    var k := y / U32;
    assert y % U32 == y - k * U32;
    MultipleAway(a * (10 * p) + y, k);
  }

  lemma {:induction false} AccumulateDigits(n: nat)
    requires n < U32
    ensures Accumulate(Digits(n)) == n
  {
    var s := Digits(n);
    if n >= 10 {
      assert s[..|s| - 1] == Digits(n / 10);
      AccumulateDigits(n / 10);
    } else {
      assert s[..|s| - 1] == [];
    }
  }

  /** Reading back a written number gives that number, for every uint32_t. */
  lemma {:induction false} CharsToU32Digits(n: nat)
    requires n < U32
    ensures CharsToU32(Digits(n)) == n
    ensures IsNumeric(Digits(n))
  {
    AccumulateDigits(n);
    assert IsDigit(Digits(n)[0]);
  }

  function Pow(base: nat, k: nat): (p: nat)
    requires base > 0
    ensures p > 0
  {
    if k == 0 then 1 else base * Pow(base, k - 1)
  }

  /** `Digits(n)` is as long as the number of powers of ten up to `n`. */
  lemma {:induction false} DigitsLength(n: nat)
    ensures n < Pow(10, |Digits(n)|)
    ensures n > 0 ==> Pow(10, |Digits(n)| - 1) <= n
  {
    if n >= 10 {
      DigitsLength(n / 10);
    }
  }

  lemma {:induction false} PowMonotone(base: nat, j: nat, k: nat)
    requires base > 0 && j <= k
    ensures Pow(base, j) <= Pow(base, k)
  {
    if j < k {
      PowMonotone(base, j, k - 1);
      var p := Pow(base, k - 1);
      assert base * p >= 1 * p;
    }
  }

  /** Number of bits of `v | 1`, that is 32 minus its leading zero count. */
  function BitLength(v: nat): (b: nat)
    ensures b >= 1
  {
    if v < 2 then 1 else 1 + BitLength(v / 2)
  }

  lemma {:induction false} BitLengthBounds(v: nat)
    ensures v < Pow(2, BitLength(v))
    ensures v > 0 ==> Pow(2, BitLength(v) - 1) <= v
  {
    if v >= 2 {
      BitLengthBounds(v / 2);
    }
  }

  const POWERS_OF_TEN: seq<nat> :=
    [0, 10, 100, 1000, 10000, 100000, 1000000, 10000000, 100000000, 1000000000]

  /** Where the bit length crosses the rows of the digit table. */
  lemma {:induction false} BitLengthRows(v: nat)
    requires v < U32
    ensures BitLength(v) <= 32
    ensures (v < 8 <==> BitLength(v) <= 3) && (v < 64 <==> BitLength(v) <= 6) && (v < 512 <==> BitLength(v) <= 9)
    ensures (v < 8192 <==> BitLength(v) <= 13) && (v < 65536 <==> BitLength(v) <= 16)
    ensures (v < 524288 <==> BitLength(v) <= 19) && (v < 8388608 <==> BitLength(v) <= 23)
    ensures (v < 67108864 <==> BitLength(v) <= 26) && (v < 536870912 <==> BitLength(v) <= 29)
  {
    BitLengthRow(v, 3); BitLengthRow(v, 6); BitLengthRow(v, 9); BitLengthRow(v, 13); BitLengthRow(v, 16);
    BitLengthRow(v, 19); BitLengthRow(v, 23); BitLengthRow(v, 26); BitLengthRow(v, 29); BitLengthRow(v, 32);
    assert Pow(2, 16) == 65536;
    assert Pow(2, 26) == 67108864;
    assert Pow(2, 32) == 64 * Pow(2, 26);
  }

  lemma {:induction false} BitLengthRow(v: nat, k: nat)
    requires k > 0
    ensures v < Pow(2, k) <==> BitLength(v) <= k
  {
    BitLengthBounds(v);
    if BitLength(v) <= k {
      PowMonotone(2, BitLength(v), k);
    } else {
      PowMonotone(2, k, BitLength(v) - 1);
    }
  }

  lemma {:induction false} DigitsLengthRow(n: nat, k: nat)
    requires k > 0
    ensures n < Pow(10, k) <==> |Digits(n)| <= k
  {
    DigitsLength(n);
    if |Digits(n)| <= k {
      PowMonotone(10, |Digits(n)|, k);
    } else {
      PowMonotone(10, k, |Digits(n)| - 1);
    }
  }

  lemma {:induction false} DigitsLengthRows(n: nat)
    requires n < U32
    ensures 1 <= |Digits(n)| <= 10
    ensures forall k :: 1 <= k < 10 ==> (n < POWERS_OF_TEN[k] <==> |Digits(n)| <= k)
  {
    DigitsLengthRow(n, 1); DigitsLengthRow(n, 2); DigitsLengthRow(n, 3); DigitsLengthRow(n, 4); DigitsLengthRow(n, 5);
    DigitsLengthRow(n, 6); DigitsLengthRow(n, 7); DigitsLengthRow(n, 8); DigitsLengthRow(n, 9); DigitsLengthRow(n, 10);
    assert Pow(10, 5) == 100000;
    assert Pow(10, 10) == 10000000000;
  }

  /** get_chars_length_of_uint32_t: digit count from the bit length and one table look-up. */
  function CharsLength(v: nat): nat
    requires v < U32
  {
    BitLengthRows(v);
    var t := BitLength(v) * 1233 / 4096;
    t + 1 - (if v < POWERS_OF_TEN[t] then 1 else 0)
  }

  /** The fast digit count is exact on all of uint32_t. */
  lemma {:induction false} CharsLengthExact(v: nat)
    requires v < U32
    ensures CharsLength(v) == |Digits(v)|
  {
    BitLengthRows(v);
    DigitsLengthRows(v);
    var t := BitLength(v) * 1233 / 4096;
    assert t < 9 ==> v < POWERS_OF_TEN[t + 1];
    assert t > 1 ==> POWERS_OF_TEN[t - 1] <= v;
  }

  /** unsigned_int_to_chars<uint32_t>: fills the buffer backwards from the precomputed length. */
  method UnsignedIntToChars(number: nat) returns (text: seq<byte>)
    requires number < U32
    ensures text == Digits(number)
  {
    CharsLengthExact(number);
    var length := CharsLength(number);
    var buffer := new byte[length](_ => 48);
    var target := length - 1;
    var n := number;
    buffer[target] := 48 + (n - (n / 10) * 10);
    n := n / 10;
    while n != 0
      invariant 0 <= target < length
      invariant n == 0 ==> target == 0
      invariant n != 0 ==> |Digits(n)| == target
      invariant Digits(number) == (if n == 0 then [] else Digits(n)) + buffer[target..]
      decreases n
    {
      target := target - 1;
      buffer[target] := 48 + (n - (n / 10) * 10);
      n := n / 10;
    }
    text := buffer[..];
  }

  /** chars_to_unsigned_int<uint32_t> as the loop it is. */
  method CharsToUnsignedInt(buffer: seq<byte>) returns (result: nat)
    ensures result == CharsToU32(buffer)
  {
    result := 0;
    var start := if |buffer| > 0 && buffer[0] == PLUS then 1 else 0;
    for i := start to |buffer|
      invariant result == Accumulate(buffer[start..i])
    {
      assert buffer[start..i + 1][..i - start] == buffer[start..i];
      result := (result * 10 + SignedChar(buffer[i]) - 48) % U32;
    }
    assert buffer[start..|buffer|] == buffer[start..];
    assert buffer[0..] == buffer;
  }
}
