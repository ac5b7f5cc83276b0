/** Bytes, options, the two structural bytes of a FIX message, and search over byte strings. */
module Bytes {

  datatype Option<T> = None | Some(value: T)

  type byte = b: int | 0 <= b < 256

  const SOH: byte := 1      // field delimiter
  const EQUALS: byte := 61  // '='
  const PLUS: byte := 43
  const MINUS: byte := 45
  const YES: byte := 89     // 'Y'

  const U32: int := 0x1_0000_0000

  type u32 = n: int | 0 <= n < 0x1_0000_0000

  predicate IsDigit(b: byte) { 48 <= b <= 57 }

  /** One tag/value pair of a message. */
  datatype Field = Field(tag: nat, value: seq<byte>)

  /** Position of the first `c` in `s`, or `|s|` when there is none. */
  function IndexOf(s: seq<byte>, c: byte): (k: nat)
    ensures k <= |s|
    ensures c !in s[..k]
    ensures k < |s| ==> s[k] == c
  {
    if s == [] || s[0] == c then 0 else 1 + IndexOf(s[1..], c)
  }

  lemma {:induction false} IndexOfUnique(s: seq<byte>, c: byte, k: nat)
    requires k < |s| && s[k] == c && c !in s[..k]
    ensures IndexOf(s, c) == k
  {
    if k > 0 {
      assert s[..k][0] == s[0] && s[1..][..k - 1] == s[..k][1..];
      IndexOfUnique(s[1..], c, k - 1);
    }
  }

  lemma {:induction false} IndexOfNone(s: seq<byte>, c: byte)
    requires c !in s
    ensures IndexOf(s, c) == |s|
  {
  }

  /** Concatenation of a list of byte strings. */
  function Concat(ss: seq<seq<byte>>): seq<byte> {
    if ss == [] then [] else ss[0] + Concat(ss[1..])
  }

  lemma {:induction false} ConcatAppend(a: seq<seq<byte>>, b: seq<seq<byte>>)
    ensures Concat(a + b) == Concat(a) + Concat(b)
  {
    if a == [] {
      assert a + b == b;
    } else {
      assert (a + b)[1..] == a[1..] + b;
      ConcatAppend(a[1..], b);
    }
  }
}
