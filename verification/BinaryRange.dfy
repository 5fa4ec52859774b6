/**
 * Binary numerals in simulation/bindings/python/rad_util.py: `int2bin` goes through a table of hexadecimal digits,
 * `binary_range` carries a one through a list of bits, `bin2int` reads a numeral back. They agree.
 */
module BinaryRange {
  import opened Powers
  import opened Lists

  datatype Result<T> = Ok(value: T) | ValueError | KeyError

  predicate IsBinary(s: string) {
    forall i :: 0 <= i < |s| ==> s[i] == '0' || s[i] == '1'
  }

  function Bit(n: nat): char {
    if n % 2 == 0 then '0' else '1'
  }

  /** The n lowest bits of a number, highest first: what the conversions should agree on. */
  function Numeral(k: nat, n: nat): (s: string)
    ensures |s| == n && IsBinary(s)
  {
    if n == 0 then "" else Numeral(k / 2, n - 1) + [Bit(k)]
  }

  /** int(s, 2) on a string of bits. */
  function Bin2Int(s: string): nat
    requires IsBinary(s)
  {
    if s == "" then 0
    else 2 * Bin2Int(s[..|s| - 1]) + if s[|s| - 1] == '1' then 1 else 0
  }

  // ---- int2bin ----

  /** The digits of hex(i), highest first. */
  function HexDigits(i: nat): (digits: seq<nat>)
    ensures digits != [] && forall k :: 0 <= k < |digits| ==> digits[k] < 16
  {
    if i < 16 then [i] else HexDigits(i / 16) + [i % 16]
  }

  const HEX2BIN: seq<string> := [
    "0000", "0001", "0010", "0011", "0100", "0101", "0110", "0111",
    "1000", "1001", "1010", "1011", "1100", "1101", "1110", "1111"]

  function Joined(digits: seq<nat>): string
    requires forall k :: 0 <= k < |digits| ==> digits[k] < 16
  {
    if digits == [] then "" else Joined(digits[..|digits| - 1]) + HEX2BIN[digits[|digits| - 1]]
  }

  /** s[:-n] and s[-n:]; -0 is 0. */
  function AllBut(s: string, n: nat): string {
    if n == 0 || n >= |s| then "" else s[..|s| - n]
  }

  function LastOf(s: string, n: nat): string {
    if n == 0 || n >= |s| then s else s[|s| - n..]
  }

  function Zeros(n: int): string {
    if n <= 0 then "" else Zeros(n - 1) + "0"
  }

  /** The sign of hex(-i) is not in the table. */
  function Int2Bin(i: int, n: nat): Result<string> {
    if i < 0 then KeyError else Fitted(Joined(HexDigits(i)), n)
  }

  function Fitted(result: string, n: nat): Result<string> {
    if '1' in AllBut(result, n) then ValueError
    else Ok(Zeros(n - |LastOf(result, n)|) + LastOf(result, n))
  }

  // ---- Numerals ----

  lemma {:induction false} NumeralReadBack(k: nat, n: nat)
    requires k < Pow2(n)
    ensures Bin2Int(Numeral(k, n)) == k
  {
    if n > 0 {
      NumeralReadBack(k / 2, n - 1);
      var s := Numeral(k, n);
      assert s[..|s| - 1] == Numeral(k / 2, n - 1);
    }
  }

  lemma {:induction false} NumeralOfZero(n: nat)
    ensures Numeral(0, n) == Zeros(n)
  {
    if n > 0 {
      NumeralOfZero(n - 1);
    }
  }

  lemma {:induction false} OnlyZeroHasNoOne(k: nat, n: nat)
    requires k < Pow2(n)
    ensures '1' !in Numeral(k, n) <==> k == 0
  {
    if n > 0 {
      OnlyZeroHasNoOne(k / 2, n - 1);
      assert Numeral(k, n) == Numeral(k / 2, n - 1) + [Bit(k)];
    }
  }

  /** The number without its n lowest bits. */
  function Higher(k: nat, n: nat): nat {
    if n == 0 then k else Higher(k / 2, n - 1)
  }

  /** A longer numeral starts with the higher bits. */
  lemma {:induction false} NumeralSplit(k: nat, m: nat, n: nat)
    ensures Numeral(k, m + n) == Numeral(Higher(k, n), m) + Numeral(k, n)
  {
    if n == 0 {
      assert Numeral(k, m) + "" == Numeral(k, m);
    } else {
      NumeralSplit(k / 2, m, n - 1);
      Regroup(Numeral(Higher(k, n), m), Numeral(k / 2, n - 1), [Bit(k)]);
    }
  }

  lemma {:induction false} HigherBits(k: nat, m: nat, n: nat)
    ensures k < Pow2(m + n) <==> Higher(k, n) < Pow2(m)
    ensures k < Pow2(n) <==> Higher(k, n) == 0
  {
    if n > 0 {
      HigherBits(k / 2, m, n - 1);
    }
  }

  // ---- int2bin agrees with the numeral ----

  lemma FourBits(k: nat)
    ensures Numeral(k, 4) == [Bit(k / 2 / 2 / 2), Bit(k / 2 / 2), Bit(k / 2), Bit(k)]
  {
    assert Numeral(k / 2 / 2 / 2, 1) == [Bit(k / 2 / 2 / 2)];
    assert Numeral(k / 2 / 2, 2) == Numeral(k / 2 / 2 / 2, 1) + [Bit(k / 2 / 2)];
    assert Numeral(k / 2, 3) == Numeral(k / 2 / 2, 2) + [Bit(k / 2)];
  }

  lemma NibbleInTable(d: nat)
    requires d < 16
    ensures HEX2BIN[d] == Numeral(d, 4)
  {
    FourBits(d);
  }

  lemma Halve(a: nat, d: nat)
    ensures (2 * a + d) / 2 == a + d / 2 && Bit(2 * a + d) == Bit(d)
  {
  }

  lemma LowNibble(q: nat, d: nat)
    ensures Numeral(16 * q + d, 4) == Numeral(d, 4)
  {
    FourBits(16 * q + d);
    FourBits(d);
    Halve(8 * q, d);
    Halve(4 * q, d / 2);
    Halve(2 * q, d / 2 / 2);
    Halve(q, d / 2 / 2 / 2);
  }

  lemma FourHigher(i: nat)
    ensures Higher(i, 4) == i / 16 && Pow2(4) == 16
  {
    assert Higher(i / 2 / 2 / 2, 1) == i / 2 / 2 / 2 / 2;
    assert Higher(i / 2 / 2, 2) == Higher(i / 2 / 2 / 2, 1);
    assert Higher(i / 2, 3) == Higher(i / 2 / 2, 2);
    assert Pow2(1) == 2 && Pow2(2) == 4 && Pow2(3) == 8;
  }

  lemma LastNibble(i: nat, n: nat)
    ensures Numeral(i, n + 4) == Numeral(i / 16, n) + Numeral(i % 16, 4)
  {
    NumeralSplit(i, n, 4);
    FourHigher(i);
    LowNibble(i / 16, i % 16);
    assert 16 * (i / 16) + i % 16 == i;
  }

  lemma JoinedMore(digits: seq<nat>, d: nat)
    requires d < 16 && forall k :: 0 <= k < |digits| ==> digits[k] < 16
    ensures Joined(digits + [d]) == Joined(digits) + Numeral(d, 4)
  {
    NibbleInTable(d);
    assert (digits + [d])[..|digits|] == digits;
  }

  lemma {:induction false} JoinedIsNumeral(i: nat)
    ensures Joined(HexDigits(i)) == Numeral(i, 4 * |HexDigits(i)|)
  {
    if i < 16 {
      JoinedMore([], i);
      assert [] + [i] == HexDigits(i);
    } else {
      JoinedIsNumeral(i / 16);
      JoinedMore(HexDigits(i / 16), i % 16);
      LastNibble(i, 4 * |HexDigits(i / 16)|);
    }
  }

  lemma {:induction false} HexDigitsSuffice(i: nat)
    ensures i < Pow2(4 * |HexDigits(i)|)
  {
    FourHigher(i);
    if i >= 16 {
      HexDigitsSuffice(i / 16);
      HigherBits(i, 4 * |HexDigits(i / 16)|, 4);
    }
  }

  lemma PaddedNumeral(i: nat, m: nat, n: nat)
    requires i < Pow2(n)
    ensures Zeros(m) + Numeral(i, n) == Numeral(i, m + n)
  {
    NumeralSplit(i, m, n);
    HigherBits(i, m, n);
    NumeralOfZero(m);
  }

  /** A numeral that is too long is cut exactly when only zeros go. */
  lemma CutNumeral(i: nat, m: nat, n: nat)
    requires n > 0 && m > 0 && i < Pow2(m + n)
    ensures Fitted(Numeral(i, m + n), n) == if i < Pow2(n) then Ok(Numeral(i, n)) else ValueError
  {
    var s := Numeral(i, m + n);
    NumeralSplit(i, m, n);
    assert s[..m] == Numeral(Higher(i, n), m) && s[m..] == Numeral(i, n);
    HigherBits(i, m, n);
    OnlyZeroHasNoOne(Higher(i, n), m);
    assert AllBut(s, n) == s[..m] && LastOf(s, n) == s[m..];
    assert "" + Numeral(i, n) == Numeral(i, n);
  }

  lemma FittedLonger(s: string, n: nat)
    requires n >= |s|
    ensures Fitted(s, n) == Ok(Zeros(n - |s|) + s)
  {
  }

  lemma FittedPadded(i: nat, len: nat, n: nat)
    requires i < Pow2(len) && n >= len
    ensures Fitted(Numeral(i, len), n) == Ok(Numeral(i, n))
  {
    var m := n - len;
    FittedLonger(Numeral(i, len), n);
    PaddedNumeral(i, m, len);
    assert m + len == n;
  }

  lemma Unfitted(s: string)
    ensures Fitted(s, 0) == Ok(s)
  {
    assert "" + s == s;
  }

  lemma FittedNumeral(i: nat, len: nat, n: nat)
    requires i < Pow2(len)
    ensures Fitted(Numeral(i, len), n)
         == if n == 0 then Ok(Numeral(i, len)) else if i < Pow2(n) then Ok(Numeral(i, n)) else ValueError
  {
    if n >= len {
      FittedPadded(i, len, n);
      PowGrows(len, n);
    } else if n > 0 {
      CutNumeral(i, len - n, n);
    } else {
      Unfitted(Numeral(i, len));
    }
  }

  /**
   * For a width of at least one bit, exactly the numbers that fit are converted, to their numeral of that width.
   * Width zero is never refused: the numeral then keeps all its digits.
   */
  lemma Int2BinIsNumeral(i: nat, n: nat)
    ensures n > 0 ==> Int2Bin(i, n) == if i < Pow2(n) then Ok(Numeral(i, n)) else ValueError
    ensures n == 0 ==> Int2Bin(i, n) == Ok(Numeral(i, 4 * |HexDigits(i)|))
  {
    JoinedIsNumeral(i);
    HexDigitsSuffice(i);
    FittedNumeral(i, 4 * |HexDigits(i)|, n);
  }

  // ---- binary_range ----

  /** Adding one to the bits, lowest first; the carry falls out at the end. */
  function Increment(v: string): (string, nat)
    requires IsBinary(v)
  {
    if v == "" then ("", 1)
    else if v[0] == '0' then ("1" + v[1..], 0)
    else
      var (rest, carry) := Increment(v[1..]);
      ("0" + rest, carry)
  }

  /** The n lowest bits, lowest first. */
  function Lowest(k: nat, n: nat): (v: string)
    ensures |v| == n && IsBinary(v)
  {
    if n == 0 then "" else [Bit(k)] + Lowest(k / 2, n - 1)
  }

  function Reverse(s: string): string {
    if s == "" then "" else Reverse(s[1..]) + [s[0]]
  }

  lemma {:induction false} ReversedLowest(k: nat, n: nat)
    ensures Reverse(Lowest(k, n)) == Numeral(k, n)
  {
    if n > 0 {
      ReversedLowest(k / 2, n - 1);
      assert Lowest(k, n)[1..] == Lowest(k / 2, n - 1);
    }
  }

  lemma {:induction false} IncrementCounts(k: nat, n: nat)
    requires k < Pow2(n)
    ensures Increment(Lowest(k, n)) == (Lowest(k + 1, n), if k + 1 == Pow2(n) then 1 else 0)
  {
    if n > 0 {
      var v := Lowest(k, n);
      assert v[1..] == Lowest(k / 2, n - 1);
      if k % 2 == 1 {
        IncrementCounts(k / 2, n - 1);
        assert (k + 1) / 2 == k / 2 + 1;
      } else {
        assert (k + 1) / 2 == k / 2;
      }
    }
  }

  lemma {:induction false} LowestOfZero(n: nat)
    ensures Lowest(0, n) == seq(n, _ => '0')
  {
    if n > 0 {
      LowestOfZero(n - 1);
    }
  }

  /** All numerals of one width in order. */
  function AllNumerals(count: nat, bits: nat): seq<string> {
    seq(count, k requires 0 <= k => Numeral(k, bits))
  }

  /** One pass of the inner loop: the bits are incremented, the last toggle is the carry. */
  method Carry(before: string) returns (v: string, toggle: seq<nat>)
    requires IsBinary(before)
    ensures IsBinary(v) && |v| == |before| && |toggle| == |before| + 1
    ensures Increment(before) == (v, toggle[|before|])
  {
    var bits := |before|;
    v := before;
    toggle := [1] + seq(bits, _ => 0);
    var i := 0;
    assert before[0..] == before && v[..0] + Increment(before).0 == Increment(before).0;
    while i < bits && toggle[i] == 1
      invariant i <= bits && |v| == bits && |toggle| == bits + 1 && IsBinary(v)
      invariant forall j :: i < j <= bits ==> toggle[j] == 0
      invariant toggle[i] == 0 || toggle[i] == 1
      invariant toggle[i] == 1 ==> v[i..] == before[i..]
      invariant toggle[i] == 1 ==>
        Increment(before) == (v[..i] + Increment(before[i..]).0, Increment(before[i..]).1)
      invariant toggle[i] == 0 ==> Increment(before) == (v, 0)
    {
      CarryStep(before, v, i);
      if v[i] == '0' {
        v := v[i := '1'];
        toggle := toggle[i + 1 := 0];
      } else {
        v := v[i := '0'];
        toggle := toggle[i + 1 := 1];
      }
      i := i + 1;
    }
    assert i == bits ==> v[..i] + "" == v;
  }

  lemma CarryStep(before: string, v: string, i: nat)
    requires IsBinary(before) && |v| == |before| && i < |v| && v[i..] == before[i..]
    ensures before[i..][1..] == before[i + 1..] && v[i] == before[i]
    ensures v[i] == '0' ==> v[..i] + Increment(before[i..]).0 == v[i := '1'] && Increment(before[i..]).1 == 0
    ensures v[i] != '0' ==>
              v[..i] + Increment(before[i..]).0 == v[i := '0'][..i + 1] + Increment(before[i + 1..]).0
              && Increment(before[i..]).1 == Increment(before[i + 1..]).1
              && v[i := '0'][i + 1..] == before[i + 1..]
  {
    assert before[i..][0] == before[i] == v[i..][0];
  }

  /** All strings of the width in the order of their values; none at all for width zero. */
  method BinaryRange(bits: nat) returns (l: seq<string>)
    ensures l == if bits == 0 then [] else AllNumerals(Pow2(bits), bits)
  {
    l := [];
    var v: string := seq(bits, _ => '0');
    var toggle: seq<nat> := [1] + seq(bits, _ => 0);
    LowestOfZero(bits);
    while toggle[bits] != 1
      invariant |toggle| == bits + 1 && |l| <= Pow2(bits)
      invariant l == AllNumerals(|l|, bits) && (toggle[bits] != 1 ==> v == Lowest(|l|, bits))
      invariant bits == 0 ==> l == [] && toggle[0] == 1
      invariant bits > 0 ==> (toggle[bits] == 1 <==> |l| == Pow2(bits))
      decreases Pow2(bits) - |l|
    {
      ghost var k := |l|;
      ReversedLowest(k, bits);
      l := l + [Reverse(v)];
      IncrementCounts(k, bits);
      v, toggle := Carry(v);
    }
  }

  /** The ripple-carry loop and the table of hexadecimal digits agree, and reading a string back gives its place. */
  lemma RangeAgrees(bits: nat, k: nat)
    requires bits > 0 && k < Pow2(bits)
    ensures Int2Bin(k, bits) == Ok(AllNumerals(Pow2(bits), bits)[k])
    ensures IsBinary(AllNumerals(Pow2(bits), bits)[k]) && Bin2Int(AllNumerals(Pow2(bits), bits)[k]) == k
  {
    Int2BinIsNumeral(k, bits);
    NumeralReadBack(k, bits);
  }
}
