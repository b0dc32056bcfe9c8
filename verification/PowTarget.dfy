/** Compact proof-of-work targets: their 256-bit value, the hash test, and chain-selection work. */
module PowTarget {
  import opened Primitives
  import opened Crypto
  import opened Bytes

  function Exponent(bits: u32): nat {
    bits / 0x100_0000
  }

  function Mantissa(bits: u32): nat {
    bits % 0x80_0000
  }

  predicate IsNegative(bits: u32) {
    bits / 0x80_0000 % 2 == 1
  }

  function Zeros(n: nat): (s: seq<byte>)
    ensures |s| == n && forall i :: 0 <= i < n ==> s[i] == 0
  {
    seq(n, _ => 0)
  }

  function MantissaBytes(m: nat): (s: seq<byte>)
    requires m < 0x80_0000
    ensures |s| == 3
  {
    [m / 0x1_0000, m / 0x100 % 0x100, m % 0x100]
  }

  /** Expands compact bits to the 32 bytes of the target; `None` for encodings that name no target. */
  function FromCompact(bits: u32): Option<Hash> {
    var e, m := Exponent(bits), Mantissa(bits);
    if IsNegative(bits) || m == 0 then None
    else if e <= 3 then
      var value := m / Pow256(3 - e);
      ShiftedFits(m, e);
      Some(Zeros(29) + MantissaBytes(value))
    else if e > 32 then None
    else Some(Zeros(32 - e) + MantissaBytes(m) + Zeros(e - 3))
  }

  lemma ShiftedFits(m: nat, e: nat)
    requires e <= 3
    ensures 0 <= m / Pow256(3 - e) <= m
  {
  }

  /** Fills the target byte array in place, as the node does. */
  method ExpandCompact(bits: u32) returns (r: Option<Hash>)
    ensures r == FromCompact(bits)
  {
    var exponent := bits / 0x100_0000;
    var mantissa := bits % 0x80_0000;
    if bits / 0x80_0000 % 2 == 1 || mantissa == 0 {
      return None;
    }
    var target := new byte[32](_ => 0);
    if exponent <= 3 {
      ShiftedFits(mantissa, exponent);
      var value := mantissa / Pow256(3 - exponent);
      target[28], target[29], target[30], target[31] :=
        0, value / 0x1_0000, value / 0x100 % 0x100, value % 0x100;
      assert target[..] == Zeros(29) + MantissaBytes(value);
      return Some(target[..]);
    }
    if exponent > 32 {
      return None;
    }
    var offset := 32 - exponent;
    target[offset], target[offset + 1], target[offset + 2] :=
      mantissa / 0x1_0000, mantissa / 0x100 % 0x100, mantissa % 0x100;
    assert target[..] == Zeros(offset) + MantissaBytes(mantissa) + Zeros(exponent - 3);
    return Some(target[..]);
  }

  /** A hash meets a target when its bytes are at most the target's bytes. */
  predicate IsMetBy(target: Hash, hash: Hash) {
    LexLe(hash, target)
  }

  /** Chain-selection work of a target, from its leading and trailing 128-bit halves. */
  function Work(target: Hash): (w: u128)
    ensures w >= 1
  {
    SplitValue(target);
    WorkOfHalves(BigEndian(target[..16]), BigEndian(target[16..]))
  }

  function WorkOfHalves(leading: u128, trailing: u128): (w: u128)
    ensures w >= 1
  {
    var denominator := if leading == 0 then 1 else if leading == U128_MAX then U128_MAX else leading + 1;
    QuotientBounds(denominator);
    var baseWork := U128_MAX / denominator;
    if leading == 0 && trailing != U128_MAX then baseWork - trailing / 2 else baseWork
  }

  lemma QuotientBounds(d: nat)
    requires 1 <= d <= U128_MAX
    ensures 1 <= U128_MAX / d <= U128_MAX
  {
  }

  lemma MantissaValue(m: nat)
    requires m < 0x80_0000
    ensures BigEndian(MantissaBytes(m)) == m
  {
    var s := MantissaBytes(m);
    assert s[..2] == [s[0], s[1]] && s[..2][..1] == [s[0]] && s[..1] == [s[0]] && s[..1][..0] == [];
    assert BigEndian(s[..2]) == 256 * BigEndian([s[0]]) + s[1];
    assert BigEndian([s[0]]) == s[0];
  }

  /** The numeric meaning of the compact form: `mantissa * 256^(exponent - 3)`, a right shift for
      exponents below three; and exactly which encodings are rejected. */
  lemma FromCompactValue(bits: u32)
    ensures FromCompact(bits).None? <==> IsNegative(bits) || Mantissa(bits) == 0 || Exponent(bits) > 32
    ensures FromCompact(bits).Some? ==>
      BigEndian(FromCompact(bits).value) ==
        if Exponent(bits) <= 3 then Mantissa(bits) / Pow256(3 - Exponent(bits))
        else Mantissa(bits) * Pow256(Exponent(bits) - 3)
  {
    hide BigEndian, Pow256, MantissaBytes;
    var e, m := Exponent(bits), Mantissa(bits);
    if FromCompact(bits).Some? {
      if e <= 3 {
        ShiftedFits(m, e);
        PlacedValue(29, m / Pow256(3 - e), 0);
        assert Zeros(29) + MantissaBytes(m / Pow256(3 - e)) + Zeros(0) == Zeros(29) + MantissaBytes(m / Pow256(3 - e));
        PowZero();
      } else {
        PlacedValue(32 - e, m, e - 3);
      }
    }
  }

  lemma PowZero()
    ensures Pow256(0) == 1
  {
  }

  /** Three mantissa bytes between zero bytes. */
  lemma PlacedValue(before: nat, m: nat, after: nat)
    requires m < 0x80_0000
    ensures BigEndian(Zeros(before) + MantissaBytes(m) + Zeros(after)) == m * Pow256(after)
  {
    hide MantissaBytes, BigEndian;
    BigEndianConcat(Zeros(before) + MantissaBytes(m), Zeros(after));
    BigEndianConcat(Zeros(before), MantissaBytes(m));
    BigEndianZeros(Zeros(before));
    BigEndianZeros(Zeros(after));
    MantissaValue(m);
  }

  /** The byte comparison is the numeric comparison. */
  lemma IsMetByIsNumeric(target: Hash, hash: Hash)
    ensures IsMetBy(target, hash) <==> BigEndian(hash) <= BigEndian(target)
  {
    LexIsNumeric(hash, target);
  }

  /** Targets that some compact encoding expands to. */
  ghost predicate Expandable(target: Hash) {
    exists bits: u32 :: FromCompact(bits) == Some(target)
  }

  lemma {:induction false} AllOnes(s: seq<byte>)
    requires BigEndian(s) == Pow256(|s|) - 1
    ensures forall i :: 0 <= i < |s| ==> s[i] == 255
  {
    if s != [] {
      var n := |s| - 1;
      BigEndianBound(s[..n]);
      AllOnes(s[..n]);
      assert forall i :: 0 <= i < n ==> s[i] == s[..n][i];
    }
  }

  /** A compact target has at most three non-zero bytes, so its lower half is never all ones. */
  lemma ExpandableHasNoFullTail(target: Hash)
    requires Expandable(target)
    ensures BigEndian(target[16..]) != U128_MAX
  {
    var bits: u32 :| FromCompact(bits) == Some(target);
    if Exponent(bits) <= 3 {
      assert target[16..][0] == 0;
    } else {
      assert target[16..][15] == 0;
    }
    WidthBounds();
    if BigEndian(target[16..]) == U128_MAX {
      AllOnes(target[16..]);
      assert false;
    }
  }

  lemma SplitValue(target: Hash)
    ensures BigEndian(target) == BigEndian(target[..16]) * Pow256(16) + BigEndian(target[16..])
    ensures BigEndian(target[..16]) <= U128_MAX && BigEndian(target[16..]) <= U128_MAX
  {
    assert target == target[..16] + target[16..];
    BigEndianConcat(target[..16], target[16..]);
    BigEndianBound(target[..16]);
    BigEndianBound(target[16..]);
    WidthBounds();
  }

  lemma HalvesOrdered(a: Hash, b: Hash)
    requires BigEndian(a) <= BigEndian(b)
    ensures BigEndian(a[..16]) < BigEndian(b[..16])
            || (BigEndian(a[..16]) == BigEndian(b[..16]) && BigEndian(a[16..]) <= BigEndian(b[16..]))
  {
    SplitValue(a);
    SplitValue(b);
    WidthBounds();
    if BigEndian(b[..16]) < BigEndian(a[..16]) {
      LeadingByteDecides(BigEndian(b[..16]), BigEndian(a[..16]), Pow256(16), BigEndian(b[16..]), BigEndian(a[16..]));
    }
  }

  lemma QuotientAntitone(n: nat, c: nat, d: nat)
    requires 1 <= c <= d
    ensures n / d <= n / c
  {
    var q := n / d;
    assert q * c <= q * d <= n;
    QuotientIsLargest(n, c, q);
  }

  lemma QuotientIsLargest(n: nat, c: nat, q: nat)
    requires c >= 1 && q * c <= n
    ensures q <= n / c
  {
    var r := n / c;
    assert n < (r + 1) * c;
    if q > r {
      ProductMonotone(r + 1, q, c);
    }
  }

  lemma ProductMonotone(x: nat, y: nat, c: nat)
    requires x <= y
    ensures x * c <= y * c
  {
  }

  lemma HalvesAntitone(la: u128, ta: u128, lb: u128, tb: u128)
    requires ta != U128_MAX && tb != U128_MAX
    requires la < lb || (la == lb && ta <= tb)
    ensures WorkOfHalves(la, ta) >= WorkOfHalves(lb, tb)
  {
    if lb > 0 {
      var db := if lb == U128_MAX then U128_MAX else lb + 1;
      if la > 0 {
        QuotientAntitone(U128_MAX, if la == U128_MAX then U128_MAX else la + 1, db);
      } else {
        QuotientAntitone(U128_MAX, 2, db);
      }
    }
  }

  /** A smaller target never counts for less work, also across the boundary between targets with
      and without a leading half. */
  lemma WorkIsAntitone(a: Hash, b: Hash)
    requires Expandable(a) && Expandable(b)
    requires BigEndian(a) <= BigEndian(b)
    ensures Work(a) >= Work(b) >= 1
  {
    ExpandableHasNoFullTail(a);
    ExpandableHasNoFullTail(b);
    HalvesOrdered(a, b);
    SplitValue(a);
    SplitValue(b);
    HalvesAntitone(BigEndian(a[..16]), BigEndian(a[16..]), BigEndian(b[..16]), BigEndian(b[16..]));
  }

  // ---- Values -----------------------------------------------------------------------------

  /** The exponent is the first of the four bytes of `bits`, the sign is the top bit of the second, and
      the mantissa is the rest. */
  lemma BytesOfBits(bits: u32, e: byte, x: byte, y: byte, z: byte)
    requires bits == BigEndian([e, x, y, z])
    ensures FromCompact(bits).None? <==> x >= 128 || (x == 0 && y == 0 && z == 0) || e > 32
    ensures FromCompact(bits).Some? ==>
              BigEndian(FromCompact(bits).value) ==
              if e <= 3 then BigEndian([x, y, z]) / Pow256(3 - e) else BigEndian([x, y, z]) * Pow256(e - 3)
  {
    hide BigEndian, Pow256, FromCompact, Exponent, Mantissa, IsNegative;
    FourBytes(e, x, y, z);
    FieldsOfBits(bits, e, 0x1_0000 * x + 0x100 * y + z);
    FromCompactValue(bits);
  }

  lemma FieldsOfBits(bits: u32, e: byte, low: nat)
    requires low < 0x100_0000 && bits == 0x100_0000 * e + low
    ensures Exponent(bits) == e
    ensures IsNegative(bits) <==> low >= 0x80_0000
    ensures low < 0x80_0000 ==> Mantissa(bits) == low
  {
  }

  lemma FourBytes(e: byte, x: byte, y: byte, z: byte)
    ensures BigEndian([x, y, z]) == 0x1_0000 * x + 0x100 * y + z
    ensures BigEndian([e, x, y, z]) == 0x100_0000 * e + BigEndian([x, y, z])
  {
    var s := [e, x, y, z];
    assert s[..3] == [e, x, y] && [e, x, y][..2] == [e, x] && [e, x][..1] == [e] && [e][..0] == [];
    assert [x, y, z][..2] == [x, y] && [x, y][..1] == [x] && [x][..0] == [];
    assert BigEndian([e]) == e && BigEndian([x]) == x;
    assert BigEndian([e, x]) == 256 * e + x && BigEndian([x, y]) == 256 * x + y;
    assert BigEndian([e, x, y]) == 0x1_0000 * e + 0x100 * x + y;
  }

  /** The number in the upper 128 bits of a target. */
  function Leading(target: Hash): nat {
    BigEndian(target) / 0x1_0000_0000_0000_0000_0000_0000_0000_0000
  }

  /** The number in the lower 128 bits of a target. */
  function Trailing(target: Hash): nat {
    BigEndian(target) % 0x1_0000_0000_0000_0000_0000_0000_0000_0000
  }

  lemma HalvesAreDigits(target: Hash)
    ensures BigEndian(target[..16]) == Leading(target) <= U128_MAX
    ensures BigEndian(target[16..]) == Trailing(target) <= U128_MAX
  {
    hide BigEndian, Pow256;
    SplitValue(target);
    WidthBounds();
  }

  /** The work of a target by its value. With something in the upper half it is the largest number whose
      product with one more than that half stays within 128 bits, except that an all-ones half does not
      count as one more. Otherwise it falls by one for every two steps of the lower half. */
  lemma WorkValue(target: Hash)
    ensures var l, t, w := Leading(target), Trailing(target), Work(target);
            && (0 < l < U128_MAX ==> w * (l + 1) <= U128_MAX < (w + 1) * (l + 1))
            && (l == U128_MAX ==> w == 1)
            && (l == 0 && t != U128_MAX ==> w == U128_MAX - t / 2)
            && (l == 0 && t == U128_MAX ==> w == U128_MAX)
  {
    hide BigEndian, Pow256;
    HalvesAreDigits(target);
    var l := Leading(target);
    if 0 < l < U128_MAX {
      QuotientIsExact(U128_MAX, l + 1);
    }
  }

  lemma QuotientIsExact(n: nat, d: nat)
    requires d >= 1
    ensures n / d * d <= n < (n / d + 1) * d
  {
  }

  /** A target whose upper half, plus one, is at most half of another's counts for more work, with one
      exception: against an all-ones upper half, a target exactly half as large counts for one as well. */
  lemma HalvedTargetHasMoreWork(a: Hash, b: Hash)
    requires 0 < Leading(a) && Leading(b) + 1 >= 2 * (Leading(a) + 1)
    ensures Work(a) > Work(b) <==> !(Leading(b) == U128_MAX && 2 * (Leading(a) + 1) == U128_MAX + 1)
    ensures Leading(b) < U128_MAX ==> Work(a) >= 2 * Work(b)
  {
    hide BigEndian, Pow256, Work, Leading, Trailing;
    WorkValue(a);
    WorkValue(b);
    HalvesAreDigits(b);
    if Leading(b) < U128_MAX {
      HalvingDoubles(Work(a), Leading(a) + 1, Work(b), Leading(b) + 1, U128_MAX);
    } else {
      FactorOfTwo(Work(a), Leading(a) + 1, U128_MAX);
    }
  }

  lemma HalvingDoubles(wa: nat, da: nat, wb: nat, db: nat, n: nat)
    requires wb * db <= n < (wa + 1) * da && 2 * da <= db
    ensures 2 * wb <= wa
  {
    ProductMonotone(2 * da, db, wb);
    assert (2 * wb) * da == (2 * da) * wb;
    LargestFactor(wa, 2 * wb, da, n);
  }

  lemma FactorOfTwo(w: nat, d: nat, n: nat)
    requires w * d <= n < (w + 1) * d
    ensures w >= 2 <==> 2 * d <= n
  {
    if w >= 2 {
      ProductMonotone(2, w, d);
    } else {
      ProductMonotone(w + 1, 2, d);
    }
  }

  lemma LargestFactor(w: nat, v: nat, d: nat, n: nat)
    requires v * d <= n < (w + 1) * d
    ensures v <= w
  {
    if v > w {
      ProductMonotone(w + 1, v, d);
    }
  }

  /** Targets at which the exception arises. */
  lemma HalvedTargetException() returns (a: Hash, b: Hash)
    ensures 0 < Leading(a) && Leading(b) + 1 >= 2 * (Leading(a) + 1) && Work(a) == Work(b) == 1
  {
    a, b := [127] + Ones(15) + Zeros(16), Ones(32);
    assert a[..16] == [127] + Ones(15) && b[..16] == Ones(16);
    BigEndianCons(a[..16]);
    assert a[..16][1..] == Ones(15);
    OnesValue(15);
    OnesValue(16);
    assert Pow256(16) == 256 * Pow256(15);
    WidthBounds();
    HalvesAreDigits(a);
    HalvesAreDigits(b);
    HalvedTargetHasMoreWork(a, b);
    WorkValue(b);
  }

  function Ones(n: nat): (s: seq<byte>)
    ensures |s| == n
  {
    seq(n, _ => 255)
  }

  lemma {:induction false} OnesValue(n: nat)
    ensures BigEndian(Ones(n)) == Pow256(n) - 1
  {
    if n > 0 {
      OnesValue(n - 1);
      assert Ones(n)[..n - 1] == Ones(n - 1);
    }
  }

  /** A target below 2^128 counts for more than any target above it; below 2^128 two targets differ in
      work exactly when they differ by more than the lowest bit. */
  lemma SmallTargetHasMoreWork(a: Hash, b: Hash)
    requires Leading(a) == 0 && Trailing(a) != U128_MAX
    ensures Leading(b) > 0 ==> Work(a) > Work(b)
    ensures Leading(b) == 0 && Trailing(b) != U128_MAX ==> (Work(a) > Work(b) <==> Trailing(a) / 2 < Trailing(b) / 2)
  {
    hide BigEndian, Pow256, Work, Leading, Trailing;
    WorkValue(a);
    WorkValue(b);
    HalvesAreDigits(a);
    HalvesAreDigits(b);
    if 0 < Leading(b) < U128_MAX {
      ProductMonotone(2, Leading(b) + 1, Work(b));
    }
  }

  /** A target some compact encoding names never has an all-ones half, so the exceptions do not arise. */
  lemma ExpandableIsOrdinary(target: Hash)
    requires Expandable(target)
    ensures Leading(target) < U128_MAX && Trailing(target) < U128_MAX
  {
    hide BigEndian, Pow256;
    ExpandableHasNoFullTail(target);
    ExpandableHasNoFullHead(target);
    HalvesAreDigits(target);
  }

  lemma ExpandableHasNoFullHead(target: Hash)
    requires Expandable(target)
    ensures BigEndian(target[..16]) != U128_MAX
  {
    var bits: u32 :| FromCompact(bits) == Some(target);
    assert target[..16][15] == 0 || target[..16][0] == 0;
    WidthBounds();
    if BigEndian(target[..16]) == U128_MAX {
      AllOnes(target[..16]);
      assert false;
    }
  }

  lemma PowThirteen()
    ensures Pow256(12) == 0x1_0000_0000_0000_0000_0000_0000
    ensures Pow256(13) == 0x100_0000_0000_0000_0000_0000_0000
    ensures Pow256(29) == Pow256(13) * Pow256(16) && Pow256(28) == Pow256(12) * Pow256(16)
  {
    WidthBounds();
    PowAdd(8, 4);
    PowAdd(12, 1);
    PowAdd(13, 16);
    PowAdd(12, 16);
  }

  /** The two difficulties the chain tests compare count for 2 and for 65537. */
  lemma TestDifficulties()
    ensures FromCompact(0x207f_ffff).Some? && Work(FromCompact(0x207f_ffff).value) == 2
    ensures FromCompact(0x1f00_ffff).Some? && Work(FromCompact(0x1f00_ffff).value) == 65537
  {
    hide BigEndian, Pow256, Work, FromCompact;
    FromCompactValue(0x207f_ffff);
    FromCompactValue(0x1f00_ffff);
    PowThirteen();
    WidthBounds();
    WorkValue(FromCompact(0x207f_ffff).value);
    WorkValue(FromCompact(0x1f00_ffff).value);
  }
}
