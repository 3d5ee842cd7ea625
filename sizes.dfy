/**
 * Human-readable sizes: `convertFileSize` (int64 sizes, bytes/KB/MB/GB/TB), `formatBytes`
 * (uint64 byte counts, B/KB/…/EB) and the byte arithmetic of `GetDiskInfo`, in utils.go and
 * pkg/utils.go (the two copies are identical). A scaled size is kept as the exact quotient it
 * prints; the `%.2f`/`%.1f` rendering of that quotient is not modelled.
 */
module Sizes {
  import opened Wrappers
  import opened Text

  newtype int64 = x: int | -0x8000_0000_0000_0000 <= x < 0x8000_0000_0000_0000
  newtype uint64 = x: int | 0 <= x < 0x1_0000_0000_0000_0000

  const TwoTo64: int := 0x1_0000_0000_0000_0000

  /** 1024 to the power e. */
  function Pow1024(e: nat): (p: nat)
    ensures p >= 1
  {
    if e == 0 then 1 else 1024 * Pow1024(e - 1)
  }

  lemma {:induction false} Pow1024Monotone(a: nat, b: nat)
    requires a <= b
    ensures Pow1024(a) <= Pow1024(b)
    decreases b
  {
    if a < b {
      Pow1024Monotone(a, b - 1);
    }
  }

  /**
   * A size as `convertFileSize` or `formatBytes` prints it: an exact decimal text, or the quotient
   * value / divisor printed with `decimals` digits and the unit at index `exp` of the unit list.
   */
  datatype SizeText =
    | Exact(text: string)
    | Scaled(value: int, divisor: nat, decimals: nat, exp: nat, unit: string)

  const FileUnits: seq<string> := ["KB", "MB", "GB", "TB"]
  const ByteUnits: seq<string> := ["KB", "MB", "GB", "TB", "PB", "EB"]

  /** Bytes rank 0; a scaled size ranks one above the index of its unit. */
  function Rank(t: SizeText): nat {
    if t.Exact? then 0 else t.exp + 1
  }

  /**
   * The unit exponent of a size of at least 1024: the e for which 1024^(e+1) <= x < 1024^(e+2).
   */
  function UnitExponent(x: int): nat
    requires x >= 1024
    decreases x
  {
    if x < 1024 * 1024 then 0 else 1 + UnitExponent(x / 1024)
  }

  lemma {:induction false} UnitExponentBounds(x: int)
    requires x >= 1024
    ensures Pow1024(UnitExponent(x) + 1) <= x < Pow1024(UnitExponent(x) + 2)
    decreases x
  {
    if x >= 1024 * 1024 {
      UnitExponentBounds(x / 1024);
    }
  }

  /** The bounds pin the exponent down: only one e has 1024^(e+1) <= x < 1024^(e+2). */
  lemma UnitExponentUnique(x: int, e: nat)
    requires Pow1024(e + 1) <= x < Pow1024(e + 2)
    ensures x >= 1024 && UnitExponent(x) == e
  {
    Pow1024Monotone(1, e + 1);
    UnitExponentBounds(x);
    var u := UnitExponent(x);
    if u < e {
      Pow1024Monotone(u + 2, e + 1);
    } else if e < u {
      Pow1024Monotone(e + 2, u + 1);
    }
  }

  lemma UnitExponentMonotone(a: int, b: int)
    requires 1024 <= a <= b
    ensures UnitExponent(a) <= UnitExponent(b)
  {
    UnitExponentBounds(a);
    UnitExponentBounds(b);
    if UnitExponent(b) < UnitExponent(a) {
      Pow1024Monotone(UnitExponent(b) + 2, UnitExponent(a) + 1);
    }
  }

  // ---- convertFileSize ----

  /** `convertFileSize(size)`: the thresholds kbUnit, mbUnit, gbUnit and tbUnit, in that order. */
  function ConvertFileSize(size: int64): (r: SizeText)
    ensures size == 0 ==> r == Exact("0 bytes")
    ensures size != 0 && size < 1024 ==> r == Exact(IntToString(size as int) + " bytes")
    ensures r.Exact? <==> size < 1024
    ensures r.Scaled? ==>
              r.value == size as int && r.decimals == 2 && r.exp < |FileUnits| &&
              r.unit == FileUnits[r.exp] && r.divisor == Pow1024(r.exp + 1) && r.divisor <= size as int &&
              (r.exp < 3 ==> size as int < 1024 * r.divisor)
  {
    if size == 0 then Exact("0 bytes")
    else if size < 1024 then Exact(IntToString(size as int) + " bytes")
    else if size < 1024 * 1024 then Scaled(size as int, 1024, 2, 0, "KB")
    else if size < 1024 * 1024 * 1024 then Scaled(size as int, 1024 * 1024, 2, 1, "MB")
    else if size < 1024 * 1024 * 1024 * 1024 then Scaled(size as int, 1024 * 1024 * 1024, 2, 2, "GB")
    else Scaled(size as int, 1024 * 1024 * 1024 * 1024, 2, 3, "TB")
  }

  /** The zero case prints what the general small case would print. */
  lemma ZeroIsSmallCase()
    ensures ConvertFileSize(0) == Exact(IntToString(0) + " bytes")
  {
  }

  /** Negative sizes take the `< kbUnit` branch and print as `-`, the digits of the magnitude, ` bytes`. */
  lemma NegativeSizes(size: int64)
    requires size < 0
    ensures ConvertFileSize(size).Exact?
    ensures var t := ConvertFileSize(size).text;
      |t| > 7 && t[0] == '-' && t[|t| - 6..] == " bytes" && ParseNat(t[1..|t| - 6]) == -(size as int)
  {
    var d := IntToString(size as int);
    var t := d + " bytes";
    assert t[1..|t| - 6] == d[1..];
    assert t[|t| - 6..] == " bytes";
  }

  /** A size from 0 to 1023 prints as its own digits followed by ` bytes`. */
  lemma SmallSizesExact(size: int64)
    requires 0 <= size < 1024
    ensures ConvertFileSize(size).Exact?
    ensures var t := ConvertFileSize(size).text;
      |t| > 6 && t[|t| - 6..] == " bytes" && ParseNat(t[..|t| - 6]) == size as int
  {
    var d := IntToString(size as int);
    var t := d + " bytes";
    assert t[..|t| - 6] == d;
    assert t[|t| - 6..] == " bytes";
    assert ConvertFileSize(size).text == t;
  }

  /** Below terabytes the unit is the one the exponent of the size selects; above, it stays TB. */
  lemma ConvertFileSizeExponent(size: int64)
    requires size >= 1024
    ensures ConvertFileSize(size).exp == if UnitExponent(size as int) < 3 then UnitExponent(size as int) else 3
  {
    var r := ConvertFileSize(size);
    if r.exp < 3 {
      UnitExponentUnique(size as int, r.exp);
    } else {
      UnitExponentBounds(size as int);
    }
  }

  /** A larger size never gets a smaller unit. */
  lemma ConvertFileSizeMonotone(a: int64, b: int64)
    requires a <= b
    ensures Rank(ConvertFileSize(a)) <= Rank(ConvertFileSize(b))
  {
    if a >= 1024 {
      ConvertFileSizeExponent(a);
      ConvertFileSizeExponent(b);
      UnitExponentMonotone(a as int, b as int);
    }
  }

  // ---- formatBytes ----

  lemma DivBounds(b: nat, d: nat)
    requires d > 0
    ensures (b / d) * d <= b < (b / d + 1) * d
  {
  }

  lemma MulLeq(a: nat, b: nat, c: nat)
    requires a <= b
    ensures a * c <= b * c
  {
  }

  lemma DivUnique(b: nat, m: nat, q: nat, r: nat)
    requires m > 0 && b == q * m + r && r < m
    ensures b / m == q
  {
    DivBounds(b, m);
    var p := b / m;
    if p < q {
      MulLeq(p + 1, q, m);
      assert false;
    } else if p > q {
      MulLeq(q + 1, p, m);
      assert false;
    }
  }

  lemma Regroup(q2: nat, k: nat, r2: nat, d: nat, r: nat)
    ensures (q2 * k + r2) * d + r == q2 * (d * k) + (r2 * d + r)
  {
  }

  lemma RemainderBound(r2: nat, k: nat, d: nat, r: nat)
    requires r2 < k && r < d
    ensures r2 * d + r < d * k
  {
    assert r2 * d <= (k - 1) * d;
  }

  lemma DivDiv(b: nat, d: nat, k: nat)
    requires d > 0 && k > 0
    ensures b / d / k == b / (d * k)
  {
    var q, r := b / d, b % d;
    var q2, r2 := q / k, q % k;
    assert b == q * d + r;
    assert q == q2 * k + r2;
    Regroup(q2, k, r2, d, r);
    RemainderBound(r2, k, d, r);
    DivUnique(b, d * k, q2, r2 * d + r);
  }

  /** One more round of the loop: the divisor grows by 1024 and still fits below the value. */
  lemma NextDivisor(b: nat, d: nat)
    requires d > 0 && b / d >= 1024
    ensures 1024 * d <= b
    ensures b / d / 1024 == b / (d * 1024)
  {
    DivBounds(b, d);
    MulLeq(1024, b / d, d);
    DivDiv(b, d, 1024);
  }

  /** `formatBytes(bytes)`: exact bytes below 1024, otherwise the loop's divisor and unit. */
  method FormatBytes(bytes: uint64) returns (r: SizeText)
    ensures bytes < 1024 ==> r == Exact(NatToString(bytes as int) + " B")
    ensures bytes >= 1024 ==>
              r.Scaled? && r.value == bytes as int && r.decimals == 1 &&
              r.exp < |ByteUnits| && r.unit == ByteUnits[r.exp] && r.exp == UnitExponent(bytes as int) &&
              r.divisor == Pow1024(r.exp + 1) && r.divisor <= bytes as int < 1024 * r.divisor
  {
    if bytes < 1024 {
      return Exact(NatToString(bytes as int) + " B");
    }
    var div: uint64, exp: nat := 1024, 0;
    var n: uint64 := bytes / 1024;
    while n >= 1024
      invariant div as int == Pow1024(exp + 1) <= bytes as int
      invariant n as int == bytes as int / div as int
      decreases n
    {
      NextDivisor(bytes as int, div as int);
      PowerBelowTwoTo64(exp + 1);
      div := div * 1024;
      exp := exp + 1;
      n := n / 1024;
    }
    LoopExit(bytes as int, div as int, exp);
    r := Scaled(bytes as int, div as nat, 1, exp, ByteUnits[exp]);
  }

  /** A power of 1024 that a uint64 reaches has an exponent of at most 6. */
  lemma PowerBelowTwoTo64(e: nat)
    requires Pow1024(e + 1) < TwoTo64
    ensures e <= 5
  {
    if e > 5 {
      Pow1024Monotone(7, e + 1);
    }
  }

  /** When the quotient drops below 1024, the divisor and exponent are the ones the size selects. */
  lemma LoopExit(b: nat, d: nat, e: nat)
    requires b < TwoTo64 && d == Pow1024(e + 1) <= b && b / d < 1024
    ensures e < |ByteUnits| && e == UnitExponent(b) && b < 1024 * d
  {
    DivBounds(b, d);
    MulLeq(b / d + 1, 1024, d);
    PowerBelowTwoTo64(e);
    UnitExponentUnique(b, e);
  }

  /** Every uint64 has a unit: the exponent is at most 5, the last index of the unit list. */
  lemma ByteUnitsSuffice(bytes: uint64)
    requires bytes >= 1024
    ensures UnitExponent(bytes as int) < |ByteUnits|
  {
    UnitExponentBounds(bytes as int);
    if UnitExponent(bytes as int) >= 6 {
      Pow1024Monotone(7, UnitExponent(bytes as int) + 1);
    }
  }

  /** From 1 KiB up to 1 TiB the two formatters pick the same unit. */
  lemma SameUnitBelowTerabytes(size: int64)
    requires 1024 <= size < 1024 * 1024 * 1024 * 1024
    ensures ConvertFileSize(size).exp == UnitExponent(size as int)
    ensures FileUnits[ConvertFileSize(size).exp] == ByteUnits[UnitExponent(size as int)]
  {
    ConvertFileSizeExponent(size);
    UnitExponentBounds(size as int);
  }

  // ---- GetDiskInfo ----

  /** The fields of `unix.Statfs_t` the computation reads. */
  datatype Statfs = Statfs(bsize: int64, bfree: uint64, blocks: uint64)

  /** The byte counts `GetDiskInfo` derives, with the `%d` texts it stores for them. */
  datatype DiskBytes = DiskBytes(free: uint64, total: uint64, used: uint64,
                                 freeText: string, totalText: string, usedText: string)

  /** Equal modulo 2^64. */
  predicate Congruent64(a: int, b: int) {
    (a - b) % TwoTo64 == 0
  }

  /** Reduction modulo 2^64: Go's uint64 conversion, product and difference. */
  function Wrap(x: int): (r: uint64)
    ensures Congruent64(r as int, x)
    ensures 0 <= x < TwoTo64 ==> r as int == x
    ensures -TwoTo64 <= x < 0 ==> r as int == x + TwoTo64
  {
    (x % TwoTo64) as uint64
  }

  /** Go's uint64 product. */
  function Mul64(a: uint64, b: uint64): (r: uint64)
    ensures Congruent64(r as int, a as int * b as int)
    ensures a as int * b as int < TwoTo64 ==> r as int == a as int * b as int
  {
    Wrap(a as int * b as int)
  }

  /** Go's uint64 difference. */
  function Sub64(a: uint64, b: uint64): (r: uint64)
    ensures Congruent64(r as int, a as int - b as int)
    ensures b <= a ==> r as int == a as int - b as int
    ensures a < b ==> r as int == a as int - b as int + TwoTo64
  {
    Wrap(a as int - b as int)
  }

  /**
   * `GetDiskInfo(path)` given what `unix.Statfs` returned: a failed call is returned as is;
   * otherwise free = Bfree * Bsize, total = Blocks * Bsize and used = total - free, in uint64.
   */
  function GetDiskInfo(stat: Result<Statfs>): (r: Result<DiskBytes>)
    ensures r.Success? <==> stat.Success?
    ensures stat.Failure? ==> r.error == stat.error
  {
    match stat
    case Failure(e) => Failure(e)
    case Success(s) => Success(BytesOf(s))
  }

  /** The arithmetic of `GetDiskInfo`: block counts times the block size, then total minus free. */
  function BytesOf(s: Statfs): (d: DiskBytes)
    ensures Congruent64(d.free as int, s.bfree as int * Wrap(s.bsize as int) as int)
    ensures Congruent64(d.total as int, s.blocks as int * Wrap(s.bsize as int) as int)
    ensures Congruent64(d.used as int, d.total as int - d.free as int)
    ensures ParseNat(d.freeText) == d.free as int && ParseNat(d.totalText) == d.total as int
    ensures ParseNat(d.usedText) == d.used as int
  {
    var blockSize := Wrap(s.bsize as int);
    var freeBytes := Mul64(s.bfree, blockSize);
    var totalBytes := Mul64(s.blocks, blockSize);
    Described(freeBytes, totalBytes, Sub64(totalBytes, freeBytes))
  }

  /** The three byte counts with their decimal texts (`fmt.Sprintf("%d", …)`). */
  function Described(free: uint64, total: uint64, used: uint64): (d: DiskBytes)
    ensures d.free == free && d.total == total && d.used == used
    ensures ParseNat(d.freeText) == free as int && ParseNat(d.totalText) == total as int
    ensures ParseNat(d.usedText) == used as int
  {
    ParseNatToString(free as int);
    ParseNatToString(total as int);
    ParseNatToString(used as int);
    DiskBytes(free, total, used, NatToString(free as int), NatToString(total as int), NatToString(used as int))
  }

  /** Without overflow, and with no more free than total space, the used bytes are exact. */
  lemma DiskBytesExact(s: Statfs)
    requires s.bsize >= 0
    requires s.bfree <= s.blocks
    requires s.blocks as int * s.bsize as int < TwoTo64
    ensures var d := BytesOf(s);
      d.free as int == s.bfree as int * s.bsize as int &&
      d.total as int == s.blocks as int * s.bsize as int &&
      d.used as int == (s.blocks as int - s.bfree as int) * s.bsize as int
  {
    var bs, f, t := s.bsize as int, s.bfree as int, s.blocks as int;
    assert Wrap(bs) as int == bs;
    MulLeq(f, t, bs);
    var fb, tb := f * bs, t * bs;
    assert Wrap(fb) as int == fb;
    assert Wrap(tb) as int == tb;
    assert Wrap(tb - fb) as int == tb - fb;
    Distribute(t, f, bs);
  }

  lemma Distribute(t: int, f: int, c: int)
    ensures (t - f) * c == t * c - f * c
  {
  }

  /** More free than total bytes makes the unsigned difference wrap to a huge number. */
  lemma DiskUsedWraps(s: Statfs)
    requires BytesOf(s).free > BytesOf(s).total
    ensures BytesOf(s).used as int == TwoTo64 - (BytesOf(s).free as int - BytesOf(s).total as int)
  {
  }
}
