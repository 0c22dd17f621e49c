/** IPv4 addresses as text and as numbers, and prefix blocks (src/services/network-scan.ts:32-80). */
module Addresses {
  import opened Powers
  import opened Text
  import opened Wrappers

  const SPACE: nat := 0x1_0000_0000

  // ------------------------------------------------------------------
  // Text to number
  // ------------------------------------------------------------------

  predicate Octet(p: string) { 1 <= |p| <= 3 && AllDigits(p) && Value(p) <= 255 }

  predicate Quad(parts: seq<string>) {
    |parts| == 4 && Octet(parts[0]) && Octet(parts[1]) && Octet(parts[2]) && Octet(parts[3])
  }

  function QuadValue(parts: seq<string>): (n: nat)
    requires Quad(parts)
    ensures n < SPACE
  {
    Value(parts[0]) * 0x100_0000 + Value(parts[1]) * 0x1_0000 + Value(parts[2]) * 0x100 + Value(parts[3])
  }

  /** The number a dotted quad denotes. */
  function AddressOf(ip: string): (n: Option<nat>)
    ensures n.Some? ==> n.value < SPACE
  {
    var parts := SplitOn(ip, '.');
    if Quad(parts) then Some(QuadValue(parts)) else None
  }

  /** The 32-bit integer that a bitwise operator makes of its result. */
  function ToInt32(x: int): (r: int)
    ensures -0x8000_0000 <= r < 0x8000_0000 && (r - x) % 0x1_0000_0000 == 0
  {
    var m := x % 0x1_0000_0000;
    if m >= 0x8000_0000 then m - 0x1_0000_0000 else m
  }

  function ToUint32(x: int): nat { x % 0x1_0000_0000 }

  function Prefix(parts: seq<string>, k: nat): nat
    requires k <= |parts| && forall i :: 0 <= i < k ==> Octet(parts[i])
  {
    if k == 0 then 0
    else
      assert Octet(parts[k - 1]);
      Prefix(parts, k - 1) * 256 + Value(parts[k - 1])
  }

  lemma PrefixIsBounded(parts: seq<string>, k: nat)
    requires k <= |parts| && k <= 3 && forall i :: 0 <= i < k ==> Octet(parts[i])
    ensures Prefix(parts, k) < 0x100_0000
    ensures k <= 2 ==> Prefix(parts, k) < 0x1_0000
    ensures k <= 1 ==> Prefix(parts, k) < 0x100
  {
    if k > 0 {
      PrefixIsBounded(parts, k - 1);
      assert Octet(parts[k - 1]);
    }
  }

  lemma PrefixOfFour(parts: seq<string>)
    requires Quad(parts)
    ensures forall i :: 0 <= i < 4 ==> Octet(parts[i])
    ensures Prefix(parts, 4) == QuadValue(parts)
  {
    forall i | 0 <= i < 4 ensures Octet(parts[i]) {
      assert i == 0 || i == 1 || i == 2 || i == 3;
    }
    assert Prefix(parts, 1) == Value(parts[0]);
    assert Prefix(parts, 2) == Prefix(parts, 1) * 256 + Value(parts[1]);
    assert Prefix(parts, 3) == Prefix(parts, 2) * 256 + Value(parts[2]);
  }

  lemma ShiftIn(n: nat, v: nat)
    requires n < 0x100_0000 && v < 256
    ensures ToInt32(ToInt32(n) * 256) + v == ToInt32(n * 256 + v)
    ensures ToUint32(ToInt32(n * 256 + v)) == n * 256 + v
  {
    assert ToInt32(n) == n;
  }

  lemma PrefixStep(parts: seq<string>, k: nat)
    requires k < 4 == |parts| && (forall i :: 0 <= i <= k ==> Octet(parts[i])) && Octet(parts[k])
    ensures ToInt32(ToInt32(Prefix(parts, k)) * 256) + Value(parts[k]) == ToInt32(Prefix(parts, k + 1))
  {
    PrefixIsBounded(parts, k);
    ShiftIn(Prefix(parts, k), Value(parts[k]));
  }

  lemma SignDropped(parts: seq<string>)
    requires Quad(parts)
    ensures forall i :: 0 <= i < 4 ==> Octet(parts[i])
    ensures ToUint32(ToInt32(Prefix(parts, 4))) == QuadValue(parts)
  {
    PrefixOfFour(parts);
    PrefixIsBounded(parts, 3);
    ShiftIn(Prefix(parts, 3), Value(parts[3]));
  }

  /** `ipToInt`: the loop shifts in 32-bit signed arithmetic, and the sign is dropped at the end. */
  method IpToInt(ip: string) returns (r: Option<nat>)
    ensures r == AddressOf(ip)
  {
    var parts := SplitOn(ip, '.');
    if |parts| != 4 { return None; }
    var n: int := 0;
    for k := 0 to 4
      invariant forall i :: 0 <= i < k ==> Octet(parts[i])
      invariant n == ToInt32(Prefix(parts, k))
    {
      var p := parts[k];
      if !(1 <= |p| <= 3 && AllDigits(p)) { return None; }
      var v := Value(p);
      if v > 255 { return None; }
      assert Octet(p);
      PrefixStep(parts, k);
      n := ToInt32(n * 256) + v;
    }
    SignDropped(parts);
    r := Some(ToUint32(n));
  }

  // ------------------------------------------------------------------
  // Number to text
  // ------------------------------------------------------------------

  function Octets(n: nat): (parts: seq<string>)
    ensures |parts| == 4
  {
    [Decimal(n / 0x100_0000 % 256), Decimal(n / 0x1_0000 % 256), Decimal(n / 0x100 % 256), Decimal(n % 256)]
  }

  /** `intToIp`. */
  function IntToIp(n: nat): string { Join(Octets(n), '.') }

  lemma DecimalOctet(v: nat)
    requires v <= 255
    ensures Octet(Decimal(v)) && Value(Decimal(v)) == v && '.' !in Decimal(v)
  {
    ValueOfDecimal(v);
    var s := Decimal(v);
    assert v >= 10 ==> s == Decimal(v / 10) + [DigitChar(v % 10)];
    assert v >= 100 ==> Decimal(v / 10) == Decimal(v / 10 / 10) + [DigitChar(v / 10 % 10)];
  }

  lemma Recompose(n: nat)
    requires n < SPACE
    ensures n / 0x100_0000 % 256 * 0x100_0000 + n / 0x1_0000 % 256 * 0x1_0000 + n / 0x100 % 256 * 0x100 + n % 256 == n
  {
    var (p, q, r) := (n / 0x100, n / 0x1_0000, n / 0x100_0000);
    assert p / 256 == q && q / 256 == r && r < 256;
  }

  lemma Decompose(a: nat, b: nat, c: nat, d: nat)
    requires a <= 255 && b <= 255 && c <= 255 && d <= 255
    ensures var n := a * 0x100_0000 + b * 0x1_0000 + c * 0x100 + d;
            && n / 0x100_0000 % 256 == a && n / 0x1_0000 % 256 == b && n / 0x100 % 256 == c && n % 256 == d
  {
    var n := a * 0x100_0000 + b * 0x1_0000 + c * 0x100 + d;
    assert n / 0x100 == (a * 256 + b) * 256 + c;
    assert n / 0x1_0000 == a * 256 + b;
    assert n / 0x100_0000 == a;
  }

  lemma SplitPrintedAddress(n: nat)
    requires n < SPACE
    ensures SplitOn(IntToIp(n), '.') == Octets(n) && Quad(Octets(n))
    ensures QuadValue(Octets(n)) == n
  {
    hide Decimal, Value, SplitOn, AllDigits;
    Recompose(n);
    DecimalOctet(n / 0x100_0000 % 256);
    DecimalOctet(n / 0x1_0000 % 256);
    DecimalOctet(n / 0x100 % 256);
    DecimalOctet(n % 256);
    var parts := Octets(n);
    assert forall p :: p in parts ==> p == parts[0] || p == parts[1] || p == parts[2] || p == parts[3];
    SplitInvertsJoin(parts, '.');
  }

  /** Reading a printed address gives the number back. */
  lemma PrintedAddressReadsBack(n: nat)
    requires n < SPACE
    ensures AddressOf(IntToIp(n)) == Some(n)
  {
    SplitPrintedAddress(n);
  }

  predicate NoLeadingZero(p: string) { |p| == 1 || (p != "" && p[0] != '0') }

  lemma {:induction false} DecimalHasNoLeadingZero(n: nat)
    ensures NoLeadingZero(Decimal(n)) && (n > 0 ==> Decimal(n)[0] != '0')
  {
    if n >= 10 {
      DecimalHasNoLeadingZero(n / 10);
    }
  }

  lemma {:induction false} DecimalOfValue(p: string)
    requires AllDigits(p) && NoLeadingZero(p)
    ensures Decimal(Value(p)) == p
    ensures |p| > 1 || p[0] != '0' ==> Value(p) > 0
  {
    var n := |p| - 1;
    if n == 0 {
      assert p[..0] == "";
      DigitOfValue(p[0]);
      assert p == [p[0]];
    } else {
      DecimalOfValue(p[..n]);
      DigitOfValue(p[n]);
      var (v, d) := (Value(p[..n]), DigitValue(p[n]));
      assert Value(p) == 10 * v + d && (10 * v + d) / 10 == v && (10 * v + d) % 10 == d;
      assert p == p[..n] + [p[n]];
    }
  }

  lemma DigitOfValue(c: char)
    requires IsDigit(c)
    ensures DigitChar(DigitValue(c)) == c
  {
  }

  /** Printing a read address gives the text back exactly when no octet was written with a leading zero. */
  lemma ReadAddressPrintsBack(ip: string)
    requires AddressOf(ip).Some?
    ensures IntToIp(AddressOf(ip).value) == ip <==> forall p :: p in SplitOn(ip, '.') ==> NoLeadingZero(p)
  {
    hide Decimal, Value, SplitOn, Join, AllDigits;
    var parts := SplitOn(ip, '.');
    var n := AddressOf(ip).value;
    JoinInvertsSplit(ip, '.');
    SplitPrintedAddress(n);
    OctetsOfQuad(parts);
    forall k | 0 <= k < 4
      ensures Octets(n)[k] == parts[k] <==> NoLeadingZero(parts[k])
    {
      assert Octet(parts[k]) by { assert k == 0 || k == 1 || k == 2 || k == 3; }
      DecimalHasNoLeadingZero(Value(parts[k]));
      if NoLeadingZero(parts[k]) { DecimalOfValue(parts[k]); }
    }
    if forall p :: p in parts ==> NoLeadingZero(p) {
      assert Octets(n) == parts;
    }
  }

  lemma OctetsOfQuad(parts: seq<string>)
    requires Quad(parts)
    ensures forall k :: 0 <= k < 4 ==> Octets(QuadValue(parts))[k] == Decimal(Value(parts[k]))
  {
    Decompose(Value(parts[0]), Value(parts[1]), Value(parts[2]), Value(parts[3]));
  }

  // ------------------------------------------------------------------
  // Prefix blocks
  // ------------------------------------------------------------------

  /** Bitwise and. */
  function And(a: nat, b: nat): nat {
    if a == 0 then 0 else a % 2 * (b % 2) + 2 * And(a / 2, b / 2)
  }

  /** The mask the source builds by shifting 32 ones left by `k` places and dropping the overflow. */
  function Mask(k: nat): nat
    requires k <= 32
  {
    Pow2Grows(k, 32);
    Pow2(32) - Pow2(k)
  }

  lemma {:induction false} AndWithOnes(a: nat, w: nat)
    requires a < Pow2(w)
    ensures And(a, Pow2(w) - 1) == a
    decreases w
  {
    if a > 0 {
      assert Pow2(w) == 2 * Pow2(w - 1);
      AndWithOnes(a / 2, w - 1);
      assert (Pow2(w) - 1) / 2 == Pow2(w - 1) - 1 && (Pow2(w) - 1) % 2 == 1;
    }
  }

  /** A number shifted right by `k` places. */
  function Shift(a: nat, k: nat): nat {
    if k == 0 then a else Shift(a / 2, k - 1)
  }

  lemma {:induction false} AndWithMask(a: nat, w: nat, k: nat)
    requires a < Pow2(w) && k <= w
    ensures Pow2(k) <= Pow2(w)
    ensures And(a, Pow2(w) - Pow2(k)) == Shift(a, k) * Pow2(k)
    decreases k
  {
    Pow2Grows(k, w);
    if k == 0 {
      AndWithOnes(a, w);
    } else {
      AndWithMask(a / 2, w - 1, k - 1);
      HalfOfMask(Pow2(w - 1), Pow2(k - 1));
      Regroup(Shift(a, k), Pow2(k - 1), Pow2(k));
    }
  }

  lemma {:induction false} ShiftBounds(a: nat, k: nat)
    ensures Shift(a, k) * Pow2(k) <= a < Shift(a, k) * Pow2(k) + Pow2(k)
  {
    if k > 0 {
      ShiftBounds(a / 2, k - 1);
      Regroup(Shift(a, k), Pow2(k - 1), Pow2(k));
    }
  }

  lemma HalfOfMask(p: nat, q: nat)
    requires q <= p
    ensures (2 * p - 2 * q) / 2 == p - q && (2 * p - 2 * q) % 2 == 0
  {
  }

  lemma Regroup(d: nat, q: nat, m: nat)
    requires m == 2 * q
    ensures d * m == 2 * (d * q)
  {
  }

  lemma QuotientBounds(a: nat, m: nat)
    requires m > 0
    ensures 0 <= a - a / m * m < m
  {
  }

  lemma QuotientIs(a: nat, m: nat, d: nat, r: nat)
    requires m > 0 && r < m && a == d * m + r
    ensures a / m == d
  {
    var e := a / m;
    QuotientBounds(a, m);
    Times(e + 1, d, m);
    Times(d + 1, e, m);
  }

  lemma Times(x: nat, y: nat, m: nat)
    ensures x <= y ==> x * m <= y * m
  {
  }

  /** Masking drops the host bits. */
  lemma MaskIsModulus(base: nat, k: nat)
    requires base < SPACE && k <= 32
    ensures And(base, Mask(k)) == base / Pow2(k) * Pow2(k)
  {
    SpaceIsPow2();
    AndWithMask(base, 32, k);
    ShiftBounds(base, k);
    QuotientIs(base, Pow2(k), Shift(base, k), base - Shift(base, k) * Pow2(k));
  }

  lemma SpaceIsPow2()
    ensures Pow2(32) == SPACE
  {
    assert Pow2(4) == 16;
    Pow2Adds(4, 4);
    Pow2Adds(8, 8);
    Pow2Adds(16, 16);
  }

  /** The addresses that share their first `bits` bits with `base` (section 3.1 of RFC 4632). */
  predicate InBlock(n: nat, base: nat, bits: nat)
    requires bits <= 32
  {
    n < SPACE && n / Pow2(32 - bits) == base / Pow2(32 - bits)
  }

  /** The block is the run of addresses that starts at the masked base. */
  lemma BlockIsARun(n: nat, base: nat, bits: nat)
    requires base < SPACE && bits <= 32
    ensures var network := And(base, Mask(32 - bits));
            && network + Pow2(32 - bits) <= SPACE
            && (InBlock(n, base, bits) <==> network <= n < network + Pow2(32 - bits))
  {
    MaskIsModulus(base, 32 - bits);
    PowersOfSpace(bits);
    RunOfQuotient(n, base, Pow2(32 - bits), Pow2(bits));
  }

  lemma PowersOfSpace(bits: nat)
    requires bits <= 32
    ensures Pow2(bits) * Pow2(32 - bits) == SPACE
  {
    SpaceIsPow2();
    Pow2Adds(bits, 32 - bits);
  }

  lemma RunOfQuotient(n: nat, base: nat, m: nat, k: nat)
    requires m > 0 && base < k * m
    ensures base / m * m + m <= k * m
    ensures n / m == base / m <==> base / m * m <= n < base / m * m + m
  {
    QuotientInRange(base, k, m);
    SameQuotient(n, base / m, m);
    assert base / m * m + m == (base / m + 1) * m;
  }

  lemma QuotientInRange(a: nat, k: nat, m: nat)
    requires m > 0 && a < k * m
    ensures (a / m + 1) * m <= k * m
  {
    var d := a / m;
    QuotientBounds(a, m);
    Times(k, d, m);
    Times(d + 1, k, m);
  }

  lemma SameQuotient(n: nat, d: nat, m: nat)
    requires m > 0
    ensures n / m == d <==> d * m <= n < d * m + m
  {
    QuotientBounds(n, m);
    if d * m <= n < d * m + m {
      QuotientIs(n, m, d, n - d * m);
    }
  }
}
