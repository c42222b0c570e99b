/** The address arithmetic of yaffs_addr_to_chunk: shift, then mask or divide. */
module ChunkAddress {
  import opened Words
  import opened FileBytes

  // ----- calc_shifts -----

  function CalcShifts(x: nat): nat { if x == 0 || x % 2 == 1 then 0 else 1 + CalcShifts(x / 2) }

  /** The loop that looks for the lowest set bit. */
  method FindShift(x: nat) returns (shifts: nat)
    ensures shifts == CalcShifts(x)
  {
    shifts := 0;
    if x == 0 { return; }
    var y := x;
    while y % 2 == 0
      invariant y > 0 && CalcShifts(x) == shifts + CalcShifts(y)
      decreases y
    {
      y := y / 2;
      shifts := shifts + 1;
    }
  }

  // ----- shifting and masking -----

  /** x >> k */
  function Shift(x: nat, k: nat): nat { if k == 0 then x else Shift(x / 2, k - 1) }

  /** x & ((1 << k) - 1) */
  function Low(x: nat, k: nat): nat { if k == 0 then 0 else x % 2 + 2 * Low(x / 2, k - 1) }

  function BitAnd(a: seq<bool>, b: seq<bool>): seq<bool>
    requires |a| == |b|
  {
    if a == [] then [] else [a[0] && b[0]] + BitAnd(a[1..], b[1..])
  }

  /** On the bits of the word these are what their names say. */
  lemma {:induction false} ShiftBits(x: nat, k: nat, n: nat)
    requires k <= n && x < Pow2(n)
    ensures Value(BitsOf(x, n)[k..]) == Shift(x, k)
  {
    if k == 0 {
      assert BitsOf(x, n)[0..] == BitsOf(x, n);
      ValueOfBits(x, n);
    } else {
      ShiftBits(x / 2, k - 1, n - 1);
      assert BitsOf(x, n)[k..] == BitsOf(x / 2, n - 1)[k - 1..];
    }
  }

  /** (1 << k) - 1 */
  function MaskOf(k: nat): (m: nat)
    ensures m == Pow2(k) - 1
  {
    if k == 0 then 0 else 1 + 2 * MaskOf(k - 1)
  }

  lemma AndFirst(x: nat, m: nat, n: nat)
    requires n > 0
    ensures var r := BitAnd(BitsOf(x / 2, n - 1), BitsOf(m / 2, n - 1));
      Value(BitAnd(BitsOf(x, n), BitsOf(m, n))) == (if x % 2 == 1 && m % 2 == 1 then 1 else 0) + 2 * Value(r)
  {
    var a, b := BitsOf(x, n), BitsOf(m, n);
    assert a[1..] == BitsOf(x / 2, n - 1) && b[1..] == BitsOf(m / 2, n - 1);
    assert BitAnd(a, b)[1..] == BitAnd(a[1..], b[1..]);
  }

  lemma {:induction false} MaskBits(x: nat, k: nat, n: nat)
    requires k <= n
    ensures Value(BitAnd(BitsOf(x, n), BitsOf(MaskOf(k), n))) == Low(x, k)
    decreases n
  {
    hide BitsOf, BitAnd, Pow2;
    if n == 0 {
      BitsOf0(x);
    } else {
      AndFirst(x, MaskOf(k), n);
      MaskBits(x / 2, if k == 0 then 0 else k - 1, n - 1);
    }
  }

  lemma BitsOf0(x: nat)
    ensures Value(BitAnd(BitsOf(x, 0), BitsOf(MaskOf(0), 0))) == 0
  {
  }

  lemma {:induction false} Rejoin(x: nat, k: nat)
    ensures Shift(x, k) * Pow2(k) + Low(x, k) == x && Low(x, k) < Pow2(k)
  {
    if k > 0 {
      Rejoin(x / 2, k - 1);
      var s, p := Shift(x, k), Pow2(k - 1);
      assert s * (2 * p) == 2 * (s * p);
    }
  }

  /** A chunk size is its odd part times the power of two that was found. */
  lemma {:induction false} OddPart(x: nat)
    requires x > 0
    ensures Low(x, CalcShifts(x)) == 0 && Shift(x, CalcShifts(x)) % 2 == 1
    ensures x == Shift(x, CalcShifts(x)) * Pow2(CalcShifts(x))
  {
    if x % 2 == 0 { OddPart(x / 2); }
    Rejoin(x, CalcShifts(x));
  }

  // ----- yaffs_addr_to_chunk -----

  /** An unsigned 32-bit value assigned to an int. */
  function ToInt(x: nat): int {
    var w := x % 0x1_0000_0000;
    if w < 0x8000_0000 then w else w - 0x1_0000_0000
  }

  /** Division as the language does it, towards zero. */
  function Quotient(a: int, b: nat): int
    requires b > 0
  {
    if a >= 0 then a / b else -((-a) / b)
  }

  function AddrToChunk(addr: nat, page: nat): (int, int)
    requires page > 0
  {
    OddPart(page);
    var shift := CalcShifts(page);
    var div := Shift(page, shift);
    var chunk := ToInt(Shift(addr, shift));
    if div == 1 then (chunk, Low(addr, shift))
    else
      var c := Quotient(chunk, div);
      (c, addr - c * page)
  }

  /** Quotient and remainder are the only pair of their kind. */
  lemma {:induction false} OnlyPair(off: nat, page: nat, c: nat, r: nat)
    requires page > 0 && off == c * page + r && r < page
    ensures ChunkOf(off, page) == c && StartOf(off, page) == r
  {
    if c == 0 {
      assert c * page == 0;
    } else {
      assert c * page == page + (c - 1) * page;
      Nonnegative(c - 1, page);
      OnlyPair(off - page, page, c - 1, r);
    }
  }

  lemma Nonnegative(a: nat, b: nat)
    ensures a * b >= 0
  {
  }

  lemma TwoDivisions(addr: nat, page: nat, div: nat, p: nat, s: nat, low: nat)
    requires div > 0 && page == div * p && page > 0 && addr == s * p + low && low < p
    ensures ChunkOf(addr, page) == s / div && StartOf(addr, page) == (s % div) * p + low
  {
    hide ChunkOf, StartOf;
    var q, r := s / div, s % div;
    assert s == q * div + r;
    Spread(q, div, r, p, low, page);
    OnlyPair(addr, page, q, r * p + low);
  }

  /** Dividing what the shift left over: the two steps are one division by the chunk size. */
  lemma TwoSteps(addr: nat, page: nat)
    requires page > 0
    ensures var shift := CalcShifts(page); var div := Shift(page, shift);
      && div > 0 && ChunkOf(addr, page) == Shift(addr, shift) / div
      && (div == 1 ==> StartOf(addr, page) == Low(addr, shift))
  {
    hide CalcShifts, Shift, Low, Pow2, ChunkOf, StartOf;
    var shift := CalcShifts(page);
    OddPart(page);
    Rejoin(addr, shift);
    TwoDivisions(addr, page, Shift(page, shift), Pow2(shift), Shift(addr, shift), Low(addr, shift));
  }

  lemma Spread(q: nat, div: nat, r: nat, p: nat, low: nat, page: nat)
    requires page == div * p && r < div && low < p
    ensures (q * div + r) * p + low == q * page + (r * p + low)
    ensures 0 <= r * p + low < page
  {
    assert (q * div + r) * p == q * (div * p) + r * p;
    assert r * p + p == (r + 1) * p;
    Monotone(r + 1, div, p);
    Nonnegative(r, p);
  }

  lemma Monotone(a: nat, b: nat, p: nat)
    requires a <= b
    ensures a * p <= b * p
  {
    assert b * p == a * p + (b - a) * p;
    Nonnegative(b - a, p);
  }

  /** For every chunk size below 2^31, a power of two or not, the result is the chunk an address lies in and
      its offset there, exactly as long as the address without the shifted bits fits an int. */
  lemma AddressExact(addr: nat, page: nat)
    requires 0 < page < 0x8000_0000
    ensures AddrToChunk(addr, page) == (ChunkOf(addr, page), StartOf(addr, page))
       <==> Shift(addr, CalcShifts(page)) < 0x8000_0000
  {
    hide CalcShifts, Shift, Low, Pow2, ChunkOf, StartOf, ToInt;
    var shift := CalcShifts(page);
    var s, div := Shift(addr, shift), Shift(page, shift);
    TwoSteps(addr, page);
    ToIntExact(s);
    FileBytes.AddressExact(addr, page);
    if s >= 0x8000_0000 {
      DivBelow(page, shift);
      Wrapped(s, div);
    }
  }

  lemma {:induction false} DivBelow(x: nat, k: nat)
    ensures Shift(x, k) <= x
  {
    if k > 0 { DivBelow(x / 2, k - 1); }
  }

  lemma ToIntExact(x: nat)
    ensures x < 0x8000_0000 ==> ToInt(x) == x
  {
  }

  lemma Wrapped(s: nat, div: nat)
    requires 0 < div < 0x8000_0000 <= s
    ensures Quotient(ToInt(s), div) != s / div && ToInt(s) != s
  {
    var t := ToInt(s);
    if t >= 0 {
      Further(t, s, div);
    } else {
      Further(0, s, div);
    }
  }

  lemma Further(a: nat, b: nat, div: nat)
    requires div > 0 && a + div <= b
    ensures a / div < b / div
  {
    var q, r := a / div, a % div;
    assert b >= (q + 1) * div;
    if b / div <= q {
      Monotone(b / div, q, div);
    }
  }
}
