/** The ECC over data of any length: column parity, line parity and its complement. */
module Ecc {
  import opened Basics
  import opened Words
  import opened ByteBits
  import opened EccTable

  datatype Ecc = Ecc(col: bv8, line: Word, prime: Word)

  predicate Odd(b: bv8) { Column(b) & 1 != 0 }

  // ----- yaffs_ecc_calc_other -----

  function Col(data: Bytes, n: nat): bv8
    requires n <= |data|
  {
    if n == 0 then 0 else X8(Col(data, n - 1), Column(data[n - 1]))
  }

  function Line(data: Bytes, n: nat): Word
    requires n <= |data|
  {
    if n == 0 then Zero() else if Odd(data[n - 1]) then Xor(Line(data, n - 1), OfNat(n - 1)) else Line(data, n - 1)
  }

  function Prime(data: Bytes, n: nat): Word
    requires n <= |data|
  {
    if n == 0 then Zero()
    else if Odd(data[n - 1]) then Xor(Prime(data, n - 1), Not(OfNat(n - 1)))
    else Prime(data, n - 1)
  }

  function Top6(c: bv8): bv8 { (c >> 2) & 0x3f }

  function Calc(data: Bytes): Ecc { Ecc(Top6(Col(data, |data|)), Line(data, |data|), Prime(data, |data|)) }

  // ----- yaffs_ecc_correct_other -----

  function BitOf(d: bv8): nat {
    (if d & 0x20 != 0 then 4 else 0) + (if d & 0x08 != 0 then 2 else 0) + (if d & 0x02 != 0 then 1 else 0)
  }

  predicate PairsDiffer(d: bv8) { (d ^ (d >> 1)) & 0x15 == 0x15 }

  datatype Outcome = Outcome(data: Bytes, read: Ecc, result: int)

  function Correct(data: Bytes, read: Ecc, test: Ecc): Outcome {
    var dc, dl, dp := X8(read.col, test.col), Xor(read.line, test.line), Xor(read.prime, test.prime);
    if dc == 0 && dl == Zero() && dp == Zero() then Outcome(data, read, 0)
    else if dl == Not(dp) && PairsDiffer(dc) then
      if Value(dl) >= |data| then Outcome(data, read, -1)
      else Outcome(data[Value(dl) := Toggle(data[Value(dl)], BitOf(dc))], read, 1)
    else if Ones(dl) + Ones(dp) + Weight8(dc) == 1 then Outcome(data, test, 1)
    else Outcome(data, read, -1)
  }

  // ----- the effect of one flipped data bit -----

  function Flip(data: Bytes, i: nat, f: nat): Bytes
    requires i < |data|
  {
    data[i := Toggle(data[i], f)]
  }

  lemma UnitFacts(f: nat)
    requires f < 8
    ensures Unit(f) & 1 == 1 && PairsDiffer(Top6(Unit(f))) && BitOf(Top6(Unit(f))) == f && Top6(Unit(f)) != 0
  {
    match f
    case 0 => case 1 => case 2 => case 3 => case 4 => case 5 => case 6 => case _ =>
  }

  lemma ParityFlip(c: bv8, u: bv8)
    requires u & 1 == 1
    ensures X8(c, u) & 1 != 0 <==> c & 1 == 0
  {
  }

  lemma OddFlip(b: bv8, f: nat)
    requires f < 8
    ensures Odd(Toggle(b, f)) <==> !Odd(b)
  {
    hide Column, Toggle, Unit, X8;
    ColumnFlip(b, f);
    UnitFacts(f);
    ParityFlip(Column(b), Unit(f));
  }

  lemma {:induction false} ColFlip(data: Bytes, i: nat, f: nat, n: nat)
    requires i < |data| && f < 8 && n <= |data|
    ensures Col(Flip(data, i, f), n) == if i < n then X8(Col(data, n), Unit(f)) else Col(data, n)
  {
    hide Column, Toggle, Unit, X8;
    if n > 0 {
      ColFlip(data, i, f, n - 1);
      ColumnFlip(data[i], f);
      X8Facts(Col(data, n - 1), Column(data[n - 1]), Unit(f));
    }
  }

  lemma XorWords(a: Word, b: Word, c: Word)
    ensures Xor(Xor(a, b), c) == Xor(Xor(a, c), b) && Xor(Xor(a, b), b) == a
    ensures Xor(a, Xor(a, b)) == b && Xor(a, a) == Zero()
  {
  }

  lemma {:induction false} LineFlip(data: Bytes, i: nat, f: nat, n: nat)
    requires i < |data| && f < 8 && n <= |data|
    ensures Line(Flip(data, i, f), n) == if i < n then Xor(Line(data, n), OfNat(i)) else Line(data, n)
    ensures Prime(Flip(data, i, f), n) == if i < n then Xor(Prime(data, n), Not(OfNat(i))) else Prime(data, n)
  {
    hide Odd, Xor, OfNat, Not, Toggle;
    if n > 0 {
      LineFlip(data, i, f, n - 1);
      OddFlip(data[i], f);
      XorWords(Line(data, n - 1), OfNat(i), OfNat(n - 1));
      XorWords(Prime(data, n - 1), Not(OfNat(i)), Not(OfNat(n - 1)));
    }
  }

  lemma Top6Delta(c: bv8, u: bv8)
    ensures X8(Top6(c), Top6(X8(c, u))) == Top6(u)
  {
  }

  /** What the ECC of the data and of the flipped data differ in. */
  lemma FlipDelta(data: Bytes, i: nat, f: nat)
    requires i < |data| && f < 8
    ensures var a, b := Calc(data), Calc(Flip(data, i, f));
      && X8(a.col, b.col) == Top6(Unit(f)) && Xor(a.line, b.line) == OfNat(i) && Xor(a.prime, b.prime) == Not(OfNat(i))
  {
    hide Col, Line, Prime, Top6, Xor, OfNat, Not, Unit, Toggle, X8;
    ColFlip(data, i, f, |data|);
    LineFlip(data, i, f, |data|);
    Top6Delta(Col(data, |data|), Unit(f));
    XorWords(Line(data, |data|), OfNat(i), OfNat(i));
    XorWords(Prime(data, |data|), Not(OfNat(i)), OfNat(i));
  }

  // ----- what the correction achieves -----

  lemma EqualEcc(data: Bytes, read: Ecc)
    ensures Correct(data, read, read) == Outcome(data, read, 0)
  {
    XorWords(read.line, read.line, read.line);
    XorWords(read.prime, read.prime, read.prime);
    X8Facts(read.col, 0, 0);
  }

  lemma NotNot(w: Word)
    ensures Not(Not(w)) == w
  {
  }

  /** One flipped data bit is located and repaired, for data of every length an index can reach. */
  lemma SingleDataBit(data: Bytes, i: nat, f: nat)
    requires i < |data| <= Pow2(32) && f < 8
    ensures Correct(Flip(data, i, f), Calc(data), Calc(Flip(data, i, f))) == Outcome(data, Calc(data), 1)
  {
    hide Calc, Xor, OfNat, Not, Unit, X8, Toggle, PairsDiffer, BitOf, Top6, Ones, Weight8, Pow2, Value;
    FlipDelta(data, i, f);
    UnitFacts(f);
    NotNot(OfNat(i));
    IndexBack(i);
    ToggleTwice(data[i], f);
    assert Flip(data, i, f)[i := data[i]] == data;
  }

  lemma IndexBack(i: nat)
    requires i < Pow2(32)
    ensures Value(OfNat(i)) == i
  {
    hide BitsOf, Value;
    ValueOfBits(i, 32);
  }

  // ----- one flipped bit of the ECC itself -----

  function FlipBit(w: Word, k: nat): Word
    requires k < 32
  {
    w[k := !w[k]]
  }

  /** A stored ECC with one of its bits flipped: of the column byte, the line word or its complement. */
  predicate OneBitOff(read: Ecc, good: Ecc) {
    || (exists k :: 0 <= k < 8 && read == good.(col := Toggle(good.col, k)))
    || (exists k :: 0 <= k < 32 && read == good.(line := FlipBit(good.line, k)))
    || (exists k :: 0 <= k < 32 && read == good.(prime := FlipBit(good.prime, k)))
  }

  lemma FlipBitDelta(w: Word, k: nat)
    requires k < 32
    ensures var d := Xor(FlipBit(w, k), w); Ones(d) == 1 && d != Zero() && d != Not(Zero())
  {
    var d := Xor(FlipBit(w, k), w);
    assert forall i :: 0 <= i < 32 ==> (d[i] <==> i == k);
    OnesSingle(d, k);
    assert d[k] && !Zero()[k];
    var o := if k == 0 then 1 else 0;
    assert !d[o] && Not(Zero())[o];
  }

  lemma ToggleDelta(c: bv8, k: nat)
    requires k < 8
    ensures X8(Toggle(c, k), c) == Mask(k)
  {
    hide Mask;
  }

  lemma MaskWeight(k: nat)
    requires k < 8
    ensures Weight8(Mask(k)) == 1 && Mask(k) != 0
  {
    match k
    case 0 => case 1 => case 2 => case 3 => case 4 => case 5 => case 6 => case _ =>
  }

  lemma ZeroWords()
    ensures Ones(Zero()) == 0 && Zero() != Not(Zero()) && Weight8(0) == 0
  {
    OnesZero(Zero());
    assert !Zero()[0] && Not(Zero())[0];
  }

  /** One flipped bit of the stored ECC leaves the data alone and repairs the ECC. */
  lemma SingleEccBit(data: Bytes, read: Ecc, good: Ecc)
    requires OneBitOff(read, good)
    ensures Correct(data, read, good) == Outcome(data, good, 1)
  {
    hide Xor, Not, X8, Toggle, Mask, FlipBit, Weight8, Ones, PairsDiffer;
    ZeroWords();
    XorWords(good.line, good.line, good.line);
    XorWords(good.prime, good.prime, good.prime);
    X8Facts(good.col, 0, 0);
    if k :| 0 <= k < 8 && read == good.(col := Toggle(good.col, k)) {
      ToggleDelta(good.col, k);
      MaskWeight(k);
    } else if k :| 0 <= k < 32 && read == good.(line := FlipBit(good.line, k)) {
      FlipBitDelta(good.line, k);
    } else {
      var k :| 0 <= k < 32 && read == good.(prime := FlipBit(good.prime, k));
      FlipBitDelta(good.prime, k);
      NotOnes(Xor(read.prime, good.prime));
    }
  }

  /** The complement of a word other than all ones is not zero. */
  lemma NotOnes(d: Word)
    ensures d != Not(Zero()) ==> Zero() != Not(d)
  {
    if Zero() == Not(d) {
      forall i | 0 <= i < 32 ensures d[i] == Not(Zero())[i] { assert Not(d)[i] == Zero()[i]; }
      assert d == Not(Zero());
    }
  }

  // ----- two flipped data bits -----

  /** In one byte: the columns of the two bits differ in an even number of places. */
  lemma TwoUnits(f: nat, g: nat)
    requires f < 8 && g < 8 && f != g
    ensures Weight8(Top6(X8(Unit(f), Unit(g)))) >= 2
  {
    match f
    case 0 => case 1 => case 2 => case 3 => case 4 => case 5 => case 6 => case _ =>
  }

  lemma DistinctIndexes(i: nat, j: nat)
    requires i < Pow2(32) && j < Pow2(32) && i != j
    ensures OfNat(i) != OfNat(j)
  {
    hide OfNat, Value, Pow2;
    IndexBack(i);
    IndexBack(j);
  }

  lemma XorNots(a: Word, b: Word)
    ensures Xor(Not(a), Not(b)) == Xor(a, b)
    ensures a != b ==> Xor(a, b) != Zero()
  {
    if Xor(a, b) == Zero() {
      forall i | 0 <= i < 32 ensures a[i] == b[i] { assert !Xor(a, b)[i]; }
    }
  }

  lemma NeverComplement(d: Word)
    ensures d != Not(d)
  {
    assert d[0] != Not(d)[0];
  }

  lemma SomeOnes(d: Word)
    ensures d != Zero() ==> Ones(d) >= 1
  {
    if Ones(d) == 0 {
      OnesZero(d);
      assert d == Zero();
    }
  }

  /** How the ECC of data differs from that of the data with two bits flipped. */
  lemma TwoFlipsDelta(data: Bytes, i: nat, f: nat, j: nat, g: nat)
    requires i < |data| && j < |data| && f < 8 && g < 8
    ensures var a, b := Calc(data), Calc(Flip(Flip(data, i, f), j, g));
      && X8(a.col, b.col) == Top6(X8(Unit(f), Unit(g)))
      && Xor(a.line, b.line) == Xor(OfNat(i), OfNat(j)) && Xor(a.prime, b.prime) == Xor(Not(OfNat(i)), Not(OfNat(j)))
  {
    hide Col, Line, Prime, Top6, Xor, OfNat, Not, Unit, Toggle, X8;
    var once, n := Flip(data, i, f), |data|;
    ColFlip(data, i, f, n);
    ColFlip(once, j, g, n);
    LineFlip(data, i, f, n);
    LineFlip(once, j, g, n);
    X8Facts(Col(data, n), Unit(f), Unit(g));
    Top6Delta(Col(data, n), X8(Unit(f), Unit(g)));
    XorAssoc(Line(data, n), OfNat(i), OfNat(j));
    XorAssoc(Prime(data, n), Not(OfNat(i)), Not(OfNat(j)));
  }

  lemma XorAssoc(a: Word, b: Word, c: Word)
    ensures Xor(a, Xor(Xor(a, b), c)) == Xor(b, c)
  {
  }

  /** Any two flipped data bits are reported as beyond repair, and nothing is changed. */
  lemma DoubleDataBit(data: Bytes, i: nat, f: nat, j: nat, g: nat)
    requires i < |data| <= Pow2(32) && j < |data| && f < 8 && g < 8 && (i != j || f != g)
    ensures var bad := Flip(Flip(data, i, f), j, g);
      Correct(bad, Calc(data), Calc(bad)) == Outcome(bad, Calc(data), -1)
  {
    hide Calc, Xor, OfNat, Not, Unit, X8, Toggle, PairsDiffer, BitOf, Top6, Ones, Weight8, Pow2, Value;
    TwoFlipsDelta(data, i, f, j, g);
    XorNots(OfNat(i), OfNat(j));
    NeverComplement(Xor(OfNat(i), OfNat(j)));
    if i == j {
      XorWords(OfNat(i), OfNat(i), OfNat(i));
      TwoUnits(f, g);
      ZeroWords();
    } else {
      DistinctIndexes(i, j);
      SomeOnes(Xor(OfNat(i), OfNat(j)));
    }
  }

  // ----- in place -----

  /** yaffs_ecc_calc_other */
  method CalcOther(data: array<bv8>) returns (e: Ecc)
    ensures e == Calc(data[..])
  {
    hide Column, Xor, Not, OfNat, X8;
    var col: bv8, line, prime := 0, Zero(), Zero();
    var i := 0;
    while i < data.Length
      invariant 0 <= i <= data.Length
      invariant col == Col(data[..], i) && line == Line(data[..], i) && prime == Prime(data[..], i)
    {
      var b := Column(data[i]);
      col := X8(col, b);
      if b & 1 != 0 {
        line := Xor(line, OfNat(i));
        prime := Xor(prime, Not(OfNat(i)));
      }
      i := i + 1;
    }
    e := Ecc(Top6(col), line, prime);
  }

  /** yaffs_ecc_correct_other: repairs the data or the stored ECC in place. */
  method CorrectOther(data: array<bv8>, read: Ecc, test: Ecc) returns (fixed: Ecc, result: int)
    modifies data
    ensures Outcome(data[..], fixed, result) == Correct(old(data[..]), read, test)
  {
    hide X8, Xor, Not, PairsDiffer, BitOf, Ones, Weight8, Value, Toggle;
    var dc, dl, dp := X8(read.col, test.col), Xor(read.line, test.line), Xor(read.prime, test.prime);
    if dc == 0 && dl == Zero() && dp == Zero() { return read, 0; }
    if dl == Not(dp) && PairsDiffer(dc) {
      if Value(dl) >= data.Length { return read, -1; }
      data[Value(dl)] := Toggle(data[Value(dl)], BitOf(dc));
      return read, 1;
    }
    if Ones(dl) + Ones(dp) + Weight8(dc) == 1 { return test, 1; }
    return read, -1;
  }
}
