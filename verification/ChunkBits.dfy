/** The chunk bitmap of a block: one bit per page, eight to a byte. */
module ChunkBits {
  import opened Basics
  import opened ByteBits

  /** Bit `c` of the bitmap. */
  predicate InUse(b: Bytes, c: nat) { c / 8 < |b| && Has(b[c / 8], c % 8) }

  function Members(b: Bytes): set<nat> { set c: nat | c < 8 * |b| && InUse(b, c) }

  lemma MembersAre(b: Bytes, c: nat)
    ensures c in Members(b) <==> InUse(b, c)
  {
  }

  // ----- setting and clearing -----

  function Set(b: Bytes, c: nat): Bytes
    requires c / 8 < |b|
  {
    b[c / 8 := SetIn(b[c / 8], c % 8)]
  }

  function Clear(b: Bytes, c: nat): Bytes
    requires c / 8 < |b|
  {
    b[c / 8 := ClearIn(b[c / 8], c % 8)]
  }

  lemma SetMembers(b: Bytes, c: nat)
    requires c / 8 < |b|
    ensures Members(Set(b, c)) == Members(b) + {c}
  {
    hide Has, SetIn, Members;
    forall d: nat ensures d in Members(Set(b, c)) <==> d in Members(b) + {c} {
      MembersAre(b, d);
      MembersAre(Set(b, c), d);
      if d / 8 == c / 8 { SetInHas(b[c / 8], c % 8, d % 8); }
    }
  }

  lemma ClearMembers(b: Bytes, c: nat)
    requires c / 8 < |b|
    ensures Members(Clear(b, c)) == Members(b) - {c}
  {
    hide Has, ClearIn, Members;
    forall d: nat ensures d in Members(Clear(b, c)) <==> d in Members(b) - {c} {
      MembersAre(b, d);
      MembersAre(Clear(b, c), d);
      if d / 8 == c / 8 { ClearInHas(b[c / 8], c % 8, d % 8); }
    }
  }

  // ----- counting -----

  /** Bits of one byte among the first `k`. */
  function Below(b: bv8, base: nat, k: nat): set<nat> { set i: nat | i < k && Has(b, i) :: base + i }

  function WeightTo(b: bv8, k: nat): nat { if k == 0 then 0 else WeightTo(b, k - 1) + (if Has(b, k - 1) then 1 else 0) }

  lemma {:induction false} WeightToCard(b: bv8, base: nat, k: nat)
    ensures |Below(b, base, k)| == WeightTo(b, k)
  {
    hide Has;
    if k == 0 {
      assert Below(b, base, 0) == {};
    } else {
      WeightToCard(b, base, k - 1);
      var s, t := Below(b, base, k - 1), Below(b, base, k);
      if Has(b, k - 1) {
        assert base + (k - 1) in t;
        assert t == s + {base + k - 1};
      } else {
        assert t == s;
      }
    }
  }

  lemma WeightIsFull(b: bv8)
    ensures Weight8(b) == WeightTo(b, 8)
  {
    hide Has;
    assert WeightTo(b, 2) == WeightTo(b, 1) + (if Has(b, 1) then 1 else 0);
    assert WeightTo(b, 4) == WeightTo(b, 3) + (if Has(b, 3) then 1 else 0);
    assert WeightTo(b, 6) == WeightTo(b, 5) + (if Has(b, 5) then 1 else 0);
  }

  function CountTo(b: Bytes, i: nat): nat
    requires i <= |b|
  {
    if i == 0 then 0 else CountTo(b, i - 1) + Weight8(b[i - 1])
  }

  /** Summing the byte weights counts the set bits. */
  lemma {:induction false} CountIsCard(b: Bytes, i: nat)
    requires i <= |b|
    ensures |Members(b[..i])| == CountTo(b, i)
  {
    hide Has, Weight8;
    if i == 0 {
      assert Members(b[..0]) == {};
    } else {
      CountIsCard(b, i - 1);
      var s, t := Members(b[..i - 1]), Below(b[i - 1], 8 * (i - 1), 8);
      WeightToCard(b[i - 1], 8 * (i - 1), 8);
      WeightIsFull(b[i - 1]);
      forall c: nat ensures c in Members(b[..i]) <==> c in s + t { NextByte(b, i, c); }
      assert Members(b[..i]) == s + t;
      assert s !! t by { forall c | c in t ensures c !in s { } }
    }
  }

  lemma NextByte(b: Bytes, i: nat, c: nat)
    requires 0 < i <= |b|
    ensures c in Members(b[..i]) <==> c in Members(b[..i - 1]) || c in Below(b[i - 1], 8 * (i - 1), 8)
  {
    hide Has, Members;
    MembersAre(b[..i], c);
    MembersAre(b[..i - 1], c);
    if c / 8 == i - 1 { assert c == 8 * (i - 1) + c % 8; }
  }

  lemma SomeMember(b: bv8)
    ensures b != 0 <==> exists k :: 0 <= k < 8 && Has(b, k)
  {
    hide Mask;
    if b != 0 { SomeBit(b); }
  }

  lemma SomeBit(b: bv8)
    requires b != 0
    ensures Has(b, 0) || Has(b, 1) || Has(b, 2) || Has(b, 3) || Has(b, 4) || Has(b, 5) || Has(b, 6) || Has(b, 7)
  {
  }

  // ----- in place -----

  class BlockBits {
    const bits: array<bv8>

    ghost function View(): set<nat>
      reads bits
    {
      Members(bits[..])
    }

    /** A block of `pages` pages, with no bit set */
    constructor (pages: nat)
      ensures fresh(bits) && bits.Length == (pages + 7) / 8 && View() == {}
    {
      bits := new bv8[(pages + 7) / 8](_ => 0);
      new;
      forall c: nat ensures c !in Members(bits[..]) {
        MembersAre(bits[..], c);
        ZeroHas(c % 8);
      }
    }

    /** yaffs_clear_chunk_bits */
    method ClearAll()
      modifies bits
      ensures View() == {}
    {
      var i := 0;
      while i < bits.Length
        invariant 0 <= i <= bits.Length && forall j :: 0 <= j < i ==> bits[j] == 0
      {
        bits[i] := 0;
        i := i + 1;
      }
      forall c: nat ensures c !in Members(bits[..]) {
        MembersAre(bits[..], c);
        ZeroHas(c % 8);
      }
    }

    /** yaffs_set_chunk_bit */
    method SetBit(c: nat)
      requires c / 8 < bits.Length
      modifies bits
      ensures View() == old(View()) + {c}
    {
      SetMembers(bits[..], c);
      ghost var before := bits[..];
      bits[c / 8] := SetIn(bits[c / 8], c % 8);
      assert bits[..] == Set(before, c);
    }

    /** yaffs_clear_chunk_bit */
    method ClearBit(c: nat)
      requires c / 8 < bits.Length
      modifies bits
      ensures View() == old(View()) - {c}
    {
      ClearMembers(bits[..], c);
      ghost var before := bits[..];
      bits[c / 8] := ClearIn(bits[c / 8], c % 8);
      assert bits[..] == Clear(before, c);
    }

    /** yaffs_check_chunk_bit */
    method Check(c: nat) returns (r: bool)
      requires c / 8 < bits.Length
      ensures r <==> c in View()
    {
      MembersAre(bits[..], c);
      r := Has(bits[c / 8], c % 8);
    }

    /** yaffs_count_chunk_bits */
    method Count() returns (n: nat)
      ensures n == |View()|
    {
      hide Weight8, Members;
      n := 0;
      var i := 0;
      while i < bits.Length
        invariant 0 <= i <= bits.Length && n == CountTo(bits[..], i)
      {
        n := n + Weight8(bits[i]);
        i := i + 1;
      }
      CountIsCard(bits[..], bits.Length);
      assert bits[..][..bits.Length] == bits[..];
    }

    /** yaffs_still_some_chunks */
    method StillSome() returns (r: bool)
      ensures r <==> View() != {}
    {
      hide Has, Members;
      var i := 0;
      while i < bits.Length
        invariant 0 <= i <= bits.Length && forall j :: 0 <= j < i ==> bits[j] == 0
      {
        if bits[i] != 0 {
          SomeMember(bits[i]);
          ghost var k :| 0 <= k < 8 && Has(bits[i], k);
          assert (8 * i + k) / 8 == i && (8 * i + k) % 8 == k;
          MembersAre(bits[..], 8 * i + k);
          return true;
        }
        i := i + 1;
      }
      forall c: nat ensures c !in Members(bits[..]) {
        MembersAre(bits[..], c);
        ZeroHas(c % 8);
      }
      return false;
    }
  }
}
