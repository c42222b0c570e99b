/** 32-bit words as sequences of bits, bit 0 first. */
module Words {
  type Word = w: seq<bool> | |w| == 32 witness seq(32, _ => false)

  function Zero(): Word { seq(32, _ => false) }

  function And(a: Word, b: Word): Word { seq(32, i requires 0 <= i < 32 => a[i] && b[i]) }
  function Or(a: Word, b: Word): Word { seq(32, i requires 0 <= i < 32 => a[i] || b[i]) }
  function Xor(a: Word, b: Word): Word { seq(32, i requires 0 <= i < 32 => a[i] != b[i]) }
  function Not(a: Word): Word { seq(32, i requires 0 <= i < 32 => !a[i]) }
  function Shl(a: Word, k: nat): Word { seq(32, i requires 0 <= i < 32 => i >= k && a[i - k]) }
  function Shr(a: Word, k: nat): Word { seq(32, i requires 0 <= i < 32 => i + k < 32 && a[i + k]) }

  // ----- words as numbers -----

  function Pow2(k: nat): nat { if k == 0 then 1 else 2 * Pow2(k - 1) }

  function BitsOf(n: nat, len: nat): (r: seq<bool>)
    ensures |r| == len
    decreases len
  {
    if len == 0 then [] else [n % 2 == 1] + BitsOf(n / 2, len - 1)
  }

  function Value(s: seq<bool>): nat {
    if s == [] then 0 else (if s[0] then 1 else 0) + 2 * Value(s[1..])
  }

  function OfNat(n: nat): Word { BitsOf(n, 32) }

  lemma {:induction false} ValueOfBits(n: nat, len: nat)
    requires n < Pow2(len)
    ensures Value(BitsOf(n, len)) == n
    decreases len
  {
    if len > 0 { ValueOfBits(n / 2, len - 1); }
  }

  /** hweight32 */
  function Ones(s: seq<bool>): nat { if s == [] then 0 else (if s[0] then 1 else 0) + Ones(s[1..]) }

  lemma {:induction false} OnesZero(s: seq<bool>)
    ensures Ones(s) == 0 <==> forall i :: 0 <= i < |s| ==> !s[i]
  {
    if s != [] {
      OnesZero(s[1..]);
      assert forall i :: 1 <= i < |s| ==> s[i] == s[1..][i - 1];
      assert (forall i :: 0 <= i < |s| ==> !s[i]) ==> forall i :: 0 <= i < |s[1..]| ==> s[1..][i] == s[i + 1];
    }
  }

  lemma {:induction false} OnesSingle(s: seq<bool>, k: nat)
    requires k < |s| && forall i :: 0 <= i < |s| ==> (s[i] <==> i == k)
    ensures Ones(s) == 1
  {
    if k == 0 { OnesZero(s[1..]); } else { OnesSingle(s[1..], k - 1); }
  }
}
