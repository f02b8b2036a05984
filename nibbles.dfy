/**
 * Hexadecimal digits of the natural numbers that hold one board row each.
 * Nib(w, k) is the k-th nibble of w counted from the least significant one,
 * so `(w >> 4*k) & 0xF`; Horner(s) packs nibbles, most significant first.
 */
module Nibbles {

  function Pow16(n: nat): (p: nat)
    ensures p >= 1
  {
    if n == 0 then 1 else 16 * Pow16(n - 1)
  }

  /** 2^32, the bound of one 32-bit row word. */
  const WordLimit: nat := 0x1_0000_0000

  lemma Pow16Eight()
    ensures Pow16(8) == WordLimit
  {
  }

  function Nib(w: nat, k: nat): (d: nat)
    ensures d < 16
  {
    if k == 0 then w % 16 else Nib(w / 16, k - 1)
  }

  /** Shifting left by one nibble moves every nibble one place up. */
  lemma NibShift(w: nat, k: nat)
    ensures Nib(w * 16, k + 1) == Nib(w, k)
  {
    assert w * 16 / 16 == w;
  }

  /** Shifting left by n nibbles moves every nibble n places up. */
  lemma {:induction false} NibShifted(w: nat, n: nat, k: nat)
    ensures Nib(w * Pow16(n), k + n) == Nib(w, k)
  {
    if n > 0 {
      calc {
        Nib(w * Pow16(n), k + n);
        { assert w * Pow16(n) == (w * Pow16(n - 1)) * 16; }
        Nib((w * Pow16(n - 1)) * 16, (k + n - 1) + 1);
        { NibShift(w * Pow16(n - 1), k + n - 1); }
        Nib(w * Pow16(n - 1), k + n - 1);
        { NibShifted(w, n - 1, k); }
        Nib(w, k);
      }
    }
  }

  /** The number whose nibbles, most significant first, are those of s. */
  function Horner(s: seq<nat>): nat {
    if s == [] then 0 else Horner(s[..|s| - 1]) * 16 + s[|s| - 1]
  }

  predicate AreNibbles(s: seq<nat>) {
    forall i :: 0 <= i < |s| ==> s[i] < 16
  }

  /** Packing nibbles and reading them back gives the nibbles again. */
  lemma {:induction false} NibOfHorner(s: seq<nat>, k: nat)
    requires AreNibbles(s)
    requires k < |s|
    ensures Nib(Horner(s), k) == s[|s| - 1 - k]
  {
    var init := s[..|s| - 1];
    assert AreNibbles(init);
    var h := Horner(init);
    assert Horner(s) == h * 16 + s[|s| - 1];
    if k > 0 {
      assert Horner(s) / 16 == h;
      NibOfHorner(init, k - 1);
    }
  }

  /** |s| nibbles fit into 4*|s| bits. */
  lemma {:induction false} HornerBound(s: seq<nat>)
    requires AreNibbles(s)
    ensures Horner(s) < Pow16(|s|)
  {
    if s != [] {
      var init := s[..|s| - 1];
      assert AreNibbles(init);
      HornerBound(init);
    }
  }

  /** Two numbers below 16^n with the same n low nibbles are equal. */
  lemma {:induction false} NibblesDetermine(a: nat, b: nat, n: nat)
    requires a < Pow16(n) && b < Pow16(n)
    requires forall k :: 0 <= k < n ==> Nib(a, k) == Nib(b, k)
    ensures a == b
  {
    if n > 0 {
      assert Nib(a, 0) == Nib(b, 0);
      forall k | 0 <= k < n - 1
        ensures Nib(a / 16, k) == Nib(b / 16, k)
      {
        assert Nib(a, k + 1) == Nib(b, k + 1);
      }
      NibblesDetermine(a / 16, b / 16, n - 1);
    }
  }
}
