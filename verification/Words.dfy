/** 256-bit words as big-endian bytes, and the masked digest of the public values. */
module Words {
  import opened Field
  import opened Groth16

  type Byte = b: nat | b < 256

  function Bound(n: nat): nat
    ensures Bound(n) >= 1
  {
    if n == 0 then 1 else 256 * Bound(n - 1)
  }

  /** The n low bytes of v, most significant first. */
  function ToBytes(v: nat, n: nat): (s: seq<Byte>)
    ensures |s| == n
  {
    if n == 0 then [] else ToBytes(v / 256, n - 1) + [v % 256]
  }

  /** The number a byte string stands for, most significant first. */
  function FromBytes(s: seq<Byte>): nat {
    if s == [] then 0 else 256 * FromBytes(s[..|s| - 1]) + s[|s| - 1]
  }

  lemma {:induction false} FromBytesBound(s: seq<Byte>)
    ensures FromBytes(s) < Bound(|s|)
    decreases |s|
  {
    if s != [] {
      FromBytesBound(s[..|s| - 1]);
    }
  }

  /** Numbers that fit survive the round trip through bytes. */
  lemma {:induction false} NumberRoundTrip(v: nat, n: nat)
    requires v < Bound(n)
    ensures FromBytes(ToBytes(v, n)) == v
    decreases n
  {
    if n > 0 {
      NumberRoundTrip(v / 256, n - 1);
      var s := ToBytes(v, n);
      assert s[..n - 1] == ToBytes(v / 256, n - 1);
    }
  }

  /** Byte strings survive the round trip through numbers. */
  lemma {:induction false} BytesRoundTrip(s: seq<Byte>)
    ensures ToBytes(FromBytes(s), |s|) == s
    decreases |s|
  {
    if s != [] {
      BytesRoundTrip(s[..|s| - 1]);
      assert s == s[..|s| - 1] + [s[|s| - 1]];
    }
  }

  lemma {:induction false} WordBound()
    ensures Bound(32) == WORD
  {
    DoubleBound(1);
    DoubleBound(2);
    DoubleBound(4);
    DoubleBound(8);
    DoubleBound(16);
    assert Bound(1) == 256;
  }

  lemma {:induction false} BoundAdd(m: nat, n: nat)
    ensures Bound(m + n) == Bound(m) * Bound(n)
    decreases m
  {
    if m > 0 {
      BoundAdd(m - 1, n);
      assert Bound(m + n) == 256 * Bound(m - 1 + n);
      assert 256 * (Bound(m - 1) * Bound(n)) == (256 * Bound(m - 1)) * Bound(n);
    }
  }

  lemma {:induction false} DoubleBound(n: nat)
    ensures Bound(2 * n) == Bound(n) * Bound(n)
  {
    BoundAdd(n, n);
  }

  // ----- The digest

  function Pow2(n: nat): nat
    ensures Pow2(n) >= 1
  {
    if n == 0 then 1 else 2 * Pow2(n - 1)
  }

  /** The bitwise and of two words. */
  function And(a: nat, b: nat): nat
    decreases a
  {
    if a == 0 || b == 0 then 0
    else 2 * And(a / 2, b / 2) + (if a % 2 == 1 && b % 2 == 1 then 1 else 0)
  }

  /** Masking with n ones keeps the n low bits. */
  lemma {:induction false} MaskIsMod(a: nat, n: nat)
    ensures And(a, Pow2(n) - 1) == a % Pow2(n)
    decreases n
  {
    if n > 0 && a > 0 {
      hide And;
      var m := Pow2(n - 1);
      assert Pow2(n) == 2 * m;
      MaskIsMod(a / 2, n - 1);
      MaskStep(a, m);
    } else {
      MaskOfNothing(a, n);
    }
  }

  lemma {:induction false} MaskOfNothing(a: nat, n: nat)
    requires n == 0 || a == 0
    ensures And(a, Pow2(n) - 1) == a % Pow2(n)
  {
    if n == 0 {
      assert Pow2(n) == 1;
    } else {
      assert 0 % Pow2(n) == 0;
    }
  }

  lemma {:induction false} MaskStep(a: nat, m: nat)
    requires a > 0 && m >= 1 && And(a / 2, m - 1) == (a / 2) % m
    ensures And(a, 2 * m - 1) == a % (2 * m)
  {
    hide And;
    AndOfMask(a, m);
    HalfMod(a, m);
  }

  lemma {:induction false} AndOfMask(a: nat, m: nat)
    requires a > 0 && m >= 1
    ensures And(a, 2 * m - 1) == 2 * And(a / 2, m - 1) + a % 2
  {
    assert (2 * m - 1) / 2 == m - 1 && (2 * m - 1) % 2 == 1;
  }

  lemma {:induction false} HalfMod(a: nat, m: nat)
    requires m >= 1
    ensures a % (2 * m) == 2 * ((a / 2) % m) + a % 2
  {
    var q, r := (a / 2) / m, (a / 2) % m;
    assert a / 2 == q * m + r;
    assert a == q * (2 * m) + (2 * r + a % 2) by {
      assert q * (2 * m) == 2 * (q * m);
    }
    QuotientUnique(a / (2 * m), a % (2 * m), q, 2 * r + a % 2, 2 * m);
  }

  /** The digest of a hash: its big-endian number with everything above bit 252 masked off. */
  function Digest(hash: seq<Byte>): nat {
    And(FromBytes(hash), Pow2(253) - 1)
  }

  lemma {:induction false} Pow2Bytes(n: nat)
    ensures Pow2(8 * n) == Bound(n)
  {
    if n > 0 {
      Pow2Bytes(n - 1);
      Pow2Four(8 * (n - 1));
      Pow2Four(8 * (n - 1) + 4);
    }
  }

  lemma {:induction false} Pow2Four(n: nat)
    ensures Pow2(n + 3) == 8 * Pow2(n) && Pow2(n + 4) == 16 * Pow2(n)
  {
    assert Pow2(n + 1) == 2 * Pow2(n) && Pow2(n + 2) == 2 * Pow2(n + 1);
    assert Pow2(n + 3) == 2 * Pow2(n + 2) && Pow2(n + 4) == 2 * Pow2(n + 3);
  }

  lemma {:induction false} Pow2Of253(n: nat)
    requires n == 253
    ensures 8 * Pow2(n) == WORD
  {
    Pow2Bytes(32);
    WordBound();
    Pow2Four(n);
  }

  /** The digest fits the verifier: it is the hash modulo 2^253, is unchanged by the trip through
      32 big-endian bytes, and passes the contract's check that a public input is below R. */
  lemma {:induction false} DigestFits(hash: seq<Byte>)
    ensures Digest(hash) == FromBytes(hash) % Pow2(253)
    ensures Digest(hash) < R
    ensures FromBytes(ToBytes(Digest(hash), 32)) == Digest(hash)
  {
    MaskIsMod(FromBytes(hash), 253);
    Pow2Of253(253);
    WordBound();
    NumberRoundTrip(Digest(hash), 32);
  }
}
