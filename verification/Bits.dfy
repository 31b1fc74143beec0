// Shifts, masks and bitwise operators on natural numbers, through their bits.
module Bits {
  import opened Arithmetic
  import opened Octets

  type Bit = b: int | 0 <= b <= 1

  // Bit j of n, the lowest being bit 0.
  function BitOf(n: nat, j: nat): Bit
    decreases j
  {
    if j == 0 then n % 2 else BitOf(n / 2, j - 1)
  }

  function And(a: nat, b: nat): nat {
    if a == 0 || b == 0 then 0 else (a % 2) * (b % 2) + 2 * And(a / 2, b / 2)
  }

  function Or(a: nat, b: nat): nat {
    if a == 0 then b else if b == 0 then a
    else (if a % 2 == 1 || b % 2 == 1 then 1 else 0) + 2 * Or(a / 2, b / 2)
  }

  function Shl(n: nat, k: nat): (r: nat)
    ensures r >= n
    decreases k
  {
    if k == 0 then n else 2 * Shl(n, k - 1)
  }

  function Shr(n: nat, k: nat): nat
    decreases k
  {
    if k == 0 then n else Shr(n / 2, k - 1)
  }

  // k bits, all set.
  function Ones(k: nat): nat { if k == 0 then 0 else 2 * Ones(k - 1) + 1 }

  // Conversion to an 8-bit unsigned integer.
  function ToByte(n: nat): Byte { n % 256 }

  lemma {:induction false} ZeroBits(j: nat)
    ensures BitOf(0, j) == 0
    decreases j
  {
    if j > 0 {
      ZeroBits(j - 1);
    }
  }

  lemma {:induction false} AndBit(a: nat, b: nat, j: nat)
    ensures BitOf(And(a, b), j) == BitOf(a, j) * BitOf(b, j)
    decreases j
  {
    ZeroBits(j);
    if a != 0 && b != 0 {
      var c := And(a / 2, b / 2);
      ProductBit(a % 2, b % 2);
      assert And(a, b) % 2 == (a % 2) * (b % 2) && And(a, b) / 2 == c;
      if j > 0 {
        AndBit(a / 2, b / 2, j - 1);
      }
    }
  }

  lemma ProductBit(a: Bit, b: Bit)
    ensures a * b == (if a == 1 && b == 1 then 1 else 0)
  {
  }

  lemma {:induction false} OrBit(a: nat, b: nat, j: nat)
    ensures BitOf(Or(a, b), j) == if BitOf(a, j) == 1 || BitOf(b, j) == 1 then 1 else 0
    decreases j
  {
    ZeroBits(j);
    if a != 0 && b != 0 && j > 0 {
      OrBit(a / 2, b / 2, j - 1);
    }
  }

  lemma {:induction false} ShlBit(n: nat, k: nat, j: nat)
    ensures BitOf(Shl(n, k), j) == if j < k then 0 else BitOf(n, j - k)
    decreases k
  {
    if k > 0 {
      DoubleBit(Shl(n, k - 1), j);
      if j > 0 {
        ShlBit(n, k - 1, j - 1);
      }
    }
  }

  lemma DoubleBit(n: nat, j: nat)
    ensures BitOf(2 * n, j) == if j == 0 then 0 else BitOf(n, j - 1)
  {
    assert (2 * n) / 2 == n;
  }

  lemma {:induction false} ShrBit(n: nat, k: nat, j: nat)
    ensures BitOf(Shr(n, k), j) == BitOf(n, j + k)
    decreases k
  {
    if k > 0 {
      ShrBit(n / 2, k - 1, j);
    }
  }

  lemma {:induction false} OnesBit(k: nat, j: nat)
    ensures BitOf(Ones(k), j) == if j < k then 1 else 0
    decreases k
  {
    if k == 0 {
      ZeroBits(j);
    } else if j > 0 {
      OnesBit(k - 1, j - 1);
    }
  }

  // A number has no bit at or above k exactly when it is at most Ones(k).
  lemma {:induction false} SmallBits(n: nat, k: nat, j: nat)
    requires n <= Ones(k) && j >= k
    ensures BitOf(n, j) == 0
    decreases k
  {
    if k == 0 {
      ZeroBits(j);
    } else {
      SmallBits(n / 2, k - 1, j - 1);
    }
  }

  lemma {:induction false} BitsAreSmall(n: nat, k: nat)
    requires forall j :: j >= k ==> BitOf(n, j) == 0
    ensures n <= Ones(k)
    decreases n + k
  {
    if n > 0 {
      if k == 0 {
        assert BitOf(n, 0) == 0;
        forall j | j >= 0
          ensures BitOf(n / 2, j) == 0
        {
          assert BitOf(n, j + 1) == 0;
        }
        BitsAreSmall(n / 2, 0);
      } else {
        forall j | j >= k - 1
          ensures BitOf(n / 2, j) == 0
        {
          assert BitOf(n, j + 1) == 0;
        }
        BitsAreSmall(n / 2, k - 1);
      }
    }
  }

  // Numbers below 2^k are told apart by their low k bits.
  lemma {:induction false} SameBits(a: nat, b: nat, k: nat)
    requires a <= Ones(k) && b <= Ones(k) && forall j :: 0 <= j < k ==> BitOf(a, j) == BitOf(b, j)
    ensures a == b
    decreases k
  {
    if k > 0 {
      forall j | 0 <= j < k - 1
        ensures BitOf(a / 2, j) == BitOf(b / 2, j)
      {
        assert BitOf(a, j + 1) == BitOf(b, j + 1);
      }
      SameBits(a / 2, b / 2, k - 1);
      assert BitOf(a, 0) == BitOf(b, 0);
    }
  }

  lemma OnesAre()
    ensures Ones(8) == 0xFF && Ones(11) == 0x7FF
  {
    assert Ones(4) == 15;
    assert Ones(8) == 255;
  }

  lemma {:induction false} ShlOne(k: nat)
    ensures Shl(1, k) == Ones(k) + 1
  {
    if k > 0 {
      ShlOne(k - 1);
    }
  }

  lemma {:induction false} LowBits(n: nat, m: nat, k: nat, j: nat)
    requires m == Ones(k) + 1
    ensures n % m <= Ones(k) && BitOf(n % m, j) == if j < k then BitOf(n, j) else 0
    decreases k
  {
    if k == 0 {
      ZeroBits(j);
    } else {
      var h := Ones(k - 1) + 1;
      assert m == 2 * h;
      HalfOfRest(n, m, h);
      if j > 0 {
        LowBits(n / 2, h, k - 1, j - 1);
      } else {
        LowBits(n / 2, h, k - 1, 0);
      }
    }
  }

  lemma HalfOfRest(n: nat, m: nat, h: nat)
    requires h > 0 && m == 2 * h
    ensures (n % m) % 2 == n % 2 && (n % m) / 2 == (n / 2) % h
  {
    Divided(n, m);
    Halved(m, h, n / m, n % m, n);
  }

  lemma Halved(m: nat, h: nat, q: nat, x: nat, n: nat)
    requires m == 2 * h && n == m * q + x && x < m
    ensures x % 2 == n % 2 && x / 2 == (n / 2) % h
  {
    var y := h * q;
    assert m * q == 2 * y;
    assert n / 2 == y + x / 2;
    DivMod(h, q, x / 2);
  }

  // Or adds numbers that share no bit.
  lemma {:induction false} OrAdds(c: nat, k: nat, b: nat)
    requires b <= Ones(k)
    ensures Or(Shl(c, k), b) == Shl(c, k) + b
    decreases k
  {
    if k > 0 {
      OrAdds(c, k - 1, b / 2);
      assert Shl(c, k) / 2 == Shl(c, k - 1);
    }
  }

  lemma {:induction false} ShlIs(n: nat, k: nat)
    ensures Shl(n, k) == n * Pow(2, k) && Ones(k) == Pow(2, k) - 1
  {
    if k > 0 {
      ShlIs(n, k - 1);
    }
  }

  lemma Places()
    ensures Pow(2, 8) == 0x100 && Pow(2, 16) == 0x10000 && Pow(2, 24) == 0x1000000
  {
    assert Pow(2, 8) == 0x100;
    assert Pow(2, 12) == 0x1000;
    assert Pow(2, 16) == 0x10000;
    assert Pow(2, 20) == 0x100000;
  }

  lemma ToByteBit(n: nat, j: nat)
    ensures BitOf(ToByte(n), j) == if j < 8 then BitOf(n, j) else 0
  {
    OnesAre();
    LowBits(n, 256, 8, j);
  }
}
