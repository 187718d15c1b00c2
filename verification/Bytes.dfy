/** Byte strings, fixed-width big-endian integers and the lexicographic order the
    storage engine iterates in. */
module Bytes {

  datatype Option<+T> = None | Some(value: T)

  type Byte = x: int | 0 <= x < 256

  type ByteSeq = seq<Byte>

  const TWO_TO_64: int := 0x1_0000_0000_0000_0000

  type U64 = x: int | 0 <= x < TWO_TO_64

  /** 256 to the power w. */
  function Pow256(w: nat): (p: nat)
    ensures p >= 1
  {
    if w == 0 then 1 else 256 * Pow256(w - 1)
  }

  lemma Pow256Values()
    ensures Pow256(2) == 0x1_0000
    ensures Pow256(4) == 0x1_0000_0000
    ensures Pow256(7) == 0x100_0000_0000_0000
    ensures Pow256(8) == TWO_TO_64
  {
    assert Pow256(3) == 256 * Pow256(2);
    assert Pow256(5) == 256 * Pow256(4);
    assert Pow256(6) == 256 * Pow256(5);
  }

  /** The low `width` bytes of n, most significant first (binary.BigEndian.PutUintN). */
  function BigEndian(n: nat, width: nat): (b: ByteSeq)
    ensures |b| == width
  {
    if width == 0 then [] else BigEndian(n / 256, width - 1) + [n % 256]
  }

  /** The number a big-endian byte string stands for (binary.BigEndian.UintN). */
  function Uint(b: ByteSeq): nat {
    if b == [] then 0 else Uint(b[..|b| - 1]) * 256 + b[|b| - 1]
  }

  lemma ModStep(n: nat, p: nat)
    requires p >= 1
    ensures n % (256 * p) == ((n / 256) % p) * 256 + n % 256
  {
    var q := n / 256;
    var r := (q % p) * 256 + n % 256;
    assert n == q * 256 + n % 256;
    assert q == (q / p) * p + q % p;
    calc {
      n;
      ((q / p) * p + q % p) * 256 + n % 256;
      (q / p) * p * 256 + r;
      { assert (q / p) * p * 256 == (q / p) * (256 * p); }
      (q / p) * (256 * p) + r;
    }
    assert 0 <= r < 256 * p;
    ModUnique(n, 256 * p, q / p, r);
  }

  lemma MulGap(a: nat, b: nat, m: nat)
    requires a < b
    ensures a * m + m <= b * m
  {
    assert b * m == a * m + (b - a) * m;
    assert (b - a) * m == m + (b - a - 1) * m;
  }

  lemma ModUnique(n: nat, m: nat, k: nat, r: nat)
    requires m >= 1 && n == k * m + r && r < m
    ensures n % m == r
  {
    var q := n / m;
    assert n == q * m + n % m;
    if q < k {
      MulGap(q, k, m);
    } else if k < q {
      MulGap(k, q, m);
    }
  }

  /** Reading back what was written gives the number modulo the width. */
  lemma {:induction false} UintOfBigEndian(n: nat, width: nat)
    ensures Uint(BigEndian(n, width)) == n % Pow256(width)
  {
    if width > 0 {
      UintOfBigEndian(n / 256, width - 1);
      var b := BigEndian(n, width);
      assert b[..|b| - 1] == BigEndian(n / 256, width - 1);
      ModStep(n, Pow256(width - 1));
    }
  }

  /** Writing back what was read gives the bytes again. */
  lemma {:induction false} BigEndianOfUint(b: ByteSeq)
    ensures BigEndian(Uint(b), |b|) == b
  {
    if b != [] {
      BigEndianOfUint(b[..|b| - 1]);
      assert b == b[..|b| - 1] + [b[|b| - 1]];
    }
  }

  lemma {:induction false} BigEndianOfMod(n: nat, width: nat)
    ensures BigEndian(n, width) == BigEndian(n % Pow256(width), width)
  {
    if width > 0 {
      var m := n % Pow256(width);
      ModStep(n, Pow256(width - 1));
      BigEndianOfMod(n / 256, width - 1);
      assert m / 256 == (n / 256) % Pow256(width - 1);
      assert m % 256 == n % 256;
    }
  }

  /** Two numbers have the same encoding exactly when they agree modulo the width. */
  lemma BigEndianInjective(a: nat, b: nat, width: nat)
    ensures BigEndian(a, width) == BigEndian(b, width) <==> a % Pow256(width) == b % Pow256(width)
  {
    UintOfBigEndian(a, width);
    UintOfBigEndian(b, width);
    BigEndianOfMod(a, width);
    BigEndianOfMod(b, width);
  }

  lemma U64Injective(a: U64, b: U64)
    requires BigEndian(a, 8) == BigEndian(b, 8)
    ensures a == b
  {
    BigEndianInjective(a, b, 8);
    Pow256Values();
  }

  lemma SplitEqual(a: ByteSeq, x: ByteSeq, b: ByteSeq, y: ByteSeq)
    requires |a| == |b| && a + x == b + y
    ensures a == b && x == y
  {
    assert a == (a + x)[..|a|] && b == (b + y)[..|b|];
    assert x == (a + x)[|a|..] && y == (b + y)[|b|..];
  }

  lemma NumberThenRest(a: U64, x: ByteSeq, b: U64, y: ByteSeq)
    requires BigEndian(a, 8) + x == BigEndian(b, 8) + y
    ensures a == b && x == y
  {
    SplitEqual(BigEndian(a, 8), x, BigEndian(b, 8), y);
    U64Injective(a, b);
  }

  /** The bytes of an ASCII string. */
  function Text(s: string): (b: ByteSeq)
    ensures |b| == |s|
    ensures forall i :: 0 <= i < |s| ==> b[i] == s[i] as int % 256
  {
    seq(|s|, i requires 0 <= i < |s| => s[i] as int % 256)
  }

  /** Dropping the leading byte of an encoding gives the encoding one byte narrower. */
  lemma {:induction false} BigEndianTail(n: nat, width: nat)
    ensures BigEndian(n, width + 1)[1..] == BigEndian(n, width)
  {
    if width > 0 {
      BigEndianTail(n / 256, width - 1);
      assert BigEndian(n, width + 1)[1..] == BigEndian(n / 256, width)[1..] + [n % 256];
    }
  }

  function Zeros(n: nat): (b: ByteSeq)
    ensures |b| == n
    ensures forall i :: 0 <= i < n ==> b[i] == 0
  {
    seq(n, _ => 0)
  }

  lemma {:induction false} BigEndianZero(width: nat)
    ensures BigEndian(0, width) == Zeros(width)
  {
    if width > 0 {
      BigEndianZero(width - 1);
    }
  }

  lemma UintOfU64(n: U64)
    ensures Uint(BigEndian(n, 8)) == n
  {
    UintOfBigEndian(n, 8);
    Pow256Values();
  }

  /** The middle of a string made of three parts. */
  lemma Parts(a: ByteSeq, x: ByteSeq, c: ByteSeq)
    ensures var b := a + (x + c);
            b[..|a|] == a && b[|a|..|a| + |x|] == x && b[|a| + |x|..] == c && |b| == |a| + |x| + |c|
  {
  }

  // ----- Lexicographic order ------------------------------------------------

  /** bytes.Compare(a, b) <= 0 */
  predicate LexLeq(a: ByteSeq, b: ByteSeq) {
    a == [] || (b != [] && (a[0] < b[0] || (a[0] == b[0] && LexLeq(a[1..], b[1..]))))
  }

  predicate LexLess(a: ByteSeq, b: ByteSeq) {
    a != b && LexLeq(a, b)
  }

  lemma {:induction false} LexAntisymmetric(a: ByteSeq, b: ByteSeq)
    requires LexLeq(a, b) && LexLeq(b, a)
    ensures a == b
  {
    if a != [] {
      LexAntisymmetric(a[1..], b[1..]);
      assert a == [a[0]] + a[1..] && b == [b[0]] + b[1..];
    }
  }

  lemma {:induction false} LexTransitive(a: ByteSeq, b: ByteSeq, c: ByteSeq)
    requires LexLeq(a, b) && LexLeq(b, c)
    ensures LexLeq(a, c)
  {
    if a != [] && a[0] == b[0] && b[0] == c[0] {
      LexTransitive(a[1..], b[1..], c[1..]);
    }
  }

  lemma {:induction false} LexTotal(a: ByteSeq, b: ByteSeq)
    ensures LexLeq(a, b) || LexLeq(b, a)
  {
    if a != [] && b != [] {
      LexTotal(a[1..], b[1..]);
    }
  }
}
