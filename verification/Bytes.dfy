/** Bytes, little-endian machine words, and the 16-byte digests that name files. */
module Bytes {

  type Byte = b: int | 0 <= b < 256

  /** An MD5 digest (RFC 1321): sixteen bytes. */
  type Digest = d: seq<Byte> | |d| == 16
    witness [0, 0, 0, 0, 0, 0, 0, 0, 0, 0, 0, 0, 0, 0, 0, 0]

  /** The all-zero digest, which marks an empty table slot. */
  const ZERO: Digest := [0, 0, 0, 0, 0, 0, 0, 0, 0, 0, 0, 0, 0, 0, 0, 0]

  /** MD5 as an abstract function of the bytes fed to it. */
  type Md5 = seq<Byte> -> Digest

  datatype Option<+T> = None | Some(value: T)

  function Pow256(k: nat): (p: nat)
    ensures p > 0
  {
    if k == 0 then 1 else 256 * Pow256(k - 1)
  }

  /** The k low-order bytes of n as they lie in little-endian memory. */
  function ToLe(n: nat, k: nat): (s: seq<Byte>)
    ensures |s| == k
  {
    if k == 0 then [] else [n % 256] + ToLe(n / 256, k - 1)
  }

  function FromLe(s: seq<Byte>): nat {
    if s == [] then 0 else s[0] + 256 * FromLe(s[1..])
  }

  lemma {:induction false} LeDecodesEncoding(n: nat, k: nat)
    requires n < Pow256(k)
    ensures FromLe(ToLe(n, k)) == n
  {
    if k > 0 {
      LeDecodesEncoding(n / 256, k - 1);
      assert ToLe(n, k)[1..] == ToLe(n / 256, k - 1);
    }
  }

  lemma {:induction false} LeEncodesDecoding(s: seq<Byte>)
    ensures FromLe(s) < Pow256(|s|)
    ensures ToLe(FromLe(s), |s|) == s
  {
    if s != [] {
      LeEncodesDecoding(s[1..]);
      assert FromLe(s) / 256 == FromLe(s[1..]) && FromLe(s) % 256 == s[0];
      assert s == [s[0]] + s[1..];
    }
  }

  function Reversed(s: seq<Byte>): (r: seq<Byte>)
    ensures |r| == |s|
    ensures forall k :: 0 <= k < |s| ==> r[k] == s[|s| - 1 - k]
  {
    seq(|s|, k requires 0 <= k < |s| => s[|s| - 1 - k])
  }

  /** htonl and ntohl on a little-endian host: both swap the four bytes of a word. */
  function SwapWord(x: nat): (y: nat)
    ensures y < Pow256(4)
  {
    var swapped := Reversed(ToLe(x, 4));
    LeEncodesDecoding(swapped);
    FromLe(swapped)
  }

  /** In memory a swapped word has its most significant byte first: network order. */
  lemma SwapWordIsNetworkOrder(x: nat)
    requires x < 0x1_0000_0000
    ensures var b := ToLe(SwapWord(x), 4);
            0x100_0000 * (b[0] as int) + 0x1_0000 * (b[1] as int) + 0x100 * (b[2] as int) + b[3] == x
  {
    Pow256Of4();
    var swapped := Reversed(ToLe(x, 4));
    LeEncodesDecoding(swapped);
    LeDecodesEncoding(x, 4);
    FourBytes(ToLe(x, 4));
  }

  lemma FourBytes(s: seq<Byte>)
    requires |s| == 4
    ensures FromLe(s) == s[0] + 0x100 * (s[1] as int) + 0x1_0000 * (s[2] as int) + 0x100_0000 * (s[3] as int)
  {
    assert s[1..][1..] == s[2..] && s[2..][1..] == s[3..] && s[3..][1..] == [];
    assert FromLe(s[3..]) == s[3];
    assert FromLe(s[2..]) == s[2] + 0x100 * (s[3] as int);
  }

  lemma Pow256Of4()
    ensures Pow256(4) == 0x1_0000_0000
  {
    assert Pow256(2) == 0x1_0000;
    assert Pow256(3) == 0x100_0000;
  }

  lemma SwapWordTwice(x: nat)
    requires x < Pow256(4)
    ensures SwapWord(SwapWord(x)) == x
  {
    LeEncodesDecoding(Reversed(ToLe(x, 4)));
    assert Reversed(Reversed(ToLe(x, 4))) == ToLe(x, 4);
    LeDecodesEncoding(x, 4);
  }

  /** The first (0) or second (1) eight bytes of a digest, read as a machine word. */
  function Half(d: Digest, which: nat): nat
    requires which < 2
  {
    FromLe(d[8 * which .. 8 * which + 8])
  }

  /** Digests are compared as two words; that is comparison of all sixteen bytes. */
  predicate SameDigest(a: Digest, b: Digest)
    ensures SameDigest(a, b) <==> a == b
  {
    HalvesDetermineDigest(a, b);
    Half(a, 0) == Half(b, 0) && Half(a, 1) == Half(b, 1)
  }

  lemma HalvesDetermineDigest(a: Digest, b: Digest)
    ensures Half(a, 0) == Half(b, 0) && Half(a, 1) == Half(b, 1) ==> a == b
  {
    LeInjective(a[0..8], b[0..8]);
    LeInjective(a[8..16], b[8..16]);
    assert a == a[0..8] + a[8..16] && b == b[0..8] + b[8..16];
  }

  lemma LeInjective(a: seq<Byte>, b: seq<Byte>)
    requires |a| == |b|
    ensures FromLe(a) == FromLe(b) ==> a == b
  {
    LeEncodesDecoding(a);
    LeEncodesDecoding(b);
  }

  /** The emptiness test: both halves are zero. */
  predicate IsZero(d: Digest)
    ensures IsZero(d) <==> d == ZERO
  {
    HalvesDetermineDigest(d, ZERO);
    assert Half(ZERO, 0) == 0 && Half(ZERO, 1) == 0 by { ZeroHalves(); }
    Half(d, 0) == 0 && Half(d, 1) == 0
  }

  lemma ZeroHalves()
    ensures Half(ZERO, 0) == 0 && Half(ZERO, 1) == 0
  {
    AllZero(ZERO[0..8]);
    AllZero(ZERO[8..16]);
  }

  lemma {:induction false} AllZero(s: seq<Byte>)
    requires forall i :: 0 <= i < |s| ==> s[i] == 0
    ensures FromLe(s) == 0
  {
    if s != [] {
      AllZero(s[1..]);
    }
  }

  /** Bitwise conjunction of unsigned words. */
  function And(a: nat, b: nat): nat {
    if a == 0 || b == 0 then 0
    else (if a % 2 == 1 && b % 2 == 1 then 1 else 0) + 2 * And(a / 2, b / 2)
  }

  predicate IsPow2(c: nat) {
    c == 1 || (c > 0 && c % 2 == 0 && IsPow2(c / 2))
  }

  /** Masking with c - 1 is reduction modulo c when c is a power of two. */
  lemma {:induction false} MaskIsModulo(a: nat, c: nat)
    requires IsPow2(c)
    ensures And(a, c - 1) == a % c
  {
    if c > 1 && a > 0 {
      var m := c / 2;
      assert c == 2 * m && (c - 1) / 2 == m - 1 && (c - 1) % 2 == 1;
      calc {
        And(a, c - 1);
        a % 2 + 2 * And(a / 2, m - 1);
        { MaskIsModulo(a / 2, m); }
        a % 2 + 2 * ((a / 2) % m);
        { ModuloOfDouble(a, m); }
        a % c;
      }
    } else if c == 1 {
      assert And(a, 0) == 0;
      assert a % 1 == 0;
    } else {
      assert c > 0;
      assert a == 0 && And(0, c - 1) == 0;
      assert 0 % c == 0;
    }
  }

  lemma ModuloOfDouble(a: nat, m: nat)
    requires m > 0
    ensures a % (2 * m) == a % 2 + 2 * ((a / 2) % m)
  {
    var t, u := (a / 2) / m, (a / 2) % m;
    assert a == (2 * m) * t + (a % 2 + 2 * u) by {
      assert a / 2 == m * t + u;
      assert (2 * m) * t == 2 * (m * t);
    }
    ModuloUnique(a, 2 * m, t, a % 2 + 2 * u);
  }

  lemma ModuloUnique(a: int, n: int, t: int, u: int)
    requires n > 0 && a == n * t + u && 0 <= u < n
    ensures a % n == u
  {
    var q := a / n;
    assert a == n * q + a % n;
    assert n * (q - t) == u - a % n;
    MultipleOutgrows(n, q - t);
  }

  lemma MultipleOutgrows(n: int, d: int)
    requires n > 0
    ensures d >= 1 ==> n * d >= n
    ensures d <= -1 ==> n * d <= -n
  {}
}
