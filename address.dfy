/** Address arithmetic: prefix length to dotted netmask
    (`_prefix_to_netmask`) and dotted netmask to CIDR by counting one-bits
    (the live, second `_calculate_cidr`). Prefix notation is that of
    section 3.1 of RFC 4632. */
module Address {
  import opened Text

  function Pow2(k: nat): (r: nat)
    ensures r >= 1
  {
    if k == 0 then 1 else 2 * Pow2(k - 1)
  }

  lemma {:induction false} Pow2Add(i: nat, j: nat)
    ensures Pow2(i) * Pow2(j) == Pow2(i + j)
  {
    if i > 0 {
      Pow2Add(i - 1, j);
    }
  }

  lemma {:induction false} Pow2Grows(j: nat, k: nat)
    requires j <= k
    ensures Pow2(j) <= Pow2(k)
  {
    if j < k { Pow2Grows(j, k - 1); }
  }

  lemma Pow2Eight()
    ensures Pow2(8) == 256
  {
    assert Pow2(4) == 16;
  }

  lemma Pow2ThirtyTwo()
    ensures Pow2(32) == 0x1_0000_0000
  {
    Pow2Eight();
    Pow2Add(8, 8);
    Pow2Add(16, 16);
  }

  /** Adding a multiple of 256 leaves the low octet alone. */
  lemma LowOctetOfSum(q: nat, r: nat)
    requires r < 256
    ensures (q * 256 + r) % 256 == r
  {
  }

  /** Python's `x >> k` on a non-negative integer. */
  function Shr(x: nat, k: nat): nat
    decreases k
  {
    if k == 0 then x else Shr(x / 2, k - 1)
  }

  /** Python's `x << k`. */
  function Shl(x: nat, k: nat): nat
    decreases k
  {
    if k == 0 then x else Shl(2 * x, k - 1)
  }

  /** The number whose binary form is `n` ones. */
  function Ones(n: nat): nat {
    Pow2(n) - 1
  }

  /** The number whose binary form is `a` ones followed by `z` zeros. */
  function Block(a: nat, z: nat): nat {
    Ones(a) * Pow2(z)
  }

  /** The 32-bit mask the source computes,
      `(0xffffffff >> (32 - p)) << (32 - p)`, for `p <= 32` (a larger `p`
      makes the shift count negative, which Python rejects). */
  function Mask(p: int): nat
    requires p <= 32
  {
    Shl(Shr(0xffff_ffff, 32 - p), 32 - p)
  }

  /** The four octets `(mask >> 24) & 255`, ..., `mask & 255`. */
  function MaskOctets(p: int): (o: seq<nat>)
    requires p <= 32
    ensures |o| == 4 && forall i :: 0 <= i < 4 ==> o[i] < 256
  {
    var m := Mask(p);
    [Shr(m, 24) % 256, Shr(m, 16) % 256, Shr(m, 8) % 256, m % 256]
  }

  /** `f"{a}.{b}.{c}.{d}"`. */
  function Dotted(o: seq<nat>): string
    requires |o| == 4
  {
    NatToString(o[0]) + ['.'] + (NatToString(o[1]) + ['.'] + (NatToString(o[2]) + ['.'] + NatToString(o[3])))
  }

  /** `_prefix_to_netmask`: `None` stands for the ValueError a prefix above
      32 raises. */
  function PrefixToNetmask(p: int): (r: Option<string>)
    ensures r.Some? <==> p <= 32
  {
    if p > 32 then None else Some(Dotted(MaskOctets(p)))
  }

  /** The octet whose eight bits are `b` ones followed by zeros. */
  function OnesOctet(b: nat): nat
    requires b <= 8
  {
    Block(b, 8 - b)
  }

  function Clamp8(x: int): (b: nat)
    ensures b <= 8
  {
    if x < 0 then 0 else if x > 8 then 8 else x
  }

  /** The four octets a prefix length calls for: octet `i` holds
      `p - 8i` ones, clamped to 0..8, followed by zeros. */
  function LeadingOnesOctets(p: int): (o: seq<nat>)
    ensures |o| == 4
  {
    [OnesOctet(Clamp8(p)), OnesOctet(Clamp8(p - 8)), OnesOctet(Clamp8(p - 16)), OnesOctet(Clamp8(p - 24))]
  }

  lemma {:induction false} ShrOnes(n: nat, s: nat)
    ensures Shr(Ones(n), s) == Ones(if s <= n then n - s else 0)
  {
    if s > 0 {
      if n > 0 {
        assert Ones(n) / 2 == Ones(n - 1);
        ShrOnes(n - 1, s - 1);
      } else {
        ShrOnes(0, s - 1);
      }
    }
  }

  lemma {:induction false} ShrBlock(a: nat, z: nat, s: nat)
    ensures Shr(Block(a, z), s) ==
      if s <= z then Block(a, z - s) else Ones(if s - z <= a then a - (s - z) else 0)
  {
    if s > 0 {
      if z > 0 {
        assert Block(a, z) == 2 * Block(a, z - 1) by {
          assert Ones(a) * (2 * Pow2(z - 1)) == 2 * (Ones(a) * Pow2(z - 1));
        }
        ShrBlock(a, z - 1, s - 1);
      } else {
        ShrOnes(a, s);
      }
    }
  }

  lemma {:induction false} ShlIsProduct(x: nat, k: nat)
    ensures Shl(x, k) == x * Pow2(k)
    decreases k
  {
    if k > 0 {
      ShlIsProduct(2 * x, k - 1);
      assert 2 * x * Pow2(k - 1) == x * (2 * Pow2(k - 1));
    }
  }

  /** For a prefix in 0..32 the mask is `p` ones followed by `32 - p` zeros. */
  lemma MaskIsBlock(p: int)
    requires 0 <= p <= 32
    ensures Mask(p) == Block(p, 32 - p)
  {
    Pow2ThirtyTwo();
    assert 0xffff_ffff == Ones(32);
    ShrOnes(32, 32 - p);
    ShlIsProduct(Ones(p), 32 - p);
  }

  /** A negative prefix shifts every bit out. */
  lemma MaskNegative(p: int)
    requires p < 0
    ensures Mask(p) == 0
    ensures forall s: nat :: Shr(Mask(p), s) == 0
  {
    Pow2ThirtyTwo();
    assert 0xffff_ffff == Ones(32);
    ShrOnes(32, 32 - p);
    ShlIsProduct(0, 32 - p);
    forall s: nat ensures Shr(Mask(p), s) == 0 {
      ShrOnes(0, s);
    }
  }

  lemma BlockBound(a: nat, z: nat)
    ensures Block(a, z) < Pow2(a + z)
  {
    Pow2Add(a, z);
    assert (Pow2(a) - 1) * Pow2(z) == Pow2(a) * Pow2(z) - Pow2(z);
  }

  lemma OnesSplit(a: nat, c: nat)
    requires c <= a
    ensures Ones(a) == Ones(a - c) * Pow2(c) + Ones(c)
  {
    Pow2Add(a - c, c);
    assert (Pow2(a - c) - 1) * Pow2(c) == Pow2(a - c) * Pow2(c) - Pow2(c);
  }

  /** The low eight bits of `a` ones followed by `z` zeros. */
  lemma LowOctetOfBlock(a: nat, z: nat)
    ensures Block(a, z) % 256 ==
      if z >= 8 then 0 else Block(if a <= 8 - z then a else 8 - z, z)
  {
    if z >= 8 {
      LowOctetShifted(a, z);
    } else if a <= 8 - z {
      LowOctetNarrow(a, z);
    } else {
      LowOctetWide(a, z);
    }
  }

  lemma LowOctetShifted(a: nat, z: nat)
    requires z >= 8
    ensures Block(a, z) % 256 == 0
  {
    Pow2Eight();
    Pow2Add(z - 8, 8);
    var q := Ones(a) * Pow2(z - 8);
    assert Block(a, z) == q * 256 by {
      assert Ones(a) * (Pow2(z - 8) * Pow2(8)) == (Ones(a) * Pow2(z - 8)) * Pow2(8);
    }
  }

  lemma LowOctetNarrow(a: nat, z: nat)
    requires a + z <= 8
    ensures Block(a, z) % 256 == Block(a, z)
  {
    Pow2Eight();
    BlockBound(a, z);
    Pow2Grows(a + z, 8);
  }

  lemma LowOctetWide(a: nat, z: nat)
    requires z < 8 && a + z > 8
    ensures Block(a, z) % 256 == Block(8 - z, z)
  {
    var c := 8 - z;
    Pow2Eight();
    OnesSplit(a, c);
    Pow2Add(c, z);
    BlockBound(c, z);
    var q := Ones(a - c);
    assert Block(a, z) == q * 256 + Block(c, z) by {
      assert Block(a, z) == (q * Pow2(c) + Ones(c)) * Pow2(z);
      assert (q * Pow2(c) + Ones(c)) * Pow2(z) == q * (Pow2(c) * Pow2(z)) + Ones(c) * Pow2(z);
    }
    LowOctetOfSum(q, Block(c, z));
  }

  /** The octet `(Mask(p) >> s) & 255` for `s` one of 24, 16, 8, 0. */
  lemma OctetOfMask(p: int, s: nat)
    requires 0 <= p <= 32 && s <= 24 && s % 8 == 0
    ensures Shr(Mask(p), s) % 256 == OnesOctet(Clamp8(p + s - 24))
  {
    MaskIsBlock(p);
    var k := 32 - p;
    ShrBlock(p, k, s);
    Pow2Eight();
    if s <= k {
      LowOctetOfBlock(p, k - s);
    } else {
      LowOctetOfBlock(32 - s, 0);
    }
  }

  /** For a prefix in 0..32, octet `i` of the netmask holds `p - 8i` ones
      (clamped to 0..8) followed by zeros: the mask has exactly `p` leading
      one-bits. */
  lemma MaskOctetsLeadingOnes(p: int)
    requires 0 <= p <= 32
    ensures MaskOctets(p) == LeadingOnesOctets(p)
  {
    OctetOfMask(p, 24);
    OctetOfMask(p, 16);
    OctetOfMask(p, 8);
    OctetOfMask(p, 0);
  }

  /** `bin(n).count('1')`: the number of one-bits of a natural number. */
  function Popcount(n: nat): nat {
    if n == 0 then 0 else n % 2 + Popcount(n / 2)
  }

  lemma {:induction false} PopcountOnes(j: nat)
    ensures Popcount(Ones(j)) == j
  {
    if j > 0 {
      assert Ones(j) == 2 * Ones(j - 1) + 1;
      PopcountOnes(j - 1);
    }
  }

  lemma {:induction false} PopcountBlock(a: nat, z: nat)
    ensures Popcount(Block(a, z)) == a
  {
    if z == 0 {
      PopcountOnes(a);
    } else {
      BlockDouble(a, z);
      PopcountDouble(Block(a, z - 1));
      PopcountBlock(a, z - 1);
    }
  }

  lemma BlockDouble(a: nat, z: nat)
    requires z > 0
    ensures Block(a, z) == 2 * Block(a, z - 1)
  {
    assert Ones(a) * (2 * Pow2(z - 1)) == 2 * (Ones(a) * Pow2(z - 1));
  }

  /** Doubling shifts in a zero bit. */
  lemma PopcountDouble(n: nat)
    ensures Popcount(2 * n) == Popcount(n)
  {
    if n > 0 {
      assert (2 * n) % 2 == 0 && (2 * n) / 2 == n;
    }
  }

  function Abs(v: int): nat {
    if v < 0 then -v else v
  }

  /** `[int(o) for o in pieces]`: the values of all pieces, or `None` for
      the ValueError raised when any piece is not an integer. */
  function ParsePieces(pieces: seq<string>): (r: Option<seq<int>>)
    ensures r.Some? <==> forall i :: 0 <= i < |pieces| ==> ParseInt(pieces[i]).Some?
    ensures r.Some? ==> |r.value| == |pieces|
    ensures r.Some? ==> forall i :: 0 <= i < |pieces| ==> ParseInt(pieces[i]) == Some(r.value[i])
  {
    if forall i :: 0 <= i < |pieces| ==> ParseInt(pieces[i]).Some? then
      Some(seq(|pieces|, i requires 0 <= i < |pieces| && ParseInt(pieces[i]).Some? => ParseInt(pieces[i]).value))
    else None
  }

  /** `''.join(format(v, '08b') for v in values).count('1')`. Formatting a
      negative number writes a minus sign and the binary digits of its
      absolute value, so only the absolute value contributes ones. */
  function SumOnes(values: seq<int>): nat {
    if values == [] then 0 else Popcount(Abs(values[0])) + SumOnes(values[1..])
  }

  /** The live `_calculate_cidr` (main.py:547-553; it replaces the earlier
      definition of the same name): `ip/k` where `k` counts the one-bits of
      every `.`-separated piece of the netmask. No check that there are four
      pieces or that the bits are contiguous, and no fallback: a piece that is
      not an integer is an error (`None`). */
  function CalculateCidr(ip: string, netmask: string): Option<string> {
    match ParsePieces(Split(netmask, '.'))
    case None => None
    case Some(values) => Some(ip + "/" + NatToString(SumOnes(values)))
  }

  lemma NoDotInNumber(n: nat)
    ensures '.' !in NatToString(n)
  {
    NatToStringDigits(n);
  }

  /** The pieces of a dotted quad, as `split('.')` returns them. */
  lemma SplitDotted(o: seq<nat>)
    requires |o| == 4
    ensures Split(Dotted(o), '.') ==
      [NatToString(o[0])] + ([NatToString(o[1])] + ([NatToString(o[2])] + [NatToString(o[3])]))
  {
    var a, b, c, d := NatToString(o[0]), NatToString(o[1]), NatToString(o[2]), NatToString(o[3]);
    NoDotInNumber(o[0]);
    NoDotInNumber(o[1]);
    NoDotInNumber(o[2]);
    NoDotInNumber(o[3]);
    SplitCons(c, '.', d);
    SplitCons(b, '.', c + ['.'] + d);
    SplitCons(a, '.', b + ['.'] + (c + ['.'] + d));
  }

  lemma SumOnesFour(o: seq<nat>)
    requires |o| == 4
    ensures SumOnes(o) == Popcount(o[0]) + Popcount(o[1]) + Popcount(o[2]) + Popcount(o[3])
  {
    assert o[1..][1..][1..][1..] == [];
    assert SumOnes(o[1..][1..][1..]) == Popcount(o[3]);
    assert SumOnes(o[1..][1..]) == Popcount(o[2]) + Popcount(o[3]);
  }

  /** The netmask of prefix `p` has `p` one-bits in all. */
  lemma MaskOctetsOnes(p: int)
    requires 0 <= p <= 32
    ensures SumOnes(MaskOctets(p)) == p
  {
    var o := MaskOctets(p);
    SumOnesFour(o);
    MaskOctetsLeadingOnes(p);
    PopcountOnesOctet(Clamp8(p));
    PopcountOnesOctet(Clamp8(p - 8));
    PopcountOnesOctet(Clamp8(p - 16));
    PopcountOnesOctet(Clamp8(p - 24));
    ClampSum(p);
  }

  lemma PopcountOnesOctet(b: nat)
    requires b <= 8
    ensures Popcount(OnesOctet(b)) == b
  {
    PopcountBlock(b, 8 - b);
  }

  lemma ClampSum(p: int)
    requires 0 <= p <= 32
    ensures Clamp8(p) + Clamp8(p - 8) + Clamp8(p - 16) + Clamp8(p - 24) == p
  {
  }

  /** Round trip: the CIDR of `ip` with the netmask of prefix `p` is
      `ip/p`, for every prefix in 0..32. */
  lemma CidrOfPrefixNetmask(ip: string, p: int)
    requires 0 <= p <= 32
    ensures PrefixToNetmask(p) == Some(Dotted(MaskOctets(p)))
    ensures CalculateCidr(ip, Dotted(MaskOctets(p))) == Some(ip + "/" + NatToString(p))
  {
    DottedParses(MaskOctets(p));
    MaskOctetsOnes(p);
  }

  /** `int()` of the pieces of a dotted quad gives back its four numbers. */
  lemma DottedParses(o: seq<nat>)
    requires |o| == 4
    ensures ParsePieces(Split(Dotted(o), '.')) == Some(o)
  {
    var ps := Split(Dotted(o), '.');
    SplitDotted(o);
    ParseIntOfNatToString(o[0]);
    ParseIntOfNatToString(o[1]);
    ParseIntOfNatToString(o[2]);
    ParseIntOfNatToString(o[3]);
    ParsePiecesOfFour(ps, o);
  }

  lemma ParsePiecesOfFour(ps: seq<string>, vs: seq<int>)
    requires |ps| == |vs| == 4
    requires ParseInt(ps[0]) == Some(vs[0]) && ParseInt(ps[1]) == Some(vs[1])
    requires ParseInt(ps[2]) == Some(vs[2]) && ParseInt(ps[3]) == Some(vs[3])
    ensures ParsePieces(ps) == Some(vs)
  {
    assert forall i :: 0 <= i < |ps| ==> ParseInt(ps[i]) == Some(vs[i]) by {
      forall i | 0 <= i < |ps| ensures ParseInt(ps[i]) == Some(vs[i]) {
        assert i == 0 || i == 1 || i == 2 || i == 3;
      }
    }
    ParsePiecesOfValues(ps, vs);
  }

  lemma ParsePiecesOfValues(ps: seq<string>, vs: seq<int>)
    requires |ps| == |vs| && forall i :: 0 <= i < |ps| ==> ParseInt(ps[i]) == Some(vs[i])
    ensures ParsePieces(ps) == Some(vs)
  {
    var r := ParsePieces(ps);
    assert r.value == vs;
  }

  /** Prefix 24 is the netmask `"255.255.255.0"`. */
  lemma NetmaskExample(p: int, mask: string)
    requires p == 24 && mask == "255.255.255.0"
    ensures PrefixToNetmask(p) == Some(mask)
  {
    MaskOctetsOfTwentyFour(p);
    DottedExample([255, 255, 255, 0], mask);
  }

  /** `192.168.1.10` with netmask `255.255.255.0` is `192.168.1.10/24`. */
  lemma CidrExample(ip: string, mask: string, digits: string)
    requires ip == "192.168.1.10" && mask == "255.255.255.0" && digits == "24"
    ensures CalculateCidr(ip, mask) == Some(ip + "/" + digits)
  {
    TwentyFourText(digits);
    NetmaskExample(24, mask);
    CidrOfPrefixNetmask(ip, 24);
  }

  lemma TwentyFourText(t: string)
    requires t == "24"
    ensures NatToString(24) == t
  {
    assert NatToString(2) == "2";
  }

  lemma MaskOctetsOfTwentyFour(p: int)
    requires p == 24
    ensures MaskOctets(p) == [255, 255, 255, 0]
  {
    MaskOctetsLeadingOnes(p);
    Pow2Eight();
    assert OnesOctet(8) == 255 && OnesOctet(0) == 0;
  }

  lemma DottedExample(o: seq<nat>, mask: string)
    requires o == [255, 255, 255, 0] && mask == "255.255.255.0"
    ensures Dotted(o) == mask
  {
    assert NatToString(255) == "255" by {
      assert NatToString(25) == "25" by {
        assert NatToString(2) == "2";
      }
    }
    assert NatToString(0) == "0";
  }

  /** A netmask is an error exactly when one of its pieces is not an
      integer: no `/24` fallback as in the shadowed first definition. */
  lemma CidrErrorIffBadPiece(ip: string, netmask: string)
    ensures CalculateCidr(ip, netmask).None? <==>
      exists i :: 0 <= i < |Split(netmask, '.')| && ParseInt(Split(netmask, '.')[i]).None?
  {
    var ps := Split(netmask, '.');
    assert CalculateCidr(ip, netmask).None? <==> ParsePieces(ps).None?;
    if ParsePieces(ps).None? {
      assert !forall i :: 0 <= i < |ps| ==> ParseInt(ps[i]).Some?;
      var i :| 0 <= i < |ps| && !ParseInt(ps[i]).Some?;
      assert ParseInt(Split(netmask, '.')[i]).None?;
    }
  }

  /** A piece such as `x` is rejected by `int()`, so `255.255.x.0` has no
      CIDR. */
  lemma MalformedNetmaskFails(ip: string, a: string, x: string, z: string)
    requires a == "255" && x == "x" && z == "0"
    ensures CalculateCidr(ip, a + ['.'] + (a + ['.'] + (x + ['.'] + z))) == None
  {
    var ps := Split(a + ['.'] + (a + ['.'] + (x + ['.'] + z)), '.');
    assert ps[2] == x by {
      SplitCons(x, '.', z);
      SplitCons(a, '.', x + ['.'] + z);
      SplitCons(a, '.', a + ['.'] + (x + ['.'] + z));
    }
    assert ParseInt(x) == None by {
      StripTrimmed(x);
    }
  }

  /** A prefix above 32 is an error. */
  lemma PrefixTooLong(p: int)
    requires p > 32
    ensures PrefixToNetmask(p) == None
  {
  }

  /** A negative prefix shifts every bit out: the netmask is all zeros. */
  lemma PrefixNegative(p: int, zeros: string)
    requires p < 0 && zeros == "0.0.0.0"
    ensures PrefixToNetmask(p) == Some(zeros)
  {
    var o := MaskOctets(p);
    assert o == [0, 0, 0, 0] by {
      MaskNegative(p);
    }
    assert NatToString(0) == "0";
    assert Dotted(o) == zeros;
  }
}
