/** Address blocks: which IPv6 fake ranges never enter the TUN, and the network
    block of a TUN address. Addresses are numbers below 2^width, and shifting
    right by k is division by 2^k. */
module Cidr {

  import opened JsonValue

  function Pow2(k: nat): (r: nat)
    ensures r > 0
  {
    if k == 0 then 1 else 2 * Pow2(k - 1)
  }

  /** Addresses that agree in all but the last `k` bits. */
  predicate SameBlock(x: nat, a: nat, k: nat) {
    x / Pow2(k) == a / Pow2(k)
  }

  // ---- arithmetic

  lemma MulStep(x: nat, y: nat, d: nat)
    requires x < y
    ensures x * d + d <= y * d
  {
    assert (y - x - 1) * d >= 0;
    assert y * d == x * d + d + (y - x - 1) * d;
  }

  /** Quotient and remainder are the only way to write `x` in `d`s. */
  lemma DivUnique(x: nat, d: nat, q: nat, r: nat)
    requires d > 0 && r < d && x == q * d + r
    ensures x / d == q && x % d == r
  {
    var q' := x / d;
    assert x == q' * d + x % d;
    if q' < q {
      MulStep(q', q, d);
    } else if q < q' {
      MulStep(q, q', d);
    }
  }

  lemma {:induction false} Pow2Add(a: nat, b: nat)
    ensures Pow2(a + b) == Pow2(a) * Pow2(b)
  {
    if a == 0 {
    } else {
      Pow2Add(a - 1, b);
      assert 2 * (Pow2(a - 1) * Pow2(b)) == (2 * Pow2(a - 1)) * Pow2(b);
    }
  }

  lemma DivTwice(x: nat, d: nat, e: nat)
    requires d > 0 && e > 0
    ensures d * e > 0 && x / d / e == x / (d * e)
  {
    var q, r := x / d, x % d;
    var t, s := q / e, q % e;
    assert x == q * d + r && q == t * e + s;
    Regroup(t, e, s, d);
    MulStep(s, e, d);
    assert x == t * (d * e) + (s * d + r);
    DivUnique(x, d * e, t, s * d + r);
  }

  lemma Regroup(t: nat, e: nat, s: nat, d: nat)
    ensures (t * e + s) * d == t * (d * e) + s * d
  {
    assert (t * e + s) * d == (t * e) * d + s * d;
    assert (t * e) * d == t * (e * d);
    assert e * d == d * e;
  }

  /** Shifting by `a` and then by `b` shifts by `a + b`. */
  lemma ShiftTwice(x: nat, a: nat, b: nat)
    ensures x / Pow2(a) / Pow2(b) == x / Pow2(a + b)
  {
    Pow2Add(a, b);
    DivTwice(x, Pow2(a), Pow2(b));
  }

  // ---- the fake-ip exclusion

  const WIDTH6: nat := 128

  predicate Address6(a: nat) { a < Pow2(WIDTH6) }

  /** `fc00::/7`: the first seven bits are 1111110. */
  predicate IsUla(x: nat) { x / Pow2(121) == 126 }

  predicate InBlock6(x: nat, a: nat, p: nat)
    requires p <= WIDTH6
  {
    Address6(x) && SameBlock(x, a, WIDTH6 - p)
  }

  predicate FakeIpRangeIsTunExcluded(a: nat, p: nat) {
    7 <= p <= WIDTH6 && a / Pow2(121) == 126
  }

  lemma BlockInsideUla(x: nat, a: nat, k: nat)
    requires k <= 121 && SameBlock(x, a, k)
    ensures x / Pow2(121) == a / Pow2(121)
  {
    ShiftTwice(x, k, 121 - k);
    ShiftTwice(a, k, 121 - k);
  }

  /** The next block of 2^121 addresses agrees with a unique local one in fewer
      than seven leading bits, and is not unique local itself. */
  lemma NextSeven(a: nat)
    requires IsUla(a)
    ensures (a + Pow2(121)) / Pow2(121) == 127 && Address6(a + Pow2(121))
  {
    var d := Pow2(121);
    assert a == 126 * d + a % d;
    DivUnique(a + d, d, 127, a % d);
    Pow2Add(7, 121);
    SmallPowers();
  }

  lemma SmallPowers()
    ensures Pow2(1) == 2 && Pow2(7) == 128
  {
    assert Pow2(3) == 8;
    Pow2Add(3, 3);
    assert Pow2(6) == 64;
  }

  lemma NeighbourInBlock(x: nat, a: nat, k: nat)
    requires 121 < k && x / Pow2(121) == 127 && a / Pow2(121) == 126
    ensures SameBlock(x, a, k)
  {
    ShiftTwice(x, 121, k - 121);
    ShiftTwice(a, 121, k - 121);
    SmallPowers();
    ShiftTwice(127, 1, k - 122);
    ShiftTwice(126, 1, k - 122);
  }

  /** The test is exact: it holds for precisely the ranges that lie inside
      `fc00::/7` as a whole. */
  lemma ExclusionExact(a: nat, p: nat)
    requires Address6(a) && p <= WIDTH6
    ensures FakeIpRangeIsTunExcluded(a, p) <==> forall x: nat :: InBlock6(x, a, p) ==> IsUla(x)
  {
    if FakeIpRangeIsTunExcluded(a, p) {
      forall x: nat | InBlock6(x, a, p) ensures IsUla(x) { BlockInsideUla(x, a, WIDTH6 - p); }
    } else if IsUla(a) {
      var x := a + Pow2(121);
      NextSeven(a);
      NeighbourInBlock(x, a, WIDTH6 - p);
      assert InBlock6(x, a, p);
    } else {
      assert InBlock6(a, a, p);
    }
  }

  // ---- network blocks

  /** Bitwise and. */
  function And(a: nat, b: nat): nat {
    if a == 0 then 0 else 2 * And(a / 2, b / 2) + (a % 2) * (b % 2)
  }

  /** All ones shifted left, in a word of `width` bits; a zero prefix is a case
      of its own, since the shift would be as wide as the word. */
  function Mask(p: nat, width: nat): nat
    requires p <= width
  {
    if p == 0 then 0 else (Pow2(width) - 1) * Pow2(width - p) % Pow2(width)
  }

  /** The base address of the network, none past the width of the address. */
  function TunNetwork(a: nat, p: nat, width: nat): Option<nat> {
    if p > width then None else Some(And(a, Mask(p, width)))
  }

  lemma ShiftedOnes(w: nat, d: nat)
    requires 0 < d <= w
    ensures (w - 1) * d % w == w - d || d == w
  {
    if d < w {
      assert (w - 1) * d == (d - 1) * w + (w - d) by {
        assert (w - 1) * d == w * d - d && (d - 1) * w == d * w - w;
      }
      DivUnique((w - 1) * d, w, d - 1, w - d);
    }
  }

  lemma {:induction false} Pow2Grows(a: nat, b: nat)
    requires a < b
    ensures Pow2(a) < Pow2(b)
  {
    if a + 1 < b {
      Pow2Grows(a, b - 1);
    }
  }

  lemma MaskShape(p: nat, width: nat)
    requires p <= width
    ensures Mask(p, width) == Pow2(width) - Pow2(width - p) >= 0
  {
    if p > 0 {
      Pow2Grows(width - p, width);
      ShiftedOnes(Pow2(width), Pow2(width - p));
    }
  }

  lemma HalveRemainder(a: nat, d: nat)
    requires d > 0
    ensures a % (2 * d) == 2 * (a / 2 % d) + a % 2
  {
    var h := a / 2;
    assert h == h / d * d + h % d;
    assert h / d * (2 * d) == 2 * (h / d * d);
    DivUnique(a, 2 * d, h / d, 2 * (h % d) + a % 2);
  }

  lemma {:induction false} AndHighBits(a: nat, k: nat, w: nat)
    requires k <= w && a < Pow2(w)
    ensures Pow2(w) >= Pow2(k)
    ensures And(a, Pow2(w) - Pow2(k)) == a - a % Pow2(k)
    decreases w
  {
    if w == 0 {
    } else if k == 0 {
      AndHighBits(a / 2, 0, w - 1);
    } else {
      AndHighBits(a / 2, k - 1, w - 1);
      HalveRemainder(a, Pow2(k - 1));
    }
  }

  lemma NetworkBase(a: nat, p: nat, width: nat)
    requires p <= width && a < Pow2(width)
    ensures TunNetwork(a, p, width) == Some(a - a % Pow2(width - p))
  {
    MaskShape(p, width);
    AndHighBits(a, width - p, width);
  }

  lemma BlockOf(a: nat, d: nat, x: nat)
    requires d > 0
    ensures var base: nat := a - a % d;
      && base / d == a / d && base % d == 0
      && (x / d == a / d <==> x - x % d == base)
      && (x / d == a / d ==> base <= x < base + d)
  {
    var base := a - a % d;
    assert a == a / d * d + a % d && x == x / d * d + x % d;
    DivUnique(base, d, a / d, 0);
    if x - x % d == base {
      DivUnique(x, d, a / d, x % d);
    }
  }

  /** The network is the aligned block around the address: its base shares the
      block and is a multiple of its size, exactly the addresses of the block
      have it as their network, and taking the network of the base changes
      nothing. */
  lemma NetworkExact(a: nat, p: nat, width: nat, x: nat)
    requires p <= width && a < Pow2(width) && x < Pow2(width)
    ensures TunNetwork(a, p, width).Some?
    ensures var k, base := width - p, TunNetwork(a, p, width).value;
      && base <= a && SameBlock(base, a, k) && base % Pow2(k) == 0
      && (SameBlock(x, a, k) <==> TunNetwork(x, p, width) == Some(base))
      && (SameBlock(x, a, k) ==> base <= x < base + Pow2(k))
      && TunNetwork(base, p, width) == Some(base)
  {
    var d := Pow2(width - p);
    NetworkBase(a, p, width);
    NetworkBase(x, p, width);
    BlockOf(a, d, x);
    NetworkBase(a - a % d, p, width);
  }

  /** A zero-length prefix is the whole space, and a prefix past the width is
      refused. */
  lemma PrefixEnds(a: nat, p: nat, width: nat)
    requires a < Pow2(width)
    ensures TunNetwork(a, 0, width) == Some(0)
    ensures TunNetwork(a, p, width) == None <==> p > width
  {
    NetworkBase(a, 0, width);
    DivUnique(a, Pow2(width), 0, a);
  }
}
