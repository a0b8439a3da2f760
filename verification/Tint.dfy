/** Image.tint: integer arithmetic on uint32 arrays, one pixel at a time. */
module Tint {
  import opened Bytes

  datatype Pixel = Pixel(r: byte, g: byte, b: byte, a: byte)

  /** Numerators of the saturated tint colour over a common denominator. */
  datatype Scale = Scale(rn: nat, gn: nat, bn: nat, dn: nat)

  /** Lines 100-114. */
  function ScaleOf(r: byte, g: byte, b: byte): (s: Scale)
    ensures 0 < s.dn <= 255 && s.rn <= s.dn && s.gn <= s.dn && s.bn <= s.dn
  {
    var hi, lo := Max(Max(r, g), b), Min(Min(r, g), b);
    if lo == hi then Scale(1, 1, 1, 2) else Scale(r - lo, g - lo, b - lo, hi - lo)
  }

  /** What a uint32 array element keeps of a result. */
  function Wrap32(x: int): nat {
    x % TWO32
  }

  function Add32(x: int, y: int): nat {
    Wrap32(x + y)
  }

  function Sub32(x: int, y: int): nat {
    Wrap32(x - y)
  }

  function Mul32(x: int, y: int): nat {
    Wrap32(x * y)
  }

  /** Lines 137-155 for one channel, every operation on uint32, before the cast to uint8. */
  function Channel32(hi: nat, lo: nat, n: nat, dn: nat): int {
    var c := Sub32(hi, lo);
    var c2 := Add32(255, Mul32(3, c));
    var m2 := Mul32(Sub32(1020, c2), lo);
    var m2d := Max(Mul32(Sub32(255, c), 4), 1);
    var num, den := Mul32(m2, dn * 4), Mul32(m2d, dn * 4);
    Quotient(Add32(num, Mul32(n, Mul32(c2, m2d))), den)
  }

  /** Array division: 0 for a zero divisor. */
  function Quotient(x: int, y: int): int {
    if y == 0 then 0 else x / y
  }

  /** The cast to uint8. */
  function Channel(hi: nat, lo: nat, n: nat, dn: nat): byte {
    Channel32(hi, lo, n, dn) % 256
  }

  function TintPixel(p: Pixel, s: Scale): Pixel {
    var hi, lo := Max(Max(p.r, p.g), p.b), Min(Min(p.r, p.g), p.b);
    Pixel(Channel(hi, lo, s.rn, s.dn), Channel(hi, lo, s.gn, s.dn), Channel(hi, lo, s.bn, s.dn), p.a)
  }

  function TintImage(image: seq<Pixel>, r: byte, g: byte, b: byte): seq<Pixel> {
    seq(|image|, i requires 0 <= i < |image| => TintPixel(image[i], ScaleOf(r, g, b)))
  }

  /** floor(3 m / 4 + (n / dn) (255 + 3 c) / 4), for minimum m and chroma c. */
  function Ideal(m: int, c: int, n: int, dn: int): int
    requires dn > 0
  {
    (3 * m * dn + n * (255 + 3 * c)) / (4 * dn)
  }

  lemma MulBound(a: nat, b: nat, x: nat, y: nat)
    requires a <= x && b <= y
    ensures a * b <= x * y
  {
    assert a * b <= x * b;
    assert x * b <= x * y;
  }

  lemma DivIs(x: int, y: int, q: int)
    requires y > 0 && q * y <= x < q * y + y
    ensures x / y == q
  {
    var p := x / y;
    assert p * y <= x < p * y + y;
    QuotientAtMost(p, q, y);
    QuotientAtMost(q, p, y);
  }

  lemma QuotientAtMost(p: int, q: int, y: int)
    requires y > 0 && p * y < q * y + y
    ensures p <= q
  {
    if p > q {
      MulGrows(q + 1, p, y);
    }
  }

  lemma DivAtMost(x: int, y: int, q: int)
    requires y > 0 && x <= q * y
    ensures x / y <= q
  {
    assert x / y * y <= x;
    if x / y > q {
      MulGrows(q + 1, x / y, y);
    }
  }

  lemma DivNonNegative(x: int, y: int)
    requires x >= 0 && y > 0
    ensures x / y >= 0
  {
  }

  lemma MulGrows(a: int, b: int, y: int)
    requires a <= b && y >= 0
    ensures a * y <= b * y
  {
  }

  lemma DivCancel(k: int, x: int, y: int)
    requires k > 0 && y > 0
    ensures k * y > 0 && (k * x) / (k * y) == x / y
  {
    var q := x / y;
    var r := x - q * y;
    assert 0 <= r < y;
    assert k * x == q * (k * y) + k * r;
    MulBound(r, k, y - 1, k);
    assert 0 <= k * r < k * y by {
      assert k * r <= k * (y - 1);
    }
    DivIs(k * x, k * y, q);
  }

  /** The intermediate values of one channel in exact arithmetic, each under the name the code gives it. */
  datatype Exact = Exact(c: int, c2: int, rest: int, m2: int, span: int, m2d: int,
                         num: int, den: int, cm: int, ncm: int)

  ghost predicate Computes(e: Exact, hi: nat, lo: nat, n: nat, dn: nat) {
    && e.c == hi - lo && e.c2 == 255 + 3 * e.c && e.rest == 1020 - e.c2 && e.m2 == e.rest * lo
    && e.span == (255 - e.c) * 4 && e.m2d == Max(e.span, 1)
    && e.num == e.m2 * (dn * 4) && e.den == e.m2d * (dn * 4) && e.cm == e.c2 * e.m2d && e.ncm == n * e.cm
  }

  ghost predicate Fits(x: int) {
    0 <= x < TWO32
  }

  /** No operation of the channel computation leaves 32 bits, and the divisor is positive. */
  lemma NothingWraps(e: Exact, hi: nat, lo: nat, n: nat, dn: nat)
    requires lo <= hi <= 255 && n <= dn && 0 < dn <= 255 && Computes(e, hi, lo, n, dn)
    ensures Fits(e.c) && Fits(3 * e.c) && Fits(e.c2) && Fits(e.rest) && Fits(e.m2) && Fits(255 - e.c)
    ensures Fits(e.span) && Fits(e.num) && Fits(e.den) && Fits(e.cm) && Fits(e.ncm) && Fits(e.num + e.ncm)
    ensures e.den > 0
  {
    LinearParts(e, hi, lo, n, dn);
    Products(e, hi, lo, n, dn);
    hide Computes;
    ProductFits(e.m2, e.rest, lo, 765, 255);
    ProductFits(e.num, e.m2, dn * 4, 195075, 1020);
    ProductFits(e.den, e.m2d, dn * 4, 1020, 1020);
    ProductFits(e.cm, e.c2, e.m2d, 1020, 1020);
    ProductFits(e.ncm, n, e.cm, 255, 1040400);
  }

  lemma LinearParts(e: Exact, hi: nat, lo: nat, n: nat, dn: nat)
    requires lo <= hi <= 255 && Computes(e, hi, lo, n, dn)
    ensures 0 <= e.c <= 255 && 0 <= e.c2 <= 1020 && 0 <= e.rest <= 765 && 0 <= e.span <= 1020 && 1 <= e.m2d <= 1020
  {
  }

  ghost predicate IsProduct(p: int, a: int, b: int) {
    p == a * b
  }

  lemma Products(e: Exact, hi: nat, lo: nat, n: nat, dn: nat)
    requires Computes(e, hi, lo, n, dn)
    ensures IsProduct(e.m2, e.rest, lo) && IsProduct(e.num, e.m2, dn * 4) && IsProduct(e.den, e.m2d, dn * 4)
    ensures IsProduct(e.cm, e.c2, e.m2d) && IsProduct(e.ncm, n, e.cm)
  {
  }

  lemma ProductFits(p: int, a: int, b: int, x: nat, y: nat)
    requires IsProduct(p, a, b) && 0 <= a <= x && 0 <= b <= y
    ensures 0 <= p <= x * y && (0 < a && 0 < b ==> 0 < p)
  {
    MulBound(a, b, x, y);
  }

  /** So the uint32 computation gives the exact quotient. */
  lemma Unwrapped(e: Exact, hi: nat, lo: nat, n: nat, dn: nat)
    requires lo <= hi <= 255 && n <= dn && 0 < dn <= 255 && Computes(e, hi, lo, n, dn)
    ensures e.den > 0 && Channel32(hi, lo, n, dn) == (e.num + e.ncm) / e.den
  {
    NothingWraps(e, hi, lo, n, dn);
    UnwrappedSteps(e, hi, lo, n, dn);
  }

  lemma UnwrappedSteps(e: Exact, hi: nat, lo: nat, n: nat, dn: nat)
    requires lo <= hi <= 255 && n <= dn && 0 < dn <= 255 && Computes(e, hi, lo, n, dn)
    ensures Channel32(hi, lo, n, dn) == Quotient(e.num + e.ncm, e.den)
  {
    hide Computes, Add32, Sub32, Mul32, Max, IsProduct, Fits, Quotient;
    NothingWraps(e, hi, lo, n, dn);
    Products(e, hi, lo, n, dn);
    Linear(e, hi, lo, n, dn);
    SubExact(hi, lo); SubExact(1020, e.c2); SubExact(255, e.c);
    AddExact(255, 3 * e.c); AddExact(e.num, e.ncm);
    MulExact(3 * e.c, 3, e.c);
    MulExact(e.m2, e.rest, lo);
    MulExact(e.span, 255 - e.c, 4);
    MulExact(e.num, e.m2, dn * 4);
    MulExact(e.den, e.m2d, dn * 4);
    MulExact(e.cm, e.c2, e.m2d);
    MulExact(e.ncm, n, e.cm);
  }

  lemma AddExact(x: int, y: int)
    requires Fits(x + y)
    ensures Add32(x, y) == x + y
  {
  }

  lemma SubExact(x: int, y: int)
    requires Fits(x - y)
    ensures Sub32(x, y) == x - y
  {
  }

  lemma Linear(e: Exact, hi: nat, lo: nat, n: nat, dn: nat)
    requires Computes(e, hi, lo, n, dn)
    ensures e.c == hi - lo && e.c2 == 255 + 3 * e.c && e.rest == 1020 - e.c2 && e.m2d == Max(e.span, 1)
    ensures IsProduct(3 * e.c, 3, e.c) && IsProduct(e.span, 255 - e.c, 4)
  {
  }

  lemma MulExact(p: int, x: int, y: int)
    requires IsProduct(p, x, y) && Fits(p)
    ensures Mul32(x, y) == p
  {
  }

  /** The exact value by the formula. */
  lemma ChannelIdeal(hi: nat, lo: nat, n: nat, dn: nat)
    requires lo <= hi <= 255 && n <= dn && 0 < dn <= 255
    ensures Channel32(hi, lo, n, dn) == Ideal(lo, hi - lo, n, dn)
  {
    hide Channel32;
    var c := hi - lo;
    var k := 255 - c;
    var c2, m2d := 255 + 3 * c, Max(k * 4, 1);
    var m2, cm := (1020 - c2) * lo, c2 * m2d;
    var e := Exact(c, c2, 1020 - c2, m2, k * 4, m2d, m2 * (dn * 4), m2d * (dn * 4), cm, n * cm);
    Unwrapped(e, hi, lo, n, dn);
    if k > 0 {
      assert m2 == 3 * k * lo && m2d == 4 * k;
      CommonFactor(k, lo, dn, n, c2);
    } else {
      assert lo == 0 && m2d == 1;
      GreyLimit(dn, n);
    }
  }

  /** With chroma 255 the minimum is 0 and the guard against a zero divisor does not change the value. */
  lemma GreyLimit(dn: int, n: int)
    requires dn > 0
    ensures 1 * (dn * 4) > 0
    ensures (3 * 0 * 0 * (dn * 4) + n * ((255 + 3 * 255) * 1)) / (1 * (dn * 4))
         == (3 * 0 * dn + n * (255 + 3 * 255)) / (4 * dn)
  {
  }

  /** The factor 4 k divides out. */
  lemma CommonFactor(k: int, lo: int, dn: int, n: int, u: int)
    requires k > 0 && dn > 0
    ensures 4 * k * (dn * 4) > 0
    ensures (3 * k * lo * (dn * 4) + n * (u * (4 * k))) / (4 * k * (dn * 4)) == (3 * lo * dn + n * u) / (4 * dn)
  {
    var x, y := 3 * lo * dn, n * u;
    Rearrange(3, k, lo, dn);
    Rearrange2(n, u, k);
    Distribute(4 * k, x, y);
    DivCancel(4 * k, x + y, 4 * dn);
    assert dn * 4 == 4 * dn;
  }

  lemma Distribute(f: int, x: int, y: int)
    ensures f * x + f * y == f * (x + y)
  {
  }

  lemma Rearrange(t: int, k: int, lo: int, dn: int)
    ensures t * k * lo * (dn * 4) == 4 * k * (t * lo * dn)
  {
    assert t * k * lo * (dn * 4) == 4 * (t * k * lo * dn);
    assert t * k * lo * dn == k * (t * lo * dn);
  }

  lemma Rearrange2(n: int, u: int, k: int)
    ensures n * (u * (4 * k)) == 4 * k * (n * u)
  {
  }

  lemma IdealIsByte(m: nat, c: nat, n: nat, dn: nat)
    requires m + c <= 255 && n <= dn && dn > 0
    ensures 0 <= Ideal(m, c, n, dn) <= 255
  {
    var u := 255 + 3 * c;
    MulGrows(0, n, u);
    MulGrows(0, 3 * m, dn);
    MulBound(n, u, dn, u);
    Commute(3 * m, dn);
    Distribute(dn, 3 * m, u);
    MulBound(dn, 3 * m + u, dn, 1020);
    DivAtMost(3 * m * dn + n * u, 4 * dn, 255);
    DivNonNegative(3 * m * dn + n * u, 4 * dn);
  }

  lemma Commute(a: int, b: int)
    ensures a * b == b * a
  {
  }

  /** The saturated value of a colour channel v among r, g, b: (v - min) / (max - min), or one half for a grey. */
  function Numerator(v: byte, r: byte, g: byte, b: byte): int {
    if r == g == b then 1 else v - Min(Min(r, g), b)
  }

  function Denominator(r: byte, g: byte, b: byte): int {
    if r == g == b then 2 else Max(Max(r, g), b) - Min(Min(r, g), b)
  }

  /** For every image and every tint colour: each channel is the ideal value for that channel of the colour, and it
      fits a byte, so neither the 32-bit arithmetic nor the cast loses anything; size and alpha are kept. */
  lemma TintIsExact(image: seq<Pixel>, r: byte, g: byte, b: byte, i: nat)
    requires i < |image|
    ensures |TintImage(image, r, g, b)| == |image| && Denominator(r, g, b) > 0
    ensures var p, q, dn := image[i], TintImage(image, r, g, b)[i], Denominator(r, g, b);
            var m := Min(Min(p.r, p.g), p.b); var c := Max(Max(p.r, p.g), p.b) - m;
            && q.a == p.a
            && q.r == Ideal(m, c, Numerator(r, r, g, b), dn)
            && q.g == Ideal(m, c, Numerator(g, r, g, b), dn)
            && q.b == Ideal(m, c, Numerator(b, r, g, b), dn)
  {
    hide Channel32, Ideal;
    var p, s := image[i], ScaleOf(r, g, b);
    var hi, lo := Max(Max(p.r, p.g), p.b), Min(Min(p.r, p.g), p.b);
    ChannelIdeal(hi, lo, s.rn, s.dn); IdealIsByte(lo, hi - lo, s.rn, s.dn);
    ChannelIdeal(hi, lo, s.gn, s.dn); IdealIsByte(lo, hi - lo, s.gn, s.dn);
    ChannelIdeal(hi, lo, s.bn, s.dn); IdealIsByte(lo, hi - lo, s.bn, s.dn);
    assert s == Scale(Numerator(r, r, g, b), Numerator(g, r, g, b), Numerator(b, r, g, b), Denominator(r, g, b));
  }
}
