/** Overlap of boxes given by their centres and sizes. */
module Overlaps {
  datatype Box = Box(x: real, y: real, w: real, h: real)

  datatype Detection = Detection(box: Box, conf: real, classId: int)

  function Min(a: real, b: real): real {
    if a < b then a else b
  }

  function Max(a: real, b: real): real {
    if a > b then a else b
  }

  /** The length two intervals share, negative when they are apart. */
  function Shared(a: real, la: real, b: real, lb: real): real {
    Min(a + la / 2.0, b + lb / 2.0) - Max(a - la / 2.0, b - lb / 2.0)
  }

  /** The share of an intersection in the union of two areas; 0 where the division would not be a number. */
  function Ratio(n: real, a: real, b: real): real {
    if a + b - n == 0.0 then 0.0 else n / (a + b - n)
  }

  /** Intersection over union, from the shared lengths and the sides. */
  function IouOf(sx: real, sy: real, aw: real, ah: real, bw: real, bh: real): real {
    if sy < 0.0 || sx < 0.0 then 0.0 else Ratio(sx * sy, aw * ah, bw * bh)
  }

  function Iou(a: Box, b: Box): real {
    IouOf(Shared(a.x, a.w, b.x, b.w), Shared(a.y, a.h, b.y, b.h), a.w, a.h, b.w, b.h)
  }

  predicate Positive(b: Box) {
    b.w > 0.0 && b.h > 0.0
  }

  function Area(b: Box): real {
    b.w * b.h
  }

  lemma SharedSymmetric(a: real, la: real, b: real, lb: real)
    ensures Shared(a, la, b, lb) == Shared(b, lb, a, la)
  {
  }

  lemma RatioSymmetric(n: real, a: real, b: real)
    ensures Ratio(n, a, b) == Ratio(n, b, a)
  {
    assert a + b - n == b + a - n;
  }

  lemma IouOfSymmetric(sx: real, sy: real, aw: real, ah: real, bw: real, bh: real)
    ensures IouOf(sx, sy, aw, ah, bw, bh) == IouOf(sx, sy, bw, bh, aw, ah)
  {
    RatioSymmetric(sx * sy, aw * ah, bw * bh);
  }

  lemma IouSymmetric(a: Box, b: Box)
    ensures Iou(a, b) == Iou(b, a)
  {
    SharedSymmetric(a.x, a.w, b.x, b.w);
    SharedSymmetric(a.y, a.h, b.y, b.h);
    IouOfSymmetric(Shared(a.x, a.w, b.x, b.w), Shared(a.y, a.h, b.y, b.h), a.w, a.h, b.w, b.h);
  }

  lemma SharedFits(a: real, la: real, b: real, lb: real)
    ensures Shared(a, la, b, lb) <= la && Shared(a, la, b, lb) <= lb
  {
  }

  lemma ProductFits(p: real, q: real, w: real, h: real)
    requires 0.0 <= p <= w && 0.0 <= q <= h
    ensures 0.0 <= p * q <= w * h
  {
    assert p * q <= w * q by {
      assert (w - p) * q >= 0.0;
    }
    assert w * q <= w * h by {
      assert w * (h - q) >= 0.0;
    }
  }

  lemma QuotientFits(n: real, d: real)
    requires 0.0 <= n <= d && d > 0.0
    ensures 0.0 <= n / d <= 1.0
  {
  }

  lemma RatioRange(n: real, a: real, b: real)
    requires 0.0 <= n <= a && n <= b && a > 0.0 && b > 0.0
    ensures 0.0 <= Ratio(n, a, b) <= 1.0
  {
    QuotientFits(n, a + b - n);
  }

  lemma AreaPositive(w: real, h: real)
    requires w > 0.0 && h > 0.0
    ensures w * h > 0.0
  {
  }

  lemma IouOfRange(sx: real, sy: real, aw: real, ah: real, bw: real, bh: real)
    requires aw > 0.0 && ah > 0.0 && bw > 0.0 && bh > 0.0
    requires sx <= aw && sx <= bw && sy <= ah && sy <= bh
    ensures 0.0 <= IouOf(sx, sy, aw, ah, bw, bh) <= 1.0
  {
    if sx >= 0.0 && sy >= 0.0 {
      ProductFits(sx, sy, aw, ah);
      ProductFits(sx, sy, bw, bh);
      AreaPositive(aw, ah);
      AreaPositive(bw, bh);
      RatioRange(sx * sy, aw * ah, bw * bh);
    }
  }

  /** Boxes with positive sides overlap by a share of their union. */
  lemma IouRange(a: Box, b: Box)
    requires Positive(a) && Positive(b)
    ensures 0.0 <= Iou(a, b) <= 1.0
  {
    SharedFits(a.x, a.w, b.x, b.w);
    SharedFits(a.y, a.h, b.y, b.h);
    IouOfRange(Shared(a.x, a.w, b.x, b.w), Shared(a.y, a.h, b.y, b.h), a.w, a.h, b.w, b.h);
  }

  lemma SharedWithItself(a: real, l: real)
    requires l >= 0.0
    ensures Shared(a, l, a, l) == l
  {
  }

  lemma IouOfWhole(w: real, h: real)
    requires w > 0.0 && h > 0.0
    ensures IouOf(w, h, w, h, w, h) == 1.0
  {
    AreaPositive(w, h);
    RatioOfItself(w * h);
  }

  lemma RatioOfItself(n: real)
    requires n > 0.0
    ensures Ratio(n, n, n) == 1.0
  {
    assert n / n == 1.0;
  }

  /** A box covers itself. */
  lemma IouOfItself(a: Box)
    requires Positive(a)
    ensures Iou(a, a) == 1.0
  {
    SharedWithItself(a.x, a.w);
    SharedWithItself(a.y, a.h);
    IouOfWhole(a.w, a.h);
  }

  // ------------------------------------------------------ points in common

  /** The point at `p` lies within a length `l` centred at `c`. */
  predicate Covers(c: real, l: real, p: real) {
    -l <= 2.0 * (p - c) <= l
  }

  /** The point lies in the box. */
  predicate Contains(b: Box, x: real, y: real) {
    Covers(b.x, b.w, x) && Covers(b.y, b.h, y)
  }

  /** The corners `(l, t)` and `(r, b)` span what two boxes have in common. */
  ghost predicate Common(a: Box, b: Box, l: real, r: real, t: real, bottom: real) {
    && l <= r && t <= bottom
    && forall x, y :: Contains(a, x, y) && Contains(b, x, y) <==> l <= x <= r && t <= y <= bottom
  }

  /** The two boxes have no point in common. */
  ghost predicate Apart(a: Box, b: Box) {
    forall x, y :: !(Contains(a, x, y) && Contains(b, x, y))
  }

  lemma SharedCovers(a: real, la: real, b: real, lb: real, p: real)
    ensures Covers(a, la, p) && Covers(b, lb, p) <==> Max(a - la / 2.0, b - lb / 2.0) <= p <= Min(a + la / 2.0, b + lb / 2.0)
  {
  }

  /** What two boxes have in common is one box, if there is anything. */
  lemma CommonBox(a: Box, b: Box) returns (l: real, r: real, t: real, bottom: real)
    ensures if l <= r && t <= bottom then Common(a, b, l, r, t, bottom) && !Apart(a, b) else Apart(a, b)
    ensures r - l == Shared(a.x, a.w, b.x, b.w) && bottom - t == Shared(a.y, a.h, b.y, b.h)
    ensures r - l <= a.w && r - l <= b.w && bottom - t <= a.h && bottom - t <= b.h
  {
    l, r := Max(a.x - a.w / 2.0, b.x - b.w / 2.0), Min(a.x + a.w / 2.0, b.x + b.w / 2.0);
    t, bottom := Max(a.y - a.h / 2.0, b.y - b.h / 2.0), Min(a.y + a.h / 2.0, b.y + b.h / 2.0);
    forall x, y
      ensures Contains(a, x, y) && Contains(b, x, y) <==> l <= x <= r && t <= y <= bottom
    {
      SharedCovers(a.x, a.w, b.x, b.w, x);
      SharedCovers(a.y, a.h, b.y, b.h, y);
    }
    if l <= r && t <= bottom {
      assert Contains(a, l, t) && Contains(b, l, t);
    }
  }

  /** The corners of what two boxes have in common are determined. */
  lemma CornersAre(a: Box, b: Box, l: real, r: real, t: real, bottom: real, l': real, r': real, t': real, bottom': real)
    requires Common(a, b, l, r, t, bottom) && Common(a, b, l', r', t', bottom')
    ensures l == l' && r == r' && t == t' && bottom == bottom'
  {
    assert Contains(a, l, t) && Contains(b, l, t);
    assert Contains(a, r, bottom) && Contains(b, r, bottom);
    assert Contains(a, l', t') && Contains(b, l', t');
    assert Contains(a, r', bottom') && Contains(b, r', bottom');
  }

  /** The area two boxes have in common. */
  ghost predicate IsIntersection(a: Box, b: Box, inter: real) {
    if Apart(a, b) then inter == 0.0
    else exists l, r, t, bottom :: Common(a, b, l, r, t, bottom) && inter == (r - l) * (bottom - t)
  }

  lemma AreaOf(a: Box, b: Box, l: real, r: real, t: real, bottom: real, sx: real, sy: real, inter: real)
    requires Common(a, b, l, r, t, bottom) && IsIntersection(a, b, inter) && sx == r - l && sy == bottom - t
    ensures inter == sx * sy
  {
    assert Contains(a, l, t) && Contains(b, l, t);
    var l', r', t', bottom' :| Common(a, b, l', r', t', bottom') && inter == (r' - l') * (bottom' - t');
    CornersAre(a, b, l, r, t, bottom, l', r', t', bottom');
  }

  lemma RatioTimes(n: real, a: real, b: real, union: real)
    requires 0.0 <= n <= a && n <= b && a > 0.0 && union == a + b - n
    ensures union > 0.0 && Ratio(n, a, b) * union == n
  {
  }

  /** `q` is the quotient, `m` and `n` are the areas. */
  lemma IouOfTimes(sx: real, sy: real, aw: real, ah: real, bw: real, bh: real, q: real, m: real, n: real, inter: real, union: real)
    requires aw > 0.0 && ah > 0.0 && bw > 0.0 && bh > 0.0
    requires sx <= aw && sx <= bw && sy <= ah && sy <= bh
    requires q == IouOf(sx, sy, aw, ah, bw, bh) && m == aw * ah && n == bw * bh && union == m + n - inter
    requires if sx < 0.0 || sy < 0.0 then inter == 0.0 else inter == sx * sy
    ensures union > 0.0 && q * union == inter
  {
    AreaPositive(aw, ah);
    AreaPositive(bw, bh);
    if sx >= 0.0 && sy >= 0.0 {
      ProductFits(sx, sy, aw, ah);
      ProductFits(sx, sy, bw, bh);
      RatioTimes(sx * sy, m, n, union);
    }
  }

  lemma IntersectionIs(a: Box, b: Box, inter: real) returns (sx: real, sy: real)
    requires IsIntersection(a, b, inter)
    ensures sx <= a.w && sx <= b.w && sy <= a.h && sy <= b.h
    ensures sx == Shared(a.x, a.w, b.x, b.w) && sy == Shared(a.y, a.h, b.y, b.h)
    ensures if sx < 0.0 || sy < 0.0 then inter == 0.0 else inter == sx * sy
  {
    var l, r, t, bottom := CommonBox(a, b);
    sx, sy := r - l, bottom - t;
    if !Apart(a, b) {
      AreaOf(a, b, l, r, t, bottom, sx, sy, inter);
    }
  }

  lemma IouIs(a: Box, b: Box, sx: real, sy: real)
    requires sx == Shared(a.x, a.w, b.x, b.w) && sy == Shared(a.y, a.h, b.y, b.h)
    ensures Iou(a, b) == IouOf(sx, sy, a.w, a.h, b.w, b.h)
  {
  }

  lemma ShareIs(a: Box, b: Box, q: real, m: real, n: real, inter: real, union: real)
    requires Positive(a) && Positive(b) && IsIntersection(a, b, inter)
    requires q == Iou(a, b) && m == Area(a) && n == Area(b) && union == m + n - inter
    ensures union > 0.0 && q * union == inter
  {
    var sx, sy := IntersectionIs(a, b, inter);
    IouIs(a, b, sx, sy);
    IouOfTimes(sx, sy, a.w, a.h, b.w, b.h, q, m, n, inter, union);
  }

  /** The overlap of two boxes is the area they have in common over the area they cover together. */
  lemma IouIsShareOfUnion(a: Box, b: Box, inter: real, union: real)
    requires Positive(a) && Positive(b) && IsIntersection(a, b, inter) && union == Area(a) + Area(b) - inter
    ensures union > 0.0 && Iou(a, b) * union == inter
  {
    ShareIs(a, b, Iou(a, b), Area(a), Area(b), inter, union);
  }

  /** Two boxes always have an area in common, be it zero. */
  lemma SomeIntersection(a: Box, b: Box) returns (inter: real)
    ensures IsIntersection(a, b, inter)
  {
    var l, r, t, bottom := CommonBox(a, b);
    inter := if l <= r && t <= bottom then (r - l) * (bottom - t) else 0.0;
  }

  lemma QuotientAbove(q: real, union: real, inter: real, threshold: real)
    requires union > 0.0 && q * union == inter
    ensures q > threshold <==> inter > threshold * union
  {
    assert inter - threshold * union == (q - threshold) * union;
  }

  /** Boxes overlap by more than a threshold exactly when they have more than that share of their union in common. */
  lemma OverlapsExactly(a: Box, b: Box, inter: real, union: real, threshold: real)
    requires Positive(a) && Positive(b) && IsIntersection(a, b, inter) && union == Area(a) + Area(b) - inter
    ensures Iou(a, b) > threshold <==> inter > threshold * union
  {
    var q := Iou(a, b);
    ShareIs(a, b, q, Area(a), Area(b), inter, union);
    QuotientAbove(q, union, inter, threshold);
  }
}
