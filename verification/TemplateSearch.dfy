/** Template matching in the browser tracker: cropping a patch and finding it again in a frame. */
module TemplateSearch {

  type Byte = x: int | 0 <= x < 256

  /** Where pixel (x, y) of a `w` wide image is stored; `h` rows take `Index(0, h, w)` places. */
  function Index(x: nat, y: nat, w: nat): nat {
    y * w + x
  }

  lemma IndexInside(x: nat, y: nat, n: nat, w: nat, h: nat)
    requires x + n <= w && y < h
    ensures Index(x, y, w) + n <= Index(0, h, w)
  {
    assert y * w + w == (y + 1) * w;
    assert (y + 1) * w <= h * w;
  }

  lemma IndexShift(x: nat, i: nat, y: nat, w: nat)
    ensures Index(x + i, y, w) == Index(x, y, w) + i
  {
  }

  /** Grey levels in row-major order. */
  datatype Image = Image(data: seq<Byte>, w: nat, h: nat) {

    predicate Valid() {
      |data| == Index(0, h, w)
    }

    function At(x: nat, y: nat): Byte
      requires Valid() && x < w && y < h
    {
      IndexInside(x, y, 1, w, h);
      data[Index(x, y, w)]
    }
  }

  datatype Match = Match(x: int, y: int, mad: real)

  /** Math.round: halves go up. */
  function Round(r: real): int {
    (r + 0.5).Floor
  }

  function Max(a: int, b: int): int {
    if a < b then b else a
  }

  function Min(a: int, b: int): int {
    if a < b then a else b
  }

  function Abs(d: int): nat {
    if d < 0 then -d else d
  }

  // ----- The exhaustive search -----

  predicate Fits(f: Image, t: Image, x: nat, y: nat) {
    f.Valid() && t.Valid() && x + t.w <= f.w && y + t.h <= f.h
  }

  /** Sum of differences in template row `ty`, sampled from column `tx` on. */
  function RowSum(f: Image, t: Image, x: nat, y: nat, step: nat, ty: nat, tx: nat): nat
    requires Fits(f, t, x, y) && step > 0 && ty < t.h
    decreases t.w - tx
  {
    if tx >= t.w then 0
    else Abs(f.At(x + tx, y + ty) as int - t.At(tx, ty) as int) + RowSum(f, t, x, y, step, ty, tx + step)
  }

  /** Sum of differences sampled from template row `ty` on. */
  function Sum(f: Image, t: Image, x: nat, y: nat, step: nat, ty: nat): nat
    requires Fits(f, t, x, y) && step > 0
    decreases t.h - ty
  {
    if ty >= t.h then 0 else RowSum(f, t, x, y, step, ty, 0) + Sum(f, t, x, y, step, ty + step)
  }

  function RowSamples(t: Image, step: nat, tx: nat): nat
    requires step > 0
    decreases t.w - tx
  {
    if tx >= t.w then 0 else 1 + RowSamples(t, step, tx + step)
  }

  function Samples(t: Image, step: nat, ty: nat): nat
    requires step > 0
    decreases t.h - ty
  {
    if ty >= t.h then 0 else RowSamples(t, step, 0) + Samples(t, step, ty + step)
  }

  /** Mean absolute difference at an offset; the template must have a sample. */
  function Mad(f: Image, t: Image, x: nat, y: nat, step: nat): real
    requires Fits(f, t, x, y) && step > 0 && Samples(t, step, 0) > 0
  {
    Sum(f, t, x, y, step, 0) as real / Samples(t, step, 0) as real
  }

  /** A search: frame, template, sampling step and the window of offsets. */
  datatype Search = Search(f: Image, t: Image, step: nat, x0: nat, x1: int, y0: nat, y1: int) {

    predicate Valid() {
      f.Valid() && t.Valid() && step > 0 && x1 + t.w <= f.w && y1 + t.h <= f.h
    }

    /** With no sample the quotient is not a number and never compares below. */
    function Better(best: Match, x: nat, y: nat): Match
      requires Valid() && x <= x1 && y <= y1
    {
      if Samples(t, step, 0) > 0 && Mad(f, t, x, y, step) < best.mad then Match(x, y, Mad(f, t, x, y, step)) else best
    }

    function ScanRow(y: nat, x: nat, best: Match): Match
      requires Valid() && y <= y1
      decreases x1 + 1 - x
    {
      if x > x1 then best else ScanRow(y, x + 1, Better(best, x, y))
    }

    function Scan(y: nat, best: Match): Match
      requires Valid()
      decreases y1 + 1 - y
    {
      if y > y1 then best else Scan(y + 1, ScanRow(y, x0, best))
    }

    predicate InWindow(x: nat, y: nat) {
      x0 <= x <= x1 && y0 <= y <= y1
    }

    /** The earliest offset of least difference among those before (x, y), or the start when none is below it. */
    ghost predicate BestBefore(start: Match, best: Match, x: nat, y: nat)
      requires Valid() && Samples(t, step, 0) > 0
    {
      if best == start then
        forall i: nat, j: nat :: InWindow(i, j) && Earlier(i, j, x, y) ==> Mad(f, t, i, j, step) >= start.mad
      else
        && best.x >= 0 && best.y >= 0 && InWindow(best.x, best.y) && Earlier(best.x, best.y, x, y)
        && best.mad == Mad(f, t, best.x, best.y, step) < start.mad
        && forall i: nat, j: nat :: InWindow(i, j) && Earlier(i, j, x, y) ==>
             Mad(f, t, i, j, step) >= best.mad && (Earlier(i, j, best.x, best.y) ==> Mad(f, t, i, j, step) > best.mad)
    }
  }

  /** Row-major order. */
  predicate Earlier(i: int, j: int, x: int, y: int) {
    j < y || (j == y && i < x)
  }

  lemma {:induction false} ScanRowBest(s: Search, start: Match, y: nat, x: nat, best: Match)
    requires s.Valid() && Samples(s.t, s.step, 0) > 0 && s.y0 <= y <= s.y1 && s.x0 <= x
    requires s.BestBefore(start, best, x, y)
    ensures s.BestBefore(start, s.ScanRow(y, x, best), Max(x, s.x1 + 1), y)
    decreases s.x1 + 1 - x
  {
    if x <= s.x1 {
      var next := s.Better(best, x, y);
      assert s.BestBefore(start, next, x + 1, y);
      ScanRowBest(s, start, y, x + 1, next);
    }
  }

  lemma {:induction false} ScanBest(s: Search, start: Match, y: nat, best: Match)
    requires s.Valid() && Samples(s.t, s.step, 0) > 0 && s.y0 <= y && s.BestBefore(start, best, s.x0, y)
    ensures s.BestBefore(start, s.Scan(y, best), s.x0, Max(y, s.y1 + 1))
    decreases s.y1 + 1 - y
  {
    if y <= s.y1 {
      ScanRowBest(s, start, y, s.x0, best);
      var next := s.ScanRow(y, s.x0, best);
      assert s.BestBefore(start, next, s.x0, y + 1);
      ScanBest(s, start, y + 1, next);
    }
  }

  /** The window and the starting answer `matchTemplate` derives from its arguments. */
  function Window(f: Image, t: Image, cx: real, cy: real, radius: real, step: nat): Search {
    Search(f, t, step,
           Max(0, Round(cx - radius)), Min(f.w - t.w, Round(cx + radius)),
           Max(0, Round(cy - radius)), Min(f.h - t.h, Round(cy + radius)))
  }

  function Start(f: Image, t: Image, cx: real, cy: real): Match {
    Match(Max(0, Min(f.w - t.w, Round(cx))), Max(0, Min(f.h - t.h, Round(cy))), 255.0)
  }

  /** Scanning every offset of the window in full. */
  function Exhaustive(f: Image, t: Image, cx: real, cy: real, radius: real, step: nat): Match
    requires f.Valid() && t.Valid() && step > 0
  {
    var s := Window(f, t, cx, cy, radius, step);
    if t.w > f.w || t.h > f.h then Start(f, t, cx, cy) else s.Scan(s.y0, Start(f, t, cx, cy))
  }

  /** What the answer means: the first offset, in row-major order, of least mean difference below 255. */
  lemma ExhaustiveIsFirstMinimum(f: Image, t: Image, cx: real, cy: real, radius: real, step: nat)
    requires f.Valid() && t.Valid() && step > 0 && t.w <= f.w && t.h <= f.h && Samples(t, step, 0) > 0
    ensures var s := Window(f, t, cx, cy, radius, step);
            var start := Start(f, t, cx, cy);
            var best := Exhaustive(f, t, cx, cy, radius, step);
      if best.mad < 255.0 then
        && best.x >= 0 && best.y >= 0 && s.InWindow(best.x, best.y) && best.mad == Mad(f, t, best.x, best.y, step)
        && forall i: nat, j: nat :: s.InWindow(i, j) ==>
             Mad(f, t, i, j, step) >= best.mad && (Earlier(i, j, best.x, best.y) ==> Mad(f, t, i, j, step) > best.mad)
      else
        best == start && forall i: nat, j: nat :: s.InWindow(i, j) ==> Mad(f, t, i, j, step) >= 255.0
  {
    var s := Window(f, t, cx, cy, radius, step);
    var start := Start(f, t, cx, cy);
    assert s.BestBefore(start, start, s.x0, s.y0);
    ScanBest(s, start, s.y0, start);
    assert forall i: nat, j: nat :: s.InWindow(i, j) ==> Earlier(i, j, s.x0, Max(s.y0, s.y1 + 1));
  }

  /** The window holds the offsets at which the template fits into the frame, half a pixel more than `radius` around the centre. */
  lemma WindowIff(f: Image, t: Image, cx: real, cy: real, radius: real, step: nat, i: nat, j: nat)
    ensures Window(f, t, cx, cy, radius, step).InWindow(i, j)
       <==> && i + t.w <= f.w && cx - radius - 0.5 < i as real <= cx + radius + 0.5
            && j + t.h <= f.h && cy - radius - 0.5 < j as real <= cy + radius + 0.5
  {
    RoundedIs(cx - radius, i);
    RoundedIs(cx + radius, i);
    RoundedIs(cy - radius, j);
    RoundedIs(cy + radius, j);
  }

  lemma RoundedIs(r: real, i: int)
    ensures Round(r) <= i <==> r - 0.5 < i as real
    ensures i <= Round(r) <==> i as real <= r + 0.5
  {
    var n := (r + 0.5).Floor;
    if i < n {
      assert (i + 1) as real <= n as real;
    }
  }

  /** The start is the nearest offset to the centre at which the template fits. */
  lemma StartIsNearest(f: Image, t: Image, cx: real, cy: real, i: nat, j: nat)
    requires i + t.w <= f.w && j + t.h <= f.h
    ensures var s := Start(f, t, cx, cy);
      && 0 <= s.x <= f.w - t.w && 0 <= s.y <= f.h - t.h && s.mad == 255.0
      && Gap(s.x, cx) <= Gap(i, cx) && Gap(s.y, cy) <= Gap(j, cy)
  {
    RoundedIs(cx, Round(cx));
    RoundedIs(cy, Round(cy));
    NearestOffset(cx, f.w - t.w, i);
    NearestOffset(cy, f.h - t.h, j);
  }

  ghost function Gap(i: int, c: real): real {
    if i as real < c then c - i as real else i as real - c
  }

  lemma NearestOffset(c: real, top: nat, i: nat)
    requires i <= top
    ensures Gap(Max(0, Min(top, Round(c))), c) <= Gap(i, c)
  {
    var r := Round(c);
    RoundedIs(c, r);
    if i < r {
      assert (i + 1) as real <= r as real;
    } else if i > r {
      assert i as real >= (r + 1) as real;
    }
  }

  // ----- The difference, pixel by pixel -----

  ghost function Apart(p: int, q: int): nat {
    if p < q then q - p else p - q
  }

  /** Differences at the columns of row `ty` from `tx` on whose number is a multiple of the step. */
  ghost function EveryColumn(f: Image, t: Image, x: nat, y: nat, step: nat, ty: nat, tx: nat): nat
    requires Fits(f, t, x, y) && step > 0 && ty < t.h
    decreases t.w - tx
  {
    if tx >= t.w then 0
    else (if tx % step == 0 then Apart(f.At(x + tx, y + ty), t.At(tx, ty)) else 0)
         + EveryColumn(f, t, x, y, step, ty, tx + 1)
  }

  /** The same at the rows from `ty` on whose number is a multiple of the step. */
  ghost function EveryRow(f: Image, t: Image, x: nat, y: nat, step: nat, ty: nat): nat
    requires Fits(f, t, x, y) && step > 0
    decreases t.h - ty
  {
    if ty >= t.h then 0
    else (if ty % step == 0 then EveryColumn(f, t, x, y, step, ty, 0) else 0) + EveryRow(f, t, x, y, step, ty + 1)
  }

  lemma NoMultiple(a: nat, u: nat, step: nat)
    requires step > 0 && a % step == 0 && a <= u < a + step
    ensures u % step == u - a && (a + step) % step == 0
  {
    var k := a / step;
    assert a == step * k;
    Remainder(u, step, k, u - a);
    assert a + step == step * (k + 1) by { assert step * (k + 1) == step * k + step; }
    Remainder(a + step, step, k + 1, 0);
  }

  lemma Remainder(u: nat, step: nat, k: nat, r: nat)
    requires r < step && u == step * k + r
    ensures u % step == r
  {
    var d: int := u / step - k;
    assert u == step * (u / step) + u % step;
    assert step * d == r - u % step by { assert step * d == step * (u / step) - step * k; }
    WholeMultiple(step, d);
  }

  lemma WholeMultiple(step: int, d: int)
    requires step > 0
    ensures d == 0 || step * d >= step || step * d <= -step
  {
    if d > 0 {
      assert step * d >= step;
    } else if d < 0 {
      assert step * d <= -step;
    }
  }

  lemma {:induction false} SkipColumns(f: Image, t: Image, x: nat, y: nat, step: nat, ty: nat, tx: nat, u: nat)
    requires Fits(f, t, x, y) && step > 0 && ty < t.h && tx % step == 0 && tx < u <= tx + step
    ensures EveryColumn(f, t, x, y, step, ty, u) == EveryColumn(f, t, x, y, step, ty, tx + step)
    decreases tx + step - u
  {
    if u < tx + step {
      NoMultiple(tx, u, step);
      SkipColumns(f, t, x, y, step, ty, tx, u + 1);
    }
  }

  lemma {:induction false} RowSumIs(f: Image, t: Image, x: nat, y: nat, step: nat, ty: nat, tx: nat)
    requires Fits(f, t, x, y) && step > 0 && ty < t.h && tx % step == 0
    ensures RowSum(f, t, x, y, step, ty, tx) == EveryColumn(f, t, x, y, step, ty, tx)
    decreases t.w - tx
  {
    if tx < t.w {
      NoMultiple(tx, tx, step);
      SkipColumns(f, t, x, y, step, ty, tx, tx + 1);
      RowSumIs(f, t, x, y, step, ty, tx + step);
    }
  }

  lemma {:induction false} SkipRows(f: Image, t: Image, x: nat, y: nat, step: nat, ty: nat, u: nat)
    requires Fits(f, t, x, y) && step > 0 && ty % step == 0 && ty < u <= ty + step
    ensures EveryRow(f, t, x, y, step, u) == EveryRow(f, t, x, y, step, ty + step)
    decreases ty + step - u
  {
    if u < ty + step {
      NoMultiple(ty, u, step);
      SkipRows(f, t, x, y, step, ty, u + 1);
    }
  }

  /** The sampled sum adds up exactly the pixels whose row and column are multiples of the step. */
  lemma {:induction false} SumIs(f: Image, t: Image, x: nat, y: nat, step: nat, ty: nat)
    requires Fits(f, t, x, y) && step > 0 && ty % step == 0
    ensures Sum(f, t, x, y, step, ty) == EveryRow(f, t, x, y, step, ty)
    decreases t.h - ty
  {
    if ty < t.h {
      NoMultiple(ty, ty, step);
      RowSumIs(f, t, x, y, step, ty, 0);
      SkipRows(f, t, x, y, step, ty, ty + 1);
      SumIs(f, t, x, y, step, ty + step);
    }
  }

  ghost function PerAxis(n: nat, step: nat): nat
    requires step > 0
  {
    (n + step - 1) / step
  }

  lemma {:induction false} RowSamplesAre(t: Image, step: nat, tx: nat)
    requires step > 0 && tx <= t.w
    ensures RowSamples(t, step, tx) == PerAxis(t.w - tx, step)
    decreases t.w - tx
  {
    if tx < t.w {
      PerAxisStep(t.w - tx, step);
      if tx + step <= t.w {
        RowSamplesAre(t, step, tx + step);
      }
    } else {
      PerAxisNone(step);
    }
  }

  lemma PerAxisNone(step: nat)
    requires step > 0
    ensures PerAxis(0, step) == 0
  {
  }

  lemma PerAxisStep(n: nat, step: nat)
    requires step > 0 && n > 0
    ensures if n <= step then PerAxis(n, step) == 1 else PerAxis(n, step) == 1 + PerAxis(n - step, step)
  {
    var m := n + step - 1;
    assert m == (m - step) + step;
    QuotientStep(m - step, step);
    if n <= step {
      SmallQuotient(n - 1, step);
    }
  }

  lemma QuotientStep(m: nat, step: nat)
    requires step > 0
    ensures (m + step) / step == m / step + 1
  {
    var q := m / step;
    Quotient(m + step, step, q + 1, m % step);
  }

  lemma SmallQuotient(m: nat, step: nat)
    requires step > 0 && m < step
    ensures m / step == 0
  {
  }

  lemma Quotient(u: nat, step: nat, k: nat, r: nat)
    requires step > 0 && r < step && u == step * k + r
    ensures u / step == k
  {
    Remainder(u, step, k, r);
    assert step * (u / step) == step * k;
  }

  lemma OneMoreRow(a: nat, b: nat)
    ensures (1 + a) * b == b + a * b && 1 * b == b && 0 * b == 0
  {
  }

  /** The mean is over one sample per step in each direction. */
  lemma {:induction false} SamplesAre(t: Image, step: nat, ty: nat)
    requires step > 0 && ty <= t.h
    ensures Samples(t, step, ty) == PerAxis(t.h - ty, step) * PerAxis(t.w, step)
    decreases t.h - ty
  {
    hide PerAxis, RowSamples;
    var row := PerAxis(t.w, step);
    RowSamplesAre(t, step, 0);
    OneMoreRow(0, row);
    if ty == t.h {
      PerAxisNone(step);
    } else {
      PerAxisStep(t.h - ty, step);
      if ty + step <= t.h {
        SamplesAre(t, step, ty + step);
        PerAxisNone(step);
        OneMoreRow(PerAxis(t.h - ty - step, step), row);
      }
    }
  }

  /** A template without pixels is never found. */
  lemma {:induction false} NoSampleNoMatch(s: Search, y: nat, best: Match)
    requires s.Valid() && Samples(s.t, s.step, 0) == 0
    ensures s.Scan(y, best) == best
    decreases s.y1 + 1 - y
  {
    if y <= s.y1 {
      NoSampleRow(s, y, s.x0, best);
      NoSampleNoMatch(s, y + 1, best);
    }
  }

  lemma {:induction false} NoSampleRow(s: Search, y: nat, x: nat, best: Match)
    requires s.Valid() && Samples(s.t, s.step, 0) == 0 && y <= s.y1
    ensures s.ScanRow(y, x, best) == best
    decreases s.x1 + 1 - x
  {
    if x <= s.x1 {
      NoSampleRow(s, y, x + 1, best);
    }
  }

  // ----- The search with early exit -----

  class Gray {
    const data: array<Byte>
    const w: nat
    const h: nat

    constructor (data: array<Byte>, w: nat, h: nat)
      ensures this.data == data && this.w == w && this.h == h
    {
      this.data, this.w, this.h := data, w, h;
    }

    function View(): Image
      reads data
    {
      Image(data[..], w, h)
    }
  }

  method CountSamples(tpl: Gray, step: nat) returns (samples: nat)
    requires step > 0
    ensures samples == Samples(tpl.View(), step, 0)
  {
    samples := 0;
    var ty := 0;
    ghost var t := tpl.View();
    while ty < tpl.h
      invariant samples + Samples(t, step, ty) == Samples(t, step, 0)
      decreases tpl.h - ty
    {
      var tx := 0;
      while tx < tpl.w
        invariant samples + RowSamples(t, step, tx) + Samples(t, step, ty + step) == Samples(t, step, 0)
        decreases tpl.w - tx
      {
        samples := samples + 1;
        tx := tx + step;
      }
      ty := ty + step;
    }
  }

  /** `sum / samples > bound`, false when there is no sample. */
  predicate MeanAbove(sum: nat, samples: nat, bound: real) {
    samples > 0 && sum as real / samples as real > bound
  }

  lemma RowSumStep(f: Image, t: Image, x: nat, y: nat, step: nat, ty: nat, tx: nat)
    requires Fits(f, t, x, y) && step > 0 && ty < t.h && tx < t.w
    ensures Index(x, y + ty, f.w) + tx < |f.data| && Index(0, ty, t.w) + tx < |t.data|
    ensures RowSum(f, t, x, y, step, ty, tx)
         == Abs(f.data[Index(x, y + ty, f.w) + tx] as int - t.data[Index(0, ty, t.w) + tx] as int)
            + RowSum(f, t, x, y, step, ty, tx + step)
  {
    hide Index;
    IndexInside(x + tx, y + ty, 1, f.w, f.h);
    IndexInside(tx, ty, 1, t.w, t.h);
    IndexShift(x, tx, y + ty, f.w);
    IndexShift(0, tx, ty, t.w);
  }

  lemma RowSumEnds(f: Image, t: Image, x: nat, y: nat, step: nat, ty: nat, tx: nat)
    requires Fits(f, t, x, y) && step > 0 && ty < t.h && tx >= t.w
    ensures RowSum(f, t, x, y, step, ty, tx) == 0
  {
  }

  method AddRow(frame: Gray, tpl: Gray, x: nat, y: nat, step: nat, ty: nat, sum0: nat) returns (sum: nat)
    requires Fits(frame.View(), tpl.View(), x, y) && step > 0 && ty < tpl.h
    ensures sum == sum0 + RowSum(frame.View(), tpl.View(), x, y, step, ty, 0)
  {
    hide RowSum, Fits, Index;
    ghost var f, t := frame.View(), tpl.View();
    sum := sum0;
    var frow := Index(x, y + ty, frame.w);
    var trow := Index(0, ty, tpl.w);
    var tx := 0;
    while tx < tpl.w
      invariant sum + RowSum(f, t, x, y, step, ty, tx) == sum0 + RowSum(f, t, x, y, step, ty, 0)
      decreases tpl.w - tx
    {
      RowSumStep(f, t, x, y, step, ty, tx);
      var d: int := frame.data[frow + tx] as int - tpl.data[trow + tx] as int;
      sum := sum + Abs(d);
      tx := tx + step;
    }
    RowSumEnds(f, t, x, y, step, ty, tx);
  }

  /** One offset: add up row by row, and give up once the mean is already above `bound`. */
  method SumUpTo(frame: Gray, tpl: Gray, x: nat, y: nat, step: nat, samples: nat, bound: real) returns (sum: nat)
    requires Fits(frame.View(), tpl.View(), x, y) && step > 0
    ensures sum <= Sum(frame.View(), tpl.View(), x, y, step, 0)
    ensures sum == Sum(frame.View(), tpl.View(), x, y, step, 0) || MeanAbove(sum, samples, bound)
  {
    hide MeanAbove, RowSum, Fits;
    ghost var f, t := frame.View(), tpl.View();
    sum := 0;
    var ty := 0;
    while ty < tpl.h
      invariant sum + Sum(f, t, x, y, step, ty) == Sum(f, t, x, y, step, 0)
      decreases tpl.h - ty
    {
      sum := AddRow(frame, tpl, x, y, step, ty, sum);
      if MeanAbove(sum, samples, bound) { break; }
      ty := ty + step;
    }
  }

  /** The early-exit search: same answer as scanning every offset in full, and no access out of range. */
  method MatchTemplate(frame: Gray, tpl: Gray, cx: real, cy: real, radius: real, step: nat) returns (best: Match)
    requires frame.View().Valid() && tpl.View().Valid() && step > 0
    ensures best == Exhaustive(frame.View(), tpl.View(), cx, cy, radius, step)
  {
    ghost var f, t := frame.View(), tpl.View();
    var maxX, maxY := frame.w - tpl.w, frame.h - tpl.h;
    var x0, x1 := Max(0, Round(cx - radius)), Min(maxX, Round(cx + radius));
    var y0, y1 := Max(0, Round(cy - radius)), Min(maxY, Round(cy + radius));
    best := Match(Max(0, Min(maxX, Round(cx))), Max(0, Min(maxY, Round(cy))), 255.0);
    if maxX < 0 || maxY < 0 { return; }
    var samples := CountSamples(tpl, step);
    ghost var s := Window(f, t, cx, cy, radius, step);
    ghost var answer := s.Scan(y0, best);
    var y := y0;
    while y <= y1
      invariant y0 <= y && s.Scan(y, best) == answer
      decreases y1 - y
    {
      var x := x0;
      while x <= x1
        invariant x0 <= x && s.Scan(y + 1, s.ScanRow(y, x, best)) == answer
        decreases x1 - x
      {
        var sum := SumUpTo(frame, tpl, x, y, step, samples, best.mad);
        if samples > 0 {
          var mad := sum as real / samples as real;
          SmallerSumSmallerMean(sum, Sum(f, t, x, y, step, 0), samples);
          if mad < best.mad { best := Match(x, y, mad); }
        }
        x := x + 1;
      }
      y := y + 1;
    }
  }

  lemma SmallerSumSmallerMean(a: nat, b: nat, n: nat)
    requires a <= b && n > 0
    ensures a as real / n as real <= b as real / n as real
  {
  }

  // ----- Cropping -----

  /** Position and size after clamping to the image. */
  datatype Box = Box(x: nat, y: nat, w: nat, h: nat)

  function Clamped(g: Image, x0: real, y0: real, w: real, h: real): Box {
    var x := Max(0, Min(g.w - 1, Round(x0)));
    var y := Max(0, Min(g.h - 1, Round(y0)));
    Box(x, y, Max(1, Min(Round(w), g.w - x)), Max(1, Min(Round(h), g.h - y)))
  }

  /** `out` is the rectangle `b` of `g`, row by row. */
  ghost predicate IsCrop(g: Image, b: Box, out: Image) {
    && out.Valid() && g.Valid() && out.w == b.w && out.h == b.h
    && b.x + b.w <= g.w && b.y + b.h <= g.h
    && forall i: nat, j: nat :: i < b.w && j < b.h ==> out.At(i, j) == g.At(b.x + i, b.y + j)
  }

  /** `dst.set(src.subarray(from, from + n), to)` */
  method CopyRange(src: array<Byte>, from: nat, dst: array<Byte>, to: nat, n: nat)
    requires src != dst && from + n <= src.Length && to + n <= dst.Length
    modifies dst
    ensures dst[to..to + n] == src[from..from + n] && dst[..to] == old(dst[..to])
  {
    for k := 0 to n
      invariant dst[to..to + k] == src[from..from + k] && dst[..to] == old(dst[..to])
    {
      dst[to + k] := src[from + k];
    }
  }

  /** Row `j` of the copy is the stretch of row `y + j` of the original that starts at `x`. */
  ghost predicate RowCopied(g: Image, b: Box, dst: seq<Byte>, j: nat) {
    var lo, from := Index(0, j, b.w), Index(b.x, b.y + j, g.w);
    lo + b.w <= |dst| && from + b.w <= |g.data| && dst[lo..lo + b.w] == g.data[from..from + b.w]
  }

  lemma RowStaysCopied(g: Image, b: Box, before: seq<Byte>, after: seq<Byte>, row: nat, j: nat)
    requires RowCopied(g, b, before, j) && j < row && |after| == |before| && Index(0, row, b.w) <= |before|
    requires after[..Index(0, row, b.w)] == before[..Index(0, row, b.w)]
    ensures RowCopied(g, b, after, j)
  {
    hide Index;
    var lo, hi := Index(0, j, b.w), Index(0, row, b.w);
    IndexInside(0, j, b.w, b.w, row);
    forall k | lo <= k < lo + b.w
      ensures after[k] == before[k]
    {
      assert after[..hi][k] == after[k] && before[..hi][k] == before[k];
    }
    assert after[lo..lo + b.w] == before[lo..lo + b.w];
  }

  lemma RowPixel(g: Image, b: Box, out: Image, i: nat, j: nat)
    requires g.Valid() && out.Valid() && out.w == b.w && out.h == b.h && b.x + b.w <= g.w && b.y + b.h <= g.h
    requires RowCopied(g, b, out.data, j) && i < b.w && j < b.h
    ensures out.At(i, j) == g.At(b.x + i, b.y + j)
  {
    hide Index;
    var lo, from := Index(0, j, b.w), Index(b.x, b.y + j, g.w);
    IndexShift(0, i, j, b.w);
    IndexShift(b.x, i, b.y + j, g.w);
    assert out.data[lo..lo + b.w][i] == out.data[lo + i];
    assert g.data[from..from + b.w][i] == g.data[from + i];
  }

  lemma ClampedInside(g: Image, x0: real, y0: real, w: real, h: real)
    requires g.w > 0 && g.h > 0
    ensures var b := Clamped(g, x0, y0, w, h); b.x + b.w <= g.w && b.y + b.h <= g.h
  {
  }

  /** Copy row by row into a new array. */
  method CopyRows(g: Gray, b: Box) returns (data: array<Byte>)
    requires g.View().Valid() && b.x + b.w <= g.w && b.y + b.h <= g.h
    ensures fresh(data) && data.Length == Index(0, b.h, b.w)
    ensures forall j: nat :: j < b.h ==> RowCopied(g.View(), b, data[..], j)
  {
    hide RowCopied, Index;
    ghost var image := g.View();
    data := new Byte[Index(0, b.h, b.w)](_ => 0);
    var row := 0;
    while row < b.h
      invariant 0 <= row <= b.h && g.View() == image
      invariant forall j: nat :: j < row ==> RowCopied(image, b, data[..], j)
    {
      var src, dst := Index(b.x, b.y + row, g.w), Index(0, row, b.w);
      IndexInside(b.x, b.y + row, b.w, g.w, g.h);
      IndexInside(0, row, b.w, b.w, b.h);
      ghost var before := data[..];
      CopyRange(g.data, src, data, dst, b.w);
      forall j: nat | j < row
        ensures RowCopied(image, b, data[..], j)
      {
        RowStaysCopied(image, b, before, data[..], row, j);
      }
      RowNowCopied(image, b, data[..], row);
      row := row + 1;
    }
  }

  lemma RowNowCopied(g: Image, b: Box, dst: seq<Byte>, row: nat)
    requires var lo, from := Index(0, row, b.w), Index(b.x, b.y + row, g.w);
      lo + b.w <= |dst| && from + b.w <= |g.data| && dst[lo..lo + b.w] == g.data[from..from + b.w]
    ensures RowCopied(g, b, dst, row)
  {
  }

  /** An empty image has nothing to copy: the crop is then a black patch of the clamped size. */
  method Crop(g: Gray, x0: real, y0: real, w: real, h: real) returns (out: Gray)
    requires g.View().Valid()
    ensures fresh(out.data)
    ensures var b := Clamped(g.View(), x0, y0, w, h);
      if g.w > 0 && g.h > 0 then IsCrop(g.View(), b, out.View())
      else out.View() == Image(seq(Index(0, b.h, b.w), _ => 0), b.w, b.h)
  {
    hide RowCopied, Index;
    var x := Max(0, Min(g.w - 1, Round(x0)));
    var y := Max(0, Min(g.h - 1, Round(y0)));
    var cw := Max(1, Min(Round(w), g.w - x));
    var ch := Max(1, Min(Round(h), g.h - y));
    var b := Box(x, y, cw, ch);
    ghost var image := g.View();
    assert b == Clamped(image, x0, y0, w, h);
    if g.w == 0 || g.h == 0 {
      var black := new Byte[Index(0, ch, cw)](_ => 0);
      out := new Gray(black, cw, ch);
      return;
    }
    ClampedInside(image, x0, y0, w, h);
    var data := CopyRows(g, b);
    out := new Gray(data, cw, ch);
    assert g.View() == image;
    forall i: nat, j: nat | i < cw && j < ch
      ensures out.View().At(i, j) == image.At(x + i, y + j)
    {
      RowPixel(image, b, out.View(), i, j);
    }
  }

  /** A rectangle inside the image is cropped as asked. */
  lemma CropInside(g: Image, x: nat, y: nat, w: nat, h: nat)
    requires w > 0 && h > 0 && x + w <= g.w && y + h <= g.h
    ensures Clamped(g, x as real, y as real, w as real, h as real) == Box(x, y, w, h)
  {
  }

  /**
   * Any other rectangle: it starts at the nearest row and column of the image, and is as large as
   * asked, rounded, unless the image's edge cuts it off; it keeps at least one pixel.
   */
  lemma CropClamps(g: Image, x0: real, y0: real, w: real, h: real, i: nat, j: nat)
    requires i < g.w && j < g.h
    ensures var b := Clamped(g, x0, y0, w, h);
      && Gap(b.x, x0) <= Gap(i, x0) && Gap(b.y, y0) <= Gap(j, y0)
      && 1 <= b.w <= g.w - b.x && 1 <= b.h <= g.h - b.y
      && (b.w == 1 || b.w as real <= w + 0.5) && (b.x + b.w == g.w || b.w as real > w - 0.5)
      && (b.h == 1 || b.h as real <= h + 0.5) && (b.y + b.h == g.h || b.h as real > h - 0.5)
  {
    NearestOffset(x0, g.w - 1, i);
    NearestOffset(y0, g.h - 1, j);
    var b := Clamped(g, x0, y0, w, h);
    RoundedIs(w, b.w);
    RoundedIs(h, b.h);
  }

  // ----- A patch is found where it was taken -----

  lemma {:induction false} CropRowMatches(f: Image, t: Image, b: Box, step: nat, ty: nat, tx: nat)
    requires IsCrop(f, b, t) && step > 0 && ty < t.h
    ensures Fits(f, t, b.x, b.y) && RowSum(f, t, b.x, b.y, step, ty, tx) == 0
    decreases t.w - tx
  {
    if tx < t.w {
      CropRowMatches(f, t, b, step, ty, tx + step);
    }
  }

  lemma {:induction false} CropMatches(f: Image, t: Image, b: Box, step: nat, ty: nat)
    requires IsCrop(f, b, t) && step > 0
    ensures Fits(f, t, b.x, b.y) && Sum(f, t, b.x, b.y, step, ty) == 0
    decreases t.h - ty
  {
    if ty < t.h {
      CropRowMatches(f, t, b, step, ty, 0);
      CropMatches(f, t, b, step, ty + step);
    }
  }

  /** Searching a frame for its own crop, with the crop's corner in the window, ends with difference zero. */
  lemma CropIsFound(f: Image, t: Image, b: Box, cx: real, cy: real, radius: real, step: nat)
    requires IsCrop(f, b, t) && b.w > 0 && b.h > 0 && step > 0
    requires Window(f, t, cx, cy, radius, step).InWindow(b.x, b.y)
    ensures var best := Exhaustive(f, t, cx, cy, radius, step);
      best.mad == 0.0 && ((best.x == b.x && best.y == b.y) || Earlier(best.x, best.y, b.x, b.y))
  {
    CropMatches(f, t, b, step, 0);
    assert RowSamples(t, step, 0) > 0;
    assert Samples(t, step, 0) > 0;
    assert Mad(f, t, b.x, b.y, step) == 0.0;
    ExhaustiveIsFirstMinimum(f, t, cx, cy, radius, step);
    var best := Exhaustive(f, t, cx, cy, radius, step);
    assert best.mad >= 0.0 by { MadNotNegative(f, t, best.x, best.y, step); }
  }

  lemma MadNotNegative(f: Image, t: Image, x: int, y: int, step: nat)
    requires x >= 0 && y >= 0 && Fits(f, t, x, y) && step > 0 && Samples(t, step, 0) > 0
    ensures Mad(f, t, x, y, step) >= 0.0
  {
    SmallerSumSmallerMean(0, Sum(f, t, x, y, step, 0), Samples(t, step, 0));
  }
}
