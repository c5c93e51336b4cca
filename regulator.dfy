/**
 * The ips regulator of `wf_myrtille_send_region`: region validation, the
 * `imageCount` counter, the consolidation of regions into `imageBuffer` and
 * the sampling cadence, then the integer scaling to the browser's size.
 */
module Regulator {
  import opened Native

  /** A GDI `RECT`. */
  datatype Rect = Rect(left: int, top: int, right: int, bottom: int)

  /** The empty consolidation buffer: every side at -1. */
  const EmptyBuffer: Rect := Rect(-1, -1, -1, -1)

  /** The consistency check: every side within the desktop, and the sides in order. */
  predicate InDesktop(r: Rect, dw: int, dh: int) {
    0 <= r.left <= dw && 0 <= r.top <= dh && 0 <= r.right <= dw && 0 <= r.bottom <= dh &&
    r.left <= r.right && r.top <= r.bottom
  }

  /** A counter (`imageCount`, `imageIdx`) after its increment: reset first when it is at `INT_MAX`. */
  function NextCount(c: int): int {
    (if c == INT_MAX then 0 else c) + 1
  }

  /** A counter starting in `0..INT_MAX` stays in `1..INT_MAX` after an increment and never overflows. */
  lemma NextCountInRange(c: int)
    requires 0 <= c <= INT_MAX
    ensures 1 <= NextCount(c) <= INT_MAX
    ensures c < INT_MAX ==> NextCount(c) == c + 1
    ensures c == INT_MAX ==> NextCount(c) == 1
  {
  }

  /** The four field-by-field updates of `imageBuffer` by a region; a side at -1 takes the region's side. */
  function FoldRegion(buffer: Rect, r: Rect): Rect {
    Rect(
      if buffer.left == -1 || r.left < buffer.left then r.left else buffer.left,
      if buffer.top == -1 || r.top < buffer.top then r.top else buffer.top,
      if buffer.right == -1 || r.right > buffer.right then r.right else buffer.right,
      if buffer.bottom == -1 || r.bottom > buffer.bottom then r.bottom else buffer.bottom)
  }

  /** The bounding box of two rectangles. */
  function Union(a: Rect, b: Rect): (u: Rect)
    ensures u.left <= a.left && u.left <= b.left && (u.left == a.left || u.left == b.left)
    ensures u.top <= a.top && u.top <= b.top && (u.top == a.top || u.top == b.top)
    ensures u.right >= a.right && u.right >= b.right && (u.right == a.right || u.right == b.right)
    ensures u.bottom >= a.bottom && u.bottom >= b.bottom && (u.bottom == a.bottom || u.bottom == b.bottom)
  {
    Rect(
      if a.left <= b.left then a.left else b.left,
      if a.top <= b.top then a.top else b.top,
      if a.right >= b.right then a.right else b.right,
      if a.bottom >= b.bottom then a.bottom else b.bottom)
  }

  /** The bounding box of a non-empty list of rectangles. */
  function UnionAll(rs: seq<Rect>): Rect
    requires rs != []
  {
    if |rs| == 1 then rs[0] else Union(UnionAll(rs[..|rs| - 1]), rs[|rs| - 1])
  }

  /** What `imageBuffer` can hold between updates: empty, or a rectangle of the desktop. */
  predicate BufferWellFormed(b: Rect, dw: int, dh: int) {
    b == EmptyBuffer || InDesktop(b, dw, dh)
  }

  /**
   * Folding a valid region into a well-formed buffer gives the region itself
   * when the buffer is empty, and the bounding box of the two otherwise; the
   * buffer stays well formed.
   */
  lemma FoldIsUnion(b: Rect, r: Rect, dw: int, dh: int)
    requires BufferWellFormed(b, dw, dh) && InDesktop(r, dw, dh)
    ensures FoldRegion(b, r) == if b == EmptyBuffer then r else Union(b, r)
    ensures InDesktop(FoldRegion(b, r), dw, dh)
  {
  }

  /** The `imageQuantity` values for which regions are consolidated: a rate that divides 100 into 20, 10, 5, 4 or 2 updates. */
  predicate IsSamplingQuantity(q: int) {
    q == 5 || q == 10 || q == 20 || q == 25 || q == 50
  }

  /** The number of region updates consolidated into one forwarded update. */
  function Period(q: int): (k: nat)
    requires IsSamplingQuantity(q)
    ensures 2 <= k <= 20
  {
    100 / q
  }

  datatype RegulatorState = RegulatorState(count: int, buffer: Rect)

  /** What becomes of a region update: dropped by the consistency check, held back, or forwarded as a region. */
  datatype Decision = Dropped | Suppressed | Forwarded(region: Rect)

  /** The regulator steps of `wf_myrtille_send_region`, from the consistency check to the region forwarded. */
  function Regulate(st: RegulatorState, quantity: int, dw: int, dh: int, r: Rect): (RegulatorState, Decision) {
    if !InDesktop(r, dw, dh) then (st, Dropped)
    else
      var count := NextCount(st.count);
      if !IsSamplingQuantity(quantity) then (RegulatorState(count, st.buffer), Forwarded(r))
      else
        var b := FoldRegion(st.buffer, r);
        if count % Period(quantity) != 0 then (RegulatorState(count, b), Suppressed)
        else
          var fwd := if b.top != -1 && b.left != -1 && b.bottom != -1 && b.right != -1 then b else r;
          (RegulatorState(count, EmptyBuffer), Forwarded(fwd))
  }

  /** The regulator over a series of region updates, with the decisions in order. */
  function RegulateAll(st: RegulatorState, quantity: int, dw: int, dh: int, rs: seq<Rect>): (RegulatorState, seq<Decision>)
    decreases |rs|
  {
    if rs == [] then (st, [])
    else
      var step := Regulate(st, quantity, dw, dh, rs[0]);
      var rest := RegulateAll(step.0, quantity, dw, dh, rs[1..]);
      (rest.0, [step.1] + rest.1)
  }

  /** A region failing the consistency check is dropped with no change to the counter or the buffer. */
  lemma InvalidRegionDropped(st: RegulatorState, quantity: int, dw: int, dh: int, r: Rect)
    ensures !InDesktop(r, dw, dh) <==> Regulate(st, quantity, dw, dh, r).1 == Dropped
    ensures !InDesktop(r, dw, dh) ==> Regulate(st, quantity, dw, dh, r).0 == st
  {
  }

  /** Outside the sampling quantities, a valid region passes through unchanged and the buffer is untouched. */
  lemma PassThrough(st: RegulatorState, quantity: int, dw: int, dh: int, r: Rect)
    requires InDesktop(r, dw, dh) && !IsSamplingQuantity(quantity)
    ensures Regulate(st, quantity, dw, dh, r) == (RegulatorState(NextCount(st.count), st.buffer), Forwarded(r))
  {
  }

  /**
   * With a sampling quantity, a valid region is folded into the buffer; it is
   * held back unless the new count is a multiple of the period, and otherwise
   * the consolidated region is forwarded and the buffer emptied.
   */
  lemma SamplingStep(st: RegulatorState, quantity: int, dw: int, dh: int, r: Rect)
    requires IsSamplingQuantity(quantity)
    requires InDesktop(r, dw, dh) && BufferWellFormed(st.buffer, dw, dh)
    ensures var (st', d) := Regulate(st, quantity, dw, dh, r);
      var u := if st.buffer == EmptyBuffer then r else Union(st.buffer, r);
      st'.count == NextCount(st.count) &&
      (d == Suppressed <==> NextCount(st.count) % Period(quantity) != 0) &&
      (d == Suppressed ==> st'.buffer == u) &&
      (d != Suppressed ==> d == Forwarded(u) && st'.buffer == EmptyBuffer)
  {
    FoldIsUnion(st.buffer, r, dw, dh);
  }

  /** The regulator keeps the counter in `0..INT_MAX` and the buffer well formed. */
  lemma RegulatePreserves(st: RegulatorState, quantity: int, dw: int, dh: int, r: Rect)
    requires 0 <= st.count <= INT_MAX && BufferWellFormed(st.buffer, dw, dh)
    ensures var st' := Regulate(st, quantity, dw, dh, r).0;
      0 <= st'.count <= INT_MAX && BufferWellFormed(st'.buffer, dw, dh)
  {
    if InDesktop(r, dw, dh) {
      NextCountInRange(st.count);
      FoldIsUnion(st.buffer, r, dw, dh);
    }
  }

  predicate AllSuppressed(ds: seq<Decision>) {
    forall i :: 0 <= i < |ds| ==> ds[i] == Suppressed
  }

  /** Past a multiple of the period, the count is a multiple again only after a whole period. */
  lemma CountOffset(c: int, k: int, j: int)
    requires k in {2, 4, 5, 10, 20}
    requires 0 <= c && c % k == 0 && 0 <= j < k
    ensures (c + j) % k == j
  {
  }

  /**
   * The sampling cadence. From a count at a multiple of the period `k`, with
   * an empty buffer and no counter reset on the way, `j < k` valid regions are
   * all held back and the buffer holds their bounding box.
   */
  lemma {:induction false} HeldBack(st: RegulatorState, quantity: int, dw: int, dh: int, rs: seq<Rect>)
    requires IsSamplingQuantity(quantity)
    requires 0 <= st.count && st.count % Period(quantity) == 0 && st.buffer == EmptyBuffer
    requires 0 < |rs| < Period(quantity) && st.count + |rs| <= INT_MAX
    requires forall i :: 0 <= i < |rs| ==> InDesktop(rs[i], dw, dh)
    ensures RegulateAll(st, quantity, dw, dh, rs).0 == RegulatorState(st.count + |rs|, UnionAll(rs))
    ensures |RegulateAll(st, quantity, dw, dh, rs).1| == |rs|
    ensures AllSuppressed(RegulateAll(st, quantity, dw, dh, rs).1)
    decreases |rs|
  {
    var k := Period(quantity);
    var n := |rs|;
    var init := rs[..n - 1];
    var last := rs[n - 1];
    CountOffset(st.count, k, n);
    SplitLast(st, quantity, dw, dh, rs);
    if n == 1 {
      assert RegulateAll(st, quantity, dw, dh, init) == (st, []);
      SamplingStep(st, quantity, dw, dh, last);
    } else {
      HeldBack(st, quantity, dw, dh, init);
      UnionAllInDesktop(init, dw, dh);
      var mid := RegulatorState(st.count + n - 1, UnionAll(init));
      SamplingStep(mid, quantity, dw, dh, last);
    }
  }

  /**
   * The cadence completed: from a count at a multiple of the period `k`, with
   * an empty buffer, `k` valid regions give `k - 1` held-back updates and then
   * one forwarded update of their bounding box, and the buffer is empty again.
   */
  lemma {:induction false} Cadence(st: RegulatorState, quantity: int, dw: int, dh: int, rs: seq<Rect>)
    requires IsSamplingQuantity(quantity)
    requires 0 <= st.count && st.count % Period(quantity) == 0 && st.buffer == EmptyBuffer
    requires |rs| == Period(quantity) && st.count + |rs| <= INT_MAX
    requires forall i :: 0 <= i < |rs| ==> InDesktop(rs[i], dw, dh)
    ensures RegulateAll(st, quantity, dw, dh, rs).0 == RegulatorState(st.count + |rs|, EmptyBuffer)
    ensures var ds := RegulateAll(st, quantity, dw, dh, rs).1;
      |ds| == |rs| && AllSuppressed(ds[..|rs| - 1]) && ds[|rs| - 1] == Forwarded(UnionAll(rs))
  {
    var k := |rs|;
    var init := rs[..k - 1];
    var last := rs[k - 1];
    HeldBack(st, quantity, dw, dh, init);
    UnionAllInDesktop(init, dw, dh);
    var (mid, ds1) := RegulateAll(st, quantity, dw, dh, init);
    assert mid == RegulatorState(st.count + k - 1, UnionAll(init));
    CountPeriod(st.count, k);
    SamplingStep(mid, quantity, dw, dh, last);
    var (fin, d) := Regulate(mid, quantity, dw, dh, last);
    assert d == Forwarded(Union(UnionAll(init), last)) && fin == RegulatorState(st.count + k, EmptyBuffer);
    assert UnionAll(rs) == Union(UnionAll(init), last);
    SplitLast(st, quantity, dw, dh, rs);
    assert RegulateAll(st, quantity, dw, dh, rs) == (fin, ds1 + [d]);
    assert (ds1 + [d])[..k - 1] == ds1;
  }

  lemma CountPeriod(c: int, k: int)
    requires k in {2, 4, 5, 10, 20}
    requires 0 <= c && c % k == 0
    ensures (c + k) % k == 0
  {
  }

  /** Running the regulator over a list is running it over all but the last region, then over the last one. */
  lemma {:induction false} SplitLast(st: RegulatorState, quantity: int, dw: int, dh: int, rs: seq<Rect>)
    requires rs != []
    ensures var (st1, ds1) := RegulateAll(st, quantity, dw, dh, rs[..|rs| - 1]);
      var (st2, d) := Regulate(st1, quantity, dw, dh, rs[|rs| - 1]);
      RegulateAll(st, quantity, dw, dh, rs) == (st2, ds1 + [d])
    decreases |rs|
  {
    var step := Regulate(st, quantity, dw, dh, rs[0]);
    if |rs| == 1 {
      assert rs[1..] == [] && rs[..0] == [];
      assert RegulateAll(step.0, quantity, dw, dh, rs[1..]) == (step.0, []);
      assert [step.1] + [] == [] + [step.1];
    } else {
      var tail := rs[1..];
      SplitLast(step.0, quantity, dw, dh, tail);
      assert tail[..|tail| - 1] == rs[..|rs| - 1][1..];
      assert tail[|tail| - 1] == rs[|rs| - 1];
      var front := RegulateAll(step.0, quantity, dw, dh, tail[..|tail| - 1]);
      assert RegulateAll(st, quantity, dw, dh, rs[..|rs| - 1]) == (front.0, [step.1] + front.1);
      var fin := Regulate(front.0, quantity, dw, dh, rs[|rs| - 1]);
      assert [step.1] + (front.1 + [fin.1]) == ([step.1] + front.1) + [fin.1];
    }
  }

  /** The bounding box of rectangles of the desktop is a rectangle of the desktop. */
  lemma {:induction false} UnionAllInDesktop(rs: seq<Rect>, dw: int, dh: int)
    requires rs != []
    requires forall i :: 0 <= i < |rs| ==> InDesktop(rs[i], dw, dh)
    ensures InDesktop(UnionAll(rs), dw, dh)
    decreases |rs|
  {
    if |rs| > 1 {
      UnionAllInDesktop(rs[..|rs| - 1], dw, dh);
    }
  }

  // ---------------------------------------------------------------- scaling

  /** Whether a region or the screen is scaled to the browser's size: scaling is on and the sizes differ. */
  predicate Scales(scaleDisplay: bool, cw: int, ch: int, dw: int, dh: int) {
    scaleDisplay && !(cw == dw && ch == dh)
  }

  /** `v * c / d` in C `int` arithmetic; `None` is the divide fault on `d == 0`. */
  function ScaleCoord(v: int, c: int, d: int): Option<int> {
    if d == 0 then None else Some(CDiv(v * c, d))
  }

  /** The region as it is sent: scaled by `cw/dw` and `ch/dh` when scaling applies; `None` on a divide fault. */
  function ScaleRegion(r: Rect, scaleDisplay: bool, cw: int, ch: int, dw: int, dh: int): Option<Rect> {
    if !Scales(scaleDisplay, cw, ch, dw, dh) then Some(r)
    else if dw == 0 || dh == 0 then None
    else Some(Rect(CDiv(r.left * cw, dw), CDiv(r.top * ch, dh), CDiv(r.right * cw, dw), CDiv(r.bottom * ch, dh)))
  }

  /** A coordinate of the desktop scaled to a client size stays between 0 and that size, in order. */
  lemma ScaleCoordBounds(v: int, w: int, c: int, d: int)
    requires 0 <= v <= w <= d && 0 < d && 0 <= c
    ensures 0 <= CDiv(v * c, d) <= CDiv(w * c, d) <= c
  {
    MulMonotone(v, w, c);
    MulMonotone(w, d, c);
    MulMonotone(0, v, c);
    DivMonotone(v * c, w * c, d);
    DivMonotone(w * c, d * c, d);
    MulDiv(c, d);
  }

  lemma MulMonotone(a: int, b: int, c: int)
    requires a <= b && 0 <= c
    ensures a * c <= b * c
  {
  }

  lemma MulDiv(c: int, d: int)
    requires 0 < d
    ensures d * c / d == c
  {
    var x, r := d * c / d, d * c % d;
    assert d * (c - x) == r && 0 <= r < d;
    if c - x >= 1 {
      MulMonotone(1, c - x, d);
      assert false;
    }
    if c - x <= -1 {
      MulMonotone(c - x, -1, d);
      assert false;
    }
  }

  lemma DivMonotone(a: int, b: int, d: int)
    requires 0 <= a <= b && 0 < d
    ensures 0 <= a / d <= b / d
  {
    var qa, qb := a / d, b / d;
    assert a == d * qa + a % d && 0 <= a % d < d;
    assert b == d * qb + b % d && 0 <= b % d < d;
    assert (qb + 1) * d == d * qb + d;
    if qa > qb {
      MulMonotone(qb + 1, qa, d);
      assert false;
    }
    if qa < 0 {
      MulMonotone(qa, -1, d);
      assert false;
    }
  }

  /**
   * A region of the desktop, scaled to a client area of non-negative size,
   * is a region of the client area with its sides in order.
   */
  lemma ScaledRegionInClient(r: Rect, scaleDisplay: bool, cw: int, ch: int, dw: int, dh: int)
    requires InDesktop(r, dw, dh) && 0 < dw && 0 < dh && 0 <= cw && 0 <= ch
    requires Scales(scaleDisplay, cw, ch, dw, dh)
    ensures ScaleRegion(r, scaleDisplay, cw, ch, dw, dh).Some?
    ensures InDesktop(ScaleRegion(r, scaleDisplay, cw, ch, dw, dh).value, cw, ch)
  {
    ScaleCoordBounds(r.left, r.right, cw, dw);
    ScaleCoordBounds(r.right, dw, cw, dw);
    ScaleCoordBounds(r.top, r.bottom, ch, dh);
    ScaleCoordBounds(r.bottom, dh, ch, dh);
  }
}
