/** The readback check built on the oracle, and the batch loop that feeds it. */
module Pixels {
  import opened Oracle

  // ---------------------------------------------------------------- the readback check

  datatype Format = RGBA8 | R8 | R16 | RG16

  /** One pixel as stored: the channels the format has, 0 for the others. */
  datatype Pixel = Pixel(r: int, g: int, b: int, a: int)

  datatype Setup = Setup(format: Format, depthClamp: int, samples: nat, size: nat)

  function Want(s: Setup, x: int, y: int): Pixel {
    match s.format
    case R8 => Pixel(ExpectR(x), 0, 0, 0)
    case R16 => Pixel(ExpectR16(x), 0, 0, 0)
    case RG16 => Pixel(ExpectR16(x), ExpectR16(y), 0, 0)
    case RGBA8 =>
      if s.depthClamp == 0 then Pixel(0, 0, 0, 255) else Pixel(ExpectR(x), ExpectR(y), 64, 255)
  }

  predicate Matches(s: Setup, p: Pixel, x: int, y: int) {
    var w := Want(s, x, y);
    match s.format
    case R8 => p.r == w.r
    case R16 => p.r == w.r
    case RG16 => p.r == w.r && p.g == w.g
    case RGBA8 => p == w
  }

  /** Multisampled pixels that are only checked for a plausible blend. */
  predicate OnEdge(s: Setup, x: int, y: int) {
    s.format == RGBA8 && s.samples > 1 && x + y >= s.size - 3
  }

  /** Brighter than any blend of the expected colour with black can be. */
  predicate Implausible(s: Setup, p: Pixel, x: int, y: int) {
    var w := Want(s, x, y);
    p.r > (if w.r > 0 then w.r else 1) || p.g > (if w.g > 0 then w.g else 1) || p.b > 64
  }

  /** What a right pixel holds, channel by channel: red follows x and green follows y; a
      format stores the first of them, and with depth clamp off everything is clipped. */
  ghost predicate Right(s: Setup, p: Pixel, x: int, y: int) {
    match s.format
    case R8 => Nearest(p.r, x, 255)
    case R16 => Nearest(p.r, x, 65535)
    case RG16 => Nearest(p.r, x, 65535) && Nearest(p.g, y, 65535)
    case RGBA8 =>
      if s.depthClamp == 0 then p.r == 0 && p.g == 0 && p.b == 0 && p.a == 255
      else Nearest(p.r, x, 255) && Nearest(p.g, y, 255) && p.b == 64 && p.a == 255
  }

  lemma MatchesIff(s: Setup, p: Pixel, x: int, y: int)
    ensures Matches(s, p, x, y) <==> Right(s, p, x, y)
  {
    NearestIff(p.r, x, 255);
    NearestIff(p.r, x, 65535);
    NearestIff(p.g, y, 255);
    NearestIff(p.g, y, 65535);
  }

  /** A channel more than a rounding above the full colour, or above 1 where that is black. */
  ghost predicate TooBright(s: Setup, p: Pixel, x: int, y: int) {
    if s.depthClamp == 0 then p.r > 1 || p.g > 1 || p.b > 64
    else p.r as real > Ideal(x, 255) + 0.5 || p.g as real > Ideal(y, 255) + 0.5 || p.b > 64
  }

  lemma ImplausibleIff(s: Setup, p: Pixel, x: int, y: int)
    requires s.format == RGBA8
    ensures Implausible(s, p, x, y) <==> TooBright(s, p, x, y)
  {
    NearestAndNoTie(x, 255);
    NearestAndNoTie(y, 255);
    IntegerForm(x, 255);
    IntegerForm(y, 255);
    OddIs(x);
    OddIs(y);
  }

  predicate IsImage(s: Setup, image: seq<seq<Pixel>>) {
    |image| == s.size && forall y :: 0 <= y < |image| ==> |image[y]| == s.size
  }

  ghost predicate WrongAt(s: Setup, image: seq<seq<Pixel>>, x: int, y: int)
    requires IsImage(s, image) && 0 <= x < s.size && 0 <= y < s.size
  {
    !OnEdge(s, x, y) && !Right(s, image[y][x], x, y)
  }

  ghost predicate EdgeBadAt(s: Setup, image: seq<seq<Pixel>>, x: int, y: int)
    requires IsImage(s, image) && 0 <= x < s.size && 0 <= y < s.size
  {
    OnEdge(s, x, y) && TooBright(s, image[y][x], x, y)
  }

  /** Every pixel is right, but for the multisampled ones from the diagonal on. */
  ghost predicate AllRight(s: Setup, image: seq<seq<Pixel>>)
    requires IsImage(s, image)
  {
    forall x, y :: 0 <= x < s.size && 0 <= y < s.size ==>
      (s.format == RGBA8 && s.samples > 1 && x + y >= s.size - 3) || Right(s, image[y][x], x, y)
  }

  lemma NoneWrong(s: Setup, image: seq<seq<Pixel>>)
    requires IsImage(s, image)
    ensures AllRight(s, image) <==> forall x, y :: 0 <= x < s.size && 0 <= y < s.size ==> !WrongAt(s, image, x, y)
  {
    if forall x, y :: 0 <= x < s.size && 0 <= y < s.size ==> !WrongAt(s, image, x, y) {
      forall x, y | 0 <= x < s.size && 0 <= y < s.size ensures OnEdge(s, x, y) || Right(s, image[y][x], x, y) {
        assert !WrongAt(s, image, x, y);
      }
    }
  }

  /** Wrong pixels among the first n of row y. */
  ghost function WrongInRow(s: Setup, image: seq<seq<Pixel>>, y: nat, n: nat): (count: nat)
    requires IsImage(s, image) && y < s.size && n <= s.size
    ensures count <= n
  {
    if n == 0 then 0
    else WrongInRow(s, image, y, n - 1) + (if WrongAt(s, image, n - 1, y) then 1 else 0)
  }

  /** Wrong pixels in the first n rows. */
  ghost function WrongInRows(s: Setup, image: seq<seq<Pixel>>, n: nat): nat
    requires IsImage(s, image) && n <= s.size
  {
    if n == 0 then 0 else WrongInRows(s, image, n - 1) + WrongInRow(s, image, n - 1, s.size)
  }

  ghost function EdgeInRow(s: Setup, y: nat, n: nat): nat {
    if n == 0 then 0 else EdgeInRow(s, y, n - 1) + (if OnEdge(s, n - 1, y) then 1 else 0)
  }

  /** Pixels left to the blend check in the first n rows. */
  ghost function EdgeInRows(s: Setup, n: nat): nat {
    if n == 0 then 0 else EdgeInRows(s, n - 1) + EdgeInRow(s, n - 1, s.size)
  }

  ghost function EdgeBadInRow(s: Setup, image: seq<seq<Pixel>>, y: nat, n: nat): nat
    requires IsImage(s, image) && y < s.size && n <= s.size
  {
    if n == 0 then 0
    else EdgeBadInRow(s, image, y, n - 1) + (if EdgeBadAt(s, image, n - 1, y) then 1 else 0)
  }

  /** Implausible blends in the first n rows. */
  ghost function EdgeBadInRows(s: Setup, image: seq<seq<Pixel>>, n: nat): nat
    requires IsImage(s, image) && n <= s.size
  {
    if n == 0 then 0 else EdgeBadInRows(s, image, n - 1) + EdgeBadInRow(s, image, n - 1, s.size)
  }

  /** Position (x, y) comes before position (x', y') when rows are read top to bottom. */
  predicate Before(x: int, y: int, x': int, y': int) {
    y < y' || (y == y' && x < x')
  }

  datatype Tally = Tally(bad: nat, fx: nat, fy: nat, edgeBad: nat, edgeBlended: nat)

  method CheckPixel(s: Setup, image: seq<seq<Pixel>>, x: nat, y: nat, t: Tally) returns (r: Tally)
    requires IsImage(s, image) && x < s.size && y < s.size && FirstWrong(s, image, x, y, t.bad, t.fx, t.fy)
    ensures FirstWrong(s, image, x + 1, y, r.bad, r.fx, r.fy)
    ensures r.bad == t.bad + (if WrongAt(s, image, x, y) then 1 else 0)
    ensures r.edgeBad == t.edgeBad + (if EdgeBadAt(s, image, x, y) then 1 else 0)
    ensures r.edgeBad + r.edgeBlended == t.edgeBad + t.edgeBlended + (if OnEdge(s, x, y) then 1 else 0)
  {
    var p := image[y][x];
    r := t;
    MatchesIff(s, p, x, y);
    if OnEdge(s, x, y) {
      ImplausibleIff(s, p, x, y);
      if Implausible(s, p, x, y) {
        r := r.(edgeBad := r.edgeBad + 1);
      } else {
        r := r.(edgeBlended := r.edgeBlended + 1);
      }
    } else if !Matches(s, p, x, y) {
      if r.bad == 0 {
        r := r.(fx := x, fy := y);
      }
      r := r.(bad := r.bad + 1);
    }
  }

  method CheckImage(s: Setup, image: seq<seq<Pixel>>) returns (t: Tally)
    requires IsImage(s, image)
    ensures t.bad == WrongInRows(s, image, s.size)
    ensures t.bad == 0 <==> AllRight(s, image)
    ensures t.bad > 0 ==> t.fx < s.size && t.fy < s.size && WrongAt(s, image, t.fx, t.fy)
    ensures t.bad > 0 ==>
      forall x, y :: 0 <= x < s.size && 0 <= y < s.size && Before(x, y, t.fx, t.fy) ==> !WrongAt(s, image, x, y)
    ensures t.edgeBad == EdgeBadInRows(s, image, s.size)
    ensures t.edgeBad + t.edgeBlended == EdgeInRows(s, s.size)
  {
    t := Tally(0, 0, 0, 0, 0);
    for y := 0 to s.size
      invariant t.bad == WrongInRows(s, image, y)
      invariant t.edgeBad == EdgeBadInRows(s, image, y) && t.edgeBad + t.edgeBlended == EdgeInRows(s, y)
      invariant FirstWrong(s, image, 0, y, t.bad, t.fx, t.fy)
    {
      for x := 0 to s.size
        invariant t.bad == WrongInRows(s, image, y) + WrongInRow(s, image, y, x)
        invariant t.edgeBad + t.edgeBlended == EdgeInRows(s, y) + EdgeInRow(s, y, x)
        invariant t.edgeBad == EdgeBadInRows(s, image, y) + EdgeBadInRow(s, image, y, x)
        invariant FirstWrong(s, image, x, y, t.bad, t.fx, t.fy)
      {
        t := CheckPixel(s, image, x, y, t);
      }
    }
    NoneWrong(s, image);
  }

  /** After everything before (x, y): nothing wrong yet, or (fx, fy) is the first. */
  ghost predicate FirstWrong(s: Setup, image: seq<seq<Pixel>>, x: int, y: int, bad: nat, fx: nat, fy: nat)
    requires IsImage(s, image)
  {
    && (bad == 0 ==> forall x', y' :: 0 <= x' < s.size && 0 <= y' < s.size && Before(x', y', x, y) ==> !WrongAt(s, image, x', y'))
    && (bad > 0 ==>
         && fx < s.size && fy < s.size && WrongAt(s, image, fx, fy)
         && forall x', y' :: 0 <= x' < s.size && 0 <= y' < s.size && Before(x', y', fx, fy) ==> !WrongAt(s, image, x', y'))
  }

  // ---------------------------------------------------------------- the batch loop

  /** After so many frames, all in full batches unless it is over. */
  predicate Batched(iters: int, batch: int, done: int, batches: seq<int>) {
    && 0 <= done <= iters && Frames(batches) == done
    && (done < iters ==> done == |batches| * batch && forall k :: 0 <= k < |batches| ==> batches[k] == batch)
    && (done == iters ==>
         && batches != [] && 1 <= batches[|batches| - 1] <= batch
         && done == (|batches| - 1) * batch + batches[|batches| - 1]
         && forall k :: 0 <= k < |batches| - 1 ==> batches[k] == batch)
  }

  lemma BatchedNext(iters: int, batch: int, done: int, batches: seq<int>, n: int)
    requires iters >= 1 && batch >= 1 && Batched(iters, batch, done, batches) && done < iters
    requires n == if iters - done > batch then batch else iters - done
    ensures Batched(iters, batch, done + n, batches + [n])
  {
    assert (batches + [n])[..|batches|] == batches;
    assert (|batches| + 1) * batch == |batches| * batch + batch;
  }

  /** Submit iters frames in batches of the requested size, which is taken to 1..iters:
      every frame is submitted exactly once, all batches but the last are full, and there
      are ceil(iters / batch) of them. */
  method SubmitBatches(iters: int, requested: int) returns (batch: int, done: int, batches: seq<int>)
    requires iters >= 1
    ensures 1 <= batch <= iters && (requested < batch ==> batch == 1) && (requested > batch ==> batch == iters)
    ensures done == iters == Frames(batches)
    ensures |batches| == (iters + batch - 1) / batch
    ensures forall k :: 0 <= k < |batches| - 1 ==> batches[k] == batch
    ensures 1 <= batches[|batches| - 1] <= batch
  {
    batch := requested;
    if batch < 1 {
      batch := 1;
    }
    if batch > iters {
      batch := iters;
    }
    done, batches := 0, [];
    while done < iters
      invariant Batched(iters, batch, done, batches)
    {
      var n := iters - done;
      if n > batch {
        n := batch;
      }
      BatchedNext(iters, batch, done, batches, n);
      batches := batches + [n];
      done := done + n;
    }
    BatchCount(iters, batch, |batches|, batches[|batches| - 1]);
  }

  function Frames(batches: seq<int>): int {
    if batches == [] then 0 else Frames(batches[..|batches| - 1]) + batches[|batches| - 1]
  }

  lemma DivUnique(n: int, d: int, q: int, r: int)
    requires d >= 1 && 0 <= r < d && n == q * d + r
    ensures n / d == q && n % d == r
  {
    var k := n / d - q;
    assert k * d == r - n % d;
    MultipleGrows(k, d);
  }

  lemma MultipleGrows(k: int, d: int)
    requires d >= 1
    ensures k >= 1 ==> k * d >= d
    ensures k <= -1 ==> k * d <= -d
  {
  }

  lemma BatchCount(iters: int, batch: int, count: int, last: int)
    requires 1 <= last <= batch && iters == (count - 1) * batch + last
    ensures (iters + batch - 1) / batch == count
  {
    assert iters + batch - 1 == count * batch + (last - 1);
    DivUnique(iters + batch - 1, batch, count, last - 1);
  }

  lemma QuotientIs(n: int, d: int, q: int)
    requires d >= 1
    ensures n as real / d as real == q as real <==> n == q * d
  {
    assert (q * d) as real == q as real * d as real;
    assert n as real / d as real == q as real <==> n as real == q as real * d as real;
  }

  /** ceil(iters / batch), by the remainder. */
  lemma CeilIs(iters: int, batch: int)
    requires iters >= 1 && 1 <= batch <= iters
    ensures (iters + batch - 1) / batch == iters / batch + (if iters % batch == 0 then 0 else 1)
  {
    var q, r := iters / batch, iters % batch;
    assert iters == q * batch + r;
    if r == 0 {
      DivUnique(iters + batch - 1, batch, q, batch - 1);
    } else {
      assert (q + 1) * batch == q * batch + batch;
      DivUnique(iters + batch - 1, batch, q + 1, r - 1);
    }
  }

  // (double)iters / batch
  function Quotient(iters: int, batch: int): real
    requires batch >= 1
  {
    iters as real / batch as real
  }

  /** The submit and wait times are divided by the unrounded quotient: they are averages
      over the submits only if the batch size divides the frames. */
  lemma AveragedOverSubmitsIff(iters: int, batch: int)
    requires iters >= 1 && 1 <= batch <= iters
    ensures Quotient(iters, batch) == ((iters + batch - 1) / batch) as real <==> iters % batch == 0
  {
    var q, r := iters / batch, iters % batch;
    assert iters == q * batch + r;
    assert (q + 1) * batch == q * batch + batch;
    CeilIs(iters, batch);
    QuotientIs(iters, batch, (iters + batch - 1) / batch);
  }

  /** printf's %.0f: to nearest, halves to even. */
  function Printed(x: real): int {
    var f := x.Floor;
    var rest := x - f as real;
    if rest < 0.5 then f else if rest > 0.5 then f + 1 else if f % 2 == 0 then f else f + 1
  }

  lemma QuotientParts(iters: int, batch: int)
    requires batch >= 1
    ensures Quotient(iters, batch).Floor == iters / batch
    ensures Quotient(iters, batch) - (iters / batch) as real == (iters % batch) as real / batch as real
  {
    var q, r := iters / batch, iters % batch;
    var d, f := batch as real, r as real / batch as real;
    assert iters as real == q as real * d + r as real;
    assert f * d == r as real;
    assert (q as real + f) * d == iters as real;
    assert Quotient(iters, batch) == q as real + f;
    assert 0.0 <= f < 1.0;
  }

  lemma TwiceAgainst(f: real, w: real, p: real)
    requires w > 0.0 && f * w == p
    ensures f < 0.5 <==> 2.0 * p < w
    ensures f > 0.5 <==> 2.0 * p > w
  {
    var g := 2.0 * f - 1.0;
    assert 2.0 * p - w == g * w;
    assert g < 0.0 ==> g * w < 0.0;
    assert g > 0.0 ==> g * w > 0.0;
  }

  /** The number of batches that is printed is the number submitted exactly when the last
      batch is full, or more than half full, or half full after an odd number of full ones. */
  lemma PrintedBatchesIff(iters: int, batch: int)
    requires iters >= 1 && 1 <= batch <= iters
    ensures Printed(Quotient(iters, batch)) == (iters + batch - 1) / batch <==>
      iters % batch == 0 || 2 * (iters % batch) > batch
        || (2 * (iters % batch) == batch && (iters / batch) % 2 == 1)
  {
    var q, r := iters / batch, iters % batch;
    var f := Quotient(iters, batch) - q as real;
    CeilIs(iters, batch);
    QuotientParts(iters, batch);
    assert f * batch as real == r as real;
    TwiceAgainst(f, batch as real, r as real);
  }

  /** Nine frames in batches of four: three are submitted, two are reported. */
  lemma OneBatchUnreported()
    ensures (9 + 4 - 1) / 4 == 3 && Printed(Quotient(9, 4)) == 2
  {
    QuotientParts(9, 4);
  }
}
