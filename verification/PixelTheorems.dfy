/** Why the readback check means something: the pattern is exact, and unlike its shifts. */
module PixelTheorems {
  import opened PageFlip
  import opened PageFlipInvariant
  import opened Oracle
  import opened Pixels

  // ---------------------------------------------------------------- period and injectivity

  /** The offsets that change what the format stores: one channel sees only x, and with
      depth clamp off the whole target is the clear colour. */
  predicate ShiftShows(s: Setup, dx: int, dy: int) {
    match s.format
    case R8 => dx % 64 != 0
    case R16 => dx % 64 != 0
    case RG16 => dx % 64 != 0 || dy % 64 != 0
    case RGBA8 => s.depthClamp != 0 && (dx % 64 != 0 || dy % 64 != 0)
  }

  /** A shifted image is right everywhere or wrong everywhere, and with two ramps it is
      right only for shifts that are multiples of 64 on both axes. */
  lemma ShiftIff(s: Setup, dx: int, dy: int, x: int, y: int)
    ensures Matches(s, Want(s, x + dx, y + dy), x, y) <==> !ShiftShows(s, dx, dy)
    ensures Right(s, Want(s, x + dx, y + dy), x, y) <==> !ShiftShows(s, dx, dy)
  {
    Ramp(x + dx, x);
    Ramp(y + dy, y);
    SameResidue(x, dx);
    SameResidue(y, dy);
    MatchesIff(s, Want(s, x + dx, y + dy), x, y);
  }

  lemma SameResidue(x: int, d: int)
    ensures (x + d) % 64 == x % 64 <==> d % 64 == 0
  {
    var q := x / 64;
    assert x + d == 64 * q + (x % 64 + d);
  }

  lemma MirrorResidue(height: int, y: int)
    requires height % 2 == 0
    ensures (height - 1 - y) % 64 != y % 64
  {
    var q, q' := (height - 1 - y) / 64, y / 64;
    assert height - 1 - y == 64 * q + (height - 1 - y) % 64 && y == 64 * q' + y % 64;
  }

  /** Row y of the upside-down image happens to be right. */
  predicate MirrorRight(height: int, y: int) {
    ExpectR(height - 1 - y) == ExpectR(y)
  }

  lemma MirrorDiffers(height: int, y: int)
    requires height % 2 == 0
    ensures !MirrorRight(height, y)
  {
    MirrorResidue(height, y);
    Ramp(height - 1 - y, y);
  }

  /** An upside-down image of even height is wrong at every pixel; of odd height it is
      right in the middle row. */
  lemma FlipIff(height: int)
    requires height >= 1
    ensures (forall y :: 0 <= y < height ==> !MirrorRight(height, y)) <==> height % 2 == 0
  {
    if height % 2 == 0 {
      forall y | 0 <= y < height ensures !MirrorRight(height, y) {
        MirrorDiffers(height, y);
      }
    } else {
      var y := height / 2;
      assert 0 <= y < height && height - 1 - y == y;
      assert MirrorRight(height, y);
    }
  }

  // ---------------------------------------------------------------- whole images

  /** Where the check compares exactly, pixel (x, y) holds what belongs at (x + dx, y + dy). */
  ghost predicate IsShift(s: Setup, image: seq<seq<Pixel>>, dx: int, dy: int)
    requires IsImage(s, image)
  {
    forall x, y :: 0 <= x < s.size && 0 <= y < s.size && !OnEdge(s, x, y) ==> image[y][x] == Want(s, x + dx, y + dy)
  }

  lemma {:induction false} AllOrNoneInRow(s: Setup, image: seq<seq<Pixel>>, all: bool, y: nat, n: nat)
    requires IsImage(s, image) && y < s.size && n <= s.size
    requires forall x :: 0 <= x < s.size ==> (WrongAt(s, image, x, y) <==> all && !OnEdge(s, x, y))
    ensures WrongInRow(s, image, y, n) == if all then n - EdgeInRow(s, y, n) else 0
  {
    if n > 0 {
      AllOrNoneInRow(s, image, all, y, n - 1);
    }
  }

  /** If all the pixels compared exactly are wrong, or none, so says the count. */
  lemma {:induction false} AllOrNone(s: Setup, image: seq<seq<Pixel>>, all: bool, rows: nat)
    requires IsImage(s, image) && rows <= s.size
    requires forall x, y :: 0 <= x < s.size && 0 <= y < s.size ==> (WrongAt(s, image, x, y) <==> all && !OnEdge(s, x, y))
    ensures WrongInRows(s, image, rows) == if all then rows * s.size - EdgeInRows(s, rows) else 0
  {
    if rows > 0 {
      AllOrNone(s, image, all, rows - 1);
      AllOrNoneInRow(s, image, all, rows - 1, s.size);
      assert rows * s.size == (rows - 1) * s.size + s.size;
    }
  }

  /** So in every format the check passes a shifted image only if the shift cannot be seen
      in that format, and otherwise reports every pixel that it compares exactly. */
  method CheckShifted(s: Setup, image: seq<seq<Pixel>>, dx: int, dy: int) returns (bad: nat)
    requires IsImage(s, image) && IsShift(s, image, dx, dy)
    ensures bad == if ShiftShows(s, dx, dy) then s.size * s.size - EdgeInRows(s, s.size) else 0
  {
    var tally := CheckImage(s, image);
    bad := tally.bad;
    forall x, y | 0 <= x < s.size && 0 <= y < s.size
      ensures WrongAt(s, image, x, y) <==> ShiftShows(s, dx, dy) && !OnEdge(s, x, y)
    {
      ShiftIff(s, dx, dy, x, y);
      MatchesIff(s, image[y][x], x, y);
    }
    AllOrNone(s, image, ShiftShows(s, dx, dy), s.size);
  }

  // ---------------------------------------------------------------- multisampling

  lemma {:induction false} SameCounts(s: Setup, image: seq<seq<Pixel>>, other: seq<seq<Pixel>>, y: nat, n: nat)
    requires IsImage(s, image) && IsImage(s, other) && y < s.size && n <= s.size
    requires forall x :: 0 <= x < s.size ==> WrongAt(s, image, x, y) == WrongAt(s, other, x, y)
    ensures WrongInRow(s, image, y, n) == WrongInRow(s, other, y, n)
  {
    if n > 0 {
      SameCounts(s, image, other, y, n - 1);
    }
  }

  /** With more than one sample the verdict sees only the pixels with x + y < size - 3:
      images that agree there get the same count, whatever the others hold. */
  lemma {:induction false} MultisampledVerdict(s: Setup, image: seq<seq<Pixel>>, other: seq<seq<Pixel>>, rows: nat)
    requires IsImage(s, image) && IsImage(s, other) && rows <= s.size && s.format == RGBA8 && s.samples > 1
    requires forall x, y :: 0 <= x < s.size && 0 <= y < s.size && x + y < s.size - 3 ==> image[y][x] == other[y][x]
    ensures WrongInRows(s, image, rows) == WrongInRows(s, other, rows)
  {
    if rows > 0 {
      MultisampledVerdict(s, image, other, rows - 1);
      SameCounts(s, image, other, rows - 1, s.size);
    }
  }

  /** The images agree but for one pixel. */
  ghost predicate OnlyDiffer(s: Setup, image: seq<seq<Pixel>>, other: seq<seq<Pixel>>, x: nat, y: nat)
    requires IsImage(s, image) && IsImage(s, other)
  {
    forall x', y' :: 0 <= x' < s.size && 0 <= y' < s.size && (x' != x || y' != y) ==> image[y'][x'] == other[y'][x']
  }

  lemma {:induction false} OneMoreInRow(s: Setup, image: seq<seq<Pixel>>, other: seq<seq<Pixel>>, x: nat, y: nat, n: nat)
    requires IsImage(s, image) && IsImage(s, other) && x < s.size && y < s.size && n <= s.size
    requires OnlyDiffer(s, image, other, x, y) && !WrongAt(s, image, x, y) && WrongAt(s, other, x, y)
    ensures WrongInRow(s, other, y, n) == WrongInRow(s, image, y, n) + if x < n then 1 else 0
  {
    if n > 0 {
      OneMoreInRow(s, image, other, x, y, n - 1);
    }
  }

  lemma {:induction false} OneMoreInRows(s: Setup, image: seq<seq<Pixel>>, other: seq<seq<Pixel>>, x: nat, y: nat, rows: nat)
    requires IsImage(s, image) && IsImage(s, other) && x < s.size && y < s.size && rows <= s.size
    requires OnlyDiffer(s, image, other, x, y) && !WrongAt(s, image, x, y) && WrongAt(s, other, x, y)
    ensures WrongInRows(s, other, rows) == WrongInRows(s, image, rows) + if y < rows then 1 else 0
  {
    if rows > 0 {
      OneMoreInRows(s, image, other, x, y, rows - 1);
      if rows - 1 == y {
        OneMoreInRow(s, image, other, x, y, s.size);
      } else {
        SameCounts(s, image, other, rows - 1, s.size);
      }
    }
  }

  /** Spoiling one right pixel is counted exactly when it is one that is compared exactly:
      with more than one sample, one with x + y < size - 3. */
  lemma SpoiledIsCountedIff(s: Setup, image: seq<seq<Pixel>>, other: seq<seq<Pixel>>, x: nat, y: nat)
    requires IsImage(s, image) && IsImage(s, other) && x < s.size && y < s.size && OnlyDiffer(s, image, other, x, y)
    requires Right(s, image[y][x], x, y) && !Right(s, other[y][x], x, y)
    ensures WrongInRows(s, other, s.size) == WrongInRows(s, image, s.size) + if OnEdge(s, x, y) then 0 else 1
  {
    if OnEdge(s, x, y) {
      NothingCounted(s, image, other, s.size);
    } else {
      OneMoreInRows(s, image, other, x, y, s.size);
    }
  }

  lemma {:induction false} NothingCounted(s: Setup, image: seq<seq<Pixel>>, other: seq<seq<Pixel>>, rows: nat)
    requires IsImage(s, image) && IsImage(s, other) && rows <= s.size
    requires forall x, y :: 0 <= x < s.size && 0 <= y < s.size ==> WrongAt(s, image, x, y) == WrongAt(s, other, x, y)
    ensures WrongInRows(s, image, rows) == WrongInRows(s, other, rows)
  {
    if rows > 0 {
      NothingCounted(s, image, other, rows - 1);
      SameCounts(s, image, other, rows - 1, s.size);
    }
  }

  predicate Multisampled(s: Setup) {
    s.format == RGBA8 && s.samples > 1
  }

  /** In row y the pixels from size - 3 - y on are left to the blend check. */
  lemma {:induction false} EdgeOfRow(s: Setup, y: nat, n: nat)
    requires Multisampled(s) && y < s.size && n <= s.size
    ensures EdgeInRow(s, y, n) == if n <= s.size - 3 - y then 0 else if y <= s.size - 3 then n - (s.size - 3 - y) else n
  {
    if n > 0 {
      EdgeOfRow(s, y, n - 1);
    }
  }

  function Triangle(k: int): nat {
    if k <= 0 then 0 else Triangle(k - 1) + k
  }

  lemma {:induction false} TriangleIs(k: nat)
    ensures 2 * Triangle(k) == k * (k + 1)
  {
    if k > 0 {
      TriangleIs(k - 1);
    }
  }

  lemma {:induction false} EdgeOfRows(s: Setup, n: nat)
    requires Multisampled(s) && n <= s.size
    ensures EdgeInRows(s, n) + Triangle(s.size - 3) - Triangle(s.size - 3 - n) == n * s.size
  {
    if n > 0 {
      EdgeOfRows(s, n - 1);
      EdgeOfRow(s, n - 1, s.size);
      assert n * s.size == (n - 1) * s.size + s.size;
    }
  }

  /** The pixels compared exactly are the (size - 3)(size - 2) / 2 above the edge, and so
      never more than half of the image. */
  lemma HalfLeftOut(s: Setup)
    requires Multisampled(s)
    ensures 2 * (s.size * s.size - EdgeInRows(s, s.size)) == if s.size >= 3 then (s.size - 3) * (s.size - 2) else 0
    ensures 2 * EdgeInRows(s, s.size) >= s.size * s.size
  {
    EdgeOfRows(s, s.size);
    if s.size >= 3 {
      TriangleIs(s.size - 3);
      assert (s.size - 3) * (s.size - 2) == s.size * s.size - 5 * s.size + 6;
    }
  }

  // ---------------------------------------------------------------- phase

  /** A whole-pixel phase is a shift. */
  lemma PhaseIsShift(x: int, phase: int)
    ensures ExpectPhase(x, phase as real) == ExpectR(x + phase)
  {
    assert x as real + 0.5 + phase as real == (x + phase) as real + 0.5 + 0.0;
  }

  lemma PhaseOfFrame(cfg: Config, moves: seq<Move>)
    requires cfg.Valid()
    ensures Exec(cfg, moves).phase == 4 * (Exec(cfg, moves).frame % 16)
  {
    ExecInv(cfg, moves);
    PhaseResidue(Exec(cfg, moves).frame);
  }

  lemma PhaseResidue(f: nat)
    ensures 4 * f % 64 == 4 * (f % 16)
  {
    DivUnique(4 * f, 64, f / 16, 4 * (f % 16));
  }

  lemma WithinPeriod(x: int, a: int, b: int)
    requires 0 <= a < 64 && 0 <= b < 64
    ensures (x + a) % 64 == (x + b) % 64 <==> a == b
  {
    var q, q' := (x + a) / 64, (x + b) / 64;
    assert x + a == 64 * q + (x + a) % 64 && x + b == 64 * q' + (x + b) % 64;
  }

  lemma PhasesLookAlike(x: int, a: int, b: int)
    requires 0 <= a < 64 && 0 <= b < 64
    ensures ExpectPhase(x, a as real) == ExpectPhase(x, b as real) <==> a == b
  {
    PhaseIsShift(x, a);
    PhaseIsShift(x, b);
    Ramp(x + a, x + b);
    WithinPeriod(x, a, b);
  }

  /** Two frames of the animation show the same row exactly when their numbers differ by a
      multiple of 16; otherwise they differ at every pixel of it. */
  lemma FramesLookAlike(cfg: Config, moves: seq<Move>, cfg': Config, moves': seq<Move>, x: int)
    requires cfg.Valid() && cfg'.Valid()
    ensures var s, s' := Exec(cfg, moves), Exec(cfg', moves');
      ExpectPhase(x, s.phase as real) == ExpectPhase(x, s'.phase as real) <==> s.frame % 16 == s'.frame % 16
  {
    PhaseOfFrame(cfg, moves);
    PhaseOfFrame(cfg', moves');
    PhasesLookAlike(x, Exec(cfg, moves).phase, Exec(cfg', moves').phase);
  }
}
