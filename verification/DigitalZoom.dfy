/** The digital-zoom arithmetic of `cam_get_DZ_cfg`, in 32-bit words. */
module DigitalZoom {

  const GAIN: nat := 100
  const WORDS: nat := 0x1_0000_0000

  datatype Scenario = Ic | Vr | OtherScenario

  /** The results: the size the reducer (cdrz) puts out, the window of it that the enlarger (curz)
      takes in, and the pixel at which the window begins. */
  datatype Zoom = Zoom(cdrzW: nat, cdrzH: nat, curzW: nat, curzH: nat, offset: nat)

  /** A value as an unsigned 32-bit word. */
  function Word(x: int): (w: nat)
    ensures w < WORDS && (0 <= x < WORDS ==> w == x)
  {
    x % WORDS
  }

  function Even(x: nat): (e: nat)
    ensures e % 2 == 0 && e <= x <= e + 1
  {
    x - x % 2
  }

  /** Unsigned division. */
  function Quotient(a: nat, b: nat): (q: nat)
    requires b != 0
  {
    a / b
  }

  function Product(a: nat, b: nat): nat { a * b }

  datatype Axis = Axis(cdrzO: nat, curzI: nat)

  /** One axis before it is made even: the reducer alone if it leaves enough for the output, and
      otherwise the enlarger on the whole input. */
  function Rounded(ratio: int, cdrzI: nat, curzO: nat): Axis
    requires Word(ratio) != 0
  {
    if Quotient(Word(cdrzI * GAIN), Word(ratio)) >= curzO
    then Axis(Quotient(Word(Word(Product(curzO, Word(ratio))) + GAIN / 2), GAIN), curzO)
    else Axis(cdrzI, Quotient(Word(Word(cdrzI * GAIN) + Word(ratio / 2)), Word(ratio)))
  }

  function Evened(a: Axis): Axis { Axis(Even(a.cdrzO), Even(a.curzI)) }

  /** Both axes made even, and the offset of the window. */
  function ZoomOf(ratio: int, cdrzIW: nat, cdrzIH: nat, curzOW: nat, curzOH: nat): Zoom
    requires Word(ratio) != 0
  {
    var w, h := Evened(Rounded(ratio, cdrzIW, curzOW)), Evened(Rounded(ratio, cdrzIH, curzOH));
    Zoom(w.cdrzO, h.cdrzO, w.curzI, h.curzI,
         Word(Product(w.cdrzO, Word(h.cdrzO - h.curzI) / 2) + Word(w.cdrzO - w.curzI) / 2))
  }

  /** The digital zoom. The reference parameters come in as `was` and are only written in the video
      scenario without tpipe. */
  method CamGetDZCfg(scenario: Scenario, tpipeEn: bool, zoomRatio: int,
                     cdrzIW: nat, cdrzIH: nat, curzOW: nat, curzOH: nat, was: Zoom) returns (ret: int, z: Zoom)
    requires -0x8000_0000 <= zoomRatio < 0x8000_0000
    requires scenario == Vr && !tpipeEn ==> zoomRatio != 0
    requires cdrzIW < WORDS && cdrzIH < WORDS && curzOW < WORDS && curzOH < WORDS
    ensures scenario != Vr || tpipeEn ==> z == was && ret == if scenario == Vr then 1 else 0
    ensures scenario == Vr && !tpipeEn ==>
              ret == 0 && Word(zoomRatio) != 0 && z == ZoomOf(zoomRatio, cdrzIW, cdrzIH, curzOW, curzOH)
    ensures scenario == Vr && !tpipeEn && GAIN <= zoomRatio && InRange(zoomRatio, cdrzIW, cdrzIH) ==>
              Good(z, zoomRatio, cdrzIW, cdrzIH, curzOW, curzOH)
    ensures scenario == Vr && !tpipeEn && InRange(zoomRatio, cdrzIW, cdrzIH) ==>
              AxisNear(z.cdrzW, z.curzW, zoomRatio, cdrzIW, curzOW)
              && AxisNear(z.cdrzH, z.curzH, zoomRatio, cdrzIH, curzOH)
  {
    hide Word, Quotient, Product, Even, Good, AxisNear;
    if InRange(zoomRatio, cdrzIW, cdrzIH) { ZoomNear(zoomRatio, cdrzIW, cdrzIH, curzOW, curzOH); }
    hide InRange;
    z := was;
    if scenario == Vr {
      if tpipeEn {
        return 1, z;
      }
      var cdrzW, cdrzH, curzW, curzH;
      var ratio := Word(zoomRatio);
      NonZero(zoomRatio);
      if Quotient(Word(cdrzIW * GAIN), ratio) >= curzOW {
        curzW := curzOW;
        cdrzW := Quotient(Word(Word(Product(curzW, ratio)) + GAIN / 2), GAIN);
      } else {
        cdrzW := cdrzIW;
        curzW := Quotient(Word(Word(cdrzW * GAIN) + Word(zoomRatio / 2)), ratio);
      }
      if Quotient(Word(cdrzIH * GAIN), ratio) >= curzOH {
        curzH := curzOH;
        cdrzH := Quotient(Word(Word(Product(curzH, ratio)) + GAIN / 2), GAIN);
      } else {
        cdrzH := cdrzIH;
        curzH := Quotient(Word(Word(cdrzH * GAIN) + Word(zoomRatio / 2)), ratio);
      }
      cdrzW, cdrzH, curzW, curzH := Even(cdrzW), Even(cdrzH), Even(curzW), Even(curzH);
      var y, x := Word(cdrzH - curzH) / 2, Word(cdrzW - curzW) / 2;
      z := Zoom(cdrzW, cdrzH, curzW, curzH, Word(Word(Product(cdrzW, y)) + x));
      AddWords(Product(cdrzW, y), x);
      if GAIN <= zoomRatio && InRange(zoomRatio, cdrzIW, cdrzIH) {
        ZoomGood(zoomRatio, cdrzIW, cdrzIH, curzOW, curzOH);
      }
    }
    ret := 0;
  }

  lemma NonZero(x: int)
    requires -0x8000_0000 <= x < 0x8000_0000 && x != 0
    ensures Word(x) != 0
  {
  }

  lemma AddWords(a: int, b: int)
    ensures Word(Word(a) + b) == Word(a + b)
  {
  }

  // ---- What the results mean

  /** Products that fit 32 bits, whatever the window asked for. */
  predicate InRange(ratio: int, cdrzIW: nat, cdrzIH: nat) {
    && 0 < ratio < 0x8000_0000
    && cdrzIW * GAIN + ratio < WORDS && cdrzIH * GAIN + ratio < WORDS
    && cdrzIW * cdrzIH < WORDS
  }

  /** The enlarger's window fits the reduced frame, which fits the input; the window fits the
      requested output too; the zoom is right to a pixel and a half. */
  predicate AxisGood(a: Axis, ratio: nat, cdrzI: nat, curzO: nat) {
    && a.cdrzO % 2 == 0 && a.curzI % 2 == 0
    && a.curzI <= a.cdrzO <= cdrzI && a.curzI <= curzO
    && (a.curzI == Even(curzO) || a.cdrzO == Even(cdrzI))
    && -3 * ratio <= 2 * (a.curzI * ratio - GAIN * a.cdrzO) <= 3 * ratio
  }

  /** The window begins exactly as far from the left as it ends from the right, and likewise
      vertically, and all its pixels lie in the frame. */
  ghost predicate Good(z: Zoom, ratio: nat, cdrzIW: nat, cdrzIH: nat, curzOW: nat, curzOH: nat) {
    && AxisGood(Axis(z.cdrzW, z.curzW), ratio, cdrzIW, curzOW)
    && AxisGood(Axis(z.cdrzH, z.curzH), ratio, cdrzIH, curzOH)
    && exists x: nat, y: nat ::
         && x + z.curzW + x == z.cdrzW && y + z.curzH + y == z.cdrzH
         && Pixel(z, y, x) == z.offset
  }

  /** Number of the pixel in column `x` of row `y`. */
  function Pixel(z: Zoom, y: nat, x: nat): nat { z.cdrzW * y + x }

  lemma Floor(a: nat, b: nat)
    requires b > 0
    ensures (a / b) * b <= a < (a / b) * b + b
  {
  }

  lemma Mono(a: nat, b: nat, c: nat)
    requires a <= b
    ensures a * c <= b * c && c * a <= c * b
  {
  }

  lemma Below(n: nat, b: nat, m: nat)
    requires b > 0 && n < m * b + b
    ensures n / b <= m
  {
    Floor(n, b);
    if n / b > m { Mono(m + 1, n / b, b); }
  }

  lemma EvenTimes(x: nat, ratio: nat)
    ensures Even(x) * ratio <= x * ratio <= Even(x) * ratio + ratio
  {
    var e := Even(x);
    assert x == e || x == e + 1;
    assert (e + 1) * ratio == e * ratio + ratio;
  }

  /** The reducer alone: its output is the zoomed request to within half a pixel, and evening both
      sizes moves the product by at most one zoomed pixel and one pixel. */
  lemma ReducedGood(ratio: nat, cdrzI: nat, curzO: nat)
    requires GAIN <= ratio && curzO * ratio <= cdrzI * GAIN
    ensures AxisGood(Evened(Axis((curzO * ratio + GAIN / 2) / GAIN, curzO)), ratio, cdrzI, curzO)
  {
    EvenTimes(curzO, ratio);
    Mono(GAIN, ratio, curzO);
  }

  /** The enlarger on the whole input. */
  lemma EnlargedGood(ratio: nat, cdrzI: nat, curzO: nat)
    requires GAIN <= ratio && cdrzI * GAIN < curzO * ratio
    ensures AxisGood(Evened(Axis(cdrzI, (cdrzI * GAIN + ratio / 2) / ratio)), ratio, cdrzI, curzO)
  {
    var c := (cdrzI * GAIN + ratio / 2) / ratio;
    Floor(cdrzI * GAIN + ratio / 2, ratio);
    Mono(GAIN, ratio, cdrzI);
    Below(cdrzI * GAIN + ratio / 2, ratio, cdrzI);
    Below(cdrzI * GAIN + ratio / 2, ratio, curzO);
    EvenTimes(c, ratio);
  }

  lemma Divided(a: nat, b: nat)
    requires b > 0
    ensures Quotient(a, b) == a / b
    ensures Quotient(a, b) * b <= a < Quotient(a, b) * b + b
  {
    Floor(a, b);
  }

  lemma ProductIs(a: nat, b: nat)
    ensures Product(a, b) == a * b
  {
  }

  lemma ReducedNearest(x: nat)
    ensures -100 < 2 * (100 * ((x + GAIN / 2) / GAIN) - x) <= 100
  {
  }

  lemma EnlargedNearest(n: nat, ratio: nat)
    requires ratio > 0
    ensures -1 * ratio <= 2 * (((n + ratio / 2) / ratio) * ratio - n) <= ratio
  {
    Floor(n + ratio / 2, ratio);
  }

  /** Which branch is taken: the reducer alone exactly if the zoomed request fits the input. */
  lemma BranchIs(ratio: nat, n: nat, curzO: nat)
    requires ratio > 0
    ensures Quotient(n, ratio) >= curzO <==> curzO * ratio <= n
  {
    var q := n / ratio;
    Floor(n, ratio);
    if q >= curzO {
      Mono(curzO, q, ratio);
    } else {
      Mono(q + 1, curzO, ratio);
      assert (q + 1) * ratio == q * ratio + ratio;
    }
  }

  lemma NoWrap(ratio: nat, cdrzI: nat, curzO: nat)
    requires 0 < ratio < 0x8000_0000 && cdrzI * GAIN + ratio < WORDS && curzO < WORDS
    ensures Word(ratio) == ratio
    ensures Rounded(ratio, cdrzI, curzO) ==
            if Product(curzO, ratio) <= cdrzI * GAIN
            then Axis(Quotient(Product(curzO, ratio) + GAIN / 2, GAIN), curzO)
            else Axis(cdrzI, Quotient(cdrzI * GAIN + ratio / 2, ratio))
  {
    BranchIs(ratio, cdrzI * GAIN, curzO);
    assert Product(curzO, ratio) == curzO * ratio by { ProductIs(curzO, ratio); }
    hide Product, Quotient;
    assert cdrzI * GAIN <= (WORDS / GAIN) * GAIN;
  }

  lemma RoundedIs(ratio: nat, cdrzI: nat, curzO: nat)
    requires 0 < ratio < 0x8000_0000 && cdrzI * GAIN + ratio < WORDS && curzO < WORDS
    ensures Word(ratio) != 0
    ensures Rounded(ratio, cdrzI, curzO) ==
            if curzO * ratio <= cdrzI * GAIN then Axis((curzO * ratio + GAIN / 2) / GAIN, curzO)
            else Axis(cdrzI, (cdrzI * GAIN + ratio / 2) / ratio)
  {
    NoWrap(ratio, cdrzI, curzO);
    hide Rounded, Word;
    ProductIs(curzO, ratio);
    Divided(curzO * ratio + GAIN / 2, GAIN);
    Divided(cdrzI * GAIN + ratio / 2, ratio);
    hide Product, Quotient;
  }

  /** Before evening each axis is nearest to the zoom, above one and below: where the zoomed request fits
      the input the window is as requested and the reduced size its zoom to the nearest pixel; where it does
      not the frame is the whole input and the window the nearest to it. */
  lemma AxisNearest(ratio: nat, cdrzI: nat, curzO: nat)
    requires 0 < ratio < 0x8000_0000 && cdrzI * GAIN + ratio < WORDS && curzO < WORDS
    ensures Word(ratio) != 0
    ensures var a := Rounded(ratio, cdrzI, curzO);
            if curzO * ratio <= cdrzI * GAIN
            then a.curzI == curzO && -100 < 2 * (100 * a.cdrzO - curzO * ratio) <= 100
            else a.cdrzO == cdrzI && -1 * ratio <= 2 * (a.curzI * ratio - 100 * cdrzI) <= ratio
  {
    RoundedIs(ratio, cdrzI, curzO);
    hide Rounded, Word;
    ReducedNearest(curzO * ratio);
    EnlargedNearest(cdrzI * GAIN, ratio);
  }

  /** An axis after evening, above a zoom of one and below. */
  predicate AxisNear(cdrzO: nat, curzI: nat, ratio: nat, cdrzI: nat, curzO: nat) {
    if curzO * ratio <= cdrzI * 100
    then curzI == curzO - curzO % 2 && cdrzO % 2 == 0 && -300 < 2 * (100 * cdrzO - curzO * ratio) <= 100
    else cdrzO == cdrzI - cdrzI % 2 && curzI % 2 == 0 && -3 * ratio <= 2 * (curzI * ratio - 100 * cdrzI) <= ratio
  }

  lemma EvenedNear(ratio: nat, cdrzI: nat, curzO: nat)
    requires 0 < ratio < 0x8000_0000 && cdrzI * GAIN + ratio < WORDS && curzO < WORDS
    ensures Word(ratio) != 0
    ensures var a := Evened(Rounded(ratio, cdrzI, curzO)); AxisNear(a.cdrzO, a.curzI, ratio, cdrzI, curzO)
  {
    AxisNearest(ratio, cdrzI, curzO);
    hide Rounded;
    EvenTimes(Rounded(ratio, cdrzI, curzO).curzI, ratio);
  }

  lemma ZoomNear(ratio: nat, cdrzIW: nat, cdrzIH: nat, curzOW: nat, curzOH: nat)
    requires InRange(ratio, cdrzIW, cdrzIH) && curzOW < WORDS && curzOH < WORDS
    ensures Word(ratio) != 0
    ensures var z := ZoomOf(ratio, cdrzIW, cdrzIH, curzOW, curzOH);
            && AxisNear(z.cdrzW, z.curzW, ratio, cdrzIW, curzOW)
            && AxisNear(z.cdrzH, z.curzH, ratio, cdrzIH, curzOH)
  {
    NonZero(ratio);
    hide Rounded, Evened, AxisNear, Word, Product;
    EvenedNear(ratio, cdrzIW, curzOW);
    EvenedNear(ratio, cdrzIH, curzOH);
  }

  lemma AxisIsGood(ratio: nat, cdrzI: nat, curzO: nat)
    requires GAIN <= ratio < 0x8000_0000 && cdrzI * GAIN + ratio < WORDS && curzO < WORDS
    ensures AxisGood(Evened(Rounded(ratio, cdrzI, curzO)), ratio, cdrzI, curzO)
  {
    RoundedIs(ratio, cdrzI, curzO);
    hide Evened, AxisGood, Rounded;
    if curzO * ratio <= cdrzI * GAIN { ReducedGood(ratio, cdrzI, curzO); } else { EnlargedGood(ratio, cdrzI, curzO); }
  }

  lemma ZoomGood(ratio: int, cdrzIW: nat, cdrzIH: nat, curzOW: nat, curzOH: nat)
    requires GAIN <= ratio && InRange(ratio, cdrzIW, cdrzIH) && curzOW < WORDS && curzOH < WORDS
    ensures Word(ratio) != 0
    ensures Good(ZoomOf(ratio, cdrzIW, cdrzIH, curzOW, curzOH), ratio, cdrzIW, cdrzIH, curzOW, curzOH)
  {
    NonZero(ratio);
    var z := ZoomOf(ratio, cdrzIW, cdrzIH, curzOW, curzOH);
    hide Evened, Rounded, Product, Quotient, Pixel, AxisGood;
    AxisIsGood(ratio, cdrzIW, curzOW);
    AxisIsGood(ratio, cdrzIH, curzOH);
    Halves(Axis(z.cdrzW, z.curzW), ratio, cdrzIW, curzOW);
    Halves(Axis(z.cdrzH, z.curzH), ratio, cdrzIH, curzOH);
    var x, y := (z.cdrzW - z.curzW) / 2, (z.cdrzH - z.curzH) / 2;
    Offset(z, cdrzIW, cdrzIH, x, y);
    assert Pixel(z, y, x) == z.offset;
  }

  lemma Halves(a: Axis, ratio: nat, cdrzI: nat, curzO: nat)
    requires AxisGood(a, ratio, cdrzI, curzO)
    ensures a.curzI <= a.cdrzO <= cdrzI && 2 * ((a.cdrzO - a.curzI) / 2) == a.cdrzO - a.curzI
  {
  }

  lemma Offset(z: Zoom, cdrzIW: nat, cdrzIH: nat, x: nat, y: nat)
    requires z.cdrzW <= cdrzIW && z.cdrzH <= cdrzIH && cdrzIW * cdrzIH < WORDS && cdrzIW < WORDS
    requires 2 * x <= z.cdrzW && 2 * y <= z.cdrzH
    ensures Pixel(z, y, x) == Product(z.cdrzW, y) + x < WORDS
  {
    Mono(2 * y, cdrzIH, z.cdrzW);
    Mono(z.cdrzW, cdrzIW, cdrzIH);
    assert z.cdrzW * (2 * y) == 2 * (z.cdrzW * y);
    if y == 0 { assert z.cdrzW * y == 0; } else { Mono(1, y, z.cdrzW); }
  }

  /** Every pixel of a good window is a pixel of the frame. */
  lemma WindowInside(z: Zoom, x: nat, y: nat, r: nat, c: nat)
    requires x + z.curzW + x == z.cdrzW && y + z.curzH + y == z.cdrzH && Pixel(z, y, x) == z.offset
    requires r < z.curzH && c < z.curzW
    ensures z.offset + Pixel(z, r, c) == Pixel(z, y + r, x + c) < z.cdrzW * z.cdrzH
    ensures x + c < z.cdrzW && y + r < z.cdrzH
  {
    assert z.cdrzW * (y + r) == z.cdrzW * y + z.cdrzW * r;
    Mono(y + r + 1, z.cdrzH, z.cdrzW);
    assert z.cdrzW * (y + r + 1) == z.cdrzW * (y + r) + z.cdrzW;
  }

  // ---- Zooms below one

  /** Below a zoom of one 1000 pixels are to be taken from a reduction to fewer. */
  lemma ShrinkingFails(ratio: nat)
    requires 0 < ratio < GAIN
    ensures Word(ratio) != 0
    ensures var a := Evened(Rounded(ratio, 1000, 1000)); a.cdrzO < a.curzI == 1000
  {
    NonZero(ratio);
    hide Quotient, Product;
    Divided(100000, ratio);
    Floor(100000, ratio);
    Mono(ratio, 99, 1000);
    if 100000 / ratio < 1000 { Mono(100000 / ratio, 999, ratio); }
    ProductIs(1000, ratio);
    Divided(1000 * ratio + GAIN / 2, GAIN);
  }

  ghost predicate FitsAlways(ratio: int)
    requires Word(ratio) != 0
  {
    forall cdrzI: nat, curzO: nat | cdrzI * GAIN + ratio < WORDS && curzO < WORDS ::
      var a := Evened(Rounded(ratio, cdrzI, curzO)); a.curzI <= a.cdrzO
  }

  ghost predicate GoodAlways(ratio: nat)
    requires Word(ratio) != 0
  {
    forall cdrzIW: nat, cdrzIH: nat, curzOW: nat, curzOH: nat |
      InRange(ratio, cdrzIW, cdrzIH) && curzOW < WORDS && curzOH < WORDS ::
      Good(ZoomOf(ratio, cdrzIW, cdrzIH, curzOW, curzOH), ratio, cdrzIW, cdrzIH, curzOW, curzOH)
  }

  /** On all sizes within 32 bits the window fits its frame exactly for a zoom of at least one, and
      exactly then the whole result is good. */
  lemma FitsExactly(ratio: int)
    requires 0 < ratio < 0x8000_0000
    ensures Word(ratio) != 0
    ensures FitsAlways(ratio) <==> ratio >= GAIN
    ensures GoodAlways(ratio) <==> ratio >= GAIN
  {
    NonZero(ratio);
    hide Rounded, Evened, ZoomOf, Good, AxisGood;
    if ratio >= GAIN {
      forall cdrzI: nat, curzO: nat | cdrzI * GAIN + ratio < WORDS && curzO < WORDS
        ensures var a := Evened(Rounded(ratio, cdrzI, curzO)); a.curzI <= a.cdrzO
      {
        AxisIsGood(ratio, cdrzI, curzO);
        Halves(Evened(Rounded(ratio, cdrzI, curzO)), ratio, cdrzI, curzO);
      }
      forall cdrzIW: nat, cdrzIH: nat, curzOW: nat, curzOH: nat |
        InRange(ratio, cdrzIW, cdrzIH) && curzOW < WORDS && curzOH < WORDS
        ensures Good(ZoomOf(ratio, cdrzIW, cdrzIH, curzOW, curzOH), ratio, cdrzIW, cdrzIH, curzOW, curzOH)
      {
        ZoomGood(ratio, cdrzIW, cdrzIH, curzOW, curzOH);
      }
    } else {
      ShrinkingFails(ratio);
      assert InRange(ratio, 1000, 1000);
      if GoodAlways(ratio) { GoodFits(ratio, 1000, 1000); }
    }
  }

  lemma GoodFits(ratio: nat, cdrzI: nat, curzO: nat)
    requires Word(ratio) != 0
    requires Good(ZoomOf(ratio, cdrzI, cdrzI, curzO, curzO), ratio, cdrzI, cdrzI, curzO, curzO)
    ensures var a := Evened(Rounded(ratio, cdrzI, curzO)); a.curzI <= a.cdrzO
  {
    hide Rounded, Evened;
  }
}
