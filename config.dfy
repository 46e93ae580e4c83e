/** The window-size check every filter performs before touching the image,
    and the arithmetic facts about `window` the rest of the model relies on. */
module WindowConfig {

  /** Java's `/` on `int`: the quotient is rounded toward zero. */
  function JavaDiv(a: int, b: int): int
    requires b > 0
  {
    if a >= 0 then a / b else -((-a) / b)
  }

  /** Java's `%`: the remainder takes the sign of the dividend, and together
      with the truncated quotient it gives back the dividend,
      `(a / b) * b + a % b == a`. */
  function JavaRem(a: int, b: int): (r: int)
    requires b > 0
    ensures a >= 0 ==> 0 <= r < b
    ensures a < 0 ==> -b < r <= 0
    ensures JavaDiv(a, b) * b + r == a
  {
    if a >= 0 then a % b else -((-a) % b)
  }

  /** A negative odd dividend leaves remainder `-1`, where Dafny's `%` gives `1`. */
  lemma JavaRemSamples()
    ensures JavaRem(-3, 2) == -1 && -3 % 2 == 1
    ensures JavaRem(3, 2) == 1 && JavaRem(-4, 2) == 0
  {
  }

  /** `!((window < 1) || (window % 2 == 0))` with Java's remainder. */
  predicate ValidWindow(window: int)
  {
    !(window < 1 || JavaRem(window, 2) == 0)
  }

  /** `(int)Math.floor(window/2)`: the offset of the centre cell. */
  function Middle(window: int): int
    requires window >= 1
  {
    window / 2
  }

  /** The channel totals of the mean filter, at most `255 * window * window`,
      fit into a Java `int`. */
  predicate TotalsFit(window: int)
  {
    window * window * 255 <= 0x7FFF_FFFF
  }

  /** A window is accepted exactly when it is a positive odd number. */
  lemma ValidWindowIsPositiveOdd(window: int)
    ensures ValidWindow(window) <==> window >= 1 && window % 2 == 1
  {
  }

  /** The configurations that must be refused before any pixel is read. */
  lemma RejectedWindows()
    ensures !ValidWindow(0) && !ValidWindow(-3) && !ValidWindow(4)
    ensures ValidWindow(1) && ValidWindow(3)
  {
  }

  /** For an accepted window the centre cell has `Middle` cells on each side,
      and a window holds an odd number of cells, `2 * (n*n / 2) + 1`, so the
      sorted index `n*n / 2` is the true median. */
  lemma ValidWindowCentred(window: int)
    requires ValidWindow(window)
    ensures Middle(window) == window - 1 - Middle(window)
    ensures window * window == 2 * (window * window / 2) + 1
  {
    var m := window / 2;
    assert window == 2 * m + 1;
    calc {
      window * window;
      (2 * m + 1) * (2 * m + 1);
      2 * (2 * m * m + 2 * m) + 1;
    }
  }

  /** The largest accepted window whose totals still fit into an `int`. */
  lemma TotalsFitBound(window: int)
    requires ValidWindow(window)
    ensures TotalsFit(window) <==> window <= 2901
  {
    if window <= 2901 {
      MulMonotone(window, 2901);
    } else {
      assert window >= 2903;
      MulMonotone(2903, window);
    }
  }

  lemma MulMonotone(x: int, y: int)
    requires 0 <= x <= y
    ensures x * x <= y * y
  {
    assert x * x <= x * y <= y * y;
  }
}
