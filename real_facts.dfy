/** Small facts about real multiplication and division, each proved in isolation. */
module RealFacts {

  lemma PosProduct(a: real, b: real)
    requires a > 0.0 && b > 0.0
    ensures a * b > 0.0
  {
  }

  lemma Sign(a: real, k: real)
    requires k > 0.0 && a * k > 0.0
    ensures a > 0.0
  {
  }

  lemma MulToDiv(x: real, y: real, k: real)
    requires k != 0.0 && x * k == y
    ensures x == y / k
  {
    assert (y / k) * k == y;
    assert (x - y / k) * k == 0.0;
  }

  lemma DivMono(x: real, y: real, k: real)
    requires k > 0.0 && x <= y
    ensures x / k <= y / k
  {
    assert (y / k - x / k) * k == y - x;
  }

  lemma DivAtMostOne(x: real, k: real)
    requires k > 0.0 && x <= k
    ensures x / k <= 1.0
  {
    DivMono(x, k, k);
  }

  lemma ProductAtLeast(kn: real, kd: real)
    requires kn >= 1.0 && kd >= 1.0
    ensures kn * kd >= kn && kn * kd >= kd
  {
    assert (kd - 1.0) * kn >= 0.0;
    assert (kn - 1.0) * kd >= 0.0;
  }

  lemma MulZero(k: real, x: real)
    requires k != 0.0
    ensures k * x == 0.0 <==> x == 0.0
  {
  }

  lemma DivTimes(c: real, k: real)
    requires k != 0.0
    ensures k * (c / k) == c
  {
  }

  /** One step of Horner's rule commutes with scaling by k. */
  lemma HornerStepScaled(qre: real, qim: real, pre: real, pim: real, zre: real, zim: real,
                         d: real, c: real, k: real)
    requires k * qre == pre && k * qim == pim && k * d == c
    ensures k * (qre * zre - qim * zim + d) == pre * zre - pim * zim + c
    ensures k * (qre * zim + qim * zre) == pre * zim + pim * zre
  {
    assert k * (qre * zre) == pre * zre;
    assert k * (qim * zim) == pim * zim;
    assert k * (qre * zim) == pre * zim;
    assert k * (qim * zre) == pim * zre;
  }

  lemma DivDiv(x: real, kn: real, kd: real)
    requires kn != 0.0 && kd != 0.0
    ensures x / kn / kd == x / (kn * kd)
  {
    MulToDiv(x / kn / kd, x, kn * kd);
  }

  lemma DivShrinks(x: real, k: real)
    requires k > 1.0 && x > 0.0
    ensures x / k < x
  {
    assert (x - x / k) * k == x * (k - 1.0);
    PosProduct(x, k - 1.0);
    Sign(x - x / k, k);
  }

  lemma DivRaises(x: real, k: real)
    requires k > 1.0 && x < 0.0
    ensures x / k > x
  {
    assert (x / k - x) * k == -x * (k - 1.0);
    PosProduct(-x, k - 1.0);
    Sign(x / k - x, k);
  }

  /** Dividing x by k >= 1 leaves it unchanged exactly when k is one or x is zero. */
  lemma DivFixed(x: real, k: real)
    requires k >= 1.0
    ensures x / k == x <==> k == 1.0 || x == 0.0
  {
    if k == 1.0 {
      assert x / k == x;
    } else if x == 0.0 {
      assert x / k == 0.0;
    } else if x > 0.0 {
      DivShrinks(x, k);
    } else {
      DivRaises(x, k);
    }
  }
}
