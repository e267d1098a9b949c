/**
 * The coefficient normalisation of plot_z_plane: B is divided in place by
 * kn (from B) and then by kd (from A); A is only read. Floating-point
 * numbers are modelled as exact reals.
 */
module Normalization {

  import opened RealFacts

  /** The largest coefficient of a non-empty vector (np.max). */
  function MaxOf(s: seq<real>): (m: real)
    requires |s| > 0
    ensures m in s
    ensures forall i :: 0 <= i < |s| ==> s[i] <= m
  {
    if |s| == 1 then s[0]
    else
      var rest := MaxOf(s[1..]);
      if s[0] > rest then s[0] else rest
  }

  /**
   * The factor a coefficient vector contributes: its maximum when that
   * exceeds one, and one otherwise (kn for B, kd for A). The three
   * postconditions pin it down as the maximum of the vector and 1.
   */
  function Gain(s: seq<real>): (k: real)
    requires |s| > 0
    ensures k >= 1.0
    ensures forall i :: 0 <= i < |s| ==> s[i] <= k
    ensures k == 1.0 || k in s
  {
    var m := MaxOf(s);
    if m > 1.0 then m else 1.0
  }

  /** kn * kd: the whole factor the numerator ends up divided by. */
  function Scaling(b: seq<real>, a: seq<real>): (k: real)
    requires |b| > 0 && |a| > 0
    ensures k >= Gain(b) && k >= Gain(a)
  {
    ProductAtLeast(Gain(b), Gain(a));
    Gain(b) * Gain(a)
  }

  /** Element-wise division by a non-zero constant, as numpy's `s / k` computes it. */
  function Divided(s: seq<real>, k: real): (r: seq<real>)
    requires k != 0.0
    ensures |r| == |s|
    ensures forall i :: 0 <= i < |s| ==> r[i] == s[i] / k
  {
    seq(|s|, i requires 0 <= i < |s| => s[i] / k)
  }

  /** Dividing by one non-zero factor and then another is dividing by their product. */
  lemma DividedTwice(s: seq<real>, kn: real, kd: real)
    requires kn >= 1.0 && kd >= 1.0
    ensures forall i :: 0 <= i < |s| ==> Divided(Divided(s, kn), kd)[i] == s[i] / (kn * kd)
  {
    forall i | 0 <= i < |s| ensures Divided(Divided(s, kn), kd)[i] == s[i] / (kn * kd) {
      DivDiv(s[i], kn, kd);
    }
  }

  /** The numerator after `B /= kn` and then `B /= kd`, when A and B are distinct arrays. */
  function Normalized(b: seq<real>, a: seq<real>): (r: seq<real>)
    requires |b| > 0 && |a| > 0
    ensures |r| == |b|
    ensures forall i :: 0 <= i < |b| ==> r[i] == b[i] / Scaling(b, a)
  {
    var kn, kd := Gain(b), Gain(a);
    var k := Scaling(b, a);
    assert k == kn * kd;
    var r := Divided(Divided(b, kn), kd);
    DividedTwice(b, kn, kd);
    assert forall i :: 0 <= i < |b| ==> r[i] == b[i] / k;
    r
  }

  /** `a /= k` on a numpy array: every element divided in place. */
  method DivideInPlace(a: array<real>, k: real)
    requires k != 0.0
    modifies a
    ensures a[..] == Divided(old(a[..]), k)
  {
    var i := 0;
    while i < a.Length
      invariant 0 <= i <= a.Length
      invariant forall j :: 0 <= j < i ==> a[j] == old(a[j]) / k
      invariant forall j :: i <= j < a.Length ==> a[j] == old(a[j])
    {
      a[i] := a[i] / k;
      i := i + 1;
    }
  }

  /**
   * The normalisation block: kn from B, B divided by kn, then kd from A and
   * B divided by kd. A is only read. When the caller passes one array as
   * both A and B, kd is read from the already divided B. `np.max` of an
   * empty vector raises: `raised` reports that, and B keeps whatever the
   * divisions before the raise left in it (none for an empty B, the
   * division by kn for an empty A).
   */
  method NormalizeCoefficients(B: array<real>, A: array<real>) returns (raised: bool)
    modifies B
    ensures raised <==> B.Length == 0 || A.Length == 0
    ensures A != B ==> A[..] == old(A[..])
    ensures B.Length > 0 && A.Length == 0 ==> B[..] == Divided(old(B[..]), Gain(old(B[..])))
    ensures B.Length > 0 && A.Length > 0 && A != B ==> B[..] == Normalized(old(B[..]), old(A[..]))
    ensures B.Length > 0 && A == B ==>
              B[..] == Normalized(old(B[..]), Divided(old(B[..]), Gain(old(B[..]))))
  {
    if B.Length == 0 {
      return true;
    }
    var kn := Gain(B[..]);
    DivideInPlace(B, kn);
    if A.Length == 0 {
      return true;
    }
    var kd := Gain(A[..]);
    DivideInPlace(B, kd);
    raised := false;
  }

  /** The two divisions amount to one division by kn * kd. */
  lemma NormalizedIsDivided(b: seq<real>, a: seq<real>)
    requires |b| > 0 && |a| > 0
    ensures Normalized(b, a) == Divided(b, Scaling(b, a))
  {
  }

  /** Dividing by a positive constant divides the maximum by it. */
  lemma MaxOfDivided(s: seq<real>, k: real)
    requires |s| > 0 && k > 0.0
    ensures MaxOf(Divided(s, k)) == MaxOf(s) / k
  {
    var r := Divided(s, k);
    var m := MaxOf(s);
    var j :| 0 <= j < |s| && s[j] == m;
    assert r[j] == m / k;
    var mr := MaxOf(r);
    var i :| 0 <= i < |r| && r[i] == mr;
    DivMono(s[i], m, k);
    assert r[j] <= mr;
  }

  /** The normalised numerator's largest coefficient is max(B) / (kn * kd), which is at most one. */
  lemma NormalizedPeak(b: seq<real>, a: seq<real>)
    requires |b| > 0 && |a| > 0
    ensures MaxOf(Normalized(b, a)) == MaxOf(b) / Scaling(b, a)
    ensures MaxOf(Normalized(b, a)) <= 1.0
  {
    var k := Scaling(b, a);
    NormalizedIsDivided(b, a);
    MaxOfDivided(b, k);
    DivAtMostOne(MaxOf(b), k);
  }

  /**
   * Normalisation leaves B as it is exactly when neither division changes
   * it: max(B) <= 1, and either max(A) <= 1 or B is all zeros.
   */
  lemma NormalizedUnchanged(b: seq<real>, a: seq<real>)
    requires |b| > 0 && |a| > 0
    ensures Normalized(b, a) == b <==>
              MaxOf(b) <= 1.0 && (MaxOf(a) <= 1.0 || forall i :: 0 <= i < |b| ==> b[i] == 0.0)
  {
    var r := Normalized(b, a);
    if MaxOf(b) > 1.0 {
      var j :| 0 <= j < |b| && b[j] == MaxOf(b);
      NormalizedPeak(b, a);
      assert r[j] <= 1.0 < b[j];
    } else {
      var kd := Gain(a);
      assert Scaling(b, a) == kd;
      forall i | 0 <= i < |b| ensures r[i] == b[i] <==> kd == 1.0 || b[i] == 0.0 {
        DivFixed(b[i], kd);
      }
    }
  }

  /**
   * When one array is passed as both A and B, kd is always one, so B ends
   * up divided by its own factor only.
   */
  lemma SelfNormalized(b: seq<real>)
    requires |b| > 0
    ensures Gain(Divided(b, Gain(b))) == 1.0
    ensures Normalized(b, Divided(b, Gain(b))) == Divided(b, Gain(b))
  {
    var kn := Gain(b);
    var once := Divided(b, kn);
    MaxOfDivided(b, kn);
    DivAtMostOne(MaxOf(b), kn);
    assert Gain(once) == 1.0;
    assert Scaling(b, once) == kn;
  }

  /** The worked example: B = [4, 2], A = [1, 0.5] gives kn = 4, kd = 1 and B = [1, 0.5]. */
  lemma NormalizedExample()
    ensures Normalized([4.0, 2.0], [1.0, 0.5]) == [1.0, 0.5]
  {
    assert MaxOf([4.0, 2.0]) == 4.0 by {
      assert [4.0, 2.0][1..] == [2.0];
    }
    assert MaxOf([1.0, 0.5]) == 1.0 by {
      assert [1.0, 0.5][1..] == [0.5];
    }
    assert Scaling([4.0, 2.0], [1.0, 0.5]) == 4.0;
  }

  // ---------------------------------------------------------------------------
  // The zeros of B(z) are not moved by normalisation
  // ---------------------------------------------------------------------------

  datatype Complex = Complex(re: real, im: real)

  const Zero := Complex(0.0, 0.0)

  function Add(x: Complex, y: Complex): Complex {
    Complex(x.re + y.re, x.im + y.im)
  }

  function Mul(x: Complex, y: Complex): Complex {
    Complex(x.re * y.re - x.im * y.im, x.re * y.im + x.im * y.re)
  }

  function Scale(x: Complex, k: real): Complex {
    Complex(k * x.re, k * x.im)
  }

  /** Scaling by a non-zero factor maps zero, and only zero, to zero. */
  lemma ScaledZero(x: Complex, k: real)
    requires k != 0.0
    ensures Scale(x, k) == Zero <==> x == Zero
  {
    MulZero(k, x.re);
    MulZero(k, x.im);
  }

  /** The polynomial with coefficients c, highest power first, at the point z (Horner's rule). */
  function Eval(c: seq<real>, z: Complex): Complex {
    if |c| == 0 then Zero
    else Add(Mul(Eval(c[..|c| - 1], z), z), Complex(c[|c| - 1], 0.0))
  }

  /** One step of Horner's rule commutes with scaling by k. */
  lemma HornerStep(q: Complex, p: Complex, z: Complex, dn: real, cn: real, k: real)
    requires Scale(q, k) == p && k * dn == cn
    ensures Scale(Add(Mul(q, z), Complex(dn, 0.0)), k) == Add(Mul(p, z), Complex(cn, 0.0))
  {
    HornerStepScaled(q.re, q.im, p.re, p.im, z.re, z.im, dn, cn, k);
  }

  /** Dividing every coefficient by k divides the polynomial's value everywhere by k. */
  lemma {:induction false} EvalDivided(c: seq<real>, k: real, z: Complex)
    requires k != 0.0
    ensures Scale(Eval(Divided(c, k), z), k) == Eval(c, z)
  {
    if |c| > 0 {
      var n := |c| - 1;
      var d := Divided(c, k);
      assert d[..n] == Divided(c[..n], k);
      EvalDivided(c[..n], k, z);
      var p := Eval(c[..n], z);
      var q := Eval(d[..n], z);
      DivTimes(c[n], k);
      HornerStep(q, p, z, d[n], c[n], k);
    }
  }

  /** z is a zero of the normalised numerator exactly when it is a zero of B. */
  lemma NormalizationKeepsZeros(b: seq<real>, a: seq<real>, z: Complex)
    requires |b| > 0 && |a| > 0
    ensures Eval(Normalized(b, a), z) == Zero <==> Eval(b, z) == Zero
  {
    var k := Scaling(b, a);
    NormalizedIsDivided(b, a);
    EvalDivided(b, k, z);
    ScaledZero(Eval(Normalized(b, a), z), k);
  }
}
