# plot_z_plane — the arithmetic behind the pole-zero plot

`plot_z_plane(B, A, plot_title, scaling_factor)` draws the zeros and poles of
the discrete-time transfer function B(z)/A(z) on the complex plane. It adds
the unit circle, dotted guide lines through the origin and a half-unit tick
grid. Almost all of it is calls into the plotting library. This project
models the three pieces that are plain arithmetic, with floats treated as
exact reals:

- **Coefficient normalisation** (module `Normalization`, `normalization.dfy`).
  `kn` is `max(B)` when that exceeds 1 and 1 otherwise, and `B` is divided in
  place by `kn`. Then `kd` is taken the same way from `max(A)`, and `B` (not
  `A`) is divided in place by `kd`. The model keeps this asymmetry as written.
  It also covers the case where the caller passes one array as both `A` and
  `B`. Then `kd` is read from the already divided `B`, so it is always 1
  (`SelfNormalized`). Both divisions scale `B` by one positive constant, so
  the zeros of B(z) stay where they are (`NormalizationKeepsZeros`). That
  holds at every complex point, with B(z) evaluated by Horner's rule.
- **Guide lines** (module `Axes`, `axes.dfy`). The horizontal and the
  vertical dotted line both span `[-(sf + 2), sf + 2]`, where `sf` is the
  scaling factor before truncation.
- **Ticks** (module `Axes`). `s = int(sf)` truncates toward zero. The ticks
  are `arange(-1 - s, 0, 0.5) ++ [0, 0.5] ++ arange(1, 1.5 + s, 0.5)`, and
  `arange` here follows numpy's rule: `ceil((stop - start) / step)` values,
  stop excluded. For `sf > -1` (so `s >= 0`) this is the run of half steps
  from `-(1 + s)` to `1 + s`, with `4s + 5` values. For `sf <= -1` only `0`
  and `0.5` are left.

Tick lists: because the stop value of `arange` is excluded, `1.5 + s` is
never a tick. With `scaling_factor = 0` the ticks are
`[-1, -0.5, 0, 0.5, 1]`, and with `scaling_factor = 1` they are the nine
half steps `[-2, -1.5, ..., 2]` (`TicksAtZero`, `TicksAtOne`).

Empty vectors: `np.max` of an empty array raises (lines 73 and 77).
`NormalizeCoefficients` reports this through its `raised` result. An empty
`B` raises before anything is written. An empty `A` raises only after
`B /= kn`, so `B` is left divided by `kn` alone. `MaxOf` and `Gain` are
defined on non-empty vectors only, and the method calls them only there.

`real_facts.dfy` (module `RealFacts`) holds small lemmas about real
multiplication and division that the proofs use. It models nothing in the
source.

## Model

| member | source | states |
|---|---|---|
| `Normalization.MaxOf` | plot_z_plane.py:73 | `np.max` of a non-empty vector is one of its elements and no element is larger |
| `Normalization.Gain` | plot_z_plane.py:73-78 | `kn` (and likewise `kd`) is at least 1, bounds every coefficient, and is either 1 or a coefficient, i.e. it is max(max(v), 1) |
| `Normalization.Scaling` | plot_z_plane.py:74-79 | the total divisor `kn * kd` is at least `kn` and at least `kd` (so at least 1, never zero) |
| `Normalization.Normalized` | plot_z_plane.py:72-79 | after the two divisions, each coefficient is `B[i] / (kn * kd)`, with both factors taken from the original `B` and `A`; the length is unchanged |
| `Normalization.DivideInPlace` | plot_z_plane.py:75 | `B /= k` replaces every element of the array by itself divided by `k` |
| `Normalization.NormalizeCoefficients` | plot_z_plane.py:72-79 | it raises exactly when `B` or `A` is empty; an empty `A` leaves `B` divided by `kn` only; otherwise, for distinct arrays, `B` becomes `Normalized(old B, A)`, and when `A` is `B`, `kd` is taken from the once-divided `B`; a distinct `A` is never changed |
| `Normalization.NormalizedIsDivided` | plot_z_plane.py:75-79 | dividing by `kn` and then by `kd` equals one division by `kn * kd` |
| `Normalization.NormalizedPeak` | plot_z_plane.py:72-79 | the largest normalised coefficient is `max(B) / (kn * kd)`, which is at most 1 |
| `Normalization.NormalizedUnchanged` | plot_z_plane.py:73-79 | `B` is left unchanged if and only if `max(B) <= 1` and either `max(A) <= 1` or `B` is all zeros |
| `Normalization.SelfNormalized` | plot_z_plane.py:73-79 | with one array passed as both `A` and `B`, `kd` is 1 and `B` ends up divided by `kn` only |
| `Normalization.NormalizedExample` | plot_z_plane.py:72-79 | `B = [4, 2]`, `A = [1, 0.5]` gives `kn = 4`, `kd = 1` and `B = [1, 0.5]` |
| `Normalization.EvalDivided` | plot_z_plane.py:79-83 | dividing every coefficient by `k` divides the value of the polynomial by `k` at every complex point |
| `Normalization.NormalizationKeepsZeros` | plot_z_plane.py:72-83 | a complex `z` is a zero of the normalised `B` exactly when it is a zero of the original `B`, so `np.roots(B)` describes the same zeros |
| `Axes.HorizontalGuide` | plot_z_plane.py:96-97 | the horizontal guide lies on `y = 0`, is symmetric about the origin and is `2 sf + 4` long |
| `Axes.VerticalGuide` | plot_z_plane.py:99-100 | the vertical guide lies on `x = 0`, is symmetric about the origin and is `2 sf + 4` long |
| `Axes.Trunc` | plot_z_plane.py:107 | `int(sf)` truncates toward zero: `0 <= n <= sf < n + 1` for `sf >= 0`, and `n - 1 < sf <= n <= 0` for `sf < 0` |
| `Axes.HalfStepRange` | plot_z_plane.py:109-111 | `np.arange(start, stop, 0.5)` holds `start + i/2` at index `i`, every value is below `stop`, and one more half step would reach `stop` |
| `Axes.Ticks` | plot_z_plane.py:108-112 | for every scaling factor, `0` and `0.5` are ticks |
| `Axes.HalfStepRangeLength` | plot_z_plane.py:109-111 | when `stop` is exactly `n` half steps above `start`, the range has `n` values |
| `Axes.TicksClosedForm` | plot_z_plane.py:107-112 | for `sf > -1` there are `4s + 5` ticks and tick `i` is `i/2 - 1 - s` |
| `Axes.TicksEndpoints` | plot_z_plane.py:107-112 | for `sf > -1` the first tick is `-(1 + s)` and the last is `1 + s` |
| `Axes.TicksStep` | plot_z_plane.py:107-112 | for `sf > -1` consecutive ticks differ by exactly `0.5` |
| `Axes.TicksStrictlyIncreasing` | plot_z_plane.py:108-112 | for every scaling factor, negative ones included, the ticks are strictly increasing |
| `Axes.TicksSymmetric` | plot_z_plane.py:107-112 | for `sf > -1` the tick list reversed is the list negated, and `t` is a tick exactly when `-t` is |
| `Axes.TickIsHalfInteger` | plot_z_plane.py:107-112 | for `sf > -1` every tick is a half-integer in `[-(1 + s), 1 + s]` |
| `Axes.HalfIntegerIsTick` | plot_z_plane.py:107-112 | for `sf > -1` every half-integer in `[-(1 + s), 1 + s]` is a tick |
| `Axes.TicksMembership` | plot_z_plane.py:107-112 | for `sf > -1` the ticks are exactly the half-integers in `[-(1 + s), 1 + s]` |
| `Axes.TicksBelowMinusOne` | plot_z_plane.py:107-112 | for `sf <= -1` both ranges are empty and the ticks are `[0, 0.5]` |
| `Axes.TicksAtZero` | plot_z_plane.py:107-112 | the default `scaling_factor = 0` gives ticks `[-1, -0.5, 0, 0.5, 1]` |
| `Axes.TicksAtOne` | plot_z_plane.py:107-112 | `scaling_factor = 1` gives ticks `[-2, -1.5, -1, -0.5, 0, 0.5, 1, 1.5, 2]` |
| `Axes.GuidesEncloseTicks` | plot_z_plane.py:96-112 | for `sf >= 0` both guides run strictly past every tick, and past the last tick by at least 1 and less than 2 (untruncated `sf` against truncated `s`) |

## Left out

- `np.roots(A)` and `np.roots(B)` (lines 82-83) are left out. They call a floating-point eigenvalue solver outside this code. The model states only that normalisation does not move the zeros of B(z). It does not compute roots, and it does not count them with multiplicity.
- All plotting is left out: the subplot, the unit-circle patch, the markers, line styles and colours, the fixed `[-1.5, 1.5]` window, `xticks`/`yticks`, the grid, labels, the title (`plot_title`) and the returned `plt, ax` handles (lines 56-70, 86-105, 114-122). These are rendering calls into the plotting library. The guide lines are modelled only through their end points.
- Floating-point rounding in the divisions and in `np.arange` is left out, since reals are exact. Every tick value is a multiple of 0.5, which a float holds exactly.
- numpy dtype behaviour is left out, for example in-place `/=` on an integer array raising an error, and NaN or infinite coefficients.
- `Normalization.NormalizeCoefficients`: what the caller sees through other aliases of `B` is not modelled beyond "the array `B` is updated in place".
- `Axes.HalfStepRange`: only the step 0.5 that the code uses is modelled, not a general `arange` step.
- `Axes.Trunc`: `int()` on a non-finite float (which raises) is not modelled. Reals are always finite.
- `Normalization.NormalizeCoefficients`: the `ValueError` that `np.max` raises on an empty vector is modelled as the `raised` result, not as an exception that unwinds the caller. The partial update of `B` before the raise is modelled.
