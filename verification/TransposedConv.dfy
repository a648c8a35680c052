/**
 The phase-split layout of ConvTranspose1d weights (tools/convert_kokoro.py) and the
 convolution the runtime reads from it, one gathered convolution per output phase
 (local-engine/src/speech/model.rs, shaders/kokoro.metal).
 */
module TransposedConv {
  import opened Common
  import opened Sums

  datatype Result<+T> = Ok(value: T) | NotDivisible

  // Index arithmetic

  lemma JoinInjective(a: nat, n: nat, b: nat, a': nat, b': nat)
    requires b < n && b' < n && Join(a, n, b) == Join(a', n, b')
    ensures a == a' && b == b'
  {
    SlotsDiffer(n, a, b, a', b');
  }

  /** Entry [c][o][tap] of the source tensor [in, out, K]. */
  function Source(co: nat, k: nat, c: nat, o: nat, tap: nat): nat { Join(Join(c, co, o), k, tap) }

  /** Entry [phase][o][kk][c] of the layout. */
  function Target(ci: nat, co: nat, taps: nat, r: nat, o: nat, kk: nat,
                  c: nat): nat { Join(Join(Join(r, co, o), taps, kk), ci, c) }

  lemma SourceRange(ci: nat, co: nat, k: nat, c: nat, o: nat, tap: nat)
    requires c < ci && o < co && tap < k
    ensures Source(co, k, c, o, tap) < ci * co * k
  {
    Index2(c, ci, o, co);
    Index2(c * co + o, ci * co, tap, k);
  }

  lemma TargetRange(ci: nat, co: nat, taps: nat, stride: nat, r: nat, o: nat, kk: nat, c: nat)
    requires r < stride && o < co && kk < taps && c < ci
    ensures Target(ci, co, taps, r, o, kk, c) < stride * co * taps * ci
  {
    Index2(r, stride, o, co);
    Index2(r * co + o, stride * co, kk, taps);
    Index2((r * co + o) * taps + kk, stride * co * taps, c, ci);
  }

  /** Distinct coordinates have distinct positions. */
  lemma TargetInjective(ci: nat, co: nat, taps: nat, r: nat, o: nat, kk: nat, c: nat, r': nat, o': nat, kk': nat,
                        c': nat)
    requires o < co && kk < taps && c < ci && o' < co && kk' < taps && c' < ci
    requires Target(ci, co, taps, r, o, kk, c) == Target(ci, co, taps, r', o', kk', c')
    ensures r == r' && o == o' && kk == kk' && c == c'
  {
    hide Join;
    JoinInjective(Join(Join(r, co, o), taps, kk), ci, c, Join(Join(r', co, o'), taps, kk'), c');
    JoinInjective(Join(r, co, o), taps, kk, Join(r', co, o'), kk');
    JoinInjective(r, co, o, r', o');
  }

  /** The taps of one phase. */
  function Taps(k: nat, stride: nat): nat
    requires stride > 0
  {
    k / stride
  }

  // The layout

  /** Python's v[start:stop:step] for a positive step: stop is clamped to the length. */
  method StridedSlice<T>(v: seq<T>, start: nat, stop: nat, step: nat) returns (s: seq<T>)
    requires step > 0
    ensures forall m | 0 <= m < |s| :: start + m * step < Min(stop, |v|) && s[m] == v[start + m * step]
    ensures start + |s| * step >= Min(stop, |v|)
  {
    s := [];
    var at := start;
    while at < Min(stop, |v|)
      invariant at == start + |s| * step
      invariant forall m | 0 <= m < |s| :: start + m * step < Min(stop, |v|) && s[m] == v[start + m * step]
    {
      s := s + [v[at]];
      at := at + step;
    }
  }

  /** The slice of one (phase, output, tap): that weight of every input channel. */
  lemma SliceIsColumn<T>(v: seq<T>, s: seq<T>, ci: nat, co: nat, k: nat, o: nat, tap: nat)
    requires |v| == ci * co * k && o < co && tap < k
    requires forall m | 0 <= m < |s| ::
        Source(co, k, 0, o, tap) + m * (co * k) < |v| && s[m] == v[Source(co, k, 0, o, tap) + m * (co * k)]
    requires Source(co, k, 0, o, tap) + |s| * (co * k) >= |v|
    ensures IsColumn(v, s, ci, co, k, o, tap)
  {
    hide Source;
    var step, start := co * k, Source(co, k, 0, o, tap);
    SourceStart(co, k, o, tap);
    Regrouped(ci, co, k);
    SliceLength(|s|, ci, step, start);
    forall c | 0 <= c < ci
      ensures Source(co, k, c, o, tap) < |v| && Source(co, k, c, o, tap) == start + c * step
    {
      SourceSteps(co, k, c, o, tap);
      SourceRange(ci, co, k, c, o, tap);
    }
  }

  /** The slice holds the weights of one output and tap, over all input channels. */
  ghost predicate IsColumn<T>(v: seq<T>, s: seq<T>, ci: nat, co: nat, k: nat, o: nat, tap: nat) {
    && |s| == ci
    && forall c | 0 <= c < ci :: Source(co, k, c, o, tap) < |v| && s[c] == v[Source(co, k, c, o, tap)]
  }

  lemma SourceStart(co: nat, k: nat, o: nat, tap: nat)
    requires o < co && tap < k
    ensures Source(co, k, 0, o, tap) < co * k
  {
    Index2(o, co, tap, k);
  }

  lemma Regrouped(ci: nat, co: nat, k: nat)
    ensures ci * co * k == ci * (co * k)
  {
  }

  lemma SourceSteps(co: nat, k: nat, c: nat, o: nat, tap: nat)
    ensures Source(co, k, c, o, tap) == Source(co, k, 0, o, tap) + c * (co * k)
  {
    assert (c * co + o) * k == c * (co * k) + o * k;
  }

  /** A slice from start in steps of step, up to ci whole steps, has ci elements. */
  lemma SliceLength(n: nat, ci: nat, step: nat, start: nat)
    requires start < step && start + n * step >= ci * step
    requires n > 0 ==> start + (n - 1) * step < ci * step
    ensures n == ci
  {
    assert (n + 1) * step == n * step + step;
    if n < ci {
      MulMonotone(n + 1, ci, step);
    }
    if n > ci {
      MulMonotone(ci, n - 1, step);
    }
  }

  /** Every layout entry below n holds its weight. */
  ghost predicate PhasedTo<T>(v: seq<T>, values: seq<T>, ci: nat, co: nat, k: nat, stride: nat, n: nat)
    requires stride > 0 && |v| == ci * co * k && n <= |values|
  {
    forall r, o, kk, c | 0 <= r < stride && 0 <= o < co && 0 <= kk < Taps(k, stride) && 0 <= c < ci
      && Target(ci, co, Taps(k, stride), r, o, kk, c) < n ::
      Tap(k, stride, r, kk); SourceRange(ci, co, k, c, o, r + kk * stride);
      values[Target(ci, co, Taps(k, stride), r, o, kk, c)] == v[Source(co, k, c, o, r + kk * stride)]
  }

  lemma Tap(k: nat, stride: nat, r: nat, kk: nat)
    requires stride > 0 && r < stride && kk < Taps(k, stride)
    ensures r + kk * stride < k
  {
    assert (kk + 1) * stride <= Taps(k, stride) * stride <= k;
  }

  /** One more slice at the end of the layout. */
  lemma PhasedStep<T>(v: seq<T>, values: seq<T>, s: seq<T>, ci: nat, co: nat, k: nat, stride: nat, r: nat, o: nat,
                      kk: nat)
    requires stride > 0 && |v| == ci * co * k && r < stride && o < co && kk < Taps(k, stride)
    requires |values| == Target(ci, co, Taps(k, stride), r, o, kk, 0)
             && PhasedTo(v, values, ci, co, k, stride, |values|)
    requires IsColumn(v, s, ci, co, k, o, r + kk * stride)
    ensures |s| == ci && PhasedTo(v, values + s, ci, co, k, stride, |values| + ci)
  {
    var next, taps := values + s, Taps(k, stride);
    forall r', o', kk', c' | 0 <= r' < stride && 0 <= o' < co && 0 <= kk' < taps && 0 <= c' < ci
                             && Target(ci, co, taps, r', o', kk', c') < |values| + ci
      ensures Source(co, k, c', o', r' + kk' * stride) < |v|
      ensures next[Target(ci, co, taps, r', o', kk', c')] == v[Source(co, k, c', o', r' + kk' * stride)]
    {
      Tap(k, stride, r', kk');
      SourceRange(ci, co, k, c', o', r' + kk' * stride);
      var p := Target(ci, co, taps, r', o', kk', c');
      if p >= |values| {
        var c := p - |values|;
        assert Target(ci, co, taps, r, o, kk, c) == p;
        TargetInjective(ci, co, taps, r, o, kk, c, r', o', kk', c');
      }
    }
  }

  /** transposed_layout: [in, out, K] to [stride][out][K / stride][in]. */
  method TransposedLayout<T>(v: seq<T>, ci: nat, co: nat, k: nat, stride: nat) returns (result: Result<seq<T>>)
    requires stride > 0 && |v| == ci * co * k
    ensures result.NotDivisible? <==> k % stride != 0
    ensures result.Ok? ==> |result.value| == |v| && PhasedTo(v, result.value, ci, co, k, stride, |v|)
    ensures result.Ok? ==> Laid(v, result.value, ci, co, k, stride)
  {
    hide PhasedTo, Source, Target, Laid;
    if k % stride != 0 {
      return NotDivisible;
    }
    var taps := Taps(k, stride);
    var values: seq<T> := [];
    Positions(ci, co, taps, 0, 0, 0);
    PhasedNone(v, ci, co, k, stride);
    for r := 0 to stride
      invariant |values| == Target(ci, co, taps, r, 0, 0, 0) && PhasedTo(v, values, ci, co, k, stride, |values|)
    {
      for o := 0 to co
        invariant |values| == Target(ci, co, taps, r, o, 0, 0) && PhasedTo(v, values, ci, co, k, stride, |values|)
      {
        for kk := 0 to taps
          invariant |values| == Target(ci, co, taps, r, o, kk, 0) && PhasedTo(v, values, ci, co, k, stride, |values|)
        {
          Tap(k, stride, r, kk);
          var slice := Column(v, ci, co, k, o, r + kk * stride);
          PhasedStep(v, values, slice, ci, co, k, stride, r, o, kk);
          Positions(ci, co, taps, r, o, kk);
          values := values + slice;
        }
        Positions(ci, co, taps, r, o, taps);
      }
      Positions(ci, co, taps, r, co, 0);
    }
    Whole(ci, co, k, stride);
    PhasedIsLaid(v, values, ci, co, k, stride);
    result := Ok(values);
  }

  /** Entry [phase][out][kk][in] of the layout, at its place, is entry [in][out][phase + kk * stride] of the weights. */
  ghost predicate Laid<T>(v: seq<T>, values: seq<T>, ci: nat, co: nat, k: nat, stride: nat)
    requires stride > 0
  {
    forall r: nat, o: nat, kk: nat, c: nat | r < stride && o < co && kk < k / stride && c < ci ::
      LaidAt(v, values, ci, co, k, stride, r, o, kk, c)
  }

  ghost predicate LaidAt<T>(v: seq<T>, values: seq<T>, ci: nat, co: nat, k: nat, stride: nat, r: nat, o: nat, kk: nat,
                            c: nat)
    requires stride > 0
  {
    var to, from := ((r * co + o) * (k / stride) + kk) * ci + c, (c * co + o) * k + (r + kk * stride);
    0 <= to < |values| && 0 <= from < |v| && values[to] == v[from]
  }

  lemma PhasedIsLaid<T>(v: seq<T>, values: seq<T>, ci: nat, co: nat, k: nat, stride: nat)
    requires stride > 0 && k % stride == 0 && |v| == |values| == ci * co * k
    requires PhasedTo(v, values, ci, co, k, stride, |v|)
    ensures Laid(v, values, ci, co, k, stride)
  {
    hide PhasedTo;
    forall r: nat, o: nat, kk: nat, c: nat | r < stride && o < co && kk < k / stride && c < ci
      ensures LaidAt(v, values, ci, co, k, stride, r, o, kk, c)
    {
      PhasedEntry(v, values, ci, co, k, stride, r, o, kk, c);
    }
  }

  lemma PhasedEntry<T>(v: seq<T>, values: seq<T>, ci: nat, co: nat, k: nat, stride: nat, r: nat, o: nat, kk: nat,
                       c: nat)
    requires stride > 0 && k % stride == 0 && |v| == |values| == ci * co * k
    requires PhasedTo(v, values, ci, co, k, stride, |v|)
    requires r < stride && o < co && kk < Taps(k, stride) && c < ci
    ensures r + kk * stride < k
    ensures Target(ci, co, Taps(k, stride), r, o, kk, c) < |values| && Source(co, k, c, o, r + kk * stride) < |v|
    ensures values[Target(ci, co, Taps(k, stride), r, o, kk, c)] == v[Source(co, k, c, o, r + kk * stride)]
  {
    hide Target, Source;
    Tap(k, stride, r, kk);
    Total(ci, co, k, stride);
    TargetRange(ci, co, Taps(k, stride), stride, r, o, kk, c);
    SourceRange(ci, co, k, c, o, r + kk * stride);
  }

  method Column<T>(v: seq<T>, ci: nat, co: nat, k: nat, o: nat, tap: nat) returns (s: seq<T>)
    requires |v| == ci * co * k && o < co && tap < k
    ensures IsColumn(v, s, ci, co, k, o, tap)
  {
    hide IsColumn;
    var start := o * k + tap;
    SourceStart(co, k, o, tap);
    assert start == Source(co, k, 0, o, tap);
    hide Source;
    s := StridedSlice(v, start, start + ci * co * k, co * k);
    SliceIsColumn(v, s, ci, co, k, o, tap);
  }

  /** Positions advance by one slice per tap, and carry over at the ends. */
  lemma Positions(ci: nat, co: nat, taps: nat, r: nat, o: nat, kk: nat)
    ensures Target(ci, co, taps, 0, 0, 0, 0) == 0
    ensures Target(ci, co, taps, r, o, kk + 1, 0) == Target(ci, co, taps, r, o, kk, 0) + ci
    ensures Target(ci, co, taps, r, o, taps, 0) == Target(ci, co, taps, r, o + 1, 0, 0)
    ensures Target(ci, co, taps, r, co, 0, 0) == Target(ci, co, taps, r + 1, 0, 0, 0)
  {
    assert ((r * co + o) * taps + kk + 1) * ci == ((r * co + o) * taps + kk) * ci + ci;
    assert (r * co + o) * taps + taps == (r * co + (o + 1)) * taps;
    assert r * co + co == (r + 1) * co;
  }

  lemma PhasedNone<T>(v: seq<T>, ci: nat, co: nat, k: nat, stride: nat)
    requires stride > 0 && |v| == ci * co * k
    ensures PhasedTo(v, [], ci, co, k, stride, 0)
  {
  }

  lemma Whole(ci: nat, co: nat, k: nat, stride: nat)
    requires stride > 0 && k % stride == 0
    ensures Target(ci, co, Taps(k, stride), stride, 0, 0, 0) == ci * co * k
  {
    var taps := Taps(k, stride);
    assert taps * stride == k;
    assert (stride * co + 0) * taps + 0 == co * (taps * stride);
    assert co * k * ci == ci * co * k;
  }

  // The layout is a permutation

  /** A sequence that lists another through distinct indices is a permutation of it. */
  lemma {:induction false} PermutedByIndices<T>(a: seq<T>, b: seq<T>, f: seq<int>)
    requires |a| == |b| == |f|
    requires forall i | 0 <= i < |f| :: 0 <= f[i] < |b| && a[i] == b[f[i]]
    requires forall i, j | 0 <= i < j < |f| :: f[i] != f[j]
    ensures multiset(a) == multiset(b)
    decreases |a|
  {
    if |a| > 0 {
      var n := |a| - 1;
      var j := f[n];
      var rest := b[..j] + b[j + 1..];
      var g := seq(n, i requires 0 <= i < n => if f[i] < j then f[i] else f[i] - 1);
      forall i | 0 <= i < n
        ensures 0 <= g[i] < |rest| && a[..n][i] == rest[g[i]]
      {
        assert f[i] != j;
      }
      PermutedByIndices(a[..n], rest, g);
      assert a == a[..n] + [a[n]];
      assert b == b[..j] + [b[j]] + b[j + 1..];
    }
  }

  datatype Coordinates = At(r: nat, o: nat, kk: nat, c: nat)

  /** The coordinates of layout position p. */
  function CoordinatesOf(ci: nat, co: nat, taps: nat, p: nat): Coordinates
    requires ci > 0 && co > 0 && taps > 0
  {
    hide Quot, Rem;
    At(Quot(Quot(Quot(p, ci), taps), co), Rem(Quot(Quot(p, ci), taps), co), Rem(Quot(p, ci), taps), Rem(p, ci))
  }

  function Quot(p: nat, d: nat): nat
    requires d > 0
  {
    p / d
  }

  function Rem(p: nat, d: nat): nat
    requires d > 0
  {
    p % d
  }

  lemma CoordinatesInRange(ci: nat, co: nat, taps: nat, stride: nat, p: nat)
    requires p < stride * co * taps * ci
    ensures ci > 0 && co > 0 && taps > 0
    ensures var a := CoordinatesOf(ci, co, taps, p);
      a.r < stride && a.o < co && a.kk < taps && a.c < ci && Target(ci, co, taps, a.r, a.o, a.kk, a.c) == p
  {
    hide Quot, Rem;
    SplitIndex(p, stride * co * taps, ci);
    SplitIndex(Quot(p, ci), stride * co, taps);
    SplitIndex(Quot(Quot(p, ci), taps), stride, co);
  }

  lemma SplitIndex(p: nat, a: nat, b: nat)
    requires p < a * b
    ensures b > 0 && Quot(p, b) < a && Rem(p, b) < b && p == Quot(p, b) * b + Rem(p, b)
  {
    assert b > 0;
    var q := p / b;
    assert q >= a ==> q * b >= a * b;
  }

  lemma SourceInjective(co: nat, k: nat, c: nat, o: nat, tap: nat, c': nat, o': nat, tap': nat)
    requires o < co && tap < k && o' < co && tap' < k
    requires Source(co, k, c, o, tap) == Source(co, k, c', o', tap')
    ensures c == c' && o == o' && tap == tap'
  {
    hide Join;
    JoinInjective(Join(c, co, o), k, tap, Join(c', co, o'), tap');
    JoinInjective(c, co, o, c', o');
  }

  /** Where position p of the layout comes from. */
  function Origin(ci: nat, co: nat, k: nat, stride: nat, p: nat): nat
    requires stride > 0 && ci > 0 && co > 0 && Taps(k, stride) > 0
  {
    var a := CoordinatesOf(ci, co, Taps(k, stride), p);
    Source(co, k, a.c, a.o, a.r + a.kk * stride)
  }

  lemma OriginHolds<T>(v: seq<T>, values: seq<T>, ci: nat, co: nat, k: nat, stride: nat, p: nat)
    requires stride > 0 && k % stride == 0 && |v| == |values| == ci * co * k && p < |v|
    requires PhasedTo(v, values, ci, co, k, stride, |v|)
    ensures ci > 0 && co > 0 && Taps(k, stride) > 0
    ensures Origin(ci, co, k, stride, p) < |v| && values[p] == v[Origin(ci, co, k, stride, p)]
  {
    hide Target, Source, CoordinatesOf;
    Total(ci, co, k, stride);
    CoordinatesInRange(ci, co, Taps(k, stride), stride, p);
    var a := CoordinatesOf(ci, co, Taps(k, stride), p);
    Tap(k, stride, a.r, a.kk);
    SourceRange(ci, co, k, a.c, a.o, a.r + a.kk * stride);
  }

  lemma Total(ci: nat, co: nat, k: nat, stride: nat)
    requires stride > 0 && k % stride == 0
    ensures stride * co * (Taps(k, stride)) * ci == ci * co * k
  {
    var taps := Taps(k, stride);
    assert taps * stride == k;
    assert stride * co * taps == co * (taps * stride);
    assert co * k * ci == ci * co * k;
  }

  lemma OriginsDiffer(ci: nat, co: nat, k: nat, stride: nat, p: nat, q: nat)
    requires stride > 0 && k % stride == 0 && p < ci * co * k && q < ci * co * k && p != q
    requires ci > 0 && co > 0 && Taps(k, stride) > 0
    ensures Origin(ci, co, k, stride, p) != Origin(ci, co, k, stride, q)
  {
    hide Target, Source, CoordinatesOf;
    Total(ci, co, k, stride);
    CoordinatesInRange(ci, co, Taps(k, stride), stride, p);
    CoordinatesInRange(ci, co, Taps(k, stride), stride, q);
    var a, b := CoordinatesOf(ci, co, Taps(k, stride), p), CoordinatesOf(ci, co, Taps(k, stride), q);
    Tap(k, stride, a.r, a.kk);
    Tap(k, stride, b.r, b.kk);
    if Origin(ci, co, k, stride, p) == Origin(ci, co, k, stride, q) {
      SourceInjective(co, k, a.c, a.o, a.r + a.kk * stride, b.c, b.o, b.r + b.kk * stride);
      SlotsDiffer(stride, a.kk, a.r, b.kk, b.r);
    }
  }

  /** The layout loses and repeats no weight. */
  lemma LayoutIsPermutation<T>(v: seq<T>, values: seq<T>, ci: nat, co: nat, k: nat, stride: nat)
    requires stride > 0 && k % stride == 0 && |v| == |values| == ci * co * k
    requires PhasedTo(v, values, ci, co, k, stride, |v|)
    ensures multiset(values) == multiset(v)
  {
    hide PhasedTo, Origin;
    if |v| == 0 {
      assert values == v;
    } else {
      OriginHolds(v, values, ci, co, k, stride, 0);
      var f := seq(|v|, p requires 0 <= p < |v| => Origin(ci, co, k, stride, p));
      forall p | 0 <= p < |v|
        ensures f[p] < |v| && values[p] == v[f[p]]
      {
        OriginHolds(v, values, ci, co, k, stride, p);
      }
      forall p, q | 0 <= p < q < |v|
        ensures f[p] != f[q]
      {
        OriginsDiffer(ci, co, k, stride, p, q);
      }
      PermutedByIndices(values, v, f);
    }
  }

  // Gather and scatter

  /**
   A ConvTranspose1d in exact arithmetic: weights [cin, cout, k], len inputs of every channel in rows of
   row values.
   */
  datatype Layer = Layer(cin: nat, cout: nat, k: nat, stride: nat, pad: nat, len: nat, row: nat, w: seq<real>,
                         x: seq<real>, bias: seq<real>) {
    ghost predicate Valid() {
      && stride > 0 && k % stride == 0
      && |w| == cin * cout * k && len <= row && |x| == cin * row && |bias| == cout
    }

    function Weight(c: nat, o: nat, tap: nat): real
      requires Valid() && c < cin && o < cout && tap < k
    {
      SourceRange(cin, cout, k, c, o, tap);
      w[Source(cout, k, c, o, tap)]
    }

    function Input(c: nat, j: nat): real
      requires Valid() && c < cin && j < len
    {
      Index2(c, cin, j, row);
      x[c * row + j]
    }
  }

  /** Input j's contribution to output t through channel c: it scatters w[tap] to t = j * stride + tap - pad. */
  ghost function Scattered(l: Layer, o: nat, t: nat, c: nat): (f: int -> real)
    requires l.Valid() && o < l.cout && c < l.cin
    ensures forall j {:trigger f(j)} | 0 <= j < l.len ::
        f(j) == if 0 <= t + l.pad - j * l.stride < l.k then l.Weight(c, o, t + l.pad - j * l.stride) * l.Input(c, j)
          else 0.0
  {
    j => if 0 <= j < l.len && 0 <= t + l.pad - j * l.stride < l.k
         then l.Weight(c, o, t + l.pad - j * l.stride) * l.Input(c, j) else 0.0
  }

  ghost function ScatterChannels(l: Layer, o: nat, t: nat): (f: int -> real)
    requires l.Valid() && o < l.cout
    ensures forall c {:trigger f(c)} | 0 <= c < l.cin :: f(c) == Sum(l.len, Scattered(l, o, t, c))
  {
    c => if 0 <= c < l.cin then Sum(l.len, Scattered(l, o, t, c)) else 0.0
  }

  /** The direct definition of output t of channel o. */
  ghost function Scatter(l: Layer, o: nat, t: nat): real
    requires l.Valid() && o < l.cout
  {
    l.bias[o] + Sum(l.cin, ScatterChannels(l, o, t))
  }

  /** Tap kk of phase r at output column Q: input Q - kk, zero outside [0, len). */
  ghost function Gathered(l: Layer, o: nat, r: nat, q: nat, kk: nat): (f: int -> real)
    requires l.Valid() && o < l.cout && r < l.stride && kk < Taps(l.k, l.stride)
    ensures forall c {:trigger f(c)} | 0 <= c < l.cin ::
        (Tap(l.k, l.stride, r, kk);
         f(c) == if 0 <= q - kk < l.len then l.Weight(c, o, r + kk * l.stride) * l.Input(c, q - kk) else 0.0)
  {
    Tap(l.k, l.stride, r, kk);
    c => if 0 <= c < l.cin && 0 <= q - kk < l.len then l.Weight(c, o, r + kk * l.stride) * l.Input(c, q - kk) else 0.0
  }

  ghost function GatherTaps(l: Layer, o: nat, r: nat, q: nat): (f: int -> real)
    requires l.Valid() && o < l.cout && r < l.stride
    ensures forall kk {:trigger f(kk)} | 0 <= kk < Taps(l.k, l.stride) :: f(kk) == Sum(l.cin, Gathered(l, o, r, q, kk))
  {
    kk => if 0 <= kk < Taps(l.k, l.stride) then Sum(l.cin, Gathered(l, o, r, q, kk)) else 0.0
  }

  /** The gathered convolution of phase r at input offset q. */
  ghost function Gather(l: Layer, o: nat, r: nat, q: nat): real
    requires l.Valid() && o < l.cout && r < l.stride
  {
    l.bias[o] + Sum(Taps(l.k, l.stride), GatherTaps(l, o, r, q))
  }

  /** A sum over kk of terms at q - kk is a sum over j of terms whose q - j is a tap. */
  lemma SumReflect(taps: nat, len: nat, q: int, f: int -> real)
    ensures Sum(taps, kk => if 0 <= q - kk < len then f(q - kk) else 0.0)
         == Sum(len, j => if 0 <= q - j < taps then f(j) else 0.0)
  {
    hide Sum;
    var cell := (kk: int, j: int) => if q - kk == j then f(j) else 0.0;
    forall kk | 0 <= kk < taps
      ensures Inner(len, cell)(kk) == if 0 <= q - kk < len then f(q - kk) else 0.0
    {
      SumDelta(len, q - kk, f(q - kk), j => cell(kk, j));
    }
    SumEq(taps, kk => if 0 <= q - kk < len then f(q - kk) else 0.0, Inner(len, cell));
    SumSwap(taps, len, cell);
    forall j | 0 <= j < len
      ensures Inner(taps, Flip(cell))(j) == if 0 <= q - j < taps then f(j) else 0.0
    {
      SumDelta(taps, q - j, f(j), kk => Flip(cell)(j, kk));
    }
    SumEq(len, Inner(taps, Flip(cell)), j => if 0 <= q - j < taps then f(j) else 0.0);
  }

  /** For t + pad = q * stride + r, input j reaches output t exactly through tap q - j of phase r. */
  lemma TapOfInput(l: Layer, t: nat, r: nat, q: nat, j: int)
    requires l.Valid() && r < l.stride && t + l.pad == q * l.stride + r
    ensures 0 <= t + l.pad - j * l.stride < l.k <==> 0 <= q - j < Taps(l.k, l.stride)
    ensures t + l.pad - j * l.stride == r + (q - j) * l.stride
  {
    Distribute(q, j, l.stride);
    TapRange(l.stride, r, q - j, Taps(l.k, l.stride), l.k);
  }

  lemma TapRange(s: nat, r: nat, d: int, taps: nat, k: nat)
    requires r < s && taps * s == k
    ensures 0 <= r + d * s < k <==> 0 <= d < taps
  {
    if d < 0 {
      MulMonotone(d + 1, 0, s);
    } else if d < taps {
      MulMonotone(0, d, s);
      MulMonotone(d + 1, taps, s);
    } else {
      MulMonotone(taps, d, s);
    }
  }

  /** One channel: gathering over the taps is scattering over the inputs. */
  lemma ChannelAgrees(l: Layer, o: nat, t: nat, r: nat, q: nat, c: nat, g: int -> real)
    requires l.Valid() && o < l.cout && r < l.stride && t + l.pad == q * l.stride + r && c < l.cin
    requires forall kk | 0 <= kk < Taps(l.k, l.stride) :: g(kk) == Gathered(l, o, r, q, kk)(c)
    ensures Sum(Taps(l.k, l.stride), g) == Sum(l.len, Scattered(l, o, t, c))
  {
    hide Sum, Layer.Weight, Layer.Input, Scattered, Gathered;
    var taps := Taps(l.k, l.stride);
    var f := Scattered(l, o, t, c);
    forall kk | 0 <= kk < taps
      ensures g(kk) == if 0 <= q - kk < l.len then f(q - kk) else 0.0
    {
      Tap(l.k, l.stride, r, kk);
      TapOfInput(l, t, r, q, q - kk);
      assert r + (q - (q - kk)) * l.stride == r + kk * l.stride;
    }
    SumEq(taps, g, kk => if 0 <= q - kk < l.len then f(q - kk) else 0.0);
    SumReflect(taps, l.len, q, f);
    forall j | 0 <= j < l.len
      ensures f(j) == if 0 <= q - j < taps then f(j) else 0.0
    {
      TapOfInput(l, t, r, q, j);
    }
    SumEq(l.len, f, j => if 0 <= q - j < taps then f(j) else 0.0);
  }

  /** Every output of the per-phase gather is the direct transposed convolution. */
  lemma GatherIsScatter(l: Layer, o: nat, t: nat, r: nat, q: nat)
    requires l.Valid() && o < l.cout && r < l.stride && t + l.pad == q * l.stride + r
    ensures Gather(l, o, r, q) == Scatter(l, o, t)
  {
    hide Sum, Gathered, Scattered, Layer.Weight, Layer.Input;
    var taps := Taps(l.k, l.stride);
    var cell := (kk: int, c: int) => if 0 <= kk < taps then Gathered(l, o, r, q, kk)(c) else 0.0;
    forall kk | 0 <= kk < taps
      ensures GatherTaps(l, o, r, q)(kk) == Inner(l.cin, cell)(kk)
    {
      SumEq(l.cin, Gathered(l, o, r, q, kk), c => cell(kk, c));
    }
    SumEq(taps, GatherTaps(l, o, r, q), Inner(l.cin, cell));
    SumSwap(taps, l.cin, cell);
    forall c | 0 <= c < l.cin
      ensures Inner(taps, Flip(cell))(c) == ScatterChannels(l, o, t)(c)
    {
      ChannelAgrees(l, o, t, r, q, c, kk => Flip(cell)(c, kk));
    }
    SumEq(l.cin, Inner(taps, Flip(cell)), ScatterChannels(l, o, t));
  }

  lemma LayoutWeight(l: Layer, layout: seq<real>, o: nat, r: nat, kk: nat, c: nat)
    requires l.Valid() && o < l.cout && r < l.stride && kk < Taps(l.k, l.stride) && c < l.cin && |layout| == |l.w|
    requires PhasedTo(l.w, layout, l.cin, l.cout, l.k, l.stride, |l.w|)
    ensures r + kk * l.stride < l.k
    ensures Target(l.cin, l.cout, Taps(l.k, l.stride), r, o, kk, c) < |layout|
    ensures layout[Target(l.cin, l.cout, Taps(l.k, l.stride), r, o, kk, c)] == l.Weight(c, o, r + kk * l.stride)
  {
    hide Target, Source;
    Tap(l.k, l.stride, r, kk);
    Total(l.cin, l.cout, l.k, l.stride);
    TargetRange(l.cin, l.cout, Taps(l.k, l.stride), l.stride, r, o, kk, c);
  }
}
