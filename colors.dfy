/** The colour-key comprehensions of the dashboards: a palette cycled with
    `i % len(palette)`, and a palette sampled with an integer stride. */
module Colors {
  import opened Tables

  /** A colour as the plotting library names it (a hex string). */
  type Color = string

  /** `{g: color_key[i % len(color_key)] for i, g in enumerate(groups)}`. */
  function CycleMap<K>(groups: seq<K>, palette: seq<Color>): (m: Dict<K, Color>)
    requires |palette| > 0
    ensures Keys(m) == groups
    ensures forall i :: 0 <= i < |groups| ==> m[i].1 == palette[i % |palette|]
  {
    seq(|groups|, i requires 0 <= i < |groups| => (groups[i], palette[i % |palette|]))
  }

  /** The cycle repeats with the palette's period, and within one period
      distinct palette entries give distinct groups distinct colours. */
  lemma CycleMapPeriod<K>(groups: seq<K>, palette: seq<Color>, i: nat, j: nat)
    requires |palette| > 0 && i < j < |groups|
    ensures j == i + |palette| ==> CycleMap(groups, palette)[i].1 == CycleMap(groups, palette)[j].1
    ensures NoDups(palette) && j - i < |palette| ==> CycleMap(groups, palette)[i].1 != CycleMap(groups, palette)[j].1
  {
    var L := |palette|;
    if j == i + L {
      assert j % L == i % L by { ModAddPeriod(i, L); }
    }
    if NoDups(palette) && j - i < L {
      assert i % L != j % L by { ModDistinct(i, j, L); }
    }
  }

  lemma ModAddPeriod(i: nat, L: nat)
    requires L > 0
    ensures (i + L) % L == i % L
  {
    ModUnique(i + L, i / L + 1, i % L, L);
  }

  lemma ModDistinct(i: nat, j: nat, L: nat)
    requires L > 0 && i < j && j - i < L
    ensures i % L != j % L
  {
    if i % L == j % L {
      if i / L < j / L {
        MulMono(i / L + 1, j / L, L);
      } else {
        MulMono(j / L, i / L, L);
      }
    }
  }

  /** Quotient and remainder are unique. */
  lemma ModUnique(a: nat, q: int, r: int, L: nat)
    requires L > 0 && a == q * L + r && 0 <= r < L
    ensures a % L == r
  {
    var q', r' := a / L, a % L;
    if q' < q { MulMono(q' + 1, q, L); }
    if q < q' { MulMono(q + 1, q', L); }
  }

  lemma MulMono(a: int, b: int, c: nat)
    requires a <= b
    ensures a * c <= b * c
  {
  }

  /** Palette index of group `i` of `n` over a base length `L`: `i * int(L / n) % L`
      (for the sizes concerned, Python's `int(L / n)` equals the floor `L / n`). */
  function StrideIndex(i: nat, n: nat, L: nat): nat
    requires n > 0 && L > 0
  {
    (i * (L / n)) % L
  }

  /** The stride index always lies in `[0, L)`. */
  lemma StrideIndexInRange(i: nat, n: nat, L: nat)
    requires n > 0 && L > 0
    ensures StrideIndex(i, n, L) < L
  {
  }

  /** With no more groups than colours the stride is at least 1, no index
      wraps, and distinct groups get distinct palette indices. */
  lemma StrideInjective(i: nat, j: nat, n: nat, L: nat)
    requires 0 < n <= L && i < j < n
    ensures L / n >= 1
    ensures StrideIndex(i, n, L) == i * (L / n) && StrideIndex(j, n, L) == j * (L / n)
    ensures StrideIndex(i, n, L) < StrideIndex(j, n, L)
  {
    var s := L / n;
    assert L == n * s + L % n;
    MulMono(j, n - 1, s);
    MulMono(i, j - 1, s);
    assert (n - 1) * s + s == n * s;
    assert (j - 1) * s + s == j * s;
    assert 0 <= i * s < j * s < L;
    ModSmall(i * s, L);
    ModSmall(j * s, L);
  }

  lemma ModSmall(x: nat, L: nat)
    requires x < L
    ensures x % L == x
  {
  }

  /** `{g: palette[i * int(base / len(groups)) % base] for i, g in enumerate(groups)}`,
      with the errors Python raises: ZeroDivisionError for no groups or an empty
      base, IndexError when an index reaches past the palette. */
  function StrideMap<K>(groups: seq<K>, base: nat, palette: seq<Color>): (r: Result<Dict<K, Color>>)
    ensures r.Err? <==> |groups| == 0 || base == 0 ||
                        exists i :: 0 <= i < |groups| && StrideIndex(i, |groups|, base) >= |palette|
    ensures r.Err? && (|groups| == 0 || base == 0) ==> r.error == ZeroDivisionError
    ensures r.Err? && |groups| > 0 && base > 0 ==> r.error == IndexError
    ensures r.Ok? ==> Keys(r.value) == groups &&
                      forall i :: 0 <= i < |groups| ==> r.value[i].1 == palette[StrideIndex(i, |groups|, base)]
  {
    var n := |groups|;
    if n == 0 || base == 0 then Err(ZeroDivisionError)
    else if exists i :: 0 <= i < n && StrideIndex(i, n, base) >= |palette| then Err(IndexError)
    else Ok(seq(n, i requires 0 <= i < n => (groups[i], palette[StrideIndex(i, n, base)])))
  }

  /** When the base is the palette's own length and it has at least as many
      colours as there are groups, the map exists and no two groups share a colour
      index. */
  lemma StrideMapDistinct<K>(groups: seq<K>, palette: seq<Color>, i: nat, j: nat)
    requires 0 < |groups| <= |palette| && i < j < |groups|
    ensures StrideMap(groups, |palette|, palette).Ok?
    ensures StrideIndex(i, |groups|, |palette|) != StrideIndex(j, |groups|, |palette|)
  {
    forall k | 0 <= k < |groups| ensures StrideIndex(k, |groups|, |palette|) < |palette| {
      StrideIndexInRange(k, |groups|, |palette|);
    }
    StrideInjective(i, j, |groups|, |palette|);
  }
}
