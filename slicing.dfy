/** Python slicing and the sliding-window loop that both the chunker
    (`chunk_document`, window `chunk_size`, step `chunk_size - overlap`) and
    the embedding batcher (`generate_embeddings`, window and step
    `batch_size`) run. */
module Slicing {
  import opened Values

  function Clamp(i: int, n: nat): (r: nat)
    ensures r <= n
    ensures 0 <= i <= n ==> r == i
  {
    if i < 0 then 0 else if i > n then n else i
  }

  /** Python's `s[lo:hi]`: a negative bound counts from the end, both bounds
      are clamped to `[0, len(s)]`, and a bound pair out of order gives the
      empty slice. */
  function PySlice<T>(s: seq<T>, lo: int, hi: int): (r: seq<T>)
    ensures |r| <= |s|
    ensures 0 <= lo <= |s| && lo <= hi ==> r == s[lo..Min(hi, |s|)]
  {
    var a := Clamp(if lo < 0 then lo + |s| else lo, |s|);
    var b := Clamp(if hi < 0 then hi + |s| else hi, |s|);
    if a < b then s[a..b] else []
  }

  /** The slices `s[start:start+size]`, `s[start+step:start+step+size]`, ...
      taken while the slice's start is below `len(s)`. */
  function Windows<T>(s: seq<T>, start: nat, size: int, step: int): seq<seq<T>>
    requires step > 0
    decreases |s| - start
  {
    if start >= |s| then []
    else [PySlice(s, start, start + size)] + Windows(s, start + step, size, step)
  }

  /** One pass of the loop moves the window at `start` from the windows
      still to come to the windows taken; together they stay `all`. */
  lemma WindowsStep<T>(taken: seq<seq<T>>, all: seq<seq<T>>, s: seq<T>, start: nat, size: int, step: int)
    requires step > 0 && start < |s|
    requires taken + Windows(s, start, size, step) == all
    ensures (taken + [PySlice(s, start, start + size)]) + Windows(s, start + step, size, step) == all
  {
    assert Windows(s, start, size, step) == [PySlice(s, start, start + size)] + Windows(s, start + step, size, step);
  }

  /** The concatenation of a sequence of sequences. */
  function Flatten<T>(ss: seq<seq<T>>): seq<T>
  {
    if ss == [] then [] else Flatten(ss[..|ss| - 1]) + ss[|ss| - 1]
  }

  lemma TakeSnoc<T>(s: seq<T>, i: nat)
    requires i < |s|
    ensures s[..i + 1] == s[..i] + [s[i]]
  {
  }

  lemma TakeTake<T>(s: seq<T>, n: nat, k: nat)
    requires k <= n <= |s|
    ensures s[..n][..k] == s[..k]
  {
  }

  /** Appending element `i` of `all` extends a prefix of `all` after `before`
      by one. */
  lemma AppendNext<T>(before: seq<T>, all: seq<T>, i: nat)
    requires i < |all|
    ensures (before + all[..i]) + [all[i]] == before + all[..i + 1]
  {
    assert all[..i + 1] == all[..i] + [all[i]];
  }

  lemma AppendLeft<T>(a: seq<T>, b: seq<T>, k: nat)
    requires k < |a|
    ensures k < |a + b| && (a + b)[k] == a[k]
  {
  }

  lemma AppendRight<T>(a: seq<T>, b: seq<T>, i: nat)
    requires i < |b|
    ensures |a| + i < |a + b| && (a + b)[|a| + i] == b[i]
  {
  }

  /** `ceil(a / b)` for a positive divisor. */
  function CeilDiv(a: nat, b: int): nat
    requires b > 0
  {
    (a + b - 1) / b
  }

  /** `k * step`, the offset of window `k`, counted the way the loop reaches
      it: by adding `step` once per pass. */
  function Offset(k: nat, step: int): int
  {
    if k == 0 then 0 else Offset(k - 1, step) + step
  }

  lemma {:induction false} OffsetIsProduct(k: nat, step: int)
    ensures Offset(k, step) == k * step
  {
    if k > 0 {
      OffsetIsProduct(k - 1, step);
      assert (k - 1) * step + step == k * step;
    }
  }

  lemma {:induction false} OffsetNonNegative(k: nat, step: int)
    requires step > 0
    ensures 0 <= Offset(k, step)
    ensures 0 < k ==> step <= Offset(k, step)
  {
    if k > 0 {
      OffsetNonNegative(k - 1, step);
    }
  }

  /** Every offset `i` falls in the stride `[Offset(k), Offset(k) + step)` of
      exactly the `k` returned. */
  lemma {:induction false} StrideOf(i: nat, step: int) returns (k: nat)
    requires step > 0
    ensures Offset(k, step) <= i < Offset(k, step) + step
    decreases i
  {
    if i < step {
      k := 0;
    } else {
      var j := StrideOf(i - step, step);
      k := j + 1;
    }
  }

  lemma MulLe(x: int, y: int, b: int)
    requires x <= y && 0 <= b
    ensures x * b <= y * b
  {
    assert y * b - x * b == (y - x) * b;
  }

  /** Division is determined by its bracketing multiples. */
  lemma DivUnique(a: int, b: int, q: int)
    requires 0 < b && q * b <= a < q * b + b
    ensures a / b == q
  {
    var d := a / b;
    assert a == d * b + a % b;
    if d < q {
      MulLe(d + 1, q, b);
    } else if d > q {
      MulLe(q + 1, d, b);
    }
  }

  /** `n` strides of `step` are the fewest that reach `a`: then `n` is
      `ceil(a / step)`. */
  lemma CeilDivOfStrides(a: nat, step: int, n: nat)
    requires step > 0
    requires a <= Offset(n, step)
    requires n > 0 ==> Offset(n - 1, step) < a
    ensures CeilDiv(a, step) == n
  {
    OffsetIsProduct(n, step);
    if n > 0 {
      OffsetIsProduct(n - 1, step);
      assert (n - 1) * step == n * step - step;
    }
    DivUnique(a + step - 1, step, n);
  }

  /** There is a window `k` exactly when its offset `start + k * step` is
      still inside `s`. */
  lemma {:induction false} WindowsAt<T>(s: seq<T>, start: nat, size: int, step: int, k: nat)
    requires step > 0
    ensures k < |Windows(s, start, size, step)| <==> start + Offset(k, step) < |s|
    decreases |s| - start
  {
    OffsetNonNegative(k, step);
    if start < |s| && k > 0 {
      WindowsAt(s, start + step, size, step, k - 1);
      assert start + step + Offset(k - 1, step) == start + Offset(k, step);
    }
  }

  /** Window `k` is the slice of `size` elements at offset
      `start + k * step`. */
  lemma WindowAt<T>(s: seq<T>, start: nat, size: int, step: int, k: nat)
    requires step > 0 && start + Offset(k, step) < |s|
    ensures k < |Windows(s, start, size, step)|
    ensures Windows(s, start, size, step)[k] == PySlice(s, start + Offset(k, step), start + Offset(k, step) + size)
  {
    WindowAtOffset(s, start, size, step, k, start + Offset(k, step));
  }

  /** `WindowAt` with the offset named, so that each step of the induction
      speaks of the same slice. */
  lemma {:induction false} WindowAtOffset<T>(s: seq<T>, start: nat, size: int, step: int, k: nat, at: int)
    requires step > 0 && at == start + Offset(k, step) && at < |s|
    ensures k < |Windows(s, start, size, step)|
    ensures Windows(s, start, size, step)[k] == PySlice(s, at, at + size)
    decreases k
  {
    OffsetNonNegative(k, step);
    var w := Windows(s, start, size, step);
    var rest := Windows(s, start + step, size, step);
    assert w == [PySlice(s, start, start + size)] + rest;
    if k == 0 {
      assert at == start;
    } else {
      WindowAtOffset(s, start + step, size, step, k - 1, at);
      AppendRight([PySlice(s, start, start + size)], rest, k - 1);
    }
  }

  /** The loop runs `ceil(len(s) / step)` times. */
  lemma WindowsCount<T>(s: seq<T>, size: int, step: int)
    requires step > 0
    ensures |Windows(s, 0, size, step)| == CeilDiv(|s|, step)
  {
    var n := |Windows(s, 0, size, step)|;
    WindowsAt(s, 0, size, step, n);
    if n > 0 {
      WindowsAt(s, 0, size, step, n - 1);
    }
    CeilDivOfStrides(|s|, step, n);
  }

  /** With a positive size and a start inside `s`, a window is the plain
      subsequence `s[lo..min(lo + size, |s|)]`: never empty, never longer than
      `size`. */
  lemma WindowShape<T>(s: seq<T>, lo: nat, size: int)
    requires 0 < size && lo < |s|
    ensures PySlice(s, lo, lo + size) == s[lo..Min(lo + size, |s|)]
    ensures 0 < |PySlice(s, lo, lo + size)| <= size
  {
  }

  lemma FlattenSnoc<T>(ss: seq<seq<T>>, x: seq<T>)
    ensures Flatten(ss + [x]) == Flatten(ss) + x
  {
    assert (ss + [x])[..|ss|] == ss;
  }

  lemma {:induction false} FlattenCons<T>(x: seq<T>, ss: seq<seq<T>>)
    ensures Flatten([x] + ss) == x + Flatten(ss)
    decreases |ss|
  {
    if ss == [] {
      FlattenSnoc([], x);
      assert [x] + ss == [] + [x];
    } else {
      var init := ss[..|ss| - 1];
      var last := ss[|ss| - 1];
      assert ss == init + [last];
      assert [x] + ss == ([x] + init) + [last];
      FlattenSnoc([x] + init, last);
      FlattenSnoc(init, last);
      FlattenCons(x, init);
    }
  }

  /** When the step equals the size the windows tile `s[start..]`: their
      concatenation is exactly that suffix, with no gap and no repetition. */
  lemma {:induction false} WindowsTile<T>(s: seq<T>, start: nat, size: int)
    requires 0 < size && start <= |s|
    ensures Flatten(Windows(s, start, size, size)) == s[start..]
    decreases |s| - start
  {
    if start < |s| {
      var w := PySlice(s, start, start + size);
      var next := start + size;
      FlattenCons(w, Windows(s, next, size, size));
      if next <= |s| {
        WindowsTile(s, next, size);
        assert w + s[next..] == s[start..];
      } else {
        assert w == s[start..];
      }
    }
  }
}
