/** The longest-match search of benchmarks/pako-bench.ts and the copy it stands for. */
module Lz77 {

  /** The first `len` bytes of the lookahead repeat the last `dist` bytes of the window. */
  ghost predicate Matches(win: seq<int>, look: seq<int>, dist: nat, len: nat)
    requires 0 < dist <= |win| && len <= |look|
  {
    forall i :: 0 <= i < len ==> win[|win| - dist + i % dist] == look[i]
  }

  /** The longest match at distance `dist` of at most `limit` bytes. */
  ghost function MatchLength(win: seq<int>, look: seq<int>, dist: nat, limit: nat): (len: nat)
    requires 0 < dist <= |win| && limit <= |look|
    ensures len <= limit && Matches(win, look, dist, len)
    ensures forall k :: len < k <= limit ==> !Matches(win, look, dist, k)
    decreases limit
  {
    if limit == 0 then 0
    else
      var shorter := MatchLength(win, look, dist, limit - 1);
      if shorter == limit - 1 && win[|win| - dist + shorter % dist] == look[shorter] then limit
      else
        assert !Matches(win, look, dist, limit) by { NoLongerMatch(win, look, dist, shorter, limit); }
        shorter
  }

  lemma NoLongerMatch(win: seq<int>, look: seq<int>, dist: nat, shorter: nat, limit: nat)
    requires 0 < dist <= |win| && shorter < limit <= |look|
    requires shorter < limit - 1 ==> !Matches(win, look, dist, limit - 1)
    requires shorter == limit - 1 ==> win[|win| - dist + shorter % dist] != look[shorter]
    ensures !Matches(win, look, dist, limit)
  {
  }

  lemma MatchedByte(win: seq<int>, look: seq<int>, dist: nat, len: nat, i: nat)
    requires 0 < dist <= |win| && i < len <= |look| && Matches(win, look, dist, len)
    ensures win[|win| - dist + i % dist] == look[i]
  {
  }

  /** `len`, `dist` is the longest match over the allowed distances, at the smallest distance that reaches it. */
  ghost predicate BestUpTo(win: seq<int>, look: seq<int>, limit: nat, farthest: nat, len: nat, dist: nat)
    requires farthest <= |win| && limit <= |look|
  {
    && (forall d :: 1 <= d <= farthest ==> MatchLength(win, look, d, limit) <= len)
    && (len == 0 ==> dist == 0)
    && (len > 0 ==> 1 <= dist <= farthest && MatchLength(win, look, dist, limit) == len)
    && (forall d :: 1 <= d < dist ==> MatchLength(win, look, d, limit) < len)
  }

  function Min(a: nat, b: nat): nat {
    if a < b then a else b
  }

  /** The inner loop for one distance. */
  method MeasureMatch(win: seq<int>, look: seq<int>, dist: nat, maxLen: nat) returns (len: nat)
    requires 0 < dist <= |win|
    ensures len == MatchLength(win, look, dist, Min(|look|, maxLen))
  {
    len := 0;
    var start := |win| - dist;
    ghost var limit := Min(|look|, maxLen);
    while len < |look| && len < maxLen
      invariant len <= limit && Matches(win, look, dist, len)
    {
      if win[start + len % dist] != look[len] {
        break;
      }
      len := len + 1;
    }
    LongestIsUnique(win, look, dist, limit, len);
  }

  lemma LongestIsUnique(win: seq<int>, look: seq<int>, dist: nat, limit: nat, len: nat)
    requires 0 < dist <= |win| && limit <= |look| && len <= limit && Matches(win, look, dist, len)
    requires len < limit ==> win[|win| - dist + len % dist] != look[len]
    ensures len == MatchLength(win, look, dist, limit)
  {
    hide Matches;
    var m := MatchLength(win, look, dist, limit);
    if m > len {
      MatchedByte(win, look, dist, m, len);
    }
  }

  /** `jsLz77Run` on an arbitrary window and lookahead. */
  method JsLz77(win: seq<int>, look: seq<int>, maxDist: nat, maxLen: nat) returns (bestLen: nat, bestDist: nat)
    ensures BestUpTo(win, look, Min(|look|, maxLen), Min(maxDist, |win|), bestLen, bestDist)
  {
    hide MatchLength;
    bestLen, bestDist := 0, 0;
    var dist := 1;
    while dist <= maxDist && dist <= |win|
      invariant 1 <= dist <= Min(maxDist, |win|) + 1
      invariant BestUpTo(win, look, Min(|look|, maxLen), dist - 1, bestLen, bestDist)
    {
      var len := MeasureMatch(win, look, dist, maxLen);
      if len > bestLen {
        bestLen := len;
        bestDist := dist;
      }
      dist := dist + 1;
    }
  }

  // ---- What the pair stands for ----

  /** Copying `len` bytes from `dist` back, one at a time, so that copied bytes can be copied again (section 3.2.3 of
      RFC 1951). */
  function Copy(out: seq<int>, dist: nat, len: nat): (r: seq<int>)
    requires 0 < dist <= |out|
    ensures |r| == |out| + len && r[..|out|] == out
  {
    if len == 0 then out
    else
      var r := Copy(out, dist, len - 1);
      r + [r[|r| - dist]]
  }

  /** The i-th byte a copy appends. */
  ghost function CopyAt(out: seq<int>, dist: nat, len: nat, i: nat): int
    requires 0 < dist <= |out| && i < len
  {
    Copy(out, dist, len)[|out| + i]
  }

  /** The k-th byte of the stretch of `dist` bytes at the end of the output. */
  ghost function Source(out: seq<int>, dist: nat, k: nat): int
    requires k < dist <= |out|
  {
    out[|out| - dist + k]
  }

  lemma CopyStep(out: seq<int>, dist: nat, len: nat, i: nat)
    requires 0 < dist <= |out| && i < len
    ensures i < len - 1 ==> CopyAt(out, dist, len, i) == CopyAt(out, dist, len - 1, i)
    ensures i == len - 1 && i < dist ==> CopyAt(out, dist, len, i) == Source(out, dist, i)
    ensures i == len - 1 && i >= dist ==> CopyAt(out, dist, len, i) == CopyAt(out, dist, len - 1, i - dist)
  {
    var r := Copy(out, dist, len - 1);
    if i == len - 1 && i < dist {
      assert r[..|out|][|out| - dist + i] == r[|out| - dist + i];
    }
  }

  /** Where in the repeated stretch the i-th copied byte comes from. */
  ghost function Phase(i: nat, dist: nat): (k: nat)
    requires dist > 0
    ensures k < dist
  {
    i % dist
  }

  lemma PhaseWraps(i: nat, dist: nat)
    requires dist > 0
    ensures i < dist ==> Phase(i, dist) == i
    ensures i >= dist ==> Phase(i, dist) == Phase(i - dist, dist)
  {
    if i < dist {
      DivisionIsUnique(i, dist, 0, i);
    } else {
      WrapAround(i, dist);
    }
  }

  lemma {:induction false} CopiedByte(out: seq<int>, dist: nat, len: nat, i: nat)
    requires 0 < dist <= |out| && i < len
    ensures CopyAt(out, dist, len, i) == Source(out, dist, Phase(i, dist))
    decreases len
  {
    CopyStep(out, dist, len, i);
    PhaseWraps(i, dist);
    hide *;
    if i < len - 1 {
      CopiedByte(out, dist, len - 1, i);
    } else if i >= dist {
      CopiedByte(out, dist, len - 1, i - dist);
    }
  }

  lemma WrapAround(i: nat, dist: nat)
    requires 0 < dist <= i
    ensures (i - dist) % dist == i % dist
  {
    var q, r := i / dist, i % dist;
    assert i - dist == dist * (q - 1) + r;
    DivisionIsUnique(i - dist, dist, q - 1, r);
  }

  lemma AtLeastOnce(d: int, k: int)
    requires d > 0 && k >= 1
    ensures d * k >= d
  {
  }

  lemma DivisionIsUnique(i: int, d: int, q: int, r: int)
    requires d > 0 && i == d * q + r && 0 <= r < d
    ensures i % d == r
  {
    var q', r' := i / d, i % d;
    assert i == d * q' + r';
    assert d * (q' - q) == r - r' by { assert d * (q' - q) == d * q' - d * q; }
    assert d * (q - q') == -(d * (q' - q));
    if q' > q { AtLeastOnce(d, q' - q); }
    if q' < q { AtLeastOnce(d, q - q'); }
  }

  /** A match of `len` bytes is exactly a copy that reproduces the lookahead: indexing modulo the distance is
      overlapped copying. */
  lemma MatchIsCopy(win: seq<int>, look: seq<int>, dist: nat, len: nat)
    requires 0 < dist <= |win| && len <= |look|
    ensures Matches(win, look, dist, len) <==> Copy(win, dist, len) == win + look[..len]
  {
    var r := Copy(win, dist, len);
    forall i: nat | i < len ensures r[|win| + i] == win[|win| - dist + i % dist] {
      CopiedByte(win, dist, len, i);
    }
    if Matches(win, look, dist, len) {
      forall j | 0 <= j < |r| ensures r[j] == (win + look[..len])[j] {
        if j < |win| {
          assert r[..|win|][j] == win[j];
        } else {
          assert win[|win| - dist + (j - |win|) % dist] == look[j - |win|];
        }
      }
      assert r == win + look[..len];
    }
    if r == win + look[..len] {
      forall i | 0 <= i < len ensures win[|win| - dist + i % dist] == look[i] {
        assert r[|win| + i] == look[i];
      }
    }
  }

  /** Decoding the pair the search returns reproduces the start of the lookahead, and no allowed distance could have
      reproduced more. */
  lemma BestMatchDecodes(win: seq<int>, look: seq<int>, limit: nat, farthest: nat, len: nat, dist: nat)
    requires farthest <= |win| && limit <= |look| && BestUpTo(win, look, limit, farthest, len, dist)
    ensures len > 0 ==> 0 < dist <= |win| && len <= |look| && Copy(win, dist, len) == win + look[..len]
    ensures forall d, k :: 1 <= d <= farthest && len < k <= limit ==> Copy(win, d, k) != win + look[..k]
  {
    if len > 0 {
      MatchIsCopy(win, look, dist, len);
    }
    forall d, k | 1 <= d <= farthest && len < k <= limit ensures Copy(win, d, k) != win + look[..k] {
      MatchIsCopy(win, look, d, k);
      assert MatchLength(win, look, d, limit) < k;
    }
  }
}
