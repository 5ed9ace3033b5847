/** Drawing the quotes of a response from the candidate set, without replacement. */
module Sampling {
  import opened Quotes

  /** No value occurs twice in `s`. */
  predicate Distinct(s: seq<int>)
  {
    forall i, j :: 0 <= i < j < |s| ==> s[i] != s[j]
  }

  /** `out` is `s` read at the indices `picks`, no index twice: a draw without replacement. */
  predicate DrawnFrom(out: seq<Quote>, s: seq<Quote>, picks: seq<int>)
  {
    |out| == |picks| && Distinct(picks) &&
    forall k :: 0 <= k < |picks| ==> 0 <= picks[k] < |s| && out[k] == s[picks[k]]
  }

  /** Drawing one more index that was not drawn before extends a draw without replacement. */
  lemma DrawnFromSnoc(out: seq<Quote>, s: seq<Quote>, picks: seq<int>, i: int)
    requires DrawnFrom(out, s, picks) && 0 <= i < |s| && i !in picks
    ensures DrawnFrom(out + [s[i]], s, picks + [i])
  {
  }

  /** The set of values that occur in `s`. */
  function Values(s: seq<int>): set<int>
  {
    set x | x in s
  }

  /** The values of `s` in order of first occurrence: the indices a rejection
      loop keeps when it is fed the draws `s` and skips every index it has seen. */
  function Dedup(s: seq<int>): (r: seq<int>)
    ensures Distinct(r)
  {
    if s == [] then []
    else if s[|s| - 1] in Dedup(s[..|s| - 1]) then Dedup(s[..|s| - 1])
    else Dedup(s[..|s| - 1]) + [s[|s| - 1]]
  }

  /** Every draw is kept once: the kept indices are exactly the drawn ones. */
  lemma {:induction false} DedupValues(s: seq<int>)
    ensures Values(Dedup(s)) == Values(s)
    ensures |Dedup(s)| == |Values(s)|
  {
    if s != [] {
      var s', x := s[..|s| - 1], s[|s| - 1];
      DedupValues(s');
      assert s == s' + [x];
      assert Values(s) == Values(s') + {x};
      if x !in Dedup(s') {
        assert Values(Dedup(s)) == Values(Dedup(s')) + {x};
      }
    }
  }

  /** One more draw is kept exactly when it has not been seen before. */
  lemma DedupSnoc(s: seq<int>, x: int)
    ensures Dedup(s + [x]) == if x in Dedup(s) then Dedup(s) else Dedup(s) + [x]
  {
    assert (s + [x])[..|s + [x]| - 1] == s;
  }

  /** Feeding more draws only extends the indices already kept. */
  lemma {:induction false} DedupPrefix(s: seq<int>, m: nat)
    requires m <= |s|
    ensures Dedup(s[..m]) <= Dedup(s)
    decreases |s|
  {
    if m < |s| {
      var s' := s[..|s| - 1];
      assert s[..m] == s'[..m];
      DedupPrefix(s', m);
    } else {
      assert s[..m] == s;
    }
  }

  /** `s` with the entries at `i` and `j` exchanged. */
  function Swapped<T>(s: seq<T>, i: nat, j: nat): (r: seq<T>)
    requires i < |s| && j < |s|
    ensures |r| == |s| && r[i] == s[j] && r[j] == s[i]
    ensures forall k :: 0 <= k < |s| && k != i && k != j ==> r[k] == s[k]
  {
    s[i := s[j]][j := s[i]]
  }

  /** Exchanging two positions of a draw, in the result and in its indices alike,
      is again a draw without replacement. */
  lemma SwappedDrawnFrom(out: seq<Quote>, s: seq<Quote>, perm: seq<int>, i: nat, j: nat)
    requires DrawnFrom(out, s, perm) && i < |perm| && j < |perm|
    ensures DrawnFrom(Swapped(out, i, j), s, Swapped(perm, i, j))
  {
    var r := Swapped(perm, i, j);
    forall a, b | 0 <= a < b < |r| ensures r[a] != r[b] {
      var a' := if a == i then j else if a == j then i else a;
      var b' := if b == i then j else if b == j then i else b;
      assert r[a] == perm[a'] && r[b] == perm[b'] && a' != b';
    }
  }

  /** Exchanging two entries of an array in place. */
  method Swap(a: array<Quote>, i: nat, j: nat)
    requires i < a.Length && j < a.Length
    modifies a
    ensures a[..] == Swapped(old(a[..]), i, j)
    ensures multiset(a[..]) == multiset(old(a[..]))
  {
    a[i], a[j] := a[j], a[i];
  }

  /** A shuffled copy of the first `len` entries of `src`: the copy is shuffled by
      swapping position `i` with an arbitrary position `j <= i`, for `i` from
      `len - 1` down to `1` (a Fisher-Yates shuffle whose draws are left open).
      `perm` says which entry of `src` each position of the result came from. */
  method ShuffledCopy(src: array<Quote>, len: nat) returns (out: seq<Quote>, ghost perm: seq<int>)
    requires len <= src.Length
    ensures |out| == len && multiset(out) == multiset(src[..len])
    ensures |perm| == len && DrawnFrom(out, src[..len], perm)
  {
    var cp := new Quote[len];
    forall k | 0 <= k < len {
      cp[k] := src[k];
    }
    ghost var s := src[..len];
    assert cp[..] == s;
    perm := seq(len, k => k);
    var i := len - 1;
    while i > 0
      invariant -1 <= i < len
      invariant DrawnFrom(cp[..], s, perm)
      invariant multiset(cp[..]) == multiset(s)
    {
      var j :| 0 <= j <= i;
      SwappedDrawnFrom(cp[..], s, perm, i, j);
      Swap(cp, i, j);
      perm := Swapped(perm, i, j);
      i := i - 1;
    }
    out := cp[..];
  }

  /** Reading draw `pos` keeps it exactly when it has not been kept before. */
  lemma DedupStep(draws: seq<int>, pos: nat)
    requires pos < |draws|
    ensures Dedup(draws[..pos + 1]) ==
      if draws[pos] in Dedup(draws[..pos]) then Dedup(draws[..pos]) else Dedup(draws[..pos]) + [draws[pos]]
  {
    assert draws[..pos + 1] == draws[..pos] + [draws[pos]];
    DedupSnoc(draws[..pos], draws[pos]);
  }

  /** While fewer than `n` distinct indices are kept, some draw is still unread. */
  lemma DrawsRemain(draws: seq<int>, pos: nat, n: nat)
    requires pos <= |draws| && |Dedup(draws[..pos])| < n <= |Values(draws)|
    ensures pos < |draws|
  {
    DedupValues(draws);
    assert draws[..|draws|] == draws;
  }

  /** Rejection sampling of `n` distinct indices of `[0, len)`: each of `draws` is
      the outcome of one uniform draw, and an index already seen is skipped.
      The draws must hold `n` distinct indices; those not needed are never read.
      The result is `src` at the first `n` distinct draws, in order of drawing. */
  method DrawDistinct(src: array<Quote>, len: nat, n: nat, draws: seq<int>)
    returns (out: seq<Quote>, ghost picks: seq<int>)
    requires len <= src.Length
    requires forall d :: d in draws ==> 0 <= d < len
    requires n <= |Values(draws)|
    ensures |out| == n && picks <= Dedup(draws)
    ensures DrawnFrom(out, src[..len], picks)
  {
    ghost var s := src[..len];
    var seen: set<int> := {};
    out, picks := [], [];
    var pos := 0;
    while |out| < n
      invariant 0 <= pos <= |draws|
      invariant picks == Dedup(draws[..pos])
      invariant forall x :: x in seen <==> x in picks
      invariant |picks| <= n
      invariant DrawnFrom(out, s, picks)
      decreases |draws| - pos
    {
      DrawsRemain(draws, pos, n);
      var i := draws[pos];
      assert i in draws;
      DedupStep(draws, pos);
      pos := pos + 1;
      if i in seen {
        continue;
      }
      DrawnFromSnoc(out, s, picks, i);
      seen := seen + {i};
      out := out + [src[i]];
      picks := picks + [i];
    }
    DedupPrefix(draws, pos);
  }

  /** Whether `draws` can feed a sample of `n` out of `len` entries: only the
      rejection branch (`n < len`) reads them, and it needs every draw to be an
      index in `[0, len)` and at least `n` distinct indices among them. */
  predicate DrawsSuffice(draws: seq<int>, len: nat, n: nat)
  {
    n < len ==> (forall d :: d in draws ==> 0 <= d < len) && n <= |Values(draws)|
  }

  /** The quotes a response carries: `n` of the first `len` entries of `src`, never
      the same entry twice. When `n >= len` every entry is taken, in shuffled order;
      otherwise `n` distinct indices are drawn from `draws`.
      `picks` are the indices of `src` that the result was taken from. */
  method Sample(src: array<Quote>, len: nat, n: nat, draws: seq<int>)
    returns (out: seq<Quote>, ghost picks: seq<int>)
    requires len <= src.Length
    requires DrawsSuffice(draws, len, n)
    ensures |out| == if n >= len then len else n
    ensures DrawnFrom(out, src[..len], picks)
    ensures n >= len ==> multiset(out) == multiset(src[..len])
    ensures n < len ==> picks <= Dedup(draws)
  {
    if n >= len {
      out, picks := ShuffledCopy(src, len);
    } else {
      out, picks := DrawDistinct(src, len, n, draws);
    }
  }

  /** Entries taken at pairwise distinct indices of a sequence without repeated
      identifiers carry no repeated identifiers either. */
  lemma DistinctPicksUniqueIds(s: seq<Quote>, picks: seq<int>, out: seq<Quote>)
    requires UniqueIds(s) && DrawnFrom(out, s, picks)
    ensures UniqueIds(out)
  {
    forall i, j | 0 <= i < j < |out| ensures out[i].id != out[j].id {
      if picks[i] < picks[j] {
        assert s[picks[i]].id != s[picks[j]].id;
      } else {
        assert s[picks[j]].id != s[picks[i]].id;
      }
    }
  }
}
