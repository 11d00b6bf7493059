/**
 * Insertion-ordered string-keyed tables (a Python dict, a parsed JSON object
 * enumerated by `Object.keys` or `for ... in`) and the bounded linear scans
 * the lookup code runs over their keys.
 */
module Tables {
  import opened Text

  /** No key appears twice. */
  predicate Distinct(s: seq<string>) {
    forall i, j :: 0 <= i < j < |s| ==> s[i] != s[j]
  }

  /**
   * A table: its keys in enumeration (insertion) order, and the value stored
   * under each. A well-formed table lists every key of `entries` exactly once.
   */
  datatype Table<V> = Table(keys: seq<string>, entries: map<string, V>) {
    ghost predicate Valid() {
      Distinct(keys) && forall k :: k in entries <==> k in keys
    }
  }

  /** What a key scan looks for. */
  datatype Query = HasPrefix(prefix: string) | HasInfix(infix: string)

  predicate Accepts(q: Query, k: string) {
    match q
    case HasPrefix(p) => StartsWith(k, p)
    case HasInfix(x) => Contains(k, x)
  }

  /** The keys of `ks` that `q` accepts, in the order of `ks`. */
  function Filter(ks: seq<string>, q: Query): (r: seq<string>)
    ensures |r| <= |ks|
    ensures forall k :: k in r ==> k in ks && Accepts(q, k)
  {
    if ks == [] then [] else (if Accepts(q, ks[0]) then [ks[0]] else []) + Filter(ks[1..], q)
  }

  /** No accepted key is missed. */
  lemma {:induction false} FilterComplete(ks: seq<string>, q: Query, k: string)
    requires k in ks && Accepts(q, k)
    ensures k in Filter(ks, q)
  {
    if ks[0] != k {
      FilterComplete(ks[1..], q, k);
    }
  }

  lemma {:induction false} FilterAppend(a: seq<string>, b: seq<string>, q: Query)
    ensures Filter(a + b, q) == Filter(a, q) + Filter(b, q)
  {
    if a != [] {
      assert (a + b)[1..] == a[1..] + b;
      FilterAppend(a[1..], b, q);
    } else {
      assert a + b == b;
    }
  }

  /** Scanning one more key appends it exactly when it is accepted. */
  lemma FilterStep(ks: seq<string>, q: Query, i: nat)
    requires i < |ks|
    ensures Filter(ks[..i + 1], q) == Filter(ks[..i], q) + (if Accepts(q, ks[i]) then [ks[i]] else [])
  {
    assert ks[..i + 1] == ks[..i] + [ks[i]];
    FilterAppend(ks[..i], [ks[i]], q);
    assert Filter([ks[i]], q) == (if Accepts(q, ks[i]) then [ks[i]] else []) + Filter([], q);
  }

  /** In a table without repeated keys, a key is not among the matches found before it. */
  lemma FilterNotYetSeen(ks: seq<string>, q: Query, i: nat)
    requires Distinct(ks) && i < |ks|
    ensures ks[i] !in Filter(ks[..i], q)
  {
  }

  lemma {:induction false} FilterDistinct(ks: seq<string>, q: Query)
    requires Distinct(ks)
    ensures Distinct(Filter(ks, q))
  {
    if ks != [] {
      assert Distinct(ks[1..]);
      FilterDistinct(ks[1..], q);
      assert ks[0] !in ks[1..];
    }
  }

  /** `a` can be obtained from `b` by deleting elements, without reordering. */
  predicate IsSubsequence(a: seq<string>, b: seq<string>)
    decreases |b|
  {
    if a == [] then true
    else if b == [] then false
    else if a[0] == b[0] then IsSubsequence(a[1..], b[1..])
    else IsSubsequence(a, b[1..])
  }

  /** Filtering never reorders. */
  lemma {:induction false} FilterSubsequence(ks: seq<string>, q: Query)
    ensures IsSubsequence(Filter(ks, q), ks)
  {
    if ks != [] {
      FilterSubsequence(ks[1..], q);
      var rest := Filter(ks[1..], q);
      if Accepts(q, ks[0]) {
        assert Filter(ks, q) == [ks[0]] + rest;
        assert ([ks[0]] + rest)[1..] == rest;
      } else {
        assert Filter(ks, q) == rest;
        if rest != [] {
          assert rest[0] in rest;
        }
      }
    }
  }

  /** A prefix of a subsequence is a subsequence. */
  lemma {:induction false} PrefixOfSubsequence(a: seq<string>, b: seq<string>, n: nat)
    requires IsSubsequence(a, b) && n <= |a|
    ensures IsSubsequence(a[..n], b)
    decreases |b|
  {
    if n > 0 {
      if a[0] == b[0] {
        PrefixOfSubsequence(a[1..], b[1..], n - 1);
        assert a[..n][1..] == a[1..][..n - 1];
      } else {
        PrefixOfSubsequence(a, b[1..], n);
      }
    }
  }

  /** The first `n` elements of `s` (all of them when there are fewer). */
  function Take(s: seq<string>, n: nat): (r: seq<string>)
    ensures r <= s
    ensures |r| == if |s| < n then |s| else n
  {
    if |s| <= n then s else s[..n]
  }

  /** Extending the scanned part by one element extends a short result by it. */
  lemma TakeStep(a: seq<string>, x: string, n: nat)
    ensures Take(a + [x], n) == if |a| < n then a + [x] else Take(a, n)
  {
    if n <= |a| {
      assert (a + [x])[..n] == a[..n];
    }
  }

  /** Once the first part already holds `n` elements, what follows it is cut off. */
  lemma TakeFull(a: seq<string>, b: seq<string>, n: nat)
    requires |a| == n
    ensures Take(a + b, n) == a
  {
    assert (a + b)[..n] == a;
  }

  /** The first `n` keys of `ks` that `q` accepts, in the order of `ks`. */
  function FirstMatches(ks: seq<string>, q: Query, n: nat): (r: seq<string>)
    ensures |r| <= n
    ensures r <= Filter(ks, q)
  {
    Take(Filter(ks, q), n)
  }

  /**
   * Each of the first matches is accepted and is a key; they keep the order
   * of `ks`; they repeat only if `ks` does; fewer than `n` of them means no
   * accepted key was left out.
   */
  lemma FirstMatchesFacts(ks: seq<string>, q: Query, n: nat)
    ensures var r := FirstMatches(ks, q, n);
            && (forall k :: k in r ==> k in ks && Accepts(q, k))
            && IsSubsequence(r, ks)
            && (Distinct(ks) ==> Distinct(r))
            && (|r| < n ==> forall k :: k in ks && Accepts(q, k) ==> k in r)
  {
    var all := Filter(ks, q);
    FilterSubsequence(ks, q);
    PrefixOfSubsequence(all, ks, |Take(all, n)|);
    if Distinct(ks) {
      FilterDistinct(ks, q);
    }
    if |Take(all, n)| < n {
      forall k | k in ks && Accepts(q, k)
        ensures k in all
      {
        FilterComplete(ks, q, k);
      }
    }
  }

  /** An accepted key splits the matches into those before it, itself, and those after it. */
  lemma FilterSplitAt(ks: seq<string>, q: Query, j: nat)
    requires j < |ks| && Accepts(q, ks[j])
    ensures Filter(ks, q) == Filter(ks[..j], q) + [ks[j]] + Filter(ks[j + 1..], q)
  {
    assert ks == ks[..j] + ([ks[j]] + ks[j + 1..]);
    FilterAppend(ks[..j], [ks[j]] + ks[j + 1..], q);
    FilterAppend([ks[j]], ks[j + 1..], q);
    assert Filter([ks[j]], q) == [ks[j]] + Filter([], q);
  }

  /** An element at a position below `n` survives `Take(_, n)`. */
  lemma TakeHas(s: seq<string>, n: nat, i: nat)
    ensures i < |s| && i < n ==> s[i] in Take(s, n)
  {
    if i < |s| && i < n {
      assert Take(s, n)[i] == s[i];
    }
  }

  /**
   * The matches are the EARLIEST ones: an accepted key left out of the result
   * comes after every key in it, and it is left out only because the result
   * is already full.
   */
  lemma FirstMatchesEarliest(ks: seq<string>, q: Query, n: nat, j: nat)
    requires j < |ks| && Accepts(q, ks[j]) && ks[j] !in FirstMatches(ks, q, n)
    ensures |FirstMatches(ks, q, n)| == n
    ensures forall k :: k in FirstMatches(ks, q, n) ==> k in ks[..j]
  {
    var before := Filter(ks[..j], q);
    var all := Filter(ks, q);
    FilterSplitAt(ks, q, j);
    assert all[|before|] == ks[j];
    TakeHas(all, n, |before|);
    assert n <= |before|;
    assert all[..n] == before[..n];
    forall k | k in before[..n]
      ensures k in ks[..j]
    {
      assert k in before;
    }
  }

  /**
   * Python's `s[:n]`: the first `n` elements, or, for negative `n`, all but
   * the last `-n`.
   */
  function SliceTo(s: seq<string>, n: int): (r: seq<string>)
    ensures r <= s
    ensures 0 <= n ==> |r| == if |s| < n then |s| else n
    ensures n < 0 ==> |r| == if |s| + n < 0 then 0 else |s| + n
  {
    if 0 <= n then Take(s, n)
    else if |s| + n < 0 then []
    else s[..|s| + n]
  }

  /** Cutting the scan result with a Python slice keeps order and distinctness. */
  lemma SliceToFacts(ks: seq<string>, q: Query, n: int)
    ensures IsSubsequence(SliceTo(Filter(ks, q), n), ks)
    ensures Distinct(ks) ==> Distinct(SliceTo(Filter(ks, q), n))
  {
    var all := Filter(ks, q);
    FilterSubsequence(ks, q);
    var r := SliceTo(all, n);
    assert r == all[..|r|];
    PrefixOfSubsequence(all, ks, |r|);
    if Distinct(ks) {
      FilterDistinct(ks, q);
    }
  }
}
