/**
 * The order-preserving name filter that `config.New` and `readMode.resolve`
 * both run: keep each name a predicate accepts, in input order.
 */
module Filters {
  /** `strings.HasPrefix(name, ".")`: a hidden file name. */
  predicate Hidden(name: string)
  {
    |name| > 0 && name[0] == '.'
  }

  /** `xs` can be obtained from `ys` by deleting elements, the rest keeping their order. */
  ghost predicate Subsequence(xs: seq<string>, ys: seq<string>)
    decreases |ys|
  {
    || xs == []
    || (&& ys != []
        && (|| (xs[|xs| - 1] == ys[|ys| - 1] && Subsequence(xs[..|xs| - 1], ys[..|ys| - 1]))
            || Subsequence(xs, ys[..|ys| - 1])))
  }

  /** The names of `ts` that `keep` accepts, in their order. */
  function Filter(keep: string -> bool, ts: seq<string>): (r: seq<string>)
    ensures |r| <= |ts|
    ensures forall x :: x in r <==> x in ts && keep(x)
  {
    if ts == [] then []
    else
      var init := ts[..|ts| - 1];
      var last := ts[|ts| - 1];
      assert ts == init + [last];
      if keep(last) then Filter(keep, init) + [last] else Filter(keep, init)
  }

  /** Filtering distributes over concatenation, so the kept names keep their relative order. */
  lemma {:induction false} FilterAppend(keep: string -> bool, a: seq<string>, b: seq<string>)
    ensures Filter(keep, a + b) == Filter(keep, a) + Filter(keep, b)
    decreases |b|
  {
    if b != [] {
      var init := b[..|b| - 1];
      assert (a + b)[..|a + b| - 1] == a + init;
      assert (a + b)[|a + b| - 1] == b[|b| - 1];
      FilterAppend(keep, a, init);
    } else {
      assert a + b == a;
    }
  }

  /** Every name of the result is accepted, and filtering it again changes nothing. */
  lemma {:induction false} FilterIdempotent(keep: string -> bool, ts: seq<string>)
    ensures Filter(keep, Filter(keep, ts)) == Filter(keep, ts)
    decreases |ts|
  {
    if ts != [] {
      var init := ts[..|ts| - 1];
      var last := ts[|ts| - 1];
      FilterIdempotent(keep, init);
      if keep(last) {
        FilterAppend(keep, Filter(keep, init), [last]);
        assert [last][..0] == [];
      }
    }
  }

  /** The result of a filter is a subsequence of its input: nothing is reordered or invented. */
  lemma {:induction false} FilterSubsequence(keep: string -> bool, ts: seq<string>)
    ensures Subsequence(Filter(keep, ts), ts)
    decreases |ts|
  {
    if ts != [] {
      var init := ts[..|ts| - 1];
      var r := Filter(keep, init);
      FilterSubsequence(keep, init);
      if keep(ts[|ts| - 1]) {
        assert (r + [ts[|ts| - 1]])[..|r|] == r;
      }
    }
  }
}
