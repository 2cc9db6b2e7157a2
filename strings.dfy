/**
 * The parts of Go's `strings`, `sort` and `fmt` packages that the repository
 * relies on: splitting and joining on a one-character separator, the ordering
 * `sort.Strings` uses, and decimal formatting of a count.
 */
module Strings {

  /** `strings.Split(s, string(sep))`: the pieces of `s` between occurrences of `sep`. */
  function Split(s: string, sep: char): (parts: seq<string>)
    ensures |parts| >= 1
    ensures forall i :: 0 <= i < |parts| ==> sep !in parts[i]
  {
    if s == [] then [""]
    else
      var rest := Split(s[1..], sep);
      if s[0] == sep then [""] + rest
      else [[s[0]] + rest[0]] + rest[1..]
  }

  /** `strings.Join(parts, string(sep))`. */
  function JoinWith(parts: seq<string>, sep: char): string
  {
    if |parts| == 0 then ""
    else if |parts| == 1 then parts[0]
    else parts[0] + [sep] + JoinWith(parts[1..], sep)
  }

  /** Joining the pieces of a split gives back the original string. */
  lemma {:induction false} JoinSplit(s: string, sep: char)
    ensures JoinWith(Split(s, sep), sep) == s
  {
    if s != [] {
      var rest := Split(s[1..], sep);
      JoinSplit(s[1..], sep);
      if s[0] == sep {
        assert Split(s, sep) == [""] + rest;
        assert JoinWith(Split(s, sep), sep) == "" + [sep] + JoinWith(rest, sep);
        assert s == [sep] + s[1..];
      } else {
        var parts := Split(s, sep);
        assert parts == [[s[0]] + rest[0]] + rest[1..];
        if |rest| == 1 {
          assert JoinWith(parts, sep) == [s[0]] + rest[0];
        } else {
          assert parts[1..] == rest[1..];
          assert JoinWith(parts, sep) == [s[0]] + rest[0] + [sep] + JoinWith(rest[1..], sep);
          assert JoinWith(rest, sep) == rest[0] + [sep] + JoinWith(rest[1..], sep);
        }
        assert s == [s[0]] + s[1..];
      }
    }
  }

  /** Splitting a string that starts with a separator-free piece `p` extends the first piece. */
  lemma {:induction false} SplitPrefix(p: string, rest: string, sep: char)
    requires sep !in p
    ensures Split(p + rest, sep) == [p + Split(rest, sep)[0]] + Split(rest, sep)[1..]
  {
    var R := Split(rest, sep);
    if p != [] {
      SplitPrefix(p[1..], rest, sep);
      assert p + rest == [p[0]] + (p[1..] + rest);
      SplitCons(p[0], p[1..] + rest, sep);
      assert [p[0]] + (p[1..] + R[0]) == p + R[0];
    } else {
      assert p + rest == rest;
      assert p + R[0] == R[0];
      assert R == [R[0]] + R[1..];
    }
  }

  /** A character other than the separator joins the first piece of what follows. */
  lemma SplitCons(c: char, rest: string, sep: char)
    requires c != sep
    ensures Split([c] + rest, sep) == [[c] + Split(rest, sep)[0]] + Split(rest, sep)[1..]
  {
    assert ([c] + rest)[1..] == rest;
  }

  /** Splitting the join of separator-free pieces gives back the pieces. */
  lemma {:induction false} SplitJoin(parts: seq<string>, sep: char)
    requires |parts| >= 1
    requires forall i :: 0 <= i < |parts| ==> sep !in parts[i]
    ensures Split(JoinWith(parts, sep), sep) == parts
  {
    if |parts| == 1 {
      SplitPrefix(parts[0], "", sep);
      assert parts[0] + "" == parts[0];
    } else {
      var tail := JoinWith(parts[1..], sep);
      SplitJoin(parts[1..], sep);
      assert Split([sep] + tail, sep) == [""] + Split(tail, sep) by {
        assert ([sep] + tail)[1..] == tail;
      }
      SplitPrefix(parts[0], [sep] + tail, sep);
      assert JoinWith(parts, sep) == parts[0] + ([sep] + tail);
      assert parts[0] + "" == parts[0];
      assert parts == [parts[0]] + parts[1..];
    }
  }

  /** Go's `<` on strings: lexicographic comparison, character by character. */
  predicate Less(a: string, b: string)
  {
    if a == [] then b != []
    else b != [] && (a[0] < b[0] || (a[0] == b[0] && Less(a[1..], b[1..])))
  }

  predicate LessEq(a: string, b: string)
  {
    a == b || Less(a, b)
  }

  lemma {:induction false} LessIrreflexive(a: string)
    ensures !Less(a, a)
  {
    if a != [] {
      LessIrreflexive(a[1..]);
    }
  }

  lemma {:induction false} LessAsymmetric(a: string, b: string)
    requires Less(a, b)
    ensures !Less(b, a)
  {
    if a != [] && b != [] && a[0] == b[0] {
      LessAsymmetric(a[1..], b[1..]);
    }
  }

  lemma {:induction false} LessTransitive(a: string, b: string, c: string)
    requires Less(a, b) && Less(b, c)
    ensures Less(a, c)
  {
    if a != [] && a[0] == b[0] && b[0] == c[0] {
      LessTransitive(a[1..], b[1..], c[1..]);
    }
  }

  lemma {:induction false} LessTotal(a: string, b: string)
    ensures a == b || Less(a, b) || Less(b, a)
  {
    if a != [] && b != [] && a[0] == b[0] {
      LessTotal(a[1..], b[1..]);
      if a[1..] == b[1..] {
        assert a == [a[0]] + a[1..] && b == [b[0]] + b[1..];
      }
    }
  }

  lemma LessEqTransitive(a: string, b: string, c: string)
    requires LessEq(a, b) && LessEq(b, c)
    ensures LessEq(a, c)
  {
    if a != b && b != c {
      LessTransitive(a, b, c);
    }
  }

  lemma LessEqAntisymmetric(a: string, b: string)
    requires LessEq(a, b) && LessEq(b, a)
    ensures a == b
  {
    if a != b {
      LessAsymmetric(a, b);
    }
  }

  /** The order `sort.Strings` leaves a slice in. */
  ghost predicate Sorted(s: seq<string>)
  {
    forall i, j :: 0 <= i < j < |s| ==> LessEq(s[i], s[j])
  }

  /** Sorted without duplicates. */
  ghost predicate StrictlySorted(s: seq<string>)
  {
    forall i, j :: 0 <= i < j < |s| ==> Less(s[i], s[j])
  }

  lemma SortedCons(y: string, t: seq<string>)
    requires Sorted(t)
    requires forall z :: z in t ==> LessEq(y, z)
    ensures Sorted([y] + t)
  {
    forall i, j | 0 <= i < j < |[y] + t|
      ensures LessEq(([y] + t)[i], ([y] + t)[j])
    {
      if i == 0 {
        assert ([y] + t)[j] == t[j - 1];
      } else {
        assert ([y] + t)[i] == t[i - 1] && ([y] + t)[j] == t[j - 1];
      }
    }
  }

  /** One step of insertion sort. */
  function InsertSorted(x: string, s: seq<string>): (r: seq<string>)
    requires Sorted(s)
    ensures Sorted(r)
    ensures multiset(r) == multiset(s) + multiset{x}
  {
    if s == [] then [x]
    else if LessEq(x, s[0]) then
      BelowHead(x, s);
      SortedCons(x, s);
      assert s == [s[0]] + s[1..];
      [x] + s
    else
      var t := InsertSorted(x, s[1..]);
      HeadBelowInserted(x, s, t);
      SortedCons(s[0], t);
      assert s == [s[0]] + s[1..];
      [s[0]] + t
  }

  /** Something at most the head of a sorted sequence is at most all of it. */
  lemma BelowHead(x: string, s: seq<string>)
    requires Sorted(s) && s != [] && LessEq(x, s[0])
    ensures forall z :: z in s ==> LessEq(x, z)
  {
    forall z | z in s ensures LessEq(x, z) {
      var k :| 0 <= k < |s| && s[k] == z;
      if k > 0 { LessEqTransitive(x, s[0], z); }
    }
  }

  /** The head stays below the tail with `x` inserted, when `x` is above the head. */
  lemma HeadBelowInserted(x: string, s: seq<string>, t: seq<string>)
    requires Sorted(s) && s != [] && !LessEq(x, s[0])
    requires multiset(t) == multiset(s[1..]) + multiset{x}
    ensures forall z :: z in t ==> LessEq(s[0], z)
  {
    forall z | z in t ensures LessEq(s[0], z) {
      assert z in multiset(t);
      if z == x {
        LessTotal(x, s[0]);
      } else {
        assert z in multiset(s[1..]);
        var k :| 0 <= k < |s[1..]| && s[1..][k] == z;
        assert s[k + 1] == z;
      }
    }
  }

  /** `sort.Strings`: the same strings, in ascending order. */
  function Sort(s: seq<string>): (r: seq<string>)
    ensures Sorted(r)
    ensures multiset(r) == multiset(s)
  {
    if s == [] then []
    else
      assert s == [s[0]] + s[1..];
      InsertSorted(s[0], Sort(s[1..]))
  }

  /** A sorted arrangement of a multiset of strings is unique. */
  lemma {:induction false} SortedUnique(a: seq<string>, b: seq<string>)
    requires Sorted(a) && Sorted(b)
    requires multiset(a) == multiset(b)
    ensures a == b
  {
    if a != [] {
      SameHeads(a, b);
      SortedTail(a);
      SortedTail(b);
      SortedUnique(a[1..], b[1..]);
      assert a == [a[0]] + a[1..] && b == [b[0]] + b[1..];
    }
  }

  /** Two sorted arrangements of the same multiset start alike, and so do their remainders. */
  lemma SameHeads(a: seq<string>, b: seq<string>)
    requires Sorted(a) && Sorted(b) && a != []
    requires multiset(a) == multiset(b)
    ensures b != [] && a[0] == b[0]
    ensures multiset(a[1..]) == multiset(b[1..])
  {
    assert |b| == |a| by {
      assert |multiset(a)| == |a| && |multiset(b)| == |b|;
    }
    assert a[0] in multiset(b);
    assert b[0] in multiset(a);
    SortedHeadLeast(b, a[0]);
    SortedHeadLeast(a, b[0]);
    LessEqAntisymmetric(a[0], b[0]);
    assert a == [a[0]] + a[1..] && b == [b[0]] + b[1..];
    assert multiset(a[1..]) == multiset(a) - multiset{a[0]};
    assert multiset(b[1..]) == multiset(b) - multiset{b[0]};
  }

  lemma SortedTail(a: seq<string>)
    requires Sorted(a) && a != []
    ensures Sorted(a[1..])
  {
    forall i, j | 0 <= i < j < |a[1..]| ensures LessEq(a[1..][i], a[1..][j]) {
      assert a[1..][i] == a[i + 1] && a[1..][j] == a[j + 1];
    }
  }

  /** The head of a sorted sequence is at most any of its elements. */
  lemma SortedHeadLeast(a: seq<string>, x: string)
    requires Sorted(a) && x in a
    ensures LessEq(a[0], x)
  {
    var i :| 0 <= i < |a| && a[i] == x;
    if i > 0 {
      assert LessEq(a[0], a[i]);
    }
  }

  /** Sorting depends only on which strings are given, not on their order. */
  lemma SortPermutationInvariant(a: seq<string>, b: seq<string>)
    requires multiset(a) == multiset(b)
    ensures Sort(a) == Sort(b)
  {
    SortedUnique(Sort(a), Sort(b));
  }

  /** Some listing of a set's members, each once (the order of a Go map range). */
  ghost function SetToSeq(st: set<string>): (r: seq<string>)
    ensures multiset(r) == multiset(st)
  {
    if st == {} then []
    else
      var x :| x in st;
      assert multiset(st) == multiset(st - {x}) + multiset{x};
      [x] + SetToSeq(st - {x})
  }

  /** Two equal elements at different indices occur twice in the multiset. */
  lemma TwoOccurrences(r: seq<string>, i: nat, j: nat)
    requires i < j < |r|
    ensures r[i] == r[j] ==> multiset(r)[r[i]] >= 2
  {
    assert r == r[..j] + r[j..];
    assert r[i] == r[..j][i];
    assert r[j] == r[j..][0];
    assert multiset(r)[r[i]] == multiset(r[..j])[r[i]] + multiset(r[j..])[r[i]];
  }

  /** A sorted sequence whose multiset has no repeated member has no repeated element. */
  lemma SortedDistinctIsStrict(r: seq<string>, st: set<string>)
    requires Sorted(r)
    requires multiset(r) == multiset(st)
    ensures StrictlySorted(r)
  {
    forall i, j | 0 <= i < j < |r| ensures Less(r[i], r[j]) {
      TwoOccurrences(r, i, j);
      assert multiset(st)[r[i]] <= 1;
    }
  }

  /** The members of a set in ascending order, each once. */
  ghost function SortedKeys(st: set<string>): (r: seq<string>)
    ensures StrictlySorted(r)
    ensures forall x :: x in r <==> x in st
    ensures |r| == |st|
  {
    var r := Sort(SetToSeq(st));
    assert |multiset(r)| == |multiset(st)|;
    SortedDistinctIsStrict(r, st);
    assert forall x :: x in r <==> x in multiset(st);
    r
  }

  /**
   * Collect the members of a set in whatever order a map range yields them and
   * sort them: the idiom `for k := range m { arr = append(arr, k) }; sort.Strings(arr)`.
   */
  method CollectSorted(st: set<string>) returns (arr: seq<string>)
    ensures arr == SortedKeys(st)
  {
    arr := [];
    var rest := st;
    while rest != {}
      invariant rest <= st
      invariant multiset(arr) + multiset(rest) == multiset(st)
      decreases rest
    {
      var k :| k in rest;
      arr := arr + [k];
      assert multiset(rest) == multiset(rest - {k}) + multiset{k};
      rest := rest - {k};
    }
    arr := Sort(arr);
    SortedUnique(arr, Sort(SetToSeq(st)));
  }

  /** The decimal digit for `d`. */
  function Digit(d: nat): char
    requires d < 10
  {
    "0123456789"[d]
  }

  /** `fmt.Sprintf("%d", n)` for a non-negative `n`. */
  function DecimalString(n: nat): (s: string)
    ensures |s| >= 1
    ensures forall i :: 0 <= i < |s| ==> '0' <= s[i] <= '9'
    ensures s[0] == '0' ==> n == 0
  {
    if n < 10 then [Digit(n)] else DecimalString(n / 10) + [Digit(n % 10)]
  }

  /** The number a string of decimal digits denotes. */
  function DecimalValue(s: string): nat
    requires forall i :: 0 <= i < |s| ==> '0' <= s[i] <= '9'
  {
    if s == [] then 0
    else 10 * DecimalValue(s[..|s| - 1]) + (s[|s| - 1] as int - '0' as int)
  }

  /** Formatting a count and reading it back gives the count. */
  lemma {:induction false} DecimalRoundTrip(n: nat)
    ensures DecimalValue(DecimalString(n)) == n
  {
    var s := DecimalString(n);
    if n < 10 {
      assert s[..0] == [];
    } else {
      DecimalRoundTrip(n / 10);
      assert s[..|s| - 1] == DecimalString(n / 10);
    }
  }
}
