/**
 * `cmd/plg/misc.go`: the two comma-separated flag values of the command line,
 * `commalist` (an ordered list) and `commaset` (a set printed in sorted
 * order). Their `Set` methods never fail, so the always-nil error is omitted.
 */
module CommaFlags {
  import opened Wrappers
  import opened Strings

  const Comma: char := ','

  /** The pieces of a flag value: `strings.Split(value, ",")` as a set. */
  function Pieces(value: string): set<string>
  {
    Elems(Split(value, Comma))
  }

  /** The distinct elements of a list. */
  function Elems(s: seq<string>): set<string>
  {
    set v | v in s
  }

  /** `commalist`: the pieces of the flag value, in order. */
  class CommaList {
    var items: seq<string>

    /** A flag not yet given: a nil slice, which prints as the empty string. */
    constructor()
      ensures items == []
    {
      items := [];
    }

    /** `(*commalist).Set(value)`: replace the list by the pieces of `value`. */
    method Set(value: string)
      modifies this
      ensures items == Split(value, Comma)
    {
      items := Split(value, Comma);
    }

    /** `commalist.String()`: the items joined by commas. */
    function String(): string
      reads this
    {
      JoinWith(items, Comma)
    }
  }

  /** `String()` after `Set(value)` gives `value` back exactly. */
  lemma ListStringAfterSet(cl: CommaList, value: string)
    requires cl.items == Split(value, Comma)
    ensures cl.String() == value
  {
    JoinSplit(value, Comma);
  }

  /** `Set(String())` gives the list back when it is non-empty and no item holds a comma. */
  lemma ListSetAfterString(cl: CommaList)
    requires |cl.items| >= 1
    requires forall i :: 0 <= i < |cl.items| ==> Comma !in cl.items[i]
    ensures Split(cl.String(), Comma) == cl.items
  {
    SplitJoin(cl.items, Comma);
  }

  /** An empty list prints as "", which `Set` reads back as one empty item. */
  lemma ListEmptyNotRestored(cl: CommaList)
    requires cl.items == []
    ensures Split(cl.String(), Comma) == [""]
  {
  }

  /** `commaset`: the pieces given so far; a nil map until the first `Set`. */
  class CommaSet {
    var members: Option<set<string>>

    constructor()
      ensures members == None
    {
      members := None;
    }

    /** The members, a nil map counting as empty. */
    function Members(): set<string>
      reads this
    {
      members.GetOr({})
    }

    /**
     * `(*commaset).Set(value)`: allocate the set if it is nil, then add every
     * piece of `value`, keeping the members already there.
     */
    method Set(value: string)
      modifies this
      ensures members == Some(old(Members()) + Pieces(value))
    {
      var values := Split(value, Comma);
      ghost var before := Members();
      if members.None? {
        members := Some({});
      }
      assert members.value == before + Elems(values[..0]);
      for i := 0 to |values|
        invariant members == Some(before + Elems(values[..i]))
      {
        assert Elems(values[..i + 1]) == Elems(values[..i]) + {values[i]} by {
          assert values[..i + 1] == values[..i] + [values[i]];
        }
        members := Some(members.value + {values[i]});
        assert members.value == before + Elems(values[..i + 1]);
      }
      assert values[..|values|] == values;
    }

    /** `commaset.String()`: the members in ascending order, joined by commas. */
    method String() returns (s: string)
      ensures s == Render(Members())
    {
      var arr := CollectSorted(Members());
      s := JoinWith(arr, Comma);
    }
  }

  /** What `commaset.String()` prints for the members `st`: it depends on the set alone. */
  ghost function Render(st: set<string>): string
  {
    JoinWith(SortedKeys(st), Comma)
  }

  /** `Set(value)` twice on the same flag adds nothing the first call did not. */
  method SetTwice(cs: CommaSet, value: string)
    modifies cs
    ensures cs.Members() == old(cs.Members()) + Pieces(value)
  {
    cs.Set(value);
    cs.Set(value);
  }

  /**
   * Two flags holding the same members end with the same members after
   * `Set(a)` then `Set(b)` on one and `Set(b)` then `Set(a)` on the other.
   */
  method SetOrderIndependent(x: CommaSet, y: CommaSet, a: string, b: string)
    requires x != y && x.Members() == y.Members()
    modifies x, y
    ensures x.Members() == y.Members() == old(x.Members()) + Pieces(a) + Pieces(b)
  {
    x.Set(a);
    x.Set(b);
    y.Set(b);
    y.Set(a);
  }

  /**
   * The printed set, split again on commas, is the members in ascending order
   * each once, so `Set(String())` rebuilds the set, when it is non-empty and no
   * member holds a comma.
   */
  lemma RenderParses(st: set<string>)
    requires st != {}
    requires forall m :: m in st ==> Comma !in m
    ensures Split(Render(st), Comma) == SortedKeys(st)
    ensures StrictlySorted(Split(Render(st), Comma))
    ensures Pieces(Render(st)) == st
  {
    var r := SortedKeys(st);
    forall i | 0 <= i < |r| ensures Comma !in r[i] {
      assert r[i] in st;
    }
    SplitJoin(r, Comma);
  }

  /** An empty set prints as "", which `Set` reads back as the set holding "". */
  lemma RenderEmpty()
    ensures Render({}) == ""
    ensures Pieces(Render({})) == {""}
  {
    assert SortedKeys({}) == [];
    assert Split("", Comma) == [""];
  }
}
