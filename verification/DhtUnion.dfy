/** Merging lists of parts that count as sets: what was kept, and what is valid of what is new. */
module DhtUnion {
  import opened Ordering
  import opened Wrappers

  // ---------------------------------------------------------------- exact duplicates

  /** The keys of a dictionary filled in order: first occurrences. */
  function Firsts<T(==, !new)>(xs: seq<T>): (r: seq<T>)
    ensures forall x :: x in r <==> x in xs
  {
    if xs == [] then []
    else
      var init, last := xs[..|xs| - 1], xs[|xs| - 1];
      assert xs == init + [last];
      if last in init then Firsts(init) else Firsts(init) + [last]
  }

  method DeduplicateExact<T(==, !new)>(xs: seq<T>, less: (T, T) -> bool) returns (r: seq<T>)
    requires IsOrder(less)
    ensures r == Sort(Firsts(xs), less)
    ensures SortedBy(r, less)
    ensures forall x :: x in multiset(r) <==> x in xs
    ensures forall x :: multiset(r)[x] <= 1
  {
    var seen: set<T> := {};
    var order: seq<T> := [];
    for i := 0 to |xs|
      invariant order == Firsts(xs[..i])
      invariant forall x :: x in seen <==> x in xs[..i]
      invariant forall x :: multiset(order)[x] <= 1
    {
      assert xs[..i + 1][..i] == xs[..i];
      if xs[i] !in seen {
        assert xs[i] !in order;
        order := order + [xs[i]];
      }
      seen := seen + {xs[i]};
    }
    assert xs[..|xs|] == xs;
    SortSorts(order, less);
    r := Sort(order, less);
    forall x ensures x in multiset(r) <==> x in xs {
      assert x in multiset(order) <==> x in order;
    }
  }

  // ---------------------------------------------------------------- one merge

  function Keep<T(!new)>(valid: T -> bool, xs: seq<T>): (r: seq<T>)
    ensures forall x :: x in r <==> x in xs && valid(x)
  {
    if xs == [] then []
    else
      var rest := Keep(valid, xs[1..]);
      if valid(xs[0]) then [xs[0]] + rest else rest
  }

  /** A fragment with parts of which none is valid is refused; otherwise the valid ones join what was kept. */
  function MergeParts<T(==, !new)>(valid: T -> bool, less: (T, T) -> bool, parent: seq<T>, fragment: seq<T>)
    : Option<seq<T>>
  {
    var valids := Keep(valid, fragment);
    if fragment != [] && valids == [] then None else Some(Sort(Firsts(parent + valids), less))
  }

  lemma SortedFirstsAreAll<T(!new)>(xs: seq<T>, less: (T, T) -> bool, x: T)
    ensures x in Sort(Firsts(xs), less) <==> x in xs
  {
    var r := Sort(Firsts(xs), less);
    assert x in multiset(r) <==> x in r;
    assert x in multiset(Firsts(xs)) <==> x in Firsts(xs);
  }

  ghost predicate Same<T(!new)>(a: seq<T>, b: seq<T>) {
    forall x :: x in a <==> x in b
  }

  ghost predicate Accepts<T(!new)>(valid: T -> bool, fragment: seq<T>) {
    fragment == [] || exists x :: x in fragment && valid(x)
  }

  /** What was kept, and what is valid of the fragment; nothing kept is looked at again. */
  ghost predicate IsUnion<T(!new)>(valid: T -> bool, parent: seq<T>, fragment: seq<T>, r: seq<T>) {
    forall x :: x in r <==> x in parent || (x in fragment && valid(x))
  }

  lemma MergeIsUnion<T(!new)>(valid: T -> bool, less: (T, T) -> bool, parent: seq<T>, fragment: seq<T>)
    ensures var r := MergeParts(valid, less, parent, fragment);
            && (r.Some? <==> Accepts(valid, fragment))
            && (r.Some? ==> IsUnion(valid, parent, fragment, r.value))
  {
    var valids := Keep(valid, fragment);
    assert valids != [] ==> valids[0] in valids;
    forall x ensures x in Sort(Firsts(parent + valids), less) <==> x in parent + valids {
      SortedFirstsAreAll(parent + valids, less, x);
    }
  }

  lemma {:induction false} FirstsAreDistinct<T(!new)>(xs: seq<T>)
    ensures forall x :: multiset(Firsts(xs))[x] <= 1
  {
    if xs != [] {
      var init, last := xs[..|xs| - 1], xs[|xs| - 1];
      FirstsAreDistinct(init);
      assert last !in init ==> last !in Firsts(init);
    }
  }

  /** What a merge keeps is sorted and has nothing twice. */
  lemma MergeIsSorted<T(!new)>(valid: T -> bool, less: (T, T) -> bool, parent: seq<T>, fragment: seq<T>)
    requires IsOrder(less) && MergeParts(valid, less, parent, fragment).Some?
    ensures var r := MergeParts(valid, less, parent, fragment).value;
            SortedBy(r, less) && forall x :: multiset(r)[x] <= 1
  {
    SortSorts(Firsts(parent + Keep(valid, fragment)), less);
    FirstsAreDistinct(parent + Keep(valid, fragment));
  }

  // ---------------------------------------------------------------- the laws

  lemma UnionsCommute<T(!new)>(valid: T -> bool, p: seq<T>, f: seq<T>, g: seq<T>, pf: seq<T>, pg: seq<T>, pfg: seq<T>,
                               pgf: seq<T>)
    requires IsUnion(valid, p, f, pf) && IsUnion(valid, p, g, pg)
    requires IsUnion(valid, pf, g, pfg) && IsUnion(valid, pg, f, pgf)
    ensures Same(pfg, pgf)
  {
  }

  lemma UnionsRepeat<T(!new)>(valid: T -> bool, p: seq<T>, f: seq<T>, pf: seq<T>, pff: seq<T>)
    requires IsUnion(valid, p, f, pf) && IsUnion(valid, pf, f, pff)
    ensures Same(pff, pf)
  {
  }

  lemma UnionsGroup<T(!new)>(valid: T -> bool, a: seq<T>, b: seq<T>, c: seq<T>, ab: seq<T>, bc: seq<T>, left: seq<T>,
                             right: seq<T>)
    requires IsUnion(valid, a, b, ab) && IsUnion(valid, b, c, bc)
    requires IsUnion(valid, ab, c, left) && IsUnion(valid, a, bc, right)
    ensures Same(left, right)
  {
  }

  lemma UnionsSwap<T(!new)>(valid: T -> bool, a: seq<T>, b: seq<T>, ab: seq<T>, ba: seq<T>)
    requires IsUnion(valid, a, b, ab) && IsUnion(valid, b, a, ba)
    ensures Same(ab, ba) <==> InvalidShared(valid, a, b) && InvalidShared(valid, b, a)
  {
    if Same(ab, ba) {
      forall x | x in a && !valid(x) ensures x in b {
        assert x in ab && x in ba;
      }
      forall x | x in b && !valid(x) ensures x in a {
        assert x in ba && x in ab;
      }
    }
  }

  /** Two accepted fragments may come in either order, and again, without changing the set. */
  lemma FragmentsCommute<T(!new)>(valid: T -> bool, less: (T, T) -> bool, p: seq<T>, f: seq<T>, g: seq<T>)
    requires Accepts(valid, f) && Accepts(valid, g)
    ensures var pf, pg := MergeParts(valid, less, p, f), MergeParts(valid, less, p, g);
            && pf.Some? && pg.Some?
            && var pfg, pgf := MergeParts(valid, less, pf.value, g), MergeParts(valid, less, pg.value, f);
            && var pff := MergeParts(valid, less, pf.value, f);
            && pfg.Some? && pgf.Some? && pff.Some? && Same(pfg.value, pgf.value) && Same(pff.value, pf.value)
  {
    MergeIsUnion(valid, less, p, f);
    MergeIsUnion(valid, less, p, g);
    var pf, pg := MergeParts(valid, less, p, f).value, MergeParts(valid, less, p, g).value;
    MergeIsUnion(valid, less, pf, g);
    MergeIsUnion(valid, less, pg, f);
    MergeIsUnion(valid, less, pf, f);
    UnionsCommute(valid, p, f, g, pf, pg, MergeParts(valid, less, pf, g).value, MergeParts(valid, less, pg, f).value);
    UnionsRepeat(valid, p, f, pf, MergeParts(valid, less, pf, f).value);
  }

  lemma JoinedAccepts<T(!new)>(valid: T -> bool, b: seq<T>, c: seq<T>, bc: seq<T>)
    requires Accepts(valid, c) && IsUnion(valid, b, c, bc)
    ensures Accepts(valid, bc) <==> Accepts(valid, b) || c != []
  {
    if c != [] {
      var x :| x in c && valid(x);
      assert x in bc;
    } else {
      assert b != [] ==> b[0] in bc;
      assert bc != [] ==> bc[0] in b;
    }
  }

  /**
   * Grouping: c accepted, b with c into a is accepted exactly if b alone is or c is not empty; and where b alone is
   * accepted too, both groupings hold the same.
   */
  lemma GroupsAgree<T(!new)>(valid: T -> bool, less: (T, T) -> bool, a: seq<T>, b: seq<T>, c: seq<T>)
    requires Accepts(valid, c)
    ensures MergeParts(valid, less, b, c).Some?
    ensures var right := MergeParts(valid, less, a, MergeParts(valid, less, b, c).value);
            && (right.Some? <==> Accepts(valid, b) || c != [])
            && (Accepts(valid, b) ==>
                  var ab := MergeParts(valid, less, a, b);
                  && ab.Some?
                  && var left := MergeParts(valid, less, ab.value, c);
                  left.Some? && right.Some? && Same(left.value, right.value))
  {
    MergeIsUnion(valid, less, b, c);
    var bc := MergeParts(valid, less, b, c).value;
    JoinedAccepts(valid, b, c, bc);
    MergeIsUnion(valid, less, a, bc);
    MergeIsUnion(valid, less, a, b);
    if Accepts(valid, b) {
      var ab := MergeParts(valid, less, a, b).value;
      MergeIsUnion(valid, less, ab, c);
      UnionsGroup(valid, a, b, c, ab, bc, MergeParts(valid, less, ab, c).value, MergeParts(valid, less, a, bc).value);
    }
  }

  /** Nothing is in one and invalid that is not in the other. */
  ghost predicate InvalidShared<T(!new)>(valid: T -> bool, a: seq<T>, b: seq<T>) {
    forall x :: x in a && !valid(x) ==> x in b
  }

  /**
   * What is kept is not validated again, so parent and fragment may be swapped exactly if everything invalid on either
   * side is on the other side too.
   */
  lemma SwapsExactlyWhen<T(!new)>(valid: T -> bool, less: (T, T) -> bool, a: seq<T>, b: seq<T>)
    requires Accepts(valid, a) && Accepts(valid, b)
    ensures var ab, ba := MergeParts(valid, less, a, b), MergeParts(valid, less, b, a);
            && ab.Some? && ba.Some?
            && (Same(ab.value, ba.value) <==> InvalidShared(valid, a, b) && InvalidShared(valid, b, a))
  {
    MergeIsUnion(valid, less, a, b);
    MergeIsUnion(valid, less, b, a);
    UnionsSwap(valid, a, b, MergeParts(valid, less, a, b).value, MergeParts(valid, less, b, a).value);
  }

  /** Where it fails: an invalid part that was kept, and a valid one on both sides. */
  lemma SwapFails<T(!new)>(valid: T -> bool, less: (T, T) -> bool, x: T, y: T)
    requires !valid(x) && valid(y)
    ensures var ab, ba := MergeParts(valid, less, [x, y], [y]), MergeParts(valid, less, [y], [x, y]);
            ab.Some? && ba.Some? && x in ab.value && x !in ba.value
  {
    assert y in [x, y] && y in [y] && x in [x, y];
    MergeIsUnion(valid, less, [x, y], [y]);
    MergeIsUnion(valid, less, [y], [x, y]);
  }
}
