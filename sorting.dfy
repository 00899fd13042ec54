/** Sorting recipes by name the way `OrderBy(r => r.Name)` does: a stable sort,
    so recipes with the same name keep the order they had. */
module Sorting {
  import opened Recipes
  import opened NameOrder

  /** Names never decrease along `rs`. */
  predicate SortedByName(rs: seq<Recipe>)
  {
    forall i, j :: 0 <= i < j < |rs| ==> Le(rs[i].name, rs[j].name)
  }

  /** The recipes of `rs` called `n`, in the order they have in `rs`. */
  function Named(rs: seq<Recipe>, n: string): seq<Recipe>
  {
    if rs == [] then []
    else Named(rs[..|rs| - 1], n) + (if rs[|rs| - 1].name == n then [rs[|rs| - 1]] else [])
  }

  /** `t` is the stable sort of `s` by name: sorted, and for every name the
      recipes carrying it appear in `t` in the same order as in `s`. */
  ghost predicate IsStableSortOf(t: seq<Recipe>, s: seq<Recipe>)
  {
    SortedByName(t) && forall n :: Named(t, n) == Named(s, n)
  }

  /** `r` placed after every entry whose name sorts no later than its own. */
  function Insert(sorted: seq<Recipe>, r: Recipe): (res: seq<Recipe>)
    ensures multiset(res) == multiset(sorted) + multiset{r}
  {
    if sorted == [] then [r]
    else
      var init, last := sorted[..|sorted| - 1], sorted[|sorted| - 1];
      assert sorted == init + [last];
      if Le(last.name, r.name) then sorted + [r]
      else Insert(init, r) + [last]
  }

  /** The stable sort by name of `rs`. */
  function SortByName(rs: seq<Recipe>): (res: seq<Recipe>)
    ensures multiset(res) == multiset(rs)
  {
    if rs == [] then []
    else
      assert rs == rs[..|rs| - 1] + [rs[|rs| - 1]];
      Insert(SortByName(rs[..|rs| - 1]), rs[|rs| - 1])
  }

  lemma {:induction false} NamedAppend(a: seq<Recipe>, b: seq<Recipe>, n: string)
    ensures Named(a + b, n) == Named(a, n) + Named(b, n)
    decreases |b|
  {
    if b == [] {
      assert a + b == a;
    } else {
      var init, last := b[..|b| - 1], b[|b| - 1];
      assert (a + b)[..|a + b| - 1] == a + init;
      NamedAppend(a, init, n);
    }
  }

  /** A recipe is in `t` exactly when it is among the entries of `t` with its name. */
  lemma {:induction false} NamedMember(t: seq<Recipe>, x: Recipe)
    ensures x in t <==> x in Named(t, x.name)
  {
    if t != [] {
      var init := t[..|t| - 1];
      assert t == init + [t[|t| - 1]];
      NamedMember(init, x);
    }
  }

  lemma {:induction false} InsertSorted(sorted: seq<Recipe>, r: Recipe)
    requires SortedByName(sorted)
    ensures SortedByName(Insert(sorted, r))
  {
    if sorted != [] {
      var init, last := sorted[..|sorted| - 1], sorted[|sorted| - 1];
      if Le(last.name, r.name) {
        forall i | 0 <= i < |sorted| ensures Le(sorted[i].name, r.name) {
          if i < |sorted| - 1 {
            LeTransitive(sorted[i].name, last.name, r.name);
          }
        }
      } else {
        InsertSorted(init, r);
        var x := Insert(init, r);
        forall i | 0 <= i < |x| ensures Le(x[i].name, last.name) {
          assert x[i] in multiset(x);
          if x[i] == r {
            LeTotal(r.name, last.name);
          } else {
            assert x[i] in multiset(init);
            var k :| 0 <= k < |init| && init[k] == x[i];
            assert sorted[k] == init[k];
          }
        }
      }
    }
  }

  lemma {:induction false} InsertNamed(sorted: seq<Recipe>, r: Recipe, n: string)
    ensures Named(Insert(sorted, r), n) == Named(sorted + [r], n)
  {
    if sorted != [] {
      var init, last := sorted[..|sorted| - 1], sorted[|sorted| - 1];
      assert sorted == init + [last];
      if !Le(last.name, r.name) {
        calc {
          Named(Insert(sorted, r), n);
          Named(Insert(init, r) + [last], n);
          { NamedAppend(Insert(init, r), [last], n); }
          Named(Insert(init, r), n) + Named([last], n);
          { InsertNamed(init, r, n); NamedAppend(init, [r], n); }
          Named(init, n) + Named([r], n) + Named([last], n);
          { assert Named([r], n) + Named([last], n) == Named([last], n) + Named([r], n) by {
              LeReflexive(last.name);
              assert [r][..0] == [] && [last][..0] == [];
            }
            assert Named(init, n) + Named([r], n) + Named([last], n)
                == Named(init, n) + (Named([r], n) + Named([last], n));
          }
          Named(init, n) + Named([last], n) + Named([r], n);
          { NamedAppend(init, [last], n); NamedAppend(init + [last], [r], n); }
          Named(sorted + [r], n);
        }
      }
    }
  }

  /** SortByName really is the stable sort by name. */
  lemma {:induction false} SortByNameIsStableSort(rs: seq<Recipe>)
    ensures IsStableSortOf(SortByName(rs), rs)
  {
    if rs != [] {
      var init, last := rs[..|rs| - 1], rs[|rs| - 1];
      SortByNameIsStableSort(init);
      InsertSorted(SortByName(init), last);
      forall n ensures Named(SortByName(rs), n) == Named(rs, n) {
        InsertNamed(SortByName(init), last, n);
        NamedAppend(SortByName(init), [last], n);
        NamedAppend(init, [last], n);
        assert rs == init + [last];
      }
    }
  }

  /** Two sorted sequences holding, name by name, the same recipes start with
      the same recipe. */
  lemma {:induction false} SameFirst(t1: seq<Recipe>, t2: seq<Recipe>)
    requires t1 != [] && t2 != []
    requires SortedByName(t1) && SortedByName(t2)
    requires Named(t1, t1[0].name) == Named(t2, t1[0].name)
    requires Named(t1, t2[0].name) == Named(t2, t2[0].name)
    ensures t1[0] == t2[0]
  {
    var a, b := t1[0], t2[0];
    NamedMember(t1, a);
    NamedMember(t2, a);
    NamedMember(t1, b);
    NamedMember(t2, b);
    assert Le(a.name, b.name) by {
      var j :| 0 <= j < |t1| && t1[j] == b;
      if j == 0 { LeReflexive(a.name); }
    }
    assert Le(b.name, a.name) by {
      var j :| 0 <= j < |t2| && t2[j] == a;
      if j == 0 { LeReflexive(b.name); }
    }
    LeAntisymmetric(a.name, b.name);
    NamedFirst(t1);
    NamedFirst(t2);
  }

  /** The first recipe of `t` is the first of the entries carrying its name. */
  lemma {:induction false} NamedFirst(t: seq<Recipe>)
    requires t != []
    ensures Named(t, t[0].name) != [] && Named(t, t[0].name)[0] == t[0]
  {
    var a := t[0];
    assert t == [a] + t[1..];
    NamedAppend([a], t[1..], a.name);
    assert [a][..0] == [];
    assert Named([a], a.name) == [a];
  }

  /** Dropping the same first recipe keeps the name-by-name contents equal. */
  lemma {:induction false} SameNamedTails(t1: seq<Recipe>, t2: seq<Recipe>, m: string)
    requires t1 != [] && t2 != [] && t1[0] == t2[0]
    requires Named(t1, m) == Named(t2, m)
    ensures Named(t1[1..], m) == Named(t2[1..], m)
  {
    var a := t1[0];
    assert t1 == [a] + t1[1..] && t2 == [a] + t2[1..];
    NamedAppend([a], t1[1..], m);
    NamedAppend([a], t2[1..], m);
    var head := Named([a], m);
    assert Named(t1[1..], m) == (head + Named(t1[1..], m))[|head|..];
    assert Named(t2[1..], m) == (head + Named(t2[1..], m))[|head|..];
  }

  /** There is only one stable sort by name: two sorted sequences that hold,
      name by name, the same recipes in the same order are equal. */
  lemma {:induction false} StableSortUnique(t1: seq<Recipe>, t2: seq<Recipe>)
    requires SortedByName(t1) && SortedByName(t2)
    requires forall n :: Named(t1, n) == Named(t2, n)
    ensures t1 == t2
    decreases |t1|
  {
    if t1 == [] {
      if t2 != [] {
        NamedMember(t2, t2[0]);
        assert false;
      }
    } else if t2 == [] {
      NamedMember(t1, t1[0]);
      assert false;
    } else {
      SameFirst(t1, t2);
      forall m ensures Named(t1[1..], m) == Named(t2[1..], m) {
        SameNamedTails(t1, t2, m);
      }
      StableSortUnique(t1[1..], t2[1..]);
      assert t1 == [t1[0]] + t1[1..] && t2 == [t2[0]] + t2[1..];
    }
  }

  /** Sorting a list that is already sorted by name leaves it as it is. */
  lemma {:induction false} SortedUnchanged(rs: seq<Recipe>)
    requires SortedByName(rs)
    ensures SortByName(rs) == rs
  {
    SortByNameIsStableSort(rs);
    StableSortUnique(SortByName(rs), rs);
  }
}
