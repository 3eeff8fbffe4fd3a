/** The filter engine shared by the work grid and the portfolio gallery:
    the category list shown as buttons ('All' followed by the distinct
    categories, first-seen first) and the projects that remain visible for a
    selected category. */
module CategoryFilter {

  /** The sentinel category that selects every project. */
  const All: string := "All"

  predicate NoDuplicates<T(==)>(s: seq<T>) {
    forall i, j :: 0 <= i < j < |s| ==> s[i] != s[j]
  }

  /** `items.map(category)`. */
  function CategoriesOf<T>(items: seq<T>, category: T -> string): (r: seq<string>)
    ensures |r| == |items|
    ensures forall i :: 0 <= i < |items| ==> r[i] == category(items[i])
  {
    seq(|items|, i requires 0 <= i < |items| => category(items[i]))
  }

  /** `Array.from(new Set(s))`: a JavaScript `Set` is filled by adding the
      elements of `s` one after the other, keeps only the first insertion of
      a value and iterates in insertion order. */
  function Distinct(s: seq<string>): (r: seq<string>)
    ensures forall x :: x in r <==> x in s
    ensures NoDuplicates(r)
    ensures |r| <= |s|
  {
    if s == [] then []
    else
      var prev := Distinct(s[..|s| - 1]);
      var last := s[|s| - 1];
      assert s == s[..|s| - 1] + [last];
      if last in prev then prev else prev + [last]
  }

  /** The index of the first occurrence of `x` in `s`. */
  function FirstIndex(s: seq<string>, x: string): (k: nat)
    requires x in s
    ensures k < |s| && s[k] == x && x !in s[..k]
  {
    if s[0] == x then 0
    else
      var k := 1 + FirstIndex(s[1..], x);
      assert s[..k] == [s[0]] + s[1..][..k - 1];
      k
  }

  /** Only one index is the first occurrence of `x`. */
  lemma FirstIndexUnique(s: seq<string>, x: string, k: nat)
    requires k < |s| && s[k] == x && x !in s[..k]
    ensures FirstIndex(s, x) == k
  {
  }

  /** Appending elements does not move the first occurrence of a value that
      was already there. */
  lemma FirstIndexOfPrefix(s: seq<string>, n: nat, x: string)
    requires n <= |s| && x in s[..n]
    ensures FirstIndex(s, x) == FirstIndex(s[..n], x)
  {
    var k := FirstIndex(s[..n], x);
    assert s[..n][..k] == s[..k];
    FirstIndexUnique(s, x, k);
  }

  /** The distinct categories come in the order of their first appearance. */
  lemma {:induction false} DistinctFollowsFirstAppearance(s: seq<string>, i: nat, j: nat)
    requires i < j < |Distinct(s)|
    ensures FirstIndex(s, Distinct(s)[i]) < FirstIndex(s, Distinct(s)[j])
  {
    var n := |s| - 1;
    var init := s[..n];
    var prev := Distinct(init);
    var r := Distinct(s);
    assert r[i] in init && r[j] in s by {
      if j < |prev| {
        assert r[i] == prev[i] && r[j] == prev[j];
      } else {
        assert r[i] == prev[i];
      }
    }
    FirstIndexOfPrefix(s, n, r[i]);
    if j < |prev| {
      assert r[i] == prev[i] && r[j] == prev[j];
      DistinctFollowsFirstAppearance(init, i, j);
      FirstIndexOfPrefix(s, n, r[j]);
    } else {
      assert r == prev + [s[n]] && r[j] == s[n] && s[n] !in init;
      assert s[..n] == init;
      FirstIndexUnique(s, s[n], n);
    }
  }

  /** The filter buttons: 'All', then every category of `items` once, in
      first-seen order. */
  function CategoryList<T>(items: seq<T>, category: T -> string): (r: seq<string>)
    ensures |r| >= 1 && r[0] == All
  {
    [All] + Distinct(CategoriesOf(items, category))
  }

  /** Every later button names the category of some item, every item's
      category has a button, and the list is free of duplicates exactly
      when no item is itself categorised 'All'. */
  lemma CategoryListContents<T>(items: seq<T>, category: T -> string)
    ensures forall k :: 1 <= k < |CategoryList(items, category)| ==>
      exists i :: 0 <= i < |items| && category(items[i]) == CategoryList(items, category)[k]
    ensures forall i :: 0 <= i < |items| ==> category(items[i]) in CategoryList(items, category)
    ensures NoDuplicates(CategoryList(items, category)) <==>
      forall i :: 0 <= i < |items| ==> category(items[i]) != All
  {
    var cats := CategoriesOf(items, category);
    var d := Distinct(cats);
    var r := CategoryList(items, category);
    assert r[1..] == d;
    forall k | 1 <= k < |r|
      ensures exists i :: 0 <= i < |items| && category(items[i]) == r[k]
    {
      assert r[k] == d[k - 1] && d[k - 1] in cats;
      var i :| 0 <= i < |cats| && cats[i] == r[k];
    }
    forall i | 0 <= i < |items|
      ensures category(items[i]) in r
    {
      assert cats[i] in d;
    }
    if forall i :: 0 <= i < |items| ==> category(items[i]) != All {
      assert All !in d;
      assert NoDuplicates(r);
    } else {
      var i :| 0 <= i < |items| && category(items[i]) == All;
      assert cats[i] in d;
      var k :| 0 <= k < |d| && d[k] == All;
      assert r[0] == r[k + 1];
    }
  }

  /** After 'All', the buttons follow the first appearance of their
      categories among the items. */
  lemma CategoryListFirstSeen<T>(items: seq<T>, category: T -> string, i: nat, j: nat)
    requires 1 <= i < j < |CategoryList(items, category)|
    ensures CategoryList(items, category)[i] in CategoriesOf(items, category)
    ensures CategoryList(items, category)[j] in CategoriesOf(items, category)
    ensures FirstIndex(CategoriesOf(items, category), CategoryList(items, category)[i]) <
            FirstIndex(CategoriesOf(items, category), CategoryList(items, category)[j])
  {
    var cats := CategoriesOf(items, category);
    var d := Distinct(cats);
    var r := CategoryList(items, category);
    assert r[i] == d[i - 1] && r[j] == d[j - 1];
    DistinctFollowsFirstAppearance(cats, i - 1, j - 1);
  }

  /** `r` is `s` with some elements left out, the rest kept in order. */
  predicate IsSubsequence<T(==)>(r: seq<T>, s: seq<T>)
    decreases |s|
  {
    if r == [] then true
    else if s == [] then false
    else if r[0] == s[0] then IsSubsequence(r[1..], s[1..])
    else IsSubsequence(r, s[1..])
  }

  /** `items.filter(x => category(x) === c)`. */
  function Keep<T(==)>(items: seq<T>, category: T -> string, c: string): seq<T> {
    if items == [] then []
    else
      var rest := Keep(items[1..], category, c);
      if category(items[0]) == c then [items[0]] + rest else rest
  }

  /** The filter keeps the items of category `c` and only those, in their
      original order, each as many times as it occurs. */
  lemma {:induction false} KeepSpec<T>(items: seq<T>, category: T -> string, c: string)
    ensures IsSubsequence(Keep(items, category, c), items)
    ensures forall x :: x in Keep(items, category, c) ==> x in items && category(x) == c
    ensures forall x :: x in items ==>
      multiset(Keep(items, category, c))[x] == if category(x) == c then multiset(items)[x] else 0
  {
    if items != [] {
      var rest := Keep(items[1..], category, c);
      KeepSpec(items[1..], category, c);
      assert items == [items[0]] + items[1..];
      if category(items[0]) == c {
        assert Keep(items, category, c) == [items[0]] + rest;
        assert ([items[0]] + rest)[1..] == rest;
      }
    }
  }

  /** One step of the filter: the first item is kept exactly when it has
      category `c`. */
  lemma KeepStep<T>(items: seq<T>, category: T -> string, c: string)
    requires items != []
    ensures Keep(items, category, c) ==
      (if category(items[0]) == c then [items[0]] else []) + Keep(items[1..], category, c)
  {
  }

  /** Any order-preserving selection of items of category `c` is a
      selection from the filtered list: the filter keeps the most it can. */
  lemma {:induction false} KeepIsLargest<T>(r: seq<T>, items: seq<T>, category: T -> string, c: string)
    requires IsSubsequence(r, items)
    requires forall x :: x in r ==> category(x) == c
    ensures IsSubsequence(r, Keep(items, category, c))
    decreases |items|
  {
    if r != [] {
      var rest := Keep(items[1..], category, c);
      if r[0] == items[0] {
        assert r[1..] == [] || r[1..][0] in r;
        KeepIsLargest(r[1..], items[1..], category, c);
        assert Keep(items, category, c) == [items[0]] + rest;
      } else {
        KeepIsLargest(r, items[1..], category, c);
        if category(items[0]) == c {
          assert Keep(items, category, c) == [items[0]] + rest;
          assert ([items[0]] + rest)[1..] == rest;
        }
      }
    }
  }

  /** A subsequence is no longer than the sequence, and one just as long
      is the sequence itself. */
  lemma {:induction false} SubsequenceOfSameLength<T>(r: seq<T>, s: seq<T>)
    requires IsSubsequence(r, s)
    ensures |r| <= |s|
    ensures |r| == |s| ==> r == s
    decreases |s|
  {
    if r != [] {
      if r[0] == s[0] {
        SubsequenceOfSameLength(r[1..], s[1..]);
        if |r| == |s| {
          assert r == [r[0]] + r[1..] && s == [s[0]] + s[1..];
        }
      } else {
        SubsequenceOfSameLength(r, s[1..]);
      }
    }
  }

  /** The filter result is the only order-preserving selection of category-`c`
      items that is as long as it. */
  lemma KeepIsUnique<T>(r: seq<T>, items: seq<T>, category: T -> string, c: string)
    requires IsSubsequence(r, items)
    requires forall x :: x in r ==> category(x) == c
    requires |r| >= |Keep(items, category, c)|
    ensures r == Keep(items, category, c)
  {
    KeepIsLargest(r, items, category, c);
    SubsequenceOfSameLength(r, Keep(items, category, c));
  }

  /** The visible items for the selected category: everything for 'All',
      otherwise the items of that category. */
  function Select<T(==)>(items: seq<T>, category: T -> string, selected: string): (r: seq<T>)
    ensures selected == All ==> r == items
    ensures selected != All ==> r == Keep(items, category, selected)
  {
    if selected == All then items else Keep(items, category, selected)
  }

  /** Nothing is visible exactly when 'All' is selected over no items, or no
      item has the selected category. */
  lemma SelectEmptyIff<T>(items: seq<T>, category: T -> string, selected: string)
    ensures |Select(items, category, selected)| == 0 <==>
      if selected == All then items == []
      else forall i :: 0 <= i < |items| ==> category(items[i]) != selected
  {
    if selected != All {
      var r := Keep(items, category, selected);
      KeepSpec(items, category, selected);
      if exists i :: 0 <= i < |items| && category(items[i]) == selected {
        var i :| 0 <= i < |items| && category(items[i]) == selected;
        assert multiset(items)[items[i]] > 0;
        assert multiset(r)[items[i]] > 0;
      }
    }
  }

  /** For a category the buttons offer, the visible list is empty only when
      there are no items at all. */
  lemma ListedCategoryEmptyIff<T>(items: seq<T>, category: T -> string, selected: string)
    requires selected in CategoryList(items, category)
    ensures |Select(items, category, selected)| == 0 <==> items == []
  {
    SelectEmptyIff(items, category, selected);
    if selected != All {
      var r := CategoryList(items, category);
      var k :| 0 <= k < |r| && r[k] == selected;
      CategoryListContents(items, category);
    }
  }
}
