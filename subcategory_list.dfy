/** The subcategory list page: search by name, sort by name in either direction, and delete,
    all on the list the page holds in memory. */
module SubCategoryList {
  import opened Util

  /** A subcategory as the page lists it. */
  datatype Item = Item(id: string, name: string)

  datatype Dir = Asc | Desc

  // ---------------------------------------------------------------------------
  // Search
  // ---------------------------------------------------------------------------

  /** An entry is kept when its lower-cased name contains the lower-cased search. */
  predicate NameMatches(x: Item, search: string) {
    Contains(Lower(x.name), Lower(search))
  }

  /** `filtered`: the matching entries in their original order. */
  function Filtered(items: seq<Item>, search: string): (r: seq<Item>)
    ensures forall i :: 0 <= i < |r| ==> NameMatches(r[i], search)
    ensures forall x :: multiset(r)[x] == if NameMatches(x, search) then multiset(items)[x] else 0
    ensures IsSubsequence(r, items)
  {
    var keep := (x: Item) => NameMatches(x, search);
    FilterIsSubsequence(items, keep);
    Filter(items, keep)
  }

  /** Every string contains the empty string. */
  lemma ContainsEmpty(s: string)
    ensures Contains(s, "")
  {
  }

  /** Keeping every element is the identity. */
  lemma {:induction false} FilterAll(items: seq<Item>, keep: Item -> bool)
    requires forall i :: 0 <= i < |items| ==> keep(items[i])
    ensures Filter(items, keep) == items
  {
    if items != [] {
      FilterAll(items[1..], keep);
    }
  }

  /** An empty search keeps every entry, in order. */
  lemma EmptySearchKeepsAll(items: seq<Item>)
    ensures Filtered(items, "") == items
  {
    forall i | 0 <= i < |items| ensures NameMatches(items[i], "") {
      ContainsEmpty(Lower(items[i].name));
    }
    FilterAll(items, (x: Item) => NameMatches(x, ""));
  }

  // ---------------------------------------------------------------------------
  // Sort
  // ---------------------------------------------------------------------------

  /** The string order the comparator uses: code-point lexicographic order, as -1, 0 or 1. */
  function StrCompare(a: string, b: string): (r: int)
    ensures -1 <= r <= 1
    ensures r == 0 <==> a == b
  {
    if a == [] && b == [] then 0
    else if a == [] then -1
    else if b == [] then 1
    else if a[0] < b[0] then -1
    else if b[0] < a[0] then 1
    else
      var r := StrCompare(a[1..], b[1..]);
      assert r == 0 ==> a == [a[0]] + a[1..] && b == [b[0]] + b[1..];
      r
  }

  /** Swapping the arguments negates the comparison. */
  lemma {:induction false} StrCompareAntisymmetric(a: string, b: string)
    ensures StrCompare(b, a) == -StrCompare(a, b)
  {
    if a != [] && b != [] && a[0] == b[0] {
      StrCompareAntisymmetric(a[1..], b[1..]);
    }
  }

  /** The comparator passed to `sort`: 0 when there is no sort key; otherwise names compared in
      the chosen direction. */
  function Compare(byName: bool, dir: Dir, a: Item, b: Item): int {
    if !byName then 0
    else if dir == Asc then StrCompare(a.name, b.name)
    else StrCompare(b.name, a.name)
  }

  /** `desc` is `asc` with the arguments swapped, and swapping negates the comparison. */
  lemma CompareDirections(dir: Dir, a: Item, b: Item)
    ensures Compare(true, Desc, a, b) == Compare(true, Asc, b, a)
    ensures Compare(true, dir, b, a) == -Compare(true, dir, a, b)
  {
    StrCompareAntisymmetric(a.name, b.name);
  }

  /** Adjacent entries are in comparator order. */
  predicate SortedBy(xs: seq<Item>, byName: bool, dir: Dir) {
    forall i :: 0 <= i < |xs| - 1 ==> Compare(byName, dir, xs[i], xs[i + 1]) <= 0
  }

  /** Inserts `x` after the last entry of `s` that does not compare above it, so that equal
      entries keep their order. */
  function Insert(s: seq<Item>, x: Item, byName: bool, dir: Dir): (r: seq<Item>)
    ensures multiset(r) == multiset(s) + multiset{x}
    ensures |r| == |s| + 1
    ensures r[|r| - 1] == x || (s != [] && r[|r| - 1] == s[|s| - 1])
  {
    if s == [] then [x]
    else
      var last := s[|s| - 1];
      if Compare(byName, dir, last, x) <= 0 then
        s + [x]
      else
        assert s == s[..|s| - 1] + [last];
        Insert(s[..|s| - 1], x, byName, dir) + [last]
  }

  /** Appending an entry that does not compare below the last keeps a list sorted. */
  lemma SortedAppend(s: seq<Item>, y: Item, byName: bool, dir: Dir)
    requires SortedBy(s, byName, dir)
    requires s != [] ==> Compare(byName, dir, s[|s| - 1], y) <= 0
    ensures SortedBy(s + [y], byName, dir)
  {
    var t := s + [y];
    forall i | 0 <= i < |t| - 1 ensures Compare(byName, dir, t[i], t[i + 1]) <= 0 {
      if i < |s| - 1 {
        assert t[i] == s[i] && t[i + 1] == s[i + 1];
      }
    }
  }

  /** A prefix of a sorted list is sorted. */
  lemma SortedPrefix(s: seq<Item>, byName: bool, dir: Dir)
    requires s != [] && SortedBy(s, byName, dir)
    ensures SortedBy(s[..|s| - 1], byName, dir)
  {
    var p := s[..|s| - 1];
    forall i | 0 <= i < |p| - 1 ensures Compare(byName, dir, p[i], p[i + 1]) <= 0 {
      assert p[i] == s[i] && p[i + 1] == s[i + 1];
    }
  }

  /** Inserting into a sorted list keeps it sorted. */
  lemma {:induction false} InsertSorted(s: seq<Item>, x: Item, byName: bool, dir: Dir)
    requires SortedBy(s, byName, dir)
    ensures SortedBy(Insert(s, x, byName, dir), byName, dir)
  {
    if s == [] {
      SortedAppend(s, x, byName, dir);
    } else {
      var last := s[|s| - 1];
      if Compare(byName, dir, last, x) <= 0 {
        SortedAppend(s, x, byName, dir);
      } else {
        var init := s[..|s| - 1];
        SortedPrefix(s, byName, dir);
        InsertSorted(init, x, byName, dir);
        var r0 := Insert(init, x, byName, dir);
        CompareDirections(dir, last, x);
        if init != [] {
          assert Compare(byName, dir, s[|s| - 2], s[|s| - 1]) <= 0;
          assert init[|init| - 1] == s[|s| - 2];
        }
        assert Compare(byName, dir, r0[|r0| - 1], last) <= 0;
        SortedAppend(r0, last, byName, dir);
      }
    }
  }

  /** Without a sort key, inserting appends. */
  lemma InsertNoKey(s: seq<Item>, x: Item, dir: Dir)
    ensures Insert(s, x, false, dir) == s + [x]
  {
  }

  /** The stable sort `[...filtered].sort(comparator)`. */
  function Sort(xs: seq<Item>, byName: bool, dir: Dir): (r: seq<Item>)
    ensures multiset(r) == multiset(xs)
    ensures SortedBy(r, byName, dir)
  {
    if xs == [] then []
    else
      var init, last := xs[..|xs| - 1], xs[|xs| - 1];
      assert xs == init + [last];
      InsertSorted(Sort(init, byName, dir), last, byName, dir);
      Insert(Sort(init, byName, dir), last, byName, dir)
  }

  /** One step of the sort: the last entry is inserted into the sorted rest. */
  lemma SortUnfold(xs: seq<Item>, byName: bool, dir: Dir)
    requires xs != []
    ensures Sort(xs, byName, dir) == Insert(Sort(xs[..|xs| - 1], byName, dir), xs[|xs| - 1], byName, dir)
  {
  }

  /** With no sort key every comparison is 0 and the stable sort keeps the order. */
  lemma {:induction false} NoKeyKeepsOrder(xs: seq<Item>, dir: Dir)
    ensures Sort(xs, false, dir) == xs
  {
    if xs != [] {
      var init, last := xs[..|xs| - 1], xs[|xs| - 1];
      calc {
        Sort(xs, false, dir);
        { SortUnfold(xs, false, dir); }
        Insert(Sort(init, false, dir), last, false, dir);
        { NoKeyKeepsOrder(init, dir); }
        Insert(init, last, false, dir);
        { InsertNoKey(init, last, dir); }
        init + [last];
      }
      assert init + [last] == xs;
    }
  }

  /** The test for the name `n`. */
  function NameIs(n: string): Item -> bool {
    (y: Item) => y.name == n
  }

  /** The entries named `n`, in their order; built from the end, as the sort is. */
  function Named(xs: seq<Item>, n: string): seq<Item> {
    if xs == [] then []
    else
      var last := xs[|xs| - 1];
      Named(xs[..|xs| - 1], n) + (if last.name == n then [last] else [])
  }

  /** The entries named `n` of a list with one more entry at the end. */
  lemma NamedSnoc(s: seq<Item>, y: Item, n: string)
    ensures Named(s + [y], n) == Named(s, n) + (if y.name == n then [y] else [])
  {
    assert (s + [y])[..|s|] == s;
  }

  /** The entries named `n` of a list with one more entry at the front. */
  lemma {:induction false} NamedCons(y: Item, s: seq<Item>, n: string)
    ensures Named([y] + s, n) == (if y.name == n then [y] else []) + Named(s, n)
  {
    if s == [] {
      NamedSnoc([], y, n);
      assert [] + [y] == [y] + s;
    } else {
      var init, last := s[..|s| - 1], s[|s| - 1];
      assert s == init + [last];
      assert [y] + s == ([y] + init) + [last];
      NamedCons(y, init, n);
      NamedSnoc([y] + init, last, n);
      NamedSnoc(init, last, n);
    }
  }

  /** `Named` is the filter on the name. */
  lemma {:induction false} NamedIsFilter(xs: seq<Item>, n: string)
    ensures Named(xs, n) == Filter(xs, NameIs(n))
  {
    if xs != [] {
      assert xs == [xs[0]] + xs[1..];
      NamedIsFilter(xs[1..], n);
      NamedCons(xs[0], xs[1..], n);
    }
  }

  /** An entry that compares above another has a different name. */
  lemma CompareNonzero(byName: bool, dir: Dir, a: Item, b: Item)
    requires Compare(byName, dir, a, b) != 0
    ensures a.name != b.name
  {
  }

  /** Inserting `x` puts it after every entry with the same name: the entries named `n` are
      those of `s` followed by `x` when `x` has that name. */
  lemma {:induction false} InsertStable(s: seq<Item>, x: Item, byName: bool, dir: Dir, n: string)
    ensures Named(Insert(s, x, byName, dir), n) == Named(s, n) + (if x.name == n then [x] else [])
  {
    if s == [] {
      assert Insert(s, x, byName, dir) == s + [x];
      NamedSnoc(s, x, n);
    } else {
      var init, last := s[..|s| - 1], s[|s| - 1];
      if Compare(byName, dir, last, x) <= 0 {
        assert Insert(s, x, byName, dir) == s + [x];
        NamedSnoc(s, x, n);
      } else {
        CompareNonzero(byName, dir, last, x);
        var r0 := Insert(init, x, byName, dir);
        assert Insert(s, x, byName, dir) == r0 + [last];
        InsertStable(init, x, byName, dir, n);
        assert s == init + [last];
        NamedPastLater(r0, init, last, x, n);
      }
    }
  }

  /** The step of `InsertStable` past an entry with another name. */
  lemma NamedPastLater(r0: seq<Item>, init: seq<Item>, last: Item, x: Item, n: string)
    requires last.name != x.name
    requires Named(r0, n) == Named(init, n) + (if x.name == n then [x] else [])
    ensures Named(r0 + [last], n) == Named(init + [last], n) + (if x.name == n then [x] else [])
  {
    NamedSnoc(r0, last, n);
    NamedSnoc(init, last, n);
    var a := Named(init, n);
    if x.name == n {
      assert Named(r0 + [last], n) == a + [x] + [] == Named(init + [last], n) + [x];
    } else if last.name == n {
      assert Named(r0 + [last], n) == (a + []) + [last] == Named(init + [last], n) + [];
    } else {
      assert Named(r0 + [last], n) == (a + []) + [] == Named(init + [last], n) + [];
    }
  }

  /** The sort is stable: for every name, the entries with that name keep their order. */
  lemma {:induction false} SortStable(xs: seq<Item>, byName: bool, dir: Dir, n: string)
    ensures Named(Sort(xs, byName, dir), n) == Named(xs, n)
    ensures Filter(Sort(xs, byName, dir), NameIs(n)) == Filter(xs, NameIs(n))
  {
    NamedIsFilter(xs, n);
    NamedIsFilter(Sort(xs, byName, dir), n);
    if xs != [] {
      var init, last := xs[..|xs| - 1], xs[|xs| - 1];
      SortUnfold(xs, byName, dir);
      SortStable(init, byName, dir, n);
      InsertStable(Sort(init, byName, dir), last, byName, dir, n);
    }
  }

  /** Sorted ascending, the names never decrease; sorted descending, they never increase. */
  lemma SortedNames(xs: seq<Item>, dir: Dir)
    ensures var r := Sort(xs, true, dir);
            forall i :: 0 <= i < |r| - 1 ==>
              (if dir == Asc then StrCompare(r[i].name, r[i + 1].name) else StrCompare(r[i + 1].name, r[i].name)) <= 0
  {
  }

  // ---------------------------------------------------------------------------
  // The page state
  // ---------------------------------------------------------------------------

  class ListState {
    var subcategories: seq<Item>
    var search: string
    /** `sortKey === 'name'` (the only key; `''` is no key). */
    var byName: bool
    var sortDir: Dir

    constructor ()
      ensures subcategories == [] && search == "" && !byName && sortDir == Asc
    {
      subcategories, search, byName, sortDir := [], "", false, Asc;
    }

    /** `sorted`, the rows the page shows. */
    function Sorted(): (r: seq<Item>)
      reads this
      ensures multiset(r) == multiset(Filtered(subcategories, search))
      ensures SortedBy(r, byName, sortDir)
    {
      Sort(Filtered(subcategories, search), byName, sortDir)
    }

    /** The fetch: the response when it is an array, otherwise an empty list. */
    method Load(data: Option<seq<Item>>)
      modifies this
      ensures subcategories == (if data.Some? then data.value else [])
      ensures search == old(search) && byName == old(byName) && sortDir == old(sortDir)
    {
      subcategories := if data.Some? then data.value else [];
    }

    /** `handleSort('name')`: on the current key the direction flips; otherwise the key is set
        and the direction becomes `asc`. */
    method HandleSort()
      modifies this
      ensures byName
      ensures old(byName) ==> sortDir == (if old(sortDir) == Asc then Desc else Asc)
      ensures !old(byName) ==> sortDir == Asc
      ensures subcategories == old(subcategories) && search == old(search)
    {
      if byName {
        sortDir := if sortDir == Asc then Desc else Asc;
      } else {
        byName := true;
        sortDir := Asc;
      }
    }

    /** `handleDelete`: after a confirmed, successful delete exactly the entries with that id
        are gone, the rest in order; otherwise the list is unchanged. */
    method HandleDelete(id: string, confirmed: bool, requestOk: bool)
      modifies this
      ensures confirmed && requestOk ==> subcategories == Filter(old(subcategories), (x: Item) => x.id != id)
      ensures !(confirmed && requestOk) ==> subcategories == old(subcategories)
      ensures search == old(search) && byName == old(byName) && sortDir == old(sortDir)
    {
      if confirmed && requestOk {
        subcategories := Filter(subcategories, (x: Item) => x.id != id);
      }
    }
  }

  /** What a delete leaves: no entry with that id, every other entry as often as before, in order. */
  lemma DeleteRemovesExactly(items: seq<Item>, id: string)
    ensures var r := Filter(items, (x: Item) => x.id != id);
            && (forall i :: 0 <= i < |r| ==> r[i].id != id)
            && (forall x: Item :: x.id != id ==> multiset(r)[x] == multiset(items)[x])
            && IsSubsequence(r, items)
  {
    FilterIsSubsequence(items, (x: Item) => x.id != id);
  }
}
