/** The category store and the nested (parent / children) view built from it. */
module Categories {
  import opened Util

  type Id = string

  /** A category document. `parent` is optional and defaults to null. */
  datatype Category = Category(name: string, description: Option<string>, image: Option<string>, parent: Option<Id>)

  /** One fetched document: its `_id` and its fields. */
  datatype Entry = Entry(id: Id, cat: Category)

  /** A value of `categoryMap`: the document's fields plus its `children` array. Children are
      held by id: the array stores the very map entries, so an id stands for the shared entry. */
  datatype Node = Node(cat: Category, children: seq<Id>)

  /** `_id` is the primary key, so a fetched list never repeats an id. */
  predicate DistinctIds(cats: seq<Entry>) {
    forall i, j :: 0 <= i < j < |cats| ==> cats[i].id != cats[j].id
  }

  function IdSet(cats: seq<Entry>): set<Id> {
    if cats == [] then {} else IdSet(cats[..|cats| - 1]) + {cats[|cats| - 1].id}
  }

  /** The fields stored under `x` once every entry has been written into the map
      (a later entry with the same id overwrites an earlier one). */
  function Lookup(cats: seq<Entry>, x: Id): Option<Category> {
    if cats == [] then None
    else if cats[|cats| - 1].id == x then Some(cats[|cats| - 1].cat)
    else Lookup(cats[..|cats| - 1], x)
  }

  /** The ids of the fetched entries satisfying `keep`, in fetch order. */
  function Select(cats: seq<Entry>, keep: Category -> bool): seq<Id> {
    if cats == [] then []
    else Select(cats[..|cats| - 1], keep) + (if keep(cats[|cats| - 1].cat) then [cats[|cats| - 1].id] else [])
  }

  /** Fetched categories whose parent is `p`, in fetch order. */
  function ChildrenOf(cats: seq<Entry>, p: Id): seq<Id> {
    Select(cats, (c: Category) => c.parent == Some(p))
  }

  /** Fetched categories without a parent, in fetch order. */
  function Roots(cats: seq<Entry>): seq<Id> {
    Select(cats, (c: Category) => c.parent.None?)
  }

  // ---------------------------------------------------------------------------
  // getNestedCategories
  // ---------------------------------------------------------------------------

  /** First pass: every fetched category gets a map entry with an empty `children` array. */
  method InitIndex(cats: seq<Entry>) returns (index: map<Id, Node>)
    ensures index.Keys == IdSet(cats)
    ensures forall p :: p in index ==> Lookup(cats, p).Some? && index[p] == Node(Lookup(cats, p).value, [])
  {
    index := map[];
    var i := 0;
    while i < |cats|
      invariant 0 <= i <= |cats|
      invariant index.Keys == IdSet(cats[..i])
      invariant forall p :: p in index ==> Lookup(cats[..i], p).Some? && index[p] == Node(Lookup(cats[..i], p).value, [])
    {
      assert cats[..i + 1][..i] == cats[..i];
      index := index[cats[i].id := Node(cats[i].cat, [])];
      i := i + 1;
    }
    assert cats[..|cats|] == cats;
  }

  /** Second pass: each category whose parent is among the fetched ones is appended to that
      parent's `children`. */
  method LinkChildren(cats: seq<Entry>, index0: map<Id, Node>) returns (index: map<Id, Node>)
    requires index0.Keys == IdSet(cats)
    requires forall p :: p in index0 ==> index0[p].children == []
    ensures index.Keys == index0.Keys
    ensures forall p :: p in index ==> index[p] == Node(index0[p].cat, ChildrenOf(cats, p))
  {
    index := index0;
    var i := 0;
    while i < |cats|
      invariant 0 <= i <= |cats|
      invariant index.Keys == index0.Keys
      invariant forall p :: p in index ==> index[p] == Node(index0[p].cat, ChildrenOf(cats[..i], p))
    {
      assert cats[..i + 1][..i] == cats[..i];
      var c := cats[i];
      if c.cat.parent.Some? && c.cat.parent.value in index {
        var q := c.cat.parent.value;
        index := index[q := index[q].(children := index[q].children + [c.id])];
      }
      i := i + 1;
    }
    assert cats[..|cats|] == cats;
  }

  /** `getNestedCategories`: the map of nodes and the top-level list `nested`. */
  method GetNestedCategories(cats: seq<Entry>) returns (nested: seq<Id>, index: map<Id, Node>)
    requires DistinctIds(cats)
    ensures index.Keys == IdSet(cats)
    ensures forall p :: p in index ==>
              Lookup(cats, p).Some? && index[p] == Node(Lookup(cats, p).value, ChildrenOf(cats, p))
    ensures nested == Roots(cats)
  {
    var index0 := InitIndex(cats);
    index := LinkChildren(cats, index0);
    nested := Roots(cats);
  }

  // ---------------------------------------------------------------------------
  // What the nested view holds
  // ---------------------------------------------------------------------------

  lemma {:induction false} LookupAbsent(cats: seq<Entry>, x: Id)
    requires forall i :: 0 <= i < |cats| ==> cats[i].id != x
    ensures Lookup(cats, x) == None
    ensures x !in IdSet(cats)
  {
    if cats != [] {
      LookupAbsent(cats[..|cats| - 1], x);
    }
  }

  lemma {:induction false} LookupInIdSet(cats: seq<Entry>, x: Id)
    ensures Lookup(cats, x).Some? <==> x in IdSet(cats)
  {
    if cats != [] {
      LookupInIdSet(cats[..|cats| - 1], x);
    }
  }

  /** With distinct ids, an id is selected exactly once when its document satisfies `keep`,
      and never otherwise. */
  lemma {:induction false} SelectCount(cats: seq<Entry>, keep: Category -> bool, x: Id)
    requires DistinctIds(cats)
    ensures multiset(Select(cats, keep))[x] ==
            if Lookup(cats, x).Some? && keep(Lookup(cats, x).value) then 1 else 0
  {
    if cats != [] {
      var s, e := cats[..|cats| - 1], cats[|cats| - 1];
      SelectCount(s, keep, x);
      if e.id == x {
        LookupAbsent(s, x);
      }
    }
  }

  /** A category is in `children[p]` exactly when its parent is `p`, and then once. */
  lemma ChildrenCount(cats: seq<Entry>, p: Id, x: Id)
    requires DistinctIds(cats)
    ensures multiset(ChildrenOf(cats, p))[x] ==
            if Lookup(cats, x).Some? && Lookup(cats, x).value.parent == Some(p) then 1 else 0
  {
    SelectCount(cats, (c: Category) => c.parent == Some(p), x);
  }

  /** The returned list holds exactly the fetched categories without a parent, each once. */
  lemma RootsCount(cats: seq<Entry>, x: Id)
    requires DistinctIds(cats)
    ensures multiset(Roots(cats))[x] ==
            if Lookup(cats, x).Some? && Lookup(cats, x).value.parent.None? then 1 else 0
  {
    SelectCount(cats, (c: Category) => c.parent.None?, x);
  }

  /** Children arrays keep fetch order: `Select` is a subsequence of the fetched ids. */
  lemma {:induction false} SelectOrder(cats: seq<Entry>, keep: Category -> bool, i: nat, j: nat)
    requires DistinctIds(cats)
    requires i < j < |cats| && keep(cats[i].cat) && keep(cats[j].cat)
    ensures exists a, b :: 0 <= a < b < |Select(cats, keep)| &&
              Select(cats, keep)[a] == cats[i].id && Select(cats, keep)[b] == cats[j].id
  {
    var s := cats[..|cats| - 1];
    if j < |cats| - 1 {
      SelectOrder(s, keep, i, j);
      var a, b :| 0 <= a < b < |Select(s, keep)| && Select(s, keep)[a] == cats[i].id && Select(s, keep)[b] == cats[j].id;
      assert Select(cats, keep)[a] == cats[i].id && Select(cats, keep)[b] == cats[j].id;
    } else {
      SelectCount(s, keep, cats[i].id);
      assert s[i] == cats[i];
      LookupOf(s, i);
      var a :| 0 <= a < |Select(s, keep)| && Select(s, keep)[a] == cats[i].id;
      var b := |Select(s, keep)|;
      assert Select(cats, keep)[a] == cats[i].id && Select(cats, keep)[b] == cats[j].id;
    }
  }

  lemma {:induction false} LookupOf(cats: seq<Entry>, i: nat)
    requires DistinctIds(cats) && i < |cats|
    ensures Lookup(cats, cats[i].id) == Some(cats[i].cat)
  {
    if i < |cats| - 1 {
      LookupOf(cats[..|cats| - 1], i);
    }
  }

  /** A category whose parent id was not fetched appears neither at top level, nor in any
      children array, nor anywhere below a root. */
  lemma OrphanDropped(cats: seq<Entry>, x: Id)
    requires DistinctIds(cats)
    requires Lookup(cats, x).Some? && Lookup(cats, x).value.parent.Some?
    requires Lookup(cats, x).value.parent.value !in IdSet(cats)
    ensures x !in Roots(cats)
    ensures forall p :: p in IdSet(cats) ==> x !in ChildrenOf(cats, p)
    ensures !ReachesRoot(cats, x)
  {
    RootsCount(cats, x);
    forall p | p in IdSet(cats) ensures x !in ChildrenOf(cats, p) {
      ChildrenCount(cats, p, x);
    }
    var q := Lookup(cats, x).value.parent.value;
    LookupInIdSet(cats, q);
    forall k: nat ensures !AtDepth(cats, x, k) {
      if k > 0 {
        assert !AtDepth(cats, q, k - 1);
      }
    }
  }

  // ---------------------------------------------------------------------------
  // The rendered forest, layer by layer
  // ---------------------------------------------------------------------------

  /** `x` hangs exactly `k` levels below a top-level category: its parent chain is made of
      fetched categories and ends, after `k` steps, at one without a parent. */
  ghost predicate AtDepth(cats: seq<Entry>, x: Id, k: nat)
    decreases k
  {
    Lookup(cats, x).Some? &&
    match Lookup(cats, x).value.parent
    case None => k == 0
    case Some(q) => k > 0 && AtDepth(cats, q, k - 1)
  }

  ghost predicate ReachesRoot(cats: seq<Entry>, x: Id) {
    exists k: nat :: AtDepth(cats, x, k)
  }

  /** The children arrays of a layer of nodes, concatenated in order. */
  function ChildrenOfLayer(cats: seq<Entry>, layer: seq<Id>): seq<Id> {
    if layer == [] then [] else ChildrenOf(cats, layer[0]) + ChildrenOfLayer(cats, layer[1..])
  }

  /** The ids at nesting depth `k` of the returned JSON: layer 0 is `nested` itself. */
  function Level(cats: seq<Entry>, k: nat): seq<Id> {
    if k == 0 then Roots(cats) else ChildrenOfLayer(cats, Level(cats, k - 1))
  }

  /** Layers 0 .. n-1 of the returned JSON, concatenated. */
  function Forest(cats: seq<Entry>, n: nat): seq<Id> {
    if n == 0 then [] else Forest(cats, n - 1) + Level(cats, n - 1)
  }

  lemma {:induction false} LayerCount(cats: seq<Entry>, layer: seq<Id>, x: Id)
    requires DistinctIds(cats)
    ensures multiset(ChildrenOfLayer(cats, layer))[x] ==
            if Lookup(cats, x).Some? && Lookup(cats, x).value.parent.Some?
            then multiset(layer)[Lookup(cats, x).value.parent.value] else 0
  {
    if layer != [] {
      LayerCount(cats, layer[1..], x);
      ChildrenCount(cats, layer[0], x);
      assert layer == [layer[0]] + layer[1..];
    }
  }

  /** Layer `k` holds `x` exactly once when `x` is at depth `k`, and not at all otherwise. */
  lemma {:induction false} LevelCount(cats: seq<Entry>, k: nat, x: Id)
    requires DistinctIds(cats)
    ensures multiset(Level(cats, k))[x] == if AtDepth(cats, x, k) then 1 else 0
  {
    if k == 0 {
      RootsCount(cats, x);
    } else {
      match Lookup(cats, x)
      case None =>
        LayerCount(cats, Level(cats, k - 1), x);
      case Some(c) =>
        match c.parent
        case None =>
          LayerCount(cats, Level(cats, k - 1), x);
        case Some(q) =>
          LevelCount(cats, k - 1, q);
          LayerCount(cats, Level(cats, k - 1), x);
    }
  }

  lemma {:induction false} DepthUnique(cats: seq<Entry>, x: Id, k: nat, j: nat)
    requires AtDepth(cats, x, k) && AtDepth(cats, x, j)
    ensures k == j
    decreases k
  {
    match Lookup(cats, x).value.parent
    case None =>
    case Some(q) => DepthUnique(cats, q, k - 1, j - 1);
  }

  /** `x` sits in one of the layers 0 .. n-1. */
  ghost predicate DepthBelow(cats: seq<Entry>, x: Id, n: nat) {
    exists k: nat :: k < n && AtDepth(cats, x, k)
  }

  /** Layer n-1 adds `x` exactly when the layers above it do not already hold it. */
  lemma DepthBelowStep(cats: seq<Entry>, x: Id, n: nat)
    requires n > 0
    ensures DepthBelow(cats, x, n) <==> DepthBelow(cats, x, n - 1) || AtDepth(cats, x, n - 1)
    ensures !(DepthBelow(cats, x, n - 1) && AtDepth(cats, x, n - 1))
  {
    if DepthBelow(cats, x, n - 1) {
      var k: nat :| k < n - 1 && AtDepth(cats, x, k);
      if AtDepth(cats, x, n - 1) {
        DepthUnique(cats, x, k, n - 1);
      }
      assert DepthBelow(cats, x, n);
    } else if AtDepth(cats, x, n - 1) {
      assert DepthBelow(cats, x, n);
    } else {
      forall k: nat | k < n ensures !AtDepth(cats, x, k) {
        if k < n - 1 {
          assert !(k < n - 1 && AtDepth(cats, x, k));
        }
      }
    }
  }

  lemma {:induction false} ForestCount(cats: seq<Entry>, n: nat, x: Id)
    requires DistinctIds(cats)
    ensures multiset(Forest(cats, n))[x] == if DepthBelow(cats, x, n) then 1 else 0
  {
    if n > 0 {
      var before, layer := Forest(cats, n - 1), Level(cats, n - 1);
      DepthBelowStep(cats, x, n);
      LevelCount(cats, n - 1, x);
      ForestCount(cats, n - 1, x);
      CountConcat(before, layer, x, DepthBelow(cats, x, n - 1), AtDepth(cats, x, n - 1));
    }
  }

  /** Counting an element of a concatenation whose halves hold it at most once between them. */
  lemma CountConcat(a: seq<Id>, b: seq<Id>, x: Id, inA: bool, inB: bool)
    requires multiset(a)[x] == (if inA then 1 else 0)
    requires multiset(b)[x] == (if inB then 1 else 0)
    requires !(inA && inB)
    ensures multiset(a + b)[x] == if inA || inB then 1 else 0
  {
  }

  /** The categories on the parent chain from `x` up to its top-level ancestor. */
  ghost function Chain(cats: seq<Entry>, x: Id, k: nat): set<Id>
    requires AtDepth(cats, x, k)
    decreases k
  {
    if k == 0 then {x} else {x} + Chain(cats, Lookup(cats, x).value.parent.value, k - 1)
  }

  lemma {:induction false} ChainMembers(cats: seq<Entry>, x: Id, k: nat, y: Id)
    requires AtDepth(cats, x, k) && y in Chain(cats, x, k)
    ensures exists m: nat :: m <= k && AtDepth(cats, y, m)
    decreases k
  {
    if y != x {
      var q := Lookup(cats, x).value.parent.value;
      ChainMembers(cats, q, k - 1, y);
    }
  }

  lemma {:induction false} ChainShape(cats: seq<Entry>, x: Id, k: nat)
    requires AtDepth(cats, x, k)
    ensures |Chain(cats, x, k)| == k + 1
    ensures Chain(cats, x, k) <= IdSet(cats)
    decreases k
  {
    LookupInIdSet(cats, x);
    if k > 0 {
      var q := Lookup(cats, x).value.parent.value;
      ChainShape(cats, q, k - 1);
      if x in Chain(cats, q, k - 1) {
        ChainMembers(cats, q, k - 1, x);
        var m: nat :| m <= k - 1 && AtDepth(cats, x, m);
        DepthUnique(cats, x, m, k);
      }
    }
  }

  lemma {:induction false} IdSetSize(cats: seq<Entry>)
    requires DistinctIds(cats)
    ensures |IdSet(cats)| == |cats|
  {
    if cats != [] {
      var s := cats[..|cats| - 1];
      IdSetSize(s);
      LookupAbsent(s, cats[|cats| - 1].id);
    }
  }

  lemma {:induction false} SubsetSize<T>(a: set<T>, b: set<T>)
    requires a <= b
    ensures |a| <= |b|
  {
    if a != {} {
      var x :| x in a;
      SubsetSize(a - {x}, b - {x});
    }
  }

  /** No category sits deeper than the number of fetched categories allows. */
  lemma DepthBound(cats: seq<Entry>, x: Id, k: nat)
    requires DistinctIds(cats) && AtDepth(cats, x, k)
    ensures k < |cats|
  {
    ChainShape(cats, x, k);
    IdSetSize(cats);
    SubsetSize(Chain(cats, x, k), IdSet(cats));
  }

  /** Every category whose parent chain ends at a top-level category appears exactly once in
      the returned forest, at its depth; every other category does not appear at all. */
  lemma ForestOnce(cats: seq<Entry>, x: Id)
    requires DistinctIds(cats)
    ensures multiset(Forest(cats, |cats|))[x] == if ReachesRoot(cats, x) then 1 else 0
  {
    ForestCount(cats, |cats|, x);
    if ReachesRoot(cats, x) {
      var k: nat :| AtDepth(cats, x, k);
      DepthBound(cats, x, k);
      assert DepthBelow(cats, x, |cats|);
    } else {
      assert !DepthBelow(cats, x, |cats|);
    }
  }

  /** The forest has no layer below depth `|cats| - 1`. */
  lemma ForestComplete(cats: seq<Entry>)
    requires DistinctIds(cats)
    ensures Level(cats, |cats|) == []
  {
    var l := Level(cats, |cats|);
    if l != [] {
      LevelCount(cats, |cats|, l[0]);
      assert l[0] in multiset(l);
      DepthBound(cats, l[0], |cats|);
    }
  }

  // ---------------------------------------------------------------------------
  // updateCategory / deleteCategory
  // ---------------------------------------------------------------------------

  /** The fields a request body may carry; `parent` may be absent, null or an id. */
  datatype CategoryPatch = CategoryPatch(name: Option<string>, description: Option<string>,
                                         image: Option<string>, parent: Option<Option<Id>>)

  /** `findByIdAndUpdate(id, data)`: present fields overwrite, absent ones stay. */
  function ApplyPatch(c: Category, p: CategoryPatch): (r: Category)
    ensures r.name == (if p.name.Some? then p.name.value else c.name)
    ensures r.description == (if p.description.Some? then p.description else c.description)
    ensures r.image == (if p.image.Some? then p.image else c.image)
    ensures r.parent == (if p.parent.Some? then p.parent.value else c.parent)
  {
    Category(if p.name.Some? then p.name.value else c.name,
             if p.description.Some? then p.description else c.description,
             if p.image.Some? then p.image else c.image,
             if p.parent.Some? then p.parent.value else c.parent)
  }

  /** An uploaded file replaces any `image` in the body. */
  function WithFile(p: CategoryPatch, file: Option<string>): (r: CategoryPatch)
    ensures r.image == (if file.Some? then file else p.image)
    ensures r.(image := p.image) == p
  {
    if file.Some? then p.(image := Some(file.value)) else p
  }

  class CategoryStore {
    var docs: map<Id, Category>

    constructor (initial: map<Id, Category>)
      ensures docs == initial
    {
      docs := initial;
    }

    /** `updateCategory`: 404 and no change for an unknown id, otherwise the patched document. */
    method UpdateCategory(id: Id, body: CategoryPatch, file: Option<string>) returns (status: int, updated: Option<Category>)
      modifies this
      ensures id !in old(docs) ==> status == 404 && updated == None && docs == old(docs)
      ensures id in old(docs) ==>
                status == 200 && updated == Some(ApplyPatch(old(docs)[id], WithFile(body, file))) &&
                docs == old(docs)[id := updated.value]
    {
      var data := WithFile(body, file);
      if id !in docs {
        return 404, None;
      }
      var c := ApplyPatch(docs[id], data);
      docs := docs[id := c];
      return 200, Some(c);
    }

    /** `deleteCategory`: 404 and no change for an unknown id; no cascade to children. */
    method DeleteCategory(id: Id) returns (status: int)
      modifies this
      ensures id !in old(docs) ==> status == 404 && docs == old(docs)
      ensures id in old(docs) ==> status == 200 && docs == old(docs) - {id}
    {
      if id !in docs {
        return 404;
      }
      docs := docs - {id};
      return 200;
    }
  }
}
