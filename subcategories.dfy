/** The subcategory store: create / update / delete guards and the nested view of the
    subcategories of one parent. The store is kept apart from the category store. */
module Subcategories {
  import opened Util

  type Id = string

  /** A subcategory document; `parent` is required. */
  datatype SubCategory = SubCategory(name: string, description: Option<string>, image: Option<string>, parent: Id)

  /** One fetched document: its `_id` and its fields. */
  datatype SubEntry = SubEntry(id: Id, sub: SubCategory)

  /** A value of `subcategoryMap`: the document's fields plus its `children` array (held by id). */
  datatype SubNode = SubNode(sub: SubCategory, children: seq<Id>)

  predicate DistinctIds(subs: seq<SubEntry>) {
    forall i, j :: 0 <= i < j < |subs| ==> subs[i].id != subs[j].id
  }

  function Ids(subs: seq<SubEntry>): (r: seq<Id>)
    ensures |r| == |subs|
    ensures forall i :: 0 <= i < |subs| ==> r[i] == subs[i].id
  {
    seq(|subs|, i requires 0 <= i < |subs| => subs[i].id)
  }

  /** `SubCategory.find({ parent: parentId })`: the stored documents with that parent, in store order. */
  function FindByParent(all: seq<SubEntry>, parentId: Id): (r: seq<SubEntry>)
    ensures forall e :: e in r ==> e in all && e.sub.parent == parentId
    ensures forall e :: e in all && e.sub.parent == parentId ==> e in r
    ensures DistinctIds(all) ==> DistinctIds(r)
  {
    if all == [] then []
    else
      var rest, last := FindByParent(all[..|all| - 1], parentId), all[|all| - 1];
      assert forall e :: e in all ==> e in all[..|all| - 1] || e == last;
      if last.sub.parent == parentId then rest + [last] else rest
  }

  /** Fetched subcategories whose parent is `p`, in fetch order. */
  function ChildrenOf(subs: seq<SubEntry>, p: Id): seq<Id> {
    if subs == [] then []
    else ChildrenOf(subs[..|subs| - 1], p) + (if subs[|subs| - 1].sub.parent == p then [subs[|subs| - 1].id] else [])
  }

  /** When every fetched document has parent `parentId`, the children of `parentId` are all of
      them, in fetch order, and every other id has none. */
  lemma {:induction false} ChildrenOfFetched(subs: seq<SubEntry>, parentId: Id, p: Id)
    requires forall e :: e in subs ==> e.sub.parent == parentId
    ensures ChildrenOf(subs, p) == if p == parentId then Ids(subs) else []
  {
    if subs != [] {
      var s := subs[..|subs| - 1];
      ChildrenOfFetched(s, parentId, p);
      assert subs[|subs| - 1] in subs;
      if p == parentId {
        assert Ids(subs) == Ids(s) + [subs[|subs| - 1].id];
      }
    }
  }

  // ---------------------------------------------------------------------------
  // getNestedSubcategories
  // ---------------------------------------------------------------------------

  /** First pass: every fetched subcategory gets a map entry with an empty `children` array. */
  method InitIndex(subs: seq<SubEntry>) returns (index: map<Id, SubNode>)
    requires DistinctIds(subs)
    ensures index.Keys == set i | 0 <= i < |subs| :: subs[i].id
    ensures forall i :: 0 <= i < |subs| ==> index[subs[i].id] == SubNode(subs[i].sub, [])
  {
    index := map[];
    var i := 0;
    while i < |subs|
      invariant 0 <= i <= |subs|
      invariant index.Keys == set j | 0 <= j < i :: subs[j].id
      invariant forall j :: 0 <= j < i ==> index[subs[j].id] == SubNode(subs[j].sub, [])
    {
      index := index[subs[i].id := SubNode(subs[i].sub, [])];
      i := i + 1;
    }
  }

  /** Second pass: each subcategory whose parent is a key of the map is appended to that
      entry's `children`. (The parent is an object id, so its truthiness test always passes.) */
  method LinkChildren(subs: seq<SubEntry>, index0: map<Id, SubNode>) returns (index: map<Id, SubNode>)
    requires forall p :: p in index0 ==> index0[p].children == []
    ensures index.Keys == index0.Keys
    ensures forall p :: p in index ==> index[p] == SubNode(index0[p].sub, ChildrenOf(subs, p))
  {
    index := index0;
    var i := 0;
    while i < |subs|
      invariant 0 <= i <= |subs|
      invariant index.Keys == index0.Keys
      invariant forall p :: p in index ==> index[p] == SubNode(index0[p].sub, ChildrenOf(subs[..i], p))
    {
      assert subs[..i + 1][..i] == subs[..i];
      var c := subs[i];
      if c.sub.parent in index {
        var q := c.sub.parent;
        index := index[q := index[q].(children := index[q].children + [c.id])];
      }
      i := i + 1;
    }
    assert subs[..|subs|] == subs;
  }

  /** Serialising the result fails on a circular structure: some node lists itself among its
      children. */
  predicate Circular(index: map<Id, SubNode>) {
    exists p :: p in index && p in index[p].children
  }

  /** `getNestedSubcategories`: 400 without `parentId`; otherwise one node per stored
      subcategory of that parent, all of them listed at top level. Only a fetched subcategory
      whose own id is `parentId` can receive children, and then it receives all of them,
      itself included, so sending the response fails with 500. */
  method GetNestedSubcategories(all: seq<SubEntry>, parentId: Option<string>)
    returns (status: int, nested: seq<Id>, index: map<Id, SubNode>)
    requires DistinctIds(all)
    ensures !Truthy(parentId) ==> status == 400 && nested == [] && index == map[]
    ensures Truthy(parentId) ==>
              var fetched := FindByParent(all, parentId.value);
              && index.Keys == (set i | 0 <= i < |fetched| :: fetched[i].id)
              && (forall i :: 0 <= i < |fetched| ==> index[fetched[i].id].sub == fetched[i].sub)
              && (forall p :: p in index ==> index[p].sub.parent == parentId.value)
              && (forall p :: p in index ==> index[p].children == if p == parentId.value then Ids(fetched) else [])
              && nested == Ids(fetched)
              && (status == 500 <==> parentId.value in index)
              && (status == 500 <==> Circular(index))
              && (status == 200 || status == 500)
  {
    if !Truthy(parentId) {
      return 400, [], map[];
    }
    var pid := parentId.value;
    var fetched := FindByParent(all, pid);
    var index0 := InitIndex(fetched);
    index := LinkChildren(fetched, index0);
    LinkedFetched(fetched, pid, index);
    nested := ChildrenOf(fetched, pid);
    ChildrenOfFetched(fetched, pid, pid);
    status := if pid in index then 500 else 200;
  }

  /** The shape of the map once both passes have run over documents that all have parent `pid`. */
  lemma LinkedFetched(fetched: seq<SubEntry>, pid: Id, index: map<Id, SubNode>)
    requires forall e :: e in fetched ==> e.sub.parent == pid
    requires index.Keys == set i | 0 <= i < |fetched| :: fetched[i].id
    requires forall i :: 0 <= i < |fetched| ==> index[fetched[i].id].sub == fetched[i].sub
    requires forall p :: p in index ==> index[p].children == ChildrenOf(fetched, p)
    ensures forall p :: p in index ==> index[p].sub.parent == pid
    ensures forall p :: p in index ==> index[p].children == if p == pid then Ids(fetched) else []
    ensures Circular(index) <==> pid in index
  {
    forall p | p in index ensures index[p].sub.parent == pid
                           && index[p].children == if p == pid then Ids(fetched) else [] {
      LinkedNode(fetched, pid, index, p);
    }
    if pid in index {
      var i :| 0 <= i < |fetched| && fetched[i].id == pid;
      assert Ids(fetched)[i] == pid;
    }
    CircularShape(index, pid, Ids(fetched));
  }

  /** A map in which only `pid` has children is circular exactly when `pid` is a key that is
      among its own children. */
  lemma CircularShape(index: map<Id, SubNode>, pid: Id, ids: seq<Id>)
    requires forall p :: p in index ==> index[p].children == if p == pid then ids else []
    requires pid in index ==> pid in ids
    ensures Circular(index) <==> pid in index
  {
    if pid in index {
      assert pid in index[pid].children;
    }
  }

  /** One entry of that map: its fields come from the fetched document of that id. */
  lemma LinkedNode(fetched: seq<SubEntry>, pid: Id, index: map<Id, SubNode>, p: Id)
    requires forall e :: e in fetched ==> e.sub.parent == pid
    requires index.Keys == set i | 0 <= i < |fetched| :: fetched[i].id
    requires forall i :: 0 <= i < |fetched| ==> index[fetched[i].id].sub == fetched[i].sub
    requires forall p :: p in index ==> index[p].children == ChildrenOf(fetched, p)
    requires p in index
    ensures index[p].sub.parent == pid
    ensures index[p].children == if p == pid then Ids(fetched) else []
  {
    var i :| 0 <= i < |fetched| && fetched[i].id == p;
    assert fetched[i] in fetched;
    ChildrenOfFetched(fetched, pid, p);
  }

  // ---------------------------------------------------------------------------
  // createSubcategory / updateSubcategory / deleteSubcategory
  // ---------------------------------------------------------------------------

  /** The fields a request body may carry. */
  datatype SubPatch = SubPatch(name: Option<string>, description: Option<string>,
                               image: Option<string>, parent: Option<string>)

  /** An uploaded file replaces any `image` in the body. */
  function WithFile(p: SubPatch, file: Option<string>): (r: SubPatch)
    ensures r.image == (if file.Some? then file else p.image)
    ensures r.(image := p.image) == p
  {
    if file.Some? then p.(image := Some(file.value)) else p
  }

  /** `findByIdAndUpdate(id, data)`: present fields overwrite, absent ones stay. */
  function ApplyPatch(s: SubCategory, p: SubPatch): (r: SubCategory)
    ensures p.name.Some? ==> r.name == p.name.value
    ensures p.name.None? ==> r.name == s.name
    ensures p.parent.Some? ==> r.parent == p.parent.value
    ensures p.parent.None? ==> r.parent == s.parent
    ensures r.description == (if p.description.Some? then p.description else s.description)
    ensures r.image == (if p.image.Some? then p.image else s.image)
  {
    SubCategory(if p.name.Some? then p.name.value else s.name,
                if p.description.Some? then p.description else s.description,
                if p.image.Some? then p.image else s.image,
                if p.parent.Some? then p.parent.value else s.parent)
  }

  /** Patching twice with the same body is patching once. */
  lemma ApplyPatchIdempotent(s: SubCategory, p: SubPatch)
    ensures ApplyPatch(ApplyPatch(s, p), p) == ApplyPatch(s, p)
  {
  }

  class SubCategoryStore {
    var docs: map<Id, SubCategory>

    constructor (initial: map<Id, SubCategory>)
      ensures docs == initial
    {
      docs := initial;
    }

    /** `createSubcategory`: a missing or empty parent is refused with 400 and nothing is saved;
        so is a missing or empty name (the schema requires one). `newId` is the id the store assigns to the new document. */
    method CreateSubcategory(newId: Id, body: SubPatch, file: Option<string>) returns (status: int, created: Option<SubCategory>)
      requires newId !in docs
      modifies this
      ensures !Truthy(body.parent) ==> status == 400 && created == None && docs == old(docs)
      ensures Truthy(body.parent) && !Truthy(body.name) ==> status == 400 && created == None && docs == old(docs)
      ensures Truthy(body.parent) && Truthy(body.name) ==>
                var data := WithFile(body, file);
                && status == 201
                && created == Some(SubCategory(body.name.value, data.description, data.image, body.parent.value))
                && docs == old(docs)[newId := created.value]
    {
      if !Truthy(body.parent) {
        return 400, None;
      }
      var data := WithFile(body, file);
      if !Truthy(data.name) {
        return 400, None;
      }
      var s := SubCategory(data.name.value, data.description, data.image, data.parent.value);
      docs := docs[newId := s];
      return 201, Some(s);
    }

    /** `updateSubcategory`: the parent guard runs before the lookup, then 404 for an unknown id. */
    method UpdateSubcategory(id: Id, body: SubPatch, file: Option<string>) returns (status: int, updated: Option<SubCategory>)
      modifies this
      ensures !Truthy(body.parent) ==> status == 400 && updated == None && docs == old(docs)
      ensures Truthy(body.parent) && id !in old(docs) ==> status == 404 && updated == None && docs == old(docs)
      ensures Truthy(body.parent) && id in old(docs) ==>
                && status == 200
                && updated == Some(ApplyPatch(old(docs)[id], WithFile(body, file)))
                && updated.value.parent != ""
                && docs == old(docs)[id := updated.value]
    {
      if !Truthy(body.parent) {
        return 400, None;
      }
      var data := WithFile(body, file);
      if id !in docs {
        return 404, None;
      }
      var s := ApplyPatch(docs[id], data);
      docs := docs[id := s];
      return 200, Some(s);
    }

    /** `deleteSubcategory`: 404 and no change for an unknown id. */
    method DeleteSubcategory(id: Id) returns (status: int)
      modifies this
      ensures id !in old(docs) ==> status == 404 && docs == old(docs)
      ensures id in old(docs) ==> status == 200 && docs == old(docs) - {id}
    {
      if id !in docs {
        return 404;
      }
      docs := docs - {id};
      return 200;
    }
  }
}
