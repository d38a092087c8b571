/** The blog API: create, update, delete and the existence check, over a store of
    blog documents keyed by id. */
module BlogRoutes {
  import opened Util
  import BlogModel

  type Id = string

  /** The statuses the schema's enum admits. */
  const Statuses: set<string> := {"draft", "published"}

  /** A stored blog document. */
  datatype BlogDoc = BlogDoc(title: string, content: string, author: Id,
                             featuredImage: Option<string>, status: string, slug: string)

  /** What the request rules guarantee about every stored document: title and content
      trimmed and non-empty, status in the enum. */
  predicate DocValid(d: BlogDoc) {
    && d.title != "" && Trim(d.title) == d.title
    && d.content != "" && Trim(d.content) == d.content
    && d.status in Statuses
  }

  predicate StoreValid(docs: map<Id, BlogDoc>) {
    forall id :: id in docs ==> DocValid(docs[id])
  }

  /** A body field passing `.trim().notEmpty()`; a missing field fails. */
  predicate NotEmptyTrimmed(v: Option<string>) {
    v.Some? && Trim(v.value) != ""
  }

  /** The `tags` value: an array, or something else. */
  datatype Tags = TagList(items: seq<string>) | NotAList

  /** A PUT body; `None` is an absent (undefined) field. `featuredImage` may be sent as null. */
  datatype PutBody = PutBody(title: Option<string>, content: Option<string>, tags: Option<Tags>,
                             status: Option<string>, featuredImage: Option<Option<string>>)

  /** The `updates` object: one entry per field the body defines, plus `lastModified`. */
  datatype Updates = Updates(title: Option<string>, content: Option<string>, tags: Option<Tags>,
                             status: Option<string>, featuredImage: Option<Option<string>>,
                             lastModified: nat)

  // ---------------------------------------------------------------------------
  // PUT validation and the partial update
  // ---------------------------------------------------------------------------

  /** The four optional checks of the PUT route; present values are checked after trimming. */
  predicate TitleOk(t: Option<string>) { t.None? || 3 <= |Trim(t.value)| <= 200 }
  predicate ContentOk(c: Option<string>) { c.None? || Trim(c.value) != "" }
  predicate TagsOk(t: Option<Tags>) { t.None? || t.value.TagList? }
  predicate StatusOk(s: Option<string>) { s.None? || s.value in Statuses }

  predicate PutValid(b: PutBody) {
    TitleOk(b.title) && ContentOk(b.content) && TagsOk(b.tags) && StatusOk(b.status)
  }

  /** The trimming sanitizer, applied to a field when it is present. */
  function TrimField(v: Option<string>): (r: Option<string>)
    ensures r.None? <==> v.None?
    ensures r.Some? ==> Trim(r.value) == r.value
  {
    if v.Some? then TrimIdempotent(v.value); Some(Trim(v.value)) else None
  }

  /** `findByIdAndUpdate(id, { $set: updates })`. The schema has no `tags` or `lastModified`
      path, so those two entries are not stored; the slug hook does not run on this call. */
  function ApplyUpdates(d: BlogDoc, u: Updates): (r: BlogDoc)
    ensures r.author == d.author && r.slug == d.slug
    ensures r.title == (if u.title.Some? then u.title.value else d.title)
    ensures r.content == (if u.content.Some? then u.content.value else d.content)
    ensures r.status == (if u.status.Some? then u.status.value else d.status)
    ensures r.featuredImage == (if u.featuredImage.Some? then u.featuredImage.value else d.featuredImage)
  {
    d.(title := if u.title.Some? then u.title.value else d.title,
       content := if u.content.Some? then u.content.value else d.content,
       status := if u.status.Some? then u.status.value else d.status,
       featuredImage := if u.featuredImage.Some? then u.featuredImage.value else d.featuredImage)
  }

  /** The `updates` a body and a clock reading `now` call for: every defined field, the
      strings trimmed by the sanitizers. */
  function UpdatesFor(b: PutBody, now: nat): Updates {
    Updates(TrimField(b.title), TrimField(b.content), b.tags, b.status, b.featuredImage, now)
  }

  /** An update built from a valid body keeps a valid document valid. */
  lemma UpdateKeepsValid(d: BlogDoc, b: PutBody, now: nat)
    requires DocValid(d) && PutValid(b)
    ensures DocValid(ApplyUpdates(d, UpdatesFor(b, now)))
  {
    if b.title.Some? {
      TrimIdempotent(b.title.value);
    }
    if b.content.Some? {
      TrimIdempotent(b.content.value);
    }
  }

  /** A document built by POST from fields that passed validation is valid. */
  lemma CreatedValid(title: string, content: string, author: Id, image: Option<string>, status: string, slug: string)
    requires Trim(title) != "" && Trim(content) != "" && status in Statuses
    ensures DocValid(BlogDoc(Trim(title), Trim(content), author, image, status, slug))
  {
    TrimIdempotent(title);
    TrimIdempotent(content);
  }

  /** Writing a valid document keeps the store valid; so does removing one. */
  lemma StoreWrite(docs: map<Id, BlogDoc>, id: Id, d: BlogDoc)
    requires StoreValid(docs) && DocValid(d)
    ensures StoreValid(docs[id := d])
    ensures StoreValid(docs - {id})
  {
  }

  /** The existence-check query: the keys whose (trimmed) value is truthy. */
  datatype Query = Query(title: Option<string>, slug: Option<string>)

  predicate Matches(d: BlogDoc, q: Query) {
    (q.title.None? || d.title == q.title.value) && (q.slug.None? || d.slug == q.slug.value)
  }

  // ---------------------------------------------------------------------------
  // The routes
  // ---------------------------------------------------------------------------

  class BlogStore {
    var docs: map<Id, BlogDoc>

    constructor ()
      ensures docs == map[]
    {
      docs := map[];
    }

    /** POST: 400 unless title and content are non-empty after trimming, then 401 without a
        user id. Any slug in the body is ignored: the pre-save hook makes a new one from the
        title and the clock readings `now1`, `now2`. A status outside the enum fails the
        schema's validation when saving (500). */
    method CreateBlog(newId: Id, title: Option<string>, content: Option<string>, status: Option<string>,
                      featuredImage: Option<string>, userId: Option<string>, now1: nat, now2: nat)
      returns (code: int, created: Option<BlogDoc>)
      requires newId !in docs
      modifies this
      ensures !NotEmptyTrimmed(title) || !NotEmptyTrimmed(content) ==>
                code == 400 && created == None && docs == old(docs)
      ensures NotEmptyTrimmed(title) && NotEmptyTrimmed(content) && !Truthy(userId) ==>
                code == 401 && created == None && docs == old(docs)
      ensures NotEmptyTrimmed(title) && NotEmptyTrimmed(content) && Truthy(userId) ==>
                var st := if Truthy(status) then status.value else "draft";
                && (st !in Statuses ==> code == 500 && created == None && docs == old(docs))
                && (st in Statuses ==>
                      && code == 201
                      && created == Some(BlogDoc(Trim(title.value), Trim(content.value), userId.value,
                                                 if Truthy(featuredImage) then featuredImage else None, st,
                                                 BlogModel.NewSlug(Trim(title.value), now1, now2)))
                      && docs == old(docs)[newId := created.value])
      ensures StoreValid(old(docs)) ==> StoreValid(docs)
    {
      if !NotEmptyTrimmed(title) || !NotEmptyTrimmed(content) {
        return 400, None;
      }
      if !Truthy(userId) {
        return 401, None;
      }
      var st := if Truthy(status) then status.value else "draft";
      if st !in Statuses {
        return 500, None;
      }
      var t := Trim(title.value);
      var c := Trim(content.value);
      var image := if Truthy(featuredImage) then featuredImage else None;
      var doc := BlogDoc(t, c, userId.value, image, st, BlogModel.NewSlug(t, now1, now2));
      CreatedValid(title.value, content.value, userId.value, image, st, doc.slug);
      if StoreValid(docs) {
        StoreWrite(docs, newId, doc);
      }
      docs := docs[newId := doc];
      return 201, Some(doc);
    }

    /** Builds `updates` field by field: an entry for every field the body defines. */
    static method BuildUpdates(b: PutBody, now: nat) returns (u: Updates)
      ensures u == UpdatesFor(b, now)
    {
      u := Updates(None, None, None, None, None, now);
      if b.title.Some? { u := u.(title := Some(Trim(b.title.value))); }
      if b.content.Some? { u := u.(content := Some(Trim(b.content.value))); }
      if b.tags.Some? { u := u.(tags := b.tags); }
      if b.status.Some? { u := u.(status := b.status); }
      if b.featuredImage.Some? { u := u.(featuredImage := b.featuredImage); }
    }

    /** PUT: validation (400), then not found (404), then not the author (401), all before
        any write; then only the defined fields change. */
    method UpdateBlog(id: Id, b: PutBody, userId: Option<string>, now: nat)
      returns (code: int, updated: Option<BlogDoc>)
      modifies this
      ensures !PutValid(b) ==> code == 400 && updated == None && docs == old(docs)
      ensures PutValid(b) && id !in old(docs) ==> code == 404 && updated == None && docs == old(docs)
      ensures PutValid(b) && id in old(docs) && userId != Some(old(docs)[id].author) ==>
                code == 401 && updated == None && docs == old(docs)
      ensures PutValid(b) && id in old(docs) && userId == Some(old(docs)[id].author) ==>
                && code == 200
                && updated == Some(ApplyUpdates(old(docs)[id], UpdatesFor(b, now)))
                && docs == old(docs)[id := updated.value]
      ensures StoreValid(old(docs)) ==> StoreValid(docs)
    {
      if !PutValid(b) {
        return 400, None;
      }
      if id !in docs {
        return 404, None;
      }
      if userId != Some(docs[id].author) {
        return 401, None;
      }
      var u := BuildUpdates(b, now);
      var d := ApplyUpdates(docs[id], u);
      if StoreValid(docs) {
        UpdateKeepsValid(docs[id], b, now);
        StoreWrite(docs, id, d);
      }
      docs := docs[id := d];
      return 200, Some(d);
    }

    /** DELETE: 404 for an unknown id, 401 for a caller who is not the author, else removal. */
    method DeleteBlog(id: Id, userId: Option<string>) returns (code: int)
      modifies this
      ensures id !in old(docs) ==> code == 404 && docs == old(docs)
      ensures id in old(docs) && userId != Some(old(docs)[id].author) ==> code == 401 && docs == old(docs)
      ensures id in old(docs) && userId == Some(old(docs)[id].author) ==> code == 200 && docs == old(docs) - {id}
      ensures StoreValid(old(docs)) ==> StoreValid(docs)
    {
      if id !in docs {
        return 404;
      }
      if userId != Some(docs[id].author) {
        return 401;
      }
      docs := docs - {id};
      return 200;
    }

    /** The existence check: 400 when neither title nor slug is given (after trimming);
        otherwise a query on the given keys only, and `exists` tells whether a blog matches it. */
    method VerifyBlog(title: Option<string>, slug: Option<string>) returns (code: int, query: Query, found: bool)
      ensures var t, s := TrimField(title), TrimField(slug);
              && (!Truthy(t) && !Truthy(s) ==> code == 400 && !found)
              && (Truthy(t) || Truthy(s) ==>
                    && code == 200
                    && query.title == (if Truthy(t) then t else None)
                    && query.slug == (if Truthy(s) then s else None)
                    && (found <==> exists id :: id in docs && Matches(docs[id], query)))
    {
      var t, s := TrimField(title), TrimField(slug);
      query := Query(None, None);
      if !Truthy(t) && !Truthy(s) {
        return 400, query, false;
      }
      if Truthy(t) { query := query.(title := t); }
      if Truthy(s) { query := query.(slug := s); }
      found := exists id :: id in docs && Matches(docs[id], query);
      code := 200;
    }
  }
}
