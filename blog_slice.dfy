/** The client's blog store slice: the list of blogs, the blog on display, and the
    loading / error flags, with the reducers for each request's pending, fulfilled and
    rejected outcomes. */
module BlogSlice {
  import opened Util

  /** A blog as the client holds it. `id` is the `_id` property, which a response object may
      lack. */
  datatype Blog = Blog(id: Option<string>, title: string, content: string, categories: seq<string>,
                       tags: seq<string>, status: string, slug: string)

  /** `blogs.findIndex(blog => blog._id === id)`: the first index whose id is `id`, or -1. */
  function FindIndex(blogs: seq<Blog>, id: Option<string>): (r: int)
    ensures -1 <= r < |blogs|
    ensures r == -1 <==> forall i :: 0 <= i < |blogs| ==> blogs[i].id != id
    ensures r >= 0 ==> blogs[r].id == id && forall i :: 0 <= i < r ==> blogs[i].id != id
  {
    if blogs == [] then -1
    else if blogs[0].id == id then 0
    else
      var k := FindIndex(blogs[1..], id);
      if k == -1 then -1 else k + 1
  }

  /** `currentBlog?._id`: undefined when there is no current blog. */
  function CurrentId(current: Option<Blog>): (r: Option<string>)
    ensures current.None? ==> r.None?
    ensures current.Some? ==> r == current.value.id
  {
    if current.Some? then current.value.id else None
  }

  /** The list after `updateBlog.fulfilled`: the first entry with the payload's id replaced. */
  function ReplaceFirst(blogs: seq<Blog>, payload: Blog): (r: seq<Blog>)
    ensures |r| == |blogs|
    ensures (forall i :: 0 <= i < |blogs| ==> blogs[i].id != payload.id) ==> r == blogs
    ensures forall i :: 0 <= i < |blogs| && i != FindIndex(blogs, payload.id) ==> r[i] == blogs[i]
    ensures FindIndex(blogs, payload.id) >= 0 ==> r[FindIndex(blogs, payload.id)] == payload
  {
    var k := FindIndex(blogs, payload.id);
    if k == -1 then blogs else blogs[k := payload]
  }

  /** The list after `deleteBlog.fulfilled`: every entry with that id is gone. */
  function RemoveId(blogs: seq<Blog>, id: string): (r: seq<Blog>)
    ensures forall i :: 0 <= i < |r| ==> r[i].id != Some(id)
    ensures forall b :: multiset(r)[b] == if b.id == Some(id) then 0 else multiset(blogs)[b]
    ensures IsSubsequence(r, blogs)
  {
    var keep := (b: Blog) => b.id != Some(id);
    FilterIsSubsequence(blogs, keep);
    Filter(blogs, keep)
  }

  /** A later entry with the same id as an earlier one is left alone by an update. */
  lemma UpdateTouchesFirstOnly(blogs: seq<Blog>, payload: Blog, i: nat, j: nat)
    requires i < j < |blogs| && blogs[i].id == payload.id && blogs[j].id == payload.id
    ensures ReplaceFirst(blogs, payload)[j] == blogs[j]
    ensures FindIndex(blogs, payload.id) <= i
  {
  }

  class BlogState {
    var blogs: seq<Blog>
    var currentBlog: Option<Blog>
    var loading: bool
    var error: Option<string>

    /** `initialState` */
    constructor ()
      ensures blogs == [] && currentBlog == None && !loading && error == None
    {
      blogs, currentBlog, loading, error := [], None, false, None;
    }

    /** The pending case of every request: loading, no error, nothing else changes. */
    method Pending()
      modifies this
      ensures loading && error == None
      ensures blogs == old(blogs) && currentBlog == old(currentBlog)
    {
      loading := true;
      error := None;
    }

    /** The rejected case of every request: the error is the rejection's payload. */
    method Rejected(payload: Option<string>)
      modifies this
      ensures !loading && error == payload
      ensures blogs == old(blogs) && currentBlog == old(currentBlog)
    {
      loading := false;
      error := payload;
    }

    /** `fetchBlogs.fulfilled`: the list is replaced wholesale. */
    method FetchBlogsFulfilled(payload: seq<Blog>)
      modifies this
      ensures !loading && blogs == payload
      ensures currentBlog == old(currentBlog) && error == old(error)
    {
      loading := false;
      blogs := payload;
    }

    /** `fetchBlogById.fulfilled` and `fetchBlogBySlug.fulfilled`: only the current blog and
        the loading flag change. */
    method FetchOneFulfilled(payload: Blog)
      modifies this
      ensures !loading && currentBlog == Some(payload)
      ensures blogs == old(blogs) && error == old(error)
    {
      loading := false;
      currentBlog := Some(payload);
    }

    /** `createBlog.fulfilled`: the new blog is pushed at the end. */
    method CreateFulfilled(payload: Blog)
      modifies this
      ensures !loading && blogs == old(blogs) + [payload]
      ensures currentBlog == old(currentBlog) && error == old(error)
    {
      loading := false;
      blogs := blogs + [payload];
    }

    /** `updateBlog.fulfilled`: the first entry with the payload's id is replaced; the current
        blog is replaced when its id (undefined when there is none) equals the payload's. */
    method UpdateFulfilled(payload: Blog)
      modifies this
      ensures !loading && error == old(error)
      ensures blogs == ReplaceFirst(old(blogs), payload)
      ensures currentBlog == if CurrentId(old(currentBlog)) == payload.id then Some(payload) else old(currentBlog)
    {
      loading := false;
      var index := FindIndex(blogs, payload.id);
      if index != -1 {
        blogs := blogs[index := payload];
      }
      if CurrentId(currentBlog) == payload.id {
        currentBlog := Some(payload);
      }
    }

    /** `deleteBlog.fulfilled`: every entry with that id is removed; the current blog is
        cleared when it has that id. */
    method DeleteFulfilled(id: string)
      modifies this
      ensures !loading && error == old(error)
      ensures blogs == RemoveId(old(blogs), id)
      ensures currentBlog == if CurrentId(old(currentBlog)) == Some(id) then None else old(currentBlog)
    {
      loading := false;
      blogs := Filter(blogs, (b: Blog) => b.id != Some(id));
      if CurrentId(currentBlog) == Some(id) {
        currentBlog := None;
      }
    }

    method ClearCurrentBlog()
      modifies this
      ensures currentBlog == None
      ensures blogs == old(blogs) && loading == old(loading) && error == old(error)
    {
      currentBlog := None;
    }

    method ClearError()
      modifies this
      ensures error == None
      ensures blogs == old(blogs) && currentBlog == old(currentBlog) && loading == old(loading)
    {
      error := None;
    }
  }

  /** With no current blog, an update whose payload carries an id leaves it empty; a payload
      without `_id` (such as a response wrapping the blog in another object) becomes the
      current blog and replaces no entry of a list whose blogs all have ids. */
  lemma UpdateWithoutCurrent(blogs: seq<Blog>, payload: Blog)
    requires forall i :: 0 <= i < |blogs| ==> blogs[i].id.Some?
    ensures payload.id.Some? ==> CurrentId(None) != payload.id
    ensures payload.id.None? ==> CurrentId(None) == payload.id && ReplaceFirst(blogs, payload) == blogs
  {
  }
}
