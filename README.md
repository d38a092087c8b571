# Trading-company admin: a verified model of its request rules, reducers and upload gates

The system is an admin application for a trading company. It has three parts:

- an Express/Mongoose API for categories, subcategories, blogs and quote requests;
- a React client with forms and list pages and two small Redux slices;
- a PHP endpoint that accepts image uploads.

This project models the deterministic pieces of that system in Dafny and proves what they
guarantee:

- building the nested category and subcategory trees;
- the guards and status codes of the create, update and delete handlers;
- the two slug generators, the blog editor's formatting splice and the blog API's rules;
- the blog and auth reducers;
- the client forms' submit rules and the product gallery assembly;
- the image picker's change and remove handlers;
- the PHP upload checks and the brochure upload filter.

There is one Dafny module per source file, plus `Util`. `Util` holds the shared pieces:

- string helpers: ASCII case folding, JavaScript white space and `trim`, substring search, the regex-like hyphen passes;
- `filter` by index and by predicate;
- basename and last-index helpers;
- decimal and hexadecimal rendering, each with its read-back function.

Code that mutates state becomes a `class`, whose methods state their new state in full:

- React component state;
- the Redux slices;
- the stores behind the API;
- the blog document of the pre-save hook.

Pure expressions are functions.

Conventions of the model:

- **Stores.** A document store is a `map` from id to record. A fetched list is a `seq` in fetch order, with distinct ids.
- **Absent values.** A missing or `undefined` value is `None`. JavaScript truthiness of a string is `Truthy`.
- **Parameters for the world.** The clock, random bytes, upload results, request outcomes and the image compressor are all parameters. This covers `Date.now()`, `time()` and `random_bytes`, and the `requestOk`/`moveOk` flags.

## Model

| member | source | states |
|---|---|---|
| Categories.InitIndex | server/controllers/categoryController.js:67-70 | every fetched category gets a map entry of its own record with an empty children list, and the keys are exactly the fetched ids |
| Categories.Lookup | server/controllers/categoryController.js:67-70 | definition: the last fetched category with the id, since a later write to the map overwrites an earlier one; with distinct ids this is the only one; `Categories.LookupOf`, `Categories.LookupInIdSet` and `Categories.LookupAbsent` prove how it relates to the map |
| Categories.LookupAbsent | server/controllers/categoryController.js:67-70 | an id not among the fetched ones has no entry |
| Categories.ChildrenOf | server/controllers/categoryController.js:72-76 | definition: in fetch order, the ids whose parent is `p`; `Categories.LinkChildren` and `Categories.ChildrenCount` state what the map holds |
| Categories.Roots | server/controllers/categoryController.js:78 | definition: in fetch order, the ids without a parent; `Categories.GetNestedCategories` returns it and `Categories.RootsCount` counts it |
| Categories.LinkChildren | server/controllers/categoryController.js:72-76 | afterwards each entry's children are the fetched categories whose parent is that id, in fetch order; a record only gets children if its id is among the fetched ones |
| Categories.GetNestedCategories | server/controllers/categoryController.js:63-79 | the map holds one entry per fetched id with the children described above, and the returned list is exactly the parentless categories in fetch order |
| Categories.RootsCount | server/controllers/categoryController.js:78 | an id occurs once in the top-level list iff it is fetched and has no parent, else not at all |
| Categories.ChildrenCount | server/controllers/categoryController.js:72-76 | an id occurs once among the children of `p` iff it is fetched with parent `p`, else not at all |
| Categories.LookupOf | server/controllers/categoryController.js:67-70 | with distinct ids, the map entry of a fetched id holds that category's own fields |
| Categories.LookupInIdSet | server/controllers/categoryController.js:67-70 | an id has a map entry iff it was fetched |
| Categories.SelectCount | server/controllers/categoryController.js:74-78 | with distinct ids, a filter over the fetched list holds an id once iff its category passes, else not at all |
| Categories.LayerCount | server/controllers/categoryController.js:72-76 | the children of a layer hold a fetched id as often as its parent occurs in the layer, and a parentless id not at all |
| Categories.ChainShape | server/controllers/categoryController.js:69-74 | the parent chain from a category at depth k to its root has k + 1 members, all fetched |
| Categories.SelectOrder | server/controllers/categoryController.js:74-78 | filtering keeps fetch order: two kept categories appear in the result in the order they were fetched |
| Categories.OrphanDropped | server/controllers/categoryController.js:73-78 | a category whose parent id is not fetched is in no children list, not at top level, and not reachable from a root |
| Categories.LevelCount | server/controllers/categoryController.js:69-78 | the categories at nesting depth k are exactly those whose parent chain reaches a root in k steps, each once |
| Categories.DepthUnique | server/controllers/categoryController.js:69-74 | a category sits at one depth only (the parent chain is a function) |
| Categories.ForestCount | server/controllers/categoryController.js:69-78 | across depths 0..n-1 an id occurs exactly once iff its depth is below n |
| Categories.DepthBound | server/controllers/categoryController.js:69-74 | with distinct ids no depth reaches the number of fetched categories |
| Categories.ForestOnce | server/controllers/categoryController.js:69-78 | every category whose parent chain ends at a root appears exactly once in the rendered forest, at any depth; the others do not appear |
| Categories.ForestComplete | server/controllers/categoryController.js:69-78 | the forest has no level at a depth equal to the number of fetched categories, so the levels above that depth cover it |
| Categories.ApplyPatch | server/controllers/categoryController.js:40-44 | `findByIdAndUpdate`: each of name, description, image and parent is overwritten when present in the body and kept when absent |
| Categories.WithFile | server/controllers/categoryController.js:41-43 | an uploaded file replaces `image` and nothing else; without one the body is unchanged |
| Categories.CategoryStore.UpdateCategory | server/controllers/categoryController.js:38-46 | an unknown id gives 404 and changes nothing; otherwise 200 and only that record becomes the patched one, the uploaded file's path replacing `image` when there is a file |
| Categories.CategoryStore.DeleteCategory | server/controllers/categoryController.js:52-56 | an unknown id gives 404 and changes nothing; otherwise 200 and exactly that id is removed |
| Subcategories.FindByParent | server/controllers/subcategoryController.js:79 | the result is exactly the stored subcategories with that parent, with distinct ids |
| Subcategories.ChildrenOfFetched | server/controllers/subcategoryController.js:79-90 | when every fetched record has parent `parentId`, only the id `parentId` can have children, and it has all of them in fetch order |
| Subcategories.InitIndex | server/controllers/subcategoryController.js:82-84 | one map entry per fetched id, holding its record and no children |
| Subcategories.LinkChildren | server/controllers/subcategoryController.js:86-90 | each entry's children are the fetched subcategories whose parent is that id, in fetch order |
| Subcategories.GetNestedSubcategories | server/controllers/subcategoryController.js:73-97 | without `parentId`: 400. Otherwise there is one node per fetched subcategory and each has parent `parentId`. Only a node whose own id is `parentId` has children, and then it has all of them, itself included. In that case the structure is circular and the answer is 500, else 200 |
| Subcategories.LinkedFetched | server/controllers/subcategoryController.js:79-92 | the shape of the map after both passes: every parent is `parentId`, only entry `parentId` has children, and the map is circular iff `parentId` is a key |
| Subcategories.CircularShape | server/controllers/subcategoryController.js:86-93 | a map where only `pid` has children is circular iff `pid` is a key |
| Subcategories.Circular | server/controllers/subcategoryController.js:92-95 | definition: some node lists itself among its children, which is the structure `res.json` cannot serialise; `Subcategories.LinkedFetched` and `Subcategories.CircularShape` prove it holds exactly when the parent was fetched |
| Subcategories.LinkedNode | server/controllers/subcategoryController.js:82-90 | one entry of the linked map: its parent is `parentId` and its children are all fetched ids or none |
| Subcategories.WithFile | server/controllers/subcategoryController.js:11-13 | an uploaded file replaces `image` and nothing else |
| Subcategories.ApplyPatch | server/controllers/subcategoryController.js:53 | present fields overwrite, absent ones stay |
| Subcategories.ApplyPatchIdempotent | server/controllers/subcategoryController.js:53 | applying the same body twice is applying it once |
| Subcategories.SubCategoryStore.CreateSubcategory | server/controllers/subcategoryController.js:5-18 | a missing or empty parent gives 400 and saves nothing. A missing name then fails the schema, also 400 with nothing saved. Otherwise 201 and exactly the new record is added |
| Subcategories.SubCategoryStore.UpdateSubcategory | server/controllers/subcategoryController.js:44-55 | a missing or empty parent gives 400, then an unknown id gives 404, both with no change; otherwise 200 and only that record is patched |
| Subcategories.SubCategoryStore.DeleteSubcategory | server/controllers/subcategoryController.js:62-66 | an unknown id gives 404 and changes nothing; otherwise exactly that id is removed |
| BlogModel.SkipNonAlnum | server/models/Blog.js:41 | a suffix of the input that is empty or starts in `[a-z0-9]`, and the whole input when it already starts there |
| BlogModel.SkipDropsOnlyNonAlnum | server/models/Blog.js:41 | every character skipped lies outside `[a-z0-9]` |
| BlogModel.SkipKeepsAlnum | server/models/Blog.js:41 | skipping keeps every letter and digit, in order |
| BlogModel.ReplaceNonAlnum | server/models/Blog.js:41 | only `[a-z0-9-]`, no double hyphen, empty exactly when the input is, and a leading hyphen iff the input starts outside the class |
| BlogModel.ReplaceKeepsAlnum | server/models/Blog.js:41 | the replace pass keeps every letter and digit, in order |
| BlogModel.HyphenateNonAlnum | server/models/Blog.js:41 | a same-length copy with each character outside `[a-z0-9]` turned into a hyphen, the rest kept |
| BlogModel.SkipIsDropHyphens | server/models/Blog.js:41 | skipping a run outside `[a-z0-9]` is dropping the hyphens that run would become |
| BlogModel.ReplaceIsHyphenateThenCollapse | server/models/Blog.js:41 | the replace pass is the character-wise hyphenation followed by collapsing hyphen runs: each maximal run outside `[a-z0-9]` becomes exactly one hyphen |
| BlogModel.StripEdgeHyphens | server/models/Blog.js:42 | definition: both edge runs of hyphens removed; `BlogModel.StripClean` proves the result clean |
| BlogModel.CleanBase | server/models/Blog.js:39-43 | definition: the chain of lower-casing and the three replace passes; `BlogModel.CleanBaseIsClean`, `BlogModel.CleanFixed` and `BlogModel.CleanIdempotent` prove its properties |
| BlogModel.IsClean | server/models/Blog.js:39-43 | definition: only `[a-z0-9-]`, no hyphen at either end, no two hyphens in a row; `BlogModel.CleanBaseIsClean` proves the chain establishes it |
| BlogModel.StripClean | server/models/Blog.js:42 | stripping edge hyphens from a `[a-z0-9-]` string without double hyphens gives a clean string |
| BlogModel.CollapseIsNoOp | server/models/Blog.js:41-43 | the third replace pass changes nothing: the first two already leave no double hyphen |
| BlogModel.CleanBaseIsClean | server/models/Blog.js:40-43 | the cleaned base uses only `a-z`, `0-9` and `-`, has no hyphen at either end and no two in a row |
| BlogModel.ReplaceFixed | server/models/Blog.js:41 | the first pass leaves an already clean string unchanged |
| BlogModel.LowerFixed | server/models/Blog.js:40 | lower-casing leaves `[a-z0-9-]` text unchanged |
| BlogModel.CleanFixed | server/models/Blog.js:40-43 | cleaning a clean string returns it |
| BlogModel.CleanIdempotent | server/models/Blog.js:40-43 | cleaning is idempotent |
| BlogModel.UntitledClean | server/models/Blog.js:47 | `untitled-` followed by digits is itself clean |
| BlogModel.BaseOrUntitled | server/models/Blog.js:39-48 | the cleaned base when it is not empty, else `untitled-` and the first clock reading; clean and non-empty either way |
| BlogModel.NewSlugShape | server/models/Blog.js:51 | the slug is the base, a hyphen and the decimal second clock reading, and splits back into them |
| BlogModel.SlugJoin | server/models/Blog.js:51 | joining a `[a-z0-9-]` base and digits with a hyphen keeps the character set and the parts |
| BlogModel.NewSlug | server/models/Blog.js:39-51 | the final slug uses only `[a-z0-9-]` |
| BlogModel.BlogDocument.PreSave | server/models/Blog.js:37-54 | the slug is recomputed iff there is none or the title was modified, and is then `NewSlug(title, now1, now2)`; otherwise it is unchanged; the title never changes |
| BlogForm.RemoveSpecial | client/src/pages/Blog/BlogForm.tsx:46 | only `\w`, white space and `-` remain, and a kept first or last character stays at its end |
| BlogForm.RemoveIsFilter | client/src/pages/Blog/BlogForm.tsx:46 | removing special characters is exactly filtering on `[\w\s-]`: every such character is kept, in order, and nothing else |
| BlogForm.SpacesToHyphens | client/src/pages/Blog/BlogForm.tsx:47 | no white space remains; empty iff the input is; it starts with a hyphen iff the input starts with a hyphen or white space; `BlogForm.SpacesIsSqueezeThenHyphenate` pins the rest down |
| BlogForm.HyphenateSpaces | client/src/pages/Blog/BlogForm.tsx:47 | a same-length copy with each white-space character turned into a hyphen, the rest kept |
| BlogForm.SpacesIsSqueezeThenHyphenate | client/src/pages/Blog/BlogForm.tsx:47 | the space pass equals squeezing every white-space run to one character and then hyphenating: each maximal run becomes exactly one hyphen and every other character is kept in place |
| BlogForm.HyphenateKeepsFilter | client/src/pages/Blog/BlogForm.tsx:47 | hyphenating keeps every character that is neither white space nor a hyphen, in order |
| BlogForm.SpacesKeepFilter | client/src/pages/Blog/BlogForm.tsx:47 | the space pass keeps every character that is neither white space nor a hyphen, in order |
| BlogForm.RemoveKeeps | client/src/pages/Blog/BlogForm.tsx:46 | removing special characters keeps any property every character had |
| BlogForm.SpacesKeeps | client/src/pages/Blog/BlogForm.tsx:47 | replacing white space runs keeps any property the characters and `-` have |
| BlogForm.SpacesLast | client/src/pages/Blog/BlogForm.tsx:47 | the output ends in a hyphen iff the input ends in a hyphen or white space |
| BlogForm.SlugNoSpaceNoDoubleHyphen | client/src/pages/Blog/BlogForm.tsx:45-48 | `generateSlug` output has no white space and no two consecutive hyphens |
| BlogForm.SlugCharset | client/src/pages/Blog/BlogForm.tsx:44-48 | `generateSlug` output uses only `a-z`, `0-9`, `_` and `-` |
| BlogForm.SlugReference | client/src/pages/Blog/BlogForm.tsx:42-49 | `generateSlug` equals the reference chain: filter on `[\w\s-]`, squeeze white-space runs, hyphenate them, squeeze hyphen runs |
| BlogForm.SlugKeepsWordChars | client/src/pages/Blog/BlogForm.tsx:42-49 | the slug keeps every word character of the lower-cased, trimmed title, in order |
| BlogForm.SlugKeepsEdgeHyphens | client/src/pages/Blog/BlogForm.tsx:44-48 | a hyphen at either end of the lower-cased, trimmed title stays at that end of the slug |
| BlogForm.GenerateSlug | client/src/pages/Blog/BlogForm.tsx:42-49 | definition: lower-case, trim, remove special characters, hyphenate spaces, collapse hyphens; `BlogForm.SlugReference`, `BlogForm.SlugKeepsWordChars`, `BlogForm.SlugNoSpaceNoDoubleHyphen`, `BlogForm.SlugCharset` and `BlogForm.SlugKeepsEdgeHyphens` prove its properties |
| BlogForm.Kept | client/src/pages/Blog/BlogForm.tsx:46 | definition: the characters `[\w\s-]` covers; `BlogForm.RemoveIsFilter` proves `BlogForm.RemoveSpecial` keeps exactly them, in order |
| BlogForm.FirstHyphenKept | client/src/pages/Blog/BlogForm.tsx:46-48 | a leading hyphen survives the three replace passes |
| BlogForm.LastHyphenKept | client/src/pages/Blog/BlogForm.tsx:46-48 | a trailing hyphen survives the three replace passes |
| BlogForm.Clamp | client/src/pages/Blog/BlogForm.tsx:172-225 | `substring`'s clamping of an index to `0..len` |
| BlogForm.Substring | client/src/pages/Blog/BlogForm.tsx:174-225 | equals the slice for indices in order within the text, and is never longer than the text |
| BlogForm.Wrapping | client/src/pages/Blog/BlogForm.tsx:177-222 | definition: the prefix, empty-selection placeholder and suffix of each wrapping case of the `switch`; `BlogForm.FormatsCovered` states which formats have one |
| BlogForm.Known | client/src/pages/Blog/BlogForm.tsx:177-222 | definition: the fifteen formats the `switch` has a case for; `BlogForm.ToolbarKnown` and `BlogForm.FormatsCovered` use it |
| BlogForm.ToolbarKnown | client/src/pages/Blog/BlogForm.tsx:322-445 | every toolbar button's format has a case; `hr` has a case but no button |
| BlogForm.Insertion | client/src/pages/Blog/BlogForm.tsx:175-223 | for a wrapping format the insertion is the prefix, then the selection (its placeholder when the selection is empty), then the suffix, each at its offset; the insertion is empty exactly for a format without a case |
| BlogForm.FormatsCovered | client/src/pages/Blog/BlogForm.tsx:177-221 | exactly the formats with a case, other than `hr` and `image`, wrap |
| BlogForm.SplicePreserves | client/src/pages/Blog/BlogForm.tsx:225 | the new content is `text[..start] + insertion + text[end..]`: the text outside the selection is preserved |
| BlogForm.Splice | client/src/pages/Blog/BlogForm.tsx:225 | definition: the text before the selection, the insertion, and the text after it; `BlogForm.SplicePreserves`, `BlogForm.BoldExample` and `BlogForm.UnknownDeletes` prove what it keeps |
| BlogForm.BoldExample | client/src/pages/Blog/BlogForm.tsx:178-225 | bold wraps a selection in `**` and inserts `**text**` for an empty one |
| BlogForm.FixedInsertions | client/src/pages/Blog/BlogForm.tsx:205-213 | `hr` and `image` insert fixed strings whatever is selected |
| BlogForm.UnknownDeletes | client/src/pages/Blog/BlogForm.tsx:175-225 | an unknown format deletes the selected range |
| BlogForm.RequestFor | client/src/pages/Blog/BlogForm.tsx:136-142 | add mode creates, edit mode with an id updates that id, edit mode without one sends nothing |
| BlogForm.BlogFormState.constructor | client/src/pages/Blog/BlogForm.tsx:30-40 | the initial form: empty title, content and slug, status `draft`, loading only in edit mode |
| BlogForm.BlogFormState.HandleChange | client/src/pages/Blog/BlogForm.tsx:151-158 | editing the title sets it and sets the slug to `generateSlug` of it; editing another field changes only that field |
| BlogForm.BlogFormState.HandleFeaturedChange | client/src/pages/Blog/BlogForm.tsx:160-167 | a chosen file is kept for upload and clears the old image URL; nothing else changes |
| BlogForm.BlogFormState.InsertFormatting | client/src/pages/Blog/BlogForm.tsx:169-227 | only the content changes, to the splice |
| BlogForm.BlogFormState.HandleSubmit | client/src/pages/Blog/BlogForm.tsx:117-149 | a failed upload sends nothing. Otherwise the payload's slug is `generateSlug(title)` and its image is the uploaded or current URL, `''` when absent. The request follows the mode. A failed request sets the error for the mode. The form is unchanged and loading ends false |
| BlogForm.FailureMessage | client/src/pages/Blog/BlogForm.tsx:144 | definition: the error text for the mode; `BlogForm.BlogFormState.HandleSubmit` states when it is shown |
| BlogRoutes.TrimField | server/routes/blogs.js:211-212 | the sanitizer: present iff the field is present, and trimmed |
| BlogRoutes.ApplyUpdates | server/routes/blogs.js:391-395 | defined fields overwrite, the rest (author and slug included) are unchanged |
| BlogRoutes.UpdateKeepsValid | server/routes/blogs.js:330-395 | an update built from a body that passed validation keeps a valid document valid |
| BlogRoutes.CreatedValid | server/routes/blogs.js:211-244 | a document created from validated fields is valid |
| BlogRoutes.StoreWrite | server/routes/blogs.js:249-475 | writing a valid document or removing one keeps the store valid |
| BlogRoutes.BlogStore.CreateBlog | server/routes/blogs.js:208-254 | title or content empty after trimming gives 400. Then a missing user id gives 401. A status outside the enum gives 500. None of these writes anything. Otherwise 201 with status `draft` by default, image null by default, the caller as author and a fresh slug; the store stays valid |
| BlogRoutes.NotEmptyTrimmed | server/routes/blogs.js:211-212 | definition: the field is present and not empty after trimming; `BlogRoutes.BlogStore.CreateBlog` states the 400 for the other cases |
| BlogRoutes.DocValid | server/models/Blog.js:3-30 | definition: a non-empty trimmed title and content and a status in the enum; `BlogRoutes.CreatedValid` and `BlogRoutes.UpdateKeepsValid` prove it is kept |
| BlogRoutes.TitleOk | server/routes/blogs.js:330-334 | definition: an absent title, or one of 3 to 200 characters after trimming |
| BlogRoutes.ContentOk | server/routes/blogs.js:335-339 | definition: an absent content, or one not empty after trimming |
| BlogRoutes.TagsOk | server/routes/blogs.js:340-343 | definition: absent tags, or an array |
| BlogRoutes.StatusOk | server/routes/blogs.js:344-347 | definition: an absent status, or one in the enum |
| BlogRoutes.PutValid | server/routes/blogs.js:330-347 | definition: all four update validators pass; `BlogRoutes.BlogStore.UpdateBlog` states the 400 when they do not and `BlogRoutes.UpdateKeepsValid` that a passing body keeps the document valid |
| BlogRoutes.UpdatesFor | server/routes/blogs.js:380-388 | definition: the provided fields and the time stamp; `BlogRoutes.BlogStore.BuildUpdates` is proved to build it |
| BlogRoutes.Matches | server/routes/blogs.js:543-547 | definition: every key in the query equals the document's; `BlogRoutes.BlogStore.VerifyBlog` states `found` in its terms |
| BlogRoutes.BlogStore.BuildUpdates | server/routes/blogs.js:380-388 | the `updates` object has an entry for exactly the defined fields |
| BlogRoutes.BlogStore.UpdateBlog | server/routes/blogs.js:327-403 | the checks run in order: validation 400, not found 404, not the author 401, all before any write. Then only the defined fields change, and the store stays valid |
| BlogRoutes.BlogStore.DeleteBlog | server/routes/blogs.js:460-476 | 404 if missing, 401 if not the author, else exactly that blog is removed |
| BlogRoutes.BlogStore.VerifyBlog | server/routes/blogs.js:533-555 | 400 when neither title nor slug is given; otherwise the query has only the given keys and `exists` is true iff some blog matches it |
| BlogSlice.FindIndex | client/src/features/blog/blogSlice.ts:181 | `findIndex`: -1 iff no entry has the id, else the first entry that has it |
| BlogSlice.CurrentId | client/src/features/blog/blogSlice.ts:185 | `currentBlog?._id`: absent without a current blog, else that blog's id; the update and delete cases (lines 185 and 201) compare it |
| BlogSlice.ReplaceFirst | client/src/features/blog/blogSlice.ts:181-184 | the length is kept, only the first match is replaced by the payload, and a list without a match is unchanged |
| BlogSlice.RemoveId | client/src/features/blog/blogSlice.ts:200 | no entry with the id remains, every other entry keeps its count, and the order of the rest is kept |
| BlogSlice.UpdateTouchesFirstOnly | client/src/features/blog/blogSlice.ts:181-184 | a later duplicate of the id is left as it was |
| BlogSlice.UpdateWithoutCurrent | client/src/features/blog/blogSlice.ts:181-187 | a payload without `_id` matches current only when there is none, and changes no list entry that has an id |
| BlogSlice.BlogState.constructor | client/src/features/blog/blogSlice.ts:21-26 | the initial state: empty list, no current blog, not loading, no error |
| BlogSlice.BlogState.Pending | client/src/features/blog/blogSlice.ts:123-197 | loading true, error null, list and current blog unchanged |
| BlogSlice.BlogState.Rejected | client/src/features/blog/blogSlice.ts:131-208 | loading false, error the payload, list and current blog unchanged |
| BlogSlice.BlogState.FetchBlogsFulfilled | client/src/features/blog/blogSlice.ts:127-130 | the list is replaced wholesale |
| BlogSlice.BlogState.FetchOneFulfilled | client/src/features/blog/blogSlice.ts:140-156 | only the current blog and loading change |
| BlogSlice.BlogState.CreateFulfilled | client/src/features/blog/blogSlice.ts:166-169 | the payload is appended; earlier entries are unchanged |
| BlogSlice.BlogState.UpdateFulfilled | client/src/features/blog/blogSlice.ts:179-188 | the list becomes `ReplaceFirst` of it, and the current blog is replaced iff its id matches the payload's |
| BlogSlice.BlogState.DeleteFulfilled | client/src/features/blog/blogSlice.ts:198-204 | every entry with that id is removed, the rest keep their order, and the current blog is nulled iff it had that id |
| BlogSlice.BlogState.ClearCurrentBlog | client/src/features/blog/blogSlice.ts:113-115 | resets exactly the current blog |
| BlogSlice.BlogState.ClearError | client/src/features/blog/blogSlice.ts:116-118 | resets exactly the error |
| AuthSlice.AuthState.constructor | client/src/redux/features/authSlice.ts:11-17 | the token is the stored token, authenticated iff it is truthy, and the state is `Initial(stored)` |
| AuthSlice.AuthState.LoginStart | client/src/redux/features/authSlice.ts:23-26 | loading true and error null, nothing else changes |
| AuthSlice.AuthState.LoginSuccess | client/src/redux/features/authSlice.ts:27-33 | not loading, authenticated, token and user from the payload, token stored |
| AuthSlice.AuthState.LoginFailure | client/src/redux/features/authSlice.ts:34-41 | error set, not loading, authentication, token and user cleared, stored token removed |
| AuthSlice.AuthState.Logout | client/src/redux/features/authSlice.ts:42-48 | like a failure but with error null and loading untouched |
| AuthSlice.AuthState.ClearError | client/src/redux/features/authSlice.ts:49-51 | resets only the error |
| AuthSlice.Initial | client/src/redux/features/authSlice.ts:11-17 | the initial state keeps the invariant and is authenticated iff the stored token is truthy |
| AuthSlice.StepValid | client/src/redux/features/authSlice.ts:12-47 | every reducer keeps the stored token equal to the state token, and authenticated only with a token |
| AuthSlice.RunValid | client/src/redux/features/authSlice.ts:12-47 | the invariant holds after any sequence of reducers |
| AuthSlice.Step | client/src/redux/features/authSlice.ts:23-51 | definition: the five reducers on a snapshot; each `AuthSlice.AuthState` method is proved to perform it and `AuthSlice.StepValid` that it keeps the invariant |
| AuthSlice.Run | client/src/redux/features/authSlice.ts:23-51 | definition: the reducers applied to a sequence of actions in turn; `AuthSlice.RunValid` proves the invariant survives it |
| AuthSlice.LogoutLikeFailure | client/src/redux/features/authSlice.ts:34-48 | logout and failure agree on every field but error and loading |
| Quotes.ValidStatusExactly | server/controllers/quoteController.js:35 | the accepted statuses are exactly the four of the enum, the default is one of them, and an absent status is refused |
| Quotes.QuoteStore.CreateQuote | server/controllers/quoteController.js:4-12 | 400 with nothing saved unless name, email, phone and details are truthy; otherwise 201 and exactly the new quote with status `pending` is added; the store keeps valid statuses |
| Quotes.QuoteStore.UpdateQuoteStatus | server/controllers/quoteController.js:31-40 | invalid status 400 before any lookup, unknown id 404, both unchanged; otherwise only that quote's `status` changes |
| Quotes.ValidStatus | server/models/Quote.js:9 | definition: a present status in the four-value enum; `Quotes.ValidStatusExactly` lists them |
| Quotes.RequiredPresent | server/controllers/quoteController.js:7-9 | definition: all four required fields truthy; `Quotes.QuoteStore.CreateQuote` states the 400 otherwise |
| QuoteList.OptionsMatchServer | client/src/pages/Messages/QuoteList.tsx:5-10 | the offered statuses are exactly the enum, in order, and exactly those the server accepts |
| QuoteList.SetStatus | client/src/pages/Messages/QuoteList.tsx:38 | same length, the quotes with that id get the new status, the others are unchanged |
| QuoteList.SetStatusIdempotent | client/src/pages/Messages/QuoteList.tsx:38 | setting twice is setting once; a list without the id is unchanged |
| QuoteList.QuoteListState.BeginStatusChange | client/src/pages/Messages/QuoteList.tsx:35 | marks the id as updating |
| QuoteList.QuoteListState.FinishStatusChange | client/src/pages/Messages/QuoteList.tsx:36-43 | on success only that id's status changes, on failure the list is unchanged, and nothing stays marked |
| QuoteList.QuoteListState.HandleStatusChange | client/src/pages/Messages/QuoteList.tsx:34-44 | the id is marked during the request and nothing is marked afterwards; the list is as above |
| SubCategoryList.Filtered | client/src/pages/Categories/SubCategoryList.tsx:19-21 | exactly the entries whose lower-cased name contains the lower-cased search, with their counts and in original order |
| SubCategoryList.NameMatches | client/src/pages/Categories/SubCategoryList.tsx:20 | definition: the lower-cased name contains the lower-cased search; `SubCategoryList.Filtered` keeps exactly the entries it accepts |
| SubCategoryList.ContainsEmpty | client/src/pages/Categories/SubCategoryList.tsx:20 | every name contains the empty search |
| SubCategoryList.FilterAll | client/src/pages/Categories/SubCategoryList.tsx:19-21 | a filter that keeps everything returns the list |
| SubCategoryList.EmptySearchKeepsAll | client/src/pages/Categories/SubCategoryList.tsx:19-21 | an empty search keeps every entry |
| SubCategoryList.StrCompare | client/src/pages/Categories/SubCategoryList.tsx:27 | the comparison returns -1, 0 or 1, and 0 iff the strings are equal |
| SubCategoryList.StrCompareAntisymmetric | client/src/pages/Categories/SubCategoryList.tsx:27 | swapping the arguments negates the comparison |
| SubCategoryList.CompareDirections | client/src/pages/Categories/SubCategoryList.tsx:27 | `desc` is `asc` with the arguments swapped, and the comparator is antisymmetric |
| SubCategoryList.Compare | client/src/pages/Categories/SubCategoryList.tsx:22-30 | definition: the comparator, 0 with no sort key; `SubCategoryList.CompareDirections` and `SubCategoryList.SortedNames` prove its properties |
| SubCategoryList.Insert | client/src/pages/Categories/SubCategoryList.tsx:22-30 | one insertion step of the sort adds exactly the element |
| SubCategoryList.SortedAppend | client/src/pages/Categories/SubCategoryList.tsx:22-30 | appending an element not below the last keeps a list sorted |
| SubCategoryList.SortedPrefix | client/src/pages/Categories/SubCategoryList.tsx:22-30 | a prefix of a sorted list is sorted |
| SubCategoryList.InsertSorted | client/src/pages/Categories/SubCategoryList.tsx:22-30 | inserting into a sorted list keeps it sorted |
| SubCategoryList.InsertNoKey | client/src/pages/Categories/SubCategoryList.tsx:23 | with no sort key the insertion appends |
| SubCategoryList.Sort | client/src/pages/Categories/SubCategoryList.tsx:22-30 | the sorted list is a permutation of the filtered one and is ordered by the comparator |
| SubCategoryList.SortUnfold | client/src/pages/Categories/SubCategoryList.tsx:22-30 | sorting is inserting the last element into the sorted rest |
| SubCategoryList.NoKeyKeepsOrder | client/src/pages/Categories/SubCategoryList.tsx:22-23 | with no sort key the stable sort keeps the filtered order |
| SubCategoryList.NamedIsFilter | client/src/pages/Categories/SubCategoryList.tsx:22-30 | the entries with a given name, collected from the end, are the filter on that name |
| SubCategoryList.NamedCons | client/src/pages/Categories/SubCategoryList.tsx:22-30 | an entry added at the front adds itself to the front of its name's entries |
| SubCategoryList.NamedSnoc | client/src/pages/Categories/SubCategoryList.tsx:22-30 | an entry added at the end adds itself to the end of its name's entries |
| SubCategoryList.CompareNonzero | client/src/pages/Categories/SubCategoryList.tsx:22-30 | entries that compare unequal have different names |
| SubCategoryList.InsertStable | client/src/pages/Categories/SubCategoryList.tsx:22-30 | an inserted entry lands after every entry with its name, and the others keep their order |
| SubCategoryList.NamedPastLater | client/src/pages/Categories/SubCategoryList.tsx:22-30 | passing an entry with another name leaves the inserted entry last among its name |
| SubCategoryList.SortStable | client/src/pages/Categories/SubCategoryList.tsx:22-30 | the sort is stable: for every name, the entries with that name keep their filtered order |
| SubCategoryList.SortedNames | client/src/pages/Categories/SubCategoryList.tsx:24-28 | `asc` orders names non-decreasingly and `desc` non-increasingly |
| SubCategoryList.ListState.Sorted | client/src/pages/Categories/SubCategoryList.tsx:19-30 | the rendered list is a permutation of `filtered`, ordered by the current key and direction |
| SubCategoryList.ListState.Load | client/src/pages/Categories/SubCategoryList.tsx:12-17 | the list is the data when it is an array, else empty |
| SubCategoryList.ListState.HandleSort | client/src/pages/Categories/SubCategoryList.tsx:32-39 | on the current key the direction flips; on a new key that key is set with direction `asc` |
| SubCategoryList.ListState.HandleDelete | client/src/pages/Categories/SubCategoryList.tsx:41-50 | a confirmed, successful delete filters out that id; otherwise the list is unchanged |
| SubCategoryList.DeleteRemovesExactly | client/src/pages/Categories/SubCategoryList.tsx:45 | the delete removes exactly the entries with that id and keeps the rest in order |
| CategoryForm.IsEdit | client/src/pages/Categories/CategoryForm.tsx:59 | edit iff the mode is `edit` or a route id is present |
| CategoryForm.NormaliseParent | client/src/pages/Categories/CategoryForm.tsx:72 | a populated object becomes its `_id`, a string stays, null or missing becomes `''` |
| Util.OrEmpty | client/src/pages/Categories/CategoryForm.tsx:70-71 | the value when it is truthy, else `''`; the result is non-empty exactly when the value is truthy |
| CategoryForm.FormOf | client/src/pages/Categories/CategoryForm.tsx:68-73 | the loaded form: the name, `''` for a missing description or image, the normalised parent |
| CategoryForm.ParentRoundTrip | client/src/pages/Categories/CategoryForm.tsx:72-126 | a parent saved through the form normalises back to itself on load |
| CategoryForm.ParentOptions | client/src/pages/Categories/CategoryForm.tsx:158 | in edit mode the options exclude the edited id; a category is an option iff it is not the edited one; order is kept |
| CategoryForm.AddModeKeepsAll | client/src/pages/Categories/CategoryForm.tsx:158 | outside edit mode every category is an option |
| CategoryForm.PayloadOf | client/src/pages/Categories/CategoryForm.tsx:117-126 | exactly name, description, image and parent, with parent null iff the form's is `''` |
| CategoryForm.RequestFor | client/src/pages/Categories/CategoryForm.tsx:127-131 | an update of the route id iff editing with an id, else a create |
| CategoryForm.EditWithoutIdCreates | client/src/pages/Categories/CategoryForm.tsx:59-131 | edit mode without a route id creates |
| CategoryForm.Assign | client/src/pages/Categories/CategoryForm.tsx:81-84 | only the named field changes; the fields are those of the inputs wired to `handleChange` (lines 148-156), so the image is never assigned here |
| CategoryForm.CategoryFormState.Load | client/src/pages/Categories/CategoryForm.tsx:64-78 | on success the form is `FormOf` the record and the preview is `/` and the image path when there is one; on failure only the error is set |
| CategoryForm.CategoryFormState.HandleChange | client/src/pages/Categories/CategoryForm.tsx:81-84 | only the named field of the form changes |
| CategoryForm.CategoryFormState.HandleFileChange | client/src/pages/Categories/CategoryForm.tsx:86-106 | the preview is the local URL; the image becomes the uploaded URL, or the error is set when the upload fails |
| CategoryForm.CategoryFormState.HandleSubmit | client/src/pages/Categories/CategoryForm.tsx:108-138 | an empty image sets the error and sends nothing; otherwise sends `RequestFor` the form and sets the save error if it fails |
| SubCategoryForm.FormOf | client/src/pages/Categories/SubCategoryForm.tsx:41-46 | the loaded form, with the parent normalised as in the category form |
| SubCategoryForm.SameParentAsCategoryForm | client/src/pages/Categories/SubCategoryForm.tsx:45 | both forms normalise the loaded parent the same way |
| SubCategoryForm.PickerValue | client/src/pages/Categories/SubCategoryForm.tsx:167 | the picker shows a picked file only, never a path |
| SubCategoryForm.OnPicked | client/src/pages/Categories/SubCategoryForm.tsx:168-172 | takes the first file of a list, maps a missing file to null, and produces a preview only for a file |
| SubCategoryForm.PickRoundTrip | client/src/pages/Categories/SubCategoryForm.tsx:167-172 | a picked file passed back to the picker is that file |
| SubCategoryForm.SelfParentSelectable | client/src/pages/Categories/SubCategoryForm.tsx:157-160 | a loaded record is offered as a parent by the subcategory form's `<select>` but not by the category form's when it is the record being edited, so here a subcategory can be made its own parent |
| SubCategoryForm.ParentOptions | client/src/pages/Categories/SubCategoryForm.tsx:157-160 | definition: every loaded category, in order, with no filter; `SubCategoryForm.SelfParentSelectable` states what that allows |
| SubCategoryForm.SubCategoryFormState.Load | client/src/pages/Categories/SubCategoryForm.tsx:37-51 | on success the form is `FormOf` the record with the path preview; on failure only the error is set |
| SubCategoryForm.SubCategoryFormState.HandlePicked | client/src/pages/Categories/SubCategoryForm.tsx:168-172 | the image and preview become `OnPicked`'s, nothing else changes |
| SubCategoryForm.SubCategoryFormState.HandleSubmit | client/src/pages/Categories/SubCategoryForm.tsx:77-107 | an empty name is refused first, then an empty parent, neither sending anything. Otherwise the save goes to the category update (editing with an id) or create call. Every sent payload has a non-empty name and parent |
| ImageUpload.MergeOptions | client/src/components/form/ImageUpload.tsx:13-36 | the defaults 1 and 1024, each overridden only by a truthy prop |
| ImageUpload.MergeDefaults | client/src/components/form/ImageUpload.tsx:13-36 | absent or zero props leave the defaults |
| ImageUpload.NumTruthy | client/src/components/form/ImageUpload.tsx:34-35 | definition: a present, non-zero number, as JavaScript's truthiness test; `ImageUpload.MergeOptions` states its use |
| ImageUpload.HandleChange | client/src/components/form/ImageUpload.tsx:29-46 | nothing without a file list; multiple mode emits one compressed file per input file, in order; single mode emits only the first |
| ImageUpload.HandleRemove | client/src/components/form/ImageUpload.tsx:48-55 | multiple mode drops exactly index `idx` and reports null when nothing is left; single mode reports null |
| ImageUpload.RemoveKeepsOthers | client/src/components/form/ImageUpload.tsx:49-51 | the other files are kept in order |
| ImageUpload.RemoveLast | client/src/components/form/ImageUpload.tsx:51 | removing the last file reports null rather than an empty list |
| ProductForm.UploadAll | client/src/pages/Products/ProductForm.tsx:84-87 | when every upload succeeds, URL `i` is the upload of file `i`; fails iff some upload fails |
| ProductForm.GalleryFor | client/src/pages/Products/ProductForm.tsx:82-95 | the uploads of the selected files if any are selected, else the existing gallery (which is `[]` when empty) |
| ProductForm.FeaturedFor | client/src/pages/Products/ProductForm.tsx:78-94 | the uploaded URL when a file is chosen, else the current value, `''` when absent |
| ProductForm.PayloadFor | client/src/pages/Products/ProductForm.tsx:78-96 | a payload iff both uploads succeed, made of title, description, featured image and gallery as above |
| ProductForm.GalleryFromUploads | client/src/pages/Products/ProductForm.tsx:83-87 | with selected files and successful uploads the gallery is one URL per file, in selection order |
| ProductForm.NoGallery | client/src/pages/Products/ProductForm.tsx:82-95 | with no selection and no existing gallery the gallery is `[]` |
| ProductForm.ProductFormState.constructor | client/src/pages/Products/ProductForm.tsx:26-32 | the empty form, with the previews aligned |
| ProductForm.ProductFormState.Reset | client/src/pages/Products/ProductForm.tsx:46-108 | every form field is reset |
| ProductForm.ProductFormState.Load | client/src/pages/Products/ProductForm.tsx:35-44 | on success the product, featured preview and existing gallery come from the record and the gallery previews are cleared |
| ProductForm.ProductFormState.HandleChange | client/src/pages/Products/ProductForm.tsx:55-57 | only the named product field changes |
| ProductForm.ProductFormState.HandleFeaturedChange | client/src/pages/Products/ProductForm.tsx:59-64 | a chosen file and its preview are set; without a file nothing changes |
| ProductForm.ProductFormState.HandleGalleryChange | client/src/pages/Products/ProductForm.tsx:66-72 | a new selection replaces the previous one, with previews 1:1 with the files |
| ProductForm.ProductFormState.RemoveFeaturedPreview | client/src/pages/Products/ProductForm.tsx:140-144 | clears the preview, the chosen file and the product's image |
| ProductForm.ProductFormState.RemoveCurrentFeatured | client/src/pages/Products/ProductForm.tsx:157-159 | clears only the product's image |
| ProductForm.ProductFormState.RemoveGalleryPreview | client/src/pages/Products/ProductForm.tsx:177-180 | removes index `idx` from both previews and files, keeping them aligned |
| ProductForm.ProductFormState.RemoveExisting | client/src/pages/Products/ProductForm.tsx:193-195 | removes only that element of the existing gallery |
| ProductForm.ProductFormState.UploadGallery | client/src/pages/Products/ProductForm.tsx:83-87 | the loop's result is `UploadAll` of the selected files |
| ProductForm.ProductFormState.HandleSubmit | client/src/pages/Products/ProductForm.tsx:74-113 | sends `PayloadFor` the form, as an update with a route id and a create otherwise. Form state is reset after a successful create only |
| UploadPhp.AllowOrigin | client/upload.php:3-13 | the request origin iff it is in the 3-entry list, else the fixed default |
| UploadPhp.Extension | client/upload.php:53 | the extension contains no dot and no slash |
| UploadPhp.StoredNameParts | client/upload.php:54 | the stored name is the decimal time, `-`, 8 lower-case hex digits that read back as the random bytes, `.`, and the extension |
| UploadPhp.StoredName | client/upload.php:54 | definition: the decimal time, `-`, the hex of the random bytes, `.` and the extension; `UploadPhp.StoredNameParts` proves where each part sits |
| UploadPhp.JoinParts | client/upload.php:54 | where each part sits in the joined name |
| UploadPhp.BaseUrl | client/upload.php:62-65 | the alternative base iff the host contains `osamaqaseem.online` |
| UploadPhp.HandleUpload | client/upload.php:8-82 | OPTIONS gets 200 before any check. No file gets 400 "No file uploaded". Then the checks run in order, each failing with 400: upload error, MIME type among the four, size at most 5 MiB. Then 200 with the URL, or 500 with the target when moving fails |
| UploadPhp.SizeBoundary | client/upload.php:29-48 | exactly 5 MiB is accepted, one byte more is not |
| UploadPhp.Acceptable | client/upload.php:28-52 | definition: no upload error, an allowed type and at most 5 MiB; `UploadPhp.HandleUpload` states the responses and `UploadPhp.SizeBoundary` the size edge |
| UploadPhp.ExtensionAfterLastDot | client/upload.php:53 | the extension is what follows the last dot |
| UploadPhp.NoDotNoExtension | client/upload.php:53-54 | a name without a dot has an empty extension |
| UploadBrochure.StoredFilenameParts | server/middleware/uploadBrochure.js:8-10 | the stored name is the decimal timestamp, `-` and the original name, and splits back into them |
| UploadBrochure.StoredFilename | server/middleware/uploadBrochure.js:8-10 | definition: `Date.now()`, a hyphen and the original name; `UploadBrochure.StoredFilenameParts` proves where each part sits |
| UploadBrochure.Extname | server/middleware/uploadBrochure.js:18 | `path.extname`: empty or a dot followed by no further dot, never a slash |
| UploadBrochure.Receive | server/middleware/uploadBrochure.js:13-24 | accepted iff the filter passes and the file is at most 300 MiB; a failing filter gives the fixed message, an oversized accepted file multer's size error |
| UploadBrochure.SizeBoundary | server/middleware/uploadBrochure.js:15 | for an accepted name, exactly 300 MiB passes and one byte more is refused |
| UploadBrochure.Check | server/middleware/uploadBrochure.js:16-23 | accepts iff the filter matches, else rejects with the fixed message |
| UploadBrochure.FileFilter | server/middleware/uploadBrochure.js:16-23 | definition: the unanchored pattern tested on the lower-cased extension; `UploadBrochure.ThreeAlternatives` states it as three substrings |
| UploadBrochure.ContainsPrefix | server/middleware/uploadBrochure.js:17 | a text containing `pptx` or `docx` contains its prefix `ppt` or `doc` |
| UploadBrochure.AlternativesIn | server/middleware/uploadBrochure.js:17 | a text contains one of the five alternatives iff it contains `pdf`, `ppt` or `doc` |
| UploadBrochure.ThreeAlternatives | server/middleware/uploadBrochure.js:17-18 | accepted iff the lower-cased extension contains `pdf`, `ppt` or `doc`; `pptx` and `docx` add nothing |
| UploadBrochure.ShortNoContains | server/middleware/uploadBrochure.js:17-18 | no text contains a longer one |
| UploadBrochure.EmptyExtensionRejected | server/middleware/uploadBrochure.js:17-22 | a name whose extension is `''` is rejected with the fixed message |
| UploadBrochure.ExtnameAfterLastDot | server/middleware/uploadBrochure.js:18 | the extension of `stem.ext` is `.ext` |
| UploadBrochure.HiddenFileNoExtension | server/middleware/uploadBrochure.js:18 | a name that is a dot and a dot-free word, such as `.pdf`, has no extension |
| UploadBrochure.HiddenFileRejected | server/middleware/uploadBrochure.js:17-22 | so such a name is rejected |
| UploadBrochure.UnanchoredAccepts | server/middleware/uploadBrochure.js:17-18 | an extension that contains an accepted type anywhere passes |
| UploadBrochure.LowerDotted | server/middleware/uploadBrochure.js:18 | lower-casing leaves a dot and lower-case letters unchanged |
| UploadBrochure.PdfxAccepted | server/middleware/uploadBrochure.js:17-18 | `something.pdfx` is accepted |
| Util.Lower | client/src/pages/Blog/BlogForm.tsx:44 | `toLowerCase` on each character, ASCII letters folded |
| Util.TrimStart | client/src/pages/Blog/BlogForm.tsx:45 | a suffix of the input that does not start with white space; every dropped character is white space |
| Util.TrimEnd | client/src/pages/Blog/BlogForm.tsx:45 | a prefix of the input that does not end with white space; every dropped character is white space |
| Util.Trim | client/src/pages/Blog/BlogForm.tsx:45 | no white space at either end of the result |
| Util.TrimSlice | client/src/pages/Blog/BlogForm.tsx:45 | the trimmed text is a contiguous slice of the input, starting where the leading white space ends, with only white space before and after it |
| Util.IsJsSpace | client/src/pages/Blog/BlogForm.tsx:45 | definition: the characters JavaScript's white-space class and `trim` both treat as space; `Util.TrimSlice` and `BlogForm.SlugNoSpaceNoDoubleHyphen` prove what is said about it |
| Util.TrimIdempotent | server/routes/blogs.js:211-212 | trimming twice is trimming once |
| Util.TrimKeeps | client/src/pages/Blog/BlogForm.tsx:45 | trimming keeps any property every character had |
| Util.ContainsAt | client/upload.php:63 | a text contains every slice of itself |
| Util.RemoveAt | client/src/pages/Products/ProductForm.tsx:178-179 | `filter((_, i) => i !== idx)`: drops exactly index `idx` when it is in range, else nothing |
| Util.Filter | client/src/features/blog/blogSlice.ts:200 | keeps exactly the elements satisfying the predicate, with their counts |
| Util.FilterFilter | client/src/pages/Blog/BlogForm.tsx:46 | filtering first with a weaker test changes nothing |
| Util.FilterIsSubsequence | client/src/pages/Categories/SubCategoryList.tsx:19-45 | filtering keeps order |
| Util.DropLeadingHyphens | server/models/Blog.js:42 | drops exactly a leading run of hyphens |
| Util.CollapseHyphens | server/models/Blog.js:43 | no two hyphens in a row remain; text without a double hyphen is unchanged; a leading hyphen is kept; `Util.CollapseIsSqueeze` pins it down |
| Util.Squeeze | client/src/pages/Blog/BlogForm.tsx:47-48 | definition: drop each separator that directly follows another, so each maximal run of separators shrinks to one; never longer than the input |
| Util.SqueezeRun | client/src/pages/Blog/BlogForm.tsx:47-48 | a run of separators before `t` squeezes to the run's last character followed by the squeezed `t` |
| Util.SqueezeKeepsFilter | client/src/pages/Blog/BlogForm.tsx:47-48 | squeezing keeps every character that is not a separator, in order |
| Util.CollapseIsSqueeze | server/models/Blog.js:43 | collapsing hyphen runs equals squeezing the hyphens: every run becomes exactly one hyphen and every other character stays in place |
| Util.CollapseKeepsFilter | client/src/pages/Blog/BlogForm.tsx:48 | collapsing keeps every character other than the hyphen, in order |
| Util.CollapseLast | client/src/pages/Blog/BlogForm.tsx:48 | the output ends in a hyphen iff the input does |
| Util.CollapseKeeps | client/src/pages/Blog/BlogForm.tsx:48 | collapsing keeps any property every character had |
| Util.LastIndexOf | client/upload.php:53 | the last index of the character, or -1 when it is absent |
| Util.LastIndexAt | client/upload.php:53 | the last occurrence is at `k` when the character is there and does not occur later |
| Util.DropTrailing | server/models/Blog.js:42 | a prefix not ending in the character, from which only that character was dropped; used for the `-+$` pass and for the trailing slashes `basename` ignores |
| Util.Basename | client/upload.php:53 | with trailing slashes dropped, the result is the suffix after the last slash (the whole path when there is none) and holds no slash; a slash-free path is its own base name |
| Util.DotJoin | client/upload.php:53 | `stem.ext` is its own base name and its last dot is the joining one |
| Util.DecimalRoundTrip | client/upload.php:54 | the decimal rendering of a number is digits and reads back as the number |
| Util.Bin2Hex | client/upload.php:54 | two lower-case hex digits per byte |
| Util.HexRoundTrip | client/upload.php:54 | the hex rendering reads back as the bytes |
| Util.Hex2Bin | client/upload.php:54 | definition: reads two hex digits back as one byte; `Util.HexRoundTrip` proves it inverts `Util.Bin2Hex` |
| Util.Decimal | client/upload.php:54 | a non-empty run of decimal digits with no leading zero, as PHP and JavaScript print an integer |
| Util.Contains | client/upload.php:63 | definition: `sub` occurs in `s` at some index; `SubCategoryList.ContainsEmpty` and `UploadBrochure.ShortNoContains` prove its edge cases |

## Left out

- Mongoose and MongoDB semantics are not modelled: queries, `populate`, `sort`, `lean`, unique indexes, duplicate-key errors. Each store is a map with not-found results.
- Mongoose's `CastError` for a malformed ObjectId is not modelled. In the source, `findByIdAndUpdate`, `findByIdAndDelete`, `findById` and `find({ parent })` throw it, and the catch branch then answers 400 or 500 (400 on the update routes, 500 on delete, get-one and the nested subcategories). The model treats every id as well-formed, so it answers 404 for an unknown id and 200 with an empty list for a `parentId` that no record has.
- The product controller, brand controller, service controller and supplier controller are thin wrappers that default missing fields to `''`. They are not modelled, and no category or subcategory resolver exists for products.
- `formatText` in the blog editor is not modelled: it is a chain of regexes with lazy quantifiers and multiline anchors, feeding only the preview.
- Network and file I/O are not modelled. This covers the `uploadToCpanel` helpers, axios, multer's disk storage, and `mkdir`/`move_uploaded_file`; each upload or request outcome is a parameter.
- The upload endpoint's 500 body also reports whether the directory exists and is writable. Only the message and the target are modelled.
- Image compression is a foreign library. It is a function parameter of `ImageUpload.HandleChange`.
- The clock and randomness (`Date.now()`, `time()`, `random_bytes`) are parameters.
- Upload progress percentages are not modelled: they are floating-point division and rounding.
- Concurrency and async ordering are not modelled: overlapping React state updates, and races between a lookup and a write. The awaited steps are treated as sequential.
- UI rendering, routing and navigation are not modelled: `navigate`, `alert`, `window.confirm`, detail pages and list pages. A confirmation is a parameter.
- The blog editor's fetch in edit mode is not modelled; only the initial state and the handlers are.
- SubCategoryForm's `handleFileChange` is not wired to any input, so it is not modelled.
- Extra fields spread from the form or the product into a payload are not modelled; only the named fields are.
- The quote status update verb mismatch is an HTTP routing matter and is not modelled. The client sends PUT while the server route is PATCH.
- `Util.Lower`: `toLowerCase` is modelled on ASCII letters only, so Unicode case folding is lost. That includes letters outside ASCII that fold into it: U+212A KELVIN SIGN lower-cases to `k`, which both slug regexes would keep, while the model drops it. It also includes the search on the subcategory list, which folds both sides, so there "É" matches "é" but not in the model.
- `SubCategoryList.StrCompare`: `localeCompare` is modelled as code-point order, which is one total order; a locale's collation may order strings differently.
- `SubCategoryList.Sort`: JavaScript's `sort` is assumed stable, as ECMAScript 2019 requires. The model is an insertion sort, and `SubCategoryList.SortStable` proves it stable for every key.
- `BlogRoutes.ApplyUpdates`: the schema has no `tags` or `lastModified` path, so `$set` does not store them, and the model drops them.
- The authentication middleware runs before the validators of the create and update routes (server/routes/blogs.js:209 and :328); it is not part of this model, and the routes take the caller's id as a parameter.
- `BlogRoutes.TitleOk`: express-validator's `isLength` does not count the variation selectors U+FE0E and U+FE0F; the model counts every character.
- `BlogForm.Splice`: the textarea's selection offsets count UTF-16 code units; the model counts characters.
- `BlogRoutes.BlogStore.CreateBlog`: a status outside the enum is modelled as the 500 that the schema's validation failure reaches. Tags are not stored, since the schema has no `tags` path.
- `BlogSlice.BlogState.UpdateFulfilled`: the update response of the blog API is `{message, blog}`, without `_id`. `BlogSlice.UpdateWithoutCurrent` states what the reducer does with such a payload.
- `CategoryForm.NormaliseParent`: a populated parent is always truthy, so the condition on it is folded away.
- `UploadPhp.AllowOrigin`: PHP's loose `in_array` comparison is modelled as string equality, which is what it does on these strings.
- `UploadPhp.Extension`: PHP's `basename` is modelled on `/` only. The model ignores drive letters and backslashes, and the locale-specific handling of multibyte names.
- `UploadBrochure.Extname`: Node's `path.extname` is modelled for POSIX paths.
- `UploadBrochure.Receive`: only the message of multer's size-limit error is modelled; the partly written file and its removal are not.
- `ProductForm.ProductFormState.Load`: the chosen files are kept while the previews are cleared, so the 1:1 alignment of previews and files is not kept across a load.
- `ImageUpload.HandleChange`: in single mode an empty list makes the compression of the missing first file fail, so `onChange` is not called; the model returns `None`.

## Findings

None.
