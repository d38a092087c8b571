/** The blog editor form: the client-side slug, the formatting splice, field edits and the
    submitted payload. */
module BlogForm {
  import opened Util

  // ---------------------------------------------------------------------------
  // generateSlug
  // ---------------------------------------------------------------------------

  /** The characters `.replace(/[^\w\s-]/g, '')` keeps. */
  predicate Kept(c: char) { IsWordChar(c) || IsJsSpace(c) || c == '-' }

  /** `.replace(/[^\w\s-]/g, '')`: removes every character outside `\w`, `\s` and `-`. */
  function RemoveSpecial(s: string): (r: string)
    ensures forall i :: 0 <= i < |r| ==> Kept(r[i])
    ensures s != [] && Kept(s[0]) ==> r != [] && r[0] == s[0]
    ensures s != [] && Kept(s[|s| - 1]) ==> r != [] && r[|r| - 1] == s[|s| - 1]
  {
    if s == [] then []
    else (if Kept(s[0]) then [s[0]] else []) + RemoveSpecial(s[1..])
  }

  /** `.replace(/\s+/g, '-')`: every maximal run of white space becomes one hyphen. */
  function SpacesToHyphens(s: string): (r: string)
    ensures forall i :: 0 <= i < |r| ==> !IsJsSpace(r[i])
    ensures r != [] <==> s != []
    ensures r != [] ==> (r[0] == '-' <==> s[0] == '-' || IsJsSpace(s[0]))
    decreases |s|
  {
    if s == [] then []
    else if IsJsSpace(s[0]) then ['-'] + SpacesToHyphens(TrimStart(s[1..]))
    else [s[0]] + SpacesToHyphens(s[1..])
  }

  /** Removing the special characters is filtering on `Kept`. */
  lemma {:induction false} RemoveIsFilter(s: string)
    ensures RemoveSpecial(s) == Filter(s, Kept)
  {
    if s != [] {
      RemoveIsFilter(s[1..]);
    }
  }

  /** Each white-space character turned into a hyphen, one for one. */
  function HyphenateSpaces(s: string): (r: string)
    ensures |r| == |s|
    ensures forall i :: 0 <= i < |s| ==> !IsJsSpace(s[i]) ==> r[i] == s[i]
    ensures forall i :: 0 <= i < |s| ==> IsJsSpace(s[i]) ==> r[i] == '-'
  {
    if s == [] then [] else [if IsJsSpace(s[0]) then '-' else s[0]] + HyphenateSpaces(s[1..])
  }

  /** The space pass is squeezing each white-space run to one character and then turning each
      white-space character into a hyphen: an independent reference definition. */
  lemma {:induction false} SpacesIsSqueezeThenHyphenate(s: string)
    ensures SpacesToHyphens(s) == HyphenateSpaces(Squeeze(s, IsJsSpace))
    decreases |s|
  {
    if s != [] {
      var u := s[1..];
      if !IsJsSpace(s[0]) {
        SpacesIsSqueezeThenHyphenate(u);
        var q := Squeeze(u, IsJsSpace);
        if |s| == 1 {
          assert s == [s[0]];
        }
        assert ([s[0]] + q)[1..] == q;
      } else {
        var t := TrimStart(u);
        assert t == s[|s| - |t|..] by {
          assert u[|u| - |t|..] == s[|s| - |t|..];
        }
        forall i | 0 <= i < |s| - |t| ensures IsJsSpace(s[i]) {
          if i > 0 {
            assert s[i] == u[i - 1];
          }
        }
        SqueezeRun(s, t, IsJsSpace);
        SpacesIsSqueezeThenHyphenate(t);
        var q := Squeeze(t, IsJsSpace);
        assert ([s[|s| - |t| - 1]] + q)[1..] == q;
      }
    }
  }

  /** Hyphenating keeps everything that is neither white space nor a hyphen. */
  lemma {:induction false} HyphenateKeepsFilter(s: string, keep: char -> bool)
    requires !keep('-')
    requires forall c :: IsJsSpace(c) ==> !keep(c)
    ensures Filter(HyphenateSpaces(s), keep) == Filter(s, keep)
  {
    if s != [] {
      HyphenateKeepsFilter(s[1..], keep);
      assert HyphenateSpaces(s)[1..] == HyphenateSpaces(s[1..]);
    }
  }

  /** The space pass keeps every character that is neither white space nor a hyphen, in order. */
  lemma SpacesKeepFilter(s: string, keep: char -> bool)
    requires !keep('-')
    requires forall c :: IsJsSpace(c) ==> !keep(c)
    ensures Filter(SpacesToHyphens(s), keep) == Filter(s, keep)
  {
    SpacesIsSqueezeThenHyphenate(s);
    HyphenateKeepsFilter(Squeeze(s, IsJsSpace), keep);
    SqueezeKeepsFilter(s, IsJsSpace, keep);
  }

  /** `generateSlug`: lower-case, trim, remove special characters, white space runs to one
      hyphen, hyphen runs to one hyphen. */
  function GenerateSlug(title: string): string {
    CollapseHyphens(SpacesToHyphens(RemoveSpecial(Trim(Lower(title)))))
  }

  // ---------------------------------------------------------------------------
  // What generateSlug guarantees
  // ---------------------------------------------------------------------------

  /** A character of the generated slug: `[a-z0-9_-]`. */
  predicate IsFormSlugChar(c: char) { IsAsciiLower(c) || IsDigit(c) || c == '_' || c == '-' }

  lemma {:induction false} RemoveKeeps(s: string, ok: char -> bool)
    requires forall i :: 0 <= i < |s| ==> ok(s[i])
    ensures forall i :: 0 <= i < |RemoveSpecial(s)| ==> ok(RemoveSpecial(s)[i])
  {
    if s != [] {
      RemoveKeeps(s[1..], ok);
    }
  }

  lemma {:induction false} SpacesKeeps(s: string, ok: char -> bool)
    requires ok('-')
    requires forall i :: 0 <= i < |s| ==> ok(s[i])
    ensures forall i :: 0 <= i < |SpacesToHyphens(s)| ==> ok(SpacesToHyphens(s)[i])
    decreases |s|
  {
    if s != [] {
      if IsJsSpace(s[0]) {
        var t := TrimStart(s[1..]);
        assert forall i :: 0 <= i < |t| ==> t[i] == s[|s| - |t| + i];
        SpacesKeeps(t, ok);
      } else {
        SpacesKeeps(s[1..], ok);
      }
    }
  }

  /** A hyphen or white space at the end of the input leaves a hyphen at the end of the output. */
  lemma {:induction false} SpacesLast(s: string)
    requires s != []
    ensures var r := SpacesToHyphens(s); r[|r| - 1] == '-' <==> s[|s| - 1] == '-' || IsJsSpace(s[|s| - 1])
    decreases |s|
  {
    if IsJsSpace(s[0]) {
      var t := TrimStart(s[1..]);
      if t != [] {
        SpacesLast(t);
        assert t[|t| - 1] == s[|s| - 1];
      }
    } else if |s| > 1 {
      SpacesLast(s[1..]);
    }
  }

  /** The generated slug holds no white space and no two hyphens in a row. */
  lemma SlugNoSpaceNoDoubleHyphen(title: string)
    ensures forall i :: 0 <= i < |GenerateSlug(title)| ==> !IsJsSpace(GenerateSlug(title)[i])
    ensures NoDoubleHyphen(GenerateSlug(title))
  {
    var s := SpacesToHyphens(RemoveSpecial(Trim(Lower(title))));
    CollapseKeeps(s, (c: char) => !IsJsSpace(c));
  }

  /** The generated slug is made of `[a-z0-9_-]` only (underscores survive). */
  lemma SlugCharset(title: string)
    ensures forall i :: 0 <= i < |GenerateSlug(title)| ==> IsFormSlugChar(GenerateSlug(title)[i])
  {
    var notUpper := (c: char) => !IsAsciiUpper(c);
    var t := Trim(Lower(title));
    TrimKeeps(Lower(title), notUpper);
    var r := RemoveSpecial(t);
    RemoveKeeps(t, notUpper);
    var classOk := (c: char) => IsFormSlugChar(c) || IsJsSpace(c);
    assert forall i :: 0 <= i < |r| ==> classOk(r[i]);
    var h := SpacesToHyphens(r);
    SpacesKeeps(r, classOk);
    CollapseKeeps(h, (c: char) => IsFormSlugChar(c));
  }

  /** The slug, stated on the reference definitions: filter on `[\w\s-]`, squeeze the white-space
      runs, hyphenate them, squeeze the hyphen runs. */
  lemma SlugReference(title: string)
    ensures var t := Trim(Lower(title));
            GenerateSlug(title) == Squeeze(HyphenateSpaces(Squeeze(Filter(t, Kept), IsJsSpace)), IsHyphen)
  {
    var t := Trim(Lower(title));
    RemoveIsFilter(t);
    var h := SpacesToHyphens(RemoveSpecial(t));
    SpacesIsSqueezeThenHyphenate(RemoveSpecial(t));
    CollapseIsSqueeze(h);
  }

  /** The slug keeps every word character of the lower-cased, trimmed title, in order. */
  lemma SlugKeepsWordChars(title: string)
    ensures Filter(GenerateSlug(title), IsWordChar) == Filter(Trim(Lower(title)), IsWordChar)
  {
    var t := Trim(Lower(title));
    var r := RemoveSpecial(t);
    RemoveIsFilter(t);
    FilterFilter(t, Kept, IsWordChar);
    var h := SpacesToHyphens(r);
    SpacesKeepFilter(r, IsWordChar);
    CollapseKeepsFilter(h, IsWordChar);
  }

  /** A hyphen at either end of the trimmed title stays at that end of the slug. */
  lemma SlugKeepsEdgeHyphens(title: string)
    ensures var t := Trim(Lower(title));
            t != [] && t[0] == '-' ==> GenerateSlug(title) != [] && GenerateSlug(title)[0] == '-'
    ensures var t := Trim(Lower(title));
            t != [] && t[|t| - 1] == '-' ==>
              GenerateSlug(title) != [] && GenerateSlug(title)[|GenerateSlug(title)| - 1] == '-'
  {
    var t := Trim(Lower(title));
    if t != [] {
      var h := SpacesToHyphens(RemoveSpecial(t));
      if t[0] == '-' {
        FirstHyphenKept(t);
      }
      if t[|t| - 1] == '-' {
        LastHyphenKept(t);
      }
    }
  }

  lemma FirstHyphenKept(t: string)
    requires t != [] && t[0] == '-'
    ensures var g := CollapseHyphens(SpacesToHyphens(RemoveSpecial(t))); g != [] && g[0] == '-'
  {
    var r := RemoveSpecial(t);
    assert r != [] && r[0] == '-';
    var h := SpacesToHyphens(r);
    assert h != [] && h[0] == '-';
  }

  lemma LastHyphenKept(t: string)
    requires t != [] && t[|t| - 1] == '-'
    ensures var g := CollapseHyphens(SpacesToHyphens(RemoveSpecial(t))); g != [] && g[|g| - 1] == '-'
  {
    var r := RemoveSpecial(t);
    assert r != [] && r[|r| - 1] == '-';
    SpacesLast(r);
    CollapseLast(SpacesToHyphens(r));
  }

  // ---------------------------------------------------------------------------
  // insertFormatting
  // ---------------------------------------------------------------------------

  function Clamp(n: int, len: nat): (r: nat)
    ensures r <= len
    ensures 0 <= n <= len ==> r == n
  {
    if n < 0 then 0 else if n > len then len else n
  }

  /** `String.prototype.substring(a, b)`: both ends clamped to the string, swapped when `a > b`. */
  function Substring(s: string, a: int, b: int): (r: string)
    ensures 0 <= a <= b <= |s| ==> r == s[a..b]
    ensures |r| <= |s|
  {
    var x, y := Clamp(a, |s|), Clamp(b, |s|);
    if x <= y then s[x..y] else s[y..x]
  }

  /** The markup a format puts around the selection: prefix, placeholder for an empty
      selection, suffix. `hr`, `image` and unknown formats have none. */
  datatype Markup = Markup(prefix: string, placeholder: string, suffix: string)

  function Wrapping(format: string): Option<Markup> {
    if format == "bold" then Some(Markup("**", "text", "**"))
    else if format == "italic" then Some(Markup("__", "text", "__"))
    else if format == "h1" then Some(Markup("# ", "Heading 1", ""))
    else if format == "h2" then Some(Markup("## ", "Heading 2", ""))
    else if format == "h3" then Some(Markup("### ", "Heading 3", ""))
    else if format == "ul" then Some(Markup("- ", "List item", ""))
    else if format == "ol" then Some(Markup("1. ", "List item", ""))
    else if format == "code" then Some(Markup("`", "code", "`"))
    else if format == "quote" then Some(Markup("> ", "Quote", ""))
    else if format == "link" then Some(Markup("[", "link text", "](url)"))
    else if format == "center" then Some(Markup("<center>", "centered text", "</center>"))
    else if format == "right" then Some(Markup("<right>", "right-aligned text", "</right>"))
    else if format == "left" then Some(Markup("<left>", "left-aligned text", "</left>"))
    else None
  }

  /** The text `insertFormatting` puts in place of the selection; `collapsed` is an empty
      selection (`start === end`). */
  function Insertion(format: string, selected: string, collapsed: bool): (r: string)
    ensures Wrapping(format).Some? ==>
              var m := Wrapping(format).value;
              var body := if collapsed then m.placeholder else selected;
              && |r| == |m.prefix| + |body| + |m.suffix|
              && r[..|m.prefix|] == m.prefix
              && r[|m.prefix|..|m.prefix| + |body|] == body
              && r[|m.prefix| + |body|..] == m.suffix
    ensures r == "" <==> Wrapping(format).None? && format != "hr" && format != "image"
  {
    match Wrapping(format)
    case Some(m) => m.prefix + (if collapsed then m.placeholder else selected) + m.suffix
    case None =>
      if format == "hr" then "---"
      else if format == "image" then "!img[alt text](image-url)"
      else ""
  }

  /** The formats the `switch` has a case for. */
  predicate Known(format: string) {
    format in {"bold", "italic", "h1", "h2", "h3", "ul", "ol", "code", "quote", "hr", "link",
               "image", "center", "right", "left"}
  }

  /** The formats of the toolbar's buttons, in the order they appear. */
  const Toolbar: seq<string> := ["bold", "italic", "h1", "h2", "h3", "ul", "ol", "code", "quote",
                                 "link", "image", "center", "right", "left"]

  /** Every button's format has a case; `hr` has a case but no button. */
  lemma ToolbarKnown()
    ensures forall i :: 0 <= i < |Toolbar| ==> Known(Toolbar[i])
    ensures "hr" !in Toolbar && Known("hr")
  {
  }

  /** Every format with a case except `hr` and `image` wraps the selection; those two insert
      fixed text; nothing else inserts anything. */
  lemma FormatsCovered(format: string)
    ensures Wrapping(format).Some? <==> Known(format) && format != "hr" && format != "image"
  {
  }

  /** The new content: the text before the selection, the insertion, the text after it. */
  function Splice(text: string, start: int, end: int, format: string): string {
    Substring(text, 0, start) + Insertion(format, Substring(text, start, end), start == end)
      + Substring(text, end, |text|)
  }

  /** With a selection inside the text, everything outside the selection is preserved and
      the selection is replaced by the insertion. */
  lemma SplicePreserves(text: string, start: int, end: int, format: string)
    requires 0 <= start <= end <= |text|
    ensures var r := Splice(text, start, end, format);
            var ins := Insertion(format, text[start..end], start == end);
            && r == text[..start] + ins + text[end..]
            && r[..start] == text[..start]
            && r[start + |ins|..] == text[end..]
            && |r| == |text| - (end - start) + |ins|
  {
    var ins := Insertion(format, text[start..end], start == end);
    var r := Splice(text, start, end, format);
    assert r == text[..start] + ins + text[end..];
    assert r[..start] == text[..start];
    assert r[start + |ins|..] == text[end..];
  }

  /** A bold selection is wrapped in `**`; an empty one inserts `**text**`. */
  lemma BoldExample(text: string, start: int, end: int)
    requires 0 <= start <= end <= |text|
    ensures start < end ==> Splice(text, start, end, "bold") == text[..start] + "**" + text[start..end] + "**" + text[end..]
    ensures start == end ==> Splice(text, start, end, "bold") == text[..start] + "**text**" + text[end..]
  {
    SplicePreserves(text, start, end, "bold");
    assert Wrapping("bold") == Some(Markup("**", "text", "**"));
    var sel := text[start..end];
    var ins := Insertion("bold", sel, start == end);
    if start < end {
      assert ins == "**" + sel + "**";
      assert text[..start] + ins + text[end..] == text[..start] + "**" + sel + "**" + text[end..];
    } else {
      assert ins == "**text**";
    }
  }

  /** `hr` and `image` insert fixed text whatever is selected. */
  lemma FixedInsertions(sel: string, collapsed: bool)
    ensures Insertion("hr", sel, collapsed) == "---"
    ensures Insertion("image", sel, collapsed) == "!img[alt text](image-url)"
  {
  }

  /** An unknown format deletes the selected range. */
  lemma UnknownDeletes(text: string, start: int, end: int, format: string)
    requires 0 <= start <= end <= |text| && !Known(format)
    ensures Splice(text, start, end, format) == text[..start] + text[end..]
  {
    SplicePreserves(text, start, end, format);
  }

  // ---------------------------------------------------------------------------
  // Form state
  // ---------------------------------------------------------------------------

  datatype Mode = Add | Edit

  /** The inputs wired to `handleChange`. */
  datatype Field = Title | Status | Content

  datatype BlogPayload = BlogPayload(title: string, content: string, status: string, slug: string, featuredImage: string)

  datatype BlogRequest = Create(payload: BlogPayload) | Update(id: string, payload: BlogPayload)

  function FailureMessage(mode: Mode): string {
    "Failed to " + (if mode == Add then "add" else "edit") + " blog post. Please try again."
  }

  /** The request a submit sends: a create when adding, an update of the route id when editing
      with one, and nothing when editing without one. */
  function RequestFor(mode: Mode, id: Option<string>, payload: BlogPayload): (r: Option<BlogRequest>)
    ensures mode == Add ==> r == Some(Create(payload))
    ensures mode == Edit && Truthy(id) ==> r == Some(Update(id.value, payload))
    ensures mode == Edit && !Truthy(id) ==> r == None
  {
    if mode == Add then Some(Create(payload))
    else if Truthy(id) then Some(Update(id.value, payload))
    else None
  }

  class BlogFormState {
    var title: string
    var content: string
    var status: string
    var slug: string
    var featuredImage: Option<string>
    var featuredImageFile: bool
    var error: Option<string>
    var loading: bool

    /** The initial form; the edit page starts loading. */
    constructor (mode: Mode)
      ensures title == "" && content == "" && status == "draft" && slug == ""
      ensures featuredImage == None && !featuredImageFile && error == None
      ensures loading == (mode == Edit)
    {
      title, content, status, slug := "", "", "draft", "";
      featuredImage, featuredImageFile, error := None, false, None;
      loading := mode == Edit;
    }

    /** `handleChange`: the edited field takes the value; editing the title also regenerates
        the slug. */
    method HandleChange(name: Field, value: string)
      modifies this
      ensures name == Title ==> title == value && slug == GenerateSlug(value) && content == old(content) && status == old(status)
      ensures name == Status ==> status == value && title == old(title) && slug == old(slug) && content == old(content)
      ensures name == Content ==> content == value && title == old(title) && slug == old(slug) && status == old(status)
      ensures featuredImage == old(featuredImage) && featuredImageFile == old(featuredImageFile)
      ensures error == old(error) && loading == old(loading)
    {
      var newSlug := GenerateSlug(value);
      match name
      case Title =>
        title, slug := value, newSlug;
      case Status =>
        status := value;
      case Content =>
        content := value;
    }

    /** `handleFeaturedChange` with a file chosen: the file is kept for upload and the old URL
        is cleared. */
    method HandleFeaturedChange()
      modifies this
      ensures featuredImageFile && featuredImage == Some("")
      ensures title == old(title) && content == old(content) && status == old(status) && slug == old(slug)
      ensures error == old(error) && loading == old(loading)
    {
      featuredImageFile := true;
      featuredImage := Some("");
    }

    /** `insertFormatting` on the content textarea, whose selection is `start .. end`. */
    method InsertFormatting(format: string, start: int, end: int)
      modifies this
      ensures content == Splice(old(content), start, end, format)
      ensures title == old(title) && status == old(status) && slug == old(slug)
      ensures featuredImage == old(featuredImage) && featuredImageFile == old(featuredImageFile)
      ensures error == old(error) && loading == old(loading)
    {
      content := Splice(content, start, end, format);
    }

    /** `handleSubmit`. `upload` is the URL the chosen file was uploaded to (None: the upload
        failed); `requestOk` is whether the create / update request succeeded. The slug sent
        is always generated from the title; the image is `''` when there is none. */
    method HandleSubmit(mode: Mode, id: Option<string>, upload: Option<string>, requestOk: bool)
      returns (sent: Option<BlogRequest>)
      modifies this
      ensures title == old(title) && content == old(content) && status == old(status) && slug == old(slug)
      ensures featuredImage == old(featuredImage) && featuredImageFile == old(featuredImageFile)
      ensures !loading
      ensures old(featuredImageFile) && upload.None? ==> sent == None && error == Some(FailureMessage(mode))
      ensures !(old(featuredImageFile) && upload.None?) ==>
                var url := if old(featuredImageFile) then upload else old(featuredImage);
                var payload := BlogPayload(title, content, status, GenerateSlug(title), OrEmpty(url));
                && sent == RequestFor(mode, id, payload)
                && error == (if sent.Some? && !requestOk then Some(FailureMessage(mode)) else None)
    {
      var newSlug := GenerateSlug(title);
      loading := true;
      error := None;
      var url := featuredImage;
      if featuredImageFile {
        if upload.None? {
          error := Some(FailureMessage(mode));
          loading := false;
          return None;
        }
        url := upload;
      }
      var payload := BlogPayload(title, content, status, newSlug, OrEmpty(url));
      sent := RequestFor(mode, id, payload);
      if sent.Some? && !requestOk {
        error := Some(FailureMessage(mode));
      }
      loading := false;
    }
  }
}
