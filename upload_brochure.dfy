/** The brochure upload middleware: where a brochure is stored and under which name, the size
    limit, and the filter on the file name's extension. */
module UploadBrochure {
  import opened Util

  const Destination: string := "uploads/brochures/"
  const MaxFileSize: nat := 300 * 1024 * 1024
  const Rejected := "Only PDF, PPT, DOC, DOCX files are allowed!"

  /** The alternatives of the filter's pattern, in order. */
  const FileTypes: seq<string> := ["pdf", "ppt", "pptx", "doc", "docx"]

  /** The stored file name: the clock reading, a hyphen and the client's name. */
  function StoredFilename(now: nat, originalname: string): string {
    Decimal(now) + "-" + originalname
  }

  /** The stored name splits back into the clock reading and the client's name. */
  lemma StoredFilenameParts(now: nat, originalname: string)
    ensures var d, n := Decimal(now), StoredFilename(now, originalname);
            && n[..|d|] == d && DecimalValue(n[..|d|]) == now
            && n[|d|] == '-' && n[|d| + 1..] == originalname
  {
    var d := Decimal(now);
    var n := StoredFilename(now, originalname);
    assert n == d + (['-'] + originalname);
    assert n[..|d|] == d;
    assert n[|d| + 1..] == originalname;
    DecimalRoundTrip(now);
  }

  /** POSIX `extname`: from the last dot of the base name (trailing slashes dropped) to its end;
      empty when the base name has no dot, starts with its only dot, or is `..`. */
  function Extname(name: string): (r: string)
    ensures r == [] || (r[0] == '.' && forall i :: 1 <= i < |r| ==> r[i] != '.')
    ensures forall i :: 0 <= i < |r| ==> r[i] != '/'
  {
    var b := Basename(name);
    var k := LastIndexOf(b, '.');
    if k <= 0 || b == ".." then "" else b[k..]
  }

  /** The test of the unanchored pattern: does the lower-cased extension contain one of the
      alternatives? */
  predicate FileFilter(originalname: string) {
    var ext := Lower(Extname(originalname));
    exists t :: t in FileTypes && Contains(ext, t)
  }

  /** The answer of `fileFilter`: accepted, or the error with the fixed message. */
  datatype Verdict = Accept | Reject(message: string)

  function Check(originalname: string): (r: Verdict)
    ensures r == Accept <==> FileFilter(originalname)
    ensures r.Reject? ==> r.message == Rejected
  {
    if FileFilter(originalname) then Accept else Reject(Rejected)
  }

  /** The error multer reports for a file over `limits.fileSize`. */
  const TooLarge := "File too large"

  /** What multer answers for one brochure of `size` bytes: `fileFilter` decides first, then the
      file is streamed and fails once it grows past the limit. */
  function Receive(originalname: string, size: nat): (r: Verdict)
    ensures r == Accept <==> FileFilter(originalname) && size <= MaxFileSize
    ensures !FileFilter(originalname) ==> r == Reject(Rejected)
    ensures FileFilter(originalname) && size > MaxFileSize ==> r == Reject(TooLarge)
  {
    if Check(originalname).Reject? then Check(originalname)
    else if size > MaxFileSize then Reject(TooLarge)
    else Accept
  }

  /** Exactly 300 MiB is accepted; one byte more is refused. */
  lemma SizeBoundary(originalname: string)
    requires FileFilter(originalname)
    ensures Receive(originalname, 314572800) == Accept
    ensures Receive(originalname, 314572801) == Reject(TooLarge)
  {
  }

  /** A shorter alternative occurring at the front of a longer one also occurs in every text
      the longer one occurs in. */
  lemma {:induction false} ContainsPrefix(s: string, sub: string, pre: string)
    requires pre <= sub && Contains(s, sub)
    ensures Contains(s, pre)
    decreases |s|
  {
    if sub <= s {
      assert pre <= s;
    } else {
      ContainsPrefix(s[1..], sub, pre);
    }
  }

  /** `pptx` and `docx` add nothing: the filter accepts exactly the names whose lower-cased
      extension contains `pdf`, `ppt` or `doc`. */
  lemma ThreeAlternatives(originalname: string)
    ensures var ext := Lower(Extname(originalname));
            FileFilter(originalname) <==> Contains(ext, "pdf") || Contains(ext, "ppt") || Contains(ext, "doc")
  {
    AlternativesIn(Lower(Extname(originalname)));
  }

  lemma AlternativesIn(ext: string)
    ensures (exists t :: t in FileTypes && Contains(ext, t)) <==>
            Contains(ext, "pdf") || Contains(ext, "ppt") || Contains(ext, "doc")
  {
    if Contains(ext, "pptx") {
      ContainsPrefix(ext, "pptx", "ppt");
    }
    if Contains(ext, "docx") {
      ContainsPrefix(ext, "docx", "doc");
    }
  }

  /** Nothing contains a non-empty text that is longer than it. */
  lemma {:induction false} ShortNoContains(s: string, sub: string)
    requires |s| < |sub|
    ensures !Contains(s, sub)
  {
    if s != [] {
      ShortNoContains(s[1..], sub);
    }
  }

  /** A name whose extension is empty (no dot, or a leading dot only) is rejected. */
  lemma EmptyExtensionRejected(originalname: string)
    requires Extname(originalname) == ""
    ensures Check(originalname) == Reject(Rejected)
  {
    forall t | t in FileTypes ensures !Contains("", t) {
      ShortNoContains("", t);
    }
  }

  /** The extension of a slash-free stem that is not empty, a dot and a non-empty slash-free,
      dot-free suffix is the dot and the suffix. */
  lemma ExtnameAfterLastDot(stem: string, ext: string)
    requires stem != [] && ext != []
    requires forall i :: 0 <= i < |stem| ==> stem[i] != '/'
    requires forall i :: 0 <= i < |ext| ==> ext[i] != '.' && ext[i] != '/'
    ensures Extname(stem + ['.'] + ext) == ['.'] + ext
  {
    var n := stem + ['.'] + ext;
    DotJoin(stem, ext);
    assert |n| > 2;
    assert n[|stem|..] == ['.'] + ext;
  }

  /** A hidden file named after an accepted type, such as `.pdf`, has no extension and is
      rejected. */
  lemma HiddenFileRejected(ext: string)
    requires forall i :: 0 <= i < |ext| ==> ext[i] != '.' && ext[i] != '/'
    ensures Check(['.'] + ext) == Reject(Rejected)
  {
    HiddenFileNoExtension(ext);
    EmptyExtensionRejected(['.'] + ext);
  }

  lemma HiddenFileNoExtension(ext: string)
    requires forall i :: 0 <= i < |ext| ==> ext[i] != '.' && ext[i] != '/'
    ensures Extname(['.'] + ext) == ""
  {
    var n := ['.'] + ext;
    forall i | 0 <= i < |n| ensures n[i] != '/' {
      if i > 0 {
        assert n[i] == ext[i - 1];
      }
    }
    assert Basename(n) == n;
    forall i | 0 < i < |n| ensures n[i] != '.' {
      assert n[i] == ext[i - 1];
    }
    LastIndexAt(n, '.', 0);
  }

  /** Since the pattern is unanchored, an extension that contains an accepted type passes,
      whatever else it holds. */
  lemma UnanchoredAccepts(stem: string, ext: string, t: string)
    requires stem != []
    requires forall i :: 0 <= i < |stem| ==> stem[i] != '/'
    requires forall i :: 0 <= i < |ext| ==> 'a' <= ext[i] <= 'z'
    requires t in FileTypes && Contains(ext, t)
    ensures Check(stem + ['.'] + ext) == Accept
  {
    assert ext != [] by {
      if ext == [] {
        ShortNoContains(ext, t);
      }
    }
    ExtnameAfterLastDot(stem, ext);
    var dotted := ['.'] + ext;
    LowerDotted(ext);
    assert dotted[1..] == ext;
    assert Contains(Lower(Extname(stem + ['.'] + ext)), t);
  }

  /** Lower-casing leaves a dot and lower-case letters as they are. */
  lemma LowerDotted(ext: string)
    requires forall i :: 0 <= i < |ext| ==> 'a' <= ext[i] <= 'z'
    ensures Lower(['.'] + ext) == ['.'] + ext
  {
    var d := ['.'] + ext;
    forall i | 0 <= i < |d| ensures Lower(d)[i] == d[i] {
      if i > 0 {
        assert d[i] == ext[i - 1];
      }
    }
  }

  /** For instance `brochure.pdfx` is accepted, `pdfx` containing `pdf`. */
  lemma PdfxAccepted(stem: string)
    requires stem != []
    requires forall i :: 0 <= i < |stem| ==> stem[i] != '/'
    ensures Check(stem + ['.'] + "pdfx") == Accept
  {
    assert "pdf" <= "pdfx";
    UnanchoredAccepts(stem, "pdfx", "pdf");
  }
}
