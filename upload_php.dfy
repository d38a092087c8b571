/** The image upload endpoint: the CORS origin it answers with, the preflight short cut, the
    checks on the uploaded file, the stored name, and the public URL it returns. */
module UploadPhp {
  import opened Util

  const AllowedOrigins: seq<string> := ["https://wingzimpex.osamaqaseem.online", "https://osamaqaseem.online",
                                        "https://admin.wingzimpex.com"]
  const DefaultOrigin: string := "https://wingzimpex.osamaqaseem.online"

  const AllowedTypes: seq<string> := ["image/jpeg", "image/png", "image/gif", "image/webp"]
  const MaxSize: nat := 5 * 1024 * 1024

  const UploadDir: string := "uploads/"
  const DefaultBase: string := "https://wingzimpex.osamaqaseem.online"
  const AltBase: string := "https://osamaqaseem.online"
  const AltHost: string := "osamaqaseem.online"

  const NoFile := "No file uploaded"
  const BadType := "Invalid file type. Only JPG, PNG, GIF, and WEBP are allowed."
  const TooLarge := "File too large. Maximum allowed size is 5MB."
  const MoveFailed := "Failed to upload file. Check server permissions."

  /** An entry of the uploaded-files table: the client's name and type, the size in bytes and
      the upload error code (0 is no error). */
  datatype UploadedFile = UploadedFile(name: string, mimeType: string, size: nat, error: nat)

  /** A request: the HTTP method, the `Origin` and `Host` headers, and the `file` entry. */
  datatype Request = Request(verb: string, origin: Option<string>, host: Option<string>,
                             file: Option<UploadedFile>)

  /** The JSON body: nothing, an error message, the URL, or the move failure with its target. */
  datatype Body = NoBody | Error(message: string) | Url(url: string) | Failed(message: string, target: string)

  datatype Response = Response(code: int, allowOrigin: string, body: Body)

  /** `Access-Control-Allow-Origin`: the request's origin when it is allowed, else the default. */
  function AllowOrigin(origin: Option<string>): (r: string)
    ensures r in AllowedOrigins
    ensures origin.Some? && origin.value in AllowedOrigins ==> r == origin.value
    ensures !(origin.Some? && origin.value in AllowedOrigins) ==> r == DefaultOrigin
  {
    var o := if origin.Some? then origin.value else "";
    if o in AllowedOrigins then o else DefaultOrigin
  }

  /** `pathinfo($name, PATHINFO_EXTENSION)`: what follows the last dot of the base name, or
      the empty string when it has no dot. */
  function Extension(name: string): (r: string)
    ensures forall i :: 0 <= i < |r| ==> r[i] != '.' && r[i] != '/'
  {
    var b := Basename(name);
    var k := LastIndexOf(b, '.');
    if k < 0 then "" else b[k + 1..]
  }

  /** The stored name: the clock reading, a hyphen, the four random bytes in hex, a dot and
      the extension. */
  function StoredName(now: nat, random: seq<Byte>, ext: string): string {
    Decimal(now) + "-" + Bin2Hex(random) + "." + ext
  }

  /** The stored name splits back into its parts: the clock reading, 8 lower-case hex digits
      that read back as the random bytes, and the extension. */
  lemma StoredNameParts(now: nat, random: seq<Byte>, ext: string)
    requires |random| == 4
    ensures var d, n := Decimal(now), StoredName(now, random, ext);
            && |n| == |d| + 10 + |ext|
            && n[..|d|] == d && DecimalValue(n[..|d|]) == now
            && n[|d|] == '-'
            && n[|d| + 1..|d| + 9] == Bin2Hex(random)
            && Hex2Bin(n[|d| + 1..|d| + 9]) == random
            && n[|d| + 9] == '.'
            && n[|d| + 10..] == ext
  {
    JoinParts(Decimal(now), Bin2Hex(random), ext);
    DecimalRoundTrip(now);
    HexRoundTrip(random);
  }

  /** Where the parts of a joined name sit. */
  lemma JoinParts(d: string, h: string, ext: string)
    requires |h| == 8
    ensures var n := d + "-" + h + "." + ext;
            && |n| == |d| + 10 + |ext|
            && n[..|d|] == d && n[|d|] == '-' && n[|d| + 1..|d| + 9] == h
            && n[|d| + 9] == '.' && n[|d| + 10..] == ext
  {
    var n := d + "-" + h + "." + ext;
    assert n == d + (['-'] + (h + (['.'] + ext)));
    assert n[..|d|] == d;
    assert n[|d| + 1..|d| + 9] == h;
    assert n[|d| + 10..] == ext;
  }

  /** The public base URL: the alternative one when the host contains its domain. */
  function BaseUrl(host: Option<string>): (r: string)
    ensures r == AltBase <==> Contains(if host.Some? then host.value else "", AltHost)
    ensures r == AltBase || r == DefaultBase
  {
    if Contains(if host.Some? then host.value else "", AltHost) then AltBase else DefaultBase
  }

  /** Is the file accepted by the three checks? */
  predicate Acceptable(f: UploadedFile) {
    f.error == 0 && f.mimeType in AllowedTypes && f.size <= MaxSize
  }

  /** The endpoint. `now` is the clock reading, `random` the four random bytes, and `moveOk`
      whether moving the file into the upload directory succeeds. */
  method HandleUpload(req: Request, now: nat, random: seq<Byte>, moveOk: bool) returns (resp: Response)
    requires |random| == 4
    ensures resp.allowOrigin == AllowOrigin(req.origin)
    ensures req.verb == "OPTIONS" ==> resp.code == 200 && resp.body == NoBody
    ensures req.verb != "OPTIONS" && req.file.None? ==> resp.code == 400 && resp.body == Error(NoFile)
    ensures req.verb != "OPTIONS" && req.file.Some? ==>
              var f := req.file.value;
              && (f.error != 0 ==> resp.code == 400 && resp.body == Error("Upload error: " + Decimal(f.error)))
              && (f.error == 0 && f.mimeType !in AllowedTypes ==> resp.code == 400 && resp.body == Error(BadType))
              && (f.error == 0 && f.mimeType in AllowedTypes && f.size > MaxSize ==>
                    resp.code == 400 && resp.body == Error(TooLarge))
              && (Acceptable(f) ==>
                    var name := StoredName(now, random, Extension(f.name));
                    && (moveOk ==> resp.code == 200 && resp.body == Url(BaseUrl(req.host) + "/uploads/" + name))
                    && (!moveOk ==> resp.code == 500 && resp.body == Failed(MoveFailed, UploadDir + name)))
  {
    var allow := AllowOrigin(req.origin);
    if req.verb == "OPTIONS" {
      return Response(200, allow, NoBody);
    }
    if req.file.None? {
      return Response(400, allow, Error(NoFile));
    }
    var f := req.file.value;
    if f.error != 0 {
      return Response(400, allow, Error("Upload error: " + Decimal(f.error)));
    }
    if f.mimeType !in AllowedTypes {
      return Response(400, allow, Error(BadType));
    }
    if f.size > MaxSize {
      return Response(400, allow, Error(TooLarge));
    }
    var ext := Extension(f.name);
    var uniqueName := Decimal(now) + "-" + Bin2Hex(random) + "." + ext;
    var target := UploadDir + uniqueName;
    if moveOk {
      var base := DefaultBase;
      if Contains(if req.host.Some? then req.host.value else "", AltHost) {
        base := AltBase;
      }
      return Response(200, allow, Url(base + "/uploads/" + uniqueName));
    }
    return Response(500, allow, Failed(MoveFailed, target));
  }

  /** A file of exactly 5 MiB with an allowed type and no error passes the checks; one byte
      more does not. */
  lemma SizeBoundary(name: string, mimeType: string)
    requires mimeType in AllowedTypes
    ensures Acceptable(UploadedFile(name, mimeType, 5242880, 0))
    ensures !Acceptable(UploadedFile(name, mimeType, 5242881, 0))
  {
  }

  /** The extension is what follows the last dot of the name. */
  lemma ExtensionAfterLastDot(stem: string, ext: string)
    requires forall i :: 0 <= i < |stem| ==> stem[i] != '/'
    requires forall i :: 0 <= i < |ext| ==> ext[i] != '.' && ext[i] != '/'
    ensures Extension(stem + ['.'] + ext) == ext
  {
    DotJoin(stem, ext);
  }

  /** A name without a dot has no extension, so the stored name ends with the dot. */
  lemma NoDotNoExtension(name: string)
    requires forall i :: 0 <= i < |name| ==> name[i] != '.'
    ensures Extension(name) == ""
  {
    var b := Basename(name);
    var p := DropTrailing(name, '/');
    forall i | 0 <= i < |b| ensures b[i] != '.' {
      assert b[i] == p[|p| - |b| + i] == name[|p| - |b| + i];
    }
  }
}
