/** The product form: the featured image and gallery selections, their removal handlers, and
    the submit, which uploads the chosen files and assembles the gallery and featured image. */
module ProductForm {
  import opened Util
  import ImageUpload

  type FileRef = ImageUpload.FileRef

  /** The product fields the form edits; `None` is an absent property. */
  datatype Product = Product(title: string, description: string, featuredImage: Option<string>,
                             gallery: Option<seq<string>>)

  const EmptyProduct: Product := Product("", "", Some(""), Some([]))

  /** The body sent on submit: the product with `featuredImage` and `gallery` always set. */
  datatype Payload = Payload(title: string, description: string, featuredImage: string, gallery: seq<string>)

  datatype Request = Create(payload: Payload) | Update(id: string, payload: Payload)

  // ---------------------------------------------------------------------------
  // What a submit computes
  // ---------------------------------------------------------------------------

  /** Uploading `files` one after the other: the URLs in selection order, or `None` as soon as
      one upload fails. `upload` is the upload call (`None` for a failure). */
  function UploadAll(files: seq<FileRef>, upload: FileRef -> Option<string>): (r: Option<seq<string>>)
    ensures r.Some? ==> |r.value| == |files| && forall i :: 0 <= i < |files| ==> upload(files[i]) == Some(r.value[i])
    ensures r.None? <==> exists i :: 0 <= i < |files| && upload(files[i]).None?
  {
    if files == [] then Some([])
    else
      var init := files[..|files| - 1];
      var done, last := UploadAll(init, upload), upload(files[|files| - 1]);
      if done.None? then
        var i :| 0 <= i < |init| && upload(init[i]).None?;
        assert upload(files[i]).None?;
        None
      else if last.None? then None
      else Some(done.value + [last.value])
  }

  /** The gallery a submit sends: the uploaded URLs when files are selected, else the existing
      gallery; `None` when an upload fails. */
  function GalleryFor(files: seq<FileRef>, existing: seq<string>, upload: FileRef -> Option<string>): (r: Option<seq<string>>)
    ensures files != [] ==> r == UploadAll(files, upload)
    ensures files == [] ==> r == Some(existing)
  {
    if |files| > 0 then UploadAll(files, upload)
    else if |existing| > 0 then Some(existing)
    else Some([])
  }

  /** The featured image a submit sends: the uploaded URL when a file is chosen, else the
      current value, and `''` when that is absent; `None` when the upload fails. */
  function FeaturedFor(current: Option<string>, file: Option<FileRef>, upload: FileRef -> Option<string>): (r: Option<string>)
    ensures file.Some? ==> r == upload(file.value)
    ensures file.None? ==> r == Some(if Truthy(current) then current.value else "")
  {
    var url := if file.Some? then upload(file.value) else Some(if current.Some? then current.value else "");
    if url.Some? then Some(if url.value != "" then url.value else "") else None
  }

  /** The payload a submit sends, or `None` when an upload fails. The featured image is
      uploaded before the gallery. */
  function PayloadFor(p: Product, featuredFile: Option<FileRef>, files: seq<FileRef>, existing: seq<string>,
                      upload: FileRef -> Option<string>): (r: Option<Payload>)
    ensures r.Some? <==> FeaturedFor(p.featuredImage, featuredFile, upload).Some? && GalleryFor(files, existing, upload).Some?
    ensures r.Some? ==> r.value == Payload(p.title, p.description, FeaturedFor(p.featuredImage, featuredFile, upload).value,
                                          GalleryFor(files, existing, upload).value)
  {
    var featured := FeaturedFor(p.featuredImage, featuredFile, upload);
    var gallery := GalleryFor(files, existing, upload);
    if featured.Some? && gallery.Some? then Some(Payload(p.title, p.description, featured.value, gallery.value)) else None
  }

  /** When every upload succeeds the gallery is one URL per selected file, in selection order. */
  lemma GalleryFromUploads(files: seq<FileRef>, existing: seq<string>, upload: FileRef -> Option<string>)
    requires files != [] && forall i :: 0 <= i < |files| ==> upload(files[i]).Some?
    ensures var g := GalleryFor(files, existing, upload);
            g.Some? && |g.value| == |files| && forall i :: 0 <= i < |files| ==> g.value[i] == upload(files[i]).value
  {
  }

  /** With nothing selected and no existing gallery, the gallery sent is empty. */
  lemma NoGallery(upload: FileRef -> Option<string>)
    ensures GalleryFor([], [], upload) == Some([])
  {
  }

  // ---------------------------------------------------------------------------
  // The form state
  // ---------------------------------------------------------------------------

  datatype Field = Title | Description

  class ProductFormState {
    var product: Product
    var featuredImageFile: Option<FileRef>
    var galleryFiles: seq<FileRef>
    var previewFeatured: Option<string>
    var previewGallery: seq<string>
    var existingGallery: seq<string>
    var loading: bool
    /** `URL.createObjectURL`, the local URL a picked file is previewed under. */
    const objectUrl: FileRef -> string

    /** The gallery previews are the selected files' local URLs, one for one. */
    predicate Aligned()
      reads this
    {
      |previewGallery| == |galleryFiles| &&
      forall i :: 0 <= i < |galleryFiles| ==> previewGallery[i] == objectUrl(galleryFiles[i])
    }

    constructor (objectUrl: FileRef -> string)
      ensures product == EmptyProduct && featuredImageFile == None && galleryFiles == []
      ensures previewFeatured == None && previewGallery == [] && existingGallery == [] && !loading
      ensures this.objectUrl == objectUrl
      ensures Aligned()
    {
      product, featuredImageFile, galleryFiles := EmptyProduct, None, [];
      previewFeatured, previewGallery, existingGallery := None, [], [];
      loading := false;
      this.objectUrl := objectUrl;
    }

    /** The state after a successful create, and on opening the form without an id. */
    method Reset()
      modifies this
      ensures product == EmptyProduct && featuredImageFile == None && galleryFiles == []
      ensures previewFeatured == None && previewGallery == [] && existingGallery == []
      ensures loading == old(loading)
      ensures Aligned()
    {
      product, featuredImageFile, galleryFiles := EmptyProduct, None, [];
      previewFeatured, previewGallery, existingGallery := None, [], [];
    }

    /** The load for an id: on success the product, its featured image as preview, its gallery
        as the existing gallery, and no gallery previews; the selected files are kept. */
    method Load(response: Option<Product>)
      modifies this
      ensures !loading && featuredImageFile == old(featuredImageFile) && galleryFiles == old(galleryFiles)
      ensures response.Some? ==>
                && product == response.value
                && previewFeatured == (if Truthy(response.value.featuredImage) then response.value.featuredImage else None)
                && existingGallery == (if response.value.gallery.Some? then response.value.gallery.value else [])
                && previewGallery == []
      ensures response.None? ==>
                product == old(product) && previewFeatured == old(previewFeatured) &&
                existingGallery == old(existingGallery) && previewGallery == old(previewGallery)
    {
      if response.Some? {
        var p := response.value;
        product := p;
        previewFeatured := if Truthy(p.featuredImage) then p.featuredImage else None;
        existingGallery := if p.gallery.Some? then p.gallery.value else [];
        previewGallery := [];
      }
      loading := false;
    }

    /** `handleChange` for the title or the description. */
    method HandleChange(field: Field, value: string)
      modifies this
      ensures field == Title ==> product == old(product).(title := value)
      ensures field == Description ==> product == old(product).(description := value)
      ensures featuredImageFile == old(featuredImageFile) && galleryFiles == old(galleryFiles)
      ensures previewGallery == old(previewGallery) && existingGallery == old(existingGallery)
      ensures previewFeatured == old(previewFeatured) && loading == old(loading)
    {
      if field == Title {
        product := product.(title := value);
      } else {
        product := product.(description := value);
      }
    }

    /** `handleFeaturedChange`: the first picked file becomes the featured file and its preview. */
    method HandleFeaturedChange(files: Option<seq<FileRef>>)
      modifies this
      ensures files.Some? && files.value != [] ==>
                featuredImageFile == Some(files.value[0]) && previewFeatured == Some(objectUrl(files.value[0]))
      ensures !(files.Some? && files.value != []) ==>
                featuredImageFile == old(featuredImageFile) && previewFeatured == old(previewFeatured)
      ensures product == old(product) && galleryFiles == old(galleryFiles) && previewGallery == old(previewGallery)
      ensures existingGallery == old(existingGallery) && loading == old(loading)
    {
      if files.Some? && files.value != [] {
        featuredImageFile := Some(files.value[0]);
        previewFeatured := Some(objectUrl(files.value[0]));
      }
    }

    /** `handleGalleryChange`: a new selection replaces the previous one, with one preview per
        file in the same order. */
    method HandleGalleryChange(files: Option<seq<FileRef>>)
      modifies this
      ensures files.Some? ==> galleryFiles == files.value && Aligned()
      ensures files.None? ==> galleryFiles == old(galleryFiles) && previewGallery == old(previewGallery)
      ensures product == old(product) && featuredImageFile == old(featuredImageFile)
      ensures previewFeatured == old(previewFeatured) && existingGallery == old(existingGallery)
      ensures loading == old(loading)
    {
      if files.Some? {
        var fs := files.value;
        galleryFiles := fs;
        previewGallery := seq(|fs|, i requires 0 <= i < |fs| => objectUrl(fs[i]));
      }
    }

    /** Removing the featured preview clears the file, the preview and the current image. */
    method RemoveFeaturedPreview()
      modifies this
      ensures previewFeatured == None && featuredImageFile == None
      ensures product == old(product).(featuredImage := Some(""))
      ensures galleryFiles == old(galleryFiles) && previewGallery == old(previewGallery)
      ensures existingGallery == old(existingGallery) && loading == old(loading)
    {
      previewFeatured := None;
      featuredImageFile := None;
      product := product.(featuredImage := Some(""));
    }

    /** Removing the current (stored) featured image clears only the product's image. */
    method RemoveCurrentFeatured()
      modifies this
      ensures product == old(product).(featuredImage := Some(""))
      ensures previewFeatured == old(previewFeatured) && featuredImageFile == old(featuredImageFile)
      ensures galleryFiles == old(galleryFiles) && previewGallery == old(previewGallery)
      ensures existingGallery == old(existingGallery) && loading == old(loading)
    {
      product := product.(featuredImage := Some(""));
    }

    /** Removing gallery preview `idx` removes that index from both the previews and the
        selected files, so they stay aligned. */
    method RemoveGalleryPreview(idx: int)
      modifies this
      ensures previewGallery == RemoveAt(old(previewGallery), idx)
      ensures galleryFiles == RemoveAt(old(galleryFiles), idx)
      ensures old(Aligned()) ==> Aligned()
      ensures product == old(product) && featuredImageFile == old(featuredImageFile)
      ensures previewFeatured == old(previewFeatured) && existingGallery == old(existingGallery)
      ensures loading == old(loading)
    {
      previewGallery := RemoveAt(previewGallery, idx);
      galleryFiles := RemoveAt(galleryFiles, idx);
    }

    /** Removing existing gallery image `idx` removes only that element. */
    method RemoveExisting(idx: int)
      modifies this
      ensures existingGallery == RemoveAt(old(existingGallery), idx)
      ensures product == old(product) && featuredImageFile == old(featuredImageFile)
      ensures galleryFiles == old(galleryFiles) && previewGallery == old(previewGallery)
      ensures previewFeatured == old(previewFeatured) && loading == old(loading)
    {
      existingGallery := RemoveAt(existingGallery, idx);
    }

    /** The gallery loop of `handleSubmit`: uploads the selected files in order, stopping at the
        first failure. */
    method UploadGallery(upload: FileRef -> Option<string>) returns (urls: Option<seq<string>>)
      ensures urls == UploadAll(galleryFiles, upload)
    {
      var acc: seq<string> := [];
      var i := 0;
      while i < |galleryFiles|
        invariant 0 <= i <= |galleryFiles|
        invariant UploadAll(galleryFiles[..i], upload) == Some(acc)
      {
        assert galleryFiles[..i + 1][..i] == galleryFiles[..i];
        var url := upload(galleryFiles[i]);
        if url.None? {
          assert upload(galleryFiles[i]).None?;
          return None;
        }
        acc := acc + [url.value];
        i := i + 1;
      }
      assert galleryFiles[..i] == galleryFiles;
      return Some(acc);
    }

    /** `handleSubmit`: `upload` is the upload call and `requestOk` the outcome of the save. The
        request is sent only when every upload succeeds: an update for an id, else a create,
        after which the form is reset (unless the save failed). An update keeps the form. */
    method HandleSubmit(id: Option<string>, upload: FileRef -> Option<string>, requestOk: bool)
      returns (sent: Option<Request>)
      modifies this
      ensures var p := PayloadFor(old(product), old(featuredImageFile), old(galleryFiles), old(existingGallery), upload);
              sent == if p.None? then None else Some(if Truthy(id) then Update(id.value, p.value) else Create(p.value))
      ensures !loading
      ensures sent.Some? && sent.value.Create? && requestOk ==>
                product == EmptyProduct && featuredImageFile == None && galleryFiles == [] &&
                previewFeatured == None && previewGallery == [] && existingGallery == []
      ensures !(sent.Some? && sent.value.Create? && requestOk) ==>
                product == old(product) && featuredImageFile == old(featuredImageFile) &&
                galleryFiles == old(galleryFiles) && previewFeatured == old(previewFeatured) &&
                previewGallery == old(previewGallery) && existingGallery == old(existingGallery)
    {
      loading := true;
      var featuredUrl: Option<string> := product.featuredImage;
      if featuredImageFile.Some? {
        featuredUrl := upload(featuredImageFile.value);
        if featuredUrl.None? {
          loading := false;
          return None;
        }
      }
      var galleryUrls: seq<string> := [];
      if |galleryFiles| > 0 {
        var uploaded := UploadGallery(upload);
        if uploaded.None? {
          loading := false;
          return None;
        }
        galleryUrls := uploaded.value;
      } else if |existingGallery| > 0 {
        galleryUrls := existingGallery;
      }
      var payload := Payload(product.title, product.description,
                             if Truthy(featuredUrl) then featuredUrl.value else "",
                             if |galleryUrls| > 0 then galleryUrls else []);
      if Truthy(id) {
        sent := Some(Update(id.value, payload));
      } else {
        sent := Some(Create(payload));
        if requestOk {
          Reset();
        }
      }
      loading := false;
    }
  }
}
