/** The subcategory form. It loads and saves through the category endpoints; its submit
    requires a name and then a parent, and its image comes from the image picker. */
module SubCategoryForm {
  import opened Util
  import CategoryForm
  import ImageUpload

  /** The form's `image`: a stored path, a picked file, or null. */
  datatype FormImage = NoImage | Path(path: string) | Picked(file: ImageUpload.FileRef)

  datatype Form = Form(name: string, description: string, image: FormImage, parent: string)

  const InitialForm: Form := Form("", "", NoImage, "")

  /** The preview: `/` and a stored path, a picked file's local URL, or none. */
  datatype Preview = NoPreview | PathPreview(path: string) | FilePreview(file: ImageUpload.FileRef)

  /** The form filled from a loaded record; the parent is normalised as in the category form. */
  function FormOf(c: CategoryForm.Category): (r: Form)
    ensures r.name == c.name && r.description == OrEmpty(c.description)
    ensures r.image == Path(OrEmpty(c.image))
    ensures r.parent == CategoryForm.NormaliseParent(c.parent)
  {
    Form(c.name, OrEmpty(c.description), Path(OrEmpty(c.image)),
         CategoryForm.NormaliseParent(c.parent))
  }

  /** Both forms fill `parent` the same way. */
  lemma SameParentAsCategoryForm(c: CategoryForm.Category)
    ensures FormOf(c).parent == CategoryForm.FormOf(c).parent
  {
  }

  /** The picker's `value` prop: the picked file, or null for a path or no image. */
  function PickerValue(image: FormImage): (r: ImageUpload.Value)
    ensures image.Picked? <==> r.One?
    ensures image.Picked? ==> r.file == image.file
  {
    if image.Picked? then ImageUpload.One(image.file) else ImageUpload.Null
  }

  /** The picker's `onChange`: the first file of a list, a single file as it is, and null for
      a missing file; the new image and the new preview. Only a file gets a preview. */
  function OnPicked(v: ImageUpload.Value): (r: (FormImage, Preview))
    ensures v.One? ==> r == (Picked(v.file), FilePreview(v.file))
    ensures v.Many? && v.files != [] ==> r == (Picked(v.files[0]), FilePreview(v.files[0]))
    ensures v.Null? || (v.Many? && v.files == []) ==> r == (NoImage, NoPreview)
    ensures r.0.Picked? <==> r.1.FilePreview?
  {
    var single: Option<ImageUpload.FileRef> :=
      match v
      case One(f) => Some(f)
      case Many(fs) => if fs != [] then Some(fs[0]) else None
      case Null => None;
    if single.Some? then (Picked(single.value), FilePreview(single.value)) else (NoImage, NoPreview)
  }

  /** Picking one file and passing it back through the picker's prop returns that file. */
  lemma PickRoundTrip(f: ImageUpload.FileRef)
    ensures PickerValue(OnPicked(ImageUpload.One(f)).0) == ImageUpload.One(f)
  {
  }

  /** The body sent on submit. */
  datatype Payload = Payload(name: string, description: string, image: FormImage, parent: string)

  /** Saves go to the category endpoints. */
  datatype Request = CategoryCreate(payload: Payload) | CategoryUpdate(id: string, payload: Payload)

  /** The parent `<select>`: every loaded category, in order, with no filter. */
  function ParentOptions(all: seq<CategoryForm.Category>): seq<CategoryForm.Category> {
    all
  }

  /** The parent options are every category as loaded, the edited record included, whereas the
      category form leaves the edited record out. */
  lemma SelfParentSelectable(all: seq<CategoryForm.Category>, i: nat)
    requires i < |all|
    ensures all[i] in ParentOptions(all)
    ensures all[i] !in CategoryForm.ParentOptions(all, true, Some(all[i].id))
  {
  }

  const MissingName := "Please enter a name."
  const MissingParent := "Please select a parent category."
  const SaveFailed := "Failed to save subcategory."
  const LoadFailed := "Failed to load subcategory"

  class SubCategoryFormState {
    var form: Form
    /** `''` when there is no error. */
    var error: string
    var loading: bool
    var preview: Preview

    constructor ()
      ensures form == InitialForm && error == "" && !loading && preview == NoPreview
    {
      form, error, loading, preview := InitialForm, "", false, NoPreview;
    }

    /** The load in edit mode: on success the form is filled and the preview is `/` and the
        stored path when there is one; on failure only the error is set. */
    method Load(response: Option<CategoryForm.Category>)
      modifies this
      ensures !loading
      ensures response.Some? ==> form == FormOf(response.value) && error == old(error)
      ensures response.Some? ==> preview == (if Truthy(response.value.image) then PathPreview("/" + response.value.image.value) else NoPreview)
      ensures response.None? ==> error == LoadFailed && form == old(form) && preview == old(preview)
    {
      if response.Some? {
        var c := response.value;
        form := FormOf(c);
        preview := if Truthy(c.image) then PathPreview("/" + c.image.value) else NoPreview;
      } else {
        error := LoadFailed;
      }
      loading := false;
    }

    /** The picker's `onChange`. */
    method HandlePicked(v: ImageUpload.Value)
      modifies this
      ensures form == old(form).(image := OnPicked(v).0) && preview == OnPicked(v).1
      ensures error == old(error) && loading == old(loading)
    {
      var (image, p) := OnPicked(v);
      form := form.(image := image);
      preview := p;
    }

    /** `handleSubmit`: an empty name is refused first, then an empty parent, neither sending
        anything; otherwise the save goes to the category update (editing with an id) or create
        call, and fails with the save error when `requestOk` is false. */
    method HandleSubmit(mode: Option<CategoryForm.Mode>, id: Option<string>, requestOk: bool)
      returns (sent: Option<Request>)
      modifies this
      ensures form == old(form)
      ensures old(form).name == "" ==> sent == None && error == MissingName && loading == old(loading)
      ensures old(form).name != "" && old(form).parent == "" ==>
                sent == None && error == MissingParent && loading == old(loading)
      ensures old(form).name != "" && old(form).parent != "" ==>
                var p := Payload(form.name, form.description, form.image, form.parent);
                && sent == Some(if CategoryForm.IsEdit(mode, id) && Truthy(id) then CategoryUpdate(id.value, p) else CategoryCreate(p))
                && error == (if requestOk then "" else SaveFailed)
                && !loading
      ensures sent.Some? ==> sent.value.payload.parent != "" && sent.value.payload.name != ""
    {
      error := "";
      if form.name == "" {
        error := MissingName;
        return None;
      }
      if form.parent == "" {
        error := MissingParent;
        return None;
      }
      loading := true;
      var payload := Payload(form.name, form.description, form.image, form.parent);
      if CategoryForm.IsEdit(mode, id) && Truthy(id) {
        sent := Some(CategoryUpdate(id.value, payload));
      } else {
        sent := Some(CategoryCreate(payload));
      }
      if !requestOk {
        error := SaveFailed;
      }
      loading := false;
    }
  }
}
