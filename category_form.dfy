/** The category form: edit detection, normalising a loaded parent, the parent options, and
    the submit rules (an image is required; an empty parent is sent as null). */
module CategoryForm {
  import opened Util

  datatype Mode = Add | Edit

  /** `isEdit`: the mode prop is `edit`, or the route carries an id. */
  function IsEdit(mode: Option<Mode>, id: Option<string>): (r: bool)
    ensures r <==> mode == Some(Edit) || (id.Some? && id.value != "")
  {
    mode == Some(Edit) || Truthy(id)
  }

  /** A category's `parent` as the API returns it: populated as an object, a bare id string, or
      null / missing. */
  datatype ParentValue = Populated(id: string) | Bare(s: string) | NoParent

  /** The parent as the form holds it: an object becomes its `_id`, a string stays, null or
      missing becomes `''`. (An object is always truthy.) */
  function NormaliseParent(p: ParentValue): (r: string)
    ensures p.Populated? ==> r == p.id
    ensures p.Bare? ==> r == p.s
    ensures p.NoParent? ==> r == ""
  {
    match p
    case Populated(id) => id
    case Bare(s) => if s != "" then s else ""
    case NoParent => ""
  }

  /** A category as `getById` and `getAll` return it. */
  datatype Category = Category(id: string, name: string, description: Option<string>,
                               image: Option<string>, parent: ParentValue)

  datatype Form = Form(name: string, description: string, image: string, parent: string)

  const InitialForm: Form := Form("", "", "", "")

  /** The form filled from a loaded category. */
  function FormOf(c: Category): (r: Form)
    ensures r.name == c.name && r.description == OrEmpty(c.description)
    ensures r.image == OrEmpty(c.image) && r.parent == NormaliseParent(c.parent)
  {
    Form(c.name, OrEmpty(c.description), OrEmpty(c.image), NormaliseParent(c.parent))
  }

  /** Loading a category whose parent was saved through this form gives back the parent the
      form held. */
  lemma ParentRoundTrip(parent: string)
    ensures NormaliseParent(if parent != "" then Bare(parent) else NoParent) == parent
  {
  }

  /** The parent options: every category, except the one being edited in edit mode. */
  function ParentOptions(all: seq<Category>, isEdit: bool, id: Option<string>): (r: seq<Category>)
    ensures isEdit && id.Some? ==> forall i :: 0 <= i < |r| ==> r[i].id != id.value
    ensures forall c :: c in r <==> c in all && !(isEdit && id == Some(c.id))
    ensures IsSubsequence(r, all)
  {
    var keep := (c: Category) => !isEdit || id != Some(c.id);
    FilterIsSubsequence(all, keep);
    var r := Filter(all, keep);
    assert forall c :: c in r <==> multiset(r)[c] > 0;
    r
  }

  /** Outside edit mode the options are all categories. */
  lemma {:induction false} AddModeKeepsAll(all: seq<Category>, id: Option<string>)
    ensures ParentOptions(all, false, id) == all
  {
    if all != [] {
      AddModeKeepsAll(all[1..], id);
    }
  }

  /** The body sent on submit: exactly these four fields. */
  datatype Payload = Payload(name: string, description: string, image: string, parent: Option<string>)

  /** `payload`, with `parent` null when the form's parent is `''`. */
  function PayloadOf(f: Form): (r: Payload)
    ensures r.name == f.name && r.description == f.description && r.image == f.image
    ensures r.parent == None <==> f.parent == ""
    ensures r.parent.Some? ==> r.parent.value == f.parent
  {
    Payload(f.name, f.description, f.image, if f.parent != "" then Some(f.parent) else None)
  }

  datatype Request = Create(payload: Payload) | Update(id: string, payload: Payload)

  /** The request a submit sends: update of the route id when editing with an id, else create. */
  function RequestFor(f: Form, mode: Option<Mode>, id: Option<string>): (r: Request)
    ensures r.payload == PayloadOf(f)
    ensures r.Update? <==> IsEdit(mode, id) && Truthy(id)
    ensures r.Update? ==> r.id == id.value
  {
    if IsEdit(mode, id) && Truthy(id) then Update(id.value, PayloadOf(f)) else Create(PayloadOf(f))
  }

  /** Edit mode without a route id still creates. */
  lemma EditWithoutIdCreates(f: Form)
    ensures IsEdit(Some(Edit), None) && RequestFor(f, Some(Edit), None).Create?
  {
  }

  const MissingImage := "Please upload an image before submitting."
  const SaveFailed := "Failed to save category."
  const LoadFailed := "Failed to load category"
  const UploadFailed := "Image upload failed"

  /** The inputs wired to `handleChange`, by their `name` attribute. */
  datatype Field = Name | Description | Parent

  /** `setForm(prev => ({ ...prev, [name]: value }))` */
  function Assign(f: Form, field: Field, value: string): (r: Form)
    ensures field == Name ==> r == f.(name := value)
    ensures field == Description ==> r == f.(description := value)
    ensures field == Parent ==> r == f.(parent := value)
    ensures r.image == f.image
  {
    match field
    case Name => f.(name := value)
    case Description => f.(description := value)
    case Parent => f.(parent := value)
  }

  class CategoryFormState {
    var form: Form
    /** `''` when there is no error. */
    var error: string
    var loading: bool
    /** The image preview: `/` and the stored path, a picked file's local URL, or none. */
    var preview: Option<string>

    constructor ()
      ensures form == InitialForm && error == "" && !loading && preview == None
    {
      form, error, loading, preview := InitialForm, "", false, None;
    }

    /** The load in edit mode: on success the form is filled from the category and the preview
        is `/` and its image path (the path's `replace` changes nothing); on failure only the
        error is set. */
    method Load(response: Option<Category>)
      modifies this
      ensures !loading
      ensures response.Some? ==> form == FormOf(response.value) && error == old(error)
      ensures response.Some? ==> preview == (if Truthy(response.value.image) then Some("/" + response.value.image.value) else None)
      ensures response.None? ==> error == LoadFailed && form == old(form) && preview == old(preview)
    {
      if response.Some? {
        var c := response.value;
        form := FormOf(c);
        preview := if Truthy(c.image) then Some("/" + c.image.value) else None;
      } else {
        error := LoadFailed;
      }
      loading := false;
    }

    /** `handleChange`: only the named field changes. */
    method HandleChange(field: Field, value: string)
      modifies this
      ensures form == Assign(old(form), field, value)
      ensures error == old(error) && loading == old(loading) && preview == old(preview)
    {
      form := Assign(form, field, value);
    }

    /** `handleFileChange` for a picked file with local URL `localUrl`; `uploaded` is the URL the
        upload returned, or `None` when it failed. */
    method HandleFileChange(localUrl: string, uploaded: Option<string>)
      modifies this
      ensures preview == Some(localUrl)
      ensures uploaded.Some? ==> form == old(form).(image := uploaded.value) && error == old(error)
      ensures uploaded.None? ==> form == old(form) && error == UploadFailed
      ensures loading == old(loading)
    {
      preview := Some(localUrl);
      if uploaded.Some? {
        form := form.(image := uploaded.value);
      } else {
        error := UploadFailed;
      }
    }

    /** `handleSubmit`: without an image, an error and no request; otherwise the request for the
        form, and the save error when it fails (`requestOk` is its outcome). */
    method HandleSubmit(mode: Option<Mode>, id: Option<string>, requestOk: bool) returns (sent: Option<Request>)
      modifies this
      ensures form == old(form)
      ensures old(form).image == "" ==> sent == None && error == MissingImage && loading == old(loading)
      ensures old(form).image != "" ==>
                && sent == Some(RequestFor(form, mode, id))
                && error == (if requestOk then "" else SaveFailed)
                && !loading
    {
      error := "";
      if form.image == "" {
        error := MissingImage;
        return None;
      }
      loading := true;
      var payload := Payload(form.name, form.description, form.image, None);
      if form.parent != "" {
        payload := payload.(parent := Some(form.parent));
      }
      if IsEdit(mode, id) && Truthy(id) {
        sent := Some(Update(id.value, payload));
      } else {
        sent := Some(Create(payload));
      }
      if !requestOk {
        error := SaveFailed;
      }
      loading := false;
    }
  }
}
