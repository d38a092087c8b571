/** The image picker component: merging the compression options, what it reports after a
    selection, and what it reports after a removal. */
module ImageUpload {
  import opened Util

  /** A picked file; its contents are not inspected. */
  datatype FileRef = FileRef(name: string)

  /** What the component reports through `onChange`: one file, a list, or null. */
  datatype Value = One(file: FileRef) | Many(files: seq<FileRef>) | Null

  /** The compression options. */
  datatype Options = Options(maxSizeMB: real, maxWidthOrHeight: real, useWebWorker: bool)

  const DefaultOptions: Options := Options(1.0, 1024.0, true)

  /** A numeric prop is truthy when it is given and not zero. */
  predicate NumTruthy(v: Option<real>) { v.Some? && v.value != 0.0 }

  /** The defaults, with each size prop overriding its default only when truthy. */
  function MergeOptions(maxSizeMB: Option<real>, maxWidthOrHeight: Option<real>): (r: Options)
    ensures r.useWebWorker
    ensures r.maxSizeMB == if NumTruthy(maxSizeMB) then maxSizeMB.value else 1.0
    ensures r.maxWidthOrHeight == if NumTruthy(maxWidthOrHeight) then maxWidthOrHeight.value else 1024.0
  {
    var o := DefaultOptions;
    var o := if NumTruthy(maxSizeMB) then o.(maxSizeMB := maxSizeMB.value) else o;
    if NumTruthy(maxWidthOrHeight) then o.(maxWidthOrHeight := maxWidthOrHeight.value) else o
  }

  /** Without props, or with zero props, the defaults are used unchanged. */
  lemma MergeDefaults()
    ensures MergeOptions(None, None) == DefaultOptions
    ensures MergeOptions(Some(0.0), Some(0.0)) == DefaultOptions
  {
  }

  /** `handleChange`: `files` is the input's file list (`None` when there is none), `compress`
      the compression library. The result is the value passed to `onChange`, or `None` when it
      is not called: without a file list, and in single mode with an empty list (compressing
      the missing first file fails). Multiple mode reports one compressed file per input file,
      in order. */
  function HandleChange(files: Option<seq<FileRef>>, multiple: bool, maxSizeMB: Option<real>,
                        maxWidthOrHeight: Option<real>, compress: (FileRef, Options) -> FileRef): (r: Option<Value>)
    ensures files.None? ==> r.None?
    ensures files.Some? && multiple ==>
              && r.Some? && r.value.Many? && |r.value.files| == |files.value|
              && forall i :: 0 <= i < |files.value| ==>
                   r.value.files[i] == compress(files.value[i], MergeOptions(maxSizeMB, maxWidthOrHeight))
    ensures files.Some? && !multiple && files.value == [] ==> r.None?
    ensures files.Some? && !multiple && files.value != [] ==>
              r == Some(One(compress(files.value[0], MergeOptions(maxSizeMB, maxWidthOrHeight))))
  {
    if files.None? then None
    else
      var options := MergeOptions(maxSizeMB, maxWidthOrHeight);
      var fs := files.value;
      if multiple then Some(Many(seq(|fs|, i requires 0 <= i < |fs| => compress(fs[i], options))))
      else if fs == [] then None
      else Some(One(compress(fs[0], options)))
  }

  /** `handleRemove(idx)`: in multiple mode with a list, the list without index `idx` (an
      undefined index removes nothing), or null when nothing is left; otherwise null. */
  function HandleRemove(multiple: bool, value: Value, idx: Option<int>): (r: Value)
    ensures !(multiple && value.Many?) ==> r == Null
    ensures multiple && value.Many? ==>
              var kept := if idx.Some? then RemoveAt(value.files, idx.value) else value.files;
              r == if kept == [] then Null else Many(kept)
  {
    if multiple && value.Many? then
      var kept := if idx.Some? then RemoveAt(value.files, idx.value) else value.files;
      if kept != [] then Many(kept) else Null
    else Null
  }

  /** Removing index `idx` of a list keeps the other files in order. */
  lemma RemoveKeepsOthers(files: seq<FileRef>, idx: nat)
    requires idx < |files| && |files| > 1
    ensures HandleRemove(true, Many(files), Some(idx)) == Many(files[..idx] + files[idx + 1..])
  {
    var r := RemoveAt(files, idx);
    assert r == files[..idx] + files[idx + 1..];
  }

  /** Removing the only file reports null rather than an empty list. */
  lemma RemoveLast(f: FileRef)
    ensures HandleRemove(true, Many([f]), Some(0)) == Null
  {
  }
}
