/**
 * The profile-image picker: a chosen file is silently ignored unless its MIME type
 * starts with "image/" and it is at most 5 MB; an accepted file is handed to the
 * parent's `onChange` once it has been encoded. The encoding (a FileReader) is a
 * parameter: the encoded text, or None when reading failed.
 */
module ImageUpload {
  import opened Wrappers
  import opened Strings

  const MaxImageBytes: nat := 5 * 1024 * 1024

  datatype SelectedFile = SelectedFile(mimeType: string, size: nat)

  datatype FileCheck = NoFile | NotAnImage | TooLarge | Accepted

  /** The early returns of `handleFileChange`, in their order. */
  function CheckFile(file: Option<SelectedFile>): (c: FileCheck)
    ensures c == Accepted <==>
              file.Some? && StartsWith(file.value.mimeType, "image/") && file.value.size <= MaxImageBytes
    ensures c == NoFile <==> file.None?
    ensures c == NotAnImage <==> file.Some? && !StartsWith(file.value.mimeType, "image/")
    ensures c == TooLarge <==>
              file.Some? && StartsWith(file.value.mimeType, "image/") && file.value.size > MaxImageBytes
  {
    if file.None? then NoFile
    else if !StartsWith(file.value.mimeType, "image/") then NotAnImage
    else if file.value.size > MaxImageBytes then TooLarge
    else Accepted
  }

  /** The 5 MB bound itself is accepted and one byte more is not. */
  lemma SizeBoundary(mimeType: string)
    requires StartsWith(mimeType, "image/")
    ensures CheckFile(Some(SelectedFile(mimeType, 5242880))) == Accepted
    ensures CheckFile(Some(SelectedFile(mimeType, 5242881))) == TooLarge
  {
  }

  class ImageUploadField {
    /** The values passed to the parent's `onChange`, oldest first. */
    var emitted: seq<Option<string>>
    /** The file input's `value`. */
    var inputValue: string

    constructor ()
      ensures emitted == [] && inputValue == ""
    {
      emitted := [];
      inputValue := "";
    }

    /** handleFileChange: `onChange(base64)` once for an accepted, readable file, nothing otherwise. */
    method HandleFileChange(file: Option<SelectedFile>, encoded: Option<string>)
      modifies this`emitted
      ensures CheckFile(file) == Accepted && encoded.Some? ==> emitted == old(emitted) + [encoded]
      ensures CheckFile(file) != Accepted || encoded.None? ==> emitted == old(emitted)
    {
      if file.Some? {
        if !StartsWith(file.value.mimeType, "image/") {
          return;
        }
        if file.value.size > MaxImageBytes {
          return;
        }
        if encoded.Some? {
          emitted := emitted + [encoded];
        }
      }
    }

    /** handleRemove: `onChange(null)` and the input cleared. */
    method HandleRemove()
      modifies this`emitted, this`inputValue
      ensures emitted == old(emitted) + [None] && inputValue == ""
    {
      emitted := emitted + [None];
      inputValue := "";
    }
  }
}
