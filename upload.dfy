/**
 * The upload zone's file checks: which dropped or chosen file reaches
 * `onFileSelected`, and which alert is raised instead.
 */
module Upload {
  import opened Wrappers

  /** A browser `File`, reduced to what the upload zone and the app look at. */
  datatype File = File(name: string, mimeType: string, size: nat)

  /** The size ceiling: 5 MiB, `5 * 1024 * 1024` bytes. */
  const MaxFileSize: nat := 5 * 1024 * 1024

  const ImageTypePrefix: string := "image/"

  const WrongTypeAlert: string := "Please upload an image file (JPG, PNG, WEBP)."

  const TooLargeAlert: string := "File size too large. Please upload an image under 5MB."

  /** JavaScript's `s.startsWith(prefix)`. */
  predicate StartsWith(s: string, prefix: string)
    ensures StartsWith(s, prefix) <==> |prefix| <= |s| && forall i :: 0 <= i < |prefix| ==> s[i] == prefix[i]
  {
    |prefix| <= |s| && s[..|prefix|] == prefix
  }

  /** What one call of the validation does: raise an alert, or hand the file on. */
  datatype Verdict = Alert(message: string) | Forward(file: File)

  /** The file handed to `onFileSelected`, if any. */
  function Forwarded(v: Option<Verdict>): Option<File> {
    if v.Some? && v.value.Forward? then Some(v.value.file) else None
  }

  /**
   * The guard chain of the upload zone: the type check comes first and a
   * wrong type is refused whatever the size; then the size ceiling, which
   * is inclusive.
   */
  function ValidateAndPassFile(file: File): (v: Verdict)
    ensures v.Forward? <==> StartsWith(file.mimeType, ImageTypePrefix) && file.size <= MaxFileSize
    ensures v.Forward? ==> v.file == file
    ensures !StartsWith(file.mimeType, ImageTypePrefix) ==> v == Alert(WrongTypeAlert)
    ensures StartsWith(file.mimeType, ImageTypePrefix) && file.size > MaxFileSize ==> v == Alert(TooLargeAlert)
  {
    if !StartsWith(file.mimeType, ImageTypePrefix) then Alert(WrongTypeAlert)
    else if file.size > MaxFileSize then Alert(TooLargeAlert)
    else Forward(file)
  }

  /**
   * A drop: nothing happens while the zone is disabled, or when the drop
   * carries no file list or an empty one; otherwise only the first file is
   * validated.
   */
  function HandleDrop(disabled: bool, files: Option<seq<File>>): (v: Option<Verdict>)
    ensures v.Some? <==> !disabled && files.Some? && |files.value| > 0
    ensures v.Some? ==> v.value == ValidateAndPassFile(files.value[0])
  {
    if disabled then None
    else if files.Some? && |files.value| > 0 then Some(ValidateAndPassFile(files.value[0]))
    else None
  }

  /**
   * A change of the hidden file input: only the first chosen file is
   * validated; the `disabled` flag is not consulted here.
   */
  function HandleFileChange(files: Option<seq<File>>): (v: Option<Verdict>)
    ensures v.Some? <==> files.Some? && |files.value| > 0
    ensures v.Some? ==> v.value == ValidateAndPassFile(files.value[0])
  {
    if files.Some? && |files.value| > 0 then Some(ValidateAndPassFile(files.value[0])) else None
  }

  /** A file reaches `onFileSelected` through a drop exactly when it is the
      first file of an enabled drop and passes both checks. */
  lemma DropForwardsExactlyValidFirstFile(disabled: bool, files: Option<seq<File>>, f: File)
    ensures Forwarded(HandleDrop(disabled, files)) == Some(f) <==>
      !disabled && files.Some? && |files.value| > 0 && files.value[0] == f &&
      StartsWith(f.mimeType, ImageTypePrefix) && f.size <= MaxFileSize
  {
  }

  /** The same for the file input. */
  lemma ChangeForwardsExactlyValidFirstFile(files: Option<seq<File>>, f: File)
    ensures Forwarded(HandleFileChange(files)) == Some(f) <==>
      files.Some? && |files.value| > 0 && files.value[0] == f &&
      StartsWith(f.mimeType, ImageTypePrefix) && f.size <= MaxFileSize
  {
  }

  /** Files after the first one never matter. */
  lemma OnlyFirstFileCounts(disabled: bool, f: File, rest: seq<File>, rest': seq<File>)
    ensures HandleDrop(disabled, Some([f] + rest)) == HandleDrop(disabled, Some([f] + rest'))
    ensures HandleFileChange(Some([f] + rest)) == HandleFileChange(Some([f] + rest'))
  {
  }

  /** The size boundary: exactly 5242880 bytes passes, one more byte is refused. */
  lemma SizeBoundary(name: string, mimeType: string)
    requires StartsWith(mimeType, ImageTypePrefix)
    ensures ValidateAndPassFile(File(name, mimeType, 5242880)) == Forward(File(name, mimeType, 5242880))
    ensures ValidateAndPassFile(File(name, mimeType, 5242881)) == Alert(TooLargeAlert)
  {
  }
}
