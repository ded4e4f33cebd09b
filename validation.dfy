/**
 * `validateAudioFile`: the checks an imported file must pass, in order.
 * The file's attributes and its path extension are inputs: reading them
 * is the file system's business.
 */
module Validation {
  import opened Wrappers
  import opened Text

  /** 2.5 MB: 2.5 * 1024 * 1024 bytes. */
  const MaxFileSize: int := 2_621_440

  const SupportedFormats: seq<string> := ["mp3", "wav", "m4a", "aiff", "aac", "flac", "ogg"]

  /**
   * What `attributesOfItem(atPath:)` gives: it throws (Unreadable), or it
   * returns attributes whose `.size` entry may be missing.
   */
  datatype Attributes = Unreadable | Readable(size: Option<int>)

  /** The byte count is carried where the source carries megabytes for display. */
  datatype ValidationError = FileTooLarge(size: int) | UnsupportedFormat(format: string) | FileAccessError

  /** The file passes: its attributes can be read, it is small enough, its format is supported. */
  predicate Acceptable(attributes: Attributes, pathExtension: string) {
    && attributes.Readable?
    && (attributes.size.None? || attributes.size.value <= MaxFileSize)
    && Lower(pathExtension) in SupportedFormats
  }

  function ValidateAudioFile(attributes: Attributes, pathExtension: string): (error: Option<ValidationError>)
    ensures error.None? <==> Acceptable(attributes, pathExtension)
    ensures error == Some(FileAccessError) <==> attributes.Unreadable?
    // size is checked before format: a too-large file is reported as too large
    ensures (error.Some? && error.value.FileTooLarge?) <==>
              attributes.Readable? && attributes.size.Some? && attributes.size.value > MaxFileSize
    ensures error.Some? && error.value.FileTooLarge? ==> error.value.size == attributes.size.value
    ensures (error.Some? && error.value.UnsupportedFormat?) <==>
              && attributes.Readable?
              && (attributes.size.None? || attributes.size.value <= MaxFileSize)
              && Lower(pathExtension) !in SupportedFormats
    ensures error.Some? && error.value.UnsupportedFormat? ==> error.value.format == Lower(pathExtension)
  {
    match attributes
    case Unreadable => Some(FileAccessError)
    case Readable(size) =>
      if size.Some? && size.value > MaxFileSize then
        Some(FileTooLarge(size.value))
      else if Lower(pathExtension) !in SupportedFormats then
        Some(UnsupportedFormat(Lower(pathExtension)))
      else
        None
  }
}
