/** Image limits, the storage layout, the client-side check of a photo and the storage key of an upload. */
module ImageUtils {
  import opened Common
  import opened Text
  import opened Numerals

  // IMAGE_CONFIG
  const MaxSizeMB: nat := 1
  const MaxBytes: nat := MaxSizeMB * 1024 * 1024
  const MaxWidthOrHeight: nat := 1920
  const AllowedTypes: seq<string> := ["image/jpeg", "image/png", "image/webp", "image/heic", "image/heif"]

  // S3_CONFIG
  const WashesPrefix := "washes"
  const BeforePrefix := "before"
  const AfterPrefix := "after"
  const UploadExpirySeconds: nat := 3600
  const ViewExpirySeconds: nat := 24 * 3600

  const InvalidTypeError := "Invalid file type. Allowed types: " + Join(AllowedTypes, ", ")
  const TooLargeError := "File too large. Maximum size: " + NatToString(MaxSizeMB) + "MB"
  const ProcessingError := "Error processing image"

  /** A browser `File`: its MIME type and its size in bytes. */
  datatype File = File(fileType: string, size: nat)

  /** What the compression library gives back: a new file, or an exception. */
  datatype Compression = Compressed(file: File) | CompressionFailed

  datatype Validation = Validation(isValid: bool, error: Option<string>, compressedFile: Option<File>)

  /** The limits as stated: five image types, one mebibyte, uploads signed for less time than views. */
  lemma Limits()
    ensures MaxBytes == 1048576
    ensures |AllowedTypes| == 5
    ensures forall t :: t in AllowedTypes <==> t in {"image/jpeg", "image/png", "image/webp", "image/heic", "image/heif"}
    ensures UploadExpirySeconds < ViewExpirySeconds && ViewExpirySeconds == 86400
  {
  }

  /**
   * `validateAndCompressImage`, with the compression library as the function
   * `compress`: it is consulted only for an allowed type over the size limit.
   */
  function ValidateAndCompressImage(file: File, compress: File -> Compression): (v: Validation)
    ensures v.isValid <==> v.error.None?
    ensures v.isValid ==> file.fileType in AllowedTypes
    ensures v.isValid ==> v.compressedFile.Some? && v.compressedFile.value.size <= MaxBytes
    ensures file.fileType !in AllowedTypes ==> v.error == Some(InvalidTypeError)
  {
    if file.fileType !in AllowedTypes then
      Validation(false, Some(InvalidTypeError), None)
    else if file.size > MaxBytes then
      match compress(file)
      case CompressionFailed => Validation(false, Some(ProcessingError), None)
      case Compressed(smaller) =>
        if smaller.size > MaxBytes then Validation(false, Some(TooLargeError), None)
        else Validation(true, None, Some(smaller))
    else Validation(true, None, Some(file))
  }

  /** Compression is never attempted for a file of a refused type or one within the limit. */
  lemma CompressionOnlyWhenNeeded(file: File, c1: File -> Compression, c2: File -> Compression)
    requires file.fileType !in AllowedTypes || file.size <= MaxBytes
    ensures ValidateAndCompressImage(file, c1) == ValidateAndCompressImage(file, c2)
  {
  }

  /** A small file of an allowed type passes unchanged. */
  lemma SmallFileUnchanged(file: File, compress: File -> Compression)
    requires file.fileType in AllowedTypes && file.size <= MaxBytes
    ensures ValidateAndCompressImage(file, compress) == Validation(true, None, Some(file))
  {
  }

  /** A large file of an allowed type stands or falls with its compressed size; an exception is a processing error. */
  lemma LargeFileCompressed(file: File, compress: File -> Compression)
    requires file.fileType in AllowedTypes && file.size > MaxBytes
    ensures var v := ValidateAndCompressImage(file, compress);
      match compress(file)
      case CompressionFailed => v.error == Some(ProcessingError)
      case Compressed(smaller) =>
        (v.isValid <==> smaller.size <= MaxBytes)
        && (v.isValid ==> v.compressedFile == Some(smaller))
        && (!v.isValid ==> v.error == Some(TooLargeError))
  {
  }

  /**
   * `washes[imageType + 'Prefix']`: the configured segment for `before` and
   * `after`; any other value reads a missing property, printed as "undefined".
   */
  function SlotSegment(imageType: string): (s: string)
    ensures imageType == "before" ==> s == "before"
    ensures imageType == "after" ==> s == "after"
    ensures imageType != "before" && imageType != "after" ==> s == "undefined"
    ensures '/' !in s
  {
    if imageType == "before" then BeforePrefix
    else if imageType == "after" then AfterPrefix
    else "undefined"
  }

  /** `new Date().toISOString().split('T')[0]` */
  function DatePart(isoNow: string): string {
    Split(isoNow, 'T')[0]
  }

  /** `generateS3Key`, with the clock's ISO text passed in. */
  function GenerateS3Key(userId: string, imageType: string, fileName: string, isoNow: string): string {
    Join([WashesPrefix, userId, DatePart(isoNow), SlotSegment(imageType), fileName], "/")
  }

  /** `YYYY-MM-DDTHH:mm:ss.sssZ`, the form `toISOString` gives for years 0 to 9999. */
  predicate IsIsoTimestamp(s: string) {
    && |s| == 24
    && (forall i :: 0 <= i < 24 && i !in {4, 7, 10, 13, 16, 19, 23} ==> IsDigit(s[i]))
    && s[4] == '-' && s[7] == '-' && s[10] == 'T' && s[13] == ':' && s[16] == ':' && s[19] == '.' && s[23] == 'Z'
  }

  /** The date partition of an ISO timestamp is its first ten characters, `YYYY-MM-DD`. */
  lemma IsoDatePart(s: string)
    requires IsIsoTimestamp(s)
    ensures DatePart(s) == s[..10]
    ensures '/' !in s
  {
    SplitFirstAtLeast(s, 'T', 10);
    SplitFirst(s, 'T');
    var first := Split(s, 'T')[0];
    assert |first| <= 10;
    assert s[..10] == first;
    assert forall i :: 0 <= i < |s| ==> s[i] != '/' by {
      forall i | 0 <= i < |s| ensures s[i] != '/' {
        if i !in {4, 7, 10, 13, 16, 19, 23} { assert IsDigit(s[i]); }
      }
    }
  }

  /**
   * The key can be taken apart again: when the user id, the file name and
   * the timestamp hold no `/` (an ISO timestamp never does), splitting the key on `/` gives exactly the five segments
   * washes, user, date, slot, file name.
   */
  lemma KeySegments(userId: string, imageType: string, fileName: string, isoNow: string)
    requires '/' !in userId && '/' !in fileName && '/' !in isoNow
    ensures Split(GenerateS3Key(userId, imageType, fileName, isoNow), '/')
            == [WashesPrefix, userId, DatePart(isoNow), SlotSegment(imageType), fileName]
  {
    var parts := [WashesPrefix, userId, DatePart(isoNow), SlotSegment(imageType), fileName];
    assert '/' !in DatePart(isoNow) by {
      var first := Split(isoNow, 'T')[0];
      SplitFirst(isoNow, 'T');
      assert isoNow[..|first|] == first;
      forall c | c in first ensures c in isoNow { }
    }
    SplitJoin(parts, '/');
  }
}
