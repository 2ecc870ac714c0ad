/**
 * `POST /api/upload`: a washer asks for a pre-signed URL to put one photo
 * into storage and another to view it. The signer is the function `presign`
 * (`None` is a thrown error), `random` the 16 random bytes of the file name
 * and `isoNow` the clock's ISO text.
 */
module UploadRoute {
  import opened Common
  import opened Text
  import opened Numerals
  import opened Sessions
  import opened ImageUtils

  datatype UploadBody = UploadBody(fileType: string, imageType: string, fileSize: Option<int>)

  datatype Metadata = Metadata(originalFilename: string, uploadDate: string, userId: string, imageType: string)

  /** The two commands handed to the signer. */
  datatype Command =
    | PutObject(key: string, contentType: string, metadata: Metadata, expiresIn: nat)
    | GetObject(key: string, expiresIn: nat)

  datatype Response =
    | Urls(uploadUrl: string, key: string, viewUrl: string)
    | Failure(status: nat, error: string)

  const UnauthorizedError := "Unauthorized"
  const SignError := "Failed to generate upload URL"

  /** `fileType.split('/')[1]`, printed as "undefined" when there is no `/`. */
  function Extension(fileType: string): (ext: string)
    ensures '/' !in ext
  {
    var parts := Split(fileType, '/');
    if |parts| >= 2 then parts[1] else "undefined"
  }

  /** `${hex}.${extension}` */
  function FileName(random: seq<byte>, fileType: string): string {
    Hex(random) + "." + Extension(fileType)
  }

  /** The size guard: `fileSize > max` is false for a missing size, so only a present, larger size fails. */
  predicate TooLarge(fileSize: Option<int>) {
    fileSize.Some? && fileSize.value > MaxBytes
  }

  function Post(session: Option<Session>, body: Option<UploadBody>, random: seq<byte>, isoNow: string,
                presign: Command -> Option<string>): (r: Response)
    ensures r.Urls? ==> (HasRole(session, WasherRole) && body.Some?
      && body.value.fileType in AllowedTypes && !TooLarge(body.value.fileSize))
    ensures !HasRole(session, WasherRole) ==> r == Failure(401, UnauthorizedError)
    ensures r.Failure? ==> r.status in {400, 401, 500}
  {
    if !HasRole(session, WasherRole) then Failure(401, UnauthorizedError)
    else if body.None? then Failure(500, SignError)
    else
      var b := body.value;
      if b.fileType !in AllowedTypes then Failure(400, InvalidTypeError)
      else if TooLarge(b.fileSize) then Failure(400, TooLargeError)
      else
        var fileName := FileName(random, b.fileType);
        var user := GateUser(session, WasherRole);
        if user.id.None? then Failure(500, SignError)
        else
          var key := GenerateS3Key(user.id.value, b.imageType, fileName, isoNow);
          var put := PutObject(key, b.fileType, Metadata(fileName, isoNow, user.id.value, b.imageType), UploadExpirySeconds);
          match presign(put)
          case None => Failure(500, SignError)
          case Some(uploadUrl) =>
            match presign(GetObject(key, ViewExpirySeconds))
            case None => Failure(500, SignError)
            case Some(viewUrl) => Urls(uploadUrl, key, viewUrl)
  }

  /** A caller who is not a signed-in washer gets 401 and the signer is never asked. */
  lemma UnauthorizedNeverSigns(session: Option<Session>, body: Option<UploadBody>, random: seq<byte>, isoNow: string,
                               p1: Command -> Option<string>, p2: Command -> Option<string>)
    requires !HasRole(session, WasherRole)
    ensures Post(session, body, random, isoNow, p1) == Post(session, body, random, isoNow, p2) == Failure(401, UnauthorizedError)
  {
  }

  /** The type is checked before the size: a refused type reports the type error whatever the size, without signing. */
  lemma TypeCheckedFirst(session: Option<Session>, b: UploadBody, random: seq<byte>, isoNow: string,
                         presign: Command -> Option<string>)
    requires HasRole(session, WasherRole) && b.fileType !in AllowedTypes
    ensures Post(session, Some(b), random, isoNow, presign) == Failure(400, InvalidTypeError)
  {
  }

  /** Plain text is refused with 400. */
  lemma PlainTextRefused(session: Option<Session>, b: UploadBody, random: seq<byte>, isoNow: string,
                         presign: Command -> Option<string>)
    requires HasRole(session, WasherRole) && b.fileType == "text/plain"
    ensures Post(session, Some(b), random, isoNow, presign).status == 400
  {
    assert "text/plain"[0] == 't';
  }

  /**
   * Every size above the limit is refused with 400; exactly one mebibyte
   * still passes the size check.
   */
  lemma SizeBoundary(session: Option<Session>, b: UploadBody, random: seq<byte>, isoNow: string,
                     presign: Command -> Option<string>)
    requires HasRole(session, WasherRole) && b.fileType in AllowedTypes
    ensures TooLarge(b.fileSize) ==> Post(session, Some(b), random, isoNow, presign) == Failure(400, TooLargeError)
    ensures b.fileSize == Some(1048577) ==> TooLarge(b.fileSize)
    ensures b.fileSize == Some(1048576) ==> Post(session, Some(b), random, isoNow, presign) != Failure(400, TooLargeError)
  {
    if b.fileSize == Some(1048576) {
      assert TooLargeError != SignError by { assert TooLargeError[1] != SignError[1]; }
    }
  }

  /**
   * A successful answer: the key is the storage key of a fresh file name for
   * this washer and slot, the upload URL signs a one-hour PUT of that key
   * with the requested content type, and the view URL a one-day GET of it.
   */
  lemma SuccessShape(session: Option<Session>, b: UploadBody, random: seq<byte>, isoNow: string,
                     presign: Command -> Option<string>)
    requires Post(session, Some(b), random, isoNow, presign).Urls?
    ensures var r := Post(session, Some(b), random, isoNow, presign);
      var id := GateUser(session, WasherRole).id;
      && id.Some?
      && r.key == GenerateS3Key(id.value, b.imageType, FileName(random, b.fileType), isoNow)
      && (exists md :: presign(PutObject(r.key, b.fileType, md, UploadExpirySeconds)) == Some(r.uploadUrl))
      && presign(GetObject(r.key, ViewExpirySeconds)) == Some(r.viewUrl)
  {
    var id := GateUser(session, WasherRole).id.value;
    var fileName := FileName(random, b.fileType);
    var md := Metadata(fileName, isoNow, id, b.imageType);
    var key := GenerateS3Key(id, b.imageType, fileName, isoNow);
    assert presign(PutObject(key, b.fileType, md, UploadExpirySeconds)).Some?;
  }

  /**
   * Past the checks, the answer is the two URLs or a 500: a signer failure
   * on either URL, the upload one or the view one, is a 500.
   */
  lemma SignerFailure(session: Option<Session>, b: UploadBody, random: seq<byte>, isoNow: string,
                      presign: Command -> Option<string>)
    requires HasRole(session, WasherRole) && b.fileType in AllowedTypes && !TooLarge(b.fileSize)
    ensures !Post(session, Some(b), random, isoNow, presign).Urls? ==>
      Post(session, Some(b), random, isoNow, presign) == Failure(500, SignError)
  {
  }

  /** The extension of each allowed type is its subtype. */
  lemma AllowedExtensions()
    ensures Extension("image/jpeg") == "jpeg" && Extension("image/png") == "png"
    ensures Extension("image/webp") == "webp" && Extension("image/heic") == "heic"
    ensures Extension("image/heif") == "heif"
  {
    SubtypeExtension("jpeg");
    assert "image/" + "jpeg" == "image/jpeg";
    SubtypeExtension("png");
    assert "image/" + "png" == "image/png";
    SubtypeExtension("webp");
    assert "image/" + "webp" == "image/webp";
    SubtypeExtension("heic");
    assert "image/" + "heic" == "image/heic";
    SubtypeExtension("heif");
    assert "image/" + "heif" == "image/heif";
  }

  lemma SubtypeExtension(sub: string)
    requires '/' !in sub
    ensures Extension("image/" + sub) == sub
  {
    assert Join(["image", sub], "/") == "image/" + sub by {
      assert ["image", sub][1..] == [sub];
    }
    SplitJoin(["image", sub], '/');
  }

  /**
   * The key of a successful upload splits on `/` into washes, the washer's
   * id, the upload date, the slot, and a file name of 32 hex digits, a dot
   * and the extension.
   */
  lemma UploadKeySegments(session: Option<Session>, b: UploadBody, random: seq<byte>, isoNow: string,
                          presign: Command -> Option<string>)
    requires |random| == 16
    requires IsIsoTimestamp(isoNow)
    requires Post(session, Some(b), random, isoNow, presign).Urls?
    requires '/' !in GateUser(session, WasherRole).id.value
    ensures Split(Post(session, Some(b), random, isoNow, presign).key, '/')
      == [WashesPrefix, GateUser(session, WasherRole).id.value, isoNow[..10], SlotSegment(b.imageType),
          Hex(random) + "." + Extension(b.fileType)]
    ensures |Hex(random)| == 32
  {
    var id := GateUser(session, WasherRole).id.value;
    var fileName := FileName(random, b.fileType);
    SuccessShape(session, b, random, isoNow, presign);
    FileNameHasNoSlash(random, b.fileType);
    IsoDatePart(isoNow);
    KeySegments(id, b.imageType, fileName, isoNow);
    assert Post(session, Some(b), random, isoNow, presign).key == GenerateS3Key(id, b.imageType, fileName, isoNow);
  }

  lemma FileNameHasNoSlash(random: seq<byte>, fileType: string)
    ensures '/' !in FileName(random, fileType)
  {
    var h := Hex(random);
    forall i | 0 <= i < |h| ensures h[i] != '/' {
      assert h[i] in HexDigits;
    }
  }
}
