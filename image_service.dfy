/**
 * The image service (`ImageServiceImpl`): the type guessed from a content
 * type, the `.glb` override applied to uploads, and `update`, which renames
 * an image and rewrites its note. Documents are returned through the image
 * mapper, which fills in a missing thumbnail from the image URL.
 */
module ImageService {
  import opened Wrappers
  import opened Strings
  import opened DriveTypes
  import opened ThumbnailUrl
  import opened DriveSync
  import opened DriveUpload

  /** `determineImageType(contentType)`: the lower-cased content type picks the type; unknown types are plain images. */
  function DetermineImageType(contentType: Option<string>): (r: ImageType)
    ensures contentType.None? ==> r == NORMAL
    ensures r == MODEL_3D <==> contentType.Some? && ToLower(contentType.value) in {"image/3d", "model/3d"}
    ensures r == PHOTO_360 <==> contentType.Some? && ToLower(contentType.value) in {"image/360", "image/panorama"}
  {
    if contentType.None? then NORMAL
    else
      var t := ToLower(contentType.value);
      if t in {"image/jpeg", "image/jpg", "image/png", "image/gif", "image/webp"} then NORMAL
      else if t in {"image/3d", "model/3d"} then MODEL_3D
      else if t in {"image/360", "image/panorama"} then PHOTO_360
      else NORMAL
  }

  /** The content type is matched without regard to the case of its ASCII letters. */
  lemma DetermineImageTypeIgnoresCase(a: string, b: string)
    requires ToLower(a) == ToLower(b)
    ensures DetermineImageType(Some(a)) == DetermineImageType(Some(b))
  {
  }

  /** A few spellings of the same content type. */
  lemma DetermineImageTypeExamples()
    ensures DetermineImageType(Some("Image/Panorama")) == PHOTO_360
    ensures DetermineImageType(Some("MODEL/3D")) == MODEL_3D
    ensures DetermineImageType(Some("image/PNG")) == NORMAL
  {
    assert ToLower("Image/Panorama") == "image/panorama";
    assert ToLower("MODEL/3D") == "model/3d";
    assert ToLower("image/PNG") == "image/png";
  }

  /** The type `upload` records: a file name ending `.glb`, in any case, forces a 3D model. */
  function UploadType(requested: Option<ImageType>, originalFilename: Option<string>): (r: Option<ImageType>)
    ensures originalFilename.Some? && EndsWith(ToLower(originalFilename.value), ".glb") ==> r == Some(MODEL_3D)
    ensures !(originalFilename.Some? && EndsWith(ToLower(originalFilename.value), ".glb")) ==> r == requested
  {
    var imageType := requested;
    if originalFilename.Some? && EndsWith(ToLower(originalFilename.value), ".glb") then Some(MODEL_3D)
    else imageType
  }

  /** Every capitalisation of the `.glb` extension triggers the override. */
  lemma GlbOverrideIgnoresCase(stem: string, ext: string, requested: Option<ImageType>)
    requires |ext| == 4 && ToLower(ext) == ".glb"
    ensures UploadType(requested, Some(stem + ext)) == Some(MODEL_3D)
  {
    var name := stem + ext;
    assert ToLower(name)[|name| - 4..] == ToLower(ext);
  }

  /**
   * `upload` renames the request after the original file name before handing
   * it to Drive, so a `.glb` file is sent as a 3D model. The corrected sync
   * classifies it as one unless its listed name holds `360`; the sync as
   * written does so only when the file went up as `model/gltf-binary`,
   * that is when no image type was probed.
   */
  lemma GlbUploadIsModelAfterSync(probed: Option<string>, originalFilename: string, tempName: Option<string>,
                                  note: Option<string>, requested: Option<ImageType>, ethnic: Ethnic, f: DriveFile)
    requires EndsWith(ToLower(originalFilename), ".glb")
    requires !Contains(f.name, "360")
    ensures UploadType(requested, Some(originalFilename)) == Some(MODEL_3D)
    ensures UploadRequest(probed, Some(originalFilename), tempName, note, MODEL_3D, ethnic).Ok?
    ensures var md := UploadRequest(probed, Some(originalFilename), tempName, note, MODEL_3D, ethnic).value;
      f.mimeType == md.mimeType && f.appProperties == Some(md.appProperties) ==> Classify(f) == MODEL_3D
    ensures var md := UploadRequest(probed, Some(originalFilename), tempName, note, MODEL_3D, ethnic).value;
      f.mimeType == md.mimeType && !IsImageMimeOpt(probed) ==> ClassifyAsWritten(f) == MODEL_3D
  {
    var req := UploadRequest(probed, Some(originalFilename), tempName, note, MODEL_3D, ethnic);
    assert req.Ok?;
    if f.mimeType == req.value.mimeType && f.appProperties == Some(req.value.appProperties) {
      UploadedTypeSurvivesSync(probed, Some(originalFilename), tempName, note, MODEL_3D, ethnic, f);
    }
  }

  /** `ImageMapper.toDto(image)`: a missing thumbnail is derived from the image URL. */
  function ToDto(image: Image): (r: ImageDto)
    ensures r.id == image.id && r.name == image.name && r.url == image.url && r.note == image.note
    ensures r.ethnic == Some(image.ethnic) && r.imageType == Some(image.imageType) && r.createdAt == image.createdAt
    ensures image.thumbnailUrl.Some? ==> r.thumbnailUrl == image.thumbnailUrl.value
    ensures image.thumbnailUrl.None? ==> r.thumbnailUrl == ConvertToThumbnailUrl(image.url)
  {
    ImageDto(image.id, image.name, image.url,
             if image.thumbnailUrl.Some? then image.thumbnailUrl.value else ConvertToThumbnailUrl(image.url),
             Some(image.ethnic), Some(image.imageType), image.note, image.createdAt)
  }

  /** The document after `update`: the request's name and note, every other field as it was. */
  function ApplyUpdate(image: Image, name: Option<string>, note: Option<string>): (r: Image)
    ensures r.name == name && r.note == note
    ensures r.(name := image.name, note := image.note) == image
  {
    image.(name := name, note := note)
  }

  /** `update(id, request)`: an unknown id is answered with 404 and nothing is saved. */
  method Update(repo: ImageRepository, id: string, name: Option<string>, note: Option<string>) returns (r: Result<ImageDto, string>)
    requires repo.Valid()
    modifies repo
    ensures repo.Valid()
    ensures id !in old(repo.images) ==> r == Err("Image not found with id: " + id) && repo.images == old(repo.images)
    ensures id in old(repo.images) ==>
      repo.images == old(repo.images)[id := ApplyUpdate(old(repo.images)[id], name, note)]
      && r == Ok(ToDto(repo.images[id]))
  {
    var found := repo.FindById(id);
    if found.None? {
      return Err("Image not found with id: " + id);
    }
    var image := found.value;
    image := image.(name := name);
    image := image.(note := note);
    assert image.id == id;
    repo.Save(image);
    r := Ok(ToDto(image));
  }

  /** Updating twice with the same request is the same as updating once. */
  lemma ApplyUpdateIdempotent(image: Image, name: Option<string>, note: Option<string>)
    ensures ApplyUpdate(ApplyUpdate(image, name, note), name, note) == ApplyUpdate(image, name, note)
  {
  }
}
