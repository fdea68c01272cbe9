/**
 * Records shared by the Google Drive service: the file records the Drive
 * API lists, the `Image` documents of the `images` collection, the
 * `ImageDto` the service returns, and the two enumerations.
 */
module DriveTypes {
  import opened Wrappers
  import opened Strings

  /** The ethnic groups whose images have a Drive folder of their own. */
  datatype Ethnic = EDE | JRAI | MNONG

  /** `ImageType`: each constant carries a display value. */
  datatype ImageType = MODEL_3D | PHOTO_360 | NORMAL {
    /** `getValue()`. */
    function Value(): string {
      match this
      case MODEL_3D => "3D"
      case PHOTO_360 => "360"
      case NORMAL => ""
    }

    /** `name()`: the constant's identifier. */
    function Name(): string {
      match this
      case MODEL_3D => "MODEL_3D"
      case PHOTO_360 => "PHOTO_360"
      case NORMAL => "NORMAL"
    }
  }

  /** `ImageType.valueOf(s)`: the constant whose identifier is `s`; any other text is rejected. */
  function ImageTypeValueOf(s: string): (r: Option<ImageType>)
    ensures forall t: ImageType :: r == Some(t) <==> t.Name() == s
  {
    if s == "MODEL_3D" then Some(MODEL_3D)
    else if s == "PHOTO_360" then Some(PHOTO_360)
    else if s == "NORMAL" then Some(NORMAL)
    else None
  }

  /** A file record as listed by the Drive API; null fields are `None`. */
  datatype DriveFile = DriveFile(
    id: string,
    name: string,
    mimeType: string,
    description: Option<string>,
    webViewLink: string,
    thumbnailLink: Option<string>,
    createdTime: int,
    appProperties: Option<map<string, string>>)

  /** A document of the `images` collection, keyed by the Drive file id. */
  datatype Image = Image(
    id: string,
    name: Option<string>,
    ethnic: Ethnic,
    url: string,
    thumbnailUrl: Option<string>,
    imageType: ImageType,
    note: Option<string>,
    createdAt: int)

  /** The `ImageDto` the services return; fields the builder does not set stay `None`. */
  datatype ImageDto = ImageDto(
    id: string,
    name: Option<string>,
    url: string,
    thumbnailUrl: string,
    ethnic: Option<Ethnic>,
    imageType: Option<ImageType>,
    note: Option<string>,
    createdAt: int)

  const GLB_MIME: string := "model/gltf-binary"
  const FOLDER_MIME: string := "application/vnd.google-apps.folder"
  const APP_PROPERTIES_TYPE: string := "type"

  /** `IMAGE_TYPES`: the MIME types the service accepts as images. */
  const IMAGE_TYPES: set<string> := {"image/jpeg", "image/png", "image/gif", "image/webp", GLB_MIME}

  predicate IsImageMime(mime: string) {
    mime in IMAGE_TYPES
  }

  const PROXY_PREFIX: string := "http://localhost:9090/api/ggdrive/proxy/drive?id="

  /** The proxy URL under which the back end serves a Drive file. */
  function ProxyUrl(id: string, name: string): string {
    PROXY_PREFIX + id + "&name=" + name
  }

  /** The file id can be read back from a proxy URL when it holds no `&`. */
  lemma ProxyUrlId(id: string, name: string)
    requires '&' !in id
    ensures StartsWith(ProxyUrl(id, name), PROXY_PREFIX)
    ensures BeforeFirst(ProxyUrl(id, name)[|PROXY_PREFIX|..], '&') == id
  {
    var tail := id + "&name=" + name;
    assert ProxyUrl(id, name) == PROXY_PREFIX + tail;
    StartsWithJoin(PROXY_PREFIX, tail);
    assert (PROXY_PREFIX + tail)[|PROXY_PREFIX|..] == tail;
    assert tail == id + ['&'] + ("name=" + name);
    BeforeFirstOfJoin(id, "name=" + name, '&');
  }
}
