/**
 * `syncGoogleDriveImages` and `collectFilesRecursively`: the images of an
 * ethnic group's Drive folder are mirrored into the `images` collection.
 * Images no longer on Drive are deleted, and every image file listed is
 * upserted with a type classified from its MIME type, its name and the
 * `type` app property written at upload. `SyncAsWritten` and the methods
 * follow the code; `SyncResult`, `Classify` and `FullSync` are the
 * corrected sync.
 */
module DriveSync {
  import opened Wrappers
  import opened Strings
  import opened DriveTypes
  import opened ThumbnailUrl
  import opened DriveUpload

  /** The thumbnail stored for a listed file: Drive's own thumbnail link, else one derived from the view link. */
  function ThumbnailFor(f: DriveFile): string {
    if f.thumbnailLink.Some? then f.thumbnailLink.value else ConvertToThumbnailUrl(f.webViewLink)
  }

  /** The `Image` document built for a listed file. */
  function BuildImage(ethnic: Ethnic, f: DriveFile, t: ImageType): Image {
    Image(f.id, Some(f.name), ethnic, ProxyUrl(f.id, f.name), Some(ThumbnailFor(f)), t, f.description, f.createdTime)
  }

  /** The `type` app property of a listed file, when it has one. */
  function TypeProperty(f: DriveFile): Option<string> {
    if f.appProperties.Some? && APP_PROPERTIES_TYPE in f.appProperties.value
    then Some(f.appProperties.value[APP_PROPERTIES_TYPE]) else None
  }

  /** The classification chain: a GLB file is a 3D model, a name holding `360` a 360° photo, then the stored type, else a plain image. */
  function ClassifyWith(f: DriveFile, stored: Option<ImageType>): (r: ImageType)
    ensures f.mimeType == GLB_MIME ==> r == MODEL_3D
    ensures f.mimeType != GLB_MIME && Contains(f.name, "360") ==> r == PHOTO_360
    ensures f.mimeType != GLB_MIME && !Contains(f.name, "360") && stored.Some? ==> r == stored.value
    ensures r == NORMAL <==> f.mimeType != GLB_MIME && !Contains(f.name, "360") && (stored.None? || stored == Some(NORMAL))
  {
    if f.mimeType == GLB_MIME then MODEL_3D
    else if Contains(f.name, "360") then PHOTO_360
    else if stored.Some? then stored.value
    else NORMAL
  }

  /**
   * The type of a listed file as the service computes it: the stored property
   * is read with `ImageType.valueOf`, so it counts only when it holds a
   * constant's name; anything else it holds falls back to a plain image.
   */
  function ClassifyAsWritten(f: DriveFile): (r: ImageType)
    ensures f.mimeType == GLB_MIME ==> r == MODEL_3D
    ensures f.mimeType != GLB_MIME && Contains(f.name, "360") ==> r == PHOTO_360
    ensures f.mimeType != GLB_MIME && !Contains(f.name, "360") ==>
              (r != NORMAL <==> TypeProperty(f).Some? && TypeProperty(f).value in {"MODEL_3D", "PHOTO_360"})
    ensures f.mimeType != GLB_MIME && !Contains(f.name, "360") && r != NORMAL ==> r.Name() == TypeProperty(f).value
  {
    var p := TypeProperty(f);
    ClassifyWith(f, if p.Some? then ImageTypeValueOf(p.value) else None)
  }

  /** The stored property read back by value (`3D`, `360`), as upload writes it, or by constant name. */
  function ParseStoredType(s: string): (r: Option<ImageType>)
    ensures r.None? <==> s !in {"3D", "360", "MODEL_3D", "PHOTO_360", "NORMAL"}
  {
    if s == MODEL_3D.Value() then Some(MODEL_3D)
    else if s == PHOTO_360.Value() then Some(PHOTO_360)
    else ImageTypeValueOf(s)
  }

  /** The type of a listed file, reading the stored property the way upload writes it. */
  function Classify(f: DriveFile): ImageType {
    var p := TypeProperty(f);
    ClassifyWith(f, if p.Some? then ParseStoredType(p.value) else None)
  }

  /** The property upload writes for a type is read back as that type, and so is the constant's name. */
  lemma StoredTypeRoundTrip(t: ImageType)
    ensures AppTypeProperty(t).Some? ==> ParseStoredType(AppTypeProperty(t).value) == Some(t)
    ensures ParseStoredType(t.Name()) == Some(t)
  {
  }

  /** As written, a type stored at upload is never recovered: `valueOf("3D")` and `valueOf("360")` fail. */
  lemma StoredTypeIgnoredAsWritten(f: DriveFile, t: ImageType)
    requires f.appProperties == Some(UploadAppProperties(t))
    requires f.mimeType != GLB_MIME && !Contains(f.name, "360")
    ensures ClassifyAsWritten(f) == NORMAL
  {
    if t != NORMAL {
      assert TypeProperty(f) == Some(t.Value());
    }
  }

  /** A concrete case: a 3D model uploaded as a PNG named `statue.png` comes back from a sync as a plain image. */
  lemma UploadedModelLostAsWritten()
    ensures var f := DriveFile("1AbCdEfGhIjKlMnOpQrStUvWxYz", "statue.png", "image/png", None, "", None, 0,
                               Some(UploadAppProperties(MODEL_3D)));
            ClassifyAsWritten(f) == NORMAL && Classify(f) == MODEL_3D
  {
    var f := DriveFile("1AbCdEfGhIjKlMnOpQrStUvWxYz", "statue.png", "image/png", None, "", None, 0,
                       Some(UploadAppProperties(MODEL_3D)));
    assert !Contains(f.name, "360") by {
      MissingCharExcludes(f.name, "360", 0);
    }
    StoredTypeIgnoredAsWritten(f, MODEL_3D);
  }

  /**
   * An uploaded file keeps its type through a sync: the listing carries the
   * MIME type and app properties the upload sent, and neither the GLB rule
   * nor the `360` name rule overrides it.
   */
  lemma UploadedTypeSurvivesSync(probed: Option<string>, dtoName: Option<string>, fileName: Option<string>,
                                 note: Option<string>, t: ImageType, ethnic: Ethnic, f: DriveFile)
    requires UploadRequest(probed, dtoName, fileName, note, t, ethnic).Ok?
    requires var md := UploadRequest(probed, dtoName, fileName, note, t, ethnic).value;
      f.mimeType == md.mimeType && f.appProperties == Some(md.appProperties)
    requires !Contains(f.name, "360")
    requires f.mimeType != GLB_MIME || t == MODEL_3D
    ensures Classify(f) == t
  {
    StoredTypeRoundTrip(t);
    if t != NORMAL {
      assert TypeProperty(f) == AppTypeProperty(t);
    }
  }

  /** Ids of the image files of a listing: `driveIds`. */
  function DriveIds(files: seq<DriveFile>): set<string> {
    set f | f in files && IsImageMime(f.mimeType) :: f.id
  }

  function IdsOf(images: seq<Image>): set<string> {
    set img | img in images :: img.id
  }

  /** `upsertImages`: one document per image file of the listing, in listing order. */
  function UpsertWith(ethnic: Ethnic, files: seq<DriveFile>, classify: DriveFile -> ImageType): seq<Image>
    decreases |files|
  {
    if files == [] then []
    else
      var f := files[|files| - 1];
      UpsertWith(ethnic, files[..|files| - 1], classify)
        + (if IsImageMime(f.mimeType) then [BuildImage(ethnic, f, classify(f))] else [])
  }

  /** The upserted documents are exactly those of the listed image files, each tagged with the synced group. */
  lemma {:induction false} UpsertCoversImageFiles(ethnic: Ethnic, files: seq<DriveFile>, classify: DriveFile -> ImageType)
    ensures IdsOf(UpsertWith(ethnic, files, classify)) == DriveIds(files)
    ensures forall img :: img in UpsertWith(ethnic, files, classify) ==>
      img.ethnic == ethnic && exists f :: f in files && IsImageMime(f.mimeType) && img == BuildImage(ethnic, f, classify(f))
    decreases |files|
  {
    if files != [] {
      var front := files[..|files| - 1];
      var f := files[|files| - 1];
      UpsertCoversImageFiles(ethnic, front, classify);
      assert files == front + [f];
      assert DriveIds(files) == DriveIds(front) + (if IsImageMime(f.mimeType) then {f.id} else {});
    }
  }

  /** The `images` collection after `saveAll(images)`: each document replaces the one with its id, in order. */
  function SaveAllFold(db: map<string, Image>, images: seq<Image>): map<string, Image>
    decreases |images|
  {
    if images == [] then db
    else
      var img := images[|images| - 1];
      SaveAllFold(db, images[..|images| - 1])[img.id := img]
  }

  /** `saveAll` adds the saved ids, keeps every other document, and stores one of the saved documents under each saved id. */
  lemma {:induction false} SaveAllFacts(db: map<string, Image>, images: seq<Image>)
    ensures SaveAllFold(db, images).Keys == db.Keys + IdsOf(images)
    ensures forall id :: id in db && id !in IdsOf(images) ==> SaveAllFold(db, images)[id] == db[id]
    ensures forall id :: id in IdsOf(images) ==> SaveAllFold(db, images)[id] in images && SaveAllFold(db, images)[id].id == id
    decreases |images|
  {
    if images != [] {
      var front := images[..|images| - 1];
      var img := images[|images| - 1];
      SaveAllFacts(db, front);
      assert images == front + [img];
      assert IdsOf(images) == IdsOf(front) + {img.id};
    }
  }

  /** `removedIds` as the service computes it: every stored id, of any ethnic group, missing from this folder. */
  function RemovedIdsAsWritten(existingIds: set<string>, files: seq<DriveFile>): (r: set<string>)
    ensures r <= existingIds && r !! DriveIds(files)
    ensures existingIds - r <= DriveIds(files)
  {
    set id | id in existingIds && id !in DriveIds(files)
  }

  /** The ids to remove: stored images of the synced group that are no longer in its folder. */
  function RemovedIds(db: map<string, Image>, ethnic: Ethnic, files: seq<DriveFile>): set<string> {
    set id | id in db && db[id].ethnic == ethnic && id !in DriveIds(files)
  }

  /**
   * `collectFilesRecursively(ethnic, folder)` as written: every document left
   * afterwards is a listed image of the synced group, stored under its own id.
   */
  function SyncAsWritten(db: map<string, Image>, ethnic: Ethnic, files: seq<DriveFile>): (r: map<string, Image>)
    ensures forall id :: id in r ==> id in DriveIds(files) && r[id].id == id && r[id].ethnic == ethnic
  {
    var upsert := UpsertWith(ethnic, files, ClassifyAsWritten);
    UpsertCoversImageFiles(ethnic, files, ClassifyAsWritten);
    SaveAllFacts(db - RemovedIdsAsWritten(db.Keys, files), upsert);
    SaveAllFold(db - RemovedIdsAsWritten(db.Keys, files), upsert)
  }

  /** The sync of one ethnic group, with both corrections. */
  function SyncResult(db: map<string, Image>, ethnic: Ethnic, files: seq<DriveFile>): map<string, Image> {
    SaveAllFold(db - RemovedIds(db, ethnic, files), UpsertWith(ethnic, files, Classify))
  }

  /** As written, a sync leaves exactly the images of the synced folder: every other group's images are gone. */
  lemma SyncAsWrittenKeepsOnlyFolder(db: map<string, Image>, ethnic: Ethnic, files: seq<DriveFile>)
    ensures SyncAsWritten(db, ethnic, files).Keys == DriveIds(files)
  {
    var upsert := UpsertWith(ethnic, files, ClassifyAsWritten);
    UpsertCoversImageFiles(ethnic, files, ClassifyAsWritten);
    SaveAllFacts(db - RemovedIdsAsWritten(db.Keys, files), upsert);
  }

  /** A concrete case: syncing EDE with one image in its folder deletes a stored JRAI image. */
  lemma SyncAsWrittenDropsOtherGroup()
    ensures var jrai := Image("b", Some("b.png"), JRAI, ProxyUrl("b", "b.png"), None, NORMAL, None, 0);
            var files := [DriveFile("a", "a.png", "image/png", None, "", None, 0, None)];
            "b" !in SyncAsWritten(map["b" := jrai], EDE, files) && "b" in SyncResult(map["b" := jrai], EDE, files)
  {
    var jrai := Image("b", Some("b.png"), JRAI, ProxyUrl("b", "b.png"), None, NORMAL, None, 0);
    var files := [DriveFile("a", "a.png", "image/png", None, "", None, 0, None)];
    assert DriveIds(files) == {"a"};
    SyncAsWrittenKeepsOnlyFolder(map["b" := jrai], EDE, files);
    SyncKeys(map["b" := jrai], EDE, files);
  }

  /** After a sync an id is stored iff it is an image of the folder, or a stored image of another group. */
  lemma SyncKeys(db: map<string, Image>, ethnic: Ethnic, files: seq<DriveFile>)
    ensures forall id :: id in SyncResult(db, ethnic, files) <==>
      id in DriveIds(files) || (id in db && db[id].ethnic != ethnic)
  {
    var upsert := UpsertWith(ethnic, files, Classify);
    UpsertCoversImageFiles(ethnic, files, Classify);
    SaveAllFacts(db - RemovedIds(db, ethnic, files), upsert);
  }

  /** A sync leaves the stored images of the other groups as they were, unless the folder lists the same file. */
  lemma SyncSparesOtherGroups(db: map<string, Image>, ethnic: Ethnic, files: seq<DriveFile>)
    ensures forall id :: id in db && db[id].ethnic != ethnic && id !in DriveIds(files) ==>
      id in SyncResult(db, ethnic, files) && SyncResult(db, ethnic, files)[id] == db[id]
  {
    var upsert := UpsertWith(ethnic, files, Classify);
    UpsertCoversImageFiles(ethnic, files, Classify);
    SaveAllFacts(db - RemovedIds(db, ethnic, files), upsert);
  }

  /** Every image file of the folder is stored afterwards, under its Drive id, as an image of the synced group built from a listed file. */
  lemma SyncStoresFolderImages(db: map<string, Image>, ethnic: Ethnic, files: seq<DriveFile>)
    ensures forall id :: id in DriveIds(files) ==>
      id in SyncResult(db, ethnic, files) && SyncResult(db, ethnic, files)[id].ethnic == ethnic
        && exists f :: f in files && f.id == id && IsImageMime(f.mimeType)
             && SyncResult(db, ethnic, files)[id] == BuildImage(ethnic, f, Classify(f))
  {
    var upsert := UpsertWith(ethnic, files, Classify);
    UpsertCoversImageFiles(ethnic, files, Classify);
    SaveAllFacts(db - RemovedIds(db, ethnic, files), upsert);
  }

  /** `syncGoogleDriveImages(null)` as written: the three groups in turn, after which only MNONG images are left. */
  function FullSyncAsWritten(db: map<string, Image>, listing: Ethnic -> seq<DriveFile>): (r: map<string, Image>)
    ensures forall id :: id in r ==> r[id].ethnic == MNONG
  {
    SyncAsWritten(SyncAsWritten(SyncAsWritten(db, EDE, listing(EDE)), JRAI, listing(JRAI)), MNONG, listing(MNONG))
  }

  /** `syncGoogleDriveImages(null)`: the three groups in turn. */
  function FullSync(db: map<string, Image>, listing: Ethnic -> seq<DriveFile>): map<string, Image> {
    SyncResult(SyncResult(SyncResult(db, EDE, listing(EDE)), JRAI, listing(JRAI)), MNONG, listing(MNONG))
  }

  /** As written, a full sync ends with the MNONG folder's images only. */
  lemma FullSyncAsWrittenKeepsOnlyMnong(db: map<string, Image>, listing: Ethnic -> seq<DriveFile>)
    ensures FullSyncAsWritten(db, listing).Keys == DriveIds(listing(MNONG))
  {
    SyncAsWrittenKeepsOnlyFolder(SyncAsWritten(SyncAsWritten(db, EDE, listing(EDE)), JRAI, listing(JRAI)), MNONG, listing(MNONG));
  }

  /** A full sync ends with the images of all three folders, and nothing else. */
  lemma FullSyncKeepsAllFolders(db: map<string, Image>, listing: Ethnic -> seq<DriveFile>)
    ensures FullSync(db, listing).Keys == DriveIds(listing(EDE)) + DriveIds(listing(JRAI)) + DriveIds(listing(MNONG))
  {
    var db1 := SyncResult(db, EDE, listing(EDE));
    var db2 := SyncResult(db1, JRAI, listing(JRAI));
    var db3 := SyncResult(db2, MNONG, listing(MNONG));
    SyncKeys(db, EDE, listing(EDE));
    SyncKeys(db1, JRAI, listing(JRAI));
    SyncKeys(db2, MNONG, listing(MNONG));
    SyncSparesOtherGroups(db, EDE, listing(EDE));
    SyncSparesOtherGroups(db1, JRAI, listing(JRAI));
    SyncTagsFolderImages(db, EDE, listing(EDE));
    SyncTagsFolderImages(db1, JRAI, listing(JRAI));
  }

  /** After a sync, every image of the folder is stored under the folder's group. */
  lemma SyncTagsFolderImages(db: map<string, Image>, ethnic: Ethnic, files: seq<DriveFile>)
    ensures forall id :: id in DriveIds(files) ==>
      id in SyncResult(db, ethnic, files) && SyncResult(db, ethnic, files)[id].ethnic == ethnic
  {
    SyncStoresFolderImages(db, ethnic, files);
  }

  /** Every stored document sits under its own id, as in the `images` collection. */
  predicate KeyedById(images: map<string, Image>)
  {
    forall k :: k in images ==> images[k].id == k
  }

  /** Upserting keeps every document under its own id. */
  lemma {:induction false} SaveAllKeepsKeys(images: map<string, Image>, list: seq<Image>)
    requires KeyedById(images)
    ensures KeyedById(SaveAllFold(images, list))
  {
    SaveAllFacts(images, list);
  }

  /** A sync keeps every document under its own id. */
  lemma SyncKeepsKeys(db: map<string, Image>, ethnic: Ethnic, files: seq<DriveFile>)
    requires KeyedById(db)
    ensures KeyedById(SyncResult(db, ethnic, files))
  {
    SaveAllKeepsKeys(db - RemovedIds(db, ethnic, files), UpsertWith(ethnic, files, Classify));
  }

  /** The `images` collection of MongoDB, keyed by document id. */
  class ImageRepository {
    var images: map<string, Image>

    /** Every document is stored under its own `_id`. */
    predicate Valid()
      reads this
    {
      KeyedById(images)
    }

    constructor (stored: map<string, Image>)
      requires KeyedById(stored)
      ensures Valid() && images == stored
    {
      images := stored;
    }

    /** `findById(id)`. */
    method FindById(id: string) returns (r: Option<Image>)
      requires Valid()
      ensures r.Some? <==> id in images
      ensures r.Some? ==> r.value == images[id] && r.value.id == id
    {
      if id in images {
        r := Some(images[id]);
      } else {
        r := None;
      }
    }

    /** `findAllIds()`: the query `{}` with the projection `{'_id': 1}`, the ids of every stored image. */
    method FindAllIds() returns (ids: set<string>)
      ensures ids == images.Keys
    {
      ids := images.Keys;
    }

    /** `save(image)`: inserts or replaces the document with the image's id. */
    method Save(image: Image)
      requires Valid()
      modifies this
      ensures Valid() && images == old(images)[image.id := image]
    {
      images := images[image.id := image];
    }

    /** `deleteAllById(ids)`. */
    method DeleteAllById(ids: set<string>)
      requires Valid()
      modifies this
      ensures Valid() && images == old(images) - ids
    {
      images := images - ids;
    }

    /** `saveAll(list)`: upserts the documents one after another. */
    method SaveAll(list: seq<Image>)
      requires Valid()
      modifies this
      ensures Valid() && images == SaveAllFold(old(images), list)
    {
      for i := 0 to |list|
        invariant images == SaveAllFold(old(images), list[..i])
      {
        assert list[..i + 1][..i] == list[..i];
        images := images[list[i].id := list[i]];
      }
      assert list[..|list|] == list;
      SaveAllKeepsKeys(old(images), list);
    }
  }

  /**
   * `collectFilesRecursively(ethnic, folderId)`: `driveFiles` is
   * `listFilesInFolder(folderId)`, the folder's listing with its subfolders'.
   * As written it removes every stored id missing from the listing, of any
   * group, and reads the stored type with `ImageType.valueOf`.
   */
  method CollectFilesRecursively(repo: ImageRepository, ethnic: Ethnic, driveFiles: seq<DriveFile>)
    requires repo.Valid()
    modifies repo
    ensures repo.Valid()
    ensures repo.images == SyncAsWritten(old(repo.images), ethnic, driveFiles)
  {
    var existingIds := repo.FindAllIds();
    var driveIds := set f | f in driveFiles && IsImageMime(f.mimeType) :: f.id;
    var removedIds := set id | id in existingIds && id !in driveIds;
    var upsertImages: seq<Image> := [];
    for i := 0 to |driveFiles|
      invariant upsertImages == UpsertWith(ethnic, driveFiles[..i], ClassifyAsWritten)
    {
      var file := driveFiles[i];
      assert driveFiles[..i + 1] == driveFiles[..i] + [file];
      if !IsImageMime(file.mimeType) {
        continue;
      }
      var imageType := NORMAL;
      var stored := TypeProperty(file);
      if file.mimeType == GLB_MIME {
        imageType := MODEL_3D;
      } else if Contains(file.name, "360") {
        imageType := PHOTO_360;
      } else if stored.Some? && ImageTypeValueOf(stored.value).Some? {
        imageType := ImageTypeValueOf(stored.value).value;
      }
      upsertImages := upsertImages + [BuildImage(ethnic, file, imageType)];
    }
    assert driveFiles[..|driveFiles|] == driveFiles;
    assert removedIds == RemovedIdsAsWritten(repo.images.Keys, driveFiles);
    if removedIds != {} {
      repo.DeleteAllById(removedIds);
    } else {
      assert repo.images == repo.images - removedIds;
    }
    repo.SaveAll(upsertImages);
  }

  /** `syncGoogleDriveImages(ethnic)`: `listing(g)` is the Drive listing of group `g`'s folder with its subfolders. */
  method SyncGoogleDriveImages(repo: ImageRepository, ethnic: Option<Ethnic>, listing: Ethnic -> seq<DriveFile>)
    requires repo.Valid()
    modifies repo
    ensures repo.Valid()
    ensures ethnic.None? ==> repo.images == FullSyncAsWritten(old(repo.images), listing)
    ensures ethnic.Some? ==> repo.images == SyncAsWritten(old(repo.images), ethnic.value, listing(ethnic.value))
  {
    if ethnic.None? {
      CollectFilesRecursively(repo, EDE, listing(EDE));
      CollectFilesRecursively(repo, JRAI, listing(JRAI));
      CollectFilesRecursively(repo, MNONG, listing(MNONG));
    } else if ethnic.value == JRAI {
      CollectFilesRecursively(repo, JRAI, listing(JRAI));
    } else if ethnic.value == MNONG {
      CollectFilesRecursively(repo, MNONG, listing(MNONG));
    } else {
      CollectFilesRecursively(repo, ethnic.value, listing(EDE));
    }
  }
}
