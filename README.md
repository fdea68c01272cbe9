# Museum of ethnic cultures blog: caches, Drive sync and URL helpers in Dafny

The blog shows the images, videos and posts of the Ede, Jrai and Mnong
collections of an ethnic-culture museum. Its front end is React and its back
end is Spring with MongoDB, Google Drive and YouTube. This project models the
parts of it that hold logic of their own, and proves what they promise:

- **The three IndexedDB caches of the front end** (`PostsIndexedDBCache`,
  `ImagesIndexedDBCache`, `VideosIndexedDBCache`).
  - Each is a class whose `entries` map stands for the object store.
  - Records expire lazily on `get`. `set` overwrites, and `delete` and `clear` do what they say.
  - Keys are built from query parameters.
  - Bulk invalidation deletes exactly the keys its filter selects. The record
    rules are in `TtlCache`, and the clock (`Date.now()`) is an explicit `now` argument.
- **The Google Drive service** (`GgDriveServiceImpl`):
  - thumbnail-URL rewriting (`ThumbnailUrl`);
  - the bounded upload retry loop and the metadata an upload sends (`DriveUpload`);
  - the folder sync into the `images` collection with its type classification (`DriveSync`);
  - the recursive collection of a folder tree with de-duplication (`DriveCollect`);
  - the in-memory paging of listings (`DrivePaging`).

  Drive listings are given as sequences of file records, or as a folder tree.
- **YouTube URL handling**: the back end's playlist-id and video-id
  extraction and embed URL (`U2beService`), and the viewer's
  `normalizeEmbed` (`YoutubeViewer`).
- **The image service** (`ImageService`): the type guessed from a content
  type, the `.glb` override at upload, and `update`.
- **`UserDto`** (`UserDtoModel`): username and e-mail are stored trimmed and lower-cased.

`Wrappers` holds `Option`/`Result`. `Strings` holds the string operations
the sources use (`startsWith`, `includes`, `indexOf`, `lastIndexOf`, `trim`,
ASCII `toLowerCase`, decimal conversion) with their contracts.

## Model

| member | source | states |
|---|---|---|
| TtlCache.Lookup | frontend/src/components/utils/imagesIndexedDB.js:31-47 | `get` yields the stored data exactly when the key is present and its record is valid, otherwise null |
| TtlCache.IsCacheValid | frontend/src/components/utils/imagesIndexedDB.js:116-119 | a valid record has a timestamp and a ttl and is read before `timestamp + ttl`; a record read at or after its write time with a ttl of 0 or less is never valid |
| TtlCache.LookupAfterSet | frontend/src/components/utils/imagesIndexedDB.js:116-119 | after `set` at time `written`, `get` returns the data exactly while `now - written < ttl`, and never when `written` or `ttl` is 0 (falsy) |
| TtlCache.LookupOtherKeyAfterSet | frontend/src/components/utils/postsIndexedDB.js:50-61 | `set` on one key leaves what `get` returns for every other key unchanged |
| TtlCache.ExpiredStaysExpired | frontend/src/components/utils/videosIndexedDB.js:92-97 | once `get` misses on a stored record, it misses at every later time |
| TtlCache.RemoveWhere | frontend/src/components/utils/postsIndexedDB.js:112-132 | the store after a bulk invalidation keeps exactly the unselected keys with their records |
| ImagesCache.ImagesIndexedDBCache.constructor | frontend/src/components/utils/imagesIndexedDB.js:7-10 | the cache opens on the records already in the store |
| ImagesCache.ImagesIndexedDBCache.Get | frontend/src/components/utils/imagesIndexedDB.js:31-47 | returns `Lookup` of the store at `now`; the store is not changed |
| ImagesCache.ImagesIndexedDBCache.Set | frontend/src/components/utils/imagesIndexedDB.js:49-58 | the key's record is replaced by `{data, timestamp: now, ttl}`, default ttl 600000 ms; nothing else changes |
| ImagesCache.ImagesIndexedDBCache.Delete | frontend/src/components/utils/imagesIndexedDB.js:60-69 | removes that key only |
| ImagesCache.ImagesIndexedDBCache.Clear | frontend/src/components/utils/imagesIndexedDB.js:71-80 | the store is empty |
| ImagesCache.ImagesIndexedDBCache.InvalidateImagesCache | frontend/src/components/utils/imagesIndexedDB.js:82-114 | a key survives iff it was stored and the filter does not select it (with an ethnic group: starts `images_` and holds `images_{e}_`; without: starts `images_`); survivors keep their records |
| ImagesCache.GenerateImagesKey | frontend/src/components/utils/imagesIndexedDB.js:121-124 | a key is `images_`, the group (`ALL` when missing or empty), page and size joined by `_`; it is selected by the invalidation of all groups and by that of its own group |
| ImagesCache.InvalidationMatches | frontend/src/components/utils/imagesIndexedDB.js:93-105 | the filter of `invalidateImagesCache` selects only keys that start with `images_`, whether or not a group is given |
| ImagesCache.DefaultImagesKey | frontend/src/components/utils/imagesIndexedDB.js:121-124 | the default key is `images_ALL_0_10` |
| ImagesCache.ImagesKeyInjective | frontend/src/components/utils/imagesIndexedDB.js:121-124 | two queries share a key only if group, page and size agree (groups without `_`) |
| ImagesCache.InvalidationSparesOtherGroups | frontend/src/components/utils/imagesIndexedDB.js:95-101 | for upper-case group codes, invalidating `e1` selects a page key of `e2` only if `e1 == e2` |
| ImagesCache.ImagesInvalidationScope | frontend/src/components/utils/imagesIndexedDB.js:95-124 | for group codes, invalidating `e1` removes the pages of `e2` iff `e1 == e2` |
| ImagesCache.ImagesKeyLetterI | frontend/src/components/utils/imagesIndexedDB.js:121-124 | in a key of a group code, `i` occurs only at index 0 |
| PostsCache.PostsIndexedDBCache.constructor | frontend/src/components/utils/postsIndexedDB.js:7-10 | the cache opens on the records already in the store |
| PostsCache.PostsIndexedDBCache.Get | frontend/src/components/utils/postsIndexedDB.js:31-48 | returns `Lookup` of the store at `now` |
| PostsCache.PostsIndexedDBCache.Set | frontend/src/components/utils/postsIndexedDB.js:50-66 | the key's record is replaced, default ttl 300000 ms |
| PostsCache.PostsIndexedDBCache.Delete | frontend/src/components/utils/postsIndexedDB.js:68-78 | removes that key only |
| PostsCache.PostsIndexedDBCache.Clear | frontend/src/components/utils/postsIndexedDB.js:80-90 | the store is empty |
| PostsCache.PostsIndexedDBCache.DeleteMatching | frontend/src/components/utils/postsIndexedDB.js:118-128 | deleting the selected keys one by one leaves `RemoveWhere` of the old store |
| PostsCache.PostsIndexedDBCache.InvalidatePostsCache | frontend/src/components/utils/postsIndexedDB.js:112-132 | a key survives iff it starts with neither `posts_` nor `postsByCategory_`; survivors keep their records |
| PostsCache.PostsIndexedDBCache.InvalidateCategoryCache | frontend/src/components/utils/postsIndexedDB.js:134-154 | a key survives iff it does not hold `postsByCategory_{category}_` |
| PostsCache.GeneratePostsKey | frontend/src/components/utils/postsIndexedDB.js:100-103 | a key is `posts_`, page, size, search text and language (`vi` when missing or empty) joined by `_`; `invalidatePostsCache` selects it |
| PostsCache.GeneratePostsByCategoryKey | frontend/src/components/utils/postsIndexedDB.js:106-109 | a key is `postsByCategory_`, the category (`undefined` when missing), page, size and language joined by `_`; `invalidatePostsCache` and the invalidation of its own category select it |
| PostsCache.PostsInvalidationMatches | frontend/src/components/utils/postsIndexedDB.js:121-123 | the filter of `invalidatePostsCache` never selects a key of the images or videos caches |
| PostsCache.CategoryInvalidationMatches | frontend/src/components/utils/postsIndexedDB.js:143-145 | the filter of `invalidateCategoryCache` selects only keys that hold `postsByCategory_` somewhere |
| PostsCache.DefaultPostsKey | frontend/src/components/utils/postsIndexedDB.js:100-103 | the default posts key is `posts_0_5__vi` |
| PostsCache.NewsKeySurvivesPostsInvalidation | frontend/src/components/utils/postsIndexedDB.js:122-124 | a key such as `news_vi` is not selected by `invalidatePostsCache` |
| PostsCache.PostsKeyInjective | frontend/src/components/utils/postsIndexedDB.js:100-103 | two posts queries share a key only if page, size, search text and language agree (search text without `_`) |
| PostsCache.CategoryInvalidationSparesOtherCategories | frontend/src/components/utils/postsIndexedDB.js:106-146 | for plain categories, invalidating `c1` selects a key of `c2` only if `c1 == c2` |
| PostsCache.CategoryInvalidationSparesPostsPages | frontend/src/components/utils/postsIndexedDB.js:100-146 | invalidating a category never touches a posts key with plain search text and language |
| PostsCache.CategoryKeyLetterB | frontend/src/components/utils/postsIndexedDB.js:106-109 | in a category key of plain fields, `B` occurs only at index 5, inside the `postsByCategory_` prefix |
| VideosCache.VideosIndexedDBCache.constructor | frontend/src/components/utils/videosIndexedDB.js:7-10 | the cache opens on the records already in the store |
| VideosCache.VideosIndexedDBCache.Get | frontend/src/components/utils/videosIndexedDB.js:31-48 | returns `Lookup` of the store at `now` |
| VideosCache.VideosIndexedDBCache.Set | frontend/src/components/utils/videosIndexedDB.js:50-66 | the key's record is replaced, default ttl 600000 ms |
| VideosCache.VideosIndexedDBCache.Delete | frontend/src/components/utils/videosIndexedDB.js:68-78 | removes that key only |
| VideosCache.VideosIndexedDBCache.Clear | frontend/src/components/utils/videosIndexedDB.js:80-90 | the store is empty |
| VideosCache.VideosIndexedDBCache.InvalidateVideosCache | frontend/src/components/utils/videosIndexedDB.js:106-126 | a key survives iff it does not start with `videos_`; survivors keep their records |
| VideosCache.GenerateVideosKey | frontend/src/components/utils/videosIndexedDB.js:100-103 | a key is `videos_`, page and size joined by `_`, whatever the language; `invalidateVideosCache` selects it |
| VideosCache.VideosInvalidationMatches | frontend/src/components/utils/videosIndexedDB.js:116-118 | the filter of `invalidateVideosCache` never selects a key of the images or posts caches |
| VideosCache.DefaultVideosKey | frontend/src/components/utils/videosIndexedDB.js:100-103 | the default key is `videos_0_10` |
| VideosCache.VideosKeyInjective | frontend/src/components/utils/videosIndexedDB.js:100-103 | two queries share a key only if page and size agree |
| ThumbnailUrl.FindLongRun | backend/src/main/java/com/example/blog/service/impl/GgDriveServiceImpl.java:565-567 | `find()` returns the leftmost index where 25 `[-\w]` characters start, or none when there is no such index |
| ThumbnailUrl.ConvertToThumbnailUrl | backend/src/main/java/com/example/blog/service/impl/GgDriveServiceImpl.java:563-573 | a URL with no run of 25 id characters is returned unchanged |
| ThumbnailUrl.ThumbnailOfFirstMatch | backend/src/main/java/com/example/blog/service/impl/GgDriveServiceImpl.java:565-570 | with a match, the result is the CDN prefix, the whole greedy run at the leftmost match, and `=s220` |
| ThumbnailUrl.FirstMatchIsMaximalRun | backend/src/main/java/com/example/blog/service/impl/GgDriveServiceImpl.java:565-568 | the leftmost match starts a maximal run of at least 25 id characters |
| ThumbnailUrl.ThumbnailOfEmbeddedId | backend/src/main/java/com/example/blog/service/impl/GgDriveServiceImpl.java:563-570 | an id of 25 or more id characters behind a prefix with short runs is the one placed in the thumbnail |
| ThumbnailUrl.ThumbnailOfDriveViewLink | backend/src/main/java/com/example/blog/service/impl/GgDriveServiceImpl.java:357-359 | a `webViewLink` `https://drive.google.com/file/d/{id}/…` gives the thumbnail of file `id` |
| ThumbnailUrl.ConvertIdempotent | backend/src/main/java/com/example/blog/service/impl/GgDriveServiceImpl.java:563-573 | converting a converted URL changes nothing |
| DriveTypes.ImageTypeValueOf | backend/src/main/java/com/example/blog/service/impl/GgDriveServiceImpl.java:346-348 | `valueOf` accepts exactly the constant names |
| DriveTypes.ProxyUrlId | backend/src/main/java/com/example/blog/service/impl/GgDriveServiceImpl.java:355-356 | the file id is read back from a proxy URL up to the first `&` |
| DriveUpload.UploadImageWithRetry | backend/src/main/java/com/example/blog/service/impl/GgDriveServiceImpl.java:91-121 | succeeds iff some attempt among the first `maxRetries` uploads, with that attempt's URL; waits `3000·k` after a timed-out attempt `k` and `1000·k` after another failure, and none after the last attempt; the final error names `maxRetries` and the last message |
| DriveUpload.WaitAfter | backend/src/main/java/com/example/blog/service/impl/GgDriveServiceImpl.java:103-114 | the pause after failed attempt `k` lies between `1000·k` and `3000·k` ms and is `3000·k` exactly after a timeout |
| DriveUpload.BackoffSchedule | backend/src/main/java/com/example/blog/service/impl/GgDriveServiceImpl.java:97-114 | in a wait schedule every listed attempt `k` failed and was followed by a pause between `1000·k` and `3000·k` ms |
| DriveUpload.BackoffTotalBounds | backend/src/main/java/com/example/blog/service/impl/GgDriveServiceImpl.java:103-114 | after `n` waits the total wait lies between `500·n·(n+1)` and `1500·n·(n+1)` ms |
| DriveUpload.DefaultRetriesWaitAtMost18Seconds | backend/src/main/java/com/example/blog/service/impl/GgDriveServiceImpl.java:71-115 | with four attempts an upload waits at most 18 s in total |
| DriveUpload.DetectMimeType | backend/src/main/java/com/example/blog/service/impl/GgDriveServiceImpl.java:126-138 | a probed image type is kept; otherwise a name (request name, else file name) ending `.glb` in any case gives `model/gltf-binary`; anything else is refused, and an accepted type is always in `IMAGE_TYPES` |
| DriveUpload.AppTypeProperty | backend/src/main/java/com/example/blog/service/impl/GgDriveServiceImpl.java:148 | only 3D models and 360° photos get a `type` property, holding the type's display value |
| DriveUpload.UploadAppProperties | backend/src/main/java/com/example/blog/service/impl/GgDriveServiceImpl.java:147-152 | the app properties hold the `type` key iff the type is not `NORMAL`, and no other key; its value is the type's display value (`getValue()`: `3D`, `360`) |
| DriveUpload.UploadDescription | backend/src/main/java/com/example/blog/service/impl/GgDriveServiceImpl.java:142-144 | the description is the note exactly when the note is present and not blank |
| DriveUpload.UploadRequest | backend/src/main/java/com/example/blog/service/impl/GgDriveServiceImpl.java:123-161 | the upload is refused, with the detection's message, iff the MIME detection refuses it; otherwise the metadata carries the request name, the group's folder, the detected MIME type, `UploadDescription(note)` and `UploadAppProperties(type)` |
| DriveSync.ClassifyWith | backend/src/main/java/com/example/blog/service/impl/GgDriveServiceImpl.java:339-349 | GLB files are 3D models; else names holding `360` are 360° photos; else a stored type is the result; else `NORMAL` |
| DriveSync.ClassifyAsWritten | backend/src/main/java/com/example/blog/service/impl/GgDriveServiceImpl.java:339-349 | as written: GLB files are 3D models, else names holding `360` are 360° photos; otherwise the file gets a type other than `NORMAL` iff its `type` property holds a constant name, and then that constant |
| DriveSync.ParseStoredType | backend/src/main/java/com/example/blog/service/impl/GgDriveServiceImpl.java:344-348 | corrected reader of the stored property: understood iff it is a display value (`3D`, `360`) or a constant name; the code as written uses `ImageTypeValueOf` |
| DriveSync.StoredTypeRoundTrip | backend/src/main/java/com/example/blog/service/impl/GgDriveServiceImpl.java:344-348 | corrected: the property upload writes for a type is read back as that type by `ParseStoredType` |
| DriveSync.StoredTypeIgnoredAsWritten | backend/src/main/java/com/example/blog/service/impl/GgDriveServiceImpl.java:339-349 | as written, a file uploaded with a type property, not GLB and without `360` in its name, syncs as `NORMAL` |
| DriveSync.UploadedModelLostAsWritten | backend/src/main/java/com/example/blog/service/impl/GgDriveServiceImpl.java:146-152 | a PNG uploaded as a 3D model syncs as `NORMAL` as written and as `MODEL_3D` when corrected |
| DriveSync.UploadedTypeSurvivesSync | backend/src/main/java/com/example/blog/service/impl/GgDriveServiceImpl.java:339-349 | corrected: a file listed with the MIME type and properties its upload sent is classified by `Classify` with the uploaded type |
| DriveSync.UpsertCoversImageFiles | backend/src/main/java/com/example/blog/service/impl/GgDriveServiceImpl.java:334-365 | the upserted documents are exactly those of the listed image files, each tagged with the synced group |
| DriveSync.RemovedIdsAsWritten | backend/src/main/java/com/example/blog/service/impl/GgDriveServiceImpl.java:320-331 | as written, the ids to delete are stored ids outside the folder, and every stored id not deleted is one of the folder's image ids, whatever its group |
| DriveSync.SyncAsWritten | backend/src/main/java/com/example/blog/service/impl/GgDriveServiceImpl.java:320-373 | as written, every document left after syncing a group is one of that folder's images, tagged with that group and stored under its own id |
| DriveSync.SaveAllFacts | backend/src/main/java/com/example/blog/service/impl/GgDriveServiceImpl.java:373 | `saveAll` adds the saved ids, keeps other documents, and stores a saved document under each saved id |
| DriveSync.SaveAllKeepsKeys | backend/src/main/java/com/example/blog/service/impl/GgDriveServiceImpl.java:351-373 | upserting keeps every document under its own id |
| DriveSync.SyncKeepsKeys | backend/src/main/java/com/example/blog/service/impl/GgDriveServiceImpl.java:315-375 | corrected sync: every document stays under its own id |
| DriveSync.SyncAsWrittenKeepsOnlyFolder | backend/src/main/java/com/example/blog/service/impl/GgDriveServiceImpl.java:320-373 | as written, the collection after a sync holds exactly the image ids of the synced folder |
| DriveSync.SyncAsWrittenDropsOtherGroup | backend/src/main/java/com/example/blog/service/impl/GgDriveServiceImpl.java:320-331 | syncing EDE deletes a stored JRAI image as written; the corrected sync keeps it |
| DriveSync.SyncKeys | backend/src/main/java/com/example/blog/service/impl/GgDriveServiceImpl.java:323-373 | corrected sync: afterwards an id is stored iff it is an image of the folder or a stored image of another group |
| DriveSync.SyncSparesOtherGroups | backend/src/main/java/com/example/blog/service/impl/GgDriveServiceImpl.java:323-331 | corrected sync: other groups' documents not listed in the folder stay as they were |
| DriveSync.SyncStoresFolderImages | backend/src/main/java/com/example/blog/service/impl/GgDriveServiceImpl.java:336-373 | corrected sync: every image file of the folder is stored under its id, built from a listed file, as an image of the synced group |
| DriveSync.FullSyncAsWrittenKeepsOnlyMnong | backend/src/main/java/com/example/blog/service/impl/GgDriveServiceImpl.java:222-225 | as written, `syncGoogleDriveImages(null)` ends with the MNONG folder's images only |
| DriveSync.FullSyncAsWritten | backend/src/main/java/com/example/blog/service/impl/GgDriveServiceImpl.java:222-225 | as written, every document left after `syncGoogleDriveImages(null)` belongs to MNONG |
| DriveSync.FullSyncKeepsAllFolders | backend/src/main/java/com/example/blog/service/impl/GgDriveServiceImpl.java:222-225 | the corrected full sync ends with the images of all three folders and nothing else |
| DriveSync.ImageRepository.constructor | backend/src/main/java/com/example/blog/repository/ImageRepository.java:13 | the repository opens on the stored documents, each stored under its own id |
| DriveSync.ImageRepository.FindById | backend/src/main/java/com/example/blog/service/impl/ImageServiceImpl.java:141-142 | finds a document iff its id is stored, and returns that document, whose id is the one asked for |
| DriveSync.ImageRepository.Save | backend/src/main/java/com/example/blog/service/impl/ImageServiceImpl.java:147 | inserts or replaces the document under its id; documents stay under their own ids |
| DriveSync.ImageRepository.FindAllIds | backend/src/main/java/com/example/blog/repository/ImageRepository.java:15-16 | `findAllIds` (query `{}`): the ids of every stored document, of every group |
| DriveSync.ImageRepository.DeleteAllById | backend/src/main/java/com/example/blog/service/impl/GgDriveServiceImpl.java:368-370 | removes exactly the given ids; documents stay under their own ids |
| DriveSync.ImageRepository.SaveAll | backend/src/main/java/com/example/blog/service/impl/GgDriveServiceImpl.java:373 | the collection becomes `SaveAllFold` of the old one; documents stay under their own ids |
| DriveSync.CollectFilesRecursively | backend/src/main/java/com/example/blog/service/impl/GgDriveServiceImpl.java:315-375 | as written: the collection becomes `SyncAsWritten` of the old one, i.e. every stored id missing from the listing is deleted (any group), and the listed images are upserted with the type read by `ImageType.valueOf` |
| DriveSync.SyncGoogleDriveImages | backend/src/main/java/com/example/blog/service/impl/GgDriveServiceImpl.java:221-233 | as written: a null group gives `FullSyncAsWritten` (EDE, JRAI, MNONG in turn), a group gives `SyncAsWritten` of its own folder's listing |
| DrivePaging.PageSliceAsWritten | backend/src/main/java/com/example/blog/service/impl/GgDriveServiceImpl.java:204-206 | `subList(start, min(start+size, total))` fails iff the offset is past the end, with `IllegalArgumentException` naming both indices; otherwise it holds `min(size, total-offset)` items from the offset on |
| DrivePaging.PageSlice | backend/src/main/java/com/example/blog/service/impl/GgDriveServiceImpl.java:214-216 | corrected page: at most `size` items, from the offset on, and empty past the end |
| DrivePaging.PageSlicesAgree | backend/src/main/java/com/example/blog/service/impl/GgDriveServiceImpl.java:204-206 | both slices agree on every page that exists; past the end only the corrected one answers |
| DrivePaging.SecondPageOfThreeFails | backend/src/main/java/com/example/blog/service/impl/GgDriveServiceImpl.java:214-216 | the page at offset 5 of a 3-item listing fails as written and is empty when corrected |
| DrivePaging.PagesPartition | backend/src/main/java/com/example/blog/service/impl/GgDriveServiceImpl.java:214-216 | corrected pages: item `i` is item `i % size` of the page at offset `(i / size)·size` |
| DrivePaging.AdjacentPagesJoin | backend/src/main/java/com/example/blog/service/impl/GgDriveServiceImpl.java:214-216 | corrected pages: two adjacent pages together are the page of their combined size |
| DriveCollect.SharedFileCollectedTwiceAsWritten | backend/src/main/java/com/example/blog/service/impl/GgDriveServiceImpl.java:476-523 | a file listed in a subfolder and again after it is collected twice as written and once when corrected |
| DriveCollect.CollectFacts | backend/src/main/java/com/example/blog/service/impl/GgDriveServiceImpl.java:471-529 | corrected collection: the list only grows, gains exactly the image ids of the tree, and never gains an id twice |
| DriveCollect.DistinctIdsCount | backend/src/main/java/com/example/blog/service/impl/GgDriveServiceImpl.java:217 | a list without repeated ids has as many ids as entries (used for the corrected total) |
| DriveCollect.CollectImagesRecursively | backend/src/main/java/com/example/blog/service/impl/GgDriveServiceImpl.java:471-529 | as written: the result is `CollectAsWritten` of the listing, the processed ids being the snapshot of the list taken on entry |
| DriveCollect.CollectAsWritten | backend/src/main/java/com/example/blog/service/impl/GgDriveServiceImpl.java:471-529 | as written, the collected list only grows: the list passed in is a prefix of the result |
| DriveCollect.CollectAsWrittenFacts | backend/src/main/java/com/example/blog/service/impl/GgDriveServiceImpl.java:476-523 | as written, the list gains exactly the image ids of the tree: it can differ from the corrected list only by repeated entries |
| DriveCollect.FlatFolderCollectAgrees | backend/src/main/java/com/example/blog/service/impl/GgDriveServiceImpl.java:476-523 | within a folder without subfolders the snapshot stays current, and the code as written collects what the corrected one does |
| DriveCollect.CollectedTotalIsDistinctCount | backend/src/main/java/com/example/blog/service/impl/GgDriveServiceImpl.java:211-218 | corrected total: the collected list has one entry per image id of the tree |
| DriveCollect.Get360Images | backend/src/main/java/com/example/blog/service/impl/GgDriveServiceImpl.java:211-218 | as written: fails iff the offset lies past the end of `CollectAsWritten` of the tree; otherwise the page is `PageSliceAsWritten` of it and the total its length, at least the number of distinct image ids, and every entry is an image of the tree |
| U2beService.FindListParam | backend/src/main/java/com/example/blog/service/impl/U2beServiceImpl.java:142-144 | the leftmost index where `list=` is followed by a playlist-id character |
| U2beService.ExtractPlaylistId | backend/src/main/java/com/example/blog/service/impl/U2beServiceImpl.java:141-148 | null iff `list=` is never followed by an id character; otherwise the whole run of `[A-Za-z0-9_-]` after the leftmost such `list=` (`FindListParam`), non-empty, and `list=` followed by it occurs in the URL |
| U2beService.PlaylistIdRoundTrip | backend/src/main/java/com/example/blog/service/impl/U2beServiceImpl.java:141-148 | the id of a playlist URL built from an id is that id |
| U2beService.WatchUrlIndex | backend/src/main/java/com/example/blog/service/impl/U2beServiceImpl.java:196-197 | in a watch URL the first `v=` is at index 30 |
| U2beService.ExtractVideoIdFromUrl | backend/src/main/java/com/example/blog/service/impl/U2beServiceImpl.java:194-205 | a watch URL gives the text after the first `v=`; a `youtu.be` URL the text after the last `/`; any other input is its own id iff it has no `/` and no `=`, else null |
| U2beService.VideoIdRoundTrip | backend/src/main/java/com/example/blog/service/impl/U2beServiceImpl.java:194-205 | watch URLs, short links and bare ids built from an id give that id back |
| U2beService.ShortLinkRoundTrip | backend/src/main/java/com/example/blog/service/impl/U2beServiceImpl.java:194-205 | the id after `https://youtu.be/` is read back when it holds no `/` |
| U2beService.GetYouTubeEmbedUrl | backend/src/main/java/com/example/blog/service/impl/U2beServiceImpl.java:185-192 | null iff no id is extracted; otherwise the embed prefix followed by the id |
| U2beService.ThumbnailUrlOf | backend/src/main/java/com/example/blog/service/impl/U2beServiceImpl.java:153-163 | high, then medium, then default, then null |
| U2beService.ThumbnailPrecedence | backend/src/main/java/com/example/blog/service/impl/U2beServiceImpl.java:155-163 | the kept thumbnail is always the link of one of the three resolutions |
| U2beService.CreateEntityFromVideo | backend/src/main/java/com/example/blog/service/impl/U2beServiceImpl.java:150-173 | the stored URL yields the video id back and embeds as that video; title, EDE, the sync note and the time are stored |
| YoutubeViewer.NormalizeEmbed | frontend/src/components/pages/u2be/YoutubeViewer.jsx:28-48 | null iff the input is null or empty; every other output holds `/embed/` or is the input itself |
| YoutubeViewer.EmbedUrl | frontend/src/components/pages/u2be/YoutubeViewer.jsx:36 | the embed URL is the embed prefix followed by the id, and holds `/embed/` |
| YoutubeViewer.NormalizeEmbedIdempotent | frontend/src/components/pages/u2be/YoutubeViewer.jsx:29-47 | normalising twice equals normalising once |
| YoutubeViewer.WatchUrlToEmbed | frontend/src/components/pages/u2be/YoutubeViewer.jsx:33-37 | a watch URL, with or without `&…` after the id, gives the embed URL of the id |
| YoutubeViewer.ShortLinkToEmbed | frontend/src/components/pages/u2be/YoutubeViewer.jsx:39-42 | a `youtu.be/{id}?…` link gives the embed URL of the id |
| YoutubeViewer.BareIdToEmbed | frontend/src/components/pages/u2be/YoutubeViewer.jsx:44-46 | a bare id gives its embed URL |
| YoutubeViewer.ViewerAgreesWithService | frontend/src/components/pages/u2be/YoutubeViewer.jsx:28-48 | on watch URLs, short links and bare ids the viewer and the back end's `getYouTubeEmbedUrl` give the same embed URL |
| ImageService.DetermineImageType | backend/src/main/java/com/example/blog/service/impl/ImageServiceImpl.java:213-228 | null gives `NORMAL`; the lower-cased type gives `MODEL_3D` iff it is `image/3d` or `model/3d`, `PHOTO_360` iff it is `image/360` or `image/panorama`, and `NORMAL` otherwise |
| ImageService.DetermineImageTypeIgnoresCase | backend/src/main/java/com/example/blog/service/impl/ImageServiceImpl.java:219 | content types equal up to ASCII case give the same type |
| ImageService.DetermineImageTypeExamples | backend/src/main/java/com/example/blog/service/impl/ImageServiceImpl.java:219-223 | `Image/Panorama`, `MODEL/3D` and `image/PNG` give `PHOTO_360`, `MODEL_3D` and `NORMAL` |
| ImageService.UploadType | backend/src/main/java/com/example/blog/service/impl/ImageServiceImpl.java:74-78 | a file name ending `.glb` in any case forces `MODEL_3D`; otherwise the requested type is kept |
| ImageService.GlbOverrideIgnoresCase | backend/src/main/java/com/example/blog/service/impl/ImageServiceImpl.java:75 | every capitalisation of the `.glb` extension forces `MODEL_3D` |
| ImageService.GlbUploadIsModelAfterSync | backend/src/main/java/com/example/blog/service/impl/ImageServiceImpl.java:69-81 | a `.glb` upload is sent as `MODEL_3D` and accepted by the MIME check; the corrected sync classifies the listed file `MODEL_3D` unless its name holds `360`, the sync as written only when no image type was probed |
| ImageService.ToDto | backend/src/main/java/com/example/blog/mapper/ImageMapper.java:17-32 | the fields are copied, and a missing thumbnail is derived from the image URL |
| ImageService.ApplyUpdate | backend/src/main/java/com/example/blog/service/impl/ImageServiceImpl.java:144-145 | name and note come from the request; every other field is the image's |
| ImageService.ApplyUpdateIdempotent | backend/src/main/java/com/example/blog/service/impl/ImageServiceImpl.java:144-145 | applying the same update twice equals applying it once |
| ImageService.Update | backend/src/main/java/com/example/blog/service/impl/ImageServiceImpl.java:139-155 | an unknown id answers `Image not found with id: {id}` and saves nothing; otherwise only that document changes, to its updated form, which is returned as a DTO |
| Strings.Trim | backend/src/main/java/com/example/blog/dto/UserDto.java:39 | `trim` returns no more than the text, and what it returns is empty or starts and ends above U+0020 |
| Strings.TrimIsInfix | backend/src/main/java/com/example/blog/dto/UserDto.java:39 | what `trim` returns is one infix of the text with only characters at or below U+0020 before and after it |
| Strings.TrimBetweenBlanks | backend/src/main/java/com/example/blog/dto/UserDto.java:39 | `trim` of a text that starts and ends above U+0020, with characters at or below U+0020 around it, is that text |
| Strings.TrimOfLower | backend/src/main/java/com/example/blog/dto/UserDto.java:39 | lower-casing and `trim` commute |
| Strings.IndexOf | frontend/src/components/pages/u2be/YoutubeViewer.jsx:33 | `indexOf` is -1 iff the pattern does not occur, else the first occurrence |
| Strings.LastIndexOfChar | backend/src/main/java/com/example/blog/service/impl/U2beServiceImpl.java:199 | `lastIndexOf` is -1 iff the character is absent, else its last position |
| Strings.IntToStringInjective | frontend/src/components/utils/imagesIndexedDB.js:123 | different numbers are written differently in keys |
| UserDtoModel.NormalizeIdentifier | backend/src/main/java/com/example/blog/dto/UserDto.java:38-44 | the stored identifier has no upper-case ASCII letter, is no longer than the input, and starts and ends with a visible character |
| UserDtoModel.NormalizeIdentifierIdempotent | backend/src/main/java/com/example/blog/dto/UserDto.java:38-44 | normalising twice equals normalising once |
| UserDtoModel.NormalizeIdentifierIgnoresBlanks | backend/src/main/java/com/example/blog/dto/UserDto.java:38-44 | characters at or below U+0020 around an identifier are dropped: what is stored is the identifier in lower case |
| UserDtoModel.NormalizeIdentifierIgnoresCase | backend/src/main/java/com/example/blog/dto/UserDto.java:38-44 | an identifier and its lower-cased form are stored alike |
| UserDtoModel.UserDto.constructor | backend/src/main/java/com/example/blog/dto/UserDto.java:12-32 | the all-arguments constructor stores every value as given |
| UserDtoModel.UserDto.SetPassword | backend/src/main/java/com/example/blog/dto/UserDto.java:34-36 | the password is stored verbatim; no other field changes |
| UserDtoModel.UserDto.SetUsername | backend/src/main/java/com/example/blog/dto/UserDto.java:38-40 | the username becomes the normalised argument, null stays null; no other field changes |
| UserDtoModel.UserDto.SetEmail | backend/src/main/java/com/example/blog/dto/UserDto.java:42-44 | the e-mail becomes the normalised argument, null stays null; no other field changes |

## Left out

- IndexedDB opening, transactions and Promises: each cache operation is one atomic step on a map, and an IndexedDB error (`reject`) is not modelled.
- The store's `keyPath` record layout: a store is a map from key to `{data, timestamp, ttl}`.
- The clock: `Date.now()`, `Instant.now()` and `Thread.sleep` become an explicit `now` argument and a list of waits.
- Drive and YouTube API calls, permissions and OAuth: `listFilesInFolder` with its `nextPageToken` paging, `files().create`, `permissions().create`, the playlist fetch and `getThumbnailUrlForFile`'s file lookup. A listing is an input, given as a sequence of file records or a folder tree with all pages in order. An upload attempt's outcome is the function `perform`.
- The Drive folder ids of the groups: a group stands for its folder.
- `findAllIds` projection details: the ids are the keys of the stored map.
- MongoDB ids assigned at upload, and the `Image` built by `upload`: only the `.glb` override and the metadata sent to Drive are modelled.
- `Files.probeContentType` and the temporary file: the probed type and the temp file's name are inputs.
- `Ethnic.java` is not part of this model: the groups are taken to be exactly EDE, JRAI and MNONG.
- Null pointer exceptions of the Java code are not modelled:
  - a file without a MIME type in `IMAGE_TYPES.contains`;
  - a null `webViewLink` or file name;
  - a null ethnic group in the upload's `switch`;
  - a null URL given to `extractVideoIdFromUrl`;
  - a null request type stored on an image.
- DriveUpload.WaitAfter: `attempt * 3000` is an `int` product in Java and would overflow only beyond 700000 attempts; the model uses unbounded integers. The `(int)` cast of the `long` page offset is not modelled either.
- Strings.ToLower: only ASCII letters are mapped. Java's and JavaScript's Unicode case mapping is not modelled.
- DriveUpload.IsWhitespace: `isBlank` is modelled for the ASCII whitespace characters only.
- UserDtoModel.UserDto.constructor: Lombok's builder and all-arguments constructor bypass the normalising setters, and so does the model.
- Aliasing: `collectImagesRecursively` appends to a Java list shared with its recursive calls. The model passes the list by value and returns it.
- Search-box debounce, React effects, the read-through orchestration of the pages, and `svgCache.js` are not part of the core modelled here.

## Findings

| source | as written | input that shows it | evidently intended | confidence | as-written member | corrected member |
|---|---|---|---|---|---|---|
| backend/src/main/java/com/example/blog/service/impl/GgDriveServiceImpl.java:320-331 | `removedIds` is every id in the collection, of every ethnic group, that is missing from the synced folder | a stored JRAI image `b`, then `syncGoogleDriveImages(EDE)` on a folder holding only `a`: `b` is deleted; `syncGoogleDriveImages(null)` ends with the MNONG images only | delete only the synced group's images that left its folder | not executed | DriveSync.SyncAsWrittenDropsOtherGroup | DriveSync.SyncKeys |
| backend/src/main/java/com/example/blog/service/impl/GgDriveServiceImpl.java:344-348 | upload stores (line 148) the type's display value (`3D`, `360`) as the `type` property; sync reads it with `ImageType.valueOf`, which accepts only constant names | a 3D model uploaded as `statue.png` with a probed type `image/png`: the next sync stores it as `NORMAL` | the stored type survives a sync | not executed | DriveSync.UploadedModelLostAsWritten | DriveSync.UploadedTypeSurvivesSync |
| backend/src/main/java/com/example/blog/service/impl/GgDriveServiceImpl.java:476-499 | the processed ids are a snapshot taken when the call starts; ids added by a subfolder's call are not added to it | a file `x` listed in subfolder `s` and again in the parent after `s`: `x` is collected twice | every id is collected once | not executed | DriveCollect.SharedFileCollectedTwiceAsWritten | DriveCollect.CollectFacts |
| backend/src/main/java/com/example/blog/service/impl/GgDriveServiceImpl.java:214-216 | `subList(start, min(start + size, total))` throws when `start > total` | offset 5, size 5 on a 3-item listing | an empty page past the end | not executed | DrivePaging.SecondPageOfThreeFails | DrivePaging.PagesPartition |
