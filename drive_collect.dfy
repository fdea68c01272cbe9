/**
 * `collectImagesRecursively` and `get360Images`: the image files of a Drive
 * folder tree are gathered depth-first into a list of `ImageDto`, skipping
 * files whose id is in the snapshot of processed ids each call takes on
 * entry, and the list is paged. `Collect` and `PageSlice` are the corrected
 * collection and page.
 */
module DriveCollect {
  import opened Wrappers
  import opened DriveTypes
  import opened DriveSync
  import opened DrivePaging

  /** An entry of a folder's listing, all pages of it in order: a file, or a subfolder with its own listing. */
  datatype Item = FileItem(file: DriveFile) | FolderItem(id: string, children: seq<Item>)

  /** The `ImageDto` built for a listed image file. */
  function ToDto(f: DriveFile): ImageDto {
    ImageDto(f.id, Some(f.name), ProxyUrl(f.id, f.name), ThumbnailFor(f), None, None, f.description, f.createdTime)
  }

  function DtoIds(images: seq<ImageDto>): set<string> {
    set d | d in images :: d.id
  }

  predicate NoDuplicateIds(images: seq<ImageDto>) {
    forall i, j :: 0 <= i < j < |images| ==> images[i].id != images[j].id
  }

  /** The ids of the image files anywhere in a folder tree. */
  function TreeImageIds(items: seq<Item>): set<string>
    decreases items
  {
    if items == [] then {}
    else
      var head := match items[0]
        case FolderItem(_, children) => TreeImageIds(children)
        case FileItem(f) => if IsImageMime(f.mimeType) then {f.id} else {};
      head + TreeImageIds(items[1..])
  }

  /**
   * The recursion as written: `processed` is the snapshot of ids taken when
   * the call began, plus the files this call added itself; what a subfolder
   * added is not in it. The list is only ever appended to.
   */
  function CollectAsWritten(items: seq<Item>, images: seq<ImageDto>, processed: set<string>): (r: seq<ImageDto>)
    ensures |images| <= |r| && r[..|images|] == images
    decreases items
  {
    if items == [] then images
    else match items[0]
      case FolderItem(_, children) =>
        var inner := CollectAsWritten(children, images, DtoIds(images));
        var r := CollectAsWritten(items[1..], inner, processed);
        assert r[..|images|] == r[..|inner|][..|images|];
        r
      case FileItem(f) =>
        if IsImageMime(f.mimeType) && f.id !in processed then
          var grown := images + [ToDto(f)];
          var r := CollectAsWritten(items[1..], grown, processed + {f.id});
          assert r[..|images|] == r[..|grown|][..|images|];
          r
        else CollectAsWritten(items[1..], images, processed)
  }

  /** The recursion as intended: a file is skipped when its id is anywhere in the list built so far. */
  function Collect(items: seq<Item>, images: seq<ImageDto>): seq<ImageDto>
    decreases items
  {
    if items == [] then images
    else match items[0]
      case FolderItem(_, children) => Collect(items[1..], Collect(children, images))
      case FileItem(f) =>
        if IsImageMime(f.mimeType) && f.id !in DtoIds(images)
        then Collect(items[1..], images + [ToDto(f)])
        else Collect(items[1..], images)
  }

  /** A concrete case: a file listed in a subfolder and again after it is collected twice as written, once as intended. */
  lemma SharedFileCollectedTwiceAsWritten()
    ensures var x := DriveFile("x", "x.png", "image/png", None, "", None, 0, None);
            var tree := [FolderItem("s", [FileItem(x)]), FileItem(x)];
            CollectAsWritten(tree, [], {}) == [ToDto(x), ToDto(x)] && Collect(tree, []) == [ToDto(x)]
  {
    var x := DriveFile("x", "x.png", "image/png", None, "", None, 0, None);
    var tree := [FolderItem("s", [FileItem(x)]), FileItem(x)];
    var one := [FileItem(x)];
    assert tree[1..] == one && one[1..] == [];
    assert IsImageMime(x.mimeType);
    assert DtoIds([]) == {};
    assert DtoIds([ToDto(x)]) == {"x"};
    assert CollectAsWritten(one, [], {}) == [ToDto(x)];
    assert CollectAsWritten(one, [ToDto(x)], {}) == [ToDto(x), ToDto(x)];
    assert CollectAsWritten(tree, [], {}) == CollectAsWritten(one, [ToDto(x)], {});
    assert Collect(one, []) == [ToDto(x)];
    assert Collect(one, [ToDto(x)]) == [ToDto(x)];
  }

  /** The list only grows, gains exactly the image ids of the tree, and never gains an id twice. */
  lemma {:induction false} CollectFacts(items: seq<Item>, images: seq<ImageDto>)
    ensures |images| <= |Collect(items, images)| && Collect(items, images)[..|images|] == images
    ensures DtoIds(Collect(items, images)) == DtoIds(images) + TreeImageIds(items)
    ensures NoDuplicateIds(images) ==> NoDuplicateIds(Collect(items, images))
    decreases items
  {
    if items != [] {
      match items[0]
      case FolderItem(_, children) =>
        CollectFacts(children, images);
        CollectFacts(items[1..], Collect(children, images));
      case FileItem(f) =>
        if IsImageMime(f.mimeType) && f.id !in DtoIds(images) {
          var grown := images + [ToDto(f)];
          assert DtoIds(grown) == DtoIds(images) + {f.id};
          assert NoDuplicateIds(images) ==> NoDuplicateIds(grown) by {
            if NoDuplicateIds(images) {
              forall i, j | 0 <= i < j < |grown|
                ensures grown[i].id != grown[j].id
              {
                if j == |images| {
                  assert grown[i] in images;
                }
              }
            }
          }
          CollectFacts(items[1..], grown);
          assert Collect(items, images)[..|grown|][..|images|] == images;
        } else {
          CollectFacts(items[1..], images);
        }
    }
  }

  /** A list without repeated ids has as many ids as entries. */
  lemma {:induction false} DistinctIdsCount(images: seq<ImageDto>)
    requires NoDuplicateIds(images)
    ensures |DtoIds(images)| == |images|
    decreases |images|
  {
    if images != [] {
      var front := images[..|images| - 1];
      var last := images[|images| - 1];
      assert images == front + [last];
      assert NoDuplicateIds(front);
      DistinctIdsCount(front);
      assert last.id !in DtoIds(front);
      assert DtoIds(images) == DtoIds(front) + {last.id};
    }
  }

  /** The as-written list gains exactly the image ids of the tree: it differs from the intended one only by repeats. */
  lemma {:induction false} CollectAsWrittenFacts(items: seq<Item>, images: seq<ImageDto>, processed: set<string>)
    requires processed <= DtoIds(images)
    ensures DtoIds(CollectAsWritten(items, images, processed)) == DtoIds(images) + TreeImageIds(items)
    decreases items
  {
    if items != [] {
      match items[0]
      case FolderItem(_, children) =>
        var inner := CollectAsWritten(children, images, DtoIds(images));
        CollectAsWrittenFacts(children, images, DtoIds(images));
        CollectAsWrittenFacts(items[1..], inner, processed);
      case FileItem(f) =>
        if IsImageMime(f.mimeType) && f.id !in processed {
          var grown := images + [ToDto(f)];
          assert DtoIds(grown) == DtoIds(images) + {f.id};
          CollectAsWrittenFacts(items[1..], grown, processed + {f.id});
        } else {
          CollectAsWrittenFacts(items[1..], images, processed);
        }
    }
  }

  /** Within one folder without subfolders, the snapshot is kept up to date, so nothing is collected twice. */
  lemma {:induction false} FlatFolderCollectAgrees(items: seq<Item>, images: seq<ImageDto>)
    requires forall k :: 0 <= k < |items| ==> items[k].FileItem?
    ensures CollectAsWritten(items, images, DtoIds(images)) == Collect(items, images)
    decreases items
  {
    if items != [] {
      var f := items[0].file;
      if IsImageMime(f.mimeType) && f.id !in DtoIds(images) {
        var grown := images + [ToDto(f)];
        assert DtoIds(grown) == DtoIds(images) + {f.id};
        FlatFolderCollectAgrees(items[1..], grown);
      } else {
        FlatFolderCollectAgrees(items[1..], images);
      }
    }
  }

  /** A list has no more distinct ids than entries. */
  lemma {:induction false} IdsAtMostEntries(images: seq<ImageDto>)
    ensures |DtoIds(images)| <= |images|
    decreases |images|
  {
    if images != [] {
      var front := images[..|images| - 1];
      var last := images[|images| - 1];
      assert images == front + [last];
      IdsAtMostEntries(front);
      assert DtoIds(images) == DtoIds(front) + {last.id};
    }
  }

  /** The intended total counts each image of the tree once. */
  lemma CollectedTotalIsDistinctCount(tree: seq<Item>)
    ensures |Collect(tree, [])| == |TreeImageIds(tree)|
  {
    assert DtoIds([]) == {};
    CollectFacts(tree, []);
    DistinctIdsCount(Collect(tree, []));
  }

  /**
   * `collectImagesRecursively(folderId, images)`: `items` is the folder's
   * listing, all pages in order. The set of processed ids is a snapshot of
   * the list taken on entry, extended only by this call's own files.
   */
  method CollectImagesRecursively(items: seq<Item>, images: seq<ImageDto>) returns (result: seq<ImageDto>)
    ensures result == CollectAsWritten(items, images, DtoIds(images))
    decreases items
  {
    result := images;
    var processedFileIds := set d | d in images :: d.id;
    var i := 0;
    while i < |items|
      invariant 0 <= i <= |items|
      invariant CollectAsWritten(items, images, DtoIds(images)) == CollectAsWritten(items[i..], result, processedFileIds)
    {
      var rest := items[i..];
      assert rest[0] == items[i] && rest[1..] == items[i + 1..];
      match items[i] {
        case FolderItem(_, children) =>
          result := CollectImagesRecursively(children, result);
        case FileItem(file) =>
          if IsImageMime(file.mimeType) && file.id !in processedFileIds {
            result := result + [ToDto(file)];
            processedFileIds := processedFileIds + {file.id};
          }
      }
      i := i + 1;
    }
  }

  /** A `PageImpl`: the content of one page and the total the page reports. */
  datatype ImagePage = ImagePage(content: seq<ImageDto>, total: nat)

  /**
   * `get360Images(pageable)`: one page of the images of the 360° folder, or
   * the exception `subList` throws for an offset past the end.
   */
  method Get360Images(tree: seq<Item>, offset: int, size: int) returns (r: Result<ImagePage, string>)
    requires 0 <= offset && 1 <= size
    ensures var all := CollectAsWritten(tree, [], {});
      && (r.Ok? <==> offset <= |all|)
      && (r.Ok? ==> r.value == ImagePage(PageSliceAsWritten(all, offset, size).value, |all|))
      && (r.Err? ==> r.error == PageSliceAsWritten(all, offset, size).error)
    ensures r.Ok? ==> r.value.total >= |TreeImageIds(tree)|
    ensures r.Ok? ==> forall d :: d in r.value.content ==> d.id in TreeImageIds(tree)
  {
    var allImages := CollectImagesRecursively(tree, []);
    assert DtoIds([]) == {};
    CollectAsWrittenFacts(tree, [], {});
    IdsAtMostEntries(allImages);
    var pageContent := PageSliceAsWritten(allImages, offset, size);
    if pageContent.Err? {
      return Err(pageContent.error);
    }
    r := Ok(ImagePage(pageContent.value, |allImages|));
    forall d | d in pageContent.value
      ensures d.id in TreeImageIds(tree)
    {
      var k :| 0 <= k < |pageContent.value| && pageContent.value[k] == d;
      assert allImages[offset + k] == d;
    }
  }
}
