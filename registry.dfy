/**
 * The image registry of the styling app: the uploaded images, the list
 * updates the upload and remove handlers apply to the item list, and what a
 * whole history of such updates leaves behind.
 */
module ImageRegistry {

  import opened Wrappers

  /** A file picked in the browser. Only its identity matters to the core. */
  datatype File = File(handle: nat)

  /** An uploaded image: a generated id, an object-URL preview and the file. */
  datatype ImageFile = ImageFile(id: string, url: string, file: File)

  /** No two images share an id. */
  predicate UniqueIds(items: seq<ImageFile>)
  {
    forall i, j :: 0 <= i < j < |items| ==> items[i].id != items[j].id
  }

  /** No id of `items` is `id`. */
  predicate Lacks(items: seq<ImageFile>, id: string)
  {
    forall k :: 0 <= k < |items| ==> items[k].id != id
  }

  /**
   * Ids fresh for an upload: pairwise distinct and none issued before
   * (what `crypto.randomUUID` is relied on to give).
   */
  predicate FreshIds(ids: seq<string>, issued: set<string>)
  {
    && (forall i, j :: 0 <= i < j < |ids| ==> ids[i] != ids[j])
    && (forall k :: 0 <= k < |ids| ==> ids[k] !in issued)
  }

  /**
   * The file an `<input type="file">` change event yields, `files?.[0]`: none
   * when the list is absent or empty, otherwise the first one picked.
   */
  function FirstFile(selection: Option<seq<File>>): (f: Option<File>)
    ensures f.Some? <==> selection.Some? && |selection.value| > 0
    ensures f.Some? ==> f.value == selection.value[0]
  {
    if selection.Some? && |selection.value| > 0 then Some(selection.value[0]) else None
  }

  /**
   * The images built for a batch of picked files, one per file in the order
   * given, the k-th with the k-th fresh id and the k-th preview URL.
   */
  function NewImages(files: seq<File>, ids: seq<string>, urls: seq<string>): (r: seq<ImageFile>)
    requires |ids| == |files| && |urls| == |files|
    ensures |r| == |files|
    ensures forall k :: 0 <= k < |r| ==> r[k] == ImageFile(ids[k], urls[k], files[k])
  {
    if files == [] then []
    else [ImageFile(ids[0], urls[0], files[0])] + NewImages(files[1..], ids[1..], urls[1..])
  }

  /**
   * The item list without the images whose id is `id` (`filter` on
   * `image.id !== id`): an image is kept exactly when its id differs.
   */
  function RemoveById(items: seq<ImageFile>, id: string): (r: seq<ImageFile>)
    ensures |r| <= |items|
    ensures Lacks(r, id)
  {
    if items == [] then []
    else
      if items[0].id != id then [items[0]] + RemoveById(items[1..], id)
      else RemoveById(items[1..], id)
  }

  /** An image is kept exactly when it was in the list and its id differs. */
  lemma {:induction false} RemoveByIdKeeps(items: seq<ImageFile>, id: string, x: ImageFile)
    ensures x in RemoveById(items, id) <==> x in items && x.id != id
  {
    if items != [] {
      RemoveByIdKeeps(items[1..], id, x);
      assert items == [items[0]] + items[1..];
    }
  }

  /** Removing an id that no image carries changes nothing. */
  lemma {:induction false} RemoveByIdAbsent(items: seq<ImageFile>, id: string)
    requires Lacks(items, id)
    ensures RemoveById(items, id) == items
  {
    if items != [] {
      RemoveByIdAbsent(items[1..], id);
      assert items == [items[0]] + items[1..];
    }
  }

  /** Removing the same id twice is the same as removing it once. */
  lemma RemoveByIdIdempotent(items: seq<ImageFile>, id: string)
    ensures RemoveById(RemoveById(items, id), id) == RemoveById(items, id)
  {
    RemoveByIdAbsent(RemoveById(items, id), id);
  }

  /**
   * Removal works image by image: on a concatenation it is the concatenation
   * of the removals, so the kept images stay in their relative order.
   */
  lemma {:induction false} RemoveByIdDistributes(a: seq<ImageFile>, b: seq<ImageFile>, id: string)
    ensures RemoveById(a + b, id) == RemoveById(a, id) + RemoveById(b, id)
  {
    if a == [] {
      assert a + b == b;
    } else {
      assert (a + b)[0] == a[0];
      assert (a + b)[1..] == a[1..] + b;
      RemoveByIdDistributes(a[1..], b, id);
    }
  }

  lemma SplitAt(items: seq<ImageFile>, k: nat)
    requires k < |items|
    ensures items == items[..k] + ([items[k]] + items[k + 1..])
  {
    assert items[k..] == [items[k]] + items[k + 1..];
    assert items == items[..k] + items[k..];
  }

  /** With unique ids, no image before or after position k has the id at k. */
  lemma UniqueIdOnlyAt(items: seq<ImageFile>, k: nat)
    requires UniqueIds(items) && k < |items|
    ensures Lacks(items[..k], items[k].id) && Lacks(items[k + 1..], items[k].id)
  {
    var before, after := items[..k], items[k + 1..];
    forall j | 0 <= j < |before| ensures before[j].id != items[k].id {
      assert before[j] == items[j];
    }
    forall j | 0 <= j < |after| ensures after[j].id != items[k].id {
      assert after[j] == items[k + 1 + j];
    }
  }

  /**
   * With unique ids, removing the id of the image at position k takes out
   * that image and no other.
   */
  lemma RemoveByIdAt(items: seq<ImageFile>, k: nat)
    requires UniqueIds(items) && k < |items|
    ensures RemoveById(items, items[k].id) == items[..k] + items[k + 1..]
  {
    var id := items[k].id;
    var before, after := items[..k], items[k + 1..];
    var rest := [items[k]] + after;
    SplitAt(items, k);
    UniqueIdOnlyAt(items, k);
    RemoveByIdAbsent(before, id);
    RemoveByIdAbsent(after, id);
    RemoveByIdDistributes([items[k]], after, id);
    assert RemoveById(rest, id) == after;
    RemoveByIdDistributes(before, rest, id);
  }

  /** Removal keeps the ids unique. */
  lemma {:induction false} RemoveByIdKeepsUnique(items: seq<ImageFile>, id: string)
    requires UniqueIds(items)
    ensures UniqueIds(RemoveById(items, id))
  {
    if items != [] {
      var rest := RemoveById(items[1..], id);
      RemoveByIdKeepsUnique(items[1..], id);
      if items[0].id != id {
        forall k | 0 <= k < |rest| ensures rest[k].id != items[0].id {
          RemoveByIdKeeps(items[1..], id, rest[k]);
        }
        assert RemoveById(items, id) == [items[0]] + rest;
      }
    }
  }

  /** Appending images with fresh, distinct ids keeps the ids unique. */
  lemma AppendFreshKeepsUnique(items: seq<ImageFile>, added: seq<ImageFile>, issued: set<string>)
    requires UniqueIds(items) && UniqueIds(added)
    requires forall k :: 0 <= k < |items| ==> items[k].id in issued
    requires forall k :: 0 <= k < |added| ==> added[k].id !in issued
    ensures UniqueIds(items + added)
  {
    var all := items + added;
    forall i, j | 0 <= i < j < |all| ensures all[i].id != all[j].id {
      if j >= |items| && i < |items| {
        assert all[i] == items[i] && all[j] == added[j - |items|];
      }
    }
  }

  /** One update the handlers apply to the item list. */
  datatype ItemEdit = Append(images: seq<ImageFile>) | Remove(id: string)

  /** The item list after one update: append at the end, or remove by id. */
  function Apply(items: seq<ImageFile>, edit: ItemEdit): seq<ImageFile>
  {
    match edit
    case Append(images) => items + images
    case Remove(id) => RemoveById(items, id)
  }

  /** The item list after a history of updates, oldest first. */
  function ApplyAll(items: seq<ImageFile>, edits: seq<ItemEdit>): seq<ImageFile>
    decreases |edits|
  {
    if edits == [] then items else ApplyAll(Apply(items, edits[0]), edits[1..])
  }

  /** The ids a history of updates removes. */
  function RemovedIds(edits: seq<ItemEdit>): set<string>
  {
    if edits == [] then {}
    else (if edits[0].Remove? then {edits[0].id} else {}) + RemovedIds(edits[1..])
  }

  /** The images whose id is not in `ids`, in their order. */
  function Without(items: seq<ImageFile>, ids: set<string>): seq<ImageFile>
  {
    if items == [] then []
    else (if items[0].id in ids then [] else [items[0]]) + Without(items[1..], ids)
  }

  /**
   * Reference description of what a history leaves of the images it appends:
   * every appended image, in the order appended, except those whose id a
   * later update removes.
   */
  function Survivors(edits: seq<ItemEdit>): seq<ImageFile>
  {
    if edits == [] then []
    else if edits[0].Append? then Without(edits[0].images, RemovedIds(edits[1..])) + Survivors(edits[1..])
    else Survivors(edits[1..])
  }

  lemma {:induction false} WithoutNothing(items: seq<ImageFile>)
    ensures Without(items, {}) == items
  {
    if items != [] {
      WithoutNothing(items[1..]);
      assert items == [items[0]] + items[1..];
    }
  }

  lemma {:induction false} WithoutDistributes(a: seq<ImageFile>, b: seq<ImageFile>, ids: set<string>)
    ensures Without(a + b, ids) == Without(a, ids) + Without(b, ids)
  {
    if a == [] {
      assert a + b == b;
    } else {
      assert (a + b)[0] == a[0];
      assert (a + b)[1..] == a[1..] + b;
      WithoutDistributes(a[1..], b, ids);
    }
  }

  lemma {:induction false} WithoutAfterRemove(items: seq<ImageFile>, id: string, ids: set<string>)
    ensures Without(RemoveById(items, id), ids) == Without(items, {id} + ids)
  {
    if items != [] {
      WithoutAfterRemove(items[1..], id, ids);
      if items[0].id != id {
        assert RemoveById(items, id) == [items[0]] + RemoveById(items[1..], id);
        assert ([items[0]] + RemoveById(items[1..], id))[1..] == RemoveById(items[1..], id);
      }
    }
  }

  /**
   * Any history of uploads and removals leaves the list it started from minus
   * every id it removes, followed by exactly the appended images that no later
   * update removes, in the order they were appended.
   */
  lemma {:induction false} ApplyAllKeepsSurvivors(items: seq<ImageFile>, edits: seq<ItemEdit>)
    ensures ApplyAll(items, edits) == Without(items, RemovedIds(edits)) + Survivors(edits)
    decreases |edits|
  {
    if edits == [] {
      WithoutNothing(items);
    } else {
      ApplyAllKeepsSurvivors(Apply(items, edits[0]), edits[1..]);
      FirstEditSurvivors(items, edits);
    }
  }

  /** The inductive step of `ApplyAllKeepsSurvivors`: one edit at the front. */
  lemma FirstEditSurvivors(items: seq<ImageFile>, edits: seq<ItemEdit>)
    requires edits != []
    ensures Without(Apply(items, edits[0]), RemovedIds(edits[1..])) + Survivors(edits[1..])
         == Without(items, RemovedIds(edits)) + Survivors(edits)
  {
    var rest := edits[1..];
    var later := RemovedIds(rest);
    if edits[0].Append? {
      var images := edits[0].images;
      assert RemovedIds(edits) == later;
      assert Survivors(edits) == Without(images, later) + Survivors(rest);
      WithoutDistributes(items, images, later);
      assert Without(items + images, later) + Survivors(rest)
          == Without(items, later) + (Without(images, later) + Survivors(rest));
    } else {
      var id := edits[0].id;
      assert RemovedIds(edits) == {id} + later;
      assert Survivors(edits) == Survivors(rest);
      WithoutAfterRemove(items, id, later);
    }
  }
}
