/**
 * The `App` component's state and its event handlers: the person slot, the
 * item list, the instruction, the generated image, the loading flag and the
 * error message, each updated in place by the handler the user triggers.
 */
module EstilistaApp {

  import opened Wrappers
  import opened ImageRegistry
  import opened Generation

  /** What the results column shows: the error box, the spinner, the image. */
  datatype Indicators = Indicators(error: Option<string>, isLoadingImage: bool, finalImage: Option<string>)

  class App {
    var personImage: Option<ImageFile>
    var itemImages: seq<ImageFile>
    var prompt: string
    var finalImage: Option<string>
    var isLoadingImage: bool
    var error: Option<string>

    /** Every id handed out by an upload so far. */
    ghost var issuedIds: set<string>

    /** Item ids are unique, and every id in use was issued by an upload. */
    ghost predicate Valid()
      reads this
    {
      && UniqueIds(itemImages)
      && (forall k :: 0 <= k < |itemImages| ==> itemImages[k].id in issuedIds)
      && (personImage.Some? ==> personImage.value.id in issuedIds)
    }

    /** The initial state: nothing uploaded, empty instruction, idle. */
    constructor ()
      ensures Valid()
      ensures personImage == None && itemImages == [] && prompt == ""
      ensures finalImage == None && !isLoadingImage && error == None
      ensures issuedIds == {}
    {
      personImage := None;
      itemImages := [];
      prompt := "";
      finalImage := None;
      isLoadingImage := false;
      error := None;
      issuedIds := {};
    }

    /**
     * A change of the person file input: when a file was picked, the person
     * slot holds a new image of it under the fresh id; otherwise nothing
     * changes. Nothing but the person slot is touched.
     */
    method HandlePersonImageUpload(selection: Option<seq<File>>, id: string, url: string)
      requires Valid() && id !in issuedIds
      modifies this
      ensures Valid()
      ensures FirstFile(selection).Some? ==>
        personImage == Some(ImageFile(id, url, FirstFile(selection).value)) && issuedIds == old(issuedIds) + {id}
      ensures FirstFile(selection).None? ==> personImage == old(personImage) && issuedIds == old(issuedIds)
      ensures itemImages == old(itemImages) && prompt == old(prompt)
      ensures finalImage == old(finalImage) && isLoadingImage == old(isLoadingImage) && error == old(error)
    {
      var file := FirstFile(selection);
      if file.Some? {
        personImage := Some(ImageFile(id, url, file.value));
        issuedIds := issuedIds + {id};
      }
    }

    /** The remove button on the person preview empties the person slot. */
    method RemovePersonImage()
      requires Valid()
      modifies this
      ensures Valid()
      ensures personImage == None
      ensures itemImages == old(itemImages) && prompt == old(prompt)
      ensures finalImage == old(finalImage) && isLoadingImage == old(isLoadingImage) && error == old(error)
      ensures issuedIds == old(issuedIds)
    {
      personImage := None;
    }

    /**
     * A change of the items file input: when a file list is present, one new
     * image per picked file, in the order picked, goes after the existing
     * items, which stay as they were. Nothing but the item list is touched.
     */
    method HandleItemImagesUpload(selection: Option<seq<File>>, ids: seq<string>, urls: seq<string>)
      requires Valid()
      requires |ids| == |urls| == (if selection.Some? then |selection.value| else 0)
      requires FreshIds(ids, issuedIds)
      modifies this
      ensures Valid()
      ensures selection.Some? ==>
        itemImages == old(itemImages) + NewImages(selection.value, ids, urls)
      ensures selection.None? ==> itemImages == old(itemImages)
      ensures personImage == old(personImage) && prompt == old(prompt)
      ensures finalImage == old(finalImage) && isLoadingImage == old(isLoadingImage) && error == old(error)
      ensures issuedIds == old(issuedIds) + set k | 0 <= k < |ids| :: ids[k]
    {
      if selection.Some? {
        var added := NewImages(selection.value, ids, urls);
        AppendFreshKeepsUnique(itemImages, added, issuedIds);
        itemImages := itemImages + added;
      }
      issuedIds := issuedIds + set k | 0 <= k < |ids| :: ids[k];
    }

    /**
     * The remove button on an item preview: the items whose id differs from
     * `id` remain, in their order. Nothing else is touched.
     */
    method RemoveItemImage(id: string)
      requires Valid()
      modifies this
      ensures Valid()
      ensures itemImages == RemoveById(old(itemImages), id)
      ensures personImage == old(personImage) && prompt == old(prompt)
      ensures finalImage == old(finalImage) && isLoadingImage == old(isLoadingImage) && error == old(error)
      ensures issuedIds == old(issuedIds)
    {
      var kept := RemoveById(itemImages, id);
      RemoveByIdKeepsUnique(itemImages, id);
      forall k | 0 <= k < |kept| ensures kept[k].id in issuedIds {
        RemoveByIdKeeps(itemImages, id, kept[k]);
      }
      itemImages := kept;
    }

    /** Typing in the instruction box replaces the instruction. */
    method SetPrompt(text: string)
      requires Valid()
      modifies this
      ensures Valid()
      ensures prompt == text
      ensures personImage == old(personImage) && itemImages == old(itemImages)
      ensures finalImage == old(finalImage) && isLoadingImage == old(isLoadingImage) && error == old(error)
      ensures issuedIds == old(issuedIds)
    {
      prompt := text;
    }

    /**
     * The generate button is enabled exactly when no generation is loading and
     * a person image is present; this is the only guard against a second
     * generation while one is in flight.
     */
    function GenerateEnabled(): (enabled: bool)
      reads this
      ensures enabled <==> !isLoadingImage && personImage.Some?
    {
      !(isLoadingImage || personImage.None?)
    }

    /**
     * The first step of a generation with a person present: clear the error
     * and the previous image and show the loading indicator, before any
     * external call.
     */
    method EnterLoading()
      modifies this
      ensures error == None && isLoadingImage && finalImage == None
      ensures !GenerateEnabled()
      ensures personImage == old(personImage) && itemImages == old(itemImages) && prompt == old(prompt)
      ensures issuedIds == old(issuedIds)
    {
      error := None;
      isLoadingImage := true;
      finalImage := None;
    }

    /**
     * The generate button's handler. Without a person image it only sets the
     * fixed error message and calls nothing outside. Otherwise it enters the
     * loading state, runs the encoders and the service as `GenerationRun`
     * describes, and settles: the service's image and no error on success, the
     * failure's message and no image on failure, and the loading flag cleared
     * either way. Returns the external calls made, in order, and (as ghost)
     * what the results column showed when the first of them was made.
     */
    method HandleGenerateImage(
      encode: File -> Settled<string>,
      service: (string, seq<string>, string) -> Settled<string>)
      returns (calls: seq<ExternalCall>, ghost atFirstCall: Option<Indicators>)
      requires Valid()
      modifies this
      ensures Valid()
      ensures personImage == old(personImage) && itemImages == old(itemImages) && prompt == old(prompt)
      ensures issuedIds == old(issuedIds)
      ensures old(personImage).None? ==>
        && error == Some(MissingPersonMessage) && calls == [] && atFirstCall == None
        && finalImage == old(finalImage) && isLoadingImage == old(isLoadingImage)
      ensures old(personImage).Some? ==>
        var run := GenerationRun(encode, service, old(personImage).value.file, old(itemImages), old(prompt));
        && calls == run.calls
        && atFirstCall == Some(Indicators(None, true, None))
        && !isLoadingImage
        && finalImage == (if run.result.Resolved? then Some(run.result.value) else None)
        && error == (if run.result.Rejected? then Some(ErrorText(run.result.reason)) else None)
      ensures old(personImage).Some? ==> (finalImage.Some? <==> error.None?) && GenerateEnabled()
    {
      if personImage.None? {
        error := Some(MissingPersonMessage);
        calls, atFirstCall := [], None;
        return;
      }
      var person := personImage.value;
      EnterLoading();

      atFirstCall := Some(Indicators(error, isLoadingImage, finalImage));
      calls := [ReadAsBase64(person.file)];
      var personEncoding := encode(person.file);
      if personEncoding.Rejected? {
        error := Some(ErrorText(personEncoding.reason));
      } else {
        calls := calls + ItemReads(itemImages);
        var itemEncodings := AwaitAll(EncodeEach(encode, itemImages));
        if itemEncodings.Rejected? {
          error := Some(ErrorText(itemEncodings.reason));
        } else {
          calls := calls + [ComposeImage(personEncoding.value, itemEncodings.value, prompt)];
          var generated := service(personEncoding.value, itemEncodings.value, prompt);
          match generated
          case Resolved(image) => finalImage := Some(image);
          case Rejected(reason) => error := Some(ErrorText(reason));
        }
      }
      isLoadingImage := false;
    }
  }
}
