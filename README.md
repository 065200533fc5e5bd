# Estilista IA — the App component's state machine in Dafny

Estilista IA lets a user upload one photo of a person and any number of item
images (clothes, accessories). The user writes an instruction, and an external
image-generation service returns one composite image, which the user can
download. All of the behaviour lives in the `App` component (`App.tsx`). It
holds six pieces of state: the person image, the item images, the instruction,
the final image, the loading flag and the error message. It also has the event
handlers that change them. This project models that state and those handlers:

- `wrappers.dfy`: module `Wrappers`, the `Option` type that models the
  component's nullable state (`T | null`).
- `registry.dfy`: module `ImageRegistry`. It models uploaded images and the
  pure list updates the handlers apply: building images for picked files
  (`map`), appending them (spread), removing by id (`filter`). It also proves
  what any history of uploads and removals leaves in the list.
- `generation.dfy`: module `Generation`. It models the generate pipeline as a
  function of the encoder's and the service's outcomes: encode the person, then
  every item (`Promise.all`), then call the service once. The function also
  returns the log of external calls, which the lemmas use to state when the
  service is or is not called.
- `download.dfy`: module `Download`, the link the download button builds.
- `app.dfy`: module `EstilistaApp`, class `App`. Its fields are the six state
  variables, and its methods are the handlers, each updating the fields in
  place in the source's order.

The external calls are parameters of the model:
- `fileToBase64` is a function from a file to a settled promise, `Resolved` with
  the encoding or `Rejected` with the thrown value.
- `generateCompositeImage` is a function from the person's encoding, the item
  encodings and the instruction to a settled promise.
- `crypto.randomUUID` and `URL.createObjectURL` are id and URL arguments of the
  upload handlers. The ids must be fresh with respect to a ghost set of ids
  issued so far.

A thrown value is either an `Error` with a message or something else. The
second kind shows the generic fallback message.

## Behaviour of the code worth noting

- Generating without a person image only sets the fixed error message. It
  leaves the final image and the loading flag as they were, rather than
  clearing the result (`App.tsx:73-76`).
- The download guard `!finalImage` also rejects an empty string. So no link is
  built for an empty image (`App.tsx:103`).
- Preview URLs are never released (`URL.revokeObjectURL` is never called), so
  the model states no release property.
- The generate button is the only guard against a second generation while one
  is loading (`App.tsx:177`); the handler itself does not check the flag.

## Model

| member | source | states |
|---|---|---|
| `ImageRegistry.FirstFile` | App.tsx:46-47 | the picked person file is present exactly when the file list is present and non-empty, and it is the first one |
| `ImageRegistry.NewImages` | App.tsx:59-63 | one image per picked file, same count and order, the k-th built from the k-th file, fresh id and preview URL |
| `ImageRegistry.RemoveById` | App.tsx:68-70 | the list never grows and no image left in it carries the removed id |
| `ImageRegistry.RemoveByIdKeeps` | App.tsx:69 | an image is kept exactly when it was in the list and its id differs from the removed id |
| `ImageRegistry.RemoveByIdAbsent` | App.tsx:68-70 | removing an id no image carries leaves the list unchanged |
| `ImageRegistry.RemoveByIdIdempotent` | App.tsx:68-70 | removing the same id twice equals removing it once |
| `ImageRegistry.RemoveByIdDistributes` | App.tsx:69 | removal acts on each image independently, so the kept images keep their relative order |
| `ImageRegistry.RemoveByIdAt` | App.tsx:68-70 | with unique ids, removing the id of the image at position k removes exactly that image |
| `ImageRegistry.RemoveByIdKeepsUnique` | App.tsx:68-70 | removal preserves uniqueness of ids |
| `ImageRegistry.AppendFreshKeepsUnique` | App.tsx:56-65 | appending images whose ids were never issued keeps all item ids unique |
| `ImageRegistry.ApplyAllKeepsSurvivors` | App.tsx:56-70 | after any history of uploads and removals, the list is the initial images whose ids were not removed, followed by every uploaded image that no later removal targets, in upload order |
| `Generation.ErrorText` | App.tsx:96 | an `Error`'s own message is shown; any other thrown value shows the fixed unknown-error message |
| `Generation.EncodeEach` | App.tsx:84 | the shape of `itemImages.map(img => fileToBase64(img.file))`: one encoder outcome per item, the k-th for the k-th item's file (a definition, not a proof) |
| `Generation.ItemReads` | App.tsx:84 | the encoder calls that map makes: one per item, the k-th on the k-th item's file, in item order (a definition, not a proof) |
| `Generation.AwaitAll` | App.tsx:83-85 | all encodings resolved iff the combination resolves, and then its values are the encodings in item order and number; otherwise it fails with the reason of some rejected encoding |
| `Generation.GenerationRun` | App.tsx:81-93 | the person's file is read first; a failed person encoding ends the run with its reason and nothing else is called; otherwise every item file is read next, in item order; a successful run had every encoding succeed |
| `Generation.ServiceCalledOnceIffAllEncoded` | App.tsx:81-91 | the service is called exactly once when every encoding succeeds and never otherwise, so a failed encoding never leads to a request |
| `Generation.ServiceRequestFollowsRegistry` | App.tsx:82-93 | the request is the last call; it carries the person's encoding, the item encodings in the number and order of the item list, and the current instruction; the run's outcome is the service's answer to it |
| `Generation.RejectionHasSource` | App.tsx:81-96 | a failed run fails with the reason of the person's encoding, of one item encoding, or of the service call |
| `Download.DownloadAnchor` | App.tsx:102-106 | no link when the final image is absent or empty; otherwise the file name is the fixed PNG name and the href is the PNG data-URL prefix followed by exactly the image's base64 payload |
| `EstilistaApp.App.constructor` | App.tsx:37-43 | initial state: no person image, no items, empty instruction, no image, not loading, no error |
| `EstilistaApp.App.HandlePersonImageUpload` | App.tsx:45-54 | with a picked file the person slot holds a new image of it under the fresh id; without one nothing changes; item list, instruction, image, loading flag and error are untouched |
| `EstilistaApp.App.RemovePersonImage` | App.tsx:141 | the person slot becomes empty and nothing else changes |
| `EstilistaApp.App.HandleItemImagesUpload` | App.tsx:56-66 | with a file list, the new images follow the existing items, which are unchanged; without one the list is unchanged; item ids stay unique; nothing else changes |
| `EstilistaApp.App.RemoveItemImage` | App.tsx:68-70 | the item list becomes the filtered list; item ids stay unique; nothing else changes |
| `EstilistaApp.App.SetPrompt` | App.tsx:173 | the instruction becomes the typed text and nothing else changes |
| `EstilistaApp.App.GenerateEnabled` | App.tsx:177 | the generate button is enabled exactly when nothing is loading and a person image is present |
| `EstilistaApp.App.EnterLoading` | App.tsx:77-79 | error cleared, loading flag set, previous image cleared, so the generate button is disabled; registry and instruction untouched |
| `EstilistaApp.App.HandleGenerateImage` | App.tsx:72-100 | without a person: fixed error message, no external call, image and loading flag unchanged. With a person: when the first external call is made, no error and no image are shown and the loading flag is set; the calls made and the final state follow `GenerationRun`. On success the image is the service's and there is no error; on failure there is no image and the error is the failure's message. The loading flag is cleared, exactly one of image and error is present, and the button is enabled again |

## Left out

- JSX layout, SVG icons and styling (`App.tsx:7-33`, `App.tsx:113-212`): presentational only.
- `fileToBase64` (`utils/fileUtils`) and `generateCompositeImage` (`services/geminiService`) are not part of this model. They enter only as functions giving the settled outcome of each call, so base64 and the network are not modelled.
- `crypto.randomUUID` and `URL.createObjectURL` are foreign calls. Ids and preview URLs are arguments, and ids are required to be fresh.
- Preview-URL release: the code never calls `URL.revokeObjectURL`, so no release property is claimed.
- Asynchrony: React state batching, stale `useCallback` closures and interleaving at `await` points are not modelled. The generate handler is one sequential transition. The rule that at most one generation is in flight is enforced only by the disabled button, and the model states it only as `GenerateEnabled`.
- `console.error` and the DOM steps of the download (creating, appending, clicking and removing the link) are side effects with no bearing on the state.
- Generation.AwaitAll: it fails with the reason of the first rejected encoding in item order, and its contract says only "some rejected encoding". `Promise.all` rejects with the first rejection in time, and completion timing is not modelled.
