# Image gallery client — Dafny model

A model of the logic of a small mobile client that shows the images stored in
an S3 bucket. The client keeps the bucket credentials on the device, lists the
bucket, keeps the image files, signs a one-hour URL for each and shows them
newest first in a grid. Any image opens in a dialog with a download link.

What is modelled, one module per source file:

- `S3Service` (`src/lib/s3Service.ts`). The service built from the stored
  credential record (`loadConfig`, `isConfigured`, `getConfig`). The
  `listImages` pipeline: the case-insensitive extension filter, the
  all-or-nothing validation of the kept objects, one signing call per object,
  the newest-first sort, and the error wrapping. Also `uploadImage` and its
  default key.
- `ConfigForm` (`src/components/S3ConfigForm.tsx`). The form's initial record
  and defaults, the per-field edits, and the submit handler. Submit checks
  three required fields; only when all are filled does it write the record to
  the store and pass it to the parent.
- `ImageGallery` (`src/components/ImageGallery.tsx`). The gallery state
  `{images, loading, refreshing, error, selected}`, the fetch start and
  completion transitions, and the choice of view. Also the count label and the
  card titles.
- `ImageModal` (`src/components/ImageModal.tsx`). The dialog's title, its
  download file name and its download link.
- `Text`. Shared string helpers: ASCII lower-casing, `endsWith`,
  `split('/')`/`pop()` and the base-name rule, and decimal numerals.
- `Records` and `Outcomes`. The shared records, the key-value store, and the
  `Result`/`Thrown` values that stand in for thrown exceptions.

The cloud SDK is not modelled. Its listing call, URL signer and uploader are
function-typed parameters: each maps a request to its outcome. A fetch or a
submit is one atomic step. The on-device store is a `map<string, Stored>`, and
parsing JSON is the identity on credential records. Timestamps are integers in
milliseconds. The upload time `Date.now()` is a parameter, and so is the
fault, if any, that the form's store write throws.

Points where the code's behaviour is easy to misread, all modelled as
written:

- An image object with size 0 fails the whole listing, because `!obj.Size`
  is true for 0, not only for a missing size.
- There are no typed error kinds. Every failure is a plain `Error` with a
  message. The "not configured" error of `listImages` is thrown outside the
  `try`, so it does not get the `"Failed to fetch images: "` prefix.
- `isConfigured()` is true for any stored record, even one whose fields are
  empty. The fields are not checked.
- A failed refresh sets `error` just as a failed first load does, so both end
  on the full-screen error view instead of the grid. The images are kept in
  the state underneath.
- The error view shows only when the message is non-empty. An empty message
  is falsy, so the grid shows instead.
- Each gallery fetch builds a new service from the store. So a fetch always
  sees the record stored at that moment.

## Model

| member | source | states |
|---|---|---|
| Text.Lower | src/lib/s3Service.ts:74 | lower-casing keeps the length, leaves no upper-case letter, and changes only `A`–`Z`, each to its lower-case letter |
| Text.LowerIdempotent | src/lib/s3Service.ts:74 | lower-casing an already lower-cased key changes nothing |
| Text.EndsWithAny | src/lib/s3Service.ts:75 | the `some(... endsWith ...)` walk is true exactly when some listed suffix ends the string |
| Text.Split | src/components/ImageModal.tsx:29 | `split('/')` yields at least one piece and no piece contains `/` |
| Text.JoinSplit | src/components/ImageGallery.tsx:153 | joining the pieces of `split('/')` with `/` gives the key back |
| Text.LastSegment | src/components/ImageModal.tsx:42 | the last segment has no `/`, ends the key, and is the whole key or follows a `/` |
| Text.LastOfSplit | src/components/ImageModal.tsx:42 | `split('/').pop()` equals the last segment computed from the right |
| Text.DisplayName | src/components/ImageGallery.tsx:153 | the base name is the last segment when that is non-empty and the whole key otherwise; a key with no `/` is its own base name; a non-empty last segment has no `/` and ends the key |
| Text.DecimalString | src/components/ImageGallery.tsx:110 | a rendered count is a non-empty digit string with no leading zero |
| Text.ParseDecimalString | src/lib/s3Service.ts:113 | reading a rendered number back gives the number |
| Text.DecimalStringInjective | src/lib/s3Service.ts:113 | different times render as different numerals |
| S3Service.LoadConfig | src/lib/s3Service.ts:21-52 | a constructed service has a record exactly when the store holds a parsed credential record under `s3Config`; the record is that one, and the client is built from it exactly when the record is set |
| S3Service.ConfiguredIffRecordStored | src/lib/s3Service.ts:132-138 | `isConfigured()` is true exactly when a record was stored; `getConfig()` then returns it and is null otherwise |
| S3Service.FetchFailure | src/lib/s3Service.ts:102-104 | a fetch error message is `"Failed to fetch images: "` followed by the cause's message, or by `"Unknown error"` for a non-Error cause |
| S3Service.FilterImages | src/lib/s3Service.ts:71-76 | the kept objects are exactly the listed objects whose lower-cased key ends in an image extension, each kept as often as it is listed |
| S3Service.ImageObjectsHaveKeys | src/lib/s3Service.ts:74-81 | every kept object has a present, non-empty key, because an absent key reads as `""` |
| S3Service.ImageKeyIgnoresCase | src/lib/s3Service.ts:74-75 | a key and its lower-cased form are kept or dropped together |
| S3Service.NotImageByLastChar | src/lib/s3Service.ts:72-75 | a key whose lower-cased last character is not `g`, `f` or `p` is not an image key |
| S3Service.UpperCaseExtensionKept | src/lib/s3Service.ts:74-75 | `A.PNG` is kept |
| S3Service.SignAll | src/lib/s3Service.ts:79-98 | signing succeeds exactly when every signing call succeeds; then entry i copies object i's key, time and size and carries the URL signed for its key with a 3600-second expiry; otherwise the failure is some call's cause |
| S3Service.SortNewestFirst | src/lib/s3Service.ts:100-101 | the sorted list is newest first and a permutation of its input |
| S3Service.NewestFirstPairwise | src/lib/s3Service.ts:100-101 | newest-first on adjacent pairs means every earlier entry is at least as recent as every later one |
| S3Service.SignAndSort | src/lib/s3Service.ts:79-101 | a validated batch succeeds exactly when every signing call succeeds; then it is newest first and is a permutation of the signed entries, where entry i copies object i's fields and carries its signed URL, so there is exactly one entry per kept object; otherwise the error wraps a failed call's cause |
| S3Service.ProcessContents | src/lib/s3Service.ts:71-101 | if any kept object lacks a key, a time or a non-zero size, the result is the single `"Invalid object data"` failure; otherwise it is the signed and sorted batch; every failure carries the fetch prefix |
| S3Service.ProcessContentsAllOrNothing | src/lib/s3Service.ts:73-98 | the listing succeeds exactly when every kept object is well formed and signs, so malformed objects the filter drops cannot fail it |
| S3Service.ListImages | src/lib/s3Service.ts:54-106 | an unconfigured service fails with the unprefixed not-configured message; a configured one lists its bucket with a 1000-key page; a rejected listing is wrapped; absent contents give an empty list; every success is newest first and holds image keys only |
| S3Service.UnconfiguredMakesNoRemoteCall | src/lib/s3Service.ts:54-57 | without configuration the answer is the same whatever the listing and signer would return |
| S3Service.OnlyThePictureIsListed | src/lib/s3Service.ts:54-101 | a bucket holding `photos/a.png` and `docs/readme.txt` lists exactly the picture with its signed URL |
| S3Service.PictureAndTextProcessed | src/lib/s3Service.ts:73-101 | on that listing the filter drops the text file, and the picture alone is signed and returned as one entry |
| S3Service.ZeroByteImageFailsListing | src/lib/s3Service.ts:73-83 | one image object of size 0 anywhere in the listing fails the whole call with `"Invalid object data"`, whatever the signer says |
| S3Service.UploadKey | src/lib/s3Service.ts:113 | a present, non-empty caller key is used as is; otherwise the key starts with `uploads/`, ends with `-` and the file name, and has room for exactly the time's numeral between them |
| S3Service.DefaultUploadKeyTime | src/lib/s3Service.ts:113 | the digits between `uploads/` and the dash of a generated key read back as the upload time |
| S3Service.DefaultUploadKeyTitle | src/lib/s3Service.ts:113 | a file uploaded under a generated key shows as `<time>-<file name>` when its name has no `/` |
| S3Service.UploadImage | src/lib/s3Service.ts:108-130 | an unconfigured service fails with `"S3 service not configured"`; otherwise one private upload to the configured bucket is made; it succeeds with the upload's location or fails with `"Failed to upload image: "` and the cause's message |
| ConfigForm.InitialForm | src/components/S3ConfigForm.tsx:22-29 | each field takes the initial value when it is non-empty; otherwise it is empty, except the region, which defaults to `us-east-1`; secrets start hidden and nothing is being saved |
| ConfigForm.Edit | src/components/S3ConfigForm.tsx:78-123 | editing a field sets that field and leaves the other three and both flags unchanged |
| ConfigForm.ToggleSecrets | src/components/S3ConfigForm.tsx:100 | the eye button flips only the secrets' visibility |
| ConfigForm.Submit | src/components/S3ConfigForm.tsx:32-59 | the parent is called exactly when access key, secret and bucket are non-empty (the region unchecked) and the store write does not throw; then the store gains exactly the current record under `s3Config` and the parent gets that record; otherwise the store is unchanged and an error toast shows the missing-fields message, the failed write's message, or `"Failed to save configuration"` for a non-`Error`; `saving` ends false either way |
| ConfigForm.SavedConfigIsLoaded | src/components/S3ConfigForm.tsx:42-44 | after a successful submit, a newly constructed service is configured and `getConfig()` returns the submitted record |
| ConfigForm.RejectedSubmitKeepsService | src/components/S3ConfigForm.tsx:37-55 | a submit rejected for missing fields, or whose store write threw, leaves the service the store configures exactly as before |
| ConfigForm.PrefillRoundTrip | src/components/S3ConfigForm.tsx:22-27 | a form pre-filled from a stored record holds that record exactly when its region is non-empty; an empty region comes back as `us-east-1` |
| ImageModal.ModalFor | src/components/ImageModal.tsx:26-42 | the dialog title and the download name are the same base name of the key; the link's href and the picture both are the signed URL, and the link opens in a new tab (`_blank`) |
| ImageModal.TitleNonEmpty | src/components/ImageModal.tsx:42 | a non-empty key never gets an empty title |
| ImageGallery.MountShowsSpinner | src/components/ImageGallery.tsx:18-22 | on mount there are no images, no error and no dialog, `loading` is on so the spinner shows, and the first load leaves no dialog open |
| ImageGallery.StartFetch | src/components/ImageGallery.tsx:25-32 | starting a fetch clears the error and raises `refreshing` for a refresh or `loading` otherwise, keeping the images |
| ImageGallery.CompleteFetch | src/components/ImageGallery.tsx:33-55 | completing a fetch drops both flags; success replaces the images; failure keeps them and records the thrown message or `"Failed to load images"` |
| ImageGallery.Fetch | src/components/ImageGallery.tsx:25-56 | after a whole fetch both flags are false; on success the images are the fetched ones and there is no error; on failure the images are unchanged and the error is the message |
| ImageGallery.OutcomeOf | src/components/ImageGallery.tsx:35-45 | the awaited listing's success becomes the fetched images, and its rejection becomes an `Error` with the service's message |
| ImageGallery.FetchFromStore | src/components/ImageGallery.tsx:25-56 | a fetch builds a new service from the store; when its listing succeeds the gallery shows exactly those images with no error, and when it fails the images are kept and the error is the service's message; with no stored record that is the not-configured message |
| ImageGallery.Select | src/components/ImageGallery.tsx:140 | clicking a card opens the dialog on that image and changes nothing else |
| ImageGallery.Close | src/components/ImageGallery.tsx:165-169 | closing the dialog changes neither the images nor the flags, so nothing is fetched again |
| ImageGallery.CountLabel | src/components/ImageGallery.tsx:110 | the label is exactly the count's numeral followed by `" image found"` when the count is 1 and by `" images found"` otherwise |
| ImageGallery.CountLabelNumber | src/components/ImageGallery.tsx:110 | the label's leading digits read back as the count |
| ImageGallery.CardFor | src/components/ImageGallery.tsx:136-158 | a card's title is the key's base name, its tooltip and alt text are the key, and its picture is the signed URL |
| ImageGallery.ViewOf | src/components/ImageGallery.tsx:81-172 | loading gives the spinner; otherwise a non-empty error gives the error screen with that message; otherwise the grid shows, in order, one card per image that is exactly that image's card, the count label, a refresh button disabled while refreshing, and the dialog when an image is selected |
| ImageGallery.FailedRefreshShowsErrorScreen | src/components/ImageGallery.tsx:89-102 | a refresh that fails with a non-empty message shows the error screen, though the kept images stay in the state |
| ImageGallery.SuccessfulFetchShowsGrid | src/components/ImageGallery.tsx:104-163 | after a successful fetch the grid shows one card per fetched image, titled by base name, with refresh enabled |
| ImageGallery.UnconfiguredLoadShowsError | src/components/ImageGallery.tsx:58-59 | the first load without stored credentials ends on the error screen with the not-configured message |

## Left out

- The cloud SDK is foreign code. Its remote calls (`listObjectsV2`, `getSignedUrlPromise`, `upload`) are parameters that map a request to an outcome. Its two construction calls (`AWS.config.update`, `new AWS.S3`) are assumed to succeed.
- S3Service.LoadConfig: does not model a throw from `AWS.config.update` or `new AWS.S3`. In the source that throw is swallowed after the record is set, leaving a half-configured service whose `getConfig()` returns the record while `isConfigured()` is false; in the model a stored record always yields a client.
- The 1000-key page cap is only a constant in the listing request. The model does not bound how many objects the listing returns, because that is the remote's job.
- The 3600-second URL lifetime is only the `expires` field of each signing request. URL freshness and expiry belong to the remote.
- `localStorage` and `JSON.stringify`/`JSON.parse`: the store is a map and parsing is the identity on records. A stored value that parses to a non-null non-record (a number, `false`) is not modelled, nor is a stored object missing some of the four fields: a record here always has all four strings.
- The storage failures caught and logged by `loadConfig`, and `console.error` logging in general.
- `Promise.all` ordering, the 30-second refresh timer, and overlapping fetches. Each fetch is one atomic start and completion.
- S3Service.SignAll: when several signing calls fail, the model reports the cause of the first in listing order. The source reports whichever call rejects first in time.
- S3Service.SortNewestFirst: the order among entries with equal timestamps is not stated. The model sorts stably, as the JavaScript sort does.
- Text.Lower: lower-cases ASCII letters only. JavaScript's `toLowerCase` also maps other Unicode letters, but no non-ASCII letter lower-cases to text ending in one of the seven extensions (the Kelvin sign becomes `k`, a dotted capital I becomes `i` plus a combining dot), so the filter's decision is unchanged.
- `formatFileSize`, because it uses floating-point logarithms and rounding.
- Date display (`toLocaleDateString`, `toLocaleString`), because it is locale formatting.
- The DOM steps of the download: creating, clicking and removing the link. Only the link's attributes are modelled.
- JSX layout, icons and styling, and both of the gallery's toasts: the success toast after a refresh and the error toast after a failed fetch. The gallery records the error message in its state; Submit's toast is kept as a value.
- The browser's own check of the inputs' `required` attributes, which would also block an empty region. `handleSubmit` itself does not check the region.
- The `saving` flag's true state during submit, and the button it disables. A submit is atomic, so `saving` is false again once it ends.
- `src/pages/Index.tsx` is a screen switch on one flag. Its pre-fill of the form from `getConfig()` appears in ConfigForm.PrefillRoundTrip.
- `capacitor.config.ts` is static packaging configuration.
