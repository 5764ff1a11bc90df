/** The gallery screen: a record of displayed images and status flags,
    changed by fetch start/completion and by opening or closing the detail
    dialog, and the view chosen from that record.

    A fetch is an atomic pair: `StartFetch` and then `CompleteFetch` with
    whatever the listing produced. Each fetch builds a fresh service from
    the store, so it sees the credential record stored at that moment.
 */
module ImageGallery {
  import opened Outcomes
  import opened Records
  import opened Text
  import S3Service
  import ImageModal

  const LoadFailedFallback: string := "Failed to load images"

  /** The component's state. */
  datatype Gallery = Gallery(
    images: seq<S3Image>,
    loading: bool,
    refreshing: bool,
    error: Option<string>,
    selected: Option<S3Image>)

  /** The state on mount: no images, loading, no error, no dialog. */
  const Initial: Gallery := Gallery([], true, false, None, None)

  /** On mount the gallery shows the spinner over an empty list, and the
      first load, whatever its outcome, leaves no dialog open. */
  lemma MountShowsSpinner(outcome: FetchOutcome)
    ensures Initial.images == [] && Initial.error.None? && Initial.selected.None?
    ensures Initial.loading && !Initial.refreshing
    ensures ViewOf(Initial) == Spinner
    ensures Fetch(Initial, false, outcome).selected.None?
  {
  }

  /** How the awaited listing ended. */
  datatype FetchOutcome = Fetched(images: seq<S3Image>) | FetchThrew(cause: Thrown)

  /* ---------------------------------------------------------------- */
  /* Fetch transitions                                                 */
  /* ---------------------------------------------------------------- */

  /** Start of `fetchImages(isRefresh)`: a refresh raises `refreshing`, a
      load raises `loading`; the error is cleared; the images stay. */
  function StartFetch(g: Gallery, isRefresh: bool): (r: Gallery)
    ensures r.error.None?
    ensures isRefresh ==> r.refreshing && r.loading == g.loading
    ensures !isRefresh ==> r.loading && r.refreshing == g.refreshing
    ensures r.images == g.images && r.selected == g.selected
  {
    var g' := if isRefresh then g.(refreshing := true) else g.(loading := true);
    g'.(error := None)
  }

  /** End of `fetchImages`: fetched images replace the displayed ones; a
      failure keeps the displayed images and records the thrown message
      (`"Failed to load images"` for a non-`Error`); both flags drop. */
  function CompleteFetch(g: Gallery, outcome: FetchOutcome): (r: Gallery)
    ensures !r.loading && !r.refreshing
    ensures outcome.Fetched? ==> r.images == outcome.images && r.error == g.error
    ensures outcome.FetchThrew? ==>
      r.images == g.images && r.error == Some(MessageOr(outcome.cause, LoadFailedFallback))
    ensures r.selected == g.selected
  {
    var g' := match outcome
      case Fetched(images) => g.(images := images)
      case FetchThrew(cause) => g.(error := Some(MessageOr(cause, LoadFailedFallback)));
    g'.(loading := false, refreshing := false)
  }

  /** One whole fetch. */
  function Fetch(g: Gallery, isRefresh: bool, outcome: FetchOutcome): (r: Gallery)
    ensures !r.loading && !r.refreshing
    ensures outcome.Fetched? ==> r.images == outcome.images && r.error.None?
    ensures outcome.FetchThrew? ==>
      r.images == g.images && r.error == Some(MessageOr(outcome.cause, LoadFailedFallback))
    ensures r.selected == g.selected
  {
    CompleteFetch(StartFetch(g, isRefresh), outcome)
  }

  /** `listImages` only ever rejects with an `Error`, whose message is the
      one the service produced. */
  function OutcomeOf(listed: Result<seq<S3Image>, string>): (o: FetchOutcome)
    ensures listed.Ok? <==> o.Fetched?
    ensures listed.Ok? ==> o.images == listed.value
    ensures listed.Err? ==> o.cause == ErrorObject(listed.error)
  {
    match listed
    case Ok(images) => Fetched(images)
    case Err(message) => FetchThrew(ErrorObject(message))
  }

  /** `fetchImages` against the store: a new service is constructed from
      the store and asked for its images. Without a stored record the fetch
      fails with the service's not-configured message and keeps the
      displayed images; a successful fetch displays newest-first image
      entries. */
  function FetchFromStore(g: Gallery, isRefresh: bool, store: Store,
                          list: S3Service.ListRequest -> S3Service.Listing,
                          sign: S3Service.SignRequest -> S3Service.Signing): (r: Gallery)
    ensures !r.loading && !r.refreshing && r.selected == g.selected
    ensures !(StorageKey in store && store[StorageKey].Record?) ==>
      r.images == g.images && r.error == Some(S3Service.NotConfiguredMessage)
    ensures r.error.None? ==> S3Service.NewestFirst(r.images)
    ensures r.error.None? ==> forall k :: 0 <= k < |r.images| ==> S3Service.IsImageKey(r.images[k].key)
    ensures r.error.Some? ==> r.images == g.images
    ensures var listed := S3Service.ListImages(S3Service.LoadConfig(store), list, sign);
      && (listed.Ok? ==> r.images == listed.value && r.error.None?)
      && (listed.Err? ==> r.images == g.images && r.error == Some(listed.error))
  {
    var svc := S3Service.LoadConfig(store);
    S3Service.ConfiguredIffRecordStored(store);
    Fetch(g, isRefresh, OutcomeOf(S3Service.ListImages(svc, list, sign)))
  }

  /* ---------------------------------------------------------------- */
  /* Dialog                                                            */
  /* ---------------------------------------------------------------- */

  /** Clicking a card opens the dialog on that image. */
  function Select(g: Gallery, image: S3Image): (r: Gallery)
    ensures r.selected == Some(image)
    ensures r.images == g.images && r.loading == g.loading && r.refreshing == g.refreshing && r.error == g.error
  {
    g.(selected := Some(image))
  }

  /** Closing the dialog returns to the grid without fetching again. */
  function Close(g: Gallery): (r: Gallery)
    ensures r.selected.None?
    ensures r.images == g.images && r.loading == g.loading && r.refreshing == g.refreshing && r.error == g.error
  {
    g.(selected := None)
  }

  /* ---------------------------------------------------------------- */
  /* View                                                              */
  /* ---------------------------------------------------------------- */

  /** The plural noun after any numeral. */
  lemma PluralSuffix(digits: string)
    ensures EndsWith(digits + " images found", " images found")
    ensures !EndsWith(digits + " images found", " image found")
  {
    var caption := digits + " images found";
    assert caption[|caption| - 13..] == " images found";
    assert caption[|caption| - 12] == 'i';
  }

  /** `{n} image{n !== 1 ? 's' : ''} found` */
  function CountLabel(n: nat): (caption: string)
    ensures EndsWith(caption, " images found") <==> n != 1
    ensures EndsWith(caption, " image found") <==> n == 1
    ensures StartsWith(caption, DecimalString(n))
    ensures caption[|DecimalString(n)|..] == if n == 1 then " image found" else " images found"
  {
    var digits := DecimalString(n);
    if n == 1 then
      assert digits == "1";
      "1 image found"
    else
      PluralSuffix(digits);
      assert (digits + " images found")[..|digits|] == digits;
      assert (digits + " images found")[|digits|..] == " images found";
      digits + " images found"
  }

  /** One grid card. */
  datatype Card = Card(title: string, tooltip: string, imageSrc: string, imageAlt: string)

  function CardFor(image: S3Image): (c: Card)
    ensures c.title == DisplayName(image.key)
    ensures c.tooltip == image.key && c.imageAlt == image.key && c.imageSrc == image.url
  {
    Card(DisplayName(image.key), image.key, image.url, image.key)
  }

  /** What the component renders. The grid carries the count caption,
      whether the refresh button is disabled, the cards (none means the
      "no images" panel) and the dialog, if one is open. */
  datatype View =
    | Spinner
    | ErrorScreen(message: string)
    | Grid(countLabel: string, refreshDisabled: bool, cards: seq<Card>, dialog: Option<ImageModal.Modal>)

  /** The rendered view: a spinner while loading, else the error screen
      when the error is a non-empty string (an empty message is falsy and
      falls through), else the grid. */
  function ViewOf(g: Gallery): (v: View)
    ensures v.Spinner? <==> g.loading
    ensures v.ErrorScreen? <==> !g.loading && g.error.Some? && g.error.value != ""
    ensures v.ErrorScreen? ==> v.message == g.error.value
    ensures v.Grid? ==> v.countLabel == CountLabel(|g.images|) && v.refreshDisabled == g.refreshing
    ensures v.Grid? ==> |v.cards| == |g.images|
    ensures v.Grid? ==> forall i :: 0 <= i < |g.images| ==> v.cards[i] == CardFor(g.images[i])
    ensures v.Grid? ==> (v.dialog.Some? <==> g.selected.Some?)
    ensures v.Grid? && g.selected.Some? ==> v.dialog.value == ImageModal.ModalFor(g.selected.value)
  {
    if g.loading then Spinner
    else if g.error.Some? && g.error.value != "" then ErrorScreen(g.error.value)
    else
      var cards := seq(|g.images|, i requires 0 <= i < |g.images| => CardFor(g.images[i]));
      var dialog := match g.selected
        case Some(image) => Some(ImageModal.ModalFor(image))
        case None => None;
      Grid(CountLabel(|g.images|), g.refreshing, cards, dialog)
  }

  /* ---------------------------------------------------------------- */
  /* Properties of whole fetches                                       */
  /* ---------------------------------------------------------------- */

  /** A failed refresh also lands on the error screen, though the images
      it kept are still in the state underneath. */
  lemma FailedRefreshShowsErrorScreen(g: Gallery, message: string)
    requires message != ""
    ensures var g' := Fetch(g, true, FetchThrew(ErrorObject(message)));
      ViewOf(g') == ErrorScreen(message) && g'.images == g.images
  {
  }

  /** A successful fetch, load or refresh, shows the grid with one card per
      fetched image, in the fetched order. */
  lemma SuccessfulFetchShowsGrid(g: Gallery, isRefresh: bool, images: seq<S3Image>)
    ensures var v := ViewOf(Fetch(g, isRefresh, Fetched(images)));
      v.Grid? && |v.cards| == |images| && !v.refreshDisabled
      && forall i :: 0 <= i < |images| ==> v.cards[i].title == DisplayName(images[i].key)
  {
  }

  /** Without stored credentials the first load ends on the error screen
      with the service's not-configured message. */
  lemma UnconfiguredLoadShowsError(store: Store, list: S3Service.ListRequest -> S3Service.Listing,
                                   sign: S3Service.SignRequest -> S3Service.Signing)
    requires !(StorageKey in store && store[StorageKey].Record?)
    ensures ViewOf(FetchFromStore(Initial, false, store, list, sign)) == ErrorScreen(S3Service.NotConfiguredMessage)
  {
  }

  /** The count caption reads back as the number of images. */
  lemma CountLabelNumber(n: nat)
    ensures var caption := CountLabel(n);
      var digits := caption[..|DecimalString(n)|];
      (forall i :: 0 <= i < |digits| ==> IsDigit(digits[i])) && ParseDecimal(digits) == n
  {
  }
}
