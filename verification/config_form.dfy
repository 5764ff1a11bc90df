/** The credential form: its initial record, per-field edits and the submit
    handler that validates three required fields and, only when they are
    all filled and the store write succeeds, writes the record to the store
    and hands it to the parent.
 */
module ConfigForm {
  import opened Outcomes
  import opened Records
  import S3Service

  const DefaultRegion: string := "us-east-1"
  const MissingFieldsMessage: string := "Please fill in all required fields"
  const SaveFailedFallback: string := "Failed to save configuration"

  /** The optional `initialConfig` prop: any field may be missing. */
  datatype PartialConfig = PartialConfig(
    accessKeyId: Option<string>,
    secretAccessKey: Option<string>,
    region: Option<string>,
    bucketName: Option<string>)

  datatype Field = AccessKeyId | SecretAccessKey | Region | BucketName

  /** The component's state: the edited record and two flags. */
  datatype Form = Form(config: S3Config, showSecrets: bool, saving: bool)

  datatype Toast = Toast(title: string, description: string, destructive: bool)

  /** What a submit leaves behind: the form, the store, the record handed
      to `onConfigSave` (if it was called) and the toast shown. */
  datatype Submission = Submission(form: Form, store: Store, saved: Option<S3Config>, toast: Toast)

  /** `v || fallback` on an optional string: absent and empty both fall
      back. */
  function OrElse(v: Option<string>, fallback: string): (r: string)
    ensures v.Some? && v.value != "" ==> r == v.value
    ensures v.None? || v.value == "" ==> r == fallback
  {
    if v.Some? && v.value != "" then v.value else fallback
  }

  /** `initialConfig?.field`: nothing when the prop itself is absent. */
  function Pick(initial: Option<PartialConfig>, f: Field): Option<string>
  {
    match initial
    case None => None
    case Some(p) =>
      match f
      case AccessKeyId => p.accessKeyId
      case SecretAccessKey => p.secretAccessKey
      case Region => p.region
      case BucketName => p.bucketName
  }

  function FieldValue(c: S3Config, f: Field): string
  {
    match f
    case AccessKeyId => c.accessKeyId
    case SecretAccessKey => c.secretAccessKey
    case Region => c.region
    case BucketName => c.bucketName
  }

  /** The initial state: each field comes from `initialConfig` when given
      non-empty, else it is empty, except the region, which defaults to
      `"us-east-1"`; the secrets are hidden and nothing is being saved. */
  function InitialForm(initial: Option<PartialConfig>): (form: Form)
    ensures !form.showSecrets && !form.saving
    ensures forall f :: Pick(initial, f).Some? && Pick(initial, f).value != "" ==>
      FieldValue(form.config, f) == Pick(initial, f).value
    ensures forall f :: f != Region && (Pick(initial, f).None? || Pick(initial, f).value == "") ==>
      FieldValue(form.config, f) == ""
    ensures Pick(initial, Region).None? || Pick(initial, Region).value == "" ==>
      form.config.region == DefaultRegion
    ensures form.config.region != ""
  {
    Form(
      S3Config(
        OrElse(Pick(initial, AccessKeyId), ""),
        OrElse(Pick(initial, SecretAccessKey), ""),
        OrElse(Pick(initial, Region), DefaultRegion),
        OrElse(Pick(initial, BucketName), "")),
      false,
      false)
  }

  /** An input's `onChange`: `setConfig({ ...config, field: value })`. */
  function Edit(form: Form, f: Field, value: string): (r: Form)
    ensures FieldValue(r.config, f) == value
    ensures forall g :: g != f ==> FieldValue(r.config, g) == FieldValue(form.config, g)
    ensures r.showSecrets == form.showSecrets && r.saving == form.saving
  {
    var c := form.config;
    var c' := match f
      case AccessKeyId => c.(accessKeyId := value)
      case SecretAccessKey => c.(secretAccessKey := value)
      case Region => c.(region := value)
      case BucketName => c.(bucketName := value);
    form.(config := c')
  }

  /** The eye button: flips whether the secrets are shown. */
  function ToggleSecrets(form: Form): (r: Form)
    ensures r.showSecrets != form.showSecrets
    ensures r.config == form.config && r.saving == form.saving
  {
    form.(showSecrets := !form.showSecrets)
  }

  /** The required fields: the region is not among them. */
  predicate RequiredFilled(c: S3Config)
  {
    c.accessKeyId != "" && c.secretAccessKey != "" && c.bucketName != ""
  }

  /** `handleSubmit`. With the three required fields filled and the store
      write succeeding (`writeFault` is `None`), the current record is
      written under `"s3Config"` (and nothing else in the store changes)
      and handed to the parent. Otherwise the store is untouched, the
      parent is not called and an error toast shows: the missing-fields
      message, or the message the failed write threw (the fallback for a
      non-`Error`). Either way the record is kept and `saving` ends false. */
  function Submit(form: Form, store: Store, writeFault: Option<Thrown>): (r: Submission)
    ensures r.form.config == form.config && r.form.showSecrets == form.showSecrets
    ensures !r.form.saving
    ensures r.saved.Some? <==> RequiredFilled(form.config) && writeFault.None?
    ensures r.saved.Some? ==> r.saved.value == form.config
    ensures r.saved.Some? ==>
      && StorageKey in r.store && r.store[StorageKey] == Record(form.config)
      && forall k :: k in store && k != StorageKey ==> k in r.store && r.store[k] == store[k]
    ensures r.saved.Some? ==> r.store.Keys == store.Keys + {StorageKey}
    ensures r.saved.None? ==> r.store == store && r.toast.title == "Error"
    ensures !RequiredFilled(form.config) ==> r.toast.description == MissingFieldsMessage
    ensures RequiredFilled(form.config) && writeFault == Some(NonError) ==>
      r.toast.description == SaveFailedFallback
    ensures RequiredFilled(form.config) && writeFault.Some? && writeFault.value.ErrorObject? ==>
      r.toast.description == writeFault.value.message
    ensures r.toast.destructive <==> r.saved.None?
  {
    var saving := form.(saving := true);
    var fault := if !RequiredFilled(saving.config) then Some(ErrorObject(MissingFieldsMessage)) else writeFault;
    match fault
    case Some(thrown) =>
      Submission(saving.(saving := false), store, None, Toast("Error", MessageOr(thrown, SaveFailedFallback), true))
    case None =>
      var store' := store[StorageKey := Record(saving.config)];
      Submission(saving.(saving := false), store', Some(saving.config),
                 Toast("Configuration saved", "S3 settings have been saved successfully", false))
  }

  /** A record the form saved is what the next service constructed from
      the store loads: the service is configured and reports that record. */
  lemma SavedConfigIsLoaded(form: Form, store: Store)
    requires RequiredFilled(form.config)
    ensures var svc := S3Service.LoadConfig(Submit(form, store, None).store);
      S3Service.IsConfigured(svc) && S3Service.GetConfig(svc) == Some(form.config)
      && svc.client.value.bucket == form.config.bucketName
  {
  }

  /** A submit rejected for missing fields, or whose store write threw,
      leaves whatever service the store configured before exactly as it
      was. */
  lemma RejectedSubmitKeepsService(form: Form, store: Store, writeFault: Option<Thrown>)
    requires !RequiredFilled(form.config) || writeFault.Some?
    ensures S3Service.LoadConfig(Submit(form, store, writeFault).store) == S3Service.LoadConfig(store)
  {
  }

  /** The form as the page pre-fills it from a service's stored record. */
  function Prefill(c: S3Config): PartialConfig
  {
    PartialConfig(Some(c.accessKeyId), Some(c.secretAccessKey), Some(c.region), Some(c.bucketName))
  }

  /** Pre-filling from a stored record reproduces it exactly when its
      region is non-empty; an empty region comes back as `"us-east-1"`. */
  lemma PrefillRoundTrip(c: S3Config)
    ensures InitialForm(Some(Prefill(c))).config == c <==> c.region != ""
    ensures c.region == "" ==> InitialForm(Some(Prefill(c))).config == c.(region := DefaultRegion)
  {
  }
}
