/** The media preparation registry of `media_preparation.rs`. A variant whose
    bytes are the untouched source shares them instead of keeping a copy. The
    same operations on a registry that copies every variant are the reference
    the shared form is compared with.

    Image encoders are not modelled: what they return is a parameter of the
    operation that calls them. */
module MediaRegistry {
  import opened Basics

  type Byte(==, !new)
  type Bytes = seq<Byte>
  /** Everything a descriptor says beyond its identity and choices. */
  type Details(==, !new)

  datatype Target = Main(room: string) | Thread(room: string, root: string)

  datatype Resize = Original | Half | Quarter | Eighth

  datatype Format = Keep | Png | Jpeg | WebP

  function ResizeToken(r: Resize): string {
    match r
    case Original => "original"
    case Half => "half"
    case Quarter => "quarter"
    case Eighth => "eighth"
  }

  function FormatToken(f: Format): string {
    match f
    case Keep => "keep"
    case Png => "png"
    case Jpeg => "jpeg"
    case WebP => "webp"
  }

  /** `output_identity`: the cache identity of one resize and format pair. */
  function OutputIdentity(r: Resize, f: Format): string {
    ResizeToken(r) + "-" + FormatToken(f)
  }

  const UNTOUCHED_FILE := "original"
  const MAX_PREPARATION_BATCH_SIZE: nat := 16

  datatype Descriptor = Descriptor(variantId: string, resize: Resize, format: Format, details: Details)

  datatype Input = Input(stagedId: string, mimeType: string, bytes: Bytes)

  datatype Item = Item(target: Target, stagedId: string)

  datatype Key = Key(item: Item, variantId: string)

  datatype Cached<S> = Cached(descriptor: Descriptor, storage: S, preview: Option<string>)

  datatype Registry<S> = Registry(
    variants: map<Key, Cached<S>>,
    selected: map<Item, string>,
    sources: map<Item, Input>,
    account: Option<string>)

  /** How the shared form keeps bytes. */
  datatype Storage = Owned(bytes: Bytes) | Source

  type Shared = Registry<Storage>
  /** The reference form: a full copy per variant. */
  type Naive = Registry<Bytes>

  const EMPTY: Shared := Registry(map[], map[], map[], None)

  // ------------------------------------------------------- outside results --

  datatype Encoded = Encoded(details: Details, bytes: Bytes)

  datatype FailureKind = Empty | Unsupported | Decode | Encode | MissingPreparedBytes

  /** What inspection and encoding of one input yield. A HEIF input is converted
      to JPEG; any other image candidate is encoded untouched. */
  datatype Analysis =
    | Heif(mimeType: string, original: Details, converted: Result<Encoded, FailureKind>)
    | Plain(file: Details, encoded: Result<Encoded, FailureKind>)

  function Lower(c: char): char {
    if 'A' <= c <= 'Z' then (c as int + 32) as char else c
  }

  function Lowercase(s: string): string {
    seq(|s|, i requires 0 <= i < |s| => Lower(s[i]))
  }

  predicate ImageCandidate(mimeType: string) {
    Lowercase(mimeType) in {"image/png", "image/jpeg", "image/webp", "image/gif"}
  }

  // ---------------------------------------------------- operations, shared --

  function Put<S>(r: Registry<S>, item: Item, cached: Cached<S>): Registry<S> {
    r.(variants := r.variants[Key(item, cached.descriptor.variantId) := cached])
  }

  function Choose<S>(r: Registry<S>, item: Item, variantId: string): Registry<S> {
    r.(selected := r.selected[item := variantId])
  }

  /** The input as it is retained: a detected HEIF type replaces the declared one. */
  function Retained(input: Input, analysis: Analysis): Input {
    if analysis.Heif? then input.(mimeType := analysis.mimeType) else input
  }

  function FileDescriptor(details: Details): Descriptor {
    Descriptor(UNTOUCHED_FILE, Original, Keep, details)
  }

  function PairDescriptor(r: Resize, f: Format, details: Details): Descriptor {
    Descriptor(OutputIdentity(r, f), r, f, details)
  }

  function StoreOriginal(r: Shared, item: Item, details: Details): Shared {
    Choose(Put(r, item, Cached(FileDescriptor(details), Source, None)), item, UNTOUCHED_FILE)
  }

  /** `prepare_one` */
  function Prepare(r: Shared, target: Target, input: Input, analysis: Analysis): Shared {
    var item := Item(target, input.stagedId);
    var r := r.(sources := r.sources[item := Retained(input, analysis)]);
    match analysis
    case Heif(_, original, Ok(jpeg)) =>
      var converted := PairDescriptor(Original, Jpeg, jpeg.details);
      var r := Put(r, item, Cached(PairDescriptor(Original, Keep, original), Source, Some(converted.variantId)));
      Choose(Put(r, item, Cached(converted, Owned(jpeg.bytes), None)), item, converted.variantId)
    case Heif(_, _, Err(_)) => r
    case Plain(file, encoded) =>
      if input.bytes == [] then r
      else if !ImageCandidate(input.mimeType) then StoreOriginal(r, item, file)
      else
        match encoded
        case Err(_) => r
        case Ok(image) =>
          var descriptor := PairDescriptor(Original, Keep, image.details);
          var storage := if image.bytes == input.bytes then Source else Owned(image.bytes);
          Choose(Put(r, item, Cached(descriptor, storage, None)), item, descriptor.variantId)
  }

  /** `insert_prepared_output` */
  function Insert(r: Shared, item: Item, descriptor: Descriptor, bytes: Bytes): Shared {
    var sourceBacked := descriptor.resize == Original && descriptor.format == Keep
                        && item in r.sources && r.sources[item].bytes == bytes;
    Choose(Put(r, item, Cached(descriptor, if sourceBacked then Source else Owned(bytes), None)),
           item, descriptor.variantId)
  }

  // ------------------------------------------------- operations, reference --

  function NaivePrepare(n: Naive, target: Target, input: Input, analysis: Analysis): Naive {
    var item := Item(target, input.stagedId);
    var n := n.(sources := n.sources[item := Retained(input, analysis)]);
    match analysis
    case Heif(_, original, Ok(jpeg)) =>
      var converted := PairDescriptor(Original, Jpeg, jpeg.details);
      var n := Put(n, item, Cached(PairDescriptor(Original, Keep, original), input.bytes, Some(converted.variantId)));
      Choose(Put(n, item, Cached(converted, jpeg.bytes, None)), item, converted.variantId)
    case Heif(_, _, Err(_)) => n
    case Plain(file, encoded) =>
      if input.bytes == [] then n
      else if !ImageCandidate(input.mimeType) then NaiveOriginal(n, item, file, input.bytes)
      else
        match encoded
        case Err(_) => n
        case Ok(image) =>
          var descriptor := PairDescriptor(Original, Keep, image.details);
          Choose(Put(n, item, Cached(descriptor, image.bytes, None)), item, descriptor.variantId)
  }

  function NaiveOriginal(n: Naive, item: Item, details: Details, bytes: Bytes): Naive {
    Choose(Put(n, item, Cached(FileDescriptor(details), bytes, None)), item, UNTOUCHED_FILE)
  }

  function NaiveInsert(n: Naive, item: Item, descriptor: Descriptor, bytes: Bytes): Naive {
    Choose(Put(n, item, Cached(descriptor, bytes, None)), item, descriptor.variantId)
  }

  // --------------------------------------- operations common to both forms --

  /** Which items a cleanup removes. */
  datatype Removal =
    | OneItem(item: Item)
    | WholeTarget(target: Target)
    | Threads
    | Everything
    | Unlisted(staged: set<Item>)

  predicate Removes(removal: Removal, item: Item) {
    match removal
    case OneItem(i) => item == i
    case WholeTarget(t) => item.target == t
    case Threads => item.target.Thread?
    case Everything => true
    case Unlisted(staged) => item !in staged
  }

  function DropVariants<S>(r: Registry<S>, removal: Removal): Registry<S> {
    r.(variants := map k | k in r.variants && !Removes(removal, k.item) :: r.variants[k],
       selected := map i | i in r.selected && !Removes(removal, i) :: r.selected[i])
  }

  /** `remove_item`, `clear_target`, `clear_thread_targets`, `clear` */
  function Remove<S>(r: Registry<S>, removal: Removal): Registry<S> {
    var r := DropVariants(r, removal);
    r.(sources := map i | i in r.sources && !Removes(removal, i) :: r.sources[i],
       account := if removal == Everything then None else r.account)
  }

  /** `reconcile_snapshot`: `observed` is the session's account once it is
      stable, and `staged` the items the application state still lists. */
  function Reconcile<S>(r: Registry<S>, observed: Option<Option<string>>, staged: set<Item>): Registry<S> {
    var changed := observed.Some? && observed.value != r.account;
    var r := if changed then Remove(r, Everything).(account := observed.value) else r;
    Remove(r, Unlisted(staged))
  }

  function SelectVariant<S>(r: Registry<S>, item: Item, variantId: string): Registry<S> {
    if Key(item, variantId) in r.variants then Choose(r, item, variantId) else r
  }

  /** `merge_prepared`: the prepared registry's entries win. */
  function Merge<S>(r: Registry<S>, prepared: Registry<S>): Registry<S> {
    r.(variants := r.variants + prepared.variants,
       selected := r.selected + prepared.selected,
       sources := r.sources + prepared.sources)
  }

  datatype Op =
    | OpPrepare(target: Target, input: Input, analysis: Analysis)
    | OpInsert(item: Item, descriptor: Descriptor, bytes: Bytes)
    | OpSelect(item: Item, variantId: string)
    | OpRemove(removal: Removal)
    | OpReconcile(observed: Option<Option<string>>, staged: set<Item>)
    | OpRetry(item: Item, analysis: Analysis)
    | OpUseOriginal(item: Item, details: Details)
    | OpMerge(prepared: Shared)

  function Step(r: Shared, op: Op): Shared {
    match op
    case OpPrepare(t, input, a) => Prepare(r, t, input, a)
    case OpInsert(item, d, bytes) => Insert(r, item, d, bytes)
    case OpSelect(item, v) => SelectVariant(r, item, v)
    case OpRemove(removal) => Remove(r, removal)
    case OpReconcile(observed, staged) => Reconcile(r, observed, staged)
    case OpRetry(item, a) =>
      if item !in r.sources then r
      else Prepare(DropVariants(r, OneItem(item)), item.target, r.sources[item], a)
    case OpUseOriginal(item, details) =>
      if item !in r.sources || r.sources[item].bytes == [] then r
      else StoreOriginal(DropVariants(r, OneItem(item)), item, details)
    case OpMerge(prepared) => Merge(r, prepared)
  }

  function NaiveStep(n: Naive, op: Op): Naive {
    match op
    case OpPrepare(t, input, a) => NaivePrepare(n, t, input, a)
    case OpInsert(item, d, bytes) => NaiveInsert(n, item, d, bytes)
    case OpSelect(item, v) => SelectVariant(n, item, v)
    case OpRemove(removal) => Remove(n, removal)
    case OpReconcile(observed, staged) => Reconcile(n, observed, staged)
    case OpRetry(item, a) =>
      if item !in n.sources then n
      else NaivePrepare(DropVariants(n, OneItem(item)), item.target, n.sources[item], a)
    case OpUseOriginal(item, details) =>
      if item !in n.sources || n.sources[item].bytes == [] then n
      else NaiveOriginal(DropVariants(n, OneItem(item)), item, details, n.sources[item].bytes)
    case OpMerge(prepared) => Merge(n, Expand(prepared))
  }

  // --------------------------------------------------------------- lookups --

  function StoredBytes(r: Shared, key: Key): Option<Bytes> {
    if key !in r.variants then None
    else
      match r.variants[key].storage
      case Owned(bytes) => Some(bytes)
      case Source => if key.item in r.sources then Some(r.sources[key.item].bytes) else None
  }

  /** `selected_upload` */
  function SelectedUpload(r: Shared, item: Item): Option<(Descriptor, Bytes)> {
    if item !in r.selected then None
    else
      var key := Key(item, r.selected[item]);
      match StoredBytes(r, key)
      case None => None
      case Some(bytes) => Some((r.variants[key].descriptor, bytes))
  }

  /** `variant_preview_bytes` */
  function PreviewBytes(r: Shared, key: Key): Option<Bytes> {
    if key !in r.variants then None
    else
      match r.variants[key].preview
      case None => StoredBytes(r, key)
      case Some(other) => StoredBytes(r, Key(key.item, other))
  }

  function NaiveUpload(n: Naive, item: Item): Option<(Descriptor, Bytes)> {
    if item !in n.selected || Key(item, n.selected[item]) !in n.variants then None
    else
      var cached := n.variants[Key(item, n.selected[item])];
      Some((cached.descriptor, cached.storage))
  }

  function NaivePreview(n: Naive, key: Key): Option<Bytes> {
    if key !in n.variants then None
    else
      var shown := if n.variants[key].preview.None? then key else Key(key.item, n.variants[key].preview.value);
      if shown in n.variants then Some(n.variants[shown].storage) else None
  }

  /** One variant with its bytes written out. */
  function Resolve(r: Shared, k: Key): Cached<Bytes>
    requires k in r.variants
  {
    var bytes := StoredBytes(r, k);
    Cached(r.variants[k].descriptor, if bytes.Some? then bytes.value else [], r.variants[k].preview)
  }

  /** The reference registry a shared one stands for. */
  function Expand(r: Shared): Naive {
    Registry(map k | k in r.variants :: Resolve(r, k), r.selected, r.sources, r.account)
  }

  // ------------------------------------------------------------- invariant --

  /** Shared variants have a source, selections name a variant, and preview
      pointers name a variant of the same item. */
  ghost predicate Inv(r: Shared) {
    && (forall k :: k in r.variants && r.variants[k].storage.Source? ==> k.item in r.sources)
    && (forall k :: k in r.variants && r.variants[k].preview.Some? ==>
          Key(k.item, r.variants[k].preview.value) in r.variants)
    && (forall i :: i in r.selected ==> Key(i, r.selected[i]) in r.variants)
    && (forall i :: i in r.sources ==> r.sources[i].stagedId == i.stagedId)
  }
}
