/** What every operation of the media registry leaves of every item: the one it
    names, and all others. */
module MediaLookups {
  import opened Basics
  import opened MediaRegistry
  import opened MediaRuns

  /** The item has the same source, selection and variants in both. */
  ghost predicate SameItem(r: Shared, n: Shared, j: Item) {
    && SameSource(r, n, j)
    && (j in n.selected <==> j in r.selected) && (j in r.selected ==> n.selected[j] == r.selected[j])
    && (forall v :: SameVariant(r, n, Key(j, v)))
  }

  ghost predicate SameSource(r: Shared, n: Shared, j: Item) {
    (j in n.sources <==> j in r.sources) && (j in r.sources ==> n.sources[j] == r.sources[j])
  }

  ghost predicate SameVariant(r: Shared, n: Shared, k: Key) {
    (k in n.variants <==> k in r.variants) && (k in r.variants ==> n.variants[k] == r.variants[k])
  }

  /** Nothing of the item is left. */
  ghost predicate Gone(n: Shared, j: Item) {
    j !in n.sources && j !in n.selected && forall v :: Key(j, v) !in n.variants
  }

  /** Equal items upload and preview alike; of a gone one nothing can be had. */
  lemma SameItemLooksSame(r: Shared, n: Shared, j: Item, v: string)
    ensures SameItem(r, n, j) ==>
              SelectedUpload(n, j) == SelectedUpload(r, j) && PreviewBytes(n, Key(j, v)) == PreviewBytes(r, Key(j, v))
    ensures Gone(n, j) ==> SelectedUpload(n, j).None? && PreviewBytes(n, Key(j, v)).None?
  {
    if SameItem(r, n, j) {
      assert SameVariant(r, n, Key(j, v));
      if Key(j, v) in r.variants && r.variants[Key(j, v)].preview.Some? {
        assert SameVariant(r, n, Key(j, r.variants[Key(j, v)].preview.value));
      }
      if j in r.selected {
        assert SameVariant(r, n, Key(j, r.selected[j]));
      }
    }
  }

  // ---------------------------------------------------------------- removals --

  /** A removal takes away everything of exactly the items it is about: that one
      item, the items of that composer, those of all threads, all, or those the
      snapshot does not list. Every other item keeps everything. */
  lemma RemovalExact(r: Shared, removal: Removal, j: Item)
    ensures var n := Step(r, OpRemove(removal));
            var kept := match removal
                        case OneItem(i) => j != i
                        case WholeTarget(t) => j.target != t
                        case Threads => j.target.Main?
                        case Everything => false
                        case Unlisted(staged) => j in staged;
            && (if kept then SameItem(r, n, j) else Gone(n, j))
            && n.account == if removal == Everything then None else r.account
  {
  }

  /** Reconciling with a snapshot of another account drops everything; otherwise
      exactly the unlisted items go. */
  lemma ReconciliationExact(r: Shared, observed: Option<Option<string>>, staged: set<Item>, j: Item)
    ensures var n := Step(r, OpReconcile(observed, staged));
            var changed := observed.Some? && observed.value != r.account;
            && (if !changed && j in staged then SameItem(r, n, j) else Gone(n, j))
            && n.account == if changed then observed.value else r.account
  {
  }

  // ------------------------------------------------------------- other items --

  /** The item an operation is about, if it is about one. */
  function Named(op: Op): Option<Item> {
    match op
    case OpPrepare(t, input, _) => Some(Item(t, input.stagedId))
    case OpInsert(item, _, _) => Some(item)
    case OpSelect(item, _) => Some(item)
    case OpRetry(item, _) => Some(item)
    case OpUseOriginal(item, _) => Some(item)
    case _ => None
  }

  /** Preparing, caching, selecting, retrying and falling back to the original
      leave every other item exactly as it was. */
  lemma OtherItemsUntouched(r: Shared, op: Op, j: Item)
    requires Inv(r) && Named(op).Some? && Named(op).value != j
    ensures SameItem(r, Step(r, op), j)
  {
    match op
    case OpPrepare(t, input, a) => PrepareUntouched(r, t, input, a, j);
    case OpRetry(item, a) =>
      if item in r.sources {
        var d := DropVariants(r, OneItem(item));
        PrepareUntouched(d, item.target, r.sources[item], a, j);
        assert SameItem(r, d, j);
        hide Prepare, DropVariants, Inv;
        SameItemChains(r, d, Step(r, op), j);
      }
    case _ =>
  }

  lemma PrepareUntouched(r: Shared, target: Target, input: Input, analysis: Analysis, j: Item)
    requires j != Item(target, input.stagedId)
    ensures SameItem(r, Prepare(r, target, input, analysis), j)
  {
    hide ImageCandidate, OutputIdentity;
  }

  lemma SameItemChains(a: Shared, b: Shared, c: Shared, j: Item)
    requires SameItem(a, b, j) && SameItem(b, c, j)
    ensures SameItem(a, c, j)
  {
    forall v ensures SameVariant(a, c, Key(j, v)) {
      assert SameVariant(a, b, Key(j, v)) && SameVariant(b, c, Key(j, v));
    }
  }

  /** A merge takes each entry from the prepared registry if it has one, and from
      the old one otherwise. */
  lemma MergeExact(r: Shared, prepared: Shared, j: Item, k: Key)
    ensures var n := Step(r, OpMerge(prepared));
            && SameSource(if j in prepared.sources then prepared else r, n, j)
            && SameVariant(if k in prepared.variants then prepared else r, n, k)
            && (if j in prepared.selected then j in n.selected && n.selected[j] == prepared.selected[j]
                else (j in n.selected <==> j in r.selected) && (j in r.selected ==> n.selected[j] == r.selected[j]))
            && n.account == r.account
  {
  }

  // ---------------------------------------------------------- the named item --

  /** Preparing retains the input under its detected type, stores the variants of
      its kind and keeps the item's other ones. */
  lemma PreparationKeepsRest(r: Shared, target: Target, input: Input, analysis: Analysis, v: string)
    ensures var item, n := Item(target, input.stagedId), Step(r, OpPrepare(target, input, analysis));
            && item in n.sources
            && n.sources[item]
               == (if analysis.Heif? then Input(input.stagedId, analysis.mimeType, input.bytes) else input)
            && (v !in Rewritten(input, analysis) ==> SameVariant(r, n, Key(item, v)))
            && n.account == r.account
  {
    hide ImageCandidate, OutputIdentity;
  }

  /** A cached output becomes the selected upload and its own preview, and is
      shared only when it is the untouched source; the source and the other
      variants stay. */
  lemma InsertionExact(r: Shared, item: Item, d: Descriptor, bytes: Bytes, v: string)
    ensures var n := Step(r, OpInsert(item, d, bytes));
            var key := Key(item, d.variantId);
            && SelectedUpload(n, item) == Some((d, bytes)) && PreviewBytes(n, key) == Some(bytes)
            && SameSource(r, n, item) && (v != d.variantId ==> SameVariant(r, n, Key(item, v)))
            && (n.variants[key].storage.Source? <==>
                  d.resize == Original && d.format == Keep && item in r.sources && r.sources[item].bytes == bytes)
  {
  }

  /** Selecting a stored variant selects it and changes nothing else; selecting
      any other changes nothing. */
  lemma SelectionExact(r: Shared, item: Item, v: string)
    ensures Step(r, OpSelect(item, v))
            == if Key(item, v) in r.variants then r.(selected := r.selected[item := v]) else r
  {
  }

  /** A retry leaves of the item exactly what preparing its retained input afresh
      would; without one nothing changes. */
  lemma RetryExact(r: Shared, item: Item, a: Analysis)
    requires Inv(r)
    ensures var n := Step(r, OpRetry(item, a));
            if item in r.sources then SameItem(Prepare(EMPTY, item.target, r.sources[item], a), n, item) else n == r
  {
    if item in r.sources {
      var input := r.sources[item];
      assert Item(item.target, input.stagedId) == item;
      var d := DropVariants(r, OneItem(item));
      PrepareIsMerge(d, item.target, input, a);
      PreparedAlone(item.target, input, a);
      PreparedSelection(item.target, input, a);
      var p := Prepare(EMPTY, item.target, input, a);
      assert item !in d.selected && forall v :: Key(item, v) !in d.variants;
      hide Prepare, DropVariants, Rewritten;
      MergedOverNothing(d, p, item);
    }
  }

  lemma PreparedSelection(target: Target, input: Input, a: Analysis)
    ensures var p := Prepare(EMPTY, target, input, a);
            forall i :: i in p.selected ==> i == Item(target, input.stagedId)
  {
    hide ImageCandidate, OutputIdentity;
  }

  lemma MergedOverNothing(d: Shared, p: Shared, item: Item)
    requires item !in d.selected && (forall v :: Key(item, v) !in d.variants) && item in p.sources
    ensures SameItem(p, Merge(d, p), item)
  {
  }

  /** Falling back leaves exactly one variant, the untouched file, selected and
      uploading the retained bytes; without any nothing changes. */
  lemma FallbackExact(r: Shared, item: Item, details: Details, v: string)
    ensures var n := Step(r, OpUseOriginal(item, details));
            if item in r.sources && r.sources[item].bytes != [] then
              && SelectedUpload(n, item) == Some((FileDescriptor(details), r.sources[item].bytes))
              && SameSource(r, n, item) && (Key(item, v) in n.variants <==> v == "original")
            else n == r
  {
  }

  // -------------------------------------------------------------------- names --

  predicate SameIgnoringCase(s: string, lower: string) {
    && |s| == |lower|
    && forall i :: 0 <= i < |s| ==>
         s[i] == lower[i] || ('A' <= s[i] <= 'Z' && s[i] as int + 32 == lower[i] as int)
  }

  /** Exactly four declared types, in any case, are treated as images. */
  lemma ImageTypesExact(mimeType: string)
    ensures ImageCandidate(mimeType) <==>
              || SameIgnoringCase(mimeType, "image/png") || SameIgnoringCase(mimeType, "image/jpeg")
              || SameIgnoringCase(mimeType, "image/webp") || SameIgnoringCase(mimeType, "image/gif")
  {
    LowercaseExact(mimeType, "image/png");
    LowercaseExact(mimeType, "image/jpeg");
    LowercaseExact(mimeType, "image/webp");
    LowercaseExact(mimeType, "image/gif");
    hide Lowercase, SameIgnoringCase;
  }

  lemma LowercaseExact(s: string, lower: string)
    requires forall i :: 0 <= i < |lower| ==> !('A' <= lower[i] <= 'Z')
    ensures Lowercase(s) == lower <==> SameIgnoringCase(s, lower)
  {
  }

  /** The names outputs are cached under. */
  lemma OutputNames()
    ensures OutputIdentity(Original, Keep) == "original-keep" && OutputIdentity(Original, Jpeg) == "original-jpeg"
    ensures OutputIdentity(Half, Png) == "half-png" && OutputIdentity(Quarter, WebP) == "quarter-webp"
    ensures OutputIdentity(Eighth, Keep) == "eighth-keep"
  {
  }
}
