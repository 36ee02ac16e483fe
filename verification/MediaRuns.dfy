/** The sharing registry against the copying one, operation by operation and
    over whole runs. */
module MediaRuns {
  import opened Basics
  import opened MediaRegistry

  /** Storing a variant keeps the invariant when its bytes resolve and its
      preview, if any, is stored too. */
  lemma PutKeepsInv(r: Shared, item: Item, cached: Cached<Storage>)
    requires Inv(r) && (cached.storage.Source? ==> item in r.sources)
    requires cached.preview.Some? ==> Key(item, cached.preview.value) in r.variants
    ensures Inv(Put(r, item, cached)) && Inv(Choose(Put(r, item, cached), item, cached.descriptor.variantId))
  {
  }

  lemma SourceKeepsInv(r: Shared, item: Item, input: Input)
    requires Inv(r) && input.stagedId == item.stagedId
    ensures Inv(r.(sources := r.sources[item := input]))
  {
  }

  lemma PutCommutes<S>(r: Registry<S>, item: Item, a: Cached<S>, b: Cached<S>)
    requires a.descriptor.variantId != b.descriptor.variantId
    ensures Put(Put(r, item, a), item, b) == Put(Put(r, item, b), item, a)
  {
  }

  lemma PairIdentitiesDiffer()
    ensures OutputIdentity(Original, Keep) != OutputIdentity(Original, Jpeg)
  {
    assert OutputIdentity(Original, Keep)[9] == 'k';
  }

  lemma PrepareKeepsInv(r: Shared, target: Target, input: Input, analysis: Analysis)
    requires Inv(r)
    ensures Inv(Prepare(r, target, input, analysis))
  {
    hide Inv;
    var item := Item(target, input.stagedId);
    var s := r.(sources := r.sources[item := Retained(input, analysis)]);
    SourceKeepsInv(r, item, Retained(input, analysis));
    match analysis
    case Heif(_, original, Ok(jpeg)) =>
      var kept := Cached(PairDescriptor(Original, Keep, original), Source, Some(OutputIdentity(Original, Jpeg)));
      var converted := Cached(PairDescriptor(Original, Jpeg, jpeg.details), Owned(jpeg.bytes), None);
      PairIdentitiesDiffer();
      PutCommutes(s, item, kept, converted);
      PutKeepsInv(s, item, converted);
      PutKeepsInv(Put(s, item, converted), item, kept);
      ChooseKeepsInv(Put(Put(s, item, kept), item, converted), item, OutputIdentity(Original, Jpeg));
    case Heif(_, _, Err(_)) =>
    case Plain(file, encoded) =>
      PutKeepsInv(s, item, Cached(FileDescriptor(file), Source, None));
      if encoded.Ok? {
        var storage := if encoded.value.bytes == input.bytes then Source else Owned(encoded.value.bytes);
        PutKeepsInv(s, item, Cached(PairDescriptor(Original, Keep, encoded.value.details), storage, None));
      }
  }

  lemma ChooseKeepsInv(r: Shared, item: Item, variantId: string)
    requires Inv(r) && Key(item, variantId) in r.variants
    ensures Inv(Choose(r, item, variantId))
  {
  }

  lemma DropKeepsInv(r: Shared, removal: Removal)
    requires Inv(r)
    ensures Inv(DropVariants(r, removal))
  {
  }

  lemma RemoveKeepsInv(r: Shared, removal: Removal)
    requires Inv(r)
    ensures Inv(Remove(r, removal))
  {
  }

  lemma MergeKeepsInv(r: Shared, prepared: Shared)
    requires Inv(r) && Inv(prepared)
    ensures Inv(Merge(r, prepared))
  {
  }

  lemma AccountKeepsInv(r: Shared, account: Option<string>)
    requires Inv(r)
    ensures Inv(r.(account := account))
  {
  }

  /** Every operation keeps the registry resolvable. */
  lemma StepKeepsInv(r: Shared, op: Op)
    requires Inv(r) && (op.OpMerge? ==> Inv(op.prepared))
    ensures Inv(Step(r, op))
  {
    hide Inv;
    match op
    case OpPrepare(t, input, a) => PrepareKeepsInv(r, t, input, a);
    case OpInsert(item, d, bytes) =>
      PutKeepsInv(r, item, Cached(d, Owned(bytes), None));
      if item in r.sources {
        PutKeepsInv(r, item, Cached(d, Source, None));
      }
    case OpSelect(item, v) =>
      if Key(item, v) in r.variants {
        ChooseKeepsInv(r, item, v);
      }
    case OpRemove(removal) => RemoveKeepsInv(r, removal);
    case OpReconcile(observed, staged) =>
      if observed.Some? {
        RemoveKeepsInv(r, Everything);
        AccountKeepsInv(Remove(r, Everything), observed.value);
        RemoveKeepsInv(Remove(r, Everything).(account := observed.value), Unlisted(staged));
      }
      RemoveKeepsInv(r, Unlisted(staged));
    case OpRetry(item, a) =>
      DropKeepsInv(r, OneItem(item));
      if item in r.sources {
        PrepareKeepsInv(DropVariants(r, OneItem(item)), item.target, r.sources[item], a);
      }
    case OpUseOriginal(item, details) =>
      DropKeepsInv(r, OneItem(item));
      if item in r.sources {
        PutKeepsInv(DropVariants(r, OneItem(item)), item, Cached(FileDescriptor(details), Source, None));
      }
    case OpMerge(prepared) => MergeKeepsInv(r, prepared);
  }

  /** In a resolvable registry every selection yields an upload, and every
      variant, pointed-to previews included, yields preview bytes. */
  lemma EverythingResolves(r: Shared)
    requires Inv(r)
    ensures forall i :: i in r.selected ==> SelectedUpload(r, i).Some?
    ensures forall k :: k in r.variants ==> StoredBytes(r, k).Some? && PreviewBytes(r, k).Some?
  {
  }

  // ---------------------------------------------------------- one operation --

  /** Merging is harmless when no shared variant outlives a change of the bytes
      it shares: every surviving one finds the same source bytes. */
  ghost predicate MergeHarmless(r: Shared, prepared: Shared) {
    forall k :: k in r.variants && k !in prepared.variants && r.variants[k].storage.Source?
                && k.item in prepared.sources
      ==> k.item in r.sources && r.sources[k.item].bytes == prepared.sources[k.item].bytes
  }

  /** One variant of a merged registry, written out. */
  lemma ResolveMerged(r: Shared, p: Shared, k: Key)
    requires Inv(r) && Inv(p) && k in Merge(r, p).variants
    ensures k in p.variants ==> Resolve(Merge(r, p), k) == Resolve(p, k)
    ensures k !in p.variants ==>
              (Resolve(Merge(r, p), k) == Resolve(r, k) <==>
               (r.variants[k].storage.Source? && k.item in p.sources ==>
                  r.sources[k.item].bytes == p.sources[k.item].bytes))
  {
  }

  lemma UnionPointwise<X, Y>(m: map<X, Y>, a: map<X, Y>, b: map<X, Y>)
    requires m.Keys == a.Keys + b.Keys
    requires forall x :: x in m ==> m[x] == if x in b then b[x] else a[x]
    ensures m == a + b
  {
  }

  lemma HarmlessMergeCommutes(r: Shared, p: Shared)
    requires Inv(r) && Inv(p) && MergeHarmless(r, p)
    ensures Expand(Merge(r, p)) == Merge(Expand(r), Expand(p))
  {
    hide Resolve, Inv, MergeHarmless;
    var m, a, b := Expand(Merge(r, p)).variants, Expand(r).variants, Expand(p).variants;
    forall k | k in m ensures m[k] == if k in b then b[k] else a[k] {
      ResolveHarmless(r, p, k);
    }
    UnionPointwise(m, a, b);
  }

  lemma ResolveHarmless(r: Shared, p: Shared, k: Key)
    requires Inv(r) && Inv(p) && MergeHarmless(r, p) && k in Merge(r, p).variants
    ensures Resolve(Merge(r, p), k) == if k in p.variants then Resolve(p, k) else Resolve(r, k)
  {
  }

  lemma HarmfulMergeDiverges(r: Shared, p: Shared, k: Key)
    requires Inv(r) && Inv(p)
    requires k in r.variants && k !in p.variants && r.variants[k].storage.Source? && k.item in p.sources
    requires r.sources[k.item].bytes != p.sources[k.item].bytes
    ensures Expand(Merge(r, p)) != Merge(Expand(r), Expand(p))
  {
    ResolveMerged(r, p, k);
    hide Resolve, Inv;
    assert Expand(Merge(r, p)).variants[k] != Merge(Expand(r), Expand(p)).variants[k];
  }

  /** Merging commutes with expansion exactly when it is harmless. */
  lemma ExpandMerge(r: Shared, p: Shared)
    requires Inv(r) && Inv(p)
    ensures Expand(Merge(r, p)) == Merge(Expand(r), Expand(p)) <==> MergeHarmless(r, p)
  {
    if MergeHarmless(r, p) {
      HarmlessMergeCommutes(r, p);
    } else {
      var k :| k in r.variants && k !in p.variants && r.variants[k].storage.Source? && k.item in p.sources
               && r.sources[k.item].bytes != p.sources[k.item].bytes;
      hide Expand, Merge;
      HarmfulMergeDiverges(r, p, k);
    }
  }

  const NOTHING: Naive := Registry(map[], map[], map[], None)

  lemma UpdateUnion<X, Y>(a: map<X, Y>, b: map<X, Y>, x: X, y: Y)
    ensures (a + b)[x := y] == a + b[x := y]
  {
  }

  lemma MergePut<S>(r: Registry<S>, p: Registry<S>, item: Item, cached: Cached<S>)
    ensures Put(Merge(r, p), item, cached) == Merge(r, Put(p, item, cached))
  {
    UpdateUnion(r.variants, p.variants, Key(item, cached.descriptor.variantId), cached);
  }

  lemma MergeChoose<S>(r: Registry<S>, p: Registry<S>, item: Item, variantId: string)
    ensures Choose(Merge(r, p), item, variantId) == Merge(r, Choose(p, item, variantId))
  {
    UpdateUnion(r.selected, p.selected, item, variantId);
  }

  lemma MergeSource<S>(r: Registry<S>, item: Item, input: Input)
    ensures r.(sources := r.sources[item := input]) == Merge(r, Registry(map[], map[], map[item := input], None))
  {
  }

  lemma MergePutChoose<S>(r: Registry<S>, p: Registry<S>, item: Item, cached: Cached<S>, variantId: string)
    ensures Choose(Put(Merge(r, p), item, cached), item, variantId)
         == Merge(r, Choose(Put(p, item, cached), item, variantId))
  {
    MergePut(r, p, item, cached);
    MergeChoose(r, Put(p, item, cached), item, variantId);
  }

  /** Preparing one input is merging the registry it would produce alone. */
  lemma PrepareIsMerge(r: Shared, target: Target, input: Input, analysis: Analysis)
    ensures Prepare(r, target, input, analysis) == Merge(r, Prepare(EMPTY, target, input, analysis))
  {
    var item := Item(target, input.stagedId);
    var p: Shared := Registry(map[], map[], map[item := Retained(input, analysis)], None);
    MergeSource(r, item, Retained(input, analysis));
    hide Merge, Put, Choose;
    match analysis
    case Heif(_, original, Ok(jpeg)) =>
      var kept := Cached(PairDescriptor(Original, Keep, original), Source, Some(OutputIdentity(Original, Jpeg)));
      MergePut(r, p, item, kept);
      MergePutChoose(r, Put(p, item, kept), item,
                     Cached(PairDescriptor(Original, Jpeg, jpeg.details), Owned(jpeg.bytes), None),
                     OutputIdentity(Original, Jpeg));
    case Heif(_, _, Err(_)) =>
    case Plain(file, encoded) =>
      MergePutChoose(r, p, item, Cached(FileDescriptor(file), Source, None), UNTOUCHED_FILE);
      if encoded.Ok? {
        var image := encoded.value;
        var storage := if image.bytes == input.bytes then Source else Owned(image.bytes);
        MergePutChoose(r, p, item, Cached(PairDescriptor(Original, Keep, image.details), storage, None),
                       OutputIdentity(Original, Keep));
      }
  }

  lemma NaivePrepareIsMerge(n: Naive, target: Target, input: Input, analysis: Analysis)
    ensures NaivePrepare(n, target, input, analysis) == Merge(n, NaivePrepare(NOTHING, target, input, analysis))
  {
    var item := Item(target, input.stagedId);
    var p: Naive := Registry(map[], map[], map[item := Retained(input, analysis)], None);
    MergeSource(n, item, Retained(input, analysis));
    hide Merge, Put, Choose;
    match analysis
    case Heif(_, original, Ok(jpeg)) =>
      var kept := Cached(PairDescriptor(Original, Keep, original), input.bytes, Some(OutputIdentity(Original, Jpeg)));
      MergePut(n, p, item, kept);
      MergePutChoose(n, Put(p, item, kept), item,
                     Cached(PairDescriptor(Original, Jpeg, jpeg.details), jpeg.bytes, None),
                     OutputIdentity(Original, Jpeg));
    case Heif(_, _, Err(_)) =>
    case Plain(file, encoded) =>
      MergePutChoose(n, p, item, Cached(FileDescriptor(file), input.bytes, None), UNTOUCHED_FILE);
      if encoded.Ok? {
        var image := encoded.value;
        MergePutChoose(n, p, item, Cached(PairDescriptor(Original, Keep, image.details), image.bytes, None),
                       OutputIdentity(Original, Keep));
      }
  }

  lemma ExpandPut(r: Shared, item: Item, cached: Cached<Storage>, bytes: Bytes)
    requires match cached.storage
             case Owned(b) => b == bytes
             case Source => item in r.sources && r.sources[item].bytes == bytes
    ensures Expand(Put(r, item, cached)) == Put(Expand(r), item, Cached(cached.descriptor, bytes, cached.preview))
  {
  }

  lemma ExpandPutChoose(r: Shared, item: Item, cached: Cached<Storage>, bytes: Bytes)
    requires match cached.storage
             case Owned(b) => b == bytes
             case Source => item in r.sources && r.sources[item].bytes == bytes
    ensures var v := cached.descriptor.variantId;
            Expand(Choose(Put(r, item, cached), item, v))
            == Choose(Put(Expand(r), item, Cached(cached.descriptor, bytes, cached.preview)), item, v)
  {
  }

  /** On an empty registry the two forms prepare alike. */
  lemma ExpandAlone(target: Target, input: Input, analysis: Analysis)
    ensures Expand(Prepare(EMPTY, target, input, analysis)) == NaivePrepare(NOTHING, target, input, analysis)
  {
    var item := Item(target, input.stagedId);
    var p: Shared := Registry(map[], map[], map[item := Retained(input, analysis)], None);
    assert Expand(p) == Registry(map[], map[], map[item := Retained(input, analysis)], None);
    hide Expand, Choose;
    match analysis
    case Heif(_, original, Ok(jpeg)) =>
      var kept := Cached(PairDescriptor(Original, Keep, original), Source, Some(OutputIdentity(Original, Jpeg)));
      ExpandPut(p, item, kept, input.bytes);
      ExpandPutChoose(Put(p, item, kept), item,
                      Cached(PairDescriptor(Original, Jpeg, jpeg.details), Owned(jpeg.bytes), None), jpeg.bytes);
    case Heif(_, _, Err(_)) =>
    case Plain(file, encoded) =>
      ExpandPutChoose(p, item, Cached(FileDescriptor(file), Source, None), input.bytes);
      if encoded.Ok? {
        var image := encoded.value;
        var storage := if image.bytes == input.bytes then Source else Owned(image.bytes);
        ExpandPutChoose(p, item, Cached(PairDescriptor(Original, Keep, image.details), storage, None), image.bytes);
      }
  }

  lemma ExpandDrop(r: Shared, removal: Removal)
    ensures Expand(DropVariants(r, removal)) == DropVariants(Expand(r), removal)
  {
  }

  lemma ExpandRemove(r: Shared, removal: Removal)
    requires Inv(r)
    ensures Expand(Remove(r, removal)) == Remove(Expand(r), removal)
  {
    hide Resolve, Inv, Removes;
    var a, b := Expand(Remove(r, removal)), Remove(Expand(r), removal);
    forall k | k in Remove(r, removal).variants ensures Resolve(Remove(r, removal), k) == Resolve(r, k) {
      ResolveKept(r, removal, k);
    }
    assert a.variants == b.variants;
  }

  lemma ResolveKept(r: Shared, removal: Removal, k: Key)
    requires Inv(r) && k in Remove(r, removal).variants
    ensures Resolve(Remove(r, removal), k) == Resolve(r, k)
  {
  }

  // ------------------------------------------------------------ refinement --

  /** The variants a preparation stores anew. */
  function Rewritten(input: Input, analysis: Analysis): set<string> {
    match analysis
    case Heif(_, _, Ok(_)) => {OutputIdentity(Original, Keep), OutputIdentity(Original, Jpeg)}
    case Heif(_, _, Err(_)) => {}
    case Plain(_, encoded) =>
      if input.bytes == [] then {}
      else if !ImageCandidate(input.mimeType) then {UNTOUCHED_FILE}
      else if encoded.Ok? then {OutputIdentity(Original, Keep)}
      else {}
  }

  /** Apart from the named variants, those of the item that share its source
      already share exactly these bytes. */
  ghost predicate SharesOnly(r: Shared, item: Item, bytes: Bytes, besides: set<string>) {
    forall k :: k in r.variants && k.item == item && r.variants[k].storage.Source? && k.variantId !in besides
      ==> item in r.sources && r.sources[item].bytes == bytes
  }

  /** The operation leaves every shared variant the bytes it shares. Only a
      preparation or a merge can fail this, by replacing the source of an item
      that still has shared variants with other bytes. */
  ghost predicate Harmless(r: Shared, op: Op) {
    match op
    case OpPrepare(t, input, a) => SharesOnly(r, Item(t, input.stagedId), input.bytes, Rewritten(input, a))
    case OpMerge(prepared) => MergeHarmless(r, prepared)
    case _ => true
  }

  lemma EmptyInv()
    ensures Inv(EMPTY)
  {
  }

  lemma PrepareCommutes(r: Shared, target: Target, input: Input, analysis: Analysis)
    requires Inv(r)
    ensures Expand(Prepare(r, target, input, analysis)) == NaivePrepare(Expand(r), target, input, analysis)
            <==> SharesOnly(r, Item(target, input.stagedId), input.bytes, Rewritten(input, analysis))
  {
    PreparedAlone(target, input, analysis);
    MergingOneItem(r, Prepare(EMPTY, target, input, analysis), Item(target, input.stagedId), Retained(input, analysis),
                   Rewritten(input, analysis));
    EmptyInv();
    PrepareKeepsInv(EMPTY, target, input, analysis);
    PrepareIsMerge(r, target, input, analysis);
    NaivePrepareIsMerge(Expand(r), target, input, analysis);
    ExpandAlone(target, input, analysis);
    hide Prepare, NaivePrepare, Expand, Merge, Inv, MergeHarmless, SharesOnly, Rewritten;
    ExpandMerge(r, Prepare(EMPTY, target, input, analysis));
  }

  /** What a preparation alone produces. */
  lemma PreparedAlone(target: Target, input: Input, analysis: Analysis)
    ensures var item, p := Item(target, input.stagedId), Prepare(EMPTY, target, input, analysis);
            && p.sources == map[item := Retained(input, analysis)]
            && forall k :: k in p.variants <==> k.item == item && k.variantId in Rewritten(input, analysis)
  {
    hide ImageCandidate, OutputIdentity;
  }

  lemma MergingOneItem(r: Shared, p: Shared, item: Item, source: Input, stored: set<string>)
    requires p.sources == map[item := source]
    requires forall k :: k in p.variants <==> k.item == item && k.variantId in stored
    ensures MergeHarmless(r, p) <==> SharesOnly(r, item, source.bytes, stored)
  {
    if MergeHarmless(r, p) {
      forall k | k in r.variants && k.item == item && r.variants[k].storage.Source? && k.variantId !in stored
        ensures item in r.sources && r.sources[item].bytes == source.bytes
      {
        assert k !in p.variants;
      }
    }
  }

  /** The variants a preparation stores anew whatever its encoder returns. The
      bytes alone decide beforehand whether the input is HEIF. */
  function AlwaysRewritten(input: Input, heif: bool): set<string> {
    if heif || input.bytes == [] || ImageCandidate(input.mimeType) then {} else {UNTOUCHED_FILE}
  }

  /** What a caller can check before it knows what the encoder will say: a
      preparation is harmless whatever comes of it if and only if every variant
      that shares the item's source, besides the untouched file a plain file
      replaces, shares exactly the new bytes. */
  lemma PreparationSafeExactly(r: Shared, target: Target, input: Input, heif: bool)
    requires Inv(r)
    ensures (forall a: Analysis :: a.Heif? == heif ==> Harmless(r, OpPrepare(target, input, a)))
            <==> SharesOnly(r, Item(target, input.stagedId), input.bytes, AlwaysRewritten(input, heif))
  {
    hide ImageCandidate, OutputIdentity;
    var item := Item(target, input.stagedId);
    if !SharesOnly(r, item, input.bytes, AlwaysRewritten(input, heif)) {
      var k :| && k in r.variants && k.item == item && r.variants[k].storage.Source?
               && k.variantId !in AlwaysRewritten(input, heif)
               && !(item in r.sources && r.sources[item].bytes == input.bytes);
      var details := r.variants[k].descriptor.details;
      var failed := if heif then Heif(input.mimeType, details, Err(Decode)) else Plain(details, Err(Decode));
      assert !Harmless(r, OpPrepare(target, input, failed));
    }
  }

  lemma RetryCommutes(r: Shared, item: Item, analysis: Analysis)
    requires Inv(r)
    ensures Expand(Step(r, OpRetry(item, analysis))) == NaiveStep(Expand(r), OpRetry(item, analysis))
  {
    if item in r.sources {
      var dropped := DropVariants(r, OneItem(item));
      ExpandDrop(r, OneItem(item));
      DropKeepsInv(r, OneItem(item));
      assert SharesOnly(dropped, item, r.sources[item].bytes, Rewritten(r.sources[item], analysis));
      hide Prepare, NaivePrepare, Expand, Inv, SharesOnly, Rewritten;
      PrepareCommutes(dropped, item.target, r.sources[item], analysis);
    }
  }

  lemma UseOriginalCommutes(r: Shared, item: Item, details: Details)
    requires Inv(r)
    ensures Expand(Step(r, OpUseOriginal(item, details))) == NaiveStep(Expand(r), OpUseOriginal(item, details))
  {
    if item in r.sources {
      ExpandDrop(r, OneItem(item));
      hide Expand, Choose, Put;
      ExpandPutChoose(DropVariants(r, OneItem(item)), item, Cached(FileDescriptor(details), Source, None),
                      r.sources[item].bytes);
    }
  }

  lemma ReconcileCommutes(r: Shared, observed: Option<Option<string>>, staged: set<Item>)
    requires Inv(r)
    ensures Expand(Reconcile(r, observed, staged)) == Reconcile(Expand(r), observed, staged)
  {
    var cleared := Remove(r, Everything).(account := if observed.Some? then observed.value else None);
    RemoveKeepsInv(r, Everything);
    ExpandRemove(r, Everything);
    assert Inv(cleared) && Expand(cleared) == Expand(Remove(r, Everything)).(account := cleared.account);
    hide Remove, Expand, Inv;
    ExpandRemove(r, Unlisted(staged));
    ExpandRemove(cleared, Unlisted(staged));
  }

  /** An operation on the sharing registry has the effect of the same operation
      on the copying one if and only if it is harmless. */
  lemma StepRefinesExactly(r: Shared, op: Op)
    requires Inv(r) && (op.OpMerge? ==> Inv(op.prepared))
    ensures Expand(Step(r, op)) == NaiveStep(Expand(r), op) <==> Harmless(r, op)
  {
    match op
    case OpPrepare(t, input, a) => PrepareCommutes(r, t, input, a);
    case OpInsert(item, d, bytes) => InsertCommutes(r, item, d, bytes);
    case OpSelect(item, v) => SelectCommutes(r, item, v);
    case OpRemove(removal) => ExpandRemove(r, removal);
    case OpReconcile(observed, staged) => ReconcileCommutes(r, observed, staged);
    case OpRetry(item, a) => RetryCommutes(r, item, a);
    case OpUseOriginal(item, details) => UseOriginalCommutes(r, item, details);
    case OpMerge(prepared) => ExpandMerge(r, prepared);
  }

  lemma InsertCommutes(r: Shared, item: Item, descriptor: Descriptor, bytes: Bytes)
    ensures Expand(Insert(r, item, descriptor, bytes)) == NaiveInsert(Expand(r), item, descriptor, bytes)
  {
  }

  lemma SelectCommutes(r: Shared, item: Item, variantId: string)
    ensures Expand(SelectVariant(r, item, variantId)) == SelectVariant(Expand(r), item, variantId)
  {
  }

  /** What callers ensure: a prepared item is new to the registry, or carries
      the bytes already retained for it. */
  predicate FreshOrSame(r: Shared, item: Item, bytes: Bytes) {
    item in r.sources ==> r.sources[item].bytes == bytes
  }

  lemma FreshIdsAreHarmless(r: Shared, op: Op)
    requires Inv(r)
    requires op.OpPrepare? ==> FreshOrSame(r, Item(op.target, op.input.stagedId), op.input.bytes)
    requires op.OpMerge? ==>
               forall i :: i in op.prepared.sources ==> FreshOrSame(r, i, op.prepared.sources[i].bytes)
    ensures Harmless(r, op)
  {
  }

  /** What a preparation makes ready for upload: the converted image of a HEIF
      input, the encoder's output of an image, the very bytes of any other file;
      nothing new when it fails. A HEIF original stays selectable with its exact
      bytes and previews the converted image. */
  lemma PreparedUpload(r: Shared, target: Target, input: Input, analysis: Analysis)
    ensures var item, p := Item(target, input.stagedId), Prepare(r, target, input, analysis);
            && item in p.sources && p.sources[item].bytes == input.bytes
            && match analysis
               case Heif(_, original, Ok(jpeg)) =>
                 var untouched := Key(item, OutputIdentity(Original, Keep));
                 && SelectedUpload(p, item) == Some((PairDescriptor(Original, Jpeg, jpeg.details), jpeg.bytes))
                 && SelectedUpload(SelectVariant(p, item, untouched.variantId), item)
                    == Some((PairDescriptor(Original, Keep, original), input.bytes))
                 && PreviewBytes(p, untouched) == Some(jpeg.bytes)
               case Plain(file, encoded) =>
                 if input.bytes == [] then p.selected == r.selected
                 else if !ImageCandidate(input.mimeType) then
                   SelectedUpload(p, item) == Some((FileDescriptor(file), input.bytes))
                 else if encoded.Ok? then
                   SelectedUpload(p, item)
                   == Some((PairDescriptor(Original, Keep, encoded.value.details), encoded.value.bytes))
                 else p.selected == r.selected && p.variants == r.variants
               case _ => p.selected == r.selected && p.variants == r.variants
  {
    hide ImageCandidate;
    PairIdentitiesDiffer();
  }

  /** No two outputs share a cache identity, and none takes the name of an
      untouched file. */
  lemma IdentitiesAreDistinct(r: Resize, f: Format, s: Resize, g: Format)
    ensures OutputIdentity(r, f) == OutputIdentity(s, g) ==> r == s && f == g
    ensures OutputIdentity(r, f) != UNTOUCHED_FILE
  {
    var a, b := OutputIdentity(r, f), OutputIdentity(s, g);
    assert a[|ResizeToken(r)|] == '-' && b[|ResizeToken(s)|] == '-';
    assert a[0] == ResizeToken(r)[0] && b[0] == ResizeToken(s)[0];
    assert a[|ResizeToken(r)| + 1] == FormatToken(f)[0] && b[|ResizeToken(s)| + 1] == FormatToken(g)[0];
  }

  // ------------------------------------------------------------ whole runs --

  function Exec(r: Shared, ops: seq<Op>): Shared
    decreases |ops|
  {
    if ops == [] then r else Exec(Step(r, ops[0]), ops[1..])
  }

  function NaiveExec(n: Naive, ops: seq<Op>): Naive
    decreases |ops|
  {
    if ops == [] then n else NaiveExec(NaiveStep(n, ops[0]), ops[1..])
  }

  /** Every operation of the run is harmless where it is applied, and merged
      registries are resolvable. */
  ghost predicate HarmlessRun(r: Shared, ops: seq<Op>)
    decreases |ops|
  {
    ops == [] ||
    (&& Harmless(r, ops[0]) && (ops[0].OpMerge? ==> Inv(ops[0].prepared))
     && HarmlessRun(Step(r, ops[0]), ops[1..]))
  }

  lemma LookupsAgree(r: Shared, item: Item, key: Key)
    requires Inv(r)
    ensures SelectedUpload(r, item) == NaiveUpload(Expand(r), item)
    ensures PreviewBytes(r, key) == NaivePreview(Expand(r), key)
  {
  }

  /** After any harmless run the sharing registry answers every upload and
      preview lookup exactly as the copying registry would, and every selection
      still yields an upload. */
  lemma {:induction false} SharingRefinesCopying(r: Shared, ops: seq<Op>, item: Item, key: Key)
    requires Inv(r) && HarmlessRun(r, ops)
    ensures var end := Exec(r, ops);
            && SelectedUpload(end, item) == NaiveUpload(NaiveExec(Expand(r), ops), item)
            && PreviewBytes(end, key) == NaivePreview(NaiveExec(Expand(r), ops), key)
            && (item in end.selected ==> SelectedUpload(end, item).Some?)
            && (key in end.variants ==> PreviewBytes(end, key).Some?)
    decreases |ops|
  {
    hide Step, NaiveStep, Expand, Inv, Harmless;
    if ops == [] {
      LookupsAgree(r, item, key);
      EverythingResolves(r);
    } else {
      StepKeepsInv(r, ops[0]);
      StepRefinesExactly(r, ops[0]);
      SharingRefinesCopying(Step(r, ops[0]), ops[1..], item, key);
    }
  }

  // ---------------------------------------------------------------- staging --

  /** A bound on the items the registry retains, kept by looking at the calls
      alone. A reconciliation forgets what the snapshot does not list. */
  function Retaining(items: set<Item>, op: Op): set<Item> {
    match op
    case OpPrepare(t, input, _) => items + {Item(t, input.stagedId)}
    case OpMerge(prepared) => items + prepared.sources.Keys
    case OpRemove(removal) => set i | i in items && !Removes(removal, i)
    case OpReconcile(_, staged) => items * staged
    case _ => items
  }

  /** Every prepared or merged item is new, as far as the calls so far tell. */
  ghost predicate FreshRun(items: set<Item>, ops: seq<Op>)
    decreases |ops|
  {
    ops == [] ||
    (&& (ops[0].OpPrepare? ==> Item(ops[0].target, ops[0].input.stagedId) !in items)
     && (ops[0].OpMerge? ==> Inv(ops[0].prepared) && items !! ops[0].prepared.sources.Keys)
     && FreshRun(Retaining(items, ops[0]), ops[1..]))
  }

  lemma StepRetains(r: Shared, items: set<Item>, op: Op)
    requires Inv(r) && r.sources.Keys <= items
    ensures Step(r, op).sources.Keys <= Retaining(items, op)
  {
    hide Prepare;
    match op
    case OpPrepare(t, input, a) => PreparedSources(r, t, input, a);
    case OpRetry(item, a) =>
      if item in r.sources {
        PreparedSources(DropVariants(r, OneItem(item)), item.target, r.sources[item], a);
        assert Item(item.target, r.sources[item].stagedId) == item;
      }
    case _ =>
  }

  lemma PreparedSources(r: Shared, target: Target, input: Input, analysis: Analysis)
    ensures Prepare(r, target, input, analysis).sources
         == r.sources[Item(target, input.stagedId) := Retained(input, analysis)]
  {
    hide ImageCandidate, OutputIdentity;
  }

  /** An id outside the reconciled snapshot is new to the registry. */
  lemma ReconciledIdsAreFresh(r: Shared, observed: Option<Option<string>>, staged: set<Item>, item: Item)
    requires Inv(r) && item !in staged
    ensures var n := Step(r, OpReconcile(observed, staged));
            item !in n.sources && item !in n.selected && forall k :: k in n.variants ==> k.item != item
  {
  }

  lemma {:induction false} FreshRunsAreHarmless(r: Shared, items: set<Item>, ops: seq<Op>)
    requires Inv(r) && r.sources.Keys <= items && FreshRun(items, ops)
    ensures HarmlessRun(r, ops)
    decreases |ops|
  {
    if ops != [] {
      FreshIdsAreHarmless(r, ops[0]);
      StepKeepsInv(r, ops[0]);
      StepRetains(r, items, ops[0]);
      hide Step, Inv, Harmless, Retaining;
      FreshRunsAreHarmless(Step(r, ops[0]), Retaining(items, ops[0]), ops[1..]);
    }
  }

  /** Staging new ids only, over any run from the start, with any number of
      removals, reconciliations, retries and selections in between: every upload
      and preview is the one the copying registry would give. */
  lemma StagingFreshIdsRefines(ops: seq<Op>, item: Item, key: Key)
    requires FreshRun({}, ops)
    ensures var end := Exec(EMPTY, ops);
            && SelectedUpload(end, item) == NaiveUpload(NaiveExec(NOTHING, ops), item)
            && PreviewBytes(end, key) == NaivePreview(NaiveExec(NOTHING, ops), key)
            && (item in end.selected ==> SelectedUpload(end, item).Some?)
            && (key in end.variants ==> PreviewBytes(end, key).Some?)
  {
    EmptyInv();
    FreshRunsAreHarmless(EMPTY, {}, ops);
    assert Expand(EMPTY) == NOTHING;
    hide Exec, NaiveExec, Expand, HarmlessRun, Inv;
    SharingRefinesCopying(EMPTY, ops, item, key);
  }

  /** Why freshness matters: an item staged as a plain file and then prepared
      again under the same id with other bytes, whose encoding fails, keeps its
      old selection but uploads the new bytes. */
  lemma RestagedIdUploadsWrongBytes(target: Target, id: string, before: Bytes, after: Bytes, details: Details)
    requires before != [] && after != [] && before != after
    ensures var first := OpPrepare(target, Input(id, "text/plain", before), Plain(details, Err(Decode)));
            var second := OpPrepare(target, Input(id, "image/png", after), Plain(details, Err(Decode)));
            var item := Item(target, id);
            && SelectedUpload(Step(Step(EMPTY, first), second), item) == Some((FileDescriptor(details), after))
            && NaiveUpload(NaiveStep(NaiveStep(NOTHING, first), second), item)
               == Some((FileDescriptor(details), before))
  {
    PlainTextIsNoImage();
  }

  lemma PlainTextIsNoImage()
    ensures !ImageCandidate("text/plain") && ImageCandidate("image/png")
  {
    assert Lowercase("text/plain")[0] == 't';
    assert Lowercase("image/png") == "image/png";
  }
}
