/** `MediaPreparationRegistry` with its maps updated in place; every method is
    proved to take the matching step of `MediaRegistry`. */
module MediaPreparation {
  import opened Basics
  import opened MediaRegistry
  import opened MediaRuns
  import opened MediaLookups

  /** The batch a preparation call works off: at most sixteen inputs, in order. */
  function Batch(target: Target, inputs: seq<Input>, analyses: seq<Analysis>): seq<Op>
    requires |inputs| == |analyses|
  {
    var n := if |inputs| < MAX_PREPARATION_BATCH_SIZE then |inputs| else MAX_PREPARATION_BATCH_SIZE;
    seq(n, i requires 0 <= i < n => OpPrepare(target, inputs[i], analyses[i]))
  }

  lemma {:induction false} ExecSnoc(r: Shared, ops: seq<Op>, op: Op)
    ensures Exec(r, ops + [op]) == Step(Exec(r, ops), op)
    decreases |ops|
  {
    hide Step;
    if ops == [] {
      assert [op][1..] == [] && ops + [op] == [op];
    } else {
      assert (ops + [op])[1..] == ops[1..] + [op];
      ExecSnoc(Step(r, ops[0]), ops[1..], op);
    }
  }

  ghost predicate DistinctIds(inputs: seq<Input>) {
    forall i, j :: 0 <= i < j < |inputs| ==> inputs[i].stagedId != inputs[j].stagedId
  }

  /** Of a batch with distinct ids exactly the first sixteen inputs are taken, each
      retained under its own id with its own bytes. */
  lemma BatchRetains(r: Shared, target: Target, inputs: seq<Input>, analyses: seq<Analysis>, i: nat)
    requires |inputs| == |analyses| && DistinctIds(inputs) && i < |inputs|
    ensures var item, n := Item(target, inputs[i].stagedId), Exec(r, Batch(target, inputs, analyses));
            if i < 16 then item in n.sources && n.sources[item].bytes == inputs[i].bytes
            else SameItem(r, n, item)
  {
    var ops := Batch(target, inputs, analyses);
    assert ops[..|ops|] == ops;
    BatchPrefix(r, target, inputs, analyses, i, |ops|);
  }

  lemma {:induction false} BatchPrefix(r: Shared, target: Target, inputs: seq<Input>, analyses: seq<Analysis>,
                                       i: nat, n: nat)
    requires |inputs| == |analyses| && DistinctIds(inputs) && i < |inputs| && n <= |Batch(target, inputs, analyses)|
    ensures var item, end := Item(target, inputs[i].stagedId), Exec(r, Batch(target, inputs, analyses)[..n]);
            if i < n then item in end.sources && end.sources[item].bytes == inputs[i].bytes
            else SameItem(r, end, item)
    decreases n
  {
    var ops, item := Batch(target, inputs, analyses), Item(target, inputs[i].stagedId);
    if n == 0 {
      assert ops[..0] == [];
    } else {
      var before := Exec(r, ops[..n - 1]);
      BatchPrefix(r, target, inputs, analyses, i, n - 1);
      assert ops[..n] == ops[..n - 1] + [ops[n - 1]];
      ExecSnoc(r, ops[..n - 1], ops[n - 1]);
      hide Prepare, Exec;
      PreparedSources(before, target, inputs[n - 1], analyses[n - 1]);
      if i != n - 1 {
        PrepareUntouched(before, target, inputs[n - 1], analyses[n - 1], item);
        if i >= n {
          SameItemChains(r, before, Prepare(before, target, inputs[n - 1], analyses[n - 1]), item);
        }
      }
    }
  }

  class PreparationRegistry {
    var variants: map<Key, Cached<Storage>>
    var selected: map<Item, string>
    var sources: map<Item, Input>
    var accountUserId: Option<string>

    function View(): Shared
      reads this
    {
      Registry(variants, selected, sources, accountUserId)
    }

    ghost predicate Valid()
      reads this
    {
      Inv(View())
    }

    constructor ()
      ensures Valid() && View() == EMPTY
    {
      variants, selected, sources, accountUserId := map[], map[], map[], None;
    }

    method StoreAndSelect(item: Item, cached: Cached<Storage>)
      modifies this
      ensures View() == Choose(Put(old(View()), item, cached), item, cached.descriptor.variantId)
    {
      variants := variants[Key(item, cached.descriptor.variantId) := cached];
      selected := selected[item := cached.descriptor.variantId];
    }

    method PrepareOne(target: Target, input: Input, analysis: Analysis) returns (ready: bool)
      requires Valid()
      modifies this
      ensures Valid() && View() == Step(old(View()), OpPrepare(target, input, analysis))
      ensures ready ==> SelectedUpload(View(), Item(target, input.stagedId)).Some?
    {
      StepKeepsInv(View(), OpPrepare(target, input, analysis));
      EverythingResolves(Step(View(), OpPrepare(target, input, analysis)));
      var item := Item(target, input.stagedId);
      sources := sources[item := Retained(input, analysis)];
      ready := false;
      match analysis {
        case Heif(_, original, converted) =>
          if converted.Ok? {
            var jpeg := PairDescriptor(Original, Jpeg, converted.value.details);
            var kept := PairDescriptor(Original, Keep, original);
            variants := variants[Key(item, kept.variantId) := Cached(kept, Source, Some(jpeg.variantId))];
            StoreAndSelect(item, Cached(jpeg, Owned(converted.value.bytes), None));
            ready := true;
          }
        case Plain(file, encoded) =>
          if input.bytes != [] {
            if !ImageCandidate(input.mimeType) {
              StoreAndSelect(item, Cached(FileDescriptor(file), Source, None));
              ready := true;
            } else if encoded.Ok? {
              var storage := if encoded.value.bytes == input.bytes then Source else Owned(encoded.value.bytes);
              StoreAndSelect(item, Cached(PairDescriptor(Original, Keep, encoded.value.details), storage, None));
              ready := true;
            }
          }
      }
    }

    method PrepareItems(target: Target, inputs: seq<Input>, analyses: seq<Analysis>)
      requires Valid() && |inputs| == |analyses|
      modifies this
      ensures Valid() && View() == Exec(old(View()), Batch(target, inputs, analyses))
    {
      hide Step, Inv;
      ghost var ops := Batch(target, inputs, analyses);
      var i := 0;
      while i < |inputs| && i < MAX_PREPARATION_BATCH_SIZE
        invariant 0 <= i <= |inputs| && i <= MAX_PREPARATION_BATCH_SIZE
        invariant Valid() && View() == Exec(old(View()), ops[..i])
      {
        ExecSnoc(old(View()), ops[..i], ops[i]);
        assert ops[..i + 1] == ops[..i] + [ops[i]];
        var _ := PrepareOne(target, inputs[i], analyses[i]);
        i := i + 1;
      }
      assert ops[..i] == ops;
    }

    method PrepareTarget(target: Target, inputs: seq<Input>, analyses: seq<Analysis>)
      requires Valid() && |inputs| == |analyses|
      modifies this
      ensures Valid()
      ensures View() == Exec(Step(old(View()), OpRemove(WholeTarget(target))), Batch(target, inputs, analyses))
    {
      Clean(WholeTarget(target));
      PrepareItems(target, inputs, analyses);
    }

    method InsertPreparedOutput(item: Item, descriptor: Descriptor, bytes: Bytes)
      requires Valid()
      modifies this
      ensures Valid() && View() == Step(old(View()), OpInsert(item, descriptor, bytes))
      ensures SelectedUpload(View(), item) == Some((descriptor, bytes))
    {
      StepKeepsInv(View(), OpInsert(item, descriptor, bytes));
      var sourceBacked := descriptor.resize == Original && descriptor.format == Keep
                          && item in sources && sources[item].bytes == bytes;
      StoreAndSelect(item, Cached(descriptor, if sourceBacked then Source else Owned(bytes), None));
    }

    method SelectVariant(item: Item, variantId: string) returns (known: bool)
      requires Valid()
      modifies this
      ensures Valid() && View() == Step(old(View()), OpSelect(item, variantId))
      ensures known <==> Key(item, variantId) in old(variants)
    {
      StepKeepsInv(View(), OpSelect(item, variantId));
      known := Key(item, variantId) in variants;
      if known {
        selected := selected[item := variantId];
      }
    }

    method DropPrepared(removal: Removal)
      modifies this
      ensures View() == DropVariants(old(View()), removal)
    {
      variants := map k | k in variants && !Removes(removal, k.item) :: variants[k];
      selected := map i | i in selected && !Removes(removal, i) :: selected[i];
    }

    /** `remove_item`, `clear_target`, `clear_thread_targets` and `clear`. */
    method Clean(removal: Removal)
      requires Valid()
      modifies this
      ensures Valid() && View() == Step(old(View()), OpRemove(removal))
    {
      StepKeepsInv(View(), OpRemove(removal));
      DropPrepared(removal);
      sources := map i | i in sources && !Removes(removal, i) :: sources[i];
      if removal == Everything {
        accountUserId := None;
      }
    }

    method ReconcileSnapshot(observed: Option<Option<string>>, staged: set<Item>)
      requires Valid()
      modifies this
      ensures Valid() && View() == Step(old(View()), OpReconcile(observed, staged))
    {
      StepKeepsInv(View(), OpReconcile(observed, staged));
      hide Inv, DropVariants;
      if observed.Some? && observed.value != accountUserId {
        Clean(Everything);
        accountUserId := observed.value;
        AccountKeepsInv(Remove(old(View()), Everything), observed.value);
      }
      Clean(Unlisted(staged));
    }

    method RetryItem(item: Item, analysis: Analysis) returns (found: bool)
      requires Valid()
      modifies this
      ensures Valid() && View() == Step(old(View()), OpRetry(item, analysis))
      ensures found <==> item in old(sources)
    {
      found := item in sources;
      if found {
        var input := sources[item];
        assert item == Item(item.target, input.stagedId);
        DropKeepsInv(View(), OneItem(item));
        DropPrepared(OneItem(item));
        hide Inv, Prepare;
        var _ := PrepareOne(item.target, input, analysis);
      }
    }

    method UseOriginal(item: Item, details: Details) returns (found: bool)
      requires Valid()
      modifies this
      ensures Valid() && View() == Step(old(View()), OpUseOriginal(item, details))
      ensures found <==> item in old(sources) && old(sources)[item].bytes != []
      ensures found ==> SelectedUpload(View(), item) == Some((FileDescriptor(details), old(sources)[item].bytes))
    {
      StepKeepsInv(View(), OpUseOriginal(item, details));
      found := item in sources && sources[item].bytes != [];
      if found {
        DropPrepared(OneItem(item));
        StoreAndSelect(item, Cached(FileDescriptor(details), Source, None));
      }
    }

    method MergePrepared(prepared: Shared)
      requires Valid() && Inv(prepared)
      modifies this
      ensures Valid() && View() == Step(old(View()), OpMerge(prepared))
    {
      hide Inv, Prepare, Insert, Reconcile, Remove, DropVariants;
      MergeKeepsInv(View(), prepared);
      variants := variants + prepared.variants;
      selected := selected + prepared.selected;
      sources := sources + prepared.sources;
    }
  }
}
