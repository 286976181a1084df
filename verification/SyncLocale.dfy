/** The imperative sync of one locale, loop by loop, against its specification. */
module SyncLocale {
  import opened Common
  import NestedKeys
  import opened TranslationMemory
  import opened LocaleSync
  import opened SyncRun
  import opened TranslationBatches
  import opened BatchTranslator

  /** The decision loop over the source keys. */
  method PlanKeys(env: Env, b: Basis, memory: Tm, source: OrderedMap<string>) returns (w: Work)
    ensures w == Plan(env, b, memory, source)
  {
    var nextFlat: map<string, string>, pending: seq<Item>, fallbackKeys: seq<string> := map[], [], [];
    var tm := memory;
    for i := 0 to |source|
      invariant Work(nextFlat, tm, pending, fallbackKeys) == Plan(env, b, memory, source[..i])
    {
      assert source[..i + 1][..i] == source[..i];
      var (key, text) := source[i];
      var textHash := env.hashText(text);
      var segmentCacheKey := env.cacheKey(key, textHash);
      var cached := Get(tm, segmentCacheKey);
      var existing := Get(b.existing, key);
      var shouldRefreshFallback := key in b.refresh;

      if cached.Some? && !(env.allowTranslate && shouldRefreshFallback) {
        nextFlat := nextFlat[key := cached.value.translated];
        if shouldRefreshFallback {
          fallbackKeys := fallbackKeys + [key];
        }
        continue;
      }
      if textHash in b.byText && (shouldRefreshFallback || existing.None?) {
        var cachedByText := b.byText[textHash];
        nextFlat := nextFlat[key := cachedByText.translated];
        tm := Put(tm, segmentCacheKey,
                  cachedByText.(cacheKey := segmentCacheKey, segmentId := key, sourcePath := env.sourcePath));
        continue;
      }
      if existing.Some? && !(env.allowTranslate && shouldRefreshFallback) {
        nextFlat := nextFlat[key := existing.value];
        if shouldRefreshFallback {
          fallbackKeys := fallbackKeys + [key];
        }
        continue;
      }
      pending := pending + [Item(segmentCacheKey, key, text, textHash)];
    }
    assert source[..|source|] == source;
    w := Work(nextFlat, tm, pending, fallbackKeys);
  }

  /** The merge loop over the pending items. */
  method SettlePending(force: bool, b: Basis, w: Work) returns (r: Work)
    ensures r == Settle(force, b, w, w.pending)
  {
    var nextFlat, fallbackKeys := w.next, w.fallback;
    for i := 0 to |w.pending|
      invariant Work(nextFlat, w.tm, w.pending, fallbackKeys) == Settle(force, b, w, w.pending[..i])
    {
      assert w.pending[..i + 1][..i] == w.pending[..i];
      var item := w.pending[i];
      if item.key in nextFlat {
        continue;
      }
      var existing := Get(b.existing, item.key);
      if existing.Some? && !force {
        nextFlat := nextFlat[item.key := existing.value];
        if item.key in b.refresh {
          fallbackKeys := fallbackKeys + [item.key];
        }
        continue;
      }
      nextFlat := nextFlat[item.key := item.text];
      fallbackKeys := fallbackKeys + [item.key];
    }
    assert w.pending[..|w.pending|] == w.pending;
    r := Work(nextFlat, w.tm, w.pending, fallbackKeys);
  }

  // ---------------------------------------------------------------- translating the batches

  ghost predicate DistinctKeys(items: seq<Item>) {
    forall i, j :: 0 <= i < j < |items| ==> items[i].key != items[j].key
  }

  /** The items have different keys, all among `keys`. */
  ghost predicate DistinctAmong(items: seq<Item>, keys: set<string>) {
    DistinctKeys(items) && forall j :: 0 <= j < |items| ==> items[j].key in keys
  }

  /** A source key adds its own item or none. */
  lemma PendingGrows(env: Env, b: Basis, tm: Tm, source: OrderedMap<string>)
    requires source != []
    ensures var (before, all) := (Plan(env, b, tm, source[..|source| - 1]).pending, Plan(env, b, tm, source).pending);
            var (key, text) := source[|source| - 1];
            all == before || all == before + [ItemFor(env, key, text)]
  {
  }

  /** An item under a new key keeps the keys different. */
  lemma AmongMore(items: seq<Item>, keys: set<string>, item: Item)
    requires DistinctAmong(items, keys) && item.key !in keys
    ensures DistinctAmong(items, keys + {item.key}) && DistinctAmong(items + [item], keys + {item.key})
  {
  }

  lemma {:induction false} PendingDistinct(env: Env, b: Basis, tm: Tm, source: OrderedMap<string>)
    requires Distinct(source)
    ensures DistinctAmong(Plan(env, b, tm, source).pending, Keys(source))
  {
    if source != [] {
      var init, last := source[..|source| - 1], source[|source| - 1];
      assert source == init + [last];
      PendingDistinct(env, b, tm, init);
      KeysSnoc(init, last);
      AmongMore(Plan(env, b, tm, init).pending, Keys(init), ItemFor(env, last.0, last.1));
      PendingGrows(env, b, tm, source);
    }
  }

  /** Recording looks only at the answers of the recorded items. */
  lemma {:induction false} RecordSame(env: Env, now: string, a: map<string, string>, a': map<string, string>, w: Work, items: seq<Item>)
    requires forall j :: 0 <= j < |items| ==>
               (items[j].key in a <==> items[j].key in a') && (items[j].key in a ==> a[items[j].key] == a'[items[j].key])
    ensures Record(env, now, a, w, items) == Record(env, now, a', w, items)
  {
    if items != [] {
      var init := items[..|items| - 1];
      assert forall j :: 0 <= j < |init| ==> init[j] == items[j];
      RecordSame(env, now, a, a', w, init);
    }
  }

  lemma {:induction false} RecordAppend(env: Env, now: string, a: map<string, string>, w: Work, x: seq<Item>, y: seq<Item>)
    ensures Record(env, now, a, w, x + y) == Record(env, now, a, Record(env, now, a, w, x), y)
  {
    if y != [] {
      var init := y[..|y| - 1];
      assert (x + y)[..|x + y| - 1] == x + init;
      RecordAppend(env, now, a, w, x, init);
    } else {
      assert x + y == x;
    }
  }

  /** Store one batch of answers. */
  method RecordBatch(env: Env, now: string, translated: map<string, string>, w: Work, batch: seq<Item>) returns (r: Work)
    ensures r == Record(env, now, translated, w, batch)
  {
    var nextFlat, tm := w.next, w.tm;
    for i := 0 to |batch|
      invariant Work(nextFlat, tm, w.pending, w.fallback) == Record(env, now, translated, w, batch[..i])
    {
      assert batch[..i + 1][..i] == batch[..i];
      var item := batch[i];
      if item.key !in translated || translated[item.key] == "" {
        continue;
      }
      var value := translated[item.key];
      nextFlat := nextFlat[item.key := value];
      tm := Put(tm, item.cacheKey,
                TmEntry(item.cacheKey, item.key, env.sourcePath, SOURCE_LOCALE, env.locale,
                        item.text, item.textHash, value, env.provider, env.model, now));
    }
    assert batch[..|batch|] == batch;
    r := Work(nextFlat, tm, w.pending, w.fallback);
  }

  /** The answers cover exactly the items, and recording them gives `r`. */
  ghost predicate Recorded(env: Env, now: string, answers: map<string, string>, w: Work, items: seq<Item>, r: Work) {
    && answers.Keys == KeysOf(items)
    && (forall k :: k in answers ==> !IsBlank(answers[k]))
    && r == Record(env, now, answers, w, items)
  }

  lemma KeysApart(done: seq<Item>, batch: seq<Item>)
    requires DistinctKeys(done + batch)
    ensures KeysOf(done) !! KeysOf(batch) && KeysOf(done + batch) == KeysOf(done) + KeysOf(batch)
  {
    var all := done + batch;
    assert all[..|done|] == done && all[|done|..] == batch;
    KeysOfSplit(all, |done|);
    forall i, j | 0 <= i < |done| && 0 <= j < |batch|
      ensures done[i].key != batch[j].key
    {
      assert all[i] == done[i] && all[|done| + j] == batch[j];
    }
  }

  lemma RecordedMore(env: Env, now: string, answers: map<string, string>, w: Work, done: seq<Item>, r: Work,
                     batch: seq<Item>, values: map<string, string>)
    requires Recorded(env, now, answers, w, done, r) && DistinctKeys(done + batch)
    requires values.Keys == KeysOf(batch) && forall k :: k in values ==> !IsBlank(values[k])
    ensures Recorded(env, now, answers + values, w, done + batch, Record(env, now, values, r, batch))
  {
    KeysApart(done, batch);
    RecordMerged(env, now, answers, w, done, r, batch, values);
    var both := answers + values;
    assert both.Keys == answers.Keys + values.Keys;
    assert forall k :: k in both ==> both[k] == if k in values then values[k] else answers[k];
  }

  /** Recording in two steps with separate answers is recording once with all of them. */
  lemma RecordMerged(env: Env, now: string, answers: map<string, string>, w: Work, done: seq<Item>, r: Work,
                     batch: seq<Item>, values: map<string, string>)
    requires Recorded(env, now, answers, w, done, r) && values.Keys == KeysOf(batch) && KeysOf(done) !! KeysOf(batch)
    ensures Record(env, now, answers + values, w, done + batch) == Record(env, now, values, r, batch)
  {
    var both := answers + values;
    assert forall j :: 0 <= j < |done| ==> done[j].key in KeysOf(done);
    assert forall j :: 0 <= j < |batch| ==> batch[j].key in KeysOf(batch);
    RecordSame(env, now, answers, both, w, done);
    RecordAppend(env, now, both, w, done, batch);
    RecordSame(env, now, values, both, r, batch);
  }

  /** What the batches come to: the error that ended them, the answers before it, and the prompts issued. */
  datatype Phase = Phase(failure: Option<string>, answers: map<string, string>, prompts: nat)

  /** The batches one after the other, up to the first that fails. */
  ghost function RunBatches(timedOut: string -> bool, provider: Provider, batches: seq<seq<Item>>): Phase {
    if batches == [] then Phase(None, map[], 0)
    else
      var before := RunBatches(timedOut, provider, batches[..|batches| - 1]);
      if before.failure.Some? then before
      else
        var run := Translate(timedOut, provider, before.prompts, batches[|batches| - 1], 0);
        if run.answer.Error? then before.(failure := Some(run.answer.message), prompts := run.prompts)
        else Phase(None, before.answers + run.answer.values, run.prompts)
  }

  /** Once a batch has failed, the later ones are not sent. */
  lemma {:induction false} FailureStays(timedOut: string -> bool, provider: Provider, batches: seq<seq<Item>>, n: nat)
    requires n <= |batches| && RunBatches(timedOut, provider, batches[..n]).failure.Some?
    ensures RunBatches(timedOut, provider, batches) == RunBatches(timedOut, provider, batches[..n])
  {
    if n < |batches| {
      var init := batches[..|batches| - 1];
      assert init[..n] == batches[..n];
      FailureStays(timedOut, provider, init, n);
    } else {
      assert batches[..n] == batches;
    }
  }

  /** Without a failure exactly the keys of the batches are answered, with non-blank texts. */
  lemma {:induction false} PhaseComplete(timedOut: string -> bool, provider: Provider, batches: seq<seq<Item>>)
    requires RunBatches(timedOut, provider, batches).failure.None?
    ensures RunBatches(timedOut, provider, batches).answers.Keys == KeysOf(Concat(batches))
    ensures forall k :: k in RunBatches(timedOut, provider, batches).answers ==>
              !IsBlank(RunBatches(timedOut, provider, batches).answers[k])
  {
    if batches != [] {
      var init, last := batches[..|batches| - 1], batches[|batches| - 1];
      var before := RunBatches(timedOut, provider, init);
      PhaseComplete(timedOut, provider, init);
      TranslateComplete(timedOut, provider, before.prompts, last, 0);
      var all := Concat(init) + last;
      KeysOfSplit(all, |Concat(init)|);
      assert all[..|Concat(init)|] == Concat(init) && all[|Concat(init)|..] == last;
    }
  }

  /** A failure is the error of the last prompt issued, which asked for a part of one batch. */
  lemma {:induction false} PhaseFailure(timedOut: string -> bool, provider: Provider, batches: seq<seq<Item>>)
    returns (i: nat, lo: nat, hi: nat)
    requires RunBatches(timedOut, provider, batches).failure.Some?
    ensures var phase := RunBatches(timedOut, provider, batches);
            && i < |batches| && lo <= hi <= |batches[i]| && phase.prompts > 0
            && Ask(provider, phase.prompts - 1, batches[i][lo..hi]) == Error(phase.failure.value)
  {
    var init, last := batches[..|batches| - 1], batches[|batches| - 1];
    var before := RunBatches(timedOut, provider, init);
    if before.failure.Some? {
      i, lo, hi := PhaseFailure(timedOut, provider, init);
    } else {
      var run := Translate(timedOut, provider, before.prompts, last, 0);
      TranslateFailure(timedOut, provider, before.prompts, last, 0);
      assert FailedOnLast(timedOut, provider, last, run);
      lo, hi :| lo <= hi <= |last| && run.prompts > 0 && Ask(provider, run.prompts - 1, last[lo..hi]) == run.answer;
      i := |batches| - 1;
    }
  }

  /** However the provider behaves, non-empty batches cost at most four prompts per item less two per batch. */
  lemma {:induction false} PhaseCosts(timedOut: string -> bool, provider: Provider, batches: seq<seq<Item>>)
    requires forall i :: 0 <= i < |batches| ==> batches[i] != []
    ensures RunBatches(timedOut, provider, batches).prompts <= 4 * |Concat(batches)| - 2 * |batches|
  {
    if batches != [] {
      var init, last := batches[..|batches| - 1], batches[|batches| - 1];
      PhaseCosts(timedOut, provider, init);
      TranslateCosts(timedOut, provider, RunBatches(timedOut, provider, init).prompts, last, 0);
    }
  }

  ghost predicate AllAnswered(values: map<string, string>, items: seq<Item>) {
    forall j :: 0 <= j < |items| ==> HasAnswer(values, items[j])
  }

  /** The bound is reached, and the phase still succeeds. */
  lemma PhaseCostIsReached(timedOut: string -> bool, values: map<string, string>, batches: seq<seq<Item>>)
    requires timedOut("timed out") && !timedOut("overloaded")
    requires forall i :: 0 <= i < |batches| ==> batches[i] != [] && AllAnswered(values, batches[i])
    ensures var phase := RunBatches(timedOut, SlowProvider(0, values), batches);
            phase.failure.None? && phase.prompts == 4 * |Concat(batches)| - 2 * |batches|
  {
    DearPhases(timedOut, SlowProvider(0, values), values, batches);
  }

  /** The phase has succeeded, at four prompts for each item less two for each batch. */
  ghost predicate DearPhase(timedOut: string -> bool, provider: Provider, batches: seq<seq<Item>>) {
    var phase := RunBatches(timedOut, provider, batches);
    phase.failure.None? && phase.prompts == 4 * |Concat(batches)| - 2 * |batches|
  }

  lemma {:induction false} DearPhases(timedOut: string -> bool, provider: Provider, values: map<string, string>, batches: seq<seq<Item>>)
    requires timedOut("timed out") && !timedOut("overloaded") && provider == SlowProvider(0, values)
    requires forall i :: 0 <= i < |batches| ==> batches[i] != [] && AllAnswered(values, batches[i])
    ensures DearPhase(timedOut, provider, batches)
  {
    if batches != [] {
      var init, last := batches[..|batches| - 1], batches[|batches| - 1];
      DearPhases(timedOut, provider, values, init);
      assert last == batches[|init|];
      var n := RunBatches(timedOut, provider, init).prompts;
      EvenPrompts(n, |Concat(init)|, |init|);
      CostIsReached(timedOut, n, 0, values, last, 0);
      DearBatch(timedOut, provider, batches);
    }
  }

  lemma EvenPrompts(n: nat, items: nat, batches: nat)
    requires n == 4 * items - 2 * batches
    ensures (n + 0) % 2 == 0
  {
    assert n == 2 * (2 * items - batches);
  }

  /** A last batch at the highest price. */
  lemma DearBatch(timedOut: string -> bool, provider: Provider, batches: seq<seq<Item>>)
    requires batches != [] && DearPhase(timedOut, provider, batches[..|batches| - 1])
    requires ReachesBounds(timedOut, provider, RunBatches(timedOut, provider, batches[..|batches| - 1]).prompts, batches[|batches| - 1], 0)
    ensures DearPhase(timedOut, provider, batches)
  {
  }

  /** Every prompt is answered with a non-blank text for every item it asks for. */
  ghost predicate Answering(provider: Provider) {
    forall n: nat, items: seq<Item> ::
      provider(n, items).Reply? && forall j :: 0 <= j < |items| ==> HasAnswer(provider(n, items).values, items[j])
  }

  /** With such a provider nothing fails and every batch costs one prompt. */
  lemma {:induction false} PhaseAnswered(timedOut: string -> bool, provider: Provider, batches: seq<seq<Item>>)
    requires Answering(provider)
    ensures RunBatches(timedOut, provider, batches).failure.None?
    ensures RunBatches(timedOut, provider, batches).prompts == |batches|
  {
    if batches != [] {
      var init, last := batches[..|batches| - 1], batches[|batches| - 1];
      PhaseAnswered(timedOut, provider, init);
      var n := RunBatches(timedOut, provider, init).prompts;
      assert provider(n, last).Reply?;
      CollectAll(provider(n, last).values, last);
    }
  }

  /** After the batches in `sent` nothing has failed: the answers are collected and recorded. */
  ghost predicate Sent(env: Env, now: string, timedOut: string -> bool, provider: Provider, sent: seq<seq<Item>>, w: Work,
                       answers: map<string, string>, r: Work, prompts: nat) {
    && Phase(None, answers, prompts) == RunBatches(timedOut, provider, sent)
    && Recorded(env, now, answers, w, Concat(sent), r)
  }

  /** The phase, one batch further. */
  lemma NextBatch(timedOut: string -> bool, provider: Provider, sent: seq<seq<Item>>, batch: seq<Item>)
    requires RunBatches(timedOut, provider, sent).failure.None?
    ensures var before := RunBatches(timedOut, provider, sent);
            var run := Translate(timedOut, provider, before.prompts, batch, 0);
            RunBatches(timedOut, provider, sent + [batch]) ==
            if run.answer.Error? then before.(failure := Some(run.answer.message), prompts := run.prompts)
            else Phase(None, before.answers + run.answer.values, run.prompts)
  {
    var all := sent + [batch];
    assert all[..|all| - 1] == sent && all[|all| - 1] == batch;
  }

  lemma SentMore(env: Env, now: string, timedOut: string -> bool, provider: Provider, sent: seq<seq<Item>>, w: Work,
                 answers: map<string, string>, r: Work, prompts: nat, batch: seq<Item>, run: Run)
    requires Sent(env, now, timedOut, provider, sent, w, answers, r, prompts) && DistinctKeys(Concat(sent + [batch]))
    requires run == Translate(timedOut, provider, prompts, batch, 0) && run.answer.Ok?
    ensures Sent(env, now, timedOut, provider, sent + [batch], w, answers + run.answer.values,
                 Record(env, now, run.answer.values, r, batch), run.prompts)
  {
    ConcatSnoc(sent, batch);
    NextBatch(timedOut, provider, sent, batch);
    TranslateComplete(timedOut, provider, prompts, batch, 0);
    RecordedMore(env, now, answers, w, Concat(sent), r, batch, run.answer.values);
  }

  /** Translate batch after batch and store the answers as they come. */
  method TranslateBatches(env: Env, now: string, timedOut: string -> bool, provider: Provider, batches: seq<seq<Item>>, w: Work)
    returns (failure: Option<string>, answers: map<string, string>, r: Work, prompts: nat)
    requires DistinctKeys(Concat(batches))
    ensures Phase(failure, answers, prompts) == RunBatches(timedOut, provider, batches)
    ensures failure.None? ==> Recorded(env, now, answers, w, Concat(batches), r)
  {
    failure, answers, r, prompts := None, map[], w, 0;
    for i := 0 to |batches|
      invariant failure.None? && Sent(env, now, timedOut, provider, batches[..i], w, answers, r, prompts)
    {
      TakeNext(batches, i);
      SoFarDistinct(batches, i + 1);
      var run := TranslateBatch(timedOut, provider, prompts, batches[i], 0);
      if run.answer.Error? {
        NextBatch(timedOut, provider, batches[..i], batches[i]);
        FailureStays(timedOut, provider, batches, i + 1);
        return Some(run.answer.message), answers, r, run.prompts;
      }
      SentMore(env, now, timedOut, provider, batches[..i], w, answers, r, prompts, batches[i], run);
      prompts := run.prompts;
      r := RecordBatch(env, now, run.answer.values, r, batches[i]);
      answers := answers + run.answer.values;
    }
    assert batches[..|batches|] == batches;
  }

  lemma TakeNext<T>(s: seq<T>, i: nat)
    requires i < |s|
    ensures s[..i + 1] == s[..i] + [s[i]]
  {
  }

  /** The batches so far hold different keys. */
  lemma SoFarDistinct(batches: seq<seq<Item>>, n: nat)
    requires n <= |batches| && DistinctKeys(Concat(batches))
    ensures DistinctKeys(Concat(batches[..n]))
  {
    ConcatPrefix(batches, n);
    PrefixDistinct(Concat(batches[..n]), Concat(batches));
  }

  lemma PrefixDistinct(items: seq<Item>, all: seq<Item>)
    requires items <= all && DistinctKeys(all)
    ensures DistinctKeys(items)
  {
    assert forall i :: 0 <= i < |items| ==> items[i] == all[i];
  }

  lemma {:induction false} ConcatPrefix(batches: seq<seq<Item>>, n: nat)
    requires n <= |batches|
    ensures Concat(batches[..n]) <= Concat(batches)
  {
    if n == |batches| {
      assert batches[..n] == batches;
    } else {
      var init := batches[..|batches| - 1];
      ConcatPrefix(init, n);
      assert init[..n] == batches[..n];
    }
  }

  // ---------------------------------------------------------------- one locale

  /** The provider, its error tests and the batch budget. */
  datatype Access = Access(provider: Provider, timedOut: string -> bool, authSkips: string -> bool, budget: real)

  /** There is something to translate, and a provider to ask. */
  predicate Asks(env: Env, disk: Disk, source: Source) {
    env.allowTranslate && PlanOf(env, disk, source).pending != []
  }

  /** The translation phase of this run. */
  ghost function PhaseOf(env: Env, disk: Disk, source: Source, access: Access): Phase {
    if !Asks(env, disk, source) then Phase(None, map[], 0)
    else RunBatches(access.timedOut, access.provider, Batches(PlanOf(env, disk, source).pending, access.budget.Floor))
  }

  /** What the provider's outcomes mean for the run. */
  ghost function ReplyOf(env: Env, disk: Disk, source: Source, access: Access): Reply {
    var phase := PhaseOf(env, disk, source, access);
    if phase.failure.None? then Translated(phase.answers)
    else if access.authSkips(phase.failure.value) then AuthSkipped
    else Broken
  }

  lemma PendingBatches(env: Env, disk: Disk, source: Source, budget: int)
    requires Distinct(source.flat)
    ensures var pending := PlanOf(env, disk, source).pending;
            Concat(Batches(pending, budget)) == pending && DistinctKeys(pending)
  {
    PendingDistinct(env, BasisOf(env, disk), Load(disk.memory.value), source.flat);
    BatchesGreedy(PlanOf(env, disk, source).pending, budget);
  }

  /** A reply with answers answers every pending item. */
  lemma ReplyOfFits(env: Env, disk: Disk, source: Source, access: Access)
    requires Distinct(source.flat) && Asks(env, disk, source)
    ensures ReplyFits(env, disk, source, ReplyOf(env, disk, source, access))
  {
    var pending := PlanOf(env, disk, source).pending;
    PendingBatches(env, disk, source, access.budget.Floor);
    if PhaseOf(env, disk, source, access).failure.None? {
      PhaseComplete(access.timedOut, access.provider, Batches(pending, access.budget.Floor));
      forall j | 0 <= j < |pending|
        ensures pending[j].key in PhaseOf(env, disk, source, access).answers
      {
        assert pending[j].key in KeysOf(pending);
      }
    }
  }

  /** When every prompt is answered, the run is the translated one and costs one prompt for each batch. */
  lemma ProviderSucceeds(env: Env, disk: Disk, source: Source, access: Access)
    requires Asks(env, disk, source) && Answering(access.provider)
    ensures ReplyOf(env, disk, source, access).Translated?
    ensures PhaseOf(env, disk, source, access).prompts == |Batches(PlanOf(env, disk, source).pending, access.budget.Floor)|
  {
    PhaseAnswered(access.timedOut, access.provider, Batches(PlanOf(env, disk, source).pending, access.budget.Floor));
  }

  /** The translation phase: ask for all pending items and record the answers. */
  method TranslatePending(env: Env, now: string, disk: Disk, source: Source, access: Access, w: Work)
    returns (reply: Reply, r: Work, prompts: nat)
    requires Distinct(source.flat) && Asks(env, disk, source) && w == PlanOf(env, disk, source)
    ensures reply == ReplyOf(env, disk, source, access) && prompts == PhaseOf(env, disk, source, access).prompts
    ensures reply.Translated? ==> r == Record(env, now, reply.answers, w, w.pending) && r.pending == w.pending
  {
    PendingBatches(env, disk, source, access.budget.Floor);
    var batches := BuildTranslationBatches(w.pending, access.budget.Floor);
    var failure, answers, recorded, asked := TranslateBatches(env, now, access.timedOut, access.provider, batches, w);
    RecordKept(env, now, answers, w, w.pending);
    if failure.None? {
      return Translated(answers), recorded, asked;
    }
    return if access.authSkips(failure.value) then AuthSkipped else Broken, w, asked;
  }

  /** Four prompts for each pending item, less two for each batch; none when there is nothing to ask. */
  ghost function MostPrompts(env: Env, disk: Disk, source: Source, access: Access): int {
    var pending := PlanOf(env, disk, source).pending;
    if Asks(env, disk, source) then 4 * |pending| - 2 * |Batches(pending, access.budget.Floor)| else 0
  }

  /** No provider can make a sync issue more prompts. */
  lemma SyncCosts(env: Env, disk: Disk, source: Source, access: Access)
    ensures PhaseOf(env, disk, source, access).prompts <= MostPrompts(env, disk, source, access)
  {
    var pending := PlanOf(env, disk, source).pending;
    BatchesGreedy(pending, access.budget.Floor);
    PhaseCosts(access.timedOut, access.provider, Batches(pending, access.budget.Floor));
  }

  /** `syncLocale`: the result and the number of prompts are those that the provider's outcomes determine. */
  method SyncLocale(env: Env, opts: Options, now: string, disk: Disk, source: Source, access: Access)
    returns (result: Result, prompts: nat)
    requires Distinct(source.flat)
    ensures result == Sync(env, opts, now, disk, source, ReplyOf(env, disk, source, access))
    ensures prompts == PhaseOf(env, disk, source, access).prompts
    ensures prompts <= MostPrompts(env, disk, source, access)
    ensures Asks(env, disk, source) && PhaseOf(env, disk, source, access).failure.Some? ==>
              result == if access.authSkips(PhaseOf(env, disk, source, access).failure.value)
                        then Skipped(if disk.meta.Some? then |disk.meta.value.value.fallbackKeys| else 0) else Threw
  {
    SyncCosts(env, disk, source, access);
    var b := BasisOf(env, disk);
    var w := PlanKeys(env, b, Load(disk.memory.value), source.flat);
    prompts := 0;
    if env.allowTranslate && |w.pending| > 0 {
      var reply, recorded, asked := TranslatePending(env, now, disk, source, access, w);
      prompts := asked;
      if reply.AuthSkipped? {
        return Skipped(if disk.meta.Some? then |disk.meta.value.value.fallbackKeys| else 0), prompts;
      }
      if reply.Broken? {
        return Threw, prompts;
      }
      w := recorded;
    }
    w := SettlePending(opts.force, b, w);
    result := Finish(env, opts, now, disk, source, w);
  }

  /** Run twice: the specified second run asks nothing and changes nothing. */
  lemma SecondSyncQuiet(env: Env, opts: Options, now: string, disk: Disk, source: Source, access: Access, opts2: Options, now2: string, access2: Access)
    requires ValidEnv(env) && TotalPreorder(env.le) && Distinct(source.flat) && NestedKeys.Unambiguous(source.flat)
    requires env.allowTranslate || NoTies(env, source.flat)
    requires opts.write && !opts.checkOnly
    requires Sync(env, opts, now, disk, source, ReplyOf(env, disk, source, access)).Done?
    ensures var first := Sync(env, opts, now, disk, source, ReplyOf(env, disk, source, access));
            && PhaseOf(env, first.disk, source, access2).prompts == 0
            && Sync(env, opts2, now2, first.disk, source, ReplyOf(env, first.disk, source, access2))
               == Done(false, first.fallbackCount, false, first.disk)
  {
    var reply := ReplyOf(env, disk, source, access);
    // Without anything to ask the reply is not looked at.
    var used := if Asks(env, disk, source) then reply else Broken;
    if Asks(env, disk, source) {
      ReplyOfFits(env, disk, source, access);
    }
    var first := Sync(env, opts, now, disk, source, used);
    SecondRunChangesNothing(env, opts, now, disk, source, used, opts2, now2, ReplyOf(env, first.disk, source, access2));
  }

  /** Synced twice, a locale is neither sent to the provider nor changed the second time. */
  method SyncTwice(env: Env, opts: Options, now: string, disk: Disk, source: Source, access: Access, opts2: Options, now2: string, access2: Access)
    returns (first: Result, second: Result, prompts: nat)
    requires ValidEnv(env) && TotalPreorder(env.le) && Distinct(source.flat) && NestedKeys.Unambiguous(source.flat)
    requires env.allowTranslate || NoTies(env, source.flat)
    requires opts.write && !opts.checkOnly
    ensures first.Done? ==> prompts == 0 && second == Done(false, first.fallbackCount, false, first.disk)
  {
    var asked;
    first, asked := SyncLocale(env, opts, now, disk, source, access);
    second, prompts := first, 0;
    if first.Done? {
      SecondSyncQuiet(env, opts, now, disk, source, access, opts2, now2, access2);
      second, prompts := SyncLocale(env, opts2, now2, first.disk, source, access2);
    }
  }
}
