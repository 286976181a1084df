/** Cutting the pending items into prompt-sized batches. */
module TranslationBatches {
  import opened Common
  import opened LocaleSync

  const MAX_BATCH_ITEMS := 20

  function EstimateBatchChars(items: seq<Item>): nat {
    if items == [] then 2
    else
      var last := items[|items| - 1];
      EstimateBatchChars(items[..|items| - 1]) + |last.key| + |last.text| + 8
  }

  /**
   * The running total that is compared with the budget: the estimate plus two per item. Counts are whole, so
   * `budget` is the whole part of the configured budget.
   */
  predicate Fits(batch: seq<Item>, budget: int) {
    EstimateBatchChars(batch) + 2 * |batch| <= budget
  }

  /** A single item is always allowed, however long it is. */
  ghost predicate Legal(batch: seq<Item>, budget: int) {
    1 <= |batch| <= MAX_BATCH_ITEMS && (|batch| >= 2 ==> Fits(batch, budget))
  }

  ghost predicate Segments(batches: seq<seq<Item>>, items: seq<Item>, budget: int) {
    Concat(batches) == items && forall i :: 0 <= i < |batches| ==> Legal(batches[i], budget)
  }

  /** Batch `i - 1` could not have taken the first item of batch `i`. */
  ghost predicate Stops(batches: seq<seq<Item>>, i: int, budget: int)
    requires 0 < i < |batches|
  {
    batches[i] != [] && (|batches[i - 1]| == MAX_BATCH_ITEMS || !Fits(batches[i - 1] + [batches[i][0]], budget))
  }

  ghost predicate Greedy(batches: seq<seq<Item>>, budget: int) {
    forall i :: 0 < i < |batches| ==> Stops(batches, i, budget)
  }

  /** The closed batches and the open one hold the items seen so far. */
  ghost predicate Building(batches: seq<seq<Item>>, current: seq<Item>, seen: seq<Item>, budget: int) {
    && Concat(batches) + current == seen
    && (forall j :: 0 <= j < |batches| ==> Legal(batches[j], budget))
    && (current == [] ==> batches == [])
    && (current != [] ==> Legal(current, budget) && Greedy(batches + [current], budget))
  }

  /** The closed batches and the open batch after the items. */
  ghost function Packed(items: seq<Item>, budget: int): (seq<seq<Item>>, seq<Item>) {
    if items == [] then ([], [])
    else
      var (batches, current) := Packed(items[..|items| - 1], budget);
      var item := items[|items| - 1];
      if (current != [] && !Fits(current + [item], budget)) || |current| >= MAX_BATCH_ITEMS then (batches + [current], [item])
      else (batches, current + [item])
  }

  ghost function Batches(items: seq<Item>, budget: int): seq<seq<Item>> {
    var (batches, current) := Packed(items, budget);
    if current == [] then batches else batches + [current]
  }

  /** `buildTranslationBatches` */
  method BuildTranslationBatches(items: seq<Item>, budget: int) returns (batches: seq<seq<Item>>)
    ensures batches == Batches(items, budget)
  {
    batches := [];
    var current: seq<Item> := [];
    var currentChars := 2;
    for i := 0 to |items|
      invariant batches == Packed(items[..i], budget).0 && current == Packed(items[..i], budget).1
      invariant currentChars == EstimateBatchChars(current) + 2 * |current|
    {
      assert items[..i + 1][..i] == items[..i];
      var item := items[i];
      var itemChars := EstimateBatchChars([item]);
      EstimateSnoc(current, item);
      var wouldOverflow := |current| > 0 && currentChars + itemChars > budget;
      var reachedMaxItems := |current| >= MAX_BATCH_ITEMS;
      if wouldOverflow || reachedMaxItems {
        batches := batches + [current];
        current := [];
        currentChars := 2;
        EstimateSnoc(current, item);
      }
      current := current + [item];
      currentChars := currentChars + itemChars;
    }
    assert items[..|items|] == items;
    if |current| > 0 {
      batches := batches + [current];
    }
  }

  /** The batches are legal segments of the items, in order, and greedy. */
  lemma BatchesGreedy(items: seq<Item>, budget: int)
    ensures Segments(Batches(items, budget), items, budget) && Greedy(Batches(items, budget), budget)
  {
    PackedBuilding(items, budget);
    var (batches, current) := Packed(items, budget);
    if current != [] {
      ConcatSnoc(batches, current);
    }
  }

  lemma {:induction false} PackedBuilding(items: seq<Item>, budget: int)
    ensures Building(Packed(items, budget).0, Packed(items, budget).1, items, budget)
  {
    if items != [] {
      var init, item := items[..|items| - 1], items[|items| - 1];
      PackedBuilding(init, budget);
      var (batches, current) := Packed(init, budget);
      assert items == init + [item];
      if (current != [] && !Fits(current + [item], budget)) || |current| >= MAX_BATCH_ITEMS {
        Push(batches, current, init, item, budget);
      } else {
        Grow(batches, current, init, item, budget);
      }
    }
  }

  lemma ConcatSnoc(batches: seq<seq<Item>>, current: seq<Item>)
    ensures Concat(batches + [current]) == Concat(batches) + current
  {
    assert (batches + [current])[..|batches|] == batches;
  }

  /** A batch that cannot take the next item is closed, and the item opens a new one. */
  lemma Push(batches: seq<seq<Item>>, current: seq<Item>, seen: seq<Item>, item: Item, budget: int)
    requires Building(batches, current, seen, budget) && current != []
    requires |current| >= MAX_BATCH_ITEMS || !Fits(current + [item], budget)
    ensures Building(batches + [current], [item], seen + [item], budget)
  {
    ConcatSnoc(batches, current);
    var r := batches + [current];
    var g := r + [[item]];
    forall i | 0 < i < |g|
      ensures Stops(g, i, budget)
    {
      if i < |r| {
        assert Stops(r, i, budget) && g[i] == r[i] && g[i - 1] == r[i - 1];
      }
    }
  }

  /** The open batch takes one more item; its first item stays the same. */
  lemma Grow(batches: seq<seq<Item>>, current: seq<Item>, seen: seq<Item>, item: Item, budget: int)
    requires Building(batches, current, seen, budget)
    requires |current| < MAX_BATCH_ITEMS && (current != [] ==> Fits(current + [item], budget))
    ensures Building(batches, current + [item], seen + [item], budget)
  {
    assert Concat(batches) + (current + [item]) == Concat(batches) + current + [item];
    if current != [] {
      var r, g := batches + [current], batches + [current + [item]];
      forall i | 0 < i < |g|
        ensures Stops(g, i, budget)
      {
        assert Stops(r, i, budget) && g[i - 1] == r[i - 1] && g[i][0] == r[i][0];
      }
    }
  }

  lemma EstimateSnoc(batch: seq<Item>, item: Item)
    ensures EstimateBatchChars(batch + [item]) == EstimateBatchChars(batch) + |item.key| + |item.text| + 8
    ensures EstimateBatchChars([item]) == |item.key| + |item.text| + 10
  {
    assert (batch + [item])[..|batch|] == batch;
    assert EstimateBatchChars([]) == 2;
  }

  // ---------------------------------------------------------------- greedy batching is minimal

  /** How many items the first `n` batches hold. */
  ghost function Start(batches: seq<seq<Item>>, n: nat): nat
    requires n <= |batches|
  {
    |Concat(batches[..n])|
  }

  lemma {:induction false} BatchAt(batches: seq<seq<Item>>, items: seq<Item>, n: nat)
    requires Concat(batches) == items && n < |batches|
    ensures Start(batches, n) + |batches[n]| == Start(batches, n + 1) <= |items|
    ensures items[Start(batches, n)..Start(batches, n + 1)] == batches[n]
    decreases |batches|
  {
    var init := batches[..|batches| - 1];
    assert batches[..n + 1][..n] == batches[..n];
    if n + 1 == |batches| {
      assert batches[..n + 1] == batches;
      assert init == batches[..n];
    } else {
      BatchAt(init, Concat(init), n);
      assert init[..n] == batches[..n] && init[..n + 1] == batches[..n + 1];
    }
  }

  lemma {:induction false} FitsShrinks(items: seq<Item>, lo: nat, hi: nat, lo': nat, hi': nat, budget: int)
    requires lo <= lo' <= hi' <= hi <= |items|
    requires Fits(items[lo..hi], budget)
    ensures Fits(items[lo'..hi'], budget)
    decreases hi - lo
  {
    if hi' < hi {
      EstimateSnoc(items[lo..hi - 1], items[hi - 1]);
      assert items[lo..hi - 1] + [items[hi - 1]] == items[lo..hi];
      FitsShrinks(items, lo, hi - 1, lo', hi', budget);
    } else if lo < lo' {
      EstimateDrop(items[lo..hi]);
      assert items[lo..hi][1..] == items[lo + 1..hi];
      FitsShrinks(items, lo + 1, hi, lo', hi', budget);
    }
  }

  lemma {:induction false} EstimateDrop(batch: seq<Item>)
    requires batch != []
    ensures EstimateBatchChars(batch[1..]) <= EstimateBatchChars(batch)
  {
    if |batch| > 1 {
      var init := batch[..|batch| - 1];
      EstimateDrop(init);
      assert batch[1..][..|batch| - 2] == init[1..];
    }
  }

  /** The greedy batches are never behind any other legal cut of the same items. */
  lemma {:induction false} GreedyAhead(g: seq<seq<Item>>, c: seq<seq<Item>>, items: seq<Item>, budget: int, n: nat)
    requires Segments(g, items, budget) && Greedy(g, budget) && Segments(c, items, budget)
    requires n < |g| && n <= |c|
    ensures Start(c, n) <= Start(g, n)
  {
    if n > 0 {
      GreedyAhead(g, c, items, budget, n - 1);
      BatchAt(g, items, n - 1);
      BatchAt(g, items, n);
      BatchAt(c, items, n - 1);
      assert Stops(g, n, budget);
      if Start(g, n) < Start(c, n) {
        NoFurther(items, budget, Start(g, n - 1), Start(g, n), Start(c, n - 1), Start(c, n));
      }
    }
  }

  /** A legal batch cannot cover a greedy batch together with the item after it. */
  lemma NoFurther(items: seq<Item>, budget: int, lo: nat, hi: nat, lo': nat, hi': nat)
    requires lo' <= lo < hi < hi' <= |items|
    requires Legal(items[lo'..hi'], budget)
    ensures hi - lo < MAX_BATCH_ITEMS && Fits(items[lo..hi] + [items[hi]], budget)
  {
    FitsShrinks(items, lo', hi', lo, hi + 1, budget);
    assert items[lo..hi] + [items[hi]] == items[lo..hi + 1];
  }

  /** No legal way of cutting the items needs fewer prompts. */
  lemma GreedyMinimal(g: seq<seq<Item>>, c: seq<seq<Item>>, items: seq<Item>, budget: int)
    requires Segments(g, items, budget) && Greedy(g, budget) && Segments(c, items, budget)
    ensures |g| <= |c|
  {
    assert c[..|c|] == c;
    if |c| < |g| {
      GreedyAhead(g, c, items, budget, |c|);
      BatchAt(g, items, |c|);
    }
  }

  /** The batches are determined by the items and the budget. */
  lemma {:induction false} GreedyUnique(g: seq<seq<Item>>, c: seq<seq<Item>>, items: seq<Item>, budget: int)
    requires Segments(g, items, budget) && Greedy(g, budget) && Segments(c, items, budget) && Greedy(c, budget)
    ensures g == c
  {
    GreedyMinimal(g, c, items, budget);
    GreedyMinimal(c, g, items, budget);
    assert g[..|g|] == g && c[..|c|] == c;
    forall n | 0 <= n < |g|
      ensures g[n] == c[n]
    {
      GreedyAhead(g, c, items, budget, n);
      GreedyAhead(c, g, items, budget, n);
      BatchAt(g, items, n);
      BatchAt(c, items, n);
      if n + 1 < |g| {
        GreedyAhead(g, c, items, budget, n + 1);
        GreedyAhead(c, g, items, budget, n + 1);
      } else {
        assert g[..n + 1] == g && c[..n + 1] == c;
      }
    }
  }

  // ---------------------------------------------------------------- the limits in characters

  ghost function KeysIn(batch: seq<Item>): seq<string> { seq(|batch|, i requires 0 <= i < |batch| => batch[i].key) }
  ghost function TextsIn(batch: seq<Item>): seq<string> { seq(|batch|, i requires 0 <= i < |batch| => batch[i].text) }

  /** All characters of keys and texts, ten more for each item, and two. */
  ghost function Size(batch: seq<Item>): nat {
    2 + 10 * |batch| + |Concat(KeysIn(batch))| + |Concat(TextsIn(batch))|
  }

  lemma {:induction false} SizeIs(batch: seq<Item>)
    ensures EstimateBatchChars(batch) + 2 * |batch| == Size(batch)
  {
    if batch != [] {
      var init := batch[..|batch| - 1];
      SizeIs(init);
      assert KeysIn(batch)[..|init|] == KeysIn(init) && TextsIn(batch)[..|init|] == TextsIn(init);
    }
  }

  /** At most twenty items, and several only within the budget. */
  ghost predicate Allowed(batch: seq<Item>, budget: int) {
    1 <= |batch| <= 20 && (|batch| > 1 ==> Size(batch) <= budget)
  }

  /** The batches cut the items in order; each is allowed, and could not have taken one item more. */
  lemma BatchesWithin(items: seq<Item>, budget: int)
    ensures var batches := Batches(items, budget);
            && Concat(batches) == items
            && (forall i :: 0 <= i < |batches| ==> Allowed(batches[i], budget))
            && (forall i :: 0 < i < |batches| ==> batches[i] != [] && !Allowed(batches[i - 1] + [batches[i][0]], budget))
  {
    var batches := Batches(items, budget);
    BatchesGreedy(items, budget);
    forall i | 0 <= i < |batches|
      ensures Allowed(batches[i], budget)
    {
      SizeIs(batches[i]);
    }
    forall i | 0 < i < |batches|
      ensures batches[i] != [] && !Allowed(batches[i - 1] + [batches[i][0]], budget)
    {
      assert Stops(batches, i, budget);
      SizeIs(batches[i - 1] + [batches[i][0]]);
    }
  }
}
