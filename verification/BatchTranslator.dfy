/** Translating one batch: two attempts, and splitting in half when a prompt times out. */
module BatchTranslator {
  import opened Common
  import opened LocaleSync

  const TRANSLATE_MAX_ATTEMPTS := 2

  /** What one prompt brings: the string values of the parsed object, or an error message. */
  datatype Outcome = Reply(values: map<string, string>) | Fail(message: string)

  /** The provider: the outcome of the n-th prompt of the run, asked for the given items. */
  type Provider = (nat, seq<Item>) -> Outcome

  datatype Answer = Ok(values: map<string, string>) | Error(message: string)

  /** The answer, the number of prompts issued so far, and the deepest split reached. */
  datatype Run = Run(answer: Answer, prompts: nat, depth: nat)

  predicate HasAnswer(values: map<string, string>, item: Item) {
    item.key in values && !IsBlank(values[item.key])
  }

  /** Collect the values of the items, or name the first item without one. */
  function Collect(values: map<string, string>, items: seq<Item>): Answer {
    if items == [] then Ok(map[])
    else
      var init, last := Collect(values, items[..|items| - 1]), items[|items| - 1];
      if init.Error? then init
      else if HasAnswer(values, last) then Ok(init.values[last.key := values[last.key]])
      else Error("missing translation for " + last.key)
  }

  function Ask(provider: Provider, n: nat, items: seq<Item>): Answer {
    match provider(n, items)
    case Reply(values) => Collect(values, items)
    case Fail(message) => Error(message)
  }

  function Max(a: nat, b: nat): nat { if a < b then b else a }

  /** The batch from its first prompt on; `timedOut` is the test on error messages. */
  function Translate(timedOut: string -> bool, provider: Provider, n: nat, items: seq<Item>, depth: nat): Run
    decreases |items|, 1
  {
    var first := Ask(provider, n, items);
    if first.Ok? then Run(first, n + 1, depth)
    else if timedOut(first.message) then Divide(timedOut, provider, n + 1, items, depth, first.message)
    else
      var second := Ask(provider, n + 1, items);
      if second.Error? && timedOut(second.message) then Divide(timedOut, provider, n + 2, items, depth, second.message)
      else Run(second, n + 2, depth)
  }

  function Divide(timedOut: string -> bool, provider: Provider, n: nat, items: seq<Item>, depth: nat, message: string): Run
    decreases |items|, 0
  {
    if |items| <= 1 then Run(Error(message), n, depth)
    else
      var midpoint := (|items| + 1) / 2;
      var left := Translate(timedOut, provider, n, items[..midpoint], depth + 1);
      if left.answer.Error? then left
      else
        var right := Translate(timedOut, provider, left.prompts, items[midpoint..], depth + 1);
        if right.answer.Error? then right.(depth := Max(left.depth, right.depth))
        else Run(Ok(left.answer.values + right.answer.values), right.prompts, Max(left.depth, right.depth))
  }

  /** What an attempt decides: an answer ends the batch, a timeout divides it, a second failure is final. */
  lemma AttemptDecides(timedOut: string -> bool, provider: Provider, n: nat, items: seq<Item>, depth: nat, attempt: nat)
    requires attempt < TRANSLATE_MAX_ATTEMPTS
    requires attempt == 1 ==> Ask(provider, n, items).Error? && !timedOut(Ask(provider, n, items).message)
    ensures var answer, run := Ask(provider, n + attempt, items), Translate(timedOut, provider, n, items, depth);
            if answer.Ok? then run == Run(answer, n + attempt + 1, depth)
            else if timedOut(answer.message) then
              run == Divide(timedOut, provider, n + attempt + 1, items, depth, answer.message)
            else attempt == 1 ==> run == Run(answer, n + attempt + 1, depth)
  {
  }

  /** `translateBatch` */
  method TranslateBatch(timedOut: string -> bool, provider: Provider, n: nat, items: seq<Item>, depth: nat) returns (run: Run)
    ensures run == Translate(timedOut, provider, n, items, depth)
    decreases |items|, 1
  {
    var prompts := n;
    var lastError := "translation failed";
    var attempt := 0;
    while attempt < TRANSLATE_MAX_ATTEMPTS
      invariant attempt <= 2 && prompts == n + attempt
      invariant attempt == 1 ==> Ask(provider, n, items).Error? && !timedOut(Ask(provider, n, items).message)
      invariant attempt == 2 ==> Translate(timedOut, provider, n, items, depth) == Run(Error(lastError), prompts, depth)
    {
      var answer := Ask(provider, prompts, items);
      AttemptDecides(timedOut, provider, n, items, depth, attempt);
      prompts := prompts + 1;
      if answer.Ok? {
        return Run(answer, prompts, depth);
      }
      lastError := answer.message;
      if timedOut(lastError) && |items| > 1 {
        run := TranslateHalves(timedOut, provider, prompts, items, depth, lastError);
        return;
      }
      if timedOut(lastError) {
        assert Divide(timedOut, provider, prompts, items, depth, lastError) == Run(Error(lastError), prompts, depth);
        break;
      }
      attempt := attempt + 1;
    }
    return Run(Error(lastError), prompts, depth);
  }

  /** The two recursive calls of `translateBatch`. */
  method TranslateHalves(timedOut: string -> bool, provider: Provider, n: nat, items: seq<Item>, depth: nat, message: string)
    returns (run: Run)
    requires |items| > 1
    ensures run == Divide(timedOut, provider, n, items, depth, message)
    decreases |items|, 0
  {
    var midpoint := (|items| + 1) / 2;
    var left := TranslateBatch(timedOut, provider, n, items[..midpoint], depth + 1);
    if left.answer.Error? {
      return left;
    }
    var right := TranslateBatch(timedOut, provider, left.prompts, items[midpoint..], depth + 1);
    if right.answer.Error? {
      return right.(depth := Max(left.depth, right.depth));
    }
    return Run(Ok(left.answer.values + right.answer.values), right.prompts, Max(left.depth, right.depth));
  }

  // ---------------------------------------------------------------- what a batch returns

  ghost function KeysOf(items: seq<Item>): set<string> { set j | 0 <= j < |items| :: items[j].key }

  lemma {:induction false} CollectAll(values: map<string, string>, items: seq<Item>)
    ensures var r := Collect(values, items);
            if forall j :: 0 <= j < |items| ==> HasAnswer(values, items[j]) then
              r.Ok? && r.values.Keys == KeysOf(items) && forall k :: k in r.values ==> r.values[k] == values[k] && !IsBlank(r.values[k])
            else r.Error?
  {
    if items != [] {
      var init, last := items[..|items| - 1], items[|items| - 1];
      assert forall j :: 0 <= j < |init| ==> init[j] == items[j];
      CollectAll(values, init);
      KeysOfSplit(items, |init|);
      assert items[|init|..] == [last];
      if forall j :: 0 <= j < |items| ==> HasAnswer(values, items[j]) {
        assert HasAnswer(values, items[|items| - 1]);
      } else if forall j :: 0 <= j < |init| ==> HasAnswer(values, init[j]) {
        assert !HasAnswer(values, last);
      }
    }
  }

  lemma KeysOfSplit(items: seq<Item>, m: nat)
    requires m <= |items|
    ensures KeysOf(items) == KeysOf(items[..m]) + KeysOf(items[m..])
  {
    forall k | k in KeysOf(items)
      ensures k in KeysOf(items[..m]) + KeysOf(items[m..])
    {
      var j :| 0 <= j < |items| && items[j].key == k;
      if j < m {
        assert items[..m][j].key == k;
      } else {
        assert items[m..][j - m].key == k;
      }
    }
    forall k | k in KeysOf(items[..m])
      ensures k in KeysOf(items)
    {
      var j :| 0 <= j < m && items[..m][j].key == k;
      assert items[j].key == k;
    }
    forall k | k in KeysOf(items[m..])
      ensures k in KeysOf(items)
    {
      var j :| 0 <= j < |items| - m && items[m..][j].key == k;
      assert items[m + j].key == k;
    }
  }

  /** The value of `k` came back, as it is, from a prompt of this run that asked for a part holding `k`. */
  ghost predicate Provided(provider: Provider, items: seq<Item>, from: nat, to: nat, k: string, v: string) {
    exists p: nat, lo: nat, hi: nat ::
      from <= p < to && lo <= hi <= |items| && k in KeysOf(items[lo..hi])
      && provider(p, items[lo..hi]).Reply? && k in provider(p, items[lo..hi]).values
      && provider(p, items[lo..hi]).values[k] == v
  }

  lemma ProvidedWithin(provider: Provider, items: seq<Item>, lo: nat, hi: nat, from: nat, to: nat, from': nat, to': nat, k: string, v: string)
    requires lo <= hi <= |items| && from' <= from && to <= to'
    requires Provided(provider, items[lo..hi], from, to, k, v)
    ensures Provided(provider, items, from', to', k, v)
  {
    var part := items[lo..hi];
    var p: nat, l: nat, h: nat :|
      from <= p < to && l <= h <= |part| && k in KeysOf(part[l..h])
      && provider(p, part[l..h]).Reply? && k in provider(p, part[l..h]).values && provider(p, part[l..h]).values[k] == v;
    SubSlice(items, lo, hi, l, h);
  }

  lemma SubSlice(items: seq<Item>, lo: nat, hi: nat, l: nat, h: nat)
    requires l <= h <= hi - lo && lo <= hi <= |items|
    ensures items[lo..hi][l..h] == items[lo + l..lo + h]
  {
    assert forall i :: 0 <= i < h - l ==> items[lo..hi][l..h][i] == items[lo + l..lo + h][i];
  }

  ghost predicate Complete(provider: Provider, n: nat, items: seq<Item>, run: Run) {
    run.answer.Ok? ==>
      && run.answer.values.Keys == KeysOf(items)
      && forall k :: k in run.answer.values ==>
           !IsBlank(run.answer.values[k]) && Provided(provider, items, n, run.prompts, k, run.answer.values[k])
  }

  lemma AskComplete(provider: Provider, n: nat, m: nat, items: seq<Item>, depth: nat)
    requires n <= m
    ensures Complete(provider, n, items, Run(Ask(provider, m, items), m + 1, depth))
  {
    if provider(m, items).Reply? {
      CollectAll(provider(m, items).values, items);
      var answer := Ask(provider, m, items);
      if answer.Ok? {
        assert items[0..|items|] == items;
        forall k | k in answer.values
          ensures Provided(provider, items, n, m + 1, k, answer.values[k])
        {
          assert k in KeysOf(items[0..|items|]) && provider(m, items[0..|items|]).values[k] == answer.values[k];
        }
      }
    }
  }

  /** A batch that succeeds answers exactly its keys, with non-blank texts the provider gave for them. */
  lemma {:induction false} TranslateComplete(timedOut: string -> bool, provider: Provider, n: nat, items: seq<Item>, depth: nat)
    ensures Complete(provider, n, items, Translate(timedOut, provider, n, items, depth))
    decreases |items|, 1
  {
    AskComplete(provider, n, n, items, depth);
    var first := Ask(provider, n, items);
    if first.Error? {
      if timedOut(first.message) {
        DivideComplete(timedOut, provider, n, n + 1, items, depth, first.message);
      } else {
        AskComplete(provider, n, n + 1, items, depth);
        var second := Ask(provider, n + 1, items);
        if second.Error? {
          DivideComplete(timedOut, provider, n, n + 2, items, depth, second.message);
        }
      }
    }
  }

  lemma {:induction false} DivideComplete(timedOut: string -> bool, provider: Provider, n: nat, m: nat, items: seq<Item>, depth: nat, message: string)
    requires n <= m
    ensures Complete(provider, n, items, Divide(timedOut, provider, m, items, depth, message))
    decreases |items|, 0
  {
    if |items| > 1 {
      var midpoint := (|items| + 1) / 2;
      TranslateComplete(timedOut, provider, m, items[..midpoint], depth + 1);
      var left := Translate(timedOut, provider, m, items[..midpoint], depth + 1);
      TranslateComplete(timedOut, provider, left.prompts, items[midpoint..], depth + 1);
      TranslateCosts(timedOut, provider, m, items[..midpoint], depth + 1);
      var right := Translate(timedOut, provider, left.prompts, items[midpoint..], depth + 1);
      TranslateCosts(timedOut, provider, left.prompts, items[midpoint..], depth + 1);
      if left.answer.Ok? && right.answer.Ok? {
        HalvesComplete(provider, n, m, items, midpoint, left, right);
      }
    }
  }

  /** What the first half was given, the batch was given. */
  lemma LeftProvided(provider: Provider, items: seq<Item>, midpoint: nat, from: nat, to: nat, from': nat, to': nat, k: string, v: string)
    requires midpoint <= |items| && from' <= from && to <= to'
    requires Provided(provider, items[..midpoint], from, to, k, v)
    ensures Provided(provider, items, from', to', k, v)
  {
    assert items[..midpoint] == items[0..midpoint];
    ProvidedWithin(provider, items, 0, midpoint, from, to, from', to', k, v);
  }

  lemma RightProvided(provider: Provider, items: seq<Item>, midpoint: nat, from: nat, to: nat, from': nat, to': nat, k: string, v: string)
    requires midpoint <= |items| && from' <= from && to <= to'
    requires Provided(provider, items[midpoint..], from, to, k, v)
    ensures Provided(provider, items, from', to', k, v)
  {
    assert items[midpoint..] == items[midpoint..|items|];
    ProvidedWithin(provider, items, midpoint, |items|, from, to, from', to', k, v);
  }

  lemma HalvesComplete(provider: Provider, n: nat, m: nat, items: seq<Item>, midpoint: nat, left: Run, right: Run)
    requires midpoint <= |items| && n <= m <= left.prompts <= right.prompts
    requires left.answer.Ok? && Complete(provider, m, items[..midpoint], left)
    requires right.answer.Ok? && Complete(provider, left.prompts, items[midpoint..], right)
    ensures Complete(provider, n, items, Run(Ok(left.answer.values + right.answer.values), right.prompts, Max(left.depth, right.depth)))
  {
    var l, r := left.answer.values, right.answer.values;
    KeysOfSplit(items, midpoint);
    forall k | k in l
      ensures Provided(provider, items, n, right.prompts, k, l[k])
    {
      LeftProvided(provider, items, midpoint, m, left.prompts, n, right.prompts, k, l[k]);
    }
    forall k | k in r
      ensures Provided(provider, items, n, right.prompts, k, r[k])
    {
      RightProvided(provider, items, midpoint, left.prompts, right.prompts, n, right.prompts, k, r[k]);
    }
  }

  // ---------------------------------------------------------------- what a prompt decides

  /** The first item without an answer. */
  ghost predicate FirstMissing(values: map<string, string>, items: seq<Item>, j: nat) {
    j < |items| && !HasAnswer(values, items[j]) && forall i :: 0 <= i < j ==> HasAnswer(values, items[i])
  }

  lemma {:induction false} CollectMissing(values: map<string, string>, items: seq<Item>) returns (j: nat)
    requires Collect(values, items).Error?
    ensures FirstMissing(values, items, j) && Collect(values, items) == Error("missing translation for " + items[j].key)
  {
    var init := items[..|items| - 1];
    if Collect(values, init).Error? {
      j := CollectMissing(values, init);
      assert forall i :: 0 <= i <= j ==> init[i] == items[i];
    } else {
      CollectAll(values, init);
      assert forall i :: 0 <= i < |init| ==> init[i] == items[i];
      j := |init|;
    }
  }

  /** A reply answers the items if and only if it has a non-blank text for each; otherwise it names the first without one. */
  lemma AskIs(provider: Provider, n: nat, items: seq<Item>)
    ensures match provider(n, items)
            case Fail(message) => Ask(provider, n, items) == Error(message)
            case Reply(values) =>
              var answer := Ask(provider, n, items);
              if forall j :: 0 <= j < |items| ==> items[j].key in values && !IsBlank(values[items[j].key]) then
                answer == Ok(map k | k in KeysOf(items) && k in values :: values[k])
              else
                exists j: nat :: FirstMissing(values, items, j) && answer == Error("missing translation for " + items[j].key)
  {
    if provider(n, items).Reply? {
      var values := provider(n, items).values;
      CollectAll(values, items);
      if Collect(values, items).Error? {
        var j := CollectMissing(values, items);
      } else {
        assert forall j :: 0 <= j < |items| ==> HasAnswer(values, items[j]);
        assert Collect(values, items).values == map k | k in KeysOf(items) && k in values :: values[k];
      }
    }
  }

  // ---------------------------------------------------------------- the recursion is a work list

  ghost function Weight(todo: seq<seq<Item>>): nat {
    if todo == [] then 0 else (if todo[0] == [] then 1 else 2 * |todo[0]| - 1) + Weight(todo[1..])
  }

  /** The two halves of a part, the longer one first. */
  ghost function Halved(part: seq<Item>): (r: seq<seq<Item>>)
    requires |part| > 1
    ensures |r| == 2 && r[0] + r[1] == part && |r[1]| <= |r[0]| <= |r[1]| + 1
  {
    [part[..(|part| + 1) / 2], part[(|part| + 1) / 2..]]
  }

  lemma WeightHalved(part: seq<Item>, rest: seq<seq<Item>>)
    requires |part| > 1
    ensures Weight(Halved(part) + rest) < Weight([part] + rest)
  {
    var both := Halved(part) + rest;
    assert both[1..][1..] == rest && both[1..][0] == Halved(part)[1] && ([part] + rest)[1..] == rest;
  }

  /**
   * Prompt after prompt, without recursion on the parts: the prompt asks for the first part of the list. An
   * answered part leaves the list, a part of several keys that times out is replaced by its halves, another failure
   * is final for a single key that timed out and for a part that failed before, and otherwise the part is asked again.
   */
  ghost function Work(timedOut: string -> bool, provider: Provider, n: nat, todo: seq<seq<Item>>, again: bool,
                      values: map<string, string>): (Answer, nat)
    decreases Weight(todo), if again then 0 else 1
  {
    if todo == [] then (Ok(values), n)
    else
      var part, rest, answer := todo[0], todo[1..], Ask(provider, n, todo[0]);
      if answer.Ok? then Work(timedOut, provider, n + 1, rest, false, values + answer.values)
      else if timedOut(answer.message) && |part| > 1 then
        assert [part] + rest == todo;
        WeightHalved(part, rest);
        Work(timedOut, provider, n + 1, Halved(part) + rest, false, values)
      else if timedOut(answer.message) || again then (answer, n + 1)
      else Work(timedOut, provider, n + 1, todo, true, values)
  }

  /** A finished run, with the rest of the list worked off behind it unless it failed. */
  ghost function Resumed(timedOut: string -> bool, provider: Provider, run: Run, rest: seq<seq<Item>>, values: map<string, string>):
    (Answer, nat)
  {
    if run.answer.Ok? then Work(timedOut, provider, run.prompts, rest, false, values + run.answer.values)
    else (run.answer, run.prompts)
  }

  /** Translating a batch issues the prompts of its work list, in their order, and answers or fails as they do. */
  lemma TranslateIsWork(timedOut: string -> bool, provider: Provider, n: nat, items: seq<Item>, depth: nat)
    ensures var run := Translate(timedOut, provider, n, items, depth);
            Work(timedOut, provider, n, [items], false, map[]) == (run.answer, run.prompts)
  {
    var run := Translate(timedOut, provider, n, items, depth);
    TranslateWorks(timedOut, provider, n, items, [], depth, map[]);
    assert [items] + [] == [items];
    if run.answer.Ok? {
      assert map[] + run.answer.values == run.answer.values;
    }
  }

  lemma {:induction false} TranslateWorks(timedOut: string -> bool, provider: Provider, n: nat, items: seq<Item>,
                                          rest: seq<seq<Item>>, depth: nat, values: map<string, string>)
    ensures Work(timedOut, provider, n, [items] + rest, false, values) ==
            Resumed(timedOut, provider, Translate(timedOut, provider, n, items, depth), rest, values)
    decreases |items|, 1
  {
    assert ([items] + rest)[1..] == rest;
    var first := Ask(provider, n, items);
    if first.Error? {
      if timedOut(first.message) {
        DivideWorks(timedOut, provider, n + 1, items, rest, depth, first.message, values);
      } else {
        var second := Ask(provider, n + 1, items);
        if second.Error? {
          DivideWorks(timedOut, provider, n + 2, items, rest, depth, second.message, values);
        }
      }
    }
  }

  lemma {:induction false} DivideWorks(timedOut: string -> bool, provider: Provider, n: nat, items: seq<Item>,
                                       rest: seq<seq<Item>>, depth: nat, message: string, values: map<string, string>)
    ensures |items| > 1 ==>
              Work(timedOut, provider, n, Halved(items) + rest, false, values) ==
              Resumed(timedOut, provider, Divide(timedOut, provider, n, items, depth, message), rest, values)
    decreases |items|, 0
  {
    if |items| > 1 {
      var front, back := Halved(items)[0], Halved(items)[1];
      var left := Translate(timedOut, provider, n, front, depth + 1);
      assert Halved(items) + rest == [front] + ([back] + rest);
      TranslateWorks(timedOut, provider, n, front, [back] + rest, depth + 1, values);
      if left.answer.Ok? {
        TranslateWorks(timedOut, provider, left.prompts, back, rest, depth + 1, values + left.answer.values);
        var right := Translate(timedOut, provider, left.prompts, back, depth + 1);
        if right.answer.Ok? {
          assert values + left.answer.values + right.answer.values == values + (left.answer.values + right.answer.values);
        }
      }
    }
  }

  // ---------------------------------------------------------------- what a batch costs

  /** ceil(log2 n) */
  ghost function CeilLog2(n: nat): nat { if n <= 1 then 0 else 1 + CeilLog2((n + 1) / 2) }

  ghost function Pow2(k: nat): nat { if k == 0 then 1 else 2 * Pow2(k - 1) }

  lemma {:induction false} CeilLog2Bounds(n: nat)
    requires n >= 1
    ensures n <= Pow2(CeilLog2(n))
    ensures n > 1 ==> Pow2(CeilLog2(n) - 1) < n
  {
    if n > 1 {
      CeilLog2Bounds((n + 1) / 2);
    }
  }

  lemma {:induction false} CeilLog2Monotone(m: nat, n: nat)
    requires m <= n
    ensures CeilLog2(m) <= CeilLog2(n)
  {
    if m > 1 {
      CeilLog2Monotone((m + 1) / 2, (n + 1) / 2);
    }
  }

  /** At most two prompts more than four per further key, and splits at most ceil(log2 n) deep. */
  lemma {:induction false} TranslateCosts(timedOut: string -> bool, provider: Provider, n: nat, items: seq<Item>, depth: nat)
    ensures var run := Translate(timedOut, provider, n, items, depth);
            && n < run.prompts && (|items| >= 1 ==> run.prompts <= n + 4 * |items| - 2) && run.prompts <= n + 4 * |items| + 2
            && depth <= run.depth <= depth + CeilLog2(|items|)
    decreases |items|, 1
  {
    var first := Ask(provider, n, items);
    if first.Error? {
      DivideCosts(timedOut, provider, n + 1, items, depth, first.message);
      var second := Ask(provider, n + 1, items);
      if second.Error? {
        DivideCosts(timedOut, provider, n + 2, items, depth, second.message);
      }
    }
  }

  lemma {:induction false} DivideCosts(timedOut: string -> bool, provider: Provider, n: nat, items: seq<Item>, depth: nat, message: string)
    ensures var run := Divide(timedOut, provider, n, items, depth, message);
            && n <= run.prompts && (|items| >= 1 ==> run.prompts <= n + 4 * |items| - 4) && run.prompts <= n + 4 * |items|
            && depth <= run.depth <= depth + CeilLog2(|items|)
    decreases |items|, 0
  {
    if |items| > 1 {
      var midpoint := (|items| + 1) / 2;
      TranslateCosts(timedOut, provider, n, items[..midpoint], depth + 1);
      var left := Translate(timedOut, provider, n, items[..midpoint], depth + 1);
      TranslateCosts(timedOut, provider, left.prompts, items[midpoint..], depth + 1);
      CeilLog2Monotone(|items| - midpoint, midpoint);
    }
  }

  // ---------------------------------------------------------------- the bound is reached

  /** A provider that fails every first attempt and then times out until a single key is left. */
  function SlowProvider(start: nat, values: map<string, string>): Provider {
    (n: nat, items: seq<Item>) =>
      if (n + start) % 2 == 0 then Fail("overloaded")
      else if |items| > 1 then Fail("timed out")
      else Reply(values)
  }

  /** The second attempt of such a provider divides the batch. */
  lemma SlowDivides(timedOut: string -> bool, n: nat, start: nat, values: map<string, string>, items: seq<Item>, depth: nat)
    requires timedOut("timed out") && !timedOut("overloaded") && |items| > 1 && (n + start) % 2 == 0
    ensures Translate(timedOut, SlowProvider(start, values), n, items, depth) ==
            Divide(timedOut, SlowProvider(start, values), n + 2, items, depth, "timed out")
  {
  }

  /** Translated with success, at the highest price: both bounds of `TranslateCosts` are reached. */
  ghost predicate ReachesBounds(timedOut: string -> bool, provider: Provider, n: nat, items: seq<Item>, depth: nat) {
    var run := Translate(timedOut, provider, n, items, depth);
    run.answer.Ok? && run.prompts == n + 4 * |items| - 2 && run.depth == depth + CeilLog2(|items|)
  }

  /** Two halves that are answered. */
  lemma DivideAnswers(timedOut: string -> bool, provider: Provider, n: nat, items: seq<Item>, depth: nat, message: string, left: Run, right: Run)
    requires |items| > 1 && left.answer.Ok? && right.answer.Ok?
    requires left == Translate(timedOut, provider, n, items[..(|items| + 1) / 2], depth + 1)
    requires right == Translate(timedOut, provider, left.prompts, items[(|items| + 1) / 2..], depth + 1)
    ensures Divide(timedOut, provider, n, items, depth, message) ==
            Run(Ok(left.answer.values + right.answer.values), right.prompts, Max(left.depth, right.depth))
  {
  }

  /** For every batch both bounds are reached by one run that still succeeds. */
  lemma {:induction false} CostIsReached(timedOut: string -> bool, n: nat, start: nat, values: map<string, string>, items: seq<Item>, depth: nat)
    requires timedOut("timed out") && !timedOut("overloaded")
    requires items != [] && (n + start) % 2 == 0
    requires forall j :: 0 <= j < |items| ==> HasAnswer(values, items[j])
    ensures ReachesBounds(timedOut, SlowProvider(start, values), n, items, depth)
    decreases |items|
  {
    if |items| > 1 {
      var left, right := items[..(|items| + 1) / 2], items[(|items| + 1) / 2..];
      CostIsReached(timedOut, n + 2, start, values, left, depth + 1);
      CostIsReached(timedOut, n + 4 * |left|, start, values, right, depth + 1);
      SlowDivides(timedOut, n, start, values, items, depth);
      HalvesReach(timedOut, SlowProvider(start, values), n, items, left, right, depth);
    } else {
      CollectAll(values, items);
    }
  }

  lemma HalvesReach(timedOut: string -> bool, provider: Provider, n: nat, items: seq<Item>,
                    left: seq<Item>, right: seq<Item>, depth: nat)
    requires |items| > 1 && left == items[..(|items| + 1) / 2] && right == items[(|items| + 1) / 2..]
    requires Translate(timedOut, provider, n, items, depth) == Divide(timedOut, provider, n + 2, items, depth, "timed out")
    requires ReachesBounds(timedOut, provider, n + 2, left, depth + 1)
    requires ReachesBounds(timedOut, provider, n + 4 * |left|, right, depth + 1)
    ensures ReachesBounds(timedOut, provider, n, items, depth)
  {
    var first := Translate(timedOut, provider, n + 2, left, depth + 1);
    var second := Translate(timedOut, provider, first.prompts, right, depth + 1);
    DivideAnswers(timedOut, provider, n + 2, items, depth, "timed out", first, second);
    CeilLog2Monotone(|right|, |left|);
  }

  // ---------------------------------------------------------------- when a batch fails

  /** A failed batch failed on its last prompt, which was not a timeout of several keys. */
  ghost predicate FailedOnLast(timedOut: string -> bool, provider: Provider, items: seq<Item>, run: Run) {
    run.answer.Error? ==>
      exists lo: nat, hi: nat ::
        lo <= hi <= |items| && run.prompts > 0
        && Ask(provider, run.prompts - 1, items[lo..hi]) == run.answer
        && (timedOut(run.answer.message) ==> hi - lo <= 1)
  }

  lemma FailedWithin(timedOut: string -> bool, provider: Provider, items: seq<Item>, lo: nat, hi: nat, run: Run, depth: nat)
    requires lo <= hi <= |items| && FailedOnLast(timedOut, provider, items[lo..hi], run)
    ensures FailedOnLast(timedOut, provider, items, run.(depth := depth))
  {
    if run.answer.Error? {
      var part := items[lo..hi];
      var l: nat, h: nat :| l <= h <= |part| && Ask(provider, run.prompts - 1, part[l..h]) == run.answer
                            && (timedOut(run.answer.message) ==> h - l <= 1);
      SubSlice(items, lo, hi, l, h);
    }
  }

  /** Timeouts alone never fail a batch of several keys: it is split until single keys time out. */
  lemma {:induction false} TranslateFailure(timedOut: string -> bool, provider: Provider, n: nat, items: seq<Item>, depth: nat)
    ensures FailedOnLast(timedOut, provider, items, Translate(timedOut, provider, n, items, depth))
    decreases |items|, 1
  {
    assert items[0..|items|] == items;
    var first := Ask(provider, n, items);
    if first.Error? {
      DivideFailure(timedOut, provider, n + 1, items, depth, first.message);
      var second := Ask(provider, n + 1, items);
      if second.Error? {
        DivideFailure(timedOut, provider, n + 2, items, depth, second.message);
      }
    }
  }

  lemma {:induction false} DivideFailure(timedOut: string -> bool, provider: Provider, n: nat, items: seq<Item>, depth: nat, message: string)
    requires n > 0 && Ask(provider, n - 1, items) == Error(message)
    ensures FailedOnLast(timedOut, provider, items, Divide(timedOut, provider, n, items, depth, message))
    decreases |items|, 0
  {
    if |items| > 1 {
      var midpoint := (|items| + 1) / 2;
      assert items[..midpoint] == items[0..midpoint] && items[midpoint..] == items[midpoint..|items|];
      TranslateFailure(timedOut, provider, n, items[..midpoint], depth + 1);
      var left := Translate(timedOut, provider, n, items[..midpoint], depth + 1);
      FailedWithin(timedOut, provider, items, 0, midpoint, left, left.depth);
      TranslateFailure(timedOut, provider, left.prompts, items[midpoint..], depth + 1);
      var right := Translate(timedOut, provider, left.prompts, items[midpoint..], depth + 1);
      FailedWithin(timedOut, provider, items, midpoint, |items|, right, Max(left.depth, right.depth));
    } else {
      assert items[0..|items|] == items;
    }
  }
}
