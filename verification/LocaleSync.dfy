/** One locale of the translation sync: deciding every key, merging, and comparing with the disk. */
module LocaleSync {
  import opened Common
  import opened TranslationMemory

  const WORKFLOW := 1
  const SOURCE_LOCALE := "en"

  datatype Item = Item(cacheKey: string, key: string, text: string, textHash: string)

  /** Settings and the outside functions: hashes, placeholder comparison, collation. */
  datatype Env = Env(
    locale: string, sourcePath: string, provider: string, model: string, allowTranslate: bool,
    hashText: string -> string,
    cacheKey: (string, string) -> string,
    samePlaceholders: (string, string) -> bool,
    le: (string, string) -> bool)

  /** Cache keys are never empty and tell the key and the text hash apart. Text hashes may be anything. */
  ghost predicate ValidEnv(env: Env) {
    && (forall k, h :: env.cacheKey(k, h) != "")
    && (forall k, h, k', h' :: env.cacheKey(k, h) == env.cacheKey(k', h') ==> k == k' && h == h')
  }

  function CacheKey(env: Env, key: string, text: string): string {
    env.cacheKey(key, env.hashText(text))
  }

  /** What the decision loop reads besides the memory: text index, current locale, keys to refresh. */
  datatype Basis = Basis(byText: map<string, TmEntry>, existing: OrderedMap<string>, refresh: set<string>)

  datatype Choice =
    | FromMemory(text: string, fallback: bool)
    | FromSameText(entry: TmEntry)
    | FromLocale(text: string, fallback: bool)
    | Untranslated

  function Choose(env: Env, b: Basis, cached: Option<TmEntry>, key: string, text: string): Choice {
    var textHash := env.hashText(text);
    var existing := Get(b.existing, key);
    var refresh := key in b.refresh;
    if cached.Some? && !(env.allowTranslate && refresh) then FromMemory(cached.value.translated, refresh)
    else if textHash in b.byText && (refresh || existing.None?) then FromSameText(b.byText[textHash])
    else if existing.Some? && !(env.allowTranslate && refresh) then FromLocale(existing.value, refresh)
    else Untranslated
  }

  function Renamed(env: Env, e: TmEntry, cacheKey: string, key: string): TmEntry {
    e.(cacheKey := cacheKey, segmentId := key, sourcePath := env.sourcePath)
  }

  function NewEntry(env: Env, item: Item, translated: string, now: string): TmEntry {
    TmEntry(item.cacheKey, item.key, env.sourcePath, SOURCE_LOCALE, env.locale,
            item.text, item.textHash, translated, env.provider, env.model, now)
  }

  function ItemFor(env: Env, key: string, text: string): Item {
    Item(CacheKey(env, key, text), key, text, env.hashText(text))
  }

  datatype Work = Work(next: map<string, string>, tm: Tm, pending: seq<Item>, fallback: seq<string>)

  /** One turn of the decision loop. */
  function Decide(env: Env, b: Basis, w: Work, key: string, text: string): Work {
    var cacheKey := CacheKey(env, key, text);
    match Choose(env, b, Get(w.tm, cacheKey), key, text)
    case FromMemory(t, refresh) =>
      w.(next := w.next[key := t], fallback := if refresh then w.fallback + [key] else w.fallback)
    case FromSameText(e) =>
      w.(next := w.next[key := e.translated], tm := Put(w.tm, cacheKey, Renamed(env, e, cacheKey, key)))
    case FromLocale(t, refresh) =>
      w.(next := w.next[key := t], fallback := if refresh then w.fallback + [key] else w.fallback)
    case Untranslated =>
      w.(pending := w.pending + [ItemFor(env, key, text)])
  }

  function Plan(env: Env, b: Basis, tm: Tm, source: OrderedMap<string>): Work {
    if source == [] then Work(map[], tm, [], [])
    else
      var last := source[|source| - 1];
      Decide(env, b, Plan(env, b, tm, source[..|source| - 1]), last.0, last.1)
  }

  /** Store the provider's answers, item by item. */
  function Record(env: Env, now: string, answers: map<string, string>, w: Work, items: seq<Item>): Work {
    if items == [] then w
    else
      var v, item := Record(env, now, answers, w, items[..|items| - 1]), items[|items| - 1];
      if item.key in answers && answers[item.key] != "" then
        v.(next := v.next[item.key := answers[item.key]],
           tm := Put(v.tm, item.cacheKey, NewEntry(env, item, answers[item.key], now)))
      else v
  }

  /** Give every key that is still open its existing text or the English fallback. */
  function Settle(force: bool, b: Basis, w: Work, items: seq<Item>): Work {
    if items == [] then w
    else
      var v, item := Settle(force, b, w, items[..|items| - 1]), items[|items| - 1];
      var existing := Get(b.existing, item.key);
      if item.key in v.next then v
      else if existing.Some? && !force then
        v.(next := v.next[item.key := existing.value],
           fallback := if item.key in b.refresh then v.fallback + [item.key] else v.fallback)
      else v.(next := v.next[item.key := item.text], fallback := v.fallback + [item.key])
  }

  function Merge(env: Env, now: string, answers: map<string, string>, force: bool, b: Basis, w: Work): Work {
    Settle(force, b, if env.allowTranslate then Record(env, now, answers, w, w.pending) else w, w.pending)
  }

  // ---------------------------------------------------------------- what every key ends up with

  /** The final text of a key, whether it counts as a fallback, and its memory entry. */
  datatype Slot = Slot(text: string, fallback: bool, entry: Option<TmEntry>)

  ghost function SlotFor(env: Env, b: Basis, tm: Tm, answers: map<string, string>, now: string, key: string, text: string): Slot {
    var cacheKey := CacheKey(env, key, text);
    match Choose(env, b, Get(tm, cacheKey), key, text)
    case FromMemory(t, refresh) => Slot(t, refresh, Get(tm, cacheKey))
    case FromSameText(e) => Slot(e.translated, false, Some(Renamed(env, e, cacheKey, key)))
    case FromLocale(t, refresh) => Slot(t, refresh, Get(tm, cacheKey))
    case Untranslated =>
      if env.allowTranslate && key in answers then
        Slot(answers[key], false, Some(NewEntry(env, ItemFor(env, key, text), answers[key], now)))
      else Slot(text, true, Get(tm, cacheKey))
  }

  ghost predicate Open(env: Env, b: Basis, tm: Tm, key: string, text: string) {
    Choose(env, b, Get(tm, CacheKey(env, key, text)), key, text).Untranslated?
  }

  /** The memory a choice leaves for its own key. */
  ghost function EntryAfter(env: Env, b: Basis, tm: Tm, key: string, text: string): Option<TmEntry> {
    var cacheKey := CacheKey(env, key, text);
    var choice := Choose(env, b, Get(tm, cacheKey), key, text);
    if choice.FromSameText? then Some(Renamed(env, choice.entry, cacheKey, key)) else Get(tm, cacheKey)
  }

  ghost predicate Decided(env: Env, b: Basis, tm: Tm, w: Work, key: string, text: string) {
    var choice := Choose(env, b, Get(tm, CacheKey(env, key, text)), key, text);
    && (key in w.next <==> !choice.Untranslated?)
    && (match choice
        case FromMemory(t, f) => w.next[key] == t && (key in w.fallback <==> f)
        case FromLocale(t, f) => w.next[key] == t && (key in w.fallback <==> f)
        case FromSameText(e) => w.next[key] == e.translated && key !in w.fallback
        case Untranslated => ItemFor(env, key, text) in w.pending && key !in w.fallback)
    && Get(w.tm, CacheKey(env, key, text)) == EntryAfter(env, b, tm, key, text)
  }

  ghost predicate Owns(env: Env, source: OrderedMap<string>, cacheKey: string) {
    exists i :: 0 <= i < |source| && CacheKey(env, source[i].0, source[i].1) == cacheKey
  }

  /** Every item is the pending item of an undecided source key. */
  ghost predicate PendingOf(env: Env, b: Basis, tm: Tm, source: OrderedMap<string>, items: seq<Item>) {
    forall j :: 0 <= j < |items| ==>
      exists i :: 0 <= i < |source| && items[j] == ItemFor(env, source[i].0, source[i].1)
                  && Open(env, b, tm, source[i].0, source[i].1)
  }

  ghost predicate Planned(env: Env, b: Basis, tm: Tm, source: OrderedMap<string>, w: Work) {
    && w.next.Keys <= Keys(source)
    && (forall k :: k in w.fallback ==> k in Keys(source))
    && (forall i :: 0 <= i < |source| ==> Decided(env, b, tm, w, source[i].0, source[i].1))
    && (forall c :: !Owns(env, source, c) ==> Get(w.tm, c) == Get(tm, c))
    && PendingOf(env, b, tm, source, w.pending)
  }

  lemma {:induction false} PlanDecides(env: Env, b: Basis, tm: Tm, source: OrderedMap<string>)
    requires ValidEnv(env) && Distinct(source)
    ensures Planned(env, b, tm, source, Plan(env, b, tm, source))
  {
    if source != [] {
      var init, last := source[..|source| - 1], source[|source| - 1];
      assert source == init + [last];
      PlanDecides(env, b, tm, init);
      var v := Plan(env, b, tm, init);
      var w := Decide(env, b, v, last.0, last.1);
      DecideOne(env, b, tm, init, v, last);
      OwnsSnoc(env, init, last);
      PendingSnoc(env, b, tm, init, v.pending, last);
      assert PendingOf(env, b, tm, source, w.pending);
    }
  }

  lemma OwnsSnoc(env: Env, init: OrderedMap<string>, last: (string, string))
    ensures forall c :: Owns(env, init + [last], c) <==> Owns(env, init, c) || c == CacheKey(env, last.0, last.1)
  {
    var source := init + [last];
    assert source[|init|] == last && forall i :: 0 <= i < |init| ==> source[i] == init[i];
    forall c | Owns(env, init, c) ensures Owns(env, source, c) {
      var i :| 0 <= i < |init| && CacheKey(env, init[i].0, init[i].1) == c;
      assert CacheKey(env, source[i].0, source[i].1) == c;
    }
    assert CacheKey(env, source[|init|].0, source[|init|].1) == CacheKey(env, last.0, last.1);
  }

  lemma PendingSnoc(env: Env, b: Basis, tm: Tm, init: OrderedMap<string>, items: seq<Item>, last: (string, string))
    requires PendingOf(env, b, tm, init, items)
    ensures PendingOf(env, b, tm, init + [last], items)
    ensures Open(env, b, tm, last.0, last.1) ==> PendingOf(env, b, tm, init + [last], items + [ItemFor(env, last.0, last.1)])
  {
    var source := init + [last];
    assert source[|init|] == last;
    forall j | 0 <= j < |items|
      ensures exists i :: 0 <= i < |source| && items[j] == ItemFor(env, source[i].0, source[i].1)
                          && Open(env, b, tm, source[i].0, source[i].1)
    {
      var i :| 0 <= i < |init| && items[j] == ItemFor(env, init[i].0, init[i].1) && Open(env, b, tm, init[i].0, init[i].1);
      assert source[i] == init[i];
    }
    if Open(env, b, tm, last.0, last.1) {
      var more := items + [ItemFor(env, last.0, last.1)];
      forall j | 0 <= j < |more|
        ensures exists i :: 0 <= i < |source| && more[j] == ItemFor(env, source[i].0, source[i].1)
                            && Open(env, b, tm, source[i].0, source[i].1)
      {
        if j < |items| {
          assert more[j] == items[j];
        } else {
          assert more[j] == ItemFor(env, source[|init|].0, source[|init|].1);
        }
      }
    }
  }

  /** Deciding one more key settles that key and disturbs no earlier one. */
  lemma DecideOne(env: Env, b: Basis, tm: Tm, init: OrderedMap<string>, v: Work, last: (string, string))
    requires ValidEnv(env) && Planned(env, b, tm, init, v)
    requires last.0 !in Keys(init)
    ensures var w := Decide(env, b, v, last.0, last.1);
            && w.next.Keys <= Keys(init + [last])
            && (forall k :: k in w.fallback ==> k in Keys(init + [last]))
            && Decided(env, b, tm, w, last.0, last.1)
            && (forall i :: 0 <= i < |init| ==> Decided(env, b, tm, w, init[i].0, init[i].1))
            && (forall c :: c != CacheKey(env, last.0, last.1) ==> Get(w.tm, c) == Get(v.tm, c))
            && w.pending == (if Open(env, b, tm, last.0, last.1) then v.pending + [ItemFor(env, last.0, last.1)] else v.pending)
  {
    var w := Decide(env, b, v, last.0, last.1);
    KeysSnoc(init, last);
    assert !Owns(env, init, CacheKey(env, last.0, last.1));
    forall i | 0 <= i < |init|
      ensures Decided(env, b, tm, w, init[i].0, init[i].1)
    {
      assert init[i].0 in Keys(init);
      assert Decided(env, b, tm, v, init[i].0, init[i].1);
    }
  }

  lemma KeysSnoc<V>(m: OrderedMap<V>, e: (string, V))
    ensures Keys(m + [e]) == Keys(m) + {e.0}
  {
    var r := m + [e];
    assert r[|m|] == e;
    forall k | k in Keys(m) ensures k in Keys(r) {
      var i :| 0 <= i < |m| && m[i].0 == k;
      assert r[i].0 == k;
    }
  }

  ghost predicate Answers(answers: map<string, string>, items: seq<Item>) {
    forall j :: 0 <= j < |items| ==> items[j].key in answers && !IsBlank(answers[items[j].key])
  }

  ghost predicate Lists(items: seq<Item>, key: string) {
    exists j :: 0 <= j < |items| && items[j].key == key
  }

  lemma ListsSnoc(init: seq<Item>, last: Item, key: string)
    ensures Lists(init + [last], key) <==> Lists(init, key) || last.key == key
  {
    var items := init + [last];
    assert items[|init|] == last;
    if Lists(init, key) {
      var j :| 0 <= j < |init| && init[j].key == key;
      assert items[j].key == key;
    }
  }

  /** A listed key gets its answer, any other key keeps its text. */
  lemma {:induction false} RecordNext(env: Env, now: string, answers: map<string, string>, w: Work, items: seq<Item>, key: string)
    requires Answers(answers, items)
    ensures var next := Record(env, now, answers, w, items).next;
            if Lists(items, key) then key in answers && key in next && next[key] == answers[key]
            else (key in next <==> key in w.next) && (key in next ==> next[key] == w.next[key])
  {
    if items != [] {
      var init, last := items[..|items| - 1], items[|items| - 1];
      assert items == init + [last];
      assert forall j :: 0 <= j < |init| ==> init[j] == items[j];
      RecordNext(env, now, answers, w, init, key);
      ListsSnoc(init, last, key);
      assert last.key in answers && answers[last.key] != "";
    }
  }

  /** A listed item gets its entry; a cache key that belongs to no item keeps its own. */
  lemma {:induction false} RecordEntry(env: Env, now: string, answers: map<string, string>, w: Work, items: seq<Item>, item: Item)
    requires Answers(answers, items)
    requires forall j :: 0 <= j < |items| && items[j].cacheKey == item.cacheKey ==> items[j] == item
    ensures item in items ==> item.key in answers
    ensures Get(Record(env, now, answers, w, items).tm, item.cacheKey) ==
            if item in items then Some(NewEntry(env, item, answers[item.key], now)) else Get(w.tm, item.cacheKey)
  {
    if items != [] {
      var init, last := items[..|items| - 1], items[|items| - 1];
      assert items == init + [last];
      assert forall j :: 0 <= j < |init| ==> init[j] == items[j];
      RecordEntry(env, now, answers, w, init, item);
      assert last.key in answers && answers[last.key] != "";
    }
  }

  lemma {:induction false} RecordKept(env: Env, now: string, answers: map<string, string>, w: Work, items: seq<Item>)
    ensures Record(env, now, answers, w, items).fallback == w.fallback
    ensures Record(env, now, answers, w, items).pending == w.pending
  {
    if items != [] {
      RecordKept(env, now, answers, w, items[..|items| - 1]);
    }
  }

  /** What recording the pending items leaves for one key. */
  lemma RecordStores(env: Env, now: string, answers: map<string, string>, w: Work, items: seq<Item>, key: string, text: string)
    requires ValidEnv(env) && Answers(answers, items)
    requires forall j :: 0 <= j < |items| ==> items[j] == ItemFor(env, items[j].key, items[j].text)
    requires forall j :: 0 <= j < |items| && items[j].key == key ==> items[j].text == text
    ensures var r := Record(env, now, answers, w, items);
            var item := ItemFor(env, key, text);
            && r.fallback == w.fallback && r.pending == w.pending
            && (item in items ==>
                  && key in r.next && r.next[key] == answers[key]
                  && Get(r.tm, item.cacheKey) == Some(NewEntry(env, item, answers[key], now)))
            && (item !in items ==>
                  && (key in r.next <==> key in w.next) && (key in r.next ==> r.next[key] == w.next[key])
                  && Get(r.tm, item.cacheKey) == Get(w.tm, item.cacheKey))
  {
    var item := ItemFor(env, key, text);
    SameItem(env, items, key, text);
    RecordKept(env, now, answers, w, items);
    RecordNext(env, now, answers, w, items, key);
    RecordEntry(env, now, answers, w, items, item);
  }

  /** Among items of the source, the item of a key is found by its key and by its cache key alike. */
  lemma SameItem(env: Env, items: seq<Item>, key: string, text: string)
    requires ValidEnv(env)
    requires forall j :: 0 <= j < |items| ==> items[j] == ItemFor(env, items[j].key, items[j].text)
    requires forall j :: 0 <= j < |items| && items[j].key == key ==> items[j].text == text
    ensures Lists(items, key) <==> ItemFor(env, key, text) in items
    ensures forall j :: 0 <= j < |items| && items[j].cacheKey == ItemFor(env, key, text).cacheKey ==> items[j] == ItemFor(env, key, text)
  {
    if Lists(items, key) {
      var j :| 0 <= j < |items| && items[j].key == key;
      assert items[j] == ItemFor(env, key, text);
    }
  }

  lemma {:induction false} RecordElsewhere(env: Env, now: string, answers: map<string, string>, w: Work, items: seq<Item>, c: string)
    requires forall j :: 0 <= j < |items| ==> items[j].cacheKey != c
    ensures Get(Record(env, now, answers, w, items).tm, c) == Get(w.tm, c)
  {
    if items != [] {
      RecordElsewhere(env, now, answers, w, items[..|items| - 1], c);
    }
  }

  lemma {:induction false} RecordKeys(env: Env, now: string, answers: map<string, string>, w: Work, items: seq<Item>, ks: set<string>)
    requires w.next.Keys <= ks && forall j :: 0 <= j < |items| ==> items[j].key in ks
    ensures Record(env, now, answers, w, items).next.Keys <= ks
  {
    if items != [] {
      RecordKeys(env, now, answers, w, items[..|items| - 1], ks);
    }
  }

  /** Settling gives an open item the English text, since none of them has an existing one. */
  lemma {:induction false} SettleFills(force: bool, b: Basis, w: Work, items: seq<Item>, key: string, text: string)
    requires forall j :: 0 <= j < |items| && items[j].key == key ==> items[j].text == text
    requires key in w.next || Get(b.existing, key).None?
    ensures var r := Settle(force, b, w, items);
            var listed := exists j :: 0 <= j < |items| && items[j].key == key;
            && r.tm == w.tm && r.pending == w.pending
            && (key in w.next || !listed ==>
                  && (key in r.next <==> key in w.next) && (key in r.next ==> r.next[key] == w.next[key])
                  && (key in r.fallback <==> key in w.fallback))
            && (key !in w.next && listed ==> key in r.next && r.next[key] == text && key in r.fallback)
  {
    if items != [] {
      var init := items[..|items| - 1];
      assert forall j :: 0 <= j < |init| ==> init[j] == items[j];
      SettleFills(force, b, w, init, key, text);
    }
  }

  lemma {:induction false} SettleKeys(force: bool, b: Basis, w: Work, items: seq<Item>, ks: set<string>)
    requires w.next.Keys <= ks && (forall k :: k in w.fallback ==> k in ks)
    requires forall j :: 0 <= j < |items| ==> items[j].key in ks
    ensures Settle(force, b, w, items).next.Keys <= ks
    ensures forall k :: k in Settle(force, b, w, items).fallback ==> k in ks
  {
    if items != [] {
      SettleKeys(force, b, w, items[..|items| - 1], ks);
    }
  }

  /** `--force` never reaches its branch: no open item has an existing text. */
  lemma {:induction false} SettleIgnoresForce(b: Basis, w: Work, items: seq<Item>)
    requires forall j :: 0 <= j < |items| ==> items[j].key in w.next || Get(b.existing, items[j].key).None?
    ensures Settle(true, b, w, items) == Settle(false, b, w, items)
  {
    if items != [] {
      var init := items[..|items| - 1];
      assert forall j :: 0 <= j < |init| ==> init[j] == items[j];
      SettleIgnoresForce(b, w, init);
      SettleKeeps(true, b, w, init);
    }
  }

  lemma {:induction false} SettleKeeps(force: bool, b: Basis, w: Work, items: seq<Item>)
    ensures w.next.Keys <= Settle(force, b, w, items).next.Keys
  {
    if items != [] {
      SettleKeeps(force, b, w, items[..|items| - 1]);
    }
  }

  // ---------------------------------------------------------------- the merged locale

  /** A whole run before anything is compared or written. */
  function Merged(env: Env, now: string, answers: map<string, string>, force: bool, b: Basis, tm: Tm, source: OrderedMap<string>): Work {
    Merge(env, now, answers, force, b, Plan(env, b, tm, source))
  }

  ghost predicate Answered(env: Env, b: Basis, tm: Tm, source: OrderedMap<string>, answers: map<string, string>) {
    env.allowTranslate ==> Answers(answers, Plan(env, b, tm, source).pending)
  }

  /** Every source key ends in its slot, and nothing else changes. */
  lemma MergedSlots(env: Env, now: string, answers: map<string, string>, force: bool, b: Basis, tm: Tm, source: OrderedMap<string>, i: nat)
    requires ValidEnv(env) && Distinct(source) && Answered(env, b, tm, source, answers) && i < |source|
    ensures var w := Merged(env, now, answers, force, b, tm, source);
            var (key, text) := source[i];
            var slot := SlotFor(env, b, tm, answers, now, key, text);
            && key in w.next && w.next[key] == slot.text
            && (key in w.fallback <==> slot.fallback)
            && Get(w.tm, CacheKey(env, key, text)) == slot.entry
            && (Open(env, b, tm, key, text) && env.allowTranslate ==> key in answers)
  {
    var (key, text) := source[i];
    PlanDecides(env, b, tm, source);
    var p := Plan(env, b, tm, source);
    assert Decided(env, b, tm, p, key, text);
    PendingItems(env, b, tm, source, p.pending, key, text);
    assert ItemFor(env, key, text) in p.pending <==> Open(env, b, tm, key, text) by {
      if ItemFor(env, key, text) in p.pending {
        var j :| 0 <= j < |p.pending| && p.pending[j] == ItemFor(env, key, text);
      }
    }
    var r := if env.allowTranslate then Record(env, now, answers, p, p.pending) else p;
    if env.allowTranslate {
      RecordStores(env, now, answers, p, p.pending, key, text);
    }
    SettleFills(force, b, r, p.pending, key, text);
    if Open(env, b, tm, key, text) {
      var j :| 0 <= j < |p.pending| && p.pending[j] == ItemFor(env, key, text);
      assert p.pending[j].key == key;
    }
  }

  lemma PendingItems(env: Env, b: Basis, tm: Tm, source: OrderedMap<string>, items: seq<Item>, key: string, text: string)
    requires Distinct(source) && PendingOf(env, b, tm, source, items) && (exists i :: 0 <= i < |source| && source[i] == (key, text))
    ensures forall j :: 0 <= j < |items| ==> items[j] == ItemFor(env, items[j].key, items[j].text)
    ensures forall j :: 0 <= j < |items| ==> Open(env, b, tm, items[j].key, items[j].text) && items[j].key in Keys(source)
    ensures forall j :: 0 <= j < |items| && items[j].key == key ==> items[j].text == text
  {
    var i :| 0 <= i < |source| && source[i] == (key, text);
    forall j | 0 <= j < |items|
      ensures items[j] == ItemFor(env, items[j].key, items[j].text)
      ensures Open(env, b, tm, items[j].key, items[j].text) && items[j].key in Keys(source)
      ensures items[j].key == key ==> items[j].text == text
    {
      var i' :| 0 <= i' < |source| && items[j] == ItemFor(env, source[i'].0, source[i'].1) && Open(env, b, tm, source[i'].0, source[i'].1);
      if items[j].key == key {
        assert i == i';
      }
    }
  }

  lemma MergedKeys(env: Env, now: string, answers: map<string, string>, force: bool, b: Basis, tm: Tm, source: OrderedMap<string>)
    requires ValidEnv(env) && Distinct(source) && Answered(env, b, tm, source, answers)
    ensures var w := Merged(env, now, answers, force, b, tm, source);
            w.next.Keys == Keys(source) && forall k :: k in w.fallback ==> k in Keys(source)
  {
    PlanDecides(env, b, tm, source);
    var p := Plan(env, b, tm, source);
    forall j | 0 <= j < |p.pending|
      ensures p.pending[j].key in Keys(source)
    {
      var i :| 0 <= i < |source| && p.pending[j] == ItemFor(env, source[i].0, source[i].1);
    }
    RecordKeys(env, now, answers, p, p.pending, Keys(source));
    RecordKept(env, now, answers, p, p.pending);
    SettleKeys(force, b, if env.allowTranslate then Record(env, now, answers, p, p.pending) else p, p.pending, Keys(source));
    var w := Merged(env, now, answers, force, b, tm, source);
    forall k | k in Keys(source)
      ensures k in w.next
    {
      var i :| 0 <= i < |source| && source[i].0 == k;
      MergedSlots(env, now, answers, force, b, tm, source, i);
    }
  }

  lemma {:induction false} SettleTm(force: bool, b: Basis, w: Work, items: seq<Item>)
    ensures Settle(force, b, w, items).tm == w.tm
  {
    if items != [] {
      SettleTm(force, b, w, items[..|items| - 1]);
    }
  }

  /** Entries under keys that belong to no source text stay as they were. */
  lemma MergedElsewhere(env: Env, now: string, answers: map<string, string>, force: bool, b: Basis, tm: Tm, source: OrderedMap<string>, c: string)
    requires ValidEnv(env) && Distinct(source) && !Owns(env, source, c)
    ensures Get(Merged(env, now, answers, force, b, tm, source).tm, c) == Get(tm, c)
  {
    PlanDecides(env, b, tm, source);
    var p := Plan(env, b, tm, source);
    forall j | 0 <= j < |p.pending|
      ensures p.pending[j].cacheKey != c
    {
      var i :| 0 <= i < |source| && p.pending[j] == ItemFor(env, source[i].0, source[i].1);
    }
    RecordElsewhere(env, now, answers, p, p.pending, c);
    SettleTm(force, b, if env.allowTranslate then Record(env, now, answers, p, p.pending) else p, p.pending);
  }

  lemma {:induction false} PlanValid(env: Env, b: Basis, tm: Tm, source: OrderedMap<string>)
    requires ValidEnv(env) && Valid(tm) && b.byText == ByTextHash(tm, env.locale)
    ensures Valid(Plan(env, b, tm, source).tm)
  {
    if source != [] {
      var last := source[|source| - 1];
      var v := Plan(env, b, tm, source[..|source| - 1]);
      PlanValid(env, b, tm, source[..|source| - 1]);
      var c := CacheKey(env, last.0, last.1);
      var choice := Choose(env, b, Get(v.tm, c), last.0, last.1);
      if choice.FromSameText? {
        PutValid(v.tm, Renamed(env, choice.entry, c, last.0));
      }
    }
  }

  lemma {:induction false} RecordValid(env: Env, now: string, answers: map<string, string>, w: Work, items: seq<Item>)
    requires Valid(w.tm) && Answers(answers, items)
    requires forall j :: 0 <= j < |items| ==> items[j].cacheKey != ""
    ensures Valid(Record(env, now, answers, w, items).tm)
  {
    if items != [] {
      var init, last := items[..|items| - 1], items[|items| - 1];
      assert forall j :: 0 <= j < |init| ==> init[j] == items[j];
      RecordValid(env, now, answers, w, init);
      PutValid(Record(env, now, answers, w, init).tm, NewEntry(env, last, answers[last.key], now));
    }
  }

  lemma MergedValid(env: Env, now: string, answers: map<string, string>, force: bool, b: Basis, tm: Tm, source: OrderedMap<string>)
    requires ValidEnv(env) && Distinct(source) && Answered(env, b, tm, source, answers)
    requires Valid(tm) && b.byText == ByTextHash(tm, env.locale)
    ensures Valid(Merged(env, now, answers, force, b, tm, source).tm)
  {
    PlanValid(env, b, tm, source);
    PlanDecides(env, b, tm, source);
    var p := Plan(env, b, tm, source);
    forall j | 0 <= j < |p.pending|
      ensures p.pending[j].cacheKey != ""
    {
      var i :| 0 <= i < |source| && p.pending[j] == ItemFor(env, source[i].0, source[i].1);
    }
    if env.allowTranslate {
      RecordValid(env, now, answers, p, p.pending);
    }
    SettleTm(force, b, if env.allowTranslate then Record(env, now, answers, p, p.pending) else p, p.pending);
  }

  // ---------------------------------------------------------------- the priority chain, from the inputs alone

  /** The key's own entry in the memory. */
  ghost function OwnEntry(env: Env, tm: Tm, key: string, text: string): Option<TmEntry> {
    Get(tm, env.cacheKey(key, env.hashText(text)))
  }

  /** A provider is there, and the key was a fallback before: it is translated anew. */
  ghost predicate Refreshed(env: Env, b: Basis, key: string) { env.allowTranslate && key in b.refresh }

  ghost predicate OwnWins(env: Env, b: Basis, tm: Tm, key: string, text: string) {
    OwnEntry(env, tm, key, text).Some? && !Refreshed(env, b, key)
  }

  ghost predicate SameTextWins(env: Env, b: Basis, tm: Tm, key: string, text: string) {
    && !OwnWins(env, b, tm, key, text)
    && env.hashText(text) in b.byText && (key in b.refresh || Get(b.existing, key).None?)
  }

  ghost predicate ExistingWins(env: Env, b: Basis, tm: Tm, key: string, text: string) {
    && !OwnWins(env, b, tm, key, text) && !SameTextWins(env, b, tm, key, text)
    && Get(b.existing, key).Some? && !Refreshed(env, b, key)
  }

  /** A copy of an entry under another key; its translation, its languages and its text are those of the original. */
  ghost predicate CopyOf(env: Env, copy: TmEntry, e: TmEntry, key: string, text: string) {
    && copy.cacheKey == env.cacheKey(key, env.hashText(text)) && copy.segmentId == key && copy.sourcePath == env.sourcePath
    && copy == e.(cacheKey := copy.cacheKey, segmentId := copy.segmentId, sourcePath := copy.sourcePath)
  }

  /** The entry of a translation that the provider has just given. */
  ghost predicate FreshEntry(env: Env, e: TmEntry, key: string, text: string, translated: string, now: string) {
    && e.cacheKey == env.cacheKey(key, env.hashText(text)) && e.segmentId == key && e.sourcePath == env.sourcePath
    && e.srcLang == "en" && e.tgtLang == env.locale && e.text == text && e.textHash == env.hashText(text)
    && e.translated == translated && e.provider == env.provider && e.model == env.model && e.updatedAt == now
  }

  /**
   * What a source key ends with: its own entry; failing that a same-text entry, copied; failing that the
   * existing text; and otherwise the provider's answer or, without a provider, the English text.
   */
  ghost predicate Final(env: Env, b: Basis, tm: Tm, answers: map<string, string>, now: string, key: string, text: string,
                        final: string, fallback: bool, entry: Option<TmEntry>) {
    var own, existing := OwnEntry(env, tm, key, text), Get(b.existing, key);
    && (OwnWins(env, b, tm, key, text) ==>
          final == own.value.translated && entry == own && (fallback <==> key in b.refresh))
    && (SameTextWins(env, b, tm, key, text) ==>
          var e := b.byText[env.hashText(text)];
          final == e.translated && !fallback && entry.Some? && CopyOf(env, entry.value, e, key, text))
    && (ExistingWins(env, b, tm, key, text) ==>
          final == existing.value && entry == own && (fallback <==> key in b.refresh))
    && (!OwnWins(env, b, tm, key, text) && !SameTextWins(env, b, tm, key, text) && !ExistingWins(env, b, tm, key, text) ==>
          if env.allowTranslate then
            key in answers && final == answers[key] && !fallback
            && entry.Some? && FreshEntry(env, entry.value, key, text, answers[key], now)
          else final == text && fallback && entry == own)
  }

  ghost predicate IsPending(w: Work, key: string) { exists j :: 0 <= j < |w.pending| && w.pending[j].key == key }

  /** The decision loop follows the chain: a key is pending exactly when nothing before wins. */
  lemma PlanFollowsChain(env: Env, b: Basis, tm: Tm, source: OrderedMap<string>, i: nat)
    requires ValidEnv(env) && Distinct(source) && i < |source|
    ensures var (key, text) := source[i];
            var p := Plan(env, b, tm, source);
            var own, after := OwnEntry(env, tm, key, text), OwnEntry(env, p.tm, key, text);
            && (OwnWins(env, b, tm, key, text) ==>
                  key in p.next && p.next[key] == own.value.translated && after == own && (key in p.fallback <==> key in b.refresh))
            && (SameTextWins(env, b, tm, key, text) ==>
                  var e := b.byText[env.hashText(text)];
                  key in p.next && p.next[key] == e.translated && key !in p.fallback && after.Some? && CopyOf(env, after.value, e, key, text))
            && (ExistingWins(env, b, tm, key, text) ==>
                  key in p.next && p.next[key] == Get(b.existing, key).value && after == own && (key in p.fallback <==> key in b.refresh))
            && (IsPending(p, key) <==>
                  !OwnWins(env, b, tm, key, text) && !SameTextWins(env, b, tm, key, text) && !ExistingWins(env, b, tm, key, text))
            && (IsPending(p, key) ==> key !in p.next && key !in p.fallback && after == own)
  {
    var (key, text) := source[i];
    var p := Plan(env, b, tm, source);
    PlanDecides(env, b, tm, source);
    assert Decided(env, b, tm, p, key, text);
    PendingIff(env, b, tm, source, i);
  }

  lemma PendingIff(env: Env, b: Basis, tm: Tm, source: OrderedMap<string>, i: nat)
    requires ValidEnv(env) && Distinct(source) && i < |source|
    ensures IsPending(Plan(env, b, tm, source), source[i].0) <==> Open(env, b, tm, source[i].0, source[i].1)
  {
    var (key, text) := source[i];
    var p := Plan(env, b, tm, source);
    PlanDecides(env, b, tm, source);
    assert Decided(env, b, tm, p, key, text);
    PendingItems(env, b, tm, source, p.pending, key, text);
    if Open(env, b, tm, key, text) {
      var j :| 0 <= j < |p.pending| && p.pending[j] == ItemFor(env, key, text);
      assert p.pending[j].key == key;
    }
  }

  ghost predicate Before(source: OrderedMap<string>, a: string, b: string) {
    exists i, j :: 0 <= i < j < |source| && source[i].0 == a && source[j].0 == b
  }

  /** The pending items stand in source order. */
  ghost predicate InOrder(source: OrderedMap<string>, items: seq<Item>) {
    && (forall x :: 0 <= x < |items| ==> items[x].key in Keys(source))
    && (forall x, y :: 0 <= x < y < |items| ==> Before(source, items[x].key, items[y].key))
  }

  lemma InOrderMore(init: OrderedMap<string>, last: (string, string), items: seq<Item>, item: Item)
    requires InOrder(init, items) && item.key == last.0
    ensures InOrder(init + [last], items) && InOrder(init + [last], items + [item])
  {
    var source, more := init + [last], items + [item];
    KeysSnoc(init, last);
    assert source[|init|] == last;
    forall x, y | 0 <= x < y < |more|
      ensures Before(source, more[x].key, more[y].key)
    {
      if y < |items| {
        assert Before(init, items[x].key, items[y].key);
        var i, j :| 0 <= i < j < |init| && init[i].0 == items[x].key && init[j].0 == items[y].key;
        assert source[i].0 == items[x].key && source[j].0 == items[y].key;
      } else {
        assert items[x].key in Keys(init);
        var i :| 0 <= i < |init| && init[i].0 == items[x].key;
        assert source[i].0 == items[x].key && source[|init|].0 == item.key;
      }
    }
    forall x, y | 0 <= x < y < |items|
      ensures Before(source, items[x].key, items[y].key)
    {
      assert more[x] == items[x] && more[y] == items[y];
    }
  }

  lemma {:induction false} PendingInOrder(env: Env, b: Basis, tm: Tm, source: OrderedMap<string>)
    ensures InOrder(source, Plan(env, b, tm, source).pending)
  {
    if source != [] {
      var init, last := source[..|source| - 1], source[|source| - 1];
      assert source == init + [last];
      PendingInOrder(env, b, tm, init);
      InOrderMore(init, last, Plan(env, b, tm, init).pending, ItemFor(env, last.0, last.1));
    }
  }

  /** The merged locale follows the chain. */
  lemma MergedFollowsChain(env: Env, now: string, answers: map<string, string>, force: bool, b: Basis, tm: Tm, source: OrderedMap<string>, i: nat)
    requires ValidEnv(env) && Distinct(source) && Answered(env, b, tm, source, answers) && i < |source|
    ensures var w := Merged(env, now, answers, force, b, tm, source);
            var (key, text) := source[i];
            key in w.next
            && Final(env, b, tm, answers, now, key, text, w.next[key], key in w.fallback, OwnEntry(env, w.tm, key, text))
  {
    MergedSlots(env, now, answers, force, b, tm, source, i);
  }

  /** Without a provider the merged memory indexes no new text hash. */
  lemma NoNewTexts(env: Env, now: string, answers: map<string, string>, force: bool, b: Basis, tm: Tm, source: OrderedMap<string>, c: string)
    requires ValidEnv(env) && Distinct(source) && Valid(tm) && !env.allowTranslate
    requires b.byText == ByTextHash(tm, env.locale)
    ensures var e := Get(Merged(env, now, answers, force, b, tm, source).tm, c);
            e.Some? && Indexed(e.value, env.locale) ==> e.value.textHash in b.byText
  {
    if Owns(env, source, c) {
      var i :| 0 <= i < |source| && CacheKey(env, source[i].0, source[i].1) == c;
      MergedSlots(env, now, answers, force, b, tm, source, i);
      SlotIndexed(env, b, tm, answers, now, source[i].0, source[i].1);
    } else {
      MergedElsewhere(env, now, answers, force, b, tm, source, c);
      StoredIndexed(env, tm, c);
    }
  }

  /** The index holds the text hash of every usable entry. */
  lemma StoredIndexed(env: Env, tm: Tm, c: string)
    ensures var e := Get(tm, c);
            e.Some? && Indexed(e.value, env.locale) ==> e.value.textHash in ByTextHash(tm, env.locale)
  {
    if Get(tm, c).Some? {
      var i := GetIndex(tm, c);
    }
  }

  lemma SlotIndexed(env: Env, b: Basis, tm: Tm, answers: map<string, string>, now: string, key: string, text: string)
    requires !env.allowTranslate && b.byText == ByTextHash(tm, env.locale)
    ensures var e := SlotFor(env, b, tm, answers, now, key, text).entry;
            e.Some? && Indexed(e.value, env.locale) ==> e.value.textHash in b.byText
  {
    StoredIndexed(env, tm, CacheKey(env, key, text));
  }

  // ---------------------------------------------------------------- the next run

  /** `b2` and `tm2` are what a run reads from the files written after `w`. */
  ghost predicate Follows(env: Env, source: OrderedMap<string>, w: Work, b2: Basis, tm2: Tm) {
    && tm2 == Load(Render(w.tm, env.le))
    && b2.byText == ByTextHash(tm2, env.locale)
    && b2.refresh == (set k | k in w.fallback)
    && (forall k :: k in Keys(source) && k in w.next ==> Get(b2.existing, k) == Some(w.next[k]))
  }

  /** A key whose slot was stored is chosen from the memory or the locale, with the stored text. */
  lemma ChooseAgain(env: Env, b: Basis, tm: Tm, answers: map<string, string>, now: string, key: string, text: string, b2: Basis)
    requires Open(env, b, tm, key, text) && env.allowTranslate ==> key in answers
    requires Get(b2.existing, key) == Some(SlotFor(env, b, tm, answers, now, key, text).text)
    requires key in b2.refresh <==> SlotFor(env, b, tm, answers, now, key, text).fallback
    requires !env.allowTranslate && env.hashText(text) in b2.byText ==> env.hashText(text) in b.byText
    ensures var slot := SlotFor(env, b, tm, answers, now, key, text);
            var next := Choose(env, b2, slot.entry, key, text);
            next == FromMemory(slot.text, slot.fallback) || next == FromLocale(slot.text, slot.fallback)
  {}

  lemma NextTexts(env: Env, now: string, answers: map<string, string>, force: bool, b: Basis, tm: Tm,
                  source: OrderedMap<string>, tm2: Tm, h: string)
    requires ValidEnv(env) && Distinct(source) && Valid(tm) && !env.allowTranslate
    requires b.byText == ByTextHash(tm, env.locale)
    requires tm2 == Load(Render(Merged(env, now, answers, force, b, tm, source).tm, env.le))
    requires h in ByTextHash(tm2, env.locale)
    ensures h in b.byText
  {
    MergedValid(env, now, answers, force, b, tm, source);
    var w := Merged(env, now, answers, force, b, tm, source);
    var j :| 0 <= j < |tm2| && tm2[j].1 == ByTextHash(tm2, env.locale)[h];
    RenderLoad(w.tm, env.le, tm2[j].0);
    GetAt(tm2, j);
    NoNewTexts(env, now, answers, force, b, tm, source, tm2[j].0);
  }

  /** The second run takes every key from the memory or from the locale, with the same text. */
  lemma NextChoice(env: Env, now: string, answers: map<string, string>, force: bool, b: Basis, tm: Tm,
                   source: OrderedMap<string>, i: nat, b2: Basis, tm2: Tm)
    requires ValidEnv(env) && Distinct(source) && Answered(env, b, tm, source, answers) && i < |source|
    requires Valid(tm) && b.byText == ByTextHash(tm, env.locale)
    requires Follows(env, source, Merged(env, now, answers, force, b, tm, source), b2, tm2)
    ensures var (key, text) := source[i];
            var slot := SlotFor(env, b, tm, answers, now, key, text);
            var next := Choose(env, b2, Get(tm2, CacheKey(env, key, text)), key, text);
            next == FromMemory(slot.text, slot.fallback) || next == FromLocale(slot.text, slot.fallback)
  {
    var (key, text) := source[i];
    var w := Merged(env, now, answers, force, b, tm, source);
    assert key in Keys(source);
    MergedSlots(env, now, answers, force, b, tm, source, i);
    assert Get(tm2, CacheKey(env, key, text)) == Get(w.tm, CacheKey(env, key, text)) by {
      MergedValid(env, now, answers, force, b, tm, source);
      RenderLoad(w.tm, env.le, CacheKey(env, key, text));
    }
    if !env.allowTranslate && env.hashText(text) in b2.byText {
      NextTexts(env, now, answers, force, b, tm, source, tm2, env.hashText(text));
    }
    ChooseAgain(env, b, tm, answers, now, key, text, b2);
  }

  /** When no choice is open or copies an entry, the decision loop leaves the memory alone. */
  lemma {:induction false} PlanQuiet(env: Env, b: Basis, tm: Tm, source: OrderedMap<string>)
    requires forall i :: 0 <= i < |source| ==>
               var choice := Choose(env, b, Get(tm, CacheKey(env, source[i].0, source[i].1)), source[i].0, source[i].1);
               choice.FromMemory? || choice.FromLocale?
    ensures Plan(env, b, tm, source).tm == tm && Plan(env, b, tm, source).pending == []
  {
    if source != [] {
      var init := source[..|source| - 1];
      assert forall i :: 0 <= i < |init| ==> init[i] == source[i];
      PlanQuiet(env, b, tm, init);
    }
  }

  /** The second run has nothing to translate and leaves the memory alone. */
  lemma NextQuiet(env: Env, now: string, answers: map<string, string>, force: bool, b: Basis, tm: Tm,
                  source: OrderedMap<string>, b2: Basis, tm2: Tm)
    requires ValidEnv(env) && Distinct(source) && Answered(env, b, tm, source, answers)
    requires Valid(tm) && b.byText == ByTextHash(tm, env.locale)
    requires Follows(env, source, Merged(env, now, answers, force, b, tm, source), b2, tm2)
    ensures Plan(env, b2, tm2, source).pending == [] && Plan(env, b2, tm2, source).tm == tm2
  {
    forall i | 0 <= i < |source|
      ensures var choice := Choose(env, b2, Get(tm2, CacheKey(env, source[i].0, source[i].1)), source[i].0, source[i].1);
              choice.FromMemory? || choice.FromLocale?
    {
      NextChoice(env, now, answers, force, b, tm, source, i, b2, tm2);
    }
    PlanQuiet(env, b2, tm2, source);
  }

  /** The second run decides every key as the first one left it. */
  lemma MergeAgain(env: Env, now: string, answers: map<string, string>, force: bool, b: Basis, tm: Tm,
                   source: OrderedMap<string>, b2: Basis, tm2: Tm)
    requires ValidEnv(env) && Distinct(source) && Answered(env, b, tm, source, answers)
    requires Valid(tm) && b.byText == ByTextHash(tm, env.locale)
    requires Follows(env, source, Merged(env, now, answers, force, b, tm, source), b2, tm2)
    ensures var w := Merged(env, now, answers, force, b, tm, source);
            var p := Plan(env, b2, tm2, source);
            p.next == w.next && forall k :: k in p.fallback <==> k in w.fallback
  {
    var p, w := Plan(env, b2, tm2, source), Merged(env, now, answers, force, b, tm, source);
    PlanDecides(env, b2, tm2, source);
    MergedKeys(env, now, answers, force, b, tm, source);
    forall k | k in Keys(source)
      ensures SameAt(p, w, k)
    {
      var i :| 0 <= i < |source| && source[i].0 == k;
      SameKeyAgain(env, now, answers, force, b, tm, source, b2, tm2, i);
    }
    SameEverywhere(p, w, Keys(source));
  }

  /** Two works agree on a key. */
  ghost predicate SameAt(p: Work, w: Work, k: string) {
    k in p.next && k in w.next && p.next[k] == w.next[k] && (k in p.fallback <==> k in w.fallback)
  }

  lemma SameEverywhere(p: Work, w: Work, keys: set<string>)
    requires p.next.Keys <= keys && w.next.Keys <= keys
    requires (forall k :: k in p.fallback ==> k in keys) && (forall k :: k in w.fallback ==> k in keys)
    requires forall k :: k in keys ==> SameAt(p, w, k)
    ensures p.next == w.next && forall k :: k in p.fallback <==> k in w.fallback
  {
    forall k
      ensures k in p.fallback <==> k in w.fallback
    {
      if k in p.fallback || k in w.fallback {
        assert SameAt(p, w, k);
      }
    }
    assert forall k :: k in p.next <==> k in w.next by {
      assert forall k :: k in keys ==> SameAt(p, w, k);
    }
  }

  lemma SameKeyAgain(env: Env, now: string, answers: map<string, string>, force: bool, b: Basis, tm: Tm,
                     source: OrderedMap<string>, b2: Basis, tm2: Tm, i: nat)
    requires ValidEnv(env) && Distinct(source) && Answered(env, b, tm, source, answers) && i < |source|
    requires Valid(tm) && b.byText == ByTextHash(tm, env.locale)
    requires Follows(env, source, Merged(env, now, answers, force, b, tm, source), b2, tm2)
    requires Planned(env, b2, tm2, source, Plan(env, b2, tm2, source))
    ensures SameAt(Plan(env, b2, tm2, source), Merged(env, now, answers, force, b, tm, source), source[i].0)
  {
    MergedSlots(env, now, answers, force, b, tm, source, i);
    NextChoice(env, now, answers, force, b, tm, source, i, b2, tm2);
    assert Decided(env, b2, tm2, Plan(env, b2, tm2, source), source[i].0, source[i].1);
  }
}
