/** The translation memory of one locale: loading, the index by text hash, and rendering. */
module TranslationMemory {
  import opened Common

  datatype TmEntry = TmEntry(
    cacheKey: string, segmentId: string, sourcePath: string, srcLang: string, tgtLang: string,
    text: string, textHash: string, translated: string,
    provider: string, model: string, updatedAt: string)

  type Tm = OrderedMap<TmEntry>

  /** `loadTranslationMemory`: later lines win, lines without key or translation are dropped. */
  function Load(lines: seq<TmEntry>): Tm {
    if lines == [] then []
    else
      var tm, e := Load(lines[..|lines| - 1]), lines[|lines| - 1];
      if e.cacheKey != "" && !IsBlank(e.translated) then Put(tm, e.cacheKey, e) else tm
  }

  function Values(tm: Tm): (r: seq<TmEntry>)
    ensures |r| == |tm| && forall i :: 0 <= i < |r| ==> r[i] == tm[i].1
  {
    seq(|tm|, i requires 0 <= i < |tm| => tm[i].1)
  }

  function ByCacheKey(le: (string, string) -> bool): (TmEntry, TmEntry) -> bool {
    (a: TmEntry, b: TmEntry) => le(a.cacheKey, b.cacheKey)
  }

  /** `renderTranslationMemory`: the lines of the file, ordered by cache key. */
  function Render(tm: Tm, le: (string, string) -> bool): seq<TmEntry> {
    Sort(Values(tm), ByCacheKey(le))
  }

  /** Every entry sits under its own key and could have been loaded. */
  ghost predicate Valid(tm: Tm) {
    && Distinct(tm)
    && forall i :: 0 <= i < |tm| ==> tm[i].0 == tm[i].1.cacheKey && tm[i].0 != "" && !IsBlank(tm[i].1.translated)
  }

  lemma {:induction false} PutValid(tm: Tm, e: TmEntry)
    requires Valid(tm) && e.cacheKey != "" && !IsBlank(e.translated)
    ensures Valid(Put(tm, e.cacheKey, e))
  {
    var r := Put(tm, e.cacheKey, e);
    forall i | 0 <= i < |r|
      ensures r[i].0 == r[i].1.cacheKey && r[i].0 != "" && !IsBlank(r[i].1.translated)
    {
      GetAt(r, i);
      if r[i].0 != e.cacheKey {
        var j := GetIndex(tm, r[i].0);
      }
    }
  }

  lemma {:induction false} LoadValid(lines: seq<TmEntry>)
    ensures Valid(Load(lines))
  {
    if lines != [] {
      LoadValid(lines[..|lines| - 1]);
      var e := lines[|lines| - 1];
      if e.cacheKey != "" && !IsBlank(e.translated) {
        PutValid(Load(lines[..|lines| - 1]), e);
      }
    }
  }

  ghost predicate Usable(e: TmEntry) { e.cacheKey != "" && !IsBlank(e.translated) }

  /** Line `i` is the last usable line with the cache key `k`. */
  ghost predicate LastLine(lines: seq<TmEntry>, k: string, i: nat) {
    && i < |lines| && Usable(lines[i]) && lines[i].cacheKey == k
    && forall j :: i < j < |lines| ==> !(Usable(lines[j]) && lines[j].cacheKey == k)
  }

  /** There is an entry exactly when a usable line has the key, and it is the last such line. */
  ghost predicate FromLastLine(lines: seq<TmEntry>, k: string, r: Option<TmEntry>) {
    match r
    case None => forall i :: 0 <= i < |lines| ==> !(Usable(lines[i]) && lines[i].cacheKey == k)
    case Some(e) => exists i: nat :: LastLine(lines, k, i) && lines[i] == e
  }

  /** The memory holds exactly the cache keys of the usable lines, each with the last such line. */
  lemma {:induction false} LoadKeepsLast(lines: seq<TmEntry>, k: string)
    ensures FromLastLine(lines, k, Get(Load(lines), k))
  {
    if lines != [] {
      var init, e := lines[..|lines| - 1], lines[|lines| - 1];
      assert lines == init + [e];
      LoadKeepsLast(init, k);
      LastLineMore(init, e, k, Get(Load(init), k));
    }
  }

  lemma LastLineMore(init: seq<TmEntry>, e: TmEntry, k: string, r: Option<TmEntry>)
    requires FromLastLine(init, k, r)
    ensures FromLastLine(init + [e], k, if Usable(e) && e.cacheKey == k then Some(e) else r)
  {
    var lines := init + [e];
    if Usable(e) && e.cacheKey == k {
      assert LastLine(lines, k, |init|) && lines[|init|] == e;
    } else if r.Some? {
      var i: nat :| LastLine(init, k, i) && init[i] == r.value;
      assert LastLine(lines, k, i) && lines[i] == r.value;
    }
  }

  ghost predicate Loadable(lines: seq<TmEntry>) {
    && (forall i :: 0 <= i < |lines| ==> lines[i].cacheKey != "" && !IsBlank(lines[i].translated))
    && (forall i, j :: 0 <= i < j < |lines| ==> lines[i].cacheKey != lines[j].cacheKey)
  }

  /** The memory holds the lines, each under its own key. */
  ghost predicate Verbatim(tm: Tm, lines: seq<TmEntry>) {
    |tm| == |lines| && forall i :: 0 <= i < |lines| ==> tm[i] == (lines[i].cacheKey, lines[i])
  }

  lemma VerbatimMore(tm: Tm, init: seq<TmEntry>, e: TmEntry)
    requires Verbatim(tm, init) && forall i :: 0 <= i < |init| ==> init[i].cacheKey != e.cacheKey
    ensures Verbatim(Put(tm, e.cacheKey, e), init + [e])
  {
    PutNew(tm, e.cacheKey, e);
  }

  /** A file of distinct, complete lines is loaded line by line. */
  lemma {:induction false} LoadVerbatim(lines: seq<TmEntry>)
    requires Loadable(lines)
    ensures Verbatim(Load(lines), lines)
  {
    if lines != [] {
      var init, e := lines[..|lines| - 1], lines[|lines| - 1];
      assert lines == init + [e];
      assert Loadable(init) by {
        assert forall i :: 0 <= i < |init| ==> init[i] == lines[i];
      }
      LoadVerbatim(init);
      VerbatimMore(Load(init), init, e);
    }
  }

  lemma PermutedLoadable(s: seq<TmEntry>, t: seq<TmEntry>)
    requires Loadable(s) && multiset(s) == multiset(t)
    ensures Loadable(t)
  {
    forall i | 0 <= i < |t|
      ensures t[i] in s
    {
      assert t[i] in multiset(t);
    }
    forall i, j | 0 <= i < j < |t|
      ensures t[i].cacheKey != t[j].cacheKey
    {
      assert t[i] in multiset(t) && t[j] in multiset(t);
      if t[i].cacheKey == t[j].cacheKey {
        assert t[i] == t[j];
        var u := t[..j] + t[j + 1..];
        assert t == t[..j] + [t[j]] + t[j + 1..];
        assert u[i] == t[i];
        assert multiset(t)[t[j]] >= 2;
        SingleOccurrence(s, t[j]);
      }
    }
  }

  lemma {:induction false} SingleOccurrence(s: seq<TmEntry>, e: TmEntry)
    requires Loadable(s)
    ensures multiset(s)[e] <= 1
  {
    if s != [] {
      assert s == [s[0]] + s[1..];
      SingleOccurrence(s[1..], e);
      if e == s[0] && e in s[1..] {
        assert false;
      }
    }
  }

  lemma ReloadLines(tm: Tm, lines: seq<TmEntry>)
    requires Valid(tm) && multiset(lines) == multiset(Values(tm))
    ensures Values(Load(lines)) == lines && Valid(Load(lines))
  {
    var values := Values(tm);
    assert Loadable(values) by {
      assert forall i :: 0 <= i < |tm| ==> values[i] == tm[i].1;
    }
    PermutedLoadable(values, lines);
    LoadVerbatim(lines);
    LoadValid(lines);
    assert Values(Load(lines)) == lines;
  }

  lemma RenderSorted(tm: Tm, le: (string, string) -> bool)
    requires TotalPreorder(le)
    ensures Sorted(Render(tm, le), ByCacheKey(le))
  {
    var order := ByCacheKey(le);
    assert forall a, b :: order(a, b) == le(a.cacheKey, b.cacheKey);
    SortSorts(Values(tm), order);
  }

  /** Rendering and loading keep every entry. */
  lemma RenderLoad(tm: Tm, le: (string, string) -> bool, k: string)
    requires Valid(tm)
    ensures Valid(Load(Render(tm, le)))
    ensures Get(Load(Render(tm, le)), k) == Get(tm, k)
  {
    var lines := Render(tm, le);
    var loaded := Load(lines);
    ReloadLines(tm, lines);
    if Get(tm, k).Some? {
      SameEntry(tm, loaded, k);
    } else if Get(loaded, k).Some? {
      SameEntry(loaded, tm, k);
    }
  }

  /** A rendered file, loaded and rendered again, is the same file. */
  lemma RenderAgain(tm: Tm, le: (string, string) -> bool)
    requires Valid(tm) && TotalPreorder(le)
    ensures Render(Load(Render(tm, le)), le) == Render(tm, le)
  {
    ReloadLines(tm, Render(tm, le));
    RenderSorted(tm, le);
    SortFixesSorted(Render(tm, le), ByCacheKey(le));
  }

  lemma SameEntry(a: Tm, b: Tm, k: string)
    requires Valid(a) && Valid(b) && multiset(Values(a)) == multiset(Values(b))
    requires Get(a, k).Some?
    ensures Get(b, k) == Get(a, k)
  {
    var i := GetIndex(a, k);
    var va, vb := Values(a), Values(b);
    assert va[i] in multiset(vb);
    var j :| 0 <= j < |vb| && vb[j] == va[i];
    GetAt(b, j);
  }

  predicate Indexed(e: TmEntry, locale: string) {
    e.tgtLang == locale && e.textHash != "" && !IsBlank(e.translated)
  }

  /** `buildTranslationMemoryByTextHash`: the last entry of each text hash. */
  function ByTextHash(tm: Tm, locale: string): (r: map<string, TmEntry>)
    ensures forall h :: h in r ==> r[h].textHash == h && Indexed(r[h], locale)
    ensures forall h :: h in r ==> exists i :: 0 <= i < |tm| && tm[i].1 == r[h]
    ensures forall i :: 0 <= i < |tm| && Indexed(tm[i].1, locale) ==> tm[i].1.textHash in r
  {
    if tm == [] then map[]
    else
      var init, e := tm[..|tm| - 1], tm[|tm| - 1].1;
      assert forall i :: 0 <= i < |init| ==> init[i] == tm[i];
      var r := ByTextHash(init, locale);
      if Indexed(e, locale) then r[e.textHash := e] else r
  }

  /** Entry `i` is the last usable entry of the locale with the text hash. */
  ghost predicate LastOfText(tm: Tm, locale: string, h: string, i: nat) {
    && i < |tm| && OfText(tm[i].1, locale, h)
    && forall j :: i < j < |tm| ==> !OfText(tm[j].1, locale, h)
  }

  /** Translated into the locale, from a text with this hash, and not blank. */
  ghost predicate OfText(e: TmEntry, locale: string, h: string) {
    e.tgtLang == locale && e.textHash == h && h != "" && !IsBlank(e.translated)
  }

  /** An entry of a text hash exactly when a usable one exists, and then the last one. */
  ghost predicate FromLastOfText(tm: Tm, locale: string, h: string, r: map<string, TmEntry>) {
    if h in r then exists i: nat :: LastOfText(tm, locale, h, i) && tm[i].1 == r[h]
    else forall i :: 0 <= i < |tm| ==> !OfText(tm[i].1, locale, h)
  }

  /** The index holds the last usable entry of each text hash. */
  lemma {:induction false} ByTextLast(tm: Tm, locale: string, h: string)
    ensures FromLastOfText(tm, locale, h, ByTextHash(tm, locale))
  {
    if tm != [] {
      var init, last := tm[..|tm| - 1], tm[|tm| - 1];
      assert tm == init + [last];
      ByTextLast(init, locale, h);
      LastOfTextMore(init, last, locale, h, ByTextHash(init, locale), ByTextHash(tm, locale));
    }
  }

  lemma LastOfTextMore(init: Tm, last: (string, TmEntry), locale: string, h: string, r: map<string, TmEntry>, all: map<string, TmEntry>)
    requires FromLastOfText(init, locale, h, r)
    requires all == if Indexed(last.1, locale) then r[last.1.textHash := last.1] else r
    ensures FromLastOfText(init + [last], locale, h, all)
  {
    var tm := init + [last];
    if OfText(last.1, locale, h) {
      assert LastOfText(tm, locale, h, |init|) && tm[|init|].1 == all[h];
    } else if h in r {
      var i: nat :| LastOfText(init, locale, h, i) && init[i].1 == r[h];
      assert LastOfText(tm, locale, h, i) && tm[i].1 == all[h];
    }
  }

  /** The rendered lines are the entries, in the order of their cache keys. */
  lemma RenderOrdered(tm: Tm, le: (string, string) -> bool)
    requires TotalPreorder(le)
    ensures multiset(Render(tm, le)) == multiset(Values(tm))
    ensures forall i, j :: 0 <= i < j < |Render(tm, le)| ==> le(Render(tm, le)[i].cacheKey, Render(tm, le)[j].cacheKey)
  {
    RenderSorted(tm, le);
    var r := Render(tm, le);
    forall i, j | 0 <= i < j < |r|
      ensures le(r[i].cacheKey, r[j].cacheKey)
    {
      assert ByCacheKey(le)(r[i], r[j]);
    }
  }
}
