/** A whole sync run against the files of one locale, and what a second run does. */
module SyncRun {
  import opened Common
  import opened NestedKeys
  import opened TranslationMemory
  import opened LocaleSync

  datatype GlossaryEntry = GlossaryEntry(source: string, target: string)

  const DEFAULT_GLOSSARY: seq<GlossaryEntry> := [
    GlossaryEntry("OpenClaw", "OpenClaw"), GlossaryEntry("Gateway", "Gateway"),
    GlossaryEntry("Control UI", "Control UI"), GlossaryEntry("Skills", "Skills"),
    GlossaryEntry("Tailscale", "Tailscale"), GlossaryEntry("WhatsApp", "WhatsApp"),
    GlossaryEntry("Telegram", "Telegram"), GlossaryEntry("Discord", "Discord"),
    GlossaryEntry("Signal", "Signal"), GlossaryEntry("iMessage", "iMessage")]

  datatype Meta = Meta(
    fallbackKeys: seq<string>, generatedAt: string, locale: string, model: string, provider: string,
    sourceHash: string, totalKeys: int, translatedKeys: int, workflow: int)

  /** A file: what it parses to, and whether its bytes are what the renderer prints for that. */
  datatype Doc<T> = Doc(value: T, canonical: bool)

  /** The files of a locale. A missing memory file reads like an empty one. */
  datatype Disk = Disk(
    locale: Option<Doc<Forest>>, meta: Option<Doc<Meta>>,
    glossary: Option<Doc<seq<GlossaryEntry>>>, memory: Doc<seq<TmEntry>>)

  datatype Options = Options(checkOnly: bool, force: bool, write: bool)

  datatype Source = Source(flat: OrderedMap<string>, hash: string)

  /** What the translation phase came back with. */
  datatype Reply = Translated(answers: map<string, string>) | AuthSkipped | Broken

  datatype Result =
    | Threw
    | Skipped(fallbackCount: nat)
    | Done(changed: bool, fallbackCount: nat, wrote: bool, disk: Disk)

  function BasisOf(env: Env, disk: Disk): Basis {
    Basis(
      ByTextHash(Load(disk.memory.value), env.locale),
      if disk.locale.Some? then Flatten(disk.locale.value.value) else [],
      if disk.meta.Some? then set k | k in disk.meta.value.value.fallbackKeys else {})
  }

  function PlanOf(env: Env, disk: Disk, source: Source): Work {
    Plan(env, BasisOf(env, disk), Load(disk.memory.value), source.flat)
  }

  /** `assertPlaceholderParity` passes. */
  predicate PlaceholdersMatch(env: Env, source: OrderedMap<string>, next: map<string, string>) {
    forall i :: 0 <= i < |source| ==>
      env.samePlaceholders(source[i].1, if source[i].0 in next then next[source[i].0] else "")
  }

  /** The assignments that build the next locale object, in source order. */
  function Texts(source: OrderedMap<string>, next: map<string, string>): OrderedMap<string> {
    seq(|source|, i requires 0 <= i < |source| =>
      (source[i].0, if source[i].0 in next then next[source[i].0] else source[i].1))
  }

  /** `[...new Set(keys)]` */
  function Dedupe(keys: seq<string>): (r: seq<string>)
    ensures forall k :: k in r <==> k in keys
    ensures forall i, j :: 0 <= i < j < |r| ==> r[i] != r[j]
  {
    if keys == [] then []
    else
      var r, last := Dedupe(keys[..|keys| - 1]), keys[|keys| - 1];
      assert keys == keys[..|keys| - 1] + [last];
      if last in r then r else r + [last]
  }

  function SortedFallback(env: Env, fallback: seq<string>): seq<string> {
    Sort(Dedupe(fallback), env.le)
  }

  function NextMeta(env: Env, now: string, previous: Option<Meta>, source: Source, fallback: seq<string>): Meta {
    var provider := if env.allowTranslate then env.provider else if previous.Some? then previous.value.provider else "";
    var model := if env.allowTranslate then env.model else if previous.Some? then previous.value.model else "";
    var renewed := Meta(fallback, now, env.locale, model, provider, source.hash,
                      |source.flat|, |source.flat| - |fallback|, WORKFLOW);
    if previous.Some? && previous.value == renewed.(generatedAt := previous.value.generatedAt)
    then previous.value
    else renewed
  }

  /** The four files as this run would print them. */
  function Expected(env: Env, now: string, disk: Disk, source: Source, w: Work): Disk {
    var glossary := if disk.glossary.Some? then disk.glossary.value.value else [];
    var previous := if disk.meta.Some? then Some(disk.meta.value.value) else None;
    Disk(
      Some(Doc(Rebuild(Texts(source.flat, w.next)), true)),
      Some(Doc(NextMeta(env, now, previous, source, SortedFallback(env, w.fallback)), true)),
      Some(Doc(if |glossary| == 0 then DEFAULT_GLOSSARY else glossary, true)),
      Doc(Render(w.tm, env.le), true))
  }

  function Finish(env: Env, opts: Options, now: string, disk: Disk, source: Source, w: Work): Result {
    if !PlaceholdersMatch(env, source.flat, w.next) then Threw
    else
      var expected := Expected(env, now, disk, source, w);
      var changed := disk != expected;
      var count := |SortedFallback(env, w.fallback)|;
      if !changed
         || (disk.meta.Some? && disk.meta.value.value.sourceHash == source.hash && !opts.force && !opts.checkOnly && !opts.write)
      then Done(changed, count, false, disk)
      else Done(changed, count, !opts.checkOnly && opts.write && changed,
                if !opts.checkOnly && opts.write then expected else disk)
  }

  /** `syncLocale` after the provider replied. */
  function Sync(env: Env, opts: Options, now: string, disk: Disk, source: Source, reply: Reply): Result {
    var p := PlanOf(env, disk, source);
    var b := BasisOf(env, disk);
    if env.allowTranslate && p.pending != [] then
      match reply
      case Translated(answers) => Finish(env, opts, now, disk, source, Merge(env, now, answers, opts.force, b, p))
      case AuthSkipped => Skipped(if disk.meta.Some? then |disk.meta.value.value.fallbackKeys| else 0)
      case Broken => Threw
    else Finish(env, opts, now, disk, source, Settle(opts.force, b, p, p.pending))
  }

  /** Successful replies answer every pending item with a non-blank text. */
  ghost predicate ReplyFits(env: Env, disk: Disk, source: Source, reply: Reply) {
    reply.Translated? ==> Answers(reply.answers, PlanOf(env, disk, source).pending)
  }

  function AnswersOf(reply: Reply): map<string, string> { if reply.Translated? then reply.answers else map[] }

  function MergedOf(env: Env, now: string, force: bool, disk: Disk, source: Source, reply: Reply): Work {
    Merged(env, now, AnswersOf(reply), force, BasisOf(env, disk), Load(disk.memory.value), source.flat)
  }

  /** A finished run is the comparison of the merged locale with the disk. */
  lemma SyncFinishes(env: Env, opts: Options, now: string, disk: Disk, source: Source, reply: Reply)
    requires Sync(env, opts, now, disk, source, reply).Done? && ReplyFits(env, disk, source, reply)
    ensures Answered(env, BasisOf(env, disk), Load(disk.memory.value), source.flat, AnswersOf(reply))
    ensures Sync(env, opts, now, disk, source, reply) ==
            Finish(env, opts, now, disk, source, MergedOf(env, now, opts.force, disk, source, reply))
  {}

  lemma {:induction false} DedupeSize(keys: seq<string>, all: set<string>)
    requires forall k :: k in keys ==> k in all
    ensures |Dedupe(keys)| <= |all|
  {
    DistinctSize(Dedupe(keys), all);
  }

  lemma {:induction false} DistinctSize(s: seq<string>, all: set<string>)
    requires forall i, j :: 0 <= i < j < |s| ==> s[i] != s[j]
    requires forall k :: k in s ==> k in all
    ensures |s| <= |all|
  {
    if s != [] {
      var last := s[|s| - 1];
      forall k | k in s[..|s| - 1]
        ensures k in all - {last}
      {
        var i :| 0 <= i < |s| - 1 && s[i] == k;
      }
      DistinctSize(s[..|s| - 1], all - {last});
    }
  }

  lemma {:induction false} DistinctMultiset(s: seq<string>, k: string)
    requires forall i, j :: 0 <= i < j < |s| ==> s[i] != s[j]
    ensures multiset(s)[k] == if k in s then 1 else 0
  {
    if s != [] {
      assert s == s[..|s| - 1] + [s[|s| - 1]];
      DistinctMultiset(s[..|s| - 1], k);
    }
  }

  /** Without ties the sorted fallback list depends only on the set of fallback keys. */
  lemma SortedFallbackSame(env: Env, f: seq<string>, g: seq<string>)
    requires TotalPreorder(env.le) && Untied(f, env.le) && forall k :: k in f <==> k in g
    ensures SortedFallback(env, f) == SortedFallback(env, g)
  {
    forall k
      ensures multiset(Dedupe(f))[k] == multiset(Dedupe(g))[k]
    {
      DistinctMultiset(Dedupe(f), k);
      DistinctMultiset(Dedupe(g), k);
    }
    assert multiset(Dedupe(f)) == multiset(Dedupe(g));
    SortSorts(Dedupe(f), env.le);
    SortSorts(Dedupe(g), env.le);
    UntiedFallback(env, f);
    SortedUnique(SortedFallback(env, f), SortedFallback(env, g), env.le);
  }

  lemma UntiedFallback(env: Env, f: seq<string>)
    requires Untied(f, env.le)
    ensures Untied(SortedFallback(env, f), env.le)
  {
    var s := SortedFallback(env, f);
    SortedFallbackSet(env, f);
    forall i, j | 0 <= i < |s| && 0 <= j < |s| && env.le(s[i], s[j]) && env.le(s[j], s[i])
      ensures s[i] == s[j]
    {
      assert s[i] in f && s[j] in f;
      var m :| 0 <= m < |f| && f[m] == s[i];
      var n :| 0 <= n < |f| && f[n] == s[j];
    }
  }

  lemma SortedFallbackSet(env: Env, f: seq<string>)
    ensures forall k :: k in SortedFallback(env, f) <==> k in f
    ensures (set k | k in SortedFallback(env, f)) == (set k | k in f)
  {
    forall k
      ensures k in SortedFallback(env, f) <==> k in f
    {
      assert k in SortedFallback(env, f) <==> k in multiset(SortedFallback(env, f));
      assert k in Dedupe(f) <==> k in multiset(Dedupe(f));
    }
  }

  lemma TextsShape(source: OrderedMap<string>, next: map<string, string>)
    requires Distinct(source) && Unambiguous(source)
    ensures Distinct(Texts(source, next)) && Unambiguous(Texts(source, next))
    ensures forall k :: k in Keys(source) && k in next ==> Get(Texts(source, next), k) == Some(next[k])
  {
    var t := Texts(source, next);
    forall k | k in Keys(source) && k in next
      ensures Get(t, k) == Some(next[k])
    {
      var i :| 0 <= i < |source| && source[i].0 == k;
      GetAt(t, i);
    }
  }

  /** What a run writes is exactly what the next run continues from. */
  lemma WrittenFollows(env: Env, now: string, disk: Disk, source: Source, w: Work)
    requires ValidEnv(env) && Distinct(source.flat) && Unambiguous(source.flat)
    ensures var disk2 := Expected(env, now, disk, source, w);
            Follows(env, source.flat, w, BasisOf(env, disk2), Load(disk2.memory.value))
  {
    var disk2 := Expected(env, now, disk, source, w);
    TextsShape(source.flat, w.next);
    var t := Texts(source.flat, w.next);
    forall k | k in Keys(source.flat) && k in w.next
      ensures Get(BasisOf(env, disk2).existing, k) == Some(w.next[k])
    {
      FlattenRebuild(t, k);
    }
    SortedFallbackSet(env, w.fallback);
  }

  lemma FirstRun(env: Env, opts: Options, now: string, disk: Disk, source: Source, reply: Reply)
    requires opts.write && !opts.checkOnly
    requires ReplyFits(env, disk, source, reply) && Sync(env, opts, now, disk, source, reply).Done?
    ensures var w := MergedOf(env, now, opts.force, disk, source, reply);
            var first := Sync(env, opts, now, disk, source, reply);
            && PlaceholdersMatch(env, source.flat, w.next)
            && first.disk == Expected(env, now, disk, source, w)
            && first.fallbackCount == |SortedFallback(env, w.fallback)|
  {
    SyncFinishes(env, opts, now, disk, source, reply);
  }

  /** No two source keys are equal in the collation. */
  ghost predicate NoTies(env: Env, source: OrderedMap<string>) {
    forall i, j :: 0 <= i < j < |source| ==> !Tied(env, source[i].0, source[j].0)
  }

  predicate Tied(env: Env, a: string, b: string) { env.le(a, b) && env.le(b, a) }

  /** With a provider no fallback key is left, and without ties the fallback keys have none. */
  lemma FallbackUntied(env: Env, now: string, force: bool, disk: Disk, source: Source, reply: Reply)
    requires ValidEnv(env) && Distinct(source.flat) && (env.allowTranslate || NoTies(env, source.flat))
    requires Answered(env, BasisOf(env, disk), Load(disk.memory.value), source.flat, AnswersOf(reply))
    ensures Untied(MergedOf(env, now, force, disk, source, reply).fallback, env.le)
  {
    var b, tm := BasisOf(env, disk), Load(disk.memory.value);
    var f := MergedOf(env, now, force, disk, source, reply).fallback;
    if env.allowTranslate {
      ProviderLeavesNoFallback(env, now, AnswersOf(reply), force, b, tm, source.flat);
    } else {
      MergedKeys(env, now, AnswersOf(reply), force, b, tm, source.flat);
      forall i, j | 0 <= i < |f| && 0 <= j < |f| && env.le(f[i], f[j]) && env.le(f[j], f[i])
        ensures f[i] == f[j]
      {
        assert f[i] in Keys(source.flat) && f[j] in Keys(source.flat);
        if f[i] != f[j] {
          NotTied(env, source.flat, f[i], f[j]);
        }
      }
    }
  }

  lemma NotTied(env: Env, source: OrderedMap<string>, a: string, b: string)
    requires NoTies(env, source) && a in Keys(source) && b in Keys(source) && a != b
    ensures !Tied(env, a, b)
  {
    var i :| 0 <= i < |source| && source[i].0 == a;
    var j :| 0 <= j < |source| && source[j].0 == b;
    if i < j {
      assert !Tied(env, source[i].0, source[j].0);
    } else {
      assert !Tied(env, source[j].0, source[i].0);
    }
  }

  /** Run from its own output, the decision loop decides everything as before. */
  lemma NextPlan(env: Env, opts: Options, now: string, disk: Disk, source: Source, reply: Reply)
    requires ValidEnv(env) && TotalPreorder(env.le) && Distinct(source.flat) && Unambiguous(source.flat)
    requires env.allowTranslate || NoTies(env, source.flat)
    requires ReplyFits(env, disk, source, reply) && Sync(env, opts, now, disk, source, reply).Done?
    ensures var w := MergedOf(env, now, opts.force, disk, source, reply);
            var disk2 := Expected(env, now, disk, source, w);
            var p := PlanOf(env, disk2, source);
            && p.pending == [] && p.tm == Load(disk2.memory.value) && p.next == w.next
            && SortedFallback(env, p.fallback) == SortedFallback(env, w.fallback)
            && Render(p.tm, env.le) == disk2.memory.value
  {
    var b, tm := BasisOf(env, disk), Load(disk.memory.value);
    var w := MergedOf(env, now, opts.force, disk, source, reply);
    SyncFinishes(env, opts, now, disk, source, reply);
    var disk2 := Expected(env, now, disk, source, w);
    WrittenFollows(env, now, disk, source, w);
    LoadValid(disk.memory.value);
    var b2, tm2 := BasisOf(env, disk2), Load(disk2.memory.value);
    NextQuiet(env, now, AnswersOf(reply), opts.force, b, tm, source.flat, b2, tm2);
    MergeAgain(env, now, AnswersOf(reply), opts.force, b, tm, source.flat, b2, tm2);
    FallbackUntied(env, now, opts.force, disk, source, reply);
    SortedFallbackSame(env, w.fallback, PlanOf(env, disk2, source).fallback);
    MergedValid(env, now, AnswersOf(reply), opts.force, b, tm, source.flat);
    RenderAgain(w.tm, env.le);
  }

  /** Metadata computed again over itself is kept, `generatedAt` included. */
  lemma MetaAgain(env: Env, now: string, previous: Option<Meta>, source: Source, fallback: seq<string>, now2: string)
    ensures var meta := NextMeta(env, now, previous, source, fallback);
            NextMeta(env, now2, Some(meta), source, fallback) == meta
  {
  }

  lemma ExpectedAgain(env: Env, now: string, disk: Disk, source: Source, w: Work, now2: string, p: Work)
    requires p.next == w.next && SortedFallback(env, p.fallback) == SortedFallback(env, w.fallback)
    requires Render(p.tm, env.le) == Render(w.tm, env.le)
    ensures var disk2 := Expected(env, now, disk, source, w);
            Expected(env, now2, disk2, source, p) == disk2
  {
    var previous := if disk.meta.Some? then Some(disk.meta.value.value) else None;
    MetaAgain(env, now, previous, source, SortedFallback(env, w.fallback), now2);
  }

  /**
   * The sync reaches its fixpoint in one run: after a run that may write, a second run with the same
   * source and settings (any options, clock and provider) asks for nothing, changes nothing and
   * leaves the same files. Without a provider this takes source keys that the collation tells apart.
   */
  lemma SecondRunChangesNothing(env: Env, opts: Options, now: string, disk: Disk, source: Source, reply: Reply,
                                opts2: Options, now2: string, reply2: Reply)
    requires ValidEnv(env) && TotalPreorder(env.le) && Distinct(source.flat) && Unambiguous(source.flat)
    requires env.allowTranslate || NoTies(env, source.flat)
    requires opts.write && !opts.checkOnly
    requires ReplyFits(env, disk, source, reply) && Sync(env, opts, now, disk, source, reply).Done?
    ensures var first := Sync(env, opts, now, disk, source, reply);
            && PlanOf(env, first.disk, source).pending == []
            && Sync(env, opts2, now2, first.disk, source, reply2) == Done(false, first.fallbackCount, false, first.disk)
  {
    var w := MergedOf(env, now, opts.force, disk, source, reply);
    var disk2 := Expected(env, now, disk, source, w);
    FirstRun(env, opts, now, disk, source, reply);
    NextPlan(env, opts, now, disk, source, reply);
    ExpectedAgain(env, now, disk, source, w, now2, PlanOf(env, disk2, source));
  }

  // ---------------------------------------------------------------- exactly when

  /** If the first run finishes and may write, the second finds nothing to change. */
  ghost predicate SettlesFrom(env: Env, source: Source, opts: Options, now: string, disk: Disk, reply: Reply,
                              opts2: Options, now2: string, reply2: Reply) {
    opts.write && !opts.checkOnly && ReplyFits(env, disk, source, reply) && Sync(env, opts, now, disk, source, reply).Done? ==>
      var first := Sync(env, opts, now, disk, source, reply);
      Sync(env, opts2, now2, first.disk, source, reply2) == Done(false, first.fallbackCount, false, first.disk)
  }

  /** From every disk, the run after a successful writing run finds nothing to change. */
  ghost predicate ReachesFixpoint(env: Env, source: Source) {
    forall opts: Options, now: string, disk: Disk, reply: Reply, opts2: Options, now2: string, reply2: Reply ::
      SettlesFrom(env, source, opts, now, disk, reply, opts2, now2, reply2)
  }

  /** A locale file that holds every source text as one flat property per key. */
  function FlatForest(source: OrderedMap<string>): Forest {
    if source == [] then Nil else Cons(source[0].0, Text(source[0].1), FlatForest(source[1..]))
  }

  lemma {:induction false} FlattenFlat(source: OrderedMap<string>, out: OrderedMap<string>, i: nat)
    requires Distinct(source) && i < |source|
    ensures Get(FlattenInto(FlatForest(source), "", out), source[i].0) == Some(source[i].1)
  {
    var (k, t) := source[0];
    if i > 0 {
      FlattenFlat(source[1..], Put(out, k, t), i - 1);
    } else {
      FlattenAbsent(source[1..], Put(out, k, t), k);
    }
  }

  lemma {:induction false} FlattenAbsent(source: OrderedMap<string>, out: OrderedMap<string>, k: string)
    requires k !in Keys(source)
    ensures Get(FlattenInto(FlatForest(source), "", out), k) == Get(out, k)
  {
    if source != [] {
      KeysCons(source);
      FlattenAbsent(source[1..], Put(out, source[0].0, source[0].1), k);
    }
  }

  const WRITE: Options := Options(false, false, true)

  /** A disk with untracked translations, equal to the English texts, and no memory. */
  function FlatDisk(source: OrderedMap<string>): Disk {
    Disk(Some(Doc(FlatForest(source), false)), None, None, Doc([], true))
  }

  /** From the flat disk every key is kept, and nothing is recorded. */
  lemma FlatPlan(env: Env, source: Source)
    requires ValidEnv(env) && Distinct(source.flat)
    ensures var p := PlanOf(env, FlatDisk(source.flat), source);
            && p.pending == [] && p.tm == [] && p.fallback == []
            && forall i :: 0 <= i < |source.flat| ==>
                 source.flat[i].0 in p.next && p.next[source.flat[i].0] == source.flat[i].1
  {
    var disk := FlatDisk(source.flat);
    var b := BasisOf(env, disk);
    forall i | 0 <= i < |source.flat|
      ensures Choose(env, b, None, source.flat[i].0, source.flat[i].1) == FromLocale(source.flat[i].1, false)
    {
      FlattenFlat(source.flat, [], i);
    }
    PlanQuiet(env, b, [], source.flat);
    PlanDecides(env, b, [], source.flat);
    var p := Plan(env, b, [], source.flat);
    forall i | 0 <= i < |source.flat|
      ensures source.flat[i].0 in p.next && p.next[source.flat[i].0] == source.flat[i].1
      ensures source.flat[i].0 !in p.fallback
    {
      assert Decided(env, b, [], p, source.flat[i].0, source.flat[i].1);
    }
    NoneLeft(source.flat, p.fallback);
  }

  lemma NoneLeft(source: OrderedMap<string>, keys: seq<string>)
    requires forall k :: k in keys ==> k in Keys(source)
    requires forall i :: 0 <= i < |source| ==> source[i].0 !in keys
    ensures keys == []
  {
    assert keys != [] ==> keys[0] in Keys(source);
  }

  lemma FlatFirstRun(env: Env, source: Source)
    requires ValidEnv(env) && Distinct(source.flat) && forall t :: env.samePlaceholders(t, t)
    ensures var r := Sync(env, WRITE, "", FlatDisk(source.flat), source, Broken);
            && r.Done? && r.fallbackCount == 0
            && r.disk.locale == Some(Doc(Rebuild(source.flat), true))
            && r.disk.meta.Some? && r.disk.meta.value.value.fallbackKeys == []
            && r.disk.memory.value == []
  {
    var disk := FlatDisk(source.flat);
    var p := PlanOf(env, disk, source);
    FlatPlan(env, source);
    assert Texts(source.flat, p.next) == source.flat;
    assert SortedFallback(env, p.fallback) == [];
    assert Render(p.tm, env.le) == [];
    assert PlaceholdersMatch(env, source.flat, p.next);
    assert Sync(env, WRITE, "", disk, source, Broken) == Finish(env, WRITE, "", disk, source, p);
  }

  /** A key that the written locale loses is open again in the second run. */
  lemma LostKeyReopens(env: Env, source: Source, disk: Disk, k: string)
    requires ValidEnv(env) && Distinct(source.flat) && k in Keys(source.flat)
    requires disk.locale.Some? && Get(Flatten(disk.locale.value.value), k).None?
    requires disk.memory.value == []
    ensures PlanOf(env, disk, source).pending != []
    ensures !env.allowTranslate ==> k in Settle(false, BasisOf(env, disk), PlanOf(env, disk, source), PlanOf(env, disk, source).pending).fallback
  {
    var i :| 0 <= i < |source.flat| && source.flat[i].0 == k;
    LostKeyPending(env, BasisOf(env, disk), source.flat, i);
  }

  lemma LostKeyPending(env: Env, b: Basis, source: OrderedMap<string>, i: nat)
    requires ValidEnv(env) && Distinct(source) && i < |source| && Get(b.existing, source[i].0).None?
    requires b.byText == ByTextHash([], env.locale)
    ensures Plan(env, b, [], source).pending != []
    ensures !env.allowTranslate ==> source[i].0 in Settle(false, b, Plan(env, b, [], source), Plan(env, b, [], source).pending).fallback
  {
    PlanDecides(env, b, [], source);
    var p := Plan(env, b, [], source);
    assert Decided(env, b, [], p, source[i].0, source[i].1);
    assert ItemFor(env, source[i].0, source[i].1) in p.pending;
    if !env.allowTranslate {
      MergedSlots(env, "", map[], false, b, [], source, i);
    }
  }

  lemma ReopenedIsNoFixpoint(env: Env, source: Source, disk: Disk, k: string)
    requires PlanOf(env, disk, source).pending != []
    requires !env.allowTranslate ==> k in Settle(false, BasisOf(env, disk), PlanOf(env, disk, source), PlanOf(env, disk, source).pending).fallback
    requires disk.meta.Some? && disk.meta.value.value.fallbackKeys == []
    ensures Sync(env, WRITE, "", disk, source, Broken) != Done(false, 0, false, disk)
  {
    if !env.allowTranslate {
      var p := PlanOf(env, disk, source);
      var w := Settle(false, BasisOf(env, disk), p, p.pending);
      SortedFallbackSet(env, w.fallback);
      assert k in SortedFallback(env, w.fallback);
      assert |SortedFallback(env, w.fallback)| > 0;
    }
  }

  /** Every ambiguous source has a disk on which the second run still asks or changes something. */
  lemma AmbiguousSecondRunNotQuiet(env: Env, source: Source)
    requires ValidEnv(env) && Distinct(source.flat) && forall t :: env.samePlaceholders(t, t)
    requires !Unambiguous(source.flat)
    ensures var first := Sync(env, WRITE, "", FlatDisk(source.flat), source, Broken);
            && first.Done? && first.fallbackCount == 0
            && Sync(env, WRITE, "", first.disk, source, Broken) != Done(false, 0, false, first.disk)
  {
    FlatFirstRun(env, source);
    var first := Sync(env, WRITE, "", FlatDisk(source.flat), source, Broken);
    var k := AmbiguousLosesKey(source.flat);
    LostKeyReopens(env, source, first.disk, k);
    ReopenedIsNoFixpoint(env, source, first.disk, k);
  }

  // ---------------------------------------------------------------- keys that collate equal

  function Without(source: OrderedMap<string>, i: nat): OrderedMap<string>
    requires i < |source|
  {
    source[..i] + source[i + 1..]
  }

  /** A disk that lacks key `i`, holds the English text of every other key, and lists key `j` as a fallback. */
  function TiedDisk(source: OrderedMap<string>, i: nat, j: nat): Disk
    requires i < |source| && j < |source|
  {
    Disk(Some(Doc(FlatForest(Without(source, i)), false)),
         Some(Doc(Meta([source[j].0], "", "", "", "", "", 0, 0, 0), true)), None, Doc([], true))
  }

  /** Every key is kept from the locale file, `i` and `j` as fallbacks, except that `i` may be open instead. */
  ghost predicate KeptBut(env: Env, b: Basis, source: OrderedMap<string>, i: nat, j: nat, open: bool) {
    forall m :: 0 <= m < |source| ==> KeptAt(env, b, source, i, j, open, m)
  }

  ghost predicate KeptAt(env: Env, b: Basis, source: OrderedMap<string>, i: nat, j: nat, open: bool, m: nat)
    requires m < |source|
  {
    Choose(env, b, None, source[m].0, source[m].1) ==
    if m == i && open then Untranslated else FromLocale(source[m].1, m == i || m == j)
  }

  /** The plan after the first `n` keys. */
  function PlanTo(env: Env, b: Basis, source: OrderedMap<string>, n: nat): Work
    requires n <= |source|
  {
    Plan(env, b, [], source[..n])
  }

  /** What one more key does to it. */
  ghost function Keep(env: Env, source: OrderedMap<string>, i: nat, j: nat, open: bool, n: nat, p: Work): Work
    requires n < |source|
  {
    var (key, text) := source[n];
    if n == i && open then p.(pending := p.pending + [ItemFor(env, key, text)])
    else p.(next := p.next[key := text], fallback := if n == i || n == j then p.fallback + [key] else p.fallback)
  }

  lemma {:induction false} KeptMore(env: Env, b: Basis, source: OrderedMap<string>, i: nat, j: nat, open: bool, n: nat)
    requires n < |source| && KeptBut(env, b, source, i, j, open)
    ensures PlanTo(env, b, source, n).tm == []
    ensures PlanTo(env, b, source, n + 1) == Keep(env, source, i, j, open, n, PlanTo(env, b, source, n))
  {
    assert source[..n + 1][..n] == source[..n];
    if n > 0 {
      KeptMore(env, b, source, i, j, open, n - 1);
    } else {
      assert source[..n] == [];
    }
    assert KeptAt(env, b, source, i, j, open, n);
    assert Get(PlanTo(env, b, source, n).tm, CacheKey(env, source[n].0, source[n].1)) == None;
  }

  /** The fallbacks among the first `n` keys, in source order. */
  ghost function Listed(source: OrderedMap<string>, i: nat, j: nat, open: bool, n: nat): seq<string>
    requires i < j < |source| && n <= |source|
  {
    if n > j then (if open then [source[j].0] else [source[i].0, source[j].0])
    else if n > i && !open then [source[i].0] else []
  }

  lemma KeepListed(env: Env, source: OrderedMap<string>, i: nat, j: nat, open: bool, n: nat, p: Work, q: Work)
    requires i < j < |source| && n < |source|
    requires p.fallback == Listed(source, i, j, open, n) && q == Keep(env, source, i, j, open, n, p)
    ensures q.fallback == Listed(source, i, j, open, n + 1)
  {
    if n == j {
      assert p.fallback == if open then [] else [source[i].0];
    }
  }

  lemma KeptFallback(env: Env, b: Basis, source: OrderedMap<string>, i: nat, j: nat, open: bool, n: nat)
    requires i < j < |source| && n <= |source| && KeptBut(env, b, source, i, j, open)
    ensures PlanTo(env, b, source, n).fallback == Listed(source, i, j, open, n)
  {
    NothingKept(env, b, source);
    for m := 0 to n
      invariant PlanTo(env, b, source, m).fallback == Listed(source, i, j, open, m)
    {
      FallbackMore(env, b, source, i, j, open, m);
    }
  }

  lemma NothingKept(env: Env, b: Basis, source: OrderedMap<string>)
    ensures PlanTo(env, b, source, 0).fallback == [] && PlanTo(env, b, source, 0).pending == []
  {
    assert source[..0] == [];
  }

  lemma FallbackMore(env: Env, b: Basis, source: OrderedMap<string>, i: nat, j: nat, open: bool, n: nat)
    requires i < j < |source| && n < |source| && KeptBut(env, b, source, i, j, open)
    requires PlanTo(env, b, source, n).fallback == Listed(source, i, j, open, n)
    ensures PlanTo(env, b, source, n + 1).fallback == Listed(source, i, j, open, n + 1)
  {
    KeptMore(env, b, source, i, j, open, n);
    KeepListed(env, source, i, j, open, n, PlanTo(env, b, source, n), PlanTo(env, b, source, n + 1));
  }

  lemma {:induction false} KeptPending(env: Env, b: Basis, source: OrderedMap<string>, i: nat, j: nat, open: bool, n: nat)
    requires i < j < |source| && n <= |source| && KeptBut(env, b, source, i, j, open)
    ensures PlanTo(env, b, source, n).pending == if n > i && open then [ItemFor(env, source[i].0, source[i].1)] else []
    decreases n
  {
    if n > 0 {
      KeptPending(env, b, source, i, j, open, n - 1);
      KeptMore(env, b, source, i, j, open, n - 1);
    } else {
      assert source[..n] == [];
    }
  }

  /** Every key but the open one has its English text. */
  ghost predicate TextsBut(source: OrderedMap<string>, i: nat, open: bool, next: map<string, string>)
    requires i < |source|
  {
    && (forall m :: 0 <= m < |source| && !(m == i && open) ==> source[m].0 in next && next[source[m].0] == source[m].1)
    && (open ==> source[i].0 !in next)
  }

  lemma KeptTexts(env: Env, b: Basis, source: OrderedMap<string>, i: nat, j: nat, open: bool)
    requires ValidEnv(env) && Distinct(source) && i < j < |source| && KeptBut(env, b, source, i, j, open)
    ensures TextsBut(source, i, open, Plan(env, b, [], source).next)
  {
    var p := Plan(env, b, [], source);
    PlanDecides(env, b, [], source);
    forall m | 0 <= m < |source|
      ensures m == i && open ==> source[m].0 !in p.next
      ensures !(m == i && open) ==> source[m].0 in p.next && p.next[source[m].0] == source[m].1
    {
      assert KeptAt(env, b, source, i, j, open, m);
      assert Decided(env, b, [], p, source[m].0, source[m].1);
    }
  }

  /** What is decided for all keys. */
  ghost predicate KeptWork(env: Env, source: OrderedMap<string>, i: nat, j: nat, open: bool, p: Work)
    requires i < j < |source|
  {
    && p.tm == []
    && p.pending == (if open then [ItemFor(env, source[i].0, source[i].1)] else [])
    && p.fallback == (if open then [source[j].0] else [source[i].0, source[j].0])
    && TextsBut(source, i, open, p.next)
  }

  lemma KeptAll(env: Env, source: Source, disk: Disk, i: nat, j: nat, open: bool)
    requires ValidEnv(env) && Distinct(source.flat) && i < j < |source.flat| && disk.memory.value == []
    requires KeptBut(env, BasisOf(env, disk), source.flat, i, j, open)
    ensures KeptWork(env, source.flat, i, j, open, PlanOf(env, disk, source))
  {
    var b, n := BasisOf(env, disk), |source.flat|;
    assert source.flat[..n] == source.flat;
    KeptMore(env, b, source.flat, i, j, open, n - 1);
    KeptFallback(env, b, source.flat, i, j, open, n);
    KeptPending(env, b, source.flat, i, j, open, n);
    KeptTexts(env, b, source.flat, i, j, open);
  }

  /** An open key without a text becomes a fallback. */
  lemma SettleOpen(b: Basis, w: Work, item: Item)
    requires item.key !in w.next && Get(b.existing, item.key).None?
    ensures Settle(false, b, w, [item]) == w.(next := w.next[item.key := item.text], fallback := w.fallback + [item.key])
  {
    assert [item][..0] == [];
  }

  lemma WithoutShape(source: OrderedMap<string>, i: nat)
    requires Distinct(source) && i < |source|
    ensures Distinct(Without(source, i)) && source[i].0 !in Keys(Without(source, i))
  {
  }

  /** The texts that are left. */
  lemma LeftTexts(source: OrderedMap<string>, i: nat, m: nat)
    requires Distinct(source) && i < |source| && m < |source|
    ensures Get(Flatten(FlatForest(Without(source, i))), source[m].0) == if m == i then None else Some(source[m].1)
  {
    var rest := Without(source, i);
    WithoutShape(source, i);
    if m == i {
      FlattenAbsent(rest, [], source[i].0);
    } else {
      var n := if m < i then m else m - 1;
      assert rest[n] == source[m];
      FlattenFlat(rest, [], n);
    }
  }

  /** A key is kept when the locale file has its text, and open when it has none. */
  lemma KeptFrom(env: Env, b: Basis, source: OrderedMap<string>, i: nat, j: nat, open: bool, m: nat)
    requires m < |source| && !env.allowTranslate && b.byText == map[]
    requires Get(b.existing, source[m].0) == if m == i && open then None else Some(source[m].1)
    requires (m == i && open) || (source[m].0 in b.refresh <==> m == i || m == j)
    ensures KeptAt(env, b, source, i, j, open, m)
  {
  }

  /** What the tied disk holds. */
  lemma TiedBasis(env: Env, source: Source, i: nat, j: nat)
    requires Distinct(source.flat) && !env.allowTranslate && i < j < |source.flat|
    ensures KeptBut(env, BasisOf(env, TiedDisk(source.flat, i, j)), source.flat, i, j, true)
  {
    var b := BasisOf(env, TiedDisk(source.flat, i, j));
    forall m | 0 <= m < |source.flat|
      ensures KeptAt(env, b, source.flat, i, j, true, m)
    {
      LeftTexts(source.flat, i, m);
      KeptFrom(env, b, source.flat, i, j, true, m);
    }
  }

  /** The English texts are kept, and `keys` are the fallbacks. */
  ghost predicate AllKept(source: OrderedMap<string>, w: Work, keys: seq<string>) {
    && (forall m :: 0 <= m < |source| ==> source[m].0 in w.next && w.next[source[m].0] == source[m].1)
    && w.tm == [] && w.fallback == keys
  }

  /** The files of such a run. */
  ghost predicate Written(source: OrderedMap<string>, disk: Disk, keys: seq<string>) {
    && disk.locale == Some(Doc(Rebuild(source), true)) && disk.memory.value == []
    && disk.meta.Some? && disk.meta.value.value.fallbackKeys == keys
  }

  lemma KeptWritten(env: Env, source: Source, disk: Disk, w: Work, keys: seq<string>)
    requires forall t :: env.samePlaceholders(t, t)
    requires AllKept(source.flat, w, keys) && SortedFallback(env, keys) == keys
    ensures Finish(env, WRITE, "", disk, source, w).Done? && Written(source.flat, Finish(env, WRITE, "", disk, source, w).disk, keys)
  {
    TextsKept(source.flat, w.next);
    assert PlaceholdersMatch(env, source.flat, w.next);
    assert Written(source.flat, Expected(env, "", disk, source, w), keys);
  }

  /** The first run appends key `i`, now a fallback, behind key `j`. */
  lemma TiedFirstRun(env: Env, source: Source, i: nat, j: nat)
    requires ValidEnv(env) && Distinct(source.flat) && !env.allowTranslate && forall t :: env.samePlaceholders(t, t)
    requires i < j < |source.flat| && Tied(env, source.flat[i].0, source.flat[j].0)
    ensures var r := Sync(env, WRITE, "", TiedDisk(source.flat, i, j), source, Broken);
            r.Done? && Written(source.flat, r.disk, [source.flat[j].0, source.flat[i].0])
  {
    var disk := TiedDisk(source.flat, i, j);
    TiedBasis(env, source, i, j);
    KeptAll(env, source, disk, i, j, true);
    var p := PlanOf(env, disk, source);
    var w := Settle(false, BasisOf(env, disk), p, p.pending);
    TiedSettled(env, source, i, j, BasisOf(env, disk), p);
    TwoSorted(env, source.flat[j].0, source.flat[i].0);
    KeptWritten(env, source, disk, w, [source.flat[j].0, source.flat[i].0]);
  }

  lemma TiedSettled(env: Env, source: Source, i: nat, j: nat, b: Basis, p: Work)
    requires Distinct(source.flat) && !env.allowTranslate && i < j < |source.flat|
    requires KeptBut(env, b, source.flat, i, j, true) && KeptWork(env, source.flat, i, j, true, p)
    ensures AllKept(source.flat, Settle(false, b, p, p.pending), [source.flat[j].0, source.flat[i].0])
  {
    var (key, text) := source.flat[i];
    assert KeptAt(env, b, source.flat, i, j, true, i);
    SettleOpen(b, p, ItemFor(env, key, text));
  }

  lemma TextsKept(source: OrderedMap<string>, next: map<string, string>)
    requires forall m :: 0 <= m < |source| ==> source[m].0 in next && next[source[m].0] == source[m].1
    ensures Texts(source, next) == source
  {
  }

  /** Two tied keys stay in the order in which they were listed. */
  lemma TwoSorted(env: Env, a: string, b: string)
    requires a != b && env.le(a, b)
    ensures SortedFallback(env, [a, b]) == [a, b]
  {
    var keys := [a, b];
    assert keys[..1] == [a] && [a][..0] == [];
    assert Dedupe([]) == [] && Dedupe([a]) == [a];
    assert Dedupe(keys) == [a] + [b];
    assert keys[1..] == [b] && [b][1..] == [];
    assert Sort([b], env.le) == [b];
  }

  /** The second run lists both fallbacks in source order. */
  lemma TiedSecondRun(env: Env, source: Source, i: nat, j: nat, disk: Disk)
    requires ValidEnv(env) && Distinct(source.flat) && Unambiguous(source.flat) && !env.allowTranslate
    requires i < j < |source.flat| && Tied(env, source.flat[i].0, source.flat[j].0)
    requires Written(source.flat, disk, [source.flat[j].0, source.flat[i].0])
    ensures var r := Sync(env, WRITE, "", disk, source, Broken);
            r.Done? ==> r.changed
  {
    WrittenBasis(env, source, i, j, disk);
    KeptAll(env, source, disk, i, j, false);
    TwoSorted(env, source.flat[i].0, source.flat[j].0);
    ReorderedIsChange(env, source, disk, PlanOf(env, disk, source));
  }

  lemma WrittenBasis(env: Env, source: Source, i: nat, j: nat, disk: Disk)
    requires Distinct(source.flat) && Unambiguous(source.flat) && !env.allowTranslate && i < j < |source.flat|
    requires Written(source.flat, disk, [source.flat[j].0, source.flat[i].0])
    ensures KeptBut(env, BasisOf(env, disk), source.flat, i, j, false)
  {
    var b := BasisOf(env, disk);
    forall m | 0 <= m < |source.flat|
      ensures KeptAt(env, b, source.flat, i, j, false, m)
    {
      FlattenRebuild(source.flat, source.flat[m].0);
      GetAt(source.flat, m);
      KeptFrom(env, b, source.flat, i, j, false, m);
    }
  }

  lemma ReorderedIsChange(env: Env, source: Source, disk: Disk, w: Work)
    requires disk.meta.Some? && disk.meta.value.value.fallbackKeys != SortedFallback(env, w.fallback)
    ensures var r := Finish(env, WRITE, "", disk, source, w);
            r.Done? ==> r.changed
  {
    assert Expected(env, "", disk, source, w).meta.value.value.fallbackKeys == SortedFallback(env, w.fallback);
  }

  /**
   * Without a provider, two source keys that collate equal have a disk from which two runs list them in
   * different orders, so that the second run changes the metadata.
   */
  lemma TiedSecondRunNotQuiet(env: Env, source: Source, i: nat, j: nat)
    requires ValidEnv(env) && Distinct(source.flat) && Unambiguous(source.flat) && forall t :: env.samePlaceholders(t, t)
    requires !env.allowTranslate && i < j < |source.flat| && Tied(env, source.flat[i].0, source.flat[j].0)
    ensures var first := Sync(env, WRITE, "", TiedDisk(source.flat, i, j), source, Broken);
            first.Done? && Sync(env, WRITE, "", first.disk, source, Broken) != Done(false, first.fallbackCount, false, first.disk)
  {
    TiedFirstRun(env, source, i, j);
    TiedSecondRun(env, source, i, j, Sync(env, WRITE, "", TiedDisk(source.flat, i, j), source, Broken).disk);
  }

  /**
   * The second run is guaranteed to change nothing exactly when the source keys are unambiguous and, without a
   * provider, no two of them collate equal.
   */
  lemma FixpointIff(env: Env, source: Source)
    requires ValidEnv(env) && TotalPreorder(env.le) && Distinct(source.flat) && forall t :: env.samePlaceholders(t, t)
    ensures ReachesFixpoint(env, source) <==>
            Unambiguous(source.flat) && (env.allowTranslate || NoTies(env, source.flat))
  {
    if !Unambiguous(source.flat) {
      AmbiguousSecondRunNotQuiet(env, source);
      Unreached(env, source, FlatDisk(source.flat));
    } else if !env.allowTranslate && !NoTies(env, source.flat) {
      var i, j :| 0 <= i < j < |source.flat| && Tied(env, source.flat[i].0, source.flat[j].0);
      TiedSecondRunNotQuiet(env, source, i, j);
      Unreached(env, source, TiedDisk(source.flat, i, j));
    } else {
      forall opts: Options, now: string, disk: Disk, reply: Reply, opts2: Options, now2: string, reply2: Reply
        | opts.write && !opts.checkOnly && ReplyFits(env, disk, source, reply) && Sync(env, opts, now, disk, source, reply).Done?
        ensures SettlesFrom(env, source, opts, now, disk, reply, opts2, now2, reply2)
      {
        SecondRunChangesNothing(env, opts, now, disk, source, reply, opts2, now2, reply2);
      }
    }
  }

  /** One disk whose second run is not quiet is enough. */
  lemma Unreached(env: Env, source: Source, disk: Disk)
    requires Sync(env, WRITE, "", disk, source, Broken).Done?
    requires var first := Sync(env, WRITE, "", disk, source, Broken);
             Sync(env, WRITE, "", first.disk, source, Broken) != Done(false, first.fallbackCount, false, first.disk)
    ensures !ReachesFixpoint(env, source)
  {
    assert !SettlesFrom(env, source, WRITE, "", disk, Broken, WRITE, "", Broken);
  }

  // ---------------------------------------------------------------- what a run leaves behind, from its inputs alone

  /** What the run reads from the disk. */
  ghost function ReadFrom(env: Env, disk: Disk): Basis {
    Basis(ByTextHash(Load(disk.memory.value), env.locale),
          if disk.locale.Some? then Flatten(disk.locale.value.value) else [],
          set k | disk.meta.Some? && k in disk.meta.value.value.fallbackKeys)
  }

  /** Every source key ends as the priority chain says, in the locale file, the metadata and the memory. */
  ghost predicate KeyWritten(env: Env, now: string, disk: Disk, reply: Reply, key: string, text: string, d: Disk)
    requires d.locale.Some? && d.meta.Some?
  {
    var final := Get(Flatten(d.locale.value.value), key);
    && final.Some?
    && Final(env, ReadFrom(env, disk), Load(disk.memory.value), AnswersOf(reply), now, key, text, final.value,
             key in d.meta.value.value.fallbackKeys, OwnEntry(env, Load(d.memory.value), key, text))
  }

  /** The metadata: its counts, the provider's name, and a new date only when something else in it changed. */
  ghost predicate MetaIs(env: Env, now: string, previous: Option<Meta>, source: Source, meta: Meta) {
    && meta.locale == env.locale && meta.sourceHash == source.hash && meta.workflow == 1
    && meta.totalKeys == |source.flat| && meta.translatedKeys == |source.flat| - |meta.fallbackKeys|
    && (env.allowTranslate ==> meta.provider == env.provider && meta.model == env.model)
    && (!env.allowTranslate && previous.Some? ==> meta.provider == previous.value.provider && meta.model == previous.value.model)
    && (!env.allowTranslate && previous.None? ==> meta.provider == "" && meta.model == "")
    && (if previous.Some? && previous.value == meta.(generatedAt := previous.value.generatedAt)
        then meta.generatedAt == previous.value.generatedAt else meta.generatedAt == now)
    && (forall i, j :: 0 <= i < j < |meta.fallbackKeys| ==>
          meta.fallbackKeys[i] != meta.fallbackKeys[j] && env.le(meta.fallbackKeys[i], meta.fallbackKeys[j]))
  }

  /** The glossary is kept unless it is missing or empty. */
  ghost predicate GlossaryIs(before: Option<Doc<seq<GlossaryEntry>>>, after: seq<GlossaryEntry>) {
    if before.Some? && before.value.value != [] then after == before.value.value else after == DEFAULT_GLOSSARY
  }

  /** The memory lines are in order, and an entry under a key of no source text is as it was. */
  ghost predicate MemoryIs(env: Env, source: Source, before: seq<TmEntry>, after: seq<TmEntry>) {
    && (forall i, j :: 0 <= i < j < |after| ==> env.le(after[i].cacheKey, after[j].cacheKey))
    && (forall c :: !Owns(env, source.flat, c) ==> Get(Load(after), c) == Get(Load(before), c))
  }

  /** All four files are there, and printed as the renderer prints them. */
  ghost predicate AllCanonical(d: Disk) {
    && d.locale.Some? && d.locale.value.canonical && d.meta.Some? && d.meta.value.canonical
    && d.glossary.Some? && d.glossary.value.canonical && d.memory.canonical
  }

  lemma NextMetaIs(env: Env, now: string, previous: Option<Meta>, source: Source, f: seq<string>)
    requires TotalPreorder(env.le)
    ensures MetaIs(env, now, previous, source, NextMeta(env, now, previous, source, SortedFallback(env, f)))
    ensures NextMeta(env, now, previous, source, SortedFallback(env, f)).fallbackKeys == SortedFallback(env, f)
  {
    SortSorts(Dedupe(f), env.le);
    var s := SortedFallback(env, f);
    forall i, j | 0 <= i < j < |s|
      ensures s[i] != s[j]
    {
      DistinctMultiset(Dedupe(f), s[i]);
      TwiceInMultiset(s, i, j);
    }
  }

  lemma TwiceInMultiset(s: seq<string>, i: nat, j: nat)
    requires i < j < |s| && multiset(s)[s[i]] <= 1
    ensures s[i] != s[j]
  {
    assert s == s[..j] + [s[j]] + s[j + 1..];
    assert s[i] == s[..j][i] && s[i] in s[..j];
    assert multiset(s) == multiset(s[..j]) + multiset([s[j]]) + multiset(s[j + 1..]);
  }

  /**
   * After a run that may write, every source key has its text, fallback mark and memory entry by the priority
   * chain; no other key has a text; metadata, glossary and the rest of the memory are as they should be.
   */
  lemma SyncWrites(env: Env, opts: Options, now: string, disk: Disk, source: Source, reply: Reply)
    requires ValidEnv(env) && TotalPreorder(env.le) && Distinct(source.flat) && Unambiguous(source.flat)
    requires opts.write && !opts.checkOnly
    requires ReplyFits(env, disk, source, reply) && Sync(env, opts, now, disk, source, reply).Done?
    ensures var d := Sync(env, opts, now, disk, source, reply).disk;
            && AllCanonical(d)
            && (forall i :: 0 <= i < |source.flat| ==> KeyWritten(env, now, disk, reply, source.flat[i].0, source.flat[i].1, d))
            && (forall k :: Get(Flatten(d.locale.value.value), k).Some? ==> k in Keys(source.flat))
            && MetaIs(env, now, if disk.meta.Some? then Some(disk.meta.value.value) else None, source, d.meta.value.value)
            && GlossaryIs(disk.glossary, d.glossary.value.value)
            && MemoryIs(env, source, disk.memory.value, d.memory.value)
  {
    var w := MergedOf(env, now, opts.force, disk, source, reply);
    FirstRun(env, opts, now, disk, source, reply);
    SyncFinishes(env, opts, now, disk, source, reply);
    forall i | 0 <= i < |source.flat|
      ensures KeyWritten(env, now, disk, reply, source.flat[i].0, source.flat[i].1, Expected(env, now, disk, source, w))
    {
      KeyIsWritten(env, opts.force, now, disk, source, reply, i);
    }
    LocaleKeys(env, now, disk, source, w);
    NextMetaIs(env, now, if disk.meta.Some? then Some(disk.meta.value.value) else None, source, w.fallback);
    MemoryWritten(env, opts.force, now, disk, source, reply);
  }

  lemma LocaleKeys(env: Env, now: string, disk: Disk, source: Source, w: Work)
    requires Distinct(source.flat) && Unambiguous(source.flat)
    ensures forall k :: Get(Flatten(Expected(env, now, disk, source, w).locale.value.value), k).Some? ==> k in Keys(source.flat)
  {
    TextsShape(source.flat, w.next);
    var t := Texts(source.flat, w.next);
    forall k | Get(Flatten(Rebuild(t)), k).Some?
      ensures k in Keys(source.flat)
    {
      FlattenRebuild(t, k);
      var i := GetIndex(t, k);
      assert source.flat[i].0 == k;
    }
  }

  lemma KeyIsWritten(env: Env, force: bool, now: string, disk: Disk, source: Source, reply: Reply, i: nat)
    requires ValidEnv(env) && Distinct(source.flat) && Unambiguous(source.flat) && i < |source.flat|
    requires Answered(env, BasisOf(env, disk), Load(disk.memory.value), source.flat, AnswersOf(reply))
    ensures var w := MergedOf(env, now, force, disk, source, reply);
            KeyWritten(env, now, disk, reply, source.flat[i].0, source.flat[i].1, Expected(env, now, disk, source, w))
  {
    var b, tm := BasisOf(env, disk), Load(disk.memory.value);
    var w := MergedOf(env, now, force, disk, source, reply);
    var (key, text) := source.flat[i];
    MergedFollowsChain(env, now, AnswersOf(reply), force, b, tm, source.flat, i);
    BasisRead(env, disk);
    KeyRead(env, now, disk, source, w, i);
    EntryRead(env, force, now, disk, source, reply, env.cacheKey(key, env.hashText(text)));
  }

  lemma BasisRead(env: Env, disk: Disk)
    ensures BasisOf(env, disk) == ReadFrom(env, disk)
  {
    assert BasisOf(env, disk).refresh == ReadFrom(env, disk).refresh;
  }

  /** The written text and fallback mark of a key. */
  lemma KeyRead(env: Env, now: string, disk: Disk, source: Source, w: Work, i: nat)
    requires ValidEnv(env) && Distinct(source.flat) && Unambiguous(source.flat)
    requires i < |source.flat| && source.flat[i].0 in w.next
    ensures var d, key := Expected(env, now, disk, source, w), source.flat[i].0;
            && Get(Flatten(d.locale.value.value), key) == Some(w.next[key])
            && (key in d.meta.value.value.fallbackKeys <==> key in w.fallback)
  {
    assert source.flat[i].0 in Keys(source.flat);
    WrittenFollows(env, now, disk, source, w);
    SortedFallbackSet(env, w.fallback);
  }

  /** The written memory entry under a cache key. */
  lemma EntryRead(env: Env, force: bool, now: string, disk: Disk, source: Source, reply: Reply, c: string)
    requires ValidEnv(env) && Distinct(source.flat)
    requires Answered(env, BasisOf(env, disk), Load(disk.memory.value), source.flat, AnswersOf(reply))
    ensures var w := MergedOf(env, now, force, disk, source, reply);
            Get(Load(Render(w.tm, env.le)), c) == Get(w.tm, c)
  {
    LoadValid(disk.memory.value);
    MergedValid(env, now, AnswersOf(reply), force, BasisOf(env, disk), Load(disk.memory.value), source.flat);
    RenderLoad(MergedOf(env, now, force, disk, source, reply).tm, env.le, c);
  }

  lemma MemoryWritten(env: Env, force: bool, now: string, disk: Disk, source: Source, reply: Reply)
    requires ValidEnv(env) && TotalPreorder(env.le) && Distinct(source.flat)
    requires Answered(env, BasisOf(env, disk), Load(disk.memory.value), source.flat, AnswersOf(reply))
    ensures var w := MergedOf(env, now, force, disk, source, reply);
            MemoryIs(env, source, disk.memory.value, Render(w.tm, env.le))
  {
    var b, tm := BasisOf(env, disk), Load(disk.memory.value);
    var w := MergedOf(env, now, force, disk, source, reply);
    LoadValid(disk.memory.value);
    MergedValid(env, now, AnswersOf(reply), force, b, tm, source.flat);
    RenderOrdered(w.tm, env.le);
    forall c | !Owns(env, source.flat, c)
      ensures Get(Load(Render(w.tm, env.le)), c) == Get(tm, c)
    {
      RenderLoad(w.tm, env.le, c);
      MergedElsewhere(env, now, AnswersOf(reply), force, b, tm, source.flat, c);
    }
  }

  /** The result with some options, beside the result of the same run when it may write. */
  ghost predicate WritesAs(opts: Options, disk: Disk, r: Result, writing: Result) {
    && (writing.Done? <==> r.Done?)
    && (!writing.Done? ==> r == writing)
    && (writing.Done? ==>
          && (r.changed <==> writing.disk != disk)
          && (r.wrote <==> r.changed && opts.write && !opts.checkOnly)
          && r.disk == (if r.wrote then writing.disk else disk)
          && writing.disk.meta.Some?
          && r.fallbackCount == writing.fallbackCount == |writing.disk.meta.value.value.fallbackKeys|)
  }

  lemma FinishWritesAs(env: Env, opts: Options, now: string, disk: Disk, source: Source, w: Work)
    ensures WritesAs(opts, disk, Finish(env, opts, now, disk, source, w),
                     Finish(env, Options(false, opts.force, true), now, disk, source, w))
  {
    var expected := Expected(env, now, disk, source, w);
    var r, writing := Finish(env, opts, now, disk, source, w), Finish(env, Options(false, opts.force, true), now, disk, source, w);
    if !PlaceholdersMatch(env, source.flat, w.next) {
      assert r == writing == Threw;
    } else {
      var count := |SortedFallback(env, w.fallback)|;
      assert expected.meta.Some? && |expected.meta.value.value.fallbackKeys| == count;
      assert writing == Done(disk != expected, count, disk != expected, expected);
      var wrote := !opts.checkOnly && opts.write && disk != expected;
      assert r == Done(disk != expected, count, wrote, if wrote then expected else disk);
    }
  }

  /**
   * The options decide only whether a change is written: with a check, or without writing, the files stay as
   * they are and the same change is reported.
   */
  lemma OptionsDecideWriting(env: Env, opts: Options, now: string, disk: Disk, source: Source, reply: Reply)
    ensures WritesAs(opts, disk, Sync(env, opts, now, disk, source, reply),
                     Sync(env, Options(false, opts.force, true), now, disk, source, reply))
  {
    var p := PlanOf(env, disk, source);
    var b := BasisOf(env, disk);
    if env.allowTranslate && p.pending != [] {
      if reply.Translated? {
        FinishWritesAs(env, opts, now, disk, source, Merge(env, now, reply.answers, opts.force, b, p));
      }
    } else {
      FinishWritesAs(env, opts, now, disk, source, Settle(opts.force, b, p, p.pending));
    }
  }

  /** Some final text does not keep the placeholders of its source text. */
  ghost predicate LosesPlaceholders(env: Env, source: OrderedMap<string>, next: map<string, string>) {
    exists i :: 0 <= i < |source| && source[i].0 in next && !env.samePlaceholders(source[i].1, next[source[i].0])
  }

  /**
   * A run is skipped exactly when the provider's authorization failed and that is allowed; it throws exactly
   * when the provider failed otherwise, or some final text does not keep its placeholders.
   */
  lemma FailsIff(env: Env, opts: Options, now: string, disk: Disk, source: Source, reply: Reply)
    requires ValidEnv(env) && Distinct(source.flat) && ReplyFits(env, disk, source, reply)
    ensures var r := Sync(env, opts, now, disk, source, reply);
            var asks := env.allowTranslate && PlanOf(env, disk, source).pending != [];
            && (r.Skipped? <==> asks && reply.AuthSkipped?)
            && (r.Skipped? ==>
                  r.fallbackCount == if disk.meta.Some? then |disk.meta.value.value.fallbackKeys| else 0)
            && (r.Threw? <==>
                  || (asks && reply.Broken?)
                  || (!(asks && !reply.Translated?)
                      && LosesPlaceholders(env, source.flat, MergedOf(env, now, opts.force, disk, source, reply).next)))
  {
    var asks := env.allowTranslate && PlanOf(env, disk, source).pending != [];
    if !(asks && !reply.Translated?) {
      var w := MergedOf(env, now, opts.force, disk, source, reply);
      MergedKeys(env, now, AnswersOf(reply), opts.force, BasisOf(env, disk), Load(disk.memory.value), source.flat);
      FinishThrowsIff(env, opts, now, disk, source, w);
      assert Sync(env, opts, now, disk, source, reply) == Finish(env, opts, now, disk, source, w);
    }
  }

  lemma FinishThrowsIff(env: Env, opts: Options, now: string, disk: Disk, source: Source, w: Work)
    requires Keys(source.flat) <= w.next.Keys
    ensures Finish(env, opts, now, disk, source, w).Threw? <==> LosesPlaceholders(env, source.flat, w.next)
    ensures !Finish(env, opts, now, disk, source, w).Skipped?
  {
    assert forall i :: 0 <= i < |source.flat| ==> source.flat[i].0 in Keys(source.flat);
    assert PlaceholdersMatch(env, source.flat, w.next) <==> !LosesPlaceholders(env, source.flat, w.next);
  }

  // ---------------------------------------------------------------- fallback accounting and --force

  lemma ProviderLeavesNoFallback(env: Env, now: string, answers: map<string, string>, force: bool, b: Basis, tm: Tm, source: OrderedMap<string>)
    requires ValidEnv(env) && Distinct(source) && Answered(env, b, tm, source, answers) && env.allowTranslate
    ensures Merged(env, now, answers, force, b, tm, source).fallback == []
  {
    var w := Merged(env, now, answers, force, b, tm, source);
    MergedKeys(env, now, answers, force, b, tm, source);
    forall i | 0 <= i < |source|
      ensures source[i].0 !in w.fallback
    {
      MergedSlots(env, now, answers, force, b, tm, source, i);
    }
    NoneLeft(source, w.fallback);
  }

  /**
   * Every fallback key is a source key counted once, so translated and fallback keys add up to all keys;
   * a run with a provider that answered leaves no fallback key.
   */
  lemma FallbackAccounting(env: Env, opts: Options, now: string, disk: Disk, source: Source, reply: Reply)
    requires ValidEnv(env) && Distinct(source.flat)
    requires ReplyFits(env, disk, source, reply) && Sync(env, opts, now, disk, source, reply).Done?
    ensures Sync(env, opts, now, disk, source, reply).fallbackCount <= |source.flat|
    ensures env.allowTranslate ==> Sync(env, opts, now, disk, source, reply).fallbackCount == 0
  {
    SyncFinishes(env, opts, now, disk, source, reply);
    var b, tm := BasisOf(env, disk), Load(disk.memory.value);
    var w := MergedOf(env, now, opts.force, disk, source, reply);
    MergedKeys(env, now, AnswersOf(reply), opts.force, b, tm, source.flat);
    DedupeSize(w.fallback, Keys(source.flat));
    KeysSize(source.flat);
    if env.allowTranslate {
      ProviderLeavesNoFallback(env, now, AnswersOf(reply), opts.force, b, tm, source.flat);
    }
  }

  /** The written counts add up: every fallback key is a source key, named once, and the other keys are translated. */
  lemma WrittenCounts(env: Env, opts: Options, now: string, disk: Disk, source: Source, reply: Reply)
    requires ValidEnv(env) && Distinct(source.flat) && opts.write && !opts.checkOnly
    requires ReplyFits(env, disk, source, reply) && Sync(env, opts, now, disk, source, reply).Done?
    ensures Sync(env, opts, now, disk, source, reply).disk.meta.Some?
    ensures var meta := Sync(env, opts, now, disk, source, reply).disk.meta.value.value;
            && meta.translatedKeys + |meta.fallbackKeys| == meta.totalKeys == |source.flat| && meta.translatedKeys >= 0
            && (forall k :: k in meta.fallbackKeys ==> k in Keys(source.flat))
            && (env.allowTranslate ==> meta.fallbackKeys == [])
  {
    var w := MergedOf(env, now, opts.force, disk, source, reply);
    FirstRun(env, opts, now, disk, source, reply);
    FallbackAccounting(env, opts, now, disk, source, reply);
    SyncFinishes(env, opts, now, disk, source, reply);
    MergedKeys(env, now, AnswersOf(reply), opts.force, BasisOf(env, disk), Load(disk.memory.value), source.flat);
    SortedFallbackSet(env, w.fallback);
  }

  lemma {:induction false} KeysSize<V>(m: OrderedMap<V>)
    ensures |Keys(m)| <= |m|
  {
    if m != [] {
      KeysCons(m);
      KeysSize(m[1..]);
      assert |Keys(m)| <= |Keys(m[1..])| + 1;
    }
  }

  /** After the translation phase, an item still without a text has no existing text either. */
  lemma OpenHasNoText(env: Env, now: string, answers: map<string, string>, b: Basis, tm: Tm, source: OrderedMap<string>, j: nat)
    requires ValidEnv(env) && Distinct(source) && Answered(env, b, tm, source, answers)
    requires j < |Plan(env, b, tm, source).pending|
    ensures var p := Plan(env, b, tm, source);
            var w := if env.allowTranslate then Record(env, now, answers, p, p.pending) else p;
            p.pending[j].key in w.next || Get(b.existing, p.pending[j].key).None?
  {
    PlanDecides(env, b, tm, source);
    var p := Plan(env, b, tm, source);
    var i :| 0 <= i < |source| && p.pending[j] == ItemFor(env, source[i].0, source[i].1) && Open(env, b, tm, source[i].0, source[i].1);
    OpenAtHasNoText(env, now, answers, b, tm, source, j, i);
  }

  lemma OpenAtHasNoText(env: Env, now: string, answers: map<string, string>, b: Basis, tm: Tm, source: OrderedMap<string>, j: nat, i: nat)
    requires ValidEnv(env) && Distinct(source) && Answered(env, b, tm, source, answers)
    requires Planned(env, b, tm, source, Plan(env, b, tm, source))
    requires j < |Plan(env, b, tm, source).pending| && i < |source|
    requires Plan(env, b, tm, source).pending[j] == ItemFor(env, source[i].0, source[i].1)
    requires Open(env, b, tm, source[i].0, source[i].1)
    ensures var p := Plan(env, b, tm, source);
            var w := if env.allowTranslate then Record(env, now, answers, p, p.pending) else p;
            p.pending[j].key in w.next || Get(b.existing, p.pending[j].key).None?
  {
    if env.allowTranslate {
      var p := Plan(env, b, tm, source);
      PendingItems(env, b, tm, source, p.pending, source[i].0, source[i].1);
      RecordStores(env, now, answers, p, p.pending, source[i].0, source[i].1);
    }
  }

  lemma MergeIgnoresForce(env: Env, now: string, answers: map<string, string>, b: Basis, tm: Tm, source: OrderedMap<string>)
    requires ValidEnv(env) && Distinct(source) && Answered(env, b, tm, source, answers)
    ensures Merged(env, now, answers, true, b, tm, source) == Merged(env, now, answers, false, b, tm, source)
  {
    var p := Plan(env, b, tm, source);
    var w := if env.allowTranslate then Record(env, now, answers, p, p.pending) else p;
    forall j | 0 <= j < |p.pending|
      ensures p.pending[j].key in w.next || Get(b.existing, p.pending[j].key).None?
    {
      OpenHasNoText(env, now, answers, b, tm, source, j);
    }
    SettleIgnoresForce(b, w, p.pending);
  }

  /** `--force` has no effect on the result of a sync. */
  lemma ForceHasNoEffect(env: Env, opts: Options, now: string, disk: Disk, source: Source, reply: Reply)
    requires ValidEnv(env) && Distinct(source.flat) && ReplyFits(env, disk, source, reply)
    ensures Sync(env, opts.(force := true), now, disk, source, reply) == Sync(env, opts.(force := false), now, disk, source, reply)
  {
    if !(env.allowTranslate && PlanOf(env, disk, source).pending != []) || reply.Translated? {
      MergeIgnoresForce(env, now, AnswersOf(reply), BasisOf(env, disk), Load(disk.memory.value), source.flat);
      var w := MergedOf(env, now, false, disk, source, reply);
      assert Finish(env, opts.(force := true), now, disk, source, w) == Finish(env, opts.(force := false), now, disk, source, w);
    }
  }
}
