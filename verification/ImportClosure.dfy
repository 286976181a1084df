/** `collectInstalledPluginSdkZodArtifactErrors`: a worklist over the relative imports of one installed artifact. */
module ImportClosure {
  import opened Common

  const MAX_INSTALLED_ROOT_DIST_JS_BYTES: nat := 6 * 1024 * 1024

  /** What the import extractor makes of a file. */
  datatype Source = Unparsable | Parsed(specifiers: seq<string>)

  datatype FileInfo = FileInfo(isFile: bool, size: nat, source: Source)

  /** `node:path`, as far as it is used. */
  datatype Paths = Paths(
    join: (string, string) -> string,
    dirname: string -> string,
    relative: (string, string) -> string,
    isAbsolute: string -> bool)

  /** An installed package: its root, and the paths that exist. */
  datatype Package = Package(root: string, disk: map<string, FileInfo>, paths: Paths) {
    function DistRoot(): string { paths.join(root, "dist") }

    function Entry(): string { paths.join(root, "dist/plugin-sdk/zod.js") }

    /** The path as error messages show it. */
    function Shown(file: string): string { Forward(paths.relative(root, file)) }
  }

  /** `replaceAll("\\", "/")` */
  function Forward(s: string): (r: string)
    ensures |r| == |s| && '\\' !in r
    ensures forall i :: 0 <= i < |s| && r[i] != s[i] ==> r[i] == '/'
    ensures forall i :: 0 <= i < |s| && r[i] != s[i] ==> s[i] == '\\'
  {
    seq(|s|, i requires 0 <= i < |s| => if s[i] == '\\' then '/' else s[i])
  }

  datatype Error =
    | MissingArtifact
    | InvalidArtifact(shown: string)
    | UnparsableArtifact(shown: string)
    | NotSelfContained(shown: string, specifier: string)

  // ---------------------------------------------------------------- resolution

  function Candidates(p: Package, importer: string, specifier: string): seq<string> {
    var candidate := p.paths.join(p.paths.dirname(importer), specifier);
    [candidate, candidate + ".js", candidate + ".mjs", candidate + ".cjs",
     p.paths.join(candidate, "index.js"), p.paths.join(candidate, "index.mjs"), p.paths.join(candidate, "index.cjs")]
  }

  /** A path strictly inside the dist directory that exists. */
  predicate Inside(p: Package, path: string) {
    var relativePath := p.paths.relative(p.DistRoot(), path);
    && relativePath != "" && !(".." <= relativePath) && !p.paths.isAbsolute(relativePath)
    && path in p.disk
  }

  function FirstInside(p: Package, candidates: seq<string>): (r: Option<string>)
    ensures r.Some? ==> Inside(p, r.value) && r.value in candidates
    ensures r.None? <==> forall c :: c in candidates ==> !Inside(p, c)
  {
    if candidates == [] then None
    else if Inside(p, candidates[0]) then Some(candidates[0])
    else
      var r := FirstInside(p, candidates[1..]);
      assert forall c :: c in candidates <==> c == candidates[0] || c in candidates[1..];
      r
  }

  /** No candidate before the result is inside. */
  lemma {:induction false} FirstInsideIsFirst(p: Package, candidates: seq<string>) returns (i: nat)
    requires FirstInside(p, candidates).Some?
    ensures i < |candidates| && FirstInside(p, candidates) == Some(candidates[i])
    ensures forall j :: 0 <= j < i ==> !Inside(p, candidates[j])
  {
    if Inside(p, candidates[0]) {
      i := 0;
    } else {
      var k := FirstInsideIsFirst(p, candidates[1..]);
      i := k + 1;
      assert forall j :: 0 < j < i ==> candidates[j] == candidates[1..][j - 1];
    }
  }

  function Resolve(p: Package, importer: string, specifier: string): Option<string> {
    if specifier == "" || specifier[0] != '.' then None
    else FirstInside(p, Candidates(p, importer, specifier))
  }

  const EXTENSIONS: seq<string> := ["", ".js", ".mjs", ".cjs"]

  /** Candidate `k`: the path as written and with three extensions, then the three index files of that directory. */
  ghost function CandidateAt(p: Package, importer: string, specifier: string, k: nat): string
    requires k < 7
  {
    var path := p.paths.join(p.paths.dirname(importer), specifier);
    if k < 4 then path + EXTENSIONS[k] else p.paths.join(path, "index" + EXTENSIONS[k - 3])
  }

  /** The path exists strictly inside the package's `dist` directory. */
  ghost predicate ExistsInside(p: Package, path: string) {
    var relativePath := p.paths.relative(p.paths.join(p.root, "dist"), path);
    path in p.disk && relativePath != "" && !(".." <= relativePath) && !p.paths.isAbsolute(relativePath)
  }

  /** A relative specifier resolves to the first of its seven candidates that exists inside. */
  ghost predicate ResolvesTo(p: Package, importer: string, specifier: string, path: string) {
    && "." <= specifier
    && exists k: nat ::
         && k < 7 && path == CandidateAt(p, importer, specifier, k) && ExistsInside(p, path)
         && forall j: nat :: j < k ==> !ExistsInside(p, CandidateAt(p, importer, specifier, j))
  }

  lemma CandidatesAre(p: Package, importer: string, specifier: string)
    ensures var path := p.paths.join(p.paths.dirname(importer), specifier);
            |Candidates(p, importer, specifier)| == 7
            && forall k: nat :: k < 7 ==> Candidates(p, importer, specifier)[k] == CandidateAt(p, importer, specifier, k)
  {
    var path := p.paths.join(p.paths.dirname(importer), specifier);
    assert path + EXTENSIONS[0] == path;
    assert "index" + ".js" == "index.js" && "index" + ".mjs" == "index.mjs" && "index" + ".cjs" == "index.cjs";
  }

  lemma ResolveIff(p: Package, importer: string, specifier: string, path: string)
    ensures Resolve(p, importer, specifier) == Some(path) <==> ResolvesTo(p, importer, specifier, path)
  {
    var candidates := Candidates(p, importer, specifier);
    CandidatesAre(p, importer, specifier);
    if FirstInside(p, candidates).Some? {
      var i := FirstInsideIsFirst(p, candidates);
      assert ExistsInside(p, CandidateAt(p, importer, specifier, i));
      forall j: nat | j < i
        ensures !ExistsInside(p, CandidateAt(p, importer, specifier, j))
      {
        assert !Inside(p, candidates[j]);
      }
    }
    if ResolvesTo(p, importer, specifier, path) {
      assert path in candidates && Inside(p, path);
    }
  }

  method ResolveInstalledDistRelativeImport(p: Package, importer: string, specifier: string) returns (r: Option<string>)
    ensures r == Resolve(p, importer, specifier)
    ensures forall path :: r == Some(path) <==> ResolvesTo(p, importer, specifier, path)
  {
    forall path
      ensures Resolve(p, importer, specifier) == Some(path) <==> ResolvesTo(p, importer, specifier, path)
    {
      ResolveIff(p, importer, specifier, path);
    }
    if !("." <= specifier) {
      return None;
    }
    r := SearchCandidates(p, Candidates(p, importer, specifier));
  }

  /** The loop over the candidates. */
  method SearchCandidates(p: Package, candidates: seq<string>) returns (r: Option<string>)
    ensures r == FirstInside(p, candidates)
  {
    for i := 0 to |candidates|
      invariant FirstInside(p, candidates) == FirstInside(p, candidates[i..])
    {
      var relativePath := p.paths.relative(p.DistRoot(), candidates[i]);
      if relativePath == "" || ".." <= relativePath || p.paths.isAbsolute(relativePath) || candidates[i] !in p.disk {
        continue;
      }
      return Some(candidates[i]);
    }
    return None;
  }

  // ---------------------------------------------------------------- reachability

  /** A regular file of at most six megabytes. */
  ghost predicate Acceptable(info: FileInfo) { info.isFile && info.size <= 6 * 1024 * 1024 }

  /** The package `zod` or a path below it. */
  ghost predicate NamesZod(specifier: string) { specifier == "zod" || "zod/" <= specifier }

  /** Exists, is a regular file of acceptable size, parses, and does not import zod. */
  ghost predicate SelfContained(p: Package, file: string) {
    && file in p.disk && Acceptable(p.disk[file]) && p.disk[file].source.Parsed?
    && forall s :: s in p.disk[file].source.specifiers ==> !NamesZod(s)
  }

  ghost predicate NoZod(specifiers: seq<string>) {
    specifiers == [] || (NoZod(specifiers[..|specifiers| - 1]) && !NamesZod(specifiers[|specifiers| - 1]))
  }

  lemma {:induction false} NoZodAnywhere(specifiers: seq<string>)
    ensures NoZod(specifiers) <==> forall s :: s in specifiers ==> !NamesZod(s)
  {
    if specifiers != [] {
      NoZodAnywhere(specifiers[..|specifiers| - 1]);
      assert specifiers == specifiers[..|specifiers| - 1] + [specifiers[|specifiers| - 1]];
    }
  }

  /** The files that the specifiers resolve to, in order. */
  function Resolved(p: Package, importer: string, specifiers: seq<string>): seq<string> {
    if specifiers == [] then []
    else
      var n := |specifiers| - 1;
      var r := Resolve(p, importer, specifiers[n]);
      Resolved(p, importer, specifiers[..n]) + if r.Some? && r.value != "" then [r.value] else []
  }

  function Imports(p: Package, file: string): seq<string> {
    if file in p.disk && p.disk[file].source.Parsed? then Resolved(p, file, p.disk[file].source.specifiers) else []
  }

  ghost predicate Edge(p: Package, file: string, next: string) { next in Imports(p, file) }

  /** A file leads to exactly the files that its specifiers resolve to. */
  lemma EdgeIff(p: Package, file: string, next: string)
    ensures Edge(p, file, next) <==>
            && next != "" && file in p.disk && p.disk[file].source.Parsed?
            && exists s :: s in p.disk[file].source.specifiers && ResolvesTo(p, file, s, next)
  {
    if file in p.disk && p.disk[file].source.Parsed? {
      ResolvedIff(p, file, p.disk[file].source.specifiers, next);
    }
  }

  lemma {:induction false} ResolvedIff(p: Package, importer: string, specifiers: seq<string>, next: string)
    ensures next in Resolved(p, importer, specifiers) <==>
            next != "" && exists s :: s in specifiers && ResolvesTo(p, importer, s, next)
  {
    if specifiers != [] {
      var init, last := specifiers[..|specifiers| - 1], specifiers[|specifiers| - 1];
      assert specifiers == init + [last];
      ResolvedIff(p, importer, init, next);
      ResolveIff(p, importer, last, next);
    }
  }

  /** A chain of imports from the entry. */
  datatype Route = Start | Via(route: Route, file: string)

  ghost function End(p: Package, route: Route): string {
    if route.Start? then p.paths.join(p.root, "dist/plugin-sdk/zod.js") else route.file
  }

  ghost predicate Chain(p: Package, route: Route) {
    match route
    case Start => p.Entry() != ""
    case Via(shorter, file) => Chain(p, shorter) && Edge(p, End(p, shorter), file)
  }

  ghost predicate Reachable(p: Package, file: string) {
    exists route :: Chain(p, route) && End(p, route) == file
  }

  lemma ReachEntry(p: Package)
    requires p.Entry() != ""
    ensures Reachable(p, p.Entry())
  {
    assert Chain(p, Start) && End(p, Start) == p.Entry();
  }

  lemma ReachStep(p: Package, file: string, next: string)
    requires Reachable(p, file) && Edge(p, file, next)
    ensures Reachable(p, next)
  {
    var route :| Chain(p, route) && End(p, route) == file;
    assert Chain(p, Via(route, next)) && End(p, Via(route, next)) == next;
  }

  lemma {:induction false} ResolvedExist(p: Package, importer: string, specifiers: seq<string>, file: string)
    requires file in Resolved(p, importer, specifiers)
    ensures file != "" && Inside(p, file)
  {
    var n := |specifiers| - 1;
    if file in Resolved(p, importer, specifiers[..n]) {
      ResolvedExist(p, importer, specifiers[..n], file);
    }
  }

  lemma EdgeInside(p: Package, file: string, next: string)
    requires Edge(p, file, next)
    ensures file in p.disk && next != "" && Inside(p, next)
  {
    ResolvedExist(p, file, p.disk[file].source.specifiers, next);
  }

  /** Everything reachable but the entry exists, inside the dist directory; from a missing entry nothing else is reachable. */
  lemma ReachableInside(p: Package, file: string)
    requires Reachable(p, file)
    ensures file != "" && p.Entry() != ""
    ensures file == p.Entry() || (ExistsInside(p, file) && p.Entry() in p.disk)
  {
    var route :| Chain(p, route) && End(p, route) == file;
    ChainInside(p, route);
  }

  lemma {:induction false} ChainInside(p: Package, route: Route)
    requires Chain(p, route)
    ensures p.Entry() != "" && End(p, route) != ""
    ensures route.Via? ==> Inside(p, End(p, route)) && p.Entry() in p.disk
  {
    if route.Via? {
      ChainInside(p, route.route);
      EdgeInside(p, End(p, route.route), route.file);
    }
  }

  /** A set that holds the entry and is closed under imports holds everything reachable. */
  lemma {:induction false} ClosedHolds(p: Package, known: set<string>, route: Route)
    requires Chain(p, route) && p.Entry() in known
    requires forall f, g :: f in known && Edge(p, f, g) ==> g in known
    ensures End(p, route) in known
  {
    if route.Via? {
      ClosedHolds(p, known, route.route);
    }
  }

  // ---------------------------------------------------------------- the worklist

  /** The error is true of the file. */
  ghost predicate Blames(p: Package, file: string, error: Error) {
    if file !in p.disk then error == MissingArtifact
    else
      match error
      case MissingArtifact => false
      case InvalidArtifact(shown) => p.Shown(file) == shown && !Acceptable(p.disk[file])
      case UnparsableArtifact(shown) => p.Shown(file) == shown && p.disk[file].source.Unparsable?
      case NotSelfContained(shown, specifier) =>
        && p.Shown(file) == shown && NamesZod(specifier)
        && p.disk[file].source.Parsed? && specifier in p.disk[file].source.specifiers
  }

  ghost predicate NamesOffender(p: Package, error: Error) {
    exists file :: Reachable(p, file) && Blames(p, file, error)
  }

  ghost predicate AllSelfContained(p: Package) {
    forall file :: Reachable(p, file) ==> SelfContained(p, file)
  }

  /** Visited files are reachable and self-contained, and their imports are visited or pending. */
  ghost predicate Progress(p: Package, visited: set<string>, pending: seq<string>) {
    && (forall f :: f in visited ==> Reachable(p, f) && SelfContained(p, f))
    && (forall f :: f in pending ==> f == "" || Reachable(p, f))
    && (forall f, g :: f in visited && Edge(p, f, g) ==> g in visited || g in pending)
    && (p.Entry() == "" || p.Entry() in visited || p.Entry() in pending)
  }

  lemma ReachableVisited(p: Package, visited: set<string>, file: string)
    requires Progress(p, visited, []) && Reachable(p, file)
    ensures SelfContained(p, file)
  {
    var route :| Chain(p, route) && End(p, route) == file;
    ReachableInside(p, file);
    ClosedHolds(p, visited, route);
  }

  lemma Finished(p: Package, visited: set<string>)
    requires Progress(p, visited, [])
    ensures AllSelfContained(p)
    ensures p.Entry() == "" || p.Entry() in p.disk
  {
    forall file | Reachable(p, file)
      ensures SelfContained(p, file)
    {
      ReachableVisited(p, visited, file);
    }
    if p.Entry() != "" {
      ReachEntry(p);
      assert SelfContained(p, p.Entry());
    }
  }

  /** One more self-contained file. */
  lemma Visit(p: Package, visited: set<string>, pending: seq<string>, file: string)
    requires Progress(p, visited, pending + [file]) && file != "" && SelfContained(p, file)
    ensures Progress(p, visited + {file}, pending + Imports(p, file))
  {
    assert file in pending + [file];
    forall g | g in pending + Imports(p, file)
      ensures g == "" || Reachable(p, g)
    {
      if g in pending {
        assert g in pending + [file];
      } else {
        assert Edge(p, file, g);
        ReachStep(p, file, g);
      }
    }
    forall f, g | f in visited + {file} && Edge(p, f, g)
      ensures g in visited + {file} || g in pending + Imports(p, file)
    {
      if f in visited {
        assert g in visited || g in pending + [file];
      }
    }
  }

  lemma Skip(p: Package, visited: set<string>, pending: seq<string>, file: string)
    requires Progress(p, visited, pending + [file]) && (file == "" || file in visited)
    ensures Progress(p, visited, pending)
  {
    forall g | g in pending
      ensures g == "" || Reachable(p, g)
    {
      assert g in pending + [file];
    }
    forall f, g | f in visited && Edge(p, f, g)
      ensures g in visited || g in pending
    {
      assert g in visited || g in pending + [file];
      EdgeInside(p, f, g);
    }
  }

  lemma SplitLast(s: seq<string>)
    requires s != []
    ensures s == s[..|s| - 1] + [s[|s| - 1]]
  {
    assert s[..|s| - 1] + [s[|s| - 1]] == s;
  }

  /** One turn of the worklist for an unvisited file: its error, or the files it imports. */
  method CheckFile(p: Package, file: string) returns (error: Option<Error>, imports: seq<string>)
    ensures error.None? ==> SelfContained(p, file)
    ensures error.Some? ==> Blames(p, file, error.value)
    ensures error.None? ==> imports == Imports(p, file)
  {
    imports := [];
    if file !in p.disk {
      return Some(MissingArtifact), [];
    }
    var info := p.disk[file];
    if !info.isFile || info.size > MAX_INSTALLED_ROOT_DIST_JS_BYTES {
      return Some(InvalidArtifact(p.Shown(file))), [];
    }
    if info.source.Unparsable? {
      return Some(UnparsableArtifact(p.Shown(file))), [];
    }
    var specifiers := info.source.specifiers;
    for i := 0 to |specifiers|
      invariant NoZod(specifiers[..i])
      invariant imports == Resolved(p, file, specifiers[..i])
    {
      if specifiers[i] == "zod" || "zod/" <= specifiers[i] {
        return Some(NotSelfContained(p.Shown(file), specifiers[i])), [];
      }
      var resolved := ResolveInstalledDistRelativeImport(p, file, specifiers[i]);
      assert specifiers[..i + 1][..i] == specifiers[..i];
      if resolved.Some? && resolved.value != "" {
        imports := imports + [resolved.value];
      }
    }
    assert specifiers[..|specifiers|] == specifiers;
    NoZodAnywhere(specifiers);
    return None, imports;
  }

  /**
   * No error exactly when everything reachable from the entry is self-contained; an error names a reachable
   * offender; the entry is reported missing exactly when it is. Cyclic imports terminate.
   */
  method CollectInstalledPluginSdkZodArtifactErrors(p: Package) returns (errors: seq<Error>)
    ensures errors == [] <==> AllSelfContained(p)
    ensures errors != [] ==> |errors| == 1 && NamesOffender(p, errors[0])
    ensures errors == [MissingArtifact] <==> p.Entry() != "" && p.Entry() !in p.disk
  {
    var pending := [p.Entry()];
    var visited: set<string> := {};
    if p.Entry() != "" {
      ReachEntry(p);
    }
    while pending != []
      invariant Progress(p, visited, pending)
      decreases p.disk.Keys + {p.Entry()} - visited, |pending|
    {
      var file, rest := pending[|pending| - 1], pending[..|pending| - 1];
      SplitLast(pending);
      if file == "" || file in visited {
        Skip(p, visited, rest, file);
        pending := rest;
        continue;
      }
      assert file in pending;
      ReachableInside(p, file);
      var error, imports := CheckFile(p, file);
      if error.Some? {
        MissingIsEntry(p, file, error.value);
        return [error.value];
      }
      Visit(p, visited, rest, file);
      visited := visited + {file};
      pending := rest + imports;
    }
    Finished(p, visited);
    return [];
  }

  /** Only the entry can be missing, and then it is blamed. */
  lemma MissingIsEntry(p: Package, file: string, error: Error)
    requires Reachable(p, file) && Blames(p, file, error)
    ensures error == MissingArtifact <==> p.Entry() !in p.disk
    ensures p.Entry() != "" && !AllSelfContained(p) && NamesOffender(p, error)
  {
    ReachableInside(p, file);
    assert !SelfContained(p, file);
  }
}
