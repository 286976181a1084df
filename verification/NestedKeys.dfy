/** Nested translation maps and their dotted keys: `flattenTranslations` and `setNestedValue`. */
module NestedKeys {
  import opened Common

  type Path = p: seq<string> | p != [] witness [""]

  /** The own properties of a translation object, in insertion order. */
  datatype Forest = Nil | Cons(name: string, node: Tree, rest: Forest)

  datatype Tree = Text(text: string) | Node(kids: Forest)

  // ---------------------------------------------------------------- dotted keys

  /** `dottedKey.split(".")` */
  function Split(s: string): (p: Path)
    ensures forall i :: 0 <= i < |p| ==> '.' !in p[i]
    ensures |p| == 1 <==> '.' !in s
  {
    if s == "" then [""]
    else
      var tail := Split(s[1..]);
      if s[0] == '.' then [""] + tail else [[s[0]] + tail[0]] + tail[1..]
  }

  function Join(p: Path): string {
    if |p| == 1 then p[0] else p[0] + "." + Join(p[1..])
  }

  lemma {:induction false} SplitHead(n: string, s: string)
    requires '.' !in n
    ensures Split(n + "." + s) == [n] + Split(s)
  {
    if n == "" {
      assert (n + "." + s)[1..] == s;
    } else {
      assert (n + "." + s)[1..] == n[1..] + "." + s;
      SplitHead(n[1..], s);
      assert ([n[1..]] + Split(s))[1..] == Split(s);
      assert [n[0]] + n[1..] == n;
    }
  }

  lemma {:induction false} SplitPlain(n: string)
    requires '.' !in n
    ensures Split(n) == [n]
  {
    if n != "" {
      SplitPlain(n[1..]);
      assert [n[0]] + n[1..] == n;
    }
  }

  /** A key is recovered from its segments, and segments from the key they spell. */
  lemma {:induction false} JoinSplit(s: string)
    ensures Join(Split(s)) == s
  {
    if s != "" {
      JoinSplit(s[1..]);
      var p, q := Split(s), Split(s[1..]);
      if s[0] == '.' {
        assert p[1..] == q;
      } else if |q| > 1 {
        assert p[1..] == q[1..];
        assert Join(q) == q[0] + "." + Join(q[1..]);
        assert Join(p) == ([s[0]] + q[0]) + "." + Join(q[1..]);
      }
    }
  }

  lemma {:induction false} SplitJoin(p: Path)
    requires forall i :: 0 <= i < |p| ==> '.' !in p[i]
    ensures Split(Join(p)) == p
  {
    if |p| == 1 {
      SplitPlain(p[0]);
    } else {
      SplitJoin(p[1..]);
      SplitHead(p[0], Join(p[1..]));
    }
  }

  // ---------------------------------------------------------------- objects

  function Child(f: Forest, n: string): Option<Tree> {
    match f
    case Nil => None
    case Cons(name, node, rest) => if name == n then Some(node) else Child(rest, n)
  }

  /** The text stored at a path, when the path ends in a text. */
  function Lookup(f: Forest, p: Path): Option<string>
    decreases |p|
  {
    match Child(f, p[0])
    case None => None
    case Some(Text(t)) => if |p| == 1 then Some(t) else None
    case Some(Node(kids)) => if |p| == 1 then None else Lookup(kids, p[1..])
  }

  /** Own property names are distinct at every level. */
  ghost predicate Proper(f: Forest) {
    match f
    case Nil => true
    case Cons(n, node, rest) => Child(rest, n).None? && (node.Node? ==> Proper(node.kids)) && Proper(rest)
  }

  /** No property name contains a dot. */
  ghost predicate DotFree(f: Forest) {
    match f
    case Nil => true
    case Cons(n, node, rest) => '.' !in n && (node.Node? ==> DotFree(node.kids)) && DotFree(rest)
  }

  /** Names are non-empty and dot-free, and nested objects are never empty. */
  ghost predicate WellFormed(f: Forest) {
    match f
    case Nil => true
    case Cons(n, node, rest) =>
      && n != "" && '.' !in n
      && (node.Node? ==> node.kids.Cons? && WellFormed(node.kids))
      && WellFormed(rest)
  }

  // ---------------------------------------------------------------- flattening

  /** `flattenTranslations(value, prefix, out)` */
  function FlattenInto(f: Forest, prefix: string, out: OrderedMap<string>): OrderedMap<string>
    decreases f
  {
    match f
    case Nil => out
    case Cons(n, node, rest) =>
      var fullKey := if prefix != "" then prefix + "." + n else n;
      match node
      case Text(t) => FlattenInto(rest, prefix, Put(out, fullKey, t))
      case Node(kids) => FlattenInto(rest, prefix, FlattenInto(kids, fullKey, out))
  }

  function Flatten(f: Forest): OrderedMap<string> { FlattenInto(f, "", []) }

  /** What one nested object contributes under a non-empty prefix. */
  ghost function Under(f: Forest, prefix: string, k: string): Option<string> {
    if prefix + "." <= k then Lookup(f, Split(k[|prefix| + 1..])) else None
  }

  ghost function Or(a: Option<string>, b: Option<string>): Option<string> {
    if a.Some? then a else b
  }

  lemma {:induction false} FlattenUnder(f: Forest, prefix: string, out: OrderedMap<string>, k: string)
    requires Proper(f) && DotFree(f) && prefix != ""
    ensures Get(FlattenInto(f, prefix, out), k) == Or(Under(f, prefix, k), Get(out, k))
    decreases f
  {
    match f
    case Nil =>
    case Cons(n, node, rest) =>
      var fullKey := prefix + "." + n;
      match node {
        case Text(t) => FlattenUnder(rest, prefix, Put(out, fullKey, t), k);
        case Node(kids) =>
          FlattenUnder(kids, fullKey, out, k);
          FlattenUnder(rest, prefix, FlattenInto(kids, fullKey, out), k);
      }
      UnderCons(n, node, rest, prefix, k);
  }

  lemma UnderCons(n: string, node: Tree, rest: Forest, prefix: string, k: string)
    requires '.' !in n && Child(rest, n).None?
    ensures node.Text? ==> Under(Cons(n, node, rest), prefix, k) ==
                           if k == prefix + "." + n then Some(node.text) else Under(rest, prefix, k)
    ensures node.Text? && k == prefix + "." + n ==> Under(rest, prefix, k).None?
    ensures node.Node? ==> Under(Cons(n, node, rest), prefix, k) ==
                           Or(Under(rest, prefix, k), Under(node.kids, prefix + "." + n, k))
  {
    KeyTail(prefix, n, k);
    if prefix + "." <= k {
      var s := k[|prefix| + 1..];
      FirstName(n, s);
      LookupCons(n, node, rest, Split(s));
      if n + "." <= s {
        assert Split(s)[1..] == Split(s[|n| + 1..]);
      }
    }
  }

  lemma LookupCons(n: string, node: Tree, rest: Forest, p: Path)
    requires Child(rest, n).None?
    ensures p[0] != n ==> Lookup(Cons(n, node, rest), p) == Lookup(rest, p)
    ensures p[0] == n ==> Lookup(rest, p).None?
    ensures p[0] == n && node.Text? ==> Lookup(Cons(n, node, rest), p) == if |p| == 1 then Some(node.text) else None
    ensures p[0] == n && node.Node? ==> Lookup(Cons(n, node, rest), p) == if |p| == 1 then None else Lookup(node.kids, p[1..])
  {}

  lemma KeyTail(prefix: string, n: string, k: string)
    ensures var fullKey := prefix + "." + n;
            if prefix + "." <= k then
              var s := k[|prefix| + 1..];
              && (k == fullKey <==> s == n)
              && (fullKey + "." <= k <==> n + "." <= s)
              && (fullKey + "." <= k ==> k[|fullKey| + 1..] == s[|n| + 1..])
            else k != fullKey && !(fullKey + "." <= k)
  {
    var fullKey := prefix + "." + n;
    if prefix + "." <= k {
      var s := k[|prefix| + 1..];
      assert k == prefix + "." + s;
      if fullKey + "." <= k {
        assert s[..|n| + 1] == k[|prefix| + 1..|fullKey| + 1] == n + ".";
      }
      if k == fullKey {
        assert s == fullKey[|prefix| + 1..] == n;
      }
    }
  }

  /** The first segment of `s` is `n` exactly when `s` is `n` or continues `n` with a dot. */
  lemma FirstName(n: string, s: string)
    requires '.' !in n
    ensures Split(s)[0] == n <==> s == n || n + "." <= s
    ensures s == n ==> Split(s) == [n]
    ensures n + "." <= s ==> Split(s) == [n] + Split(s[|n| + 1..])
  {
    SplitPlain(n);
    if n + "." <= s {
      assert s == n + "." + s[|n| + 1..];
      SplitHead(n, s[|n| + 1..]);
    }
    if Split(s)[0] == n {
      JoinSplit(s);
    }
  }

  /** Only texts may sit directly under the empty name. */
  ghost predicate RootOk(f: Forest) {
    match f
    case Nil => true
    case Cons(n, node, rest) => (n == "" ==> node.Text?) && RootOk(rest)
  }

  /** Flattening is lookup along the segments of the key. */
  lemma {:induction false} FlattenIsLookup(f: Forest, out: OrderedMap<string>, k: string)
    requires Proper(f) && DotFree(f) && RootOk(f)
    ensures Get(FlattenInto(f, "", out), k) == Or(Lookup(f, Split(k)), Get(out, k))
    decreases f
  {
    match f
    case Nil =>
    case Cons(n, node, rest) =>
      match node {
        case Text(t) => FlattenIsLookup(rest, Put(out, n, t), k);
        case Node(kids) =>
          FlattenUnder(kids, n, out, k);
          FlattenIsLookup(rest, FlattenInto(kids, n, out), k);
      }
      RootCons(n, node, rest, k);
  }

  /** The same step for the properties at the root. */
  lemma RootCons(n: string, node: Tree, rest: Forest, k: string)
    requires '.' !in n && Child(rest, n).None?
    ensures node.Text? ==> Lookup(Cons(n, node, rest), Split(k)) == if k == n then Some(node.text) else Lookup(rest, Split(k))
    ensures node.Text? && k == n ==> Lookup(rest, Split(k)).None?
    ensures node.Node? ==> Lookup(Cons(n, node, rest), Split(k)) == Or(Lookup(rest, Split(k)), Under(node.kids, n, k))
  {
    FirstName(n, k);
    LookupCons(n, node, rest, Split(k));
    if n + "." <= k {
      assert Split(k)[1..] == Split(k[|n| + 1..]);
    }
  }

  /** No flattened key starts with a dot. */
  lemma {:induction false} NoLeadingDot(f: Forest, out: OrderedMap<string>, k: string)
    requires DotFree(f) && "." <= k
    ensures Get(FlattenInto(f, "", out), k) == Get(out, k)
    decreases f
  {
    match f
    case Nil =>
    case Cons(n, node, rest) =>
      match node {
        case Text(t) =>
          assert k[0] in k;
          NoLeadingDot(rest, Put(out, n, t), k);
        case Node(kids) =>
          if n == "" {
            NoLeadingDot(kids, out, k);
          } else {
            NoOtherHead(kids, n, out, k);
          }
          NoLeadingDot(rest, FlattenInto(kids, n, out), k);
      }
  }

  /** Every key a nested object contributes starts with its prefix. */
  lemma {:induction false} NoOtherHead(f: Forest, prefix: string, out: OrderedMap<string>, k: string)
    requires prefix != "" && k != "" && k[0] != prefix[0]
    ensures Get(FlattenInto(f, prefix, out), k) == Get(out, k)
    decreases f
  {
    match f
    case Nil =>
    case Cons(n, node, rest) =>
      var fullKey := prefix + "." + n;
      match node {
        case Text(t) => NoOtherHead(rest, prefix, Put(out, fullKey, t), k);
        case Node(kids) =>
          NoOtherHead(kids, fullKey, out, k);
          NoOtherHead(rest, prefix, FlattenInto(kids, fullKey, out), k);
      }
  }

  // ---------------------------------------------------------------- rebuilding

  /** The cursor walk of `setNestedValue`: a text on the way is replaced by an object, in place. */
  function SetPath(f: Forest, p: Path, v: string): Forest
    decreases |p|, f
  {
    match f
    case Nil => Cons(p[0], if |p| == 1 then Text(v) else Node(SetPath(Nil, p[1..], v)), Nil)
    case Cons(n, node, rest) =>
      if n != p[0] then Cons(n, node, SetPath(rest, p, v))
      else if |p| == 1 then Cons(n, Text(v), rest)
      else Cons(n, Node(SetPath(if node.Node? then node.kids else Nil, p[1..], v)), rest)
  }

  function SetNestedValue(root: Forest, dottedKey: string, value: string): Forest {
    SetPath(root, Split(dottedKey), value)
  }

  /** Assign every entry in turn to an empty object. */
  function Rebuild(a: OrderedMap<string>): Forest {
    if a == [] then Nil
    else SetNestedValue(Rebuild(a[..|a| - 1]), a[|a| - 1].0, a[|a| - 1].1)
  }

  lemma {:induction false} SetPathChild(f: Forest, p: Path, v: string, n: string)
    ensures n != p[0] ==> Child(SetPath(f, p, v), n) == Child(f, n)
    ensures n == p[0] && |p| == 1 ==> Child(SetPath(f, p, v), n) == Some(Text(v))
    ensures n == p[0] && |p| > 1 ==>
              var held := Child(f, n);
              Child(SetPath(f, p, v), n) == Some(Node(SetPath(if held.Some? && held.value.Node? then held.value.kids else Nil, p[1..], v)))
    decreases f
  {
    if f.Cons? && f.name != p[0] {
      SetPathChild(f.rest, p, v, n);
    }
  }

  lemma {:induction false} SetPathProper(f: Forest, p: Path, v: string)
    requires Proper(f) && DotFree(f) && forall i :: 0 <= i < |p| ==> '.' !in p[i]
    ensures Proper(SetPath(f, p, v)) && DotFree(SetPath(f, p, v))
    decreases |p|, f
  {
    match f
    case Nil =>
      if |p| > 1 {
        SetPathProper(Nil, p[1..], v);
      }
    case Cons(n, node, rest) =>
      if n != p[0] {
        SetPathProper(rest, p, v);
        SetPathChild(rest, p, v, n);
      } else if |p| > 1 {
        SetPathProper(if node.Node? then node.kids else Nil, p[1..], v);
      }
  }

  /** An assignment is read back, hides what it overlaps, and leaves the rest alone. */
  lemma {:induction false} SetPathLookup(f: Forest, p: Path, v: string, q: Path)
    ensures Lookup(SetPath(f, p, v), q) ==
            if p == q then Some(v) else if p <= q || q <= p then None else Lookup(f, q)
    decreases |p|
  {
    SetPathChild(f, p, v, q[0]);
    if q[0] == p[0] {
      assert p == [p[0]] + p[1..] && q == [q[0]] + q[1..];
      if |p| > 1 && |q| > 1 {
        var held := Child(f, p[0]);
        SetPathLookup(if held.Some? && held.value.Node? then held.value.kids else Nil, p[1..], v, q[1..]);
        assert p <= q <==> p[1..] <= q[1..];
        assert q <= p <==> q[1..] <= p[1..];
        assert p == q <==> p[1..] == q[1..];
        assert held.None? || held.value.Text? ==> Lookup(f, q).None? && Lookup(Nil, q[1..]).None?;
      } else {
        assert |p| == 1 ==> p <= q;
        assert |q| == 1 ==> q <= p;
      }
    }
  }

  /** No key of `a` starts with a dot, and none is a whole-segment prefix of another. */
  ghost predicate Unambiguous(a: OrderedMap<string>) {
    && (forall i :: 0 <= i < |a| ==> !("." <= a[i].0))
    && (forall i, j :: 0 <= i < |a| && 0 <= j < |a| && i != j ==> !(Split(a[i].0) <= Split(a[j].0)))
  }

  lemma {:induction false} RebuildShape(a: OrderedMap<string>)
    ensures Proper(Rebuild(a)) && DotFree(Rebuild(a))
  {
    if a != [] {
      RebuildShape(a[..|a| - 1]);
      SetPathProper(Rebuild(a[..|a| - 1]), Split(a[|a| - 1].0), a[|a| - 1].1);
    }
  }

  lemma {:induction false} SetPathRootOk(f: Forest, p: Path, v: string)
    requires RootOk(f) && (|p| == 1 || p[0] != "")
    ensures RootOk(SetPath(f, p, v))
    decreases f
  {
    if f.Cons? && f.name != p[0] {
      SetPathRootOk(f.rest, p, v);
    }
  }

  lemma {:induction false} RebuildRootOk(a: OrderedMap<string>)
    requires forall i :: 0 <= i < |a| ==> !("." <= a[i].0)
    ensures RootOk(Rebuild(a))
  {
    if a != [] {
      var k := a[|a| - 1].0;
      RebuildRootOk(a[..|a| - 1]);
      FirstName("", k);
      SetPathRootOk(Rebuild(a[..|a| - 1]), Split(k), a[|a| - 1].1);
    }
  }

  lemma SplitInjective(s: string, t: string)
    requires Split(s) == Split(t)
    ensures s == t
  {
    JoinSplit(s);
    JoinSplit(t);
  }

  lemma {:induction false} RebuildLookup(a: OrderedMap<string>, k: string)
    requires Distinct(a)
    requires forall i, j :: 0 <= i < |a| && 0 <= j < |a| && i != j ==> !(Split(a[i].0) <= Split(a[j].0))
    ensures k in Keys(a) ==> Lookup(Rebuild(a), Split(k)) == Get(a, k)
    ensures Lookup(Rebuild(a), Split(k)).Some? ==> k in Keys(a)
  {
    if a != [] {
      var b, last := a[..|a| - 1], a[|a| - 1];
      assert forall i :: 0 <= i < |b| ==> b[i] == a[i];
      RebuildLookup(b, k);
      SetPathLookup(Rebuild(b), Split(last.0), last.1, Split(k));
      GetSnoc(a, k);
      if Split(k) == Split(last.0) {
        SplitInjective(k, last.0);
      } else if k in Keys(b) {
        var i :| 0 <= i < |b| && b[i].0 == k;
        assert a[i].0 == k;
      }
    }
  }

  lemma GetSnoc(a: OrderedMap<string>, k: string)
    requires a != [] && Distinct(a)
    ensures Get(a, k) == if k == a[|a| - 1].0 then Some(a[|a| - 1].1) else Get(a[..|a| - 1], k)
  {
    var b := a[..|a| - 1];
    if k in Keys(a) {
      var i :| 0 <= i < |a| && a[i].0 == k;
      GetAt(a, i);
      if i < |b| {
        assert b[i] == a[i];
        GetAt(b, i);
      }
    }
    if k in Keys(b) {
      var i :| 0 <= i < |b| && b[i].0 == k;
      assert a[i].0 == k;
    }
  }

  /** Rebuilding from unambiguous assignments and flattening again returns exactly the assignments. */
  lemma FlattenRebuild(a: OrderedMap<string>, k: string)
    requires Distinct(a) && Unambiguous(a)
    ensures Get(Flatten(Rebuild(a)), k) == Get(a, k)
  {
    RebuildShape(a);
    RebuildRootOk(a);
    RebuildLookup(a, k);
    FlattenIsLookup(Rebuild(a), [], k);
  }

  /** One path cannot hold a text and lead to another text. */
  lemma {:induction false} LookupPrefixFree(f: Forest, p: Path, q: Path)
    requires p <= q && p != q && Lookup(f, q).Some?
    ensures Lookup(f, p).None?
    decreases |p|
  {
    if |p| > 1 {
      var child := Child(f, p[0]);
      LookupPrefixFree(child.value.kids, p[1..], q[1..]);
    }
  }

  /** A key that the rebuilt object loses, for every ambiguous list of assignments. */
  lemma AmbiguousLosesKey(a: OrderedMap<string>) returns (k: string)
    requires Distinct(a) && !Unambiguous(a)
    ensures k in Keys(a) && Get(Flatten(Rebuild(a)), k).None?
  {
    RebuildShape(a);
    if i :| 0 <= i < |a| && "." <= a[i].0 {
      k := a[i].0;
      NoLeadingDot(Rebuild(a), [], k);
    } else {
      RebuildRootOk(a);
      var i, j :| 0 <= i < |a| && 0 <= j < |a| && i != j && Split(a[i].0) <= Split(a[j].0);
      if Split(a[i].0) == Split(a[j].0) {
        SplitInjective(a[i].0, a[j].0);
      }
      k := a[j].0;
      FlattenIsLookup(Rebuild(a), [], k);
      if Lookup(Rebuild(a), Split(k)).Some? {
        k := a[i].0;
        LookupPrefixFree(Rebuild(a), Split(k), Split(a[j].0));
        FlattenIsLookup(Rebuild(a), [], k);
      }
    }
  }

  /** Flattening returns every assignment exactly when the keys are unambiguous. */
  lemma FlattenRebuildIff(a: OrderedMap<string>)
    requires Distinct(a)
    ensures (forall k :: Get(Flatten(Rebuild(a)), k) == Get(a, k)) <==> Unambiguous(a)
  {
    if Unambiguous(a) {
      forall k ensures Get(Flatten(Rebuild(a)), k) == Get(a, k) { FlattenRebuild(a, k); }
    } else {
      var k := AmbiguousLosesKey(a);
    }
  }

  // ---------------------------------------------------------------- rebuilding a whole object

  /** Every property of `f` is a property of `g` with the same content, in any order. */
  ghost predicate Within(f: Forest, g: Forest) {
    match f
    case Nil => true
    case Cons(n, node, rest) => Child(g, n).Some? && TreeWithin(node, Child(g, n).value) && Within(rest, g)
  }

  ghost predicate TreeWithin(t: Tree, u: Tree) {
    match t
    case Text(s) => u == Text(s)
    case Node(kids) => u.Node? && Within(kids, u.kids)
  }

  ghost predicate SameUpToOrder(f: Forest, g: Forest) { Within(f, g) && Within(g, f) }

  /** An object without empty sub-objects holds at least one text. */
  lemma {:induction false} SomeText(f: Forest) returns (p: Path)
    requires f.Cons? && NoEmptyKids(f)
    ensures Lookup(f, p).Some?
  {
    match f.node
    case Text(t) => p := [f.name];
    case Node(kids) =>
      var q := SomeText(kids);
      p := [f.name] + q;
      assert p[1..] == q;
  }

  ghost predicate NoEmptyKids(f: Forest) {
    match f
    case Nil => true
    case Cons(n, node, rest) => (node.Node? ==> node.kids.Cons? && NoEmptyKids(node.kids)) && NoEmptyKids(rest)
  }

  lemma {:induction false} LookupDeterminesFrom(f: Forest, whole: Forest, g: Forest)
    requires NoEmptyKids(f) && Proper(f)
    requires forall n :: Child(f, n).Some? ==> Child(whole, n) == Child(f, n)
    requires forall p: Path :: Lookup(whole, p).Some? ==> Lookup(g, p) == Lookup(whole, p)
    ensures Within(f, g)
    decreases f
  {
    match f
    case Nil =>
    case Cons(n, node, rest) =>
      assert Child(whole, n) == Some(node);
      forall m | Child(rest, m).Some?
        ensures Child(whole, m) == Child(rest, m)
      {
        assert Child(f, m) == Child(rest, m);
      }
      LookupDeterminesFrom(rest, whole, g);
      match node {
        case Text(t) => assert Lookup(whole, [n]) == Some(t);
        case Node(kids) =>
          var q := SomeText(kids);
          assert ([n] + q)[1..] == q;
          assert Lookup(whole, [n] + q).Some?;
          forall p: Path | Lookup(kids, p).Some?
            ensures Lookup(Child(g, n).value.kids, p) == Lookup(kids, p)
          {
            assert ([n] + p)[1..] == p;
            assert Lookup(whole, [n] + p) == Lookup(kids, p);
          }
          LookupDeterminesFrom(kids, kids, Child(g, n).value.kids);
      }
  }

  lemma {:induction false} SetPathNoEmpty(f: Forest, p: Path, v: string)
    requires NoEmptyKids(f)
    ensures NoEmptyKids(SetPath(f, p, v)) && SetPath(f, p, v).Cons?
    decreases |p|, f
  {
    match f
    case Nil =>
      if |p| > 1 {
        SetPathNoEmpty(Nil, p[1..], v);
      }
    case Cons(n, node, rest) =>
      if n != p[0] {
        SetPathNoEmpty(rest, p, v);
      } else if |p| > 1 {
        SetPathNoEmpty(if node.Node? then node.kids else Nil, p[1..], v);
      }
  }

  lemma {:induction false} RebuildNoEmpty(a: OrderedMap<string>)
    ensures NoEmptyKids(Rebuild(a))
  {
    if a != [] {
      RebuildNoEmpty(a[..|a| - 1]);
      SetPathNoEmpty(Rebuild(a[..|a| - 1]), Split(a[|a| - 1].0), a[|a| - 1].1);
    }
  }

  lemma {:induction false} WellFormedParts(f: Forest)
    requires WellFormed(f)
    ensures NoEmptyKids(f) && DotFree(f) && RootOk(f)
    ensures Child(f, "").None?
  {
    if f.Cons? {
      WellFormedParts(f.rest);
      if f.node.Node? {
        WellFormedParts(f.node.kids);
      }
    }
  }

  /** The flattened keys of a well-formed object are unambiguous. */
  lemma WellFormedUnambiguous(f: Forest, a: OrderedMap<string>)
    requires Proper(f) && WellFormed(f) && Distinct(a)
    requires forall k :: Get(a, k) == Get(Flatten(f), k)
    ensures Unambiguous(a)
  {
    WellFormedParts(f);
    forall i | 0 <= i < |a|
      ensures Lookup(f, Split(a[i].0)).Some? && !("." <= a[i].0)
    {
      GetAt(a, i);
      FlattenIsLookup(f, [], a[i].0);
      FirstName("", a[i].0);
    }
    forall i, j | 0 <= i < |a| && 0 <= j < |a| && i != j
      ensures !(Split(a[i].0) <= Split(a[j].0))
    {
      if Split(a[i].0) <= Split(a[j].0) {
        if Split(a[i].0) == Split(a[j].0) {
          SplitInjective(a[i].0, a[j].0);
          assert false;
        } else {
          LookupPrefixFree(f, Split(a[i].0), Split(a[j].0));
        }
      }
    }
  }

  /** Setting the flattened keys of a well-formed object in any order reproduces the object. */
  lemma RebuildFlatten(f: Forest, a: OrderedMap<string>)
    requires Proper(f) && WellFormed(f)
    requires Distinct(a) && forall k :: Get(a, k) == Get(Flatten(f), k)
    ensures SameUpToOrder(Rebuild(a), f)
  {
    var g := Rebuild(a);
    WellFormedParts(f);
    WellFormedUnambiguous(f, a);
    RebuildShape(a);
    RebuildNoEmpty(a);
    forall p: Path
      ensures Lookup(f, p).Some? || Lookup(g, p).Some? ==> Lookup(f, p) == Lookup(g, p)
    {
      if Lookup(f, p).Some? || Lookup(g, p).Some? {
        RebuildAgrees(f, a, p);
      }
    }
    LookupDeterminesFrom(f, f, g);
    LookupDeterminesFrom(g, g, f);
  }

  lemma RebuildAgrees(f: Forest, a: OrderedMap<string>, p: Path)
    requires Proper(f) && WellFormed(f)
    requires Distinct(a) && forall k :: Get(a, k) == Get(Flatten(f), k)
    requires Lookup(f, p).Some? || Lookup(Rebuild(a), p).Some?
    ensures Lookup(f, p) == Lookup(Rebuild(a), p)
  {
    WellFormedParts(f);
    WellFormedUnambiguous(f, a);
    RebuildShape(a);
    if Lookup(f, p).Some? { LookupNames(f, p); } else { LookupNames(Rebuild(a), p); }
    SplitJoin(p);
    var k := Join(p);
    RebuildLookup(a, k);
    FlattenIsLookup(f, [], k);
    assert Get(a, k) == Get(Flatten(f), k) == Lookup(f, p);
  }

  lemma {:induction false} LookupNames(f: Forest, p: Path)
    requires DotFree(f) && Lookup(f, p).Some?
    ensures forall i :: 0 <= i < |p| ==> '.' !in p[i]
    decreases |p|
  {
    ChildDotFree(f, p[0]);
    if |p| > 1 {
      LookupNames(Child(f, p[0]).value.kids, p[1..]);
    }
  }

  lemma {:induction false} ChildDotFree(f: Forest, n: string)
    requires DotFree(f) && Child(f, n).Some?
    ensures '.' !in n && (Child(f, n).value.Node? ==> DotFree(Child(f, n).value.kids))
  {
    if f.name != n {
      ChildDotFree(f.rest, n);
    }
  }
}
