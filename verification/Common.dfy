/** Shared vocabulary: optional values, insertion-ordered maps, text helpers and sorting. */
module Common {
  datatype Option<+T> = None | Some(value: T)

  /** A JavaScript `Map` with string keys: entries in insertion order, no key twice. */
  type OrderedMap<V> = seq<(string, V)>

  function Keys<V>(m: OrderedMap<V>): (keys: set<string>)
  {
    set i | 0 <= i < |m| :: m[i].0
  }

  ghost predicate Distinct<V>(m: OrderedMap<V>) {
    forall i, j :: 0 <= i < j < |m| ==> m[i].0 != m[j].0
  }

  function Get<V>(m: OrderedMap<V>, key: string): (r: Option<V>)
    ensures r.Some? <==> key in Keys(m)
  {
    if m == [] then None
    else if m[0].0 == key then assert m[0].0 in Keys(m); Some(m[0].1)
    else
      assert Keys(m) == {m[0].0} + Keys(m[1..]) by { KeysCons(m); }
      Get(m[1..], key)
  }

  lemma KeysCons<V>(m: OrderedMap<V>)
    requires m != []
    ensures Keys(m) == {m[0].0} + Keys(m[1..])
  {
    forall k | k in Keys(m)
      ensures k in {m[0].0} + Keys(m[1..])
    {
      var i :| 0 <= i < |m| && m[i].0 == k;
      if i > 0 {
        assert m[1..][i - 1] == m[i];
      }
    }
    forall k | k in Keys(m[1..])
      ensures k in Keys(m)
    {
      var i :| 0 <= i < |m[1..]| && m[1..][i].0 == k;
      assert m[i + 1].0 == k;
    }
  }

  /** `Map.set`: an existing key keeps its place, a new key goes last. */
  function Put<V>(m: OrderedMap<V>, key: string, value: V): (r: OrderedMap<V>)
    ensures forall k :: Get(r, k) == if k == key then Some(value) else Get(m, k)
    ensures Keys(r) == Keys(m) + {key}
    ensures Distinct(m) ==> Distinct(r)
  {
    if m == [] then
      var r := [(key, value)];
      assert r[1..] == [] && Keys(r) == {key} by { KeysCons(r); }
      r
    else if m[0].0 == key then
      var r := [(key, value)] + m[1..];
      assert r[1..] == m[1..];
      assert Keys(r) == Keys(m) by { KeysCons(r); KeysCons(m); }
      r
    else
      var rest := Put(m[1..], key, value);
      var r := [m[0]] + rest;
      assert r[1..] == rest;
      assert Keys(r) == Keys(m) + {key} by { KeysCons(r); KeysCons(m); }
      assert Distinct(m) ==> Distinct(r) by {
        if Distinct(m) {
          forall i, j | 0 <= i < j < |r|
            ensures r[i].0 != r[j].0
          {
            if i == 0 {
              assert rest[j - 1].0 in Keys(rest);
              assert m[0].0 !in Keys(m[1..]);
            }
          }
        }
      }
      r
  }

  lemma {:induction false} GetAt<V>(m: OrderedMap<V>, i: nat)
    requires Distinct(m) && i < |m|
    ensures Get(m, m[i].0) == Some(m[i].1)
  {
    if i > 0 {
      GetAt(m[1..], i - 1);
    }
  }

  lemma {:induction false} GetIndex<V>(m: OrderedMap<V>, k: string) returns (i: nat)
    requires Get(m, k).Some?
    ensures i < |m| && m[i] == (k, Get(m, k).value)
  {
    if m[0].0 == k {
      i := 0;
    } else {
      var j := GetIndex(m[1..], k);
      i := j + 1;
    }
  }

  lemma {:induction false} PutNew<V>(m: OrderedMap<V>, k: string, v: V)
    requires k !in Keys(m)
    ensures Put(m, k, v) == m + [(k, v)]
  {
    if m != [] {
      KeysCons(m);
      PutNew(m[1..], k, v);
      PutBehind(m, k, v);
      assert [m[0]] + (m[1..] + [(k, v)]) == m + [(k, v)];
    }
  }

  lemma PutBehind<V>(m: OrderedMap<V>, k: string, v: V)
    requires m != [] && m[0].0 != k
    ensures Put(m, k, v) == [m[0]] + Put(m[1..], k, v)
  {
  }

  /** `parts.flat()`, and for texts `parts.join("")` */
  ghost function Concat<T>(parts: seq<seq<T>>): seq<T> {
    if parts == [] then [] else Concat(parts[..|parts| - 1]) + parts[|parts| - 1]
  }

  /** White space as `String.prototype.trim` and the regular expression class `\s` see it. */
  predicate IsSpace(c: char) {
    || '\t' <= c <= '\r'
    || c in {' ', '\U{A0}', '\U{1680}', '\U{2028}', '\U{2029}', '\U{202F}', '\U{205F}', '\U{3000}', '\U{FEFF}'}
    || '\U{2000}' <= c <= '\U{200A}'
  }

  predicate IsBlank(s: string) {
    forall i :: 0 <= i < |s| ==> IsSpace(s[i])
  }

  /** `String.prototype.trim` */
  function Trim(s: string): (r: string)
    ensures r != "" ==> !IsSpace(r[0]) && !IsSpace(r[|r| - 1])
    ensures r == "" <==> IsBlank(s)
  {
    if s == "" then ""
    else if IsSpace(s[0]) then
      assert IsBlank(s) <==> IsBlank(s[1..]) by {
        assert forall i :: 0 < i < |s| ==> s[i] == s[1..][i - 1];
      }
      Trim(s[1..])
    else if IsSpace(s[|s| - 1]) then Trim(s[..|s| - 1])
    else s
  }

  /** `r` is `s` without some white space at either end. */
  ghost predicate Middle(s: string, r: string, lo: nat, hi: nat) {
    lo <= hi <= |s| && r == s[lo..hi] && forall i :: 0 <= i < lo || hi <= i < |s| ==> IsSpace(s[i])
  }

  lemma MiddleBehind(c: char, s: string, r: string, lo: nat, hi: nat)
    requires Middle(s, r, lo, hi) && IsSpace(c)
    ensures Middle([c] + s, r, lo + 1, hi + 1)
  {
    assert ([c] + s)[lo + 1..hi + 1] == s[lo..hi];
  }

  lemma MiddleBefore(s: string, c: char, r: string, lo: nat, hi: nat)
    requires Middle(s, r, lo, hi) && IsSpace(c)
    ensures Middle(s + [c], r, lo, hi)
  {
    assert (s + [c])[lo..hi] == s[lo..hi];
  }

  /** Trimming takes white space off both ends, and nothing else. */
  lemma {:induction false} TrimIsMiddle(s: string) returns (lo: nat, hi: nat)
    ensures Middle(s, Trim(s), lo, hi)
  {
    if s == "" {
      lo, hi := 0, 0;
    } else if IsSpace(s[0]) {
      var x, y := TrimIsMiddle(s[1..]);
      assert s == [s[0]] + s[1..];
      MiddleBehind(s[0], s[1..], Trim(s), x, y);
      lo, hi := x + 1, y + 1;
    } else if IsSpace(s[|s| - 1]) {
      lo, hi := TrimIsMiddle(s[..|s| - 1]);
      assert s == s[..|s| - 1] + [s[|s| - 1]];
      MiddleBefore(s[..|s| - 1], s[|s| - 1], Trim(s), lo, hi);
    } else {
      lo, hi := 0, |s|;
    }
  }

  predicate IsDigit(c: char) { '0' <= c <= '9' }

  predicate IsNumeral(s: string) { s != "" && forall i :: 0 <= i < |s| ==> IsDigit(s[i]) }

  /** `String(n)` for a natural number. */
  function Decimal(n: nat): (s: string)
    ensures IsNumeral(s) && ParseDecimal(s) == n
    ensures s[0] == '0' ==> n == 0
    ensures |s| == 1 <==> n < 10
    ensures |s| <= 2 <==> n < 100
  {
    if n < 10 then [('0' as int + n) as char]
    else
      var init := Decimal(n / 10);
      var s := init + [('0' as int + n % 10) as char];
      assert s[..|s| - 1] == init;
      s
  }

  /** `Number(s)` of a decimal numeral. */
  function ParseDecimal(s: string): nat
    requires IsNumeral(s)
  {
    var d := s[|s| - 1] as int - '0' as int;
    if |s| == 1 then d else 10 * ParseDecimal(s[..|s| - 1]) + d
  }

  function Insert<T>(x: T, sorted: seq<T>, le: (T, T) -> bool): (r: seq<T>)
    ensures multiset(r) == multiset([x]) + multiset(sorted)
    ensures |r| == |sorted| + 1
  {
    if sorted == [] || le(x, sorted[0]) then [x] + sorted
    else
      assert sorted == [sorted[0]] + sorted[1..];
      [sorted[0]] + Insert(x, sorted[1..], le)
  }

  /** `Array.prototype.toSorted`: the stable sort of `s`. */
  function Sort<T>(s: seq<T>, le: (T, T) -> bool): (r: seq<T>)
    ensures multiset(r) == multiset(s) && |r| == |s|
  {
    if s == [] then []
    else
      assert s == [s[0]] + s[1..];
      Insert(s[0], Sort(s[1..], le), le)
  }

  ghost predicate Sorted<T>(s: seq<T>, le: (T, T) -> bool) {
    forall i, j :: 0 <= i < j < |s| ==> le(s[i], s[j])
  }

  ghost predicate TotalPreorder<T(!new)>(le: (T, T) -> bool) {
    && (forall a, b :: le(a, b) || le(b, a))
    && (forall a, b, c :: le(a, b) && le(b, c) ==> le(a, c))
  }

  ghost predicate TotalOrder<T(!new)>(le: (T, T) -> bool) {
    && TotalPreorder(le)
    && (forall a, b :: le(a, b) && le(b, a) ==> a == b)
  }

  lemma {:induction false} InsertSorts<T(!new)>(x: T, s: seq<T>, le: (T, T) -> bool)
    requires TotalPreorder(le) && Sorted(s, le)
    ensures Sorted(Insert(x, s, le), le)
  {
    if s != [] && !le(x, s[0]) {
      var rest := Insert(x, s[1..], le);
      InsertSorts(x, s[1..], le);
      forall j | 0 <= j < |rest|
        ensures le(s[0], rest[j])
      {
        assert rest[j] in multiset(rest);
        assert rest[j] == x || rest[j] in s[1..];
      }
    }
  }

  lemma {:induction false} SortSorts<T(!new)>(s: seq<T>, le: (T, T) -> bool)
    requires TotalPreorder(le)
    ensures Sorted(Sort(s, le), le)
  {
    if s != [] {
      SortSorts(s[1..], le);
      InsertSorts(s[0], Sort(s[1..], le), le);
    }
  }

  lemma {:induction false} SortFixesSorted<T>(s: seq<T>, le: (T, T) -> bool)
    requires Sorted(s, le)
    ensures Sort(s, le) == s
  {
    if |s| > 0 {
      SortFixesSorted(s[1..], le);
      if |s| > 1 {
        assert le(s[0], s[1]);
      }
    }
  }

  /** No two different elements are equal in the order. */
  ghost predicate Untied<T>(s: seq<T>, le: (T, T) -> bool) {
    forall i, j :: 0 <= i < |s| && 0 <= j < |s| && le(s[i], s[j]) && le(s[j], s[i]) ==> s[i] == s[j]
  }

  /** Lists of the same elements, both sorted, start alike. */
  lemma SortedFirst<T(!new)>(s: seq<T>, t: seq<T>, le: (T, T) -> bool)
    requires TotalPreorder(le) && Untied(s, le) && Sorted(s, le) && Sorted(t, le)
    requires multiset(s) == multiset(t) && s != [] && t != []
    ensures s[0] == t[0]
  {
    assert s[0] in multiset(t);
    assert t[0] in multiset(s);
    var i :| 0 <= i < |t| && t[i] == s[0];
    var j :| 0 <= j < |s| && s[j] == t[0];
    assert le(t[0], t[i]) && le(s[0], s[j]);
  }

  lemma RestOf<T>(s: seq<T>)
    requires s != []
    ensures s == [s[0]] + s[1..] && multiset(s[1..]) == multiset(s)[s[0] := multiset(s)[s[0]] - 1]
  {
    assert s == [s[0]] + s[1..];
    assert multiset(s) == multiset([s[0]]) + multiset(s[1..]);
  }

  /** A sorted list without ties is determined by its elements. */
  lemma {:induction false} SortedUnique<T(!new)>(s: seq<T>, t: seq<T>, le: (T, T) -> bool)
    requires TotalPreorder(le) && Untied(s, le) && Sorted(s, le) && Sorted(t, le)
    requires multiset(s) == multiset(t)
    ensures s == t
  {
    assert |s| == |multiset(s)| == |multiset(t)| == |t|;
    if s != [] {
      SortedFirst(s, t, le);
      RestOf(s);
      RestOf(t);
      assert Untied(s[1..], le) by {
        assert forall i :: 0 <= i < |s| - 1 ==> s[1..][i] == s[i + 1];
      }
      SortedUnique(s[1..], t[1..], le);
    }
  }
}
