/** `stableJson` and `schemaSignature`: one text for every way of ordering the keys of a schema. */
module CanonicalJson {
  import opened Common

  /** A JSON value; a number stands for the text that `JSON.stringify` gives it. */
  datatype Json =
    | Null
    | Boolean(value: bool)
    | Number(text: string)
    | Text(chars: string)
    | Array(items: Items)
    | Object(fields: Fields)

  datatype Items = NoItems | Item(head: Json, rest: Items)

  datatype Fields = NoFields | Field(key: string, value: Json, rest: Fields)

  function Keys(fields: Fields): set<string> {
    match fields
    case NoFields => {}
    case Field(key, _, rest) => {key} + Keys(rest)
  }

  predicate IsNumberChar(c: char) { IsDigit(c) || c == '-' || c == '+' || c == '.' || c == 'e' }

  predicate IsNumberText(s: string) {
    s != "" && (IsDigit(s[0]) || s[0] == '-') && forall i :: 0 <= i < |s| ==> IsNumberChar(s[i])
  }

  /** Number texts are number texts, and no object has a key twice. */
  predicate WellFormed(v: Json) {
    match v
    case Null => true
    case Boolean(_) => true
    case Number(text) => IsNumberText(text)
    case Text(_) => true
    case Array(items) => WellFormedItems(items)
    case Object(fields) => WellFormedFields(fields)
  }

  predicate WellFormedItems(items: Items) {
    match items
    case NoItems => true
    case Item(head, rest) => WellFormed(head) && WellFormedItems(rest)
  }

  predicate WellFormedFields(fields: Fields) {
    match fields
    case NoFields => true
    case Field(key, value, rest) => key !in Keys(rest) && WellFormed(value) && WellFormedFields(rest)
  }

  // ---------------------------------------------------------------- what a value means

  /** A JSON value without key order. */
  datatype Meaning =
    | MNull
    | MBoolean(value: bool)
    | MNumber(text: string)
    | MText(chars: string)
    | MArray(items: seq<Meaning>)
    | MObject(fields: map<string, Meaning>)

  function MeaningOf(v: Json): Meaning {
    match v
    case Null => MNull
    case Boolean(b) => MBoolean(b)
    case Number(text) => MNumber(text)
    case Text(chars) => MText(chars)
    case Array(items) => MArray(MeaningOfItems(items))
    case Object(fields) => MObject(MeaningOfFields(fields))
  }

  function MeaningOfItems(items: Items): seq<Meaning> {
    match items
    case NoItems => []
    case Item(head, rest) => [MeaningOf(head)] + MeaningOfItems(rest)
  }

  function MeaningOfFields(fields: Fields): (m: map<string, Meaning>)
    ensures m.Keys == Keys(fields)
  {
    match fields
    case NoFields => map[]
    case Field(key, value, rest) => MeaningOfFields(rest)[key := MeaningOf(value)]
  }

  // ---------------------------------------------------------------- stableJson

  /**
   * `le` is the order in which the rebuilt object enumerates its keys: array indices by number,
   * then the other keys as `toSorted` leaves them.
   */
  function InsertField(key: string, value: Json, fields: Fields, le: (string, string) -> bool): (r: Fields)
    ensures Keys(r) == {key} + Keys(fields)
  {
    match fields
    case NoFields => Field(key, value, NoFields)
    case Field(first, v, rest) =>
      if le(key, first) then Field(key, value, fields) else Field(first, v, InsertField(key, value, rest, le))
  }

  function StableJson(v: Json, le: (string, string) -> bool): Json {
    match v
    case Array(items) => Array(StableItems(items, le))
    case Object(fields) => Object(StableFields(fields, le))
    case _ => v
  }

  function StableItems(items: Items, le: (string, string) -> bool): Items {
    match items
    case NoItems => NoItems
    case Item(head, rest) => Item(StableJson(head, le), StableItems(rest, le))
  }

  function StableFields(fields: Fields, le: (string, string) -> bool): (r: Fields)
    ensures Keys(r) == Keys(fields)
  {
    match fields
    case NoFields => NoFields
    case Field(key, value, rest) => InsertField(key, StableJson(value, le), StableFields(rest, le), le)
  }

  // ---------------------------------------------------------------- JSON.stringify

  function HexDigit(n: nat): char
    requires n < 16
  {
    "0123456789abcdef"[n]
  }

  function EscapeChar(c: char): string {
    if c == '"' then "\\\""
    else if c == '\\' then "\\\\"
    else if c == '\U{8}' then "\\b"
    else if c == '\U{C}' then "\\f"
    else if c == '\n' then "\\n"
    else if c == '\r' then "\\r"
    else if c == '\t' then "\\t"
    else if c < ' ' then "\\u00" + [HexDigit(c as int / 16), HexDigit(c as int % 16)]
    else [c]
  }

  function Escape(s: string): string {
    if s == "" then "" else EscapeChar(s[0]) + Escape(s[1..])
  }

  function Quoted(s: string): string { "\"" + (Escape(s) + "\"") }

  function Stringify(v: Json): string {
    match v
    case Null => "null"
    case Boolean(b) => if b then "true" else "false"
    case Number(text) => text
    case Text(chars) => Quoted(chars)
    case Array(items) => "[" + StringifyItems(items)
    case Object(fields) => "{" + StringifyFields(fields)
  }

  /** The items of an array, and its closing bracket. */
  function StringifyItems(items: Items): string {
    match items
    case NoItems => "]"
    case Item(head, NoItems) => Stringify(head) + "]"
    case Item(head, rest) => Stringify(head) + ("," + StringifyItems(rest))
  }

  function StringifyFields(fields: Fields): string {
    match fields
    case NoFields => "}"
    case Field(key, value, NoFields) => Quoted(key) + (":" + (Stringify(value) + "}"))
    case Field(key, value, rest) => Quoted(key) + (":" + (Stringify(value) + ("," + StringifyFields(rest))))
  }

  function SchemaSignature(schema: Json, le: (string, string) -> bool): string {
    Stringify(StableJson(schema, le))
  }

  // ---------------------------------------------------------------- printing loses nothing

  lemma Cancel(a: string, b: string, x: string, y: string)
    requires a + x == b + y && |a| == |b|
    ensures a == b && x == y
  {
    assert a == (a + x)[..|a|] && b == (b + y)[..|b|];
    assert x == (a + x)[|a|..] && y == (b + y)[|b|..];
  }

  /** The length of an escape shows in its first two characters. */
  lemma EscapeShape(c: char)
    ensures var e := EscapeChar(c);
            && e != "" && e[0] != '"'
            && (if e[0] != '\\' then |e| == 1 && e[0] == c
                else |e| >= 2 && |e| == (if e[1] == 'u' then 6 else 2))
  {
  }

  lemma EscapeCharInjective(c: char, d: char)
    requires EscapeChar(c) == EscapeChar(d)
    ensures c == d
  {
    var e, f := EscapeChar(c), EscapeChar(d);
    if |e| == 6 {
      assert e[4] == f[4] && e[5] == f[5];
      assert HexDigit(c as int / 16) == HexDigit(d as int / 16) && HexDigit(c as int % 16) == HexDigit(d as int % 16);
    } else if |e| == 2 {
      assert e[1] == f[1];
    }
  }

  lemma EscapeCharCancels(c: char, d: char, x: string, y: string)
    requires EscapeChar(c) + x == EscapeChar(d) + y
    ensures c == d && x == y
  {
    var e, f := EscapeChar(c), EscapeChar(d);
    EscapeShape(c);
    EscapeShape(d);
    assert e[0] == (e + x)[0] == (f + y)[0] == f[0];
    if e[0] == '\\' {
      assert e[1] == (e + x)[1] == (f + y)[1] == f[1];
    }
    assert |e| == |f|;
    Cancel(e, f, x, y);
    EscapeCharInjective(c, d);
  }

  lemma {:induction false} EscapeCancels(s: string, t: string, x: string, y: string)
    requires Escape(s) + ("\"" + x) == Escape(t) + ("\"" + y)
    ensures s == t && x == y
  {
    EscapeLead(s, "\"" + x);
    EscapeLead(t, "\"" + y);
    if s != "" && t != "" {
      Assoc(EscapeChar(s[0]), Escape(s[1..]), "\"" + x);
      Assoc(EscapeChar(t[0]), Escape(t[1..]), "\"" + y);
      EscapeCharCancels(s[0], t[0], Escape(s[1..]) + ("\"" + x), Escape(t[1..]) + ("\"" + y));
      EscapeCancels(s[1..], t[1..], x, y);
      assert s == [s[0]] + s[1..] && t == [t[0]] + t[1..];
    } else {
      assert s == "" && t == "";
      assert Escape(s) + ("\"" + x) == "\"" + x && Escape(t) + ("\"" + y) == "\"" + y;
      Cancel("\"", "\"", x, y);
    }
  }

  /** An escaped text starts with a quote only when nothing is left of it. */
  lemma EscapeLead(s: string, x: string)
    requires x != "" && x[0] == '"'
    ensures (Escape(s) + x)[0] == '"' <==> s == ""
  {
    if s != "" {
      EscapeShape(s[0]);
    }
  }

  lemma QuotedSplit(s: string, x: string)
    ensures Quoted(s) + x == "\"" + (Escape(s) + ("\"" + x))
  {
  }

  lemma QuotedCancels(s: string, t: string, x: string, y: string)
    requires Quoted(s) + x == Quoted(t) + y
    ensures s == t && x == y
  {
    QuotedSplit(s, x);
    QuotedSplit(t, y);
    Cancel("\"", "\"", Escape(s) + ("\"" + x), Escape(t) + ("\"" + y));
    EscapeCancels(s, t, x, y);
  }

  /** What may follow a value: nothing, or a character that continues no value. */
  predicate Delimited(x: string) { x == "" || x[0] == ',' || x[0] == ']' || x[0] == '}' }

  lemma NumberCancels(s: string, t: string, x: string, y: string)
    requires IsNumberText(s) && IsNumberText(t) && Delimited(x) && Delimited(y) && s + x == t + y
    ensures s == t && x == y
  {
    NumberNotShorter(s, t, x, y);
    NumberNotShorter(t, s, y, x);
    Cancel(s, t, x, y);
  }

  lemma NumberNotShorter(s: string, t: string, x: string, y: string)
    requires IsNumberText(t) && Delimited(x) && s + x == t + y
    ensures |s| >= |t|
  {
    var whole := s + x;
    assert whole == t + y;
    assert forall i :: 0 <= i < |t| ==> whole[i] == t[i] && IsNumberChar(t[i]);
    assert x != "" ==> whole[|s|] == x[0];
  }

  /** The first character of a printed value. */
  function Lead(v: Json): char {
    match v
    case Null => 'n'
    case Boolean(b) => if b then 't' else 'f'
    case Number(text) => if text == "" then '0' else text[0]
    case Text(_) => '"'
    case Array(_) => '['
    case Object(_) => '{'
  }

  lemma Leads(v: Json, x: string)
    requires WellFormed(v)
    ensures Stringify(v) != "" && (Stringify(v) + x)[0] == Lead(v)
  {
  }

  /** The first character tells the kinds of values apart. */
  lemma SameKind(v: Json, w: Json)
    requires WellFormed(v) && WellFormed(w) && Lead(v) == Lead(w)
    ensures v.Null? <==> w.Null?
    ensures v.Boolean? <==> w.Boolean?
    ensures v.Number? <==> w.Number?
    ensures v.Text? <==> w.Text?
    ensures v.Array? <==> w.Array?
    ensures v.Object? <==> w.Object?
    ensures v.Null? || v.Boolean? ==> v == w
  {
  }

  lemma PrefixCancels(c: string, a: string, b: string, x: string, y: string)
    requires (c + a) + x == (c + b) + y
    ensures a + x == b + y
  {
    assert (c + a) + x == c + (a + x) && (c + b) + y == c + (b + y);
    Cancel(c, c, a + x, b + y);
  }

  lemma {:induction false} StringifyCancels(v: Json, w: Json, x: string, y: string)
    requires WellFormed(v) && WellFormed(w) && Delimited(x) && Delimited(y)
    requires Stringify(v) + x == Stringify(w) + y
    ensures v == w && x == y
    decreases v
  {
    Leads(v, x);
    Leads(w, y);
    SameKind(v, w);
    if v.Null? || v.Boolean? {
      Cancel(Stringify(v), Stringify(w), x, y);
    } else if v.Number? {
      NumberCancels(v.text, w.text, x, y);
    } else if v.Text? {
      QuotedCancels(v.chars, w.chars, x, y);
    } else if v.Array? {
      PrefixCancels("[", StringifyItems(v.items), StringifyItems(w.items), x, y);
      ItemsCancel(v.items, w.items, x, y);
    } else {
      PrefixCancels("{", StringifyFields(v.fields), StringifyFields(w.fields), x, y);
      FieldsCancel(v.fields, w.fields, x, y);
    }
  }

  /** What follows the first item. */
  function AfterItem(rest: Items): string {
    if rest.NoItems? then "]" else "," + StringifyItems(rest)
  }

  lemma ItemsText(v: Items, x: string)
    requires v.Item?
    ensures StringifyItems(v) + x == Stringify(v.head) + (AfterItem(v.rest) + x)
  {
    assert StringifyItems(v) == Stringify(v.head) + AfterItem(v.rest);
    Assoc(Stringify(v.head), AfterItem(v.rest), x);
  }

  lemma {:induction false} ItemsCancel(v: Items, w: Items, x: string, y: string)
    requires WellFormedItems(v) && WellFormedItems(w) && Delimited(x) && Delimited(y)
    requires StringifyItems(v) + x == StringifyItems(w) + y
    ensures v == w && x == y
    decreases v
  {
    ItemsLead(v, x);
    ItemsLead(w, y);
    if v.NoItems? {
      Cancel("]", "]", x, y);
    } else {
      ItemsText(v, x);
      ItemsText(w, y);
      assert Delimited(AfterItem(v.rest) + x) && Delimited(AfterItem(w.rest) + y);
      StringifyCancels(v.head, w.head, AfterItem(v.rest) + x, AfterItem(w.rest) + y);
      AfterItemCancels(v.rest, w.rest, x, y);
      if v.rest.Item? {
        ItemsCancel(v.rest, w.rest, x, y);
      }
    }
  }

  lemma ItemsLead(v: Items, x: string)
    requires WellFormedItems(v)
    ensures StringifyItems(v) != "" && ((StringifyItems(v) + x)[0] == ']' <==> v.NoItems?)
  {
    if v.Item? {
      Leads(v.head, AfterItem(v.rest) + x);
      assert StringifyItems(v) == Stringify(v.head) + AfterItem(v.rest);
    }
  }

  lemma AfterItemCancels(a: Items, b: Items, x: string, y: string)
    requires AfterItem(a) + x == AfterItem(b) + y
    ensures a.NoItems? <==> b.NoItems?
    ensures a.NoItems? ==> x == y
    ensures a.Item? ==> StringifyItems(a) + x == StringifyItems(b) + y
  {
    assert (AfterItem(a) + x)[0] == if a.NoItems? then ']' else ',';
    assert (AfterItem(b) + y)[0] == if b.NoItems? then ']' else ',';
    if a.NoItems? {
      Cancel("]", "]", x, y);
    } else {
      PrefixCancels(",", StringifyItems(a), StringifyItems(b), x, y);
    }
  }

  /** What follows the first field's value. */
  function AfterField(rest: Fields): string {
    if rest.NoFields? then "}" else "," + StringifyFields(rest)
  }

  lemma FieldText(v: Fields, x: string)
    requires v.Field?
    ensures StringifyFields(v) + x == Quoted(v.key) + (":" + (Stringify(v.value) + (AfterField(v.rest) + x)))
  {
    var value, after := Stringify(v.value), AfterField(v.rest);
    assert StringifyFields(v) == Quoted(v.key) + (":" + (value + after));
    Assoc(Quoted(v.key), ":" + (value + after), x);
    Assoc(":", value + after, x);
    Assoc(value, after, x);
  }

  lemma Assoc(a: string, b: string, c: string)
    ensures (a + b) + c == a + (b + c)
  {
  }

  /** The first keys agree, and so does what follows them. */
  lemma FieldHeadCancels(v: Fields, w: Fields, x: string, y: string)
    requires v.Field? && w.Field? && StringifyFields(v) + x == StringifyFields(w) + y
    ensures v.key == w.key
    ensures Stringify(v.value) + (AfterField(v.rest) + x) == Stringify(w.value) + (AfterField(w.rest) + y)
  {
    FieldText(v, x);
    FieldText(w, y);
    var a, b := Stringify(v.value) + (AfterField(v.rest) + x), Stringify(w.value) + (AfterField(w.rest) + y);
    QuotedCancels(v.key, w.key, ":" + a, ":" + b);
    Cancel(":", ":", a, b);
  }

  lemma {:induction false} FieldsCancel(v: Fields, w: Fields, x: string, y: string)
    requires WellFormedFields(v) && WellFormedFields(w) && Delimited(x) && Delimited(y)
    requires StringifyFields(v) + x == StringifyFields(w) + y
    ensures v == w && x == y
    decreases v
  {
    FieldsLead(v, x);
    FieldsLead(w, y);
    if v.NoFields? {
      Cancel("}", "}", x, y);
    } else {
      FieldHeadCancels(v, w, x, y);
      assert Delimited(AfterField(v.rest) + x) && Delimited(AfterField(w.rest) + y);
      StringifyCancels(v.value, w.value, AfterField(v.rest) + x, AfterField(w.rest) + y);
      AfterFieldCancels(v.rest, w.rest, x, y);
      if v.rest.Field? {
        FieldsCancel(v.rest, w.rest, x, y);
      }
    }
  }

  lemma FieldsLead(v: Fields, x: string)
    ensures StringifyFields(v) != "" && ((StringifyFields(v) + x)[0] == '}' <==> v.NoFields?)
  {
  }

  lemma AfterFieldCancels(a: Fields, b: Fields, x: string, y: string)
    requires AfterField(a) + x == AfterField(b) + y
    ensures a.NoFields? <==> b.NoFields?
    ensures a.NoFields? ==> x == y
    ensures a.Field? ==> StringifyFields(a) + x == StringifyFields(b) + y
  {
    assert (AfterField(a) + x)[0] == if a.NoFields? then '}' else ',';
    assert (AfterField(b) + y)[0] == if b.NoFields? then '}' else ',';
    if a.NoFields? {
      Cancel("}", "}", x, y);
    } else {
      PrefixCancels(",", StringifyFields(a), StringifyFields(b), x, y);
    }
  }

  /** Equal texts are texts of equal values. */
  lemma StringifyInjective(v: Json, w: Json)
    requires WellFormed(v) && WellFormed(w)
    ensures Stringify(v) == Stringify(w) <==> v == w
  {
    if Stringify(v) == Stringify(w) {
      assert Stringify(v) + "" == Stringify(w) + "";
      StringifyCancels(v, w, "", "");
    }
  }

  // ---------------------------------------------------------------- the canonical form

  /** Keys in order, all the way down. */
  ghost predicate Canonical(v: Json, le: (string, string) -> bool) {
    match v
    case Array(items) => CanonicalItems(items, le)
    case Object(fields) => CanonicalFields(fields, le)
    case _ => true
  }

  ghost predicate CanonicalItems(items: Items, le: (string, string) -> bool) {
    match items
    case NoItems => true
    case Item(head, rest) => Canonical(head, le) && CanonicalItems(rest, le)
  }

  ghost predicate CanonicalFields(fields: Fields, le: (string, string) -> bool) {
    match fields
    case NoFields => true
    case Field(key, value, rest) =>
      (forall k :: k in Keys(rest) ==> le(key, k)) && Canonical(value, le) && CanonicalFields(rest, le)
  }

  lemma {:induction false} InsertWellFormed(key: string, value: Json, fields: Fields, le: (string, string) -> bool)
    requires WellFormed(value) && WellFormedFields(fields) && key !in Keys(fields)
    ensures WellFormedFields(InsertField(key, value, fields, le))
  {
    if fields.Field? && !le(key, fields.key) {
      InsertWellFormed(key, value, fields.rest, le);
    }
  }

  lemma {:induction false} InsertCanonical(key: string, value: Json, fields: Fields, le: (string, string) -> bool)
    requires TotalOrder(le) && Canonical(value, le) && CanonicalFields(fields, le)
    ensures CanonicalFields(InsertField(key, value, fields, le), le)
  {
    if fields.Field? {
      if le(key, fields.key) {
        assert forall k :: k in Keys(fields.rest) ==> le(key, k);
      } else {
        InsertCanonical(key, value, fields.rest, le);
        assert le(fields.key, key);
      }
    }
  }

  lemma {:induction false} InsertMeaning(key: string, value: Json, fields: Fields, le: (string, string) -> bool)
    requires key !in Keys(fields)
    ensures MeaningOfFields(InsertField(key, value, fields, le)) == MeaningOfFields(fields)[key := MeaningOf(value)]
  {
    if fields.Field? && !le(key, fields.key) {
      InsertMeaning(key, value, fields.rest, le);
      var m := MeaningOfFields(fields.rest);
      assert m[key := MeaningOf(value)][fields.key := MeaningOf(fields.value)] ==
             m[fields.key := MeaningOf(fields.value)][key := MeaningOf(value)];
    }
  }

  lemma {:induction false} StableKeeps(v: Json, le: (string, string) -> bool)
    requires TotalOrder(le) && WellFormed(v)
    ensures var r := StableJson(v, le);
            WellFormed(r) && Canonical(r, le) && MeaningOf(r) == MeaningOf(v)
    decreases v
  {
    match v
    case Array(items) => StableItemsKeep(items, le);
    case Object(fields) => StableFieldsKeep(fields, le);
    case _ =>
  }

  lemma {:induction false} StableItemsKeep(items: Items, le: (string, string) -> bool)
    requires TotalOrder(le) && WellFormedItems(items)
    ensures var r := StableItems(items, le);
            WellFormedItems(r) && CanonicalItems(r, le) && MeaningOfItems(r) == MeaningOfItems(items)
    decreases items
  {
    if items.Item? {
      StableKeeps(items.head, le);
      StableItemsKeep(items.rest, le);
    }
  }

  lemma {:induction false} StableFieldsKeep(fields: Fields, le: (string, string) -> bool)
    requires TotalOrder(le) && WellFormedFields(fields)
    ensures var r := StableFields(fields, le);
            WellFormedFields(r) && CanonicalFields(r, le) && MeaningOfFields(r) == MeaningOfFields(fields)
    decreases fields
  {
    if fields.Field? {
      StableKeeps(fields.value, le);
      StableFieldsKeep(fields.rest, le);
      var value, rest := StableJson(fields.value, le), StableFields(fields.rest, le);
      InsertWellFormed(fields.key, value, rest, le);
      InsertCanonical(fields.key, value, rest, le);
      InsertMeaning(fields.key, value, rest, le);
    }
  }

  /** A canonical value is determined by its meaning. */
  lemma {:induction false} CanonicalUnique(v: Json, w: Json, le: (string, string) -> bool)
    requires TotalOrder(le) && WellFormed(v) && WellFormed(w) && Canonical(v, le) && Canonical(w, le)
    requires MeaningOf(v) == MeaningOf(w)
    ensures v == w
    decreases v
  {
    match v
    case Array(items) => CanonicalItemsUnique(items, w.items, le);
    case Object(fields) => CanonicalFieldsUnique(fields, w.fields, le);
    case _ =>
  }

  lemma {:induction false} CanonicalItemsUnique(v: Items, w: Items, le: (string, string) -> bool)
    requires TotalOrder(le) && WellFormedItems(v) && WellFormedItems(w)
    requires CanonicalItems(v, le) && CanonicalItems(w, le) && MeaningOfItems(v) == MeaningOfItems(w)
    ensures v == w
    decreases v
  {
    if v.Item? {
      var m, n := MeaningOfItems(v), MeaningOfItems(w);
      assert m[0] == MeaningOf(v.head) && n[0] == MeaningOf(w.head);
      assert m[1..] == MeaningOfItems(v.rest) && n[1..] == MeaningOfItems(w.rest);
      CanonicalUnique(v.head, w.head, le);
      CanonicalItemsUnique(v.rest, w.rest, le);
    }
  }

  lemma {:induction false} CanonicalFieldsUnique(v: Fields, w: Fields, le: (string, string) -> bool)
    requires TotalOrder(le) && WellFormedFields(v) && WellFormedFields(w)
    requires CanonicalFields(v, le) && CanonicalFields(w, le) && MeaningOfFields(v) == MeaningOfFields(w)
    ensures v == w
    decreases v
  {
    if v.NoFields? {
      assert Keys(w) == {};
    } else {
      assert v.key in Keys(w);
      assert w.key in Keys(v);
      assert le(v.key, w.key) && le(w.key, v.key);
      assert MeaningOfFields(v)[v.key] == MeaningOf(v.value) && MeaningOfFields(w)[w.key] == MeaningOf(w.value);
      assert MeaningOfFields(v.rest) == MeaningOfFields(v) - {v.key};
      assert MeaningOfFields(w.rest) == MeaningOfFields(w) - {w.key};
      CanonicalUnique(v.value, w.value, le);
      CanonicalFieldsUnique(v.rest, w.rest, le);
    }
  }

  /** Signatures agree exactly for schemas that are equal up to the order of object keys. */
  lemma SignatureIff(v: Json, w: Json, le: (string, string) -> bool)
    requires TotalOrder(le) && WellFormed(v) && WellFormed(w)
    ensures SchemaSignature(v, le) == SchemaSignature(w, le) <==> MeaningOf(v) == MeaningOf(w)
  {
    StableKeeps(v, le);
    StableKeeps(w, le);
    StringifyInjective(StableJson(v, le), StableJson(w, le));
    if MeaningOf(v) == MeaningOf(w) {
      CanonicalUnique(StableJson(v, le), StableJson(w, le), le);
    }
  }
}
