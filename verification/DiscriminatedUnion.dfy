/** `emitDiscriminatedUnion`: which property tells the branches apart, and what the generated coder does with it. */
module DiscriminatedUnion {
  import opened Common

  // ---------------------------------------------------------------- schemas

  /** A literal; a number that is not whole stands for its printed text, which determines it. */
  datatype Literal = LBool(value: bool) | LWhole(number: int) | LFraction(digits: string) | LString(text: string) | LNull

  /** A property schema, as far as `literalSchemaValue` looks at it. */
  datatype Property = Property(constant: Option<Literal>, enumeration: Option<seq<Literal>>)

  function LiteralSchemaValue(p: Property): Option<Literal> {
    if p.constant.Some? then p.constant
    else if p.enumeration.Some? && |p.enumeration.value| == 1 then
      (if p.enumeration.value[0] == LNull then None else Some(p.enumeration.value[0]))
    else None
  }

  /** What the property schema lets through: its constant, and one of its listed values, where it names them. */
  ghost predicate Admits(p: Property, v: Literal) {
    (p.constant.Some? ==> v == p.constant.value) && (p.enumeration.Some? ==> v in p.enumeration.value)
  }

  /** A literal is the constant or, without one, the only listed value, unless that is null; nothing else is admitted. */
  lemma LiteralIff(p: Property, v: Literal)
    ensures LiteralSchemaValue(p) == Some(v) <==>
            p.constant == Some(v) || (p.constant.None? && p.enumeration == Some([v]) && v != LNull)
    ensures LiteralSchemaValue(p) == Some(v) ==> forall u :: Admits(p, u) ==> u == v
    ensures LiteralSchemaValue(p) == Some(v) && (p.constant.None? || p.enumeration.None?) ==> Admits(p, v)
  {
    if p.enumeration.Some? && |p.enumeration.value| == 1 {
      assert p.enumeration.value == [p.enumeration.value[0]];
    }
  }

  /** A branch: whether its type is "object", its properties in order, and what `namedSchema` says of it. */
  datatype Branch = Branch(isObject: bool, properties: OrderedMap<Property>, name: Option<string>)

  datatype Schema = Schema(oneOf: Option<seq<Branch>>, anyOf: Option<seq<Branch>>)

  datatype SwiftType = SwiftBool | SwiftInt | SwiftDouble | SwiftString | SwiftAnyCodable

  function SwiftLiteralTypeName(v: Literal): SwiftType {
    match v
    case LBool(_) => SwiftBool
    case LWhole(_) => SwiftInt
    case LFraction(_) => SwiftDouble
    case LString(_) => SwiftString
    case LNull => SwiftAnyCodable
  }

  /** `String(value)`; `show` prints whole numbers. */
  function TextOf(v: Literal, show: int -> string): string {
    match v
    case LBool(b) => if b then "true" else "false"
    case LWhole(n) => show(n)
    case LFraction(digits) => digits
    case LString(text) => text
    case LNull => "null"
  }

  /** An arm of the generated switch. */
  datatype Arm = Arm(branchName: string, literal: Literal)

  datatype Union = Union(discriminator: string, arms: seq<Arm>, literalType: SwiftType, hasDefault: bool)

  /** The literal's Swift type is the narrowest that decodes it; only null needs `AnyCodable`. */
  lemma TypeIsNarrowest(v: Literal, t: SwiftType, x: Literal)
    ensures Decodes(v, SwiftLiteralTypeName(v))
    ensures Decodes(v, t) && Decodes(x, SwiftLiteralTypeName(v)) ==> Decodes(x, t) || t == SwiftAnyCodable
    ensures SwiftLiteralTypeName(v) == SwiftAnyCodable <==> v == LNull
  {
  }

  /** Where `String` tells whole numbers apart, literals of one type differ exactly when their texts do. */
  lemma TextsTell(v: Literal, x: Literal, show: int -> string)
    requires forall m, n :: show(m) == show(n) ==> m == n
    requires SwiftLiteralTypeName(v) == SwiftLiteralTypeName(x)
    ensures TextOf(v, show) == TextOf(x, show) <==> v == x
  {
  }

  // ---------------------------------------------------------------- the choice

  function ArmOf(branch: Branch, key: string): Option<Arm> {
    match Get(branch.properties, key)
    case None => None
    case Some(property) =>
      match LiteralSchemaValue(property)
      case None => None
      case Some(literal) =>
        if branch.name.None? || branch.name.value == "" then None else Some(Arm(branch.name.value, literal))
  }

  /** The arms for a key, when every branch has one. */
  function ArmsOf(branches: seq<Branch>, key: string): Option<seq<Arm>> {
    if branches == [] then Some([])
    else
      var n := |branches| - 1;
      var init, last := ArmsOf(branches[..n], key), ArmOf(branches[n], key);
      if init.None? || last.None? then None else Some(init.value + [last.value])
  }

  function Texts(arms: seq<Arm>, show: int -> string): seq<string> {
    if arms == [] then [] else Texts(arms[..|arms| - 1], show) + [TextOf(arms[|arms| - 1].literal, show)]
  }

  function Elements(s: seq<string>): set<string> { set x | x in s }

  predicate OneType(arms: seq<Arm>, t: SwiftType) {
    arms == [] || (OneType(arms[..|arms| - 1], t) && SwiftLiteralTypeName(arms[|arms| - 1].literal) == t)
  }

  predicate HasArm(arms: seq<Arm>, v: Literal) {
    arms != [] && (arms[|arms| - 1].literal == v || HasArm(arms[..|arms| - 1], v))
  }

  predicate Separates(arms: seq<Arm>, show: int -> string) {
    && arms != []
    && OneType(arms, SwiftLiteralTypeName(arms[0].literal))
    && |Elements(Texts(arms, show))| == |arms|
  }

  function UnionFor(branches: seq<Branch>, key: string, show: int -> string): Option<Union> {
    match ArmsOf(branches, key)
    case None => None
    case Some(arms) =>
      if !Separates(arms, show) then None
      else
        var t := SwiftLiteralTypeName(arms[0].literal);
        Some(Union(key, arms, t, !(t == SwiftBool && HasArm(arms, LBool(true)) && HasArm(arms, LBool(false)))))
  }

  /** The union of the first key that separates the branches. */
  function FirstUnion(branches: seq<Branch>, keys: OrderedMap<Property>, show: int -> string): Option<Union> {
    if keys == [] then None
    else
      var u := UnionFor(branches, keys[0].0, show);
      if u.Some? then u else FirstUnion(branches, keys[1..], show)
  }

  predicate AllObjects(branches: seq<Branch>) {
    forall i :: 0 <= i < |branches| ==> branches[i].isObject
  }

  function Branches(schema: Schema): Option<seq<Branch>> {
    if schema.oneOf.Some? then schema.oneOf else schema.anyOf
  }

  function Emitted(schema: Schema, show: int -> string): Option<Union> {
    match Branches(schema)
    case None => None
    case Some(branches) =>
      if |branches| < 2 || !AllObjects(branches) then None
      else FirstUnion(branches, branches[0].properties, show)
  }

  /** The branches of `oneOf` count, whatever `anyOf` says; without it those of `anyOf` do, in the same way. */
  lemma OneOfFirst(schema: Schema, branches: seq<Branch>, show: int -> string)
    ensures Emitted(Schema(Some(branches), schema.anyOf), show) == Emitted(Schema(None, Some(branches)), show)
    ensures Emitted(Schema(None, None), show) == None
  {
  }

  method EmitDiscriminatedUnion(schema: Schema, show: int -> string) returns (union: Option<Union>)
    ensures union == Emitted(schema, show)
  {
    var branches := Branches(schema);
    if branches.None? || |branches.value| < 2 || !AllObjects(branches.value) {
      return None;
    }
    var candidates := branches.value[0].properties;
    for i := 0 to |candidates|
      invariant Emitted(schema, show) == FirstUnion(branches.value, candidates[i..], show)
    {
      var arms := CollectArms(branches.value, candidates[i].0);
      if arms.None? || arms.value == [] {
        continue;
      }
      var literalType := SwiftLiteralTypeName(arms.value[0].literal);
      var oneType, texts, hasTrue, hasFalse := Survey(arms.value, literalType, show);
      if !oneType || |texts| != |arms.value| {
        continue;
      }
      var coversAllBoolCases := literalType == SwiftBool && hasTrue && hasFalse;
      return Some(Union(candidates[i].0, arms.value, literalType, !coversAllBoolCases));
    }
    return None;
  }

  method CollectArms(branches: seq<Branch>, key: string) returns (arms: Option<seq<Arm>>)
    ensures arms == ArmsOf(branches, key)
  {
    arms := Some([]);
    for i := 0 to |branches|
      invariant arms == ArmsOf(branches[..i], key)
    {
      assert branches[..i + 1][..i] == branches[..i];
      var arm := ArmOf(branches[i], key);
      arms := if arms.None? || arm.None? then None else Some(arms.value + [arm.value]);
    }
    assert branches[..|branches|] == branches;
  }

  /** The `some` searches and the set of texts over the arms. */
  method Survey(arms: seq<Arm>, literalType: SwiftType, show: int -> string)
    returns (oneType: bool, texts: set<string>, hasTrue: bool, hasFalse: bool)
    ensures oneType == OneType(arms, literalType)
    ensures texts == Elements(Texts(arms, show))
    ensures hasTrue == HasArm(arms, LBool(true)) && hasFalse == HasArm(arms, LBool(false))
  {
    oneType, texts, hasTrue, hasFalse := true, {}, false, false;
    for i := 0 to |arms|
      invariant oneType == OneType(arms[..i], literalType)
      invariant texts == Elements(Texts(arms[..i], show))
      invariant hasTrue == HasArm(arms[..i], LBool(true)) && hasFalse == HasArm(arms[..i], LBool(false))
    {
      assert arms[..i + 1][..i] == arms[..i];
      oneType := oneType && SwiftLiteralTypeName(arms[i].literal) == literalType;
      texts := texts + {TextOf(arms[i].literal, show)};
      hasTrue := arms[i].literal == LBool(true) || hasTrue;
      hasFalse := arms[i].literal == LBool(false) || hasFalse;
    }
    assert arms[..|arms|] == arms;
  }

  // ---------------------------------------------------------------- what the choice guarantees

  ghost predicate DistinctTexts(arms: seq<Arm>, show: int -> string) {
    forall i, j :: 0 <= i < j < |arms| ==> TextOf(arms[i].literal, show) != TextOf(arms[j].literal, show)
  }

  lemma {:induction false} TextsAt(arms: seq<Arm>, show: int -> string, i: nat)
    requires i < |arms|
    ensures |Texts(arms, show)| == |arms| && Texts(arms, show)[i] == TextOf(arms[i].literal, show)
  {
    var n := |arms| - 1;
    if n > 0 {
      TextsAt(arms[..n], show, if i < n then i else 0);
    }
  }

  /** A set is as large as the list it is made of exactly when the list has no repetition. */
  lemma {:induction false} ElementsSize(s: seq<string>)
    ensures |Elements(s)| <= |s|
    ensures |Elements(s)| == |s| <==> forall i, j :: 0 <= i < j < |s| ==> s[i] != s[j]
  {
    if s != [] {
      var n := |s| - 1;
      ElementsSize(s[..n]);
      assert s == s[..n] + [s[n]];
      assert Elements(s) == Elements(s[..n]) + {s[n]};
      if s[n] in s[..n] {
        var i :| 0 <= i < n && s[..n][i] == s[n];
        assert s[i] == s[n];
        assert Elements(s) == Elements(s[..n]);
      } else {
        assert |Elements(s)| == |Elements(s[..n])| + 1;
        assert forall i :: 0 <= i < n ==> s[i] != s[n] by {
          assert forall i :: 0 <= i < n ==> s[..n][i] == s[i] && s[..n][i] in s[..n];
        }
        assert forall i, j :: 0 <= i < j < n ==> s[..n][i] == s[i] && s[..n][j] == s[j];
      }
    } else {
      assert Elements(s) == {};
    }
  }

  lemma {:induction false} OneTypeAt(arms: seq<Arm>, t: SwiftType)
    ensures OneType(arms, t) <==> forall i :: 0 <= i < |arms| ==> SwiftLiteralTypeName(arms[i].literal) == t
  {
    if arms != [] {
      var n := |arms| - 1;
      OneTypeAt(arms[..n], t);
      assert forall i :: 0 <= i < n ==> arms[..n][i] == arms[i];
    }
  }

  /** A list of arms separates exactly when its literals have one type and pairwise different texts. */
  lemma SeparatesIff(arms: seq<Arm>, show: int -> string)
    ensures Separates(arms, show) <==>
            && arms != []
            && (forall i :: 0 <= i < |arms| ==> SwiftLiteralTypeName(arms[i].literal) == SwiftLiteralTypeName(arms[0].literal))
            && DistinctTexts(arms, show)
  {
    if arms != [] {
      OneTypeAt(arms, SwiftLiteralTypeName(arms[0].literal));
      ElementsSize(Texts(arms, show));
      forall i | 0 <= i < |arms|
        ensures |Texts(arms, show)| == |arms| && Texts(arms, show)[i] == TextOf(arms[i].literal, show)
      {
        TextsAt(arms, show, i);
      }
      TextsAt(arms, show, 0);
    }
  }

  lemma {:induction false} ArmsLength(branches: seq<Branch>, key: string)
    requires ArmsOf(branches, key).Some?
    ensures |ArmsOf(branches, key).value| == |branches|
    ensures forall i :: 0 <= i < |branches| ==> ArmOf(branches[i], key) == Some(ArmsOf(branches, key).value[i])
  {
    if branches != [] {
      var n := |branches| - 1;
      ArmsLength(branches[..n], key);
      assert forall i :: 0 <= i < n ==> branches[..n][i] == branches[i];
    }
  }

  /** The chosen union: two or more arms, one per branch, of one type, with pairwise different literals. */
  ghost predicate Sound(u: Union) {
    && |u.arms| >= 2
    && (forall i :: 0 <= i < |u.arms| ==> SwiftLiteralTypeName(u.arms[i].literal) == u.literalType)
    && (forall i, j :: 0 <= i < j < |u.arms| ==> u.arms[i].literal != u.arms[j].literal)
    && u.hasDefault == (u.literalType != SwiftBool)
  }

  lemma {:induction false} HasArmIff(arms: seq<Arm>, v: Literal)
    ensures HasArm(arms, v) <==> exists i :: 0 <= i < |arms| && arms[i].literal == v
  {
    if arms != [] {
      var n := |arms| - 1;
      HasArmIff(arms[..n], v);
      assert forall i :: 0 <= i < n ==> arms[..n][i] == arms[i];
    }
  }

  lemma BothBools(arms: seq<Arm>)
    requires |arms| >= 2 && arms[0].literal.LBool? && arms[1].literal.LBool? && arms[0].literal != arms[1].literal
    ensures HasArm(arms, LBool(true)) && HasArm(arms, LBool(false))
  {
    HasArmIff(arms, LBool(true));
    HasArmIff(arms, LBool(false));
    assert arms[0].literal == LBool(true) || arms[1].literal == LBool(true);
    assert arms[0].literal == LBool(false) || arms[1].literal == LBool(false);
  }

  lemma SeparatedLiterals(arms: seq<Arm>, show: int -> string)
    requires |arms| >= 2 && Separates(arms, show)
    ensures var t := SwiftLiteralTypeName(arms[0].literal);
            && t != SwiftAnyCodable
            && (forall i :: 0 <= i < |arms| ==> SwiftLiteralTypeName(arms[i].literal) == t)
            && (forall i, j :: 0 <= i < j < |arms| ==> arms[i].literal != arms[j].literal)
  {
    SeparatesIff(arms, show);
    assert TextOf(arms[0].literal, show) != TextOf(arms[1].literal, show);
    assert SwiftLiteralTypeName(arms[1].literal) == SwiftLiteralTypeName(arms[0].literal);
  }

  lemma UnionForSound(branches: seq<Branch>, key: string, show: int -> string)
    requires |branches| >= 2 && UnionFor(branches, key, show).Some?
    ensures var u := UnionFor(branches, key, show).value;
            Sound(u) && u.discriminator == key && |u.arms| == |branches| && u.literalType != SwiftAnyCodable
  {
    var arms := UnionFor(branches, key, show).value.arms;
    ArmsLength(branches, key);
    SeparatedLiterals(arms, show);
    if SwiftLiteralTypeName(arms[0].literal) == SwiftBool {
      assert SwiftLiteralTypeName(arms[1].literal) == SwiftBool;
      BothBools(arms);
    }
  }

  /** No union exactly when no property of the first branch separates; otherwise the first one that does. */
  lemma {:induction false} FirstUnionIff(branches: seq<Branch>, keys: OrderedMap<Property>, show: int -> string)
    ensures FirstUnion(branches, keys, show).None? <==>
            forall k :: 0 <= k < |keys| ==> UnionFor(branches, keys[k].0, show).None?
    ensures FirstUnion(branches, keys, show).Some? ==>
            exists k :: 0 <= k < |keys| && FirstUnion(branches, keys, show) == UnionFor(branches, keys[k].0, show)
                        && forall j :: 0 <= j < k ==> UnionFor(branches, keys[j].0, show).None?
  {
    if keys != [] && UnionFor(branches, keys[0].0, show).None? {
      FirstUnionIff(branches, keys[1..], show);
      if FirstUnion(branches, keys[1..], show).Some? {
        var k :| 0 <= k < |keys[1..]| && FirstUnion(branches, keys[1..], show) == UnionFor(branches, keys[1..][k].0, show)
                 && forall j :: 0 <= j < k ==> UnionFor(branches, keys[1..][j].0, show).None?;
        assert keys[k + 1] == keys[1..][k];
        assert forall j :: 0 < j <= k ==> keys[j] == keys[1..][j - 1];
      } else {
        assert forall j :: 0 < j < |keys| ==> keys[j] == keys[1..][j - 1];
      }
    }
  }

  /** The key tells the branches apart: literals of one Swift type with pairwise different texts, all branches named. */
  ghost predicate TellsApart(branches: seq<Branch>, key: string, show: int -> string) {
    && (forall i :: 0 <= i < |branches| ==> ArmOf(branches[i], key).Some?)
    && (forall i :: 0 <= i < |branches| ==>
          SwiftLiteralTypeName(ArmOf(branches[i], key).value.literal) == SwiftLiteralTypeName(ArmOf(branches[0], key).value.literal))
    && (forall i, j :: 0 <= i < j < |branches| ==>
          TextOf(ArmOf(branches[i], key).value.literal, show) != TextOf(ArmOf(branches[j], key).value.literal, show))
  }

  lemma {:induction false} ArmsWhenAll(branches: seq<Branch>, key: string)
    requires forall i :: 0 <= i < |branches| ==> ArmOf(branches[i], key).Some?
    ensures ArmsOf(branches, key).Some?
  {
    if branches != [] {
      var n := |branches| - 1;
      assert forall i :: 0 <= i < n ==> branches[..n][i] == branches[i];
      ArmsWhenAll(branches[..n], key);
    }
  }

  lemma UnionForIff(branches: seq<Branch>, key: string, show: int -> string)
    requires branches != []
    ensures UnionFor(branches, key, show).Some? <==> TellsApart(branches, key, show)
  {
    if ArmsOf(branches, key).Some? {
      ArmsLength(branches, key);
      SeparatesIff(ArmsOf(branches, key).value, show);
    } else if TellsApart(branches, key, show) {
      ArmsWhenAll(branches, key);
    }
  }

  /** A union is emitted exactly for two or more object branches that a property of the first branch tells apart. */
  lemma EmittedIff(schema: Schema, show: int -> string)
    ensures Emitted(schema, show).Some? <==>
            && Branches(schema).Some? && |Branches(schema).value| >= 2 && AllObjects(Branches(schema).value)
            && exists k :: 0 <= k < |Branches(schema).value[0].properties|
                           && TellsApart(Branches(schema).value, Branches(schema).value[0].properties[k].0, show)
  {
    if Branches(schema).Some? && |Branches(schema).value| >= 2 {
      var branches := Branches(schema).value;
      var keys := branches[0].properties;
      FirstUnionIff(branches, keys, show);
      forall k | 0 <= k < |keys|
        ensures UnionFor(branches, keys[k].0, show).Some? <==> TellsApart(branches, keys[k].0, show)
      {
        UnionForIff(branches, keys[k].0, show);
      }
    }
  }

  lemma EmittedSound(schema: Schema, show: int -> string)
    requires Emitted(schema, show).Some?
    ensures var u := Emitted(schema, show).value;
            Sound(u) && u.literalType != SwiftAnyCodable && |u.arms| == |Branches(schema).value|
  {
    var branches := Branches(schema).value;
    FirstUnionIff(branches, branches[0].properties, show);
    var k :| 0 <= k < |branches[0].properties|
             && Emitted(schema, show) == UnionFor(branches, branches[0].properties[k].0, show);
    UnionForSound(branches, branches[0].properties[k].0, show);
  }

  /** Arm `i` belongs to branch `i`: it carries the branch's name and its literal for the discriminator. */
  lemma EmittedArm(schema: Schema, show: int -> string, i: nat)
    requires Emitted(schema, show).Some? && i < |Branches(schema).value|
    ensures var u := Emitted(schema, show).value;
            |u.arms| == |Branches(schema).value| && ArmOf(Branches(schema).value[i], u.discriminator) == Some(u.arms[i])
  {
    var branches := Branches(schema).value;
    FirstUnionIff(branches, branches[0].properties, show);
    var k :| 0 <= k < |branches[0].properties|
             && Emitted(schema, show) == UnionFor(branches, branches[0].properties[k].0, show);
    ArmsLength(branches, branches[0].properties[k].0);
  }

  /** The object carries, under the key, a value that the branch admits there. */
  ghost predicate ValidAt(branch: Branch, key: string, fields: map<string, Literal>) {
    key in fields && Get(branch.properties, key).Some? && Admits(Get(branch.properties, key).value, fields[key])
  }

  /** The literal of arm `i` is the only value that branch `i` admits for the discriminator. */
  lemma ArmAdmits(schema: Schema, show: int -> string, i: nat, v: Literal)
    requires Emitted(schema, show).Some? && i < |Branches(schema).value|
    ensures var u := Emitted(schema, show).value;
            var property := Get(Branches(schema).value[i].properties, u.discriminator);
            |u.arms| == |Branches(schema).value| && property.Some? && (Admits(property.value, v) ==> v == u.arms[i].literal)
  {
    EmittedArm(schema, show, i);
    var u := Emitted(schema, show).value;
    LiteralIff(Get(Branches(schema).value[i].properties, u.discriminator).value, u.arms[i].literal);
  }

  // ---------------------------------------------------------------- the generated coder

  /** What `decode(T.self, forKey:)` accepts. */
  predicate Decodes(v: Literal, t: SwiftType) {
    match t
    case SwiftBool => v.LBool?
    case SwiftInt => v.LWhole?
    case SwiftDouble => v.LWhole? || v.LFraction?
    case SwiftString => v.LString?
    case SwiftAnyCodable => true
  }

  type Fields = map<string, Literal>

  /** The coder of a branch's struct; None is a thrown error. */
  datatype BranchCoder<!P> = BranchCoder(encode: P -> Option<Fields>, decode: Fields -> Option<P>)

  /** A value of the enumeration: its case, and the struct it carries. */
  datatype Value<P> = Value(branch: nat, payload: P)

  /** `encode(to:)` hands on to the struct of the case. */
  function Encode<P>(coders: seq<BranchCoder<P>>, x: Value<P>): Option<Fields>
    requires x.branch < |coders|
  {
    coders[x.branch].encode(x.payload)
  }

  /** The first arm whose literal the discriminator equals. */
  function FirstArm(arms: seq<Arm>, v: Literal): (r: Option<nat>)
    ensures r.Some? ==> r.value < |arms|
  {
    if arms == [] then None
    else if arms[0].literal == v then Some(0)
    else
      match FirstArm(arms[1..], v)
      case None => None
      case Some(i) => Some(i + 1)
  }

  /** `init(from:)`: the discriminator picks the struct that decodes the object. */
  function Decode<P>(u: Union, coders: seq<BranchCoder<P>>, fields: Fields): Option<Value<P>>
    requires |coders| == |u.arms|
  {
    if u.discriminator !in fields || !Decodes(fields[u.discriminator], u.literalType) then None
    else
      match FirstArm(u.arms, fields[u.discriminator])
      case None => None
      case Some(i) =>
        match coders[i].decode(fields)
        case None => None
        case Some(payload) => Some(Value(i, payload))
  }

  lemma {:induction false} FirstArmIs(arms: seq<Arm>, v: Literal)
    ensures match FirstArm(arms, v)
            case None => forall j :: 0 <= j < |arms| ==> arms[j].literal != v
            case Some(i) => i < |arms| && arms[i].literal == v && forall j :: 0 <= j < i ==> arms[j].literal != v
  {
    if arms != [] && arms[0].literal != v {
      FirstArmIs(arms[1..], v);
      assert forall j :: 0 < j < |arms| ==> arms[j] == arms[1..][j - 1];
    }
  }

  lemma TypeDecodes(v: Literal)
    ensures Decodes(v, SwiftLiteralTypeName(v))
  {
  }

  /** An object carries the literal of branch `i`. */
  predicate Carries(u: Union, fields: Fields, i: nat)
    requires i < |u.arms|
  {
    u.discriminator in fields && fields[u.discriminator] == u.arms[i].literal
  }

  /** An object decodes to a value of branch `i` exactly when it carries the literal of branch `i` and its struct decodes. */
  lemma DecodesTo<P>(u: Union, coders: seq<BranchCoder<P>>, fields: Fields, i: nat, payload: P)
    requires Sound(u) && |coders| == |u.arms| && i < |u.arms|
    ensures Decode(u, coders, fields) == Some(Value(i, payload)) <==>
            Carries(u, fields, i) && coders[i].decode(fields) == Some(payload)
  {
    if u.discriminator in fields {
      FirstArmIs(u.arms, fields[u.discriminator]);
      TypeDecodes(u.arms[i].literal);
    }
  }

  /** An object that is valid for branch `i` goes to branch `i`, and there its struct decides. */
  lemma ValidGoesTo<P>(schema: Schema, show: int -> string, coders: seq<BranchCoder<P>>, fields: Fields, i: nat)
    requires Emitted(schema, show).Some? && i < |Branches(schema).value| && |coders| == |Branches(schema).value|
    requires ValidAt(Branches(schema).value[i], Emitted(schema, show).value.discriminator, fields)
    ensures var u := Emitted(schema, show).value;
            && |u.arms| == |coders| && Carries(u, fields, i)
            && Decode(u, coders, fields) ==
               match coders[i].decode(fields) { case None => None case Some(payload) => Some(Value(i, payload)) }
  {
    var u := Emitted(schema, show).value;
    EmittedSound(schema, show);
    ArmAdmits(schema, show, i, fields[u.discriminator]);
    match coders[i].decode(fields)
    case Some(payload) => DecodesTo(u, coders, fields, i, payload);
    case None => OnlyCarrier(u, coders, fields, i);
  }

  /** The branches have different literals, so the one that is carried decides. */
  lemma OnlyCarrier<P>(u: Union, coders: seq<BranchCoder<P>>, fields: Fields, i: nat)
    requires Sound(u) && |coders| == |u.arms| && i < |u.arms| && Carries(u, fields, i) && coders[i].decode(fields).None?
    ensures Decode(u, coders, fields).None?
  {
    DecodeFailsIff(u, coders, fields);
    forall j | 0 <= j < |u.arms| && Carries(u, fields, j)
      ensures coders[j].decode(fields).None?
    {
      assert i == j;
    }
  }

  /** Decoding throws exactly when the object carries no branch's literal, or the struct of the branch it names throws. */
  lemma DecodeFailsIff<P>(u: Union, coders: seq<BranchCoder<P>>, fields: Fields)
    requires Sound(u) && |coders| == |u.arms|
    ensures Decode(u, coders, fields).None? <==>
            forall i :: 0 <= i < |u.arms| && Carries(u, fields, i) ==> coders[i].decode(fields).None?
  {
    if u.discriminator in fields {
      FirstArmIs(u.arms, fields[u.discriminator]);
      forall i | 0 <= i < |u.arms|
        ensures Decodes(u.arms[i].literal, u.literalType)
      {
        TypeDecodes(u.arms[i].literal);
      }
    }
  }

  /** What the struct of branch `i` makes of a payload is decoded by it again, and carries the branch's literal. */
  ghost predicate Faithful<P>(u: Union, coder: BranchCoder<P>, i: nat, payload: P)
    requires i < |u.arms|
  {
    var fields := coder.encode(payload);
    fields.Some? && Carries(u, fields.value, i) && coder.decode(fields.value) == Some(payload)
  }

  ghost predicate RoundTrips<P>(u: Union, coders: seq<BranchCoder<P>>, x: Value<P>)
    requires |coders| == |u.arms| && x.branch < |u.arms|
  {
    var fields := Encode(coders, x);
    fields.Some? && Decode(u, coders, fields.value) == Some(x)
  }

  /** Encoding and decoding give a value back exactly when its struct round-trips and writes the branch's literal. */
  lemma RoundTripIff<P>(u: Union, coders: seq<BranchCoder<P>>, x: Value<P>)
    requires Sound(u) && |coders| == |u.arms| && x.branch < |u.arms|
    ensures RoundTrips(u, coders, x) <==> Faithful(u, coders[x.branch], x.branch, x.payload)
  {
    var fields := Encode(coders, x);
    if fields.Some? {
      DecodesTo(u, coders, fields.value, x.branch, x.payload);
    }
  }

  // ---------------------------------------------------------------- the default arm

  ghost predicate Exhaustive(u: Union) {
    forall v :: Decodes(v, u.literalType) ==> FirstArm(u.arms, v).Some?
  }

  /** A number above all whole literals. */
  function Above(arms: seq<Arm>): int {
    if arms == [] then 0
    else
      var rest := Above(arms[1..]);
      if arms[0].literal.LWhole? && arms[0].literal.number >= rest then arms[0].literal.number + 1 else rest
  }

  lemma {:induction false} AboveAll(arms: seq<Arm>, n: int)
    requires n >= Above(arms)
    ensures FirstArm(arms, LWhole(n)).None?
  {
    if arms != [] {
      AboveAll(arms[1..], n);
    }
  }

  function Longer(arms: seq<Arm>): nat {
    if arms == [] then 0
    else
      var rest := Longer(arms[1..]);
      if arms[0].literal.LString? && |arms[0].literal.text| >= rest then |arms[0].literal.text| + 1 else rest
  }

  lemma {:induction false} LongerThanAll(arms: seq<Arm>, s: string)
    requires |s| >= Longer(arms)
    ensures FirstArm(arms, LString(s)).None?
  {
    if arms != [] {
      LongerThanAll(arms[1..], s);
    }
  }

  /** The default arm is left out exactly when the other arms cover every value of the discriminator's type. */
  lemma DefaultIff(schema: Schema, show: int -> string)
    requires Emitted(schema, show).Some?
    ensures var u := Emitted(schema, show).value;
            !u.hasDefault <==> Exhaustive(u)
  {
    var u := Emitted(schema, show).value;
    EmittedSound(schema, show);
    if u.literalType == SwiftBool {
      BoolsCovered(u);
    } else if u.literalType == SwiftString {
      var s := seq(Longer(u.arms), _ => 'x');
      LongerThanAll(u.arms, s);
      assert Decodes(LString(s), u.literalType);
    } else {
      var v := LWhole(Above(u.arms));
      AboveAll(u.arms, Above(u.arms));
      assert Decodes(v, u.literalType);
    }
  }

  lemma BoolsCovered(u: Union)
    requires Sound(u) && u.literalType == SwiftBool
    ensures Exhaustive(u)
  {
    var a, b := u.arms[0].literal, u.arms[1].literal;
    assert a.LBool? && b.LBool? && a != b;
    forall v | Decodes(v, u.literalType)
      ensures FirstArm(u.arms, v).Some?
    {
      FirstArmIs(u.arms, v);
      assert v == a || v == b;
    }
  }
}
