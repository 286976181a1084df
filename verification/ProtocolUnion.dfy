/** The union emitter on top of the registry: when a union is emitted, and which definitions its arms decode into. */
module ProtocolUnion {
  import opened Common
  import opened CanonicalJson
  import opened DiscriminatedUnion
  import opened SchemaRegistry

  /** A branch before it is named: the identity and the content of its schema object, and the emitter's view of it. */
  datatype Candidate = Candidate(id: nat, schema: Json, isObject: bool, properties: OrderedMap<Property>)

  /** The candidate is a schema object as the registry saw it, if the registry saw it. */
  ghost predicate Known(log: seq<Registration>, c: Candidate) {
    WellFormed(c.schema) && forall i :: 0 <= i < |log| && log[i].id == c.id ==> log[i].schema == c.schema
  }

  ghost predicate AllKnown(log: seq<Registration>, candidates: seq<Candidate>) {
    forall i :: 0 <= i < |candidates| ==> Known(log, candidates[i])
  }

  ghost function NameOf(log: seq<Registration>, c: Candidate): Option<string> {
    NameFor(log, c.id, MeaningOf(c.schema), true)
  }

  ghost function Named(log: seq<Registration>, c: Candidate): Branch {
    Branch(c.isObject, c.properties, NameOf(log, c))
  }

  ghost function AllNamed(log: seq<Registration>, candidates: seq<Candidate>): seq<Branch> {
    seq(|candidates|, i requires 0 <= i < |candidates| => Named(log, candidates[i]))
  }

  /** `namedSchema(branch, true)` for every branch */
  method NameBranches(registry: Registry, candidates: seq<Candidate>) returns (branches: seq<Branch>)
    requires registry.Valid() && TotalOrder(registry.le) && AllWellFormed(registry.log)
    requires AllKnown(registry.log, candidates)
    ensures branches == AllNamed(registry.log, candidates)
    ensures forall i :: 0 <= i < |candidates| && branches[i].name.Some? ==>
              Defines(registry.log, branches[i].name.value, MeaningOf(candidates[i].schema))
  {
    branches := [];
    for i := 0 to |candidates|
      invariant |branches| == i
      invariant forall j :: 0 <= j < i ==> branches[j] == Named(registry.log, candidates[j])
      invariant forall j :: 0 <= j < i && branches[j].name.Some? ==>
                  Defines(registry.log, branches[j].name.value, MeaningOf(candidates[j].schema))
    {
      var c := candidates[i];
      assert Known(registry.log, c);
      var name := registry.NamedSchema(c.id, c.schema, true);
      branches := branches + [Branch(c.isObject, c.properties, name)];
    }
  }

  // ---------------------------------------------------------------- when a union is emitted

  /** The registry knows a non-empty name: the object's own, or that of the only schema that means the same. */
  ghost predicate Identified(log: seq<Registration>, c: Candidate) {
    && (ObjectName(log, c.id).Some? || SameMeaning(log, MeaningOf(c.schema)) == 1)
    && NameOf(log, c) != Some("")
  }

  ghost predicate AllIdentified(log: seq<Registration>, candidates: seq<Candidate>) {
    forall i :: 0 <= i < |candidates| ==> Identified(log, candidates[i])
  }

  ghost predicate ObjectTypes(candidates: seq<Candidate>) {
    forall i :: 0 <= i < |candidates| ==> candidates[i].isObject
  }

  function LiteralOf(c: Candidate, key: string): Option<Literal> {
    var property := Get(c.properties, key);
    if property.None? then None else LiteralSchemaValue(property.value)
  }

  /** Under the key, every candidate has a literal; they have one Swift type and pairwise different texts. */
  ghost predicate LiteralsDiffer(candidates: seq<Candidate>, key: string, show: int -> string) {
    && (forall i :: 0 <= i < |candidates| ==> LiteralOf(candidates[i], key).Some?)
    && (forall i :: 0 <= i < |candidates| ==>
          SwiftLiteralTypeName(LiteralOf(candidates[i], key).value) == SwiftLiteralTypeName(LiteralOf(candidates[0], key).value))
    && (forall i, j :: 0 <= i < j < |candidates| ==>
          TextOf(LiteralOf(candidates[i], key).value, show) != TextOf(LiteralOf(candidates[j], key).value, show))
  }

  ghost predicate SomeKeyDiffers(candidates: seq<Candidate>, show: int -> string)
    requires candidates != []
  {
    exists k :: 0 <= k < |candidates[0].properties| && LiteralsDiffer(candidates, candidates[0].properties[k].0, show)
  }

  lemma {:induction false} UniqueIsNamed(log: seq<Registration>, meaning: Meaning)
    requires SameMeaning(log, meaning) >= 1
    ensures NameOfMeaning(log, meaning).Some?
  {
    var n := |log| - 1;
    if MeaningOf(log[n].schema) != meaning {
      UniqueIsNamed(log[..n], meaning);
    }
  }

  lemma IdentifiedIff(log: seq<Registration>, c: Candidate)
    ensures Identified(log, c) <==> NameOf(log, c).Some? && NameOf(log, c).value != ""
  {
    if SameMeaning(log, MeaningOf(c.schema)) == 1 {
      UniqueIsNamed(log, MeaningOf(c.schema));
    }
  }

  /** A candidate has an arm for a key exactly when it is identified and has a literal there. */
  lemma ArmIff(log: seq<Registration>, c: Candidate, key: string)
    ensures var arm := ArmOf(Named(log, c), key);
            && (arm.Some? <==> Identified(log, c) && LiteralOf(c, key).Some?)
            && (arm.Some? ==> NameOf(log, c) == Some(arm.value.branchName) && LiteralOf(c, key) == Some(arm.value.literal))
  {
    IdentifiedIff(log, c);
  }

  lemma TellsApartIff(log: seq<Registration>, candidates: seq<Candidate>, key: string, show: int -> string)
    ensures TellsApart(AllNamed(log, candidates), key, show) <==>
            AllIdentified(log, candidates) && LiteralsDiffer(candidates, key, show)
  {
    var branches := AllNamed(log, candidates);
    forall i | 0 <= i < |candidates|
      ensures ArmOf(branches[i], key).Some? <==> Identified(log, candidates[i]) && LiteralOf(candidates[i], key).Some?
      ensures ArmOf(branches[i], key).Some? ==> LiteralOf(candidates[i], key) == Some(ArmOf(branches[i], key).value.literal)
    {
      ArmIff(log, candidates[i], key);
    }
  }

  ghost function UnionOf(log: seq<Registration>, candidates: seq<Candidate>, show: int -> string): Option<Union> {
    Emitted(Schema(Some(AllNamed(log, candidates)), None), show)
  }

  /** A union is emitted exactly for two or more identified objects that some property of the first tells apart. */
  lemma UnionIff(log: seq<Registration>, candidates: seq<Candidate>, show: int -> string)
    ensures UnionOf(log, candidates, show).Some? <==>
            && |candidates| >= 2 && ObjectTypes(candidates) && AllIdentified(log, candidates)
            && SomeKeyDiffers(candidates, show)
  {
    var branches := AllNamed(log, candidates);
    EmittedIff(Schema(Some(branches), None), show);
    assert AllObjects(branches) <==> ObjectTypes(candidates) by {
      assert forall i :: 0 <= i < |candidates| ==> branches[i] == Named(log, candidates[i]);
    }
    if |candidates| >= 2 {
      forall k | 0 <= k < |candidates[0].properties|
        ensures TellsApart(branches, branches[0].properties[k].0, show) <==>
                AllIdentified(log, candidates) && LiteralsDiffer(candidates, candidates[0].properties[k].0, show)
      {
        TellsApartIff(log, candidates, candidates[0].properties[k].0, show);
      }
    }
  }

  /** Arm `i` carries the name of candidate `i` and its literal for the discriminator. */
  ghost predicate ArmsFit(log: seq<Registration>, candidates: seq<Candidate>, u: Union) {
    && |u.arms| == |candidates|
    && forall i :: 0 <= i < |candidates| ==>
         && NameOf(log, candidates[i]) == Some(u.arms[i].branchName)
         && LiteralOf(candidates[i], u.discriminator) == Some(u.arms[i].literal)
  }

  lemma UnionFits(log: seq<Registration>, candidates: seq<Candidate>, show: int -> string)
    requires UnionOf(log, candidates, show).Some?
    ensures Sound(UnionOf(log, candidates, show).value) && ArmsFit(log, candidates, UnionOf(log, candidates, show).value)
  {
    var schema := Schema(Some(AllNamed(log, candidates)), None);
    var u := UnionOf(log, candidates, show).value;
    EmittedSound(schema, show);
    forall i | 0 <= i < |candidates|
      ensures NameOf(log, candidates[i]) == Some(u.arms[i].branchName)
      ensures LiteralOf(candidates[i], u.discriminator) == Some(u.arms[i].literal)
    {
      EmittedArm(schema, show, i);
      ArmIff(log, candidates[i], u.discriminator);
    }
  }

  /** The literal of arm `i` is the only value that candidate `i` admits for the discriminator. */
  ghost predicate ArmsAdmit(candidates: seq<Candidate>, u: Union) {
    && |u.arms| == |candidates|
    && forall i :: 0 <= i < |candidates| ==> OnlyLiteral(candidates[i], u.discriminator, u.arms[i].literal)
  }

  ghost predicate OnlyLiteral(c: Candidate, key: string, literal: Literal) {
    Get(c.properties, key).Some? && forall v :: Admits(Get(c.properties, key).value, v) ==> v == literal
  }

  lemma UnionAdmits(log: seq<Registration>, candidates: seq<Candidate>, show: int -> string)
    requires UnionOf(log, candidates, show).Some?
    ensures ArmsAdmit(candidates, UnionOf(log, candidates, show).value)
  {
    var schema := Schema(Some(AllNamed(log, candidates)), None);
    var u := UnionOf(log, candidates, show).value;
    EmittedSound(schema, show);
    forall i | 0 <= i < |candidates|
      ensures OnlyLiteral(candidates[i], u.discriminator, u.arms[i].literal)
    {
      ArmAdmits(schema, show, i, u.arms[i].literal);
      forall v ensures Admits(Get(candidates[i].properties, u.discriminator).value, v) ==> v == u.arms[i].literal {
        ArmAdmits(schema, show, i, v);
      }
    }
  }

  /**
   * The emitter on the registry's names: a union exactly for two or more identified objects that some property
   * of the first tells apart, and every arm decodes into a definition that means what its branch means.
   */
  method EmitUnion(registry: Registry, candidates: seq<Candidate>, show: int -> string) returns (union: Option<Union>)
    requires registry.Valid() && TotalOrder(registry.le) && AllWellFormed(registry.log)
    requires AllKnown(registry.log, candidates)
    ensures union == UnionOf(registry.log, candidates, show)
    ensures union.Some? <==>
            && |candidates| >= 2 && ObjectTypes(candidates) && AllIdentified(registry.log, candidates)
            && SomeKeyDiffers(candidates, show)
    ensures union.Some? ==> Sound(union.value) && ArmsFit(registry.log, candidates, union.value)
    ensures union.Some? ==> ArmsAdmit(candidates, union.value)
    ensures union.Some? ==>
              forall i :: 0 <= i < |candidates| ==>
                Defines(registry.log, union.value.arms[i].branchName, MeaningOf(candidates[i].schema))
  {
    var branches := NameBranches(registry, candidates);
    union := EmitDiscriminatedUnion(Schema(Some(branches), None), show);
    UnionIff(registry.log, candidates, show);
    if union.Some? {
      UnionFits(registry.log, candidates, show);
      UnionAdmits(registry.log, candidates, show);
    }
  }
}
