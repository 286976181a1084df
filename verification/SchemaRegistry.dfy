/** `registerNamedSchema` and `namedSchema`: names for schema objects, and for shapes that occur once. */
module SchemaRegistry {
  import opened Common
  import opened CanonicalJson

  /** One call of `registerNamedSchema`; `id` is the identity of the schema object. */
  datatype Registration = Registration(name: string, id: nat, schema: Json)

  type Order = (string, string) -> bool

  /** How many registrations have the signature. */
  ghost function Occurrences(log: seq<Registration>, signature: string, le: Order): nat {
    if log == [] then 0
    else
      var n := |log| - 1;
      Occurrences(log[..n], signature, le) + if SchemaSignature(log[n].schema, le) == signature then 1 else 0
  }

  /** The name under which the signature was registered last. */
  ghost function LastName(log: seq<Registration>, signature: string, le: Order): Option<string> {
    if log == [] then None
    else
      var n := |log| - 1;
      if SchemaSignature(log[n].schema, le) == signature then Some(log[n].name) else LastName(log[..n], signature, le)
  }

  /** The name under which the object was registered last. */
  ghost function ObjectName(log: seq<Registration>, id: nat): Option<string> {
    if log == [] then None
    else
      var n := |log| - 1;
      if log[n].id == id then Some(log[n].name) else ObjectName(log[..n], id)
  }

  /** How many registrations mean the same as `meaning`. */
  ghost function SameMeaning(log: seq<Registration>, meaning: Meaning): nat {
    if log == [] then 0
    else
      var n := |log| - 1;
      SameMeaning(log[..n], meaning) + if MeaningOf(log[n].schema) == meaning then 1 else 0
  }

  /** The name given last to a schema of the meaning. */
  ghost function NameOfMeaning(log: seq<Registration>, meaning: Meaning): Option<string> {
    if log == [] then None
    else
      var n := |log| - 1;
      if MeaningOf(log[n].schema) == meaning then Some(log[n].name) else NameOfMeaning(log[..n], meaning)
  }

  /** A registered object has its own name; otherwise the name of the only schema of the meaning may serve. */
  ghost function NameFor(log: seq<Registration>, id: nat, meaning: Meaning, allowStructuralFallback: bool): Option<string> {
    if ObjectName(log, id).Some? then ObjectName(log, id)
    else if allowStructuralFallback && SameMeaning(log, meaning) == 1 then NameOfMeaning(log, meaning)
    else None
  }

  ghost predicate Defines(log: seq<Registration>, name: string, meaning: Meaning) {
    exists i :: 0 <= i < |log| && log[i].name == name && MeaningOf(log[i].schema) == meaning
  }

  ghost predicate AllWellFormed(log: seq<Registration>) {
    forall i :: 0 <= i < |log| ==> WellFormed(log[i].schema)
  }

  /** The names by object are those of the last registrations. */
  ghost predicate NamesObjects(names: map<nat, string>, log: seq<Registration>) {
    forall id :: ObjectName(log, id) == if id in names then Some(names[id]) else None
  }

  /** A shape has a name when it was registered once, and is a duplicate when it was registered more often. */
  ghost predicate NamesShapes(names: map<string, string>, duplicates: set<string>, log: seq<Registration>, le: Order) {
    && (forall s :: s in names <==> Occurrences(log, s, le) == 1)
    && (forall s :: s in names ==> LastName(log, s, le) == Some(names[s]))
    && (forall s :: s in duplicates <==> Occurrences(log, s, le) >= 2)
  }

  class Registry {
    const le: Order
    var nameByObject: map<nat, string>
    var nameBySignature: map<string, string>
    var duplicates: set<string>
    ghost var log: seq<Registration>

    ghost predicate Valid()
      reads this
    {
      NamesObjects(nameByObject, log) && NamesShapes(nameBySignature, duplicates, log, le)
    }

    constructor (le: Order)
      ensures Valid() && log == [] && this.le == le
    {
      this.le := le;
      nameByObject, nameBySignature, duplicates, log := map[], map[], {}, [];
    }

    method RegisterNamedSchema(name: string, id: nat, schema: Json)
      requires Valid()
      modifies this
      ensures Valid() && log == old(log) + [Registration(name, id, schema)]
    {
      ghost var r := Registration(name, id, schema);
      assert (log + [r])[..|log|] == log;
      assert forall i: nat :: ObjectName(log + [r], i) == if i == id then Some(name) else ObjectName(log, i);
      forall s
        ensures Occurrences(log + [r], s, le) == Occurrences(log, s, le) + if SchemaSignature(schema, le) == s then 1 else 0
        ensures LastName(log + [r], s, le) == if SchemaSignature(schema, le) == s then Some(name) else LastName(log, s, le)
      {
      }
      log := log + [r];
      nameByObject := nameByObject[id := name];
      var signature := SchemaSignature(schema, le);
      if signature in duplicates {
        return;
      }
      if signature in nameBySignature {
        nameBySignature := nameBySignature - {signature};
        duplicates := duplicates + {signature};
        return;
      }
      nameBySignature := nameBySignature[signature := name];
    }

    /**
     * The name of a registered object; or, when structure may decide, the name of the only definition that
     * means the same. Either way the definition behind the name means what the schema means.
     */
    method NamedSchema(id: nat, schema: Json, allowStructuralFallback: bool) returns (name: Option<string>)
      requires Valid() && TotalOrder(le) && AllWellFormed(log) && WellFormed(schema)
      requires forall i :: 0 <= i < |log| && log[i].id == id ==> log[i].schema == schema
      ensures name == NameFor(log, id, MeaningOf(schema), allowStructuralFallback)
      ensures name.Some? <==>
              || ObjectName(log, id).Some?
              || (allowStructuralFallback && SameMeaning(log, MeaningOf(schema)) == 1)
      ensures name.Some? ==> Defines(log, name.value, MeaningOf(schema))
    {
      if id in nameByObject {
        ObjectDefines(log, id, schema);
        return Some(nameByObject[id]);
      }
      if !allowStructuralFallback {
        return None;
      }
      var signature := SchemaSignature(schema, le);
      OccurrencesMean(log, schema, le);
      LastNameMeans(log, schema, le);
      if signature in nameBySignature {
        LastDefines(log, schema, le);
        return Some(nameBySignature[signature]);
      }
      return None;
    }
  }

  lemma {:induction false} OccurrencesMean(log: seq<Registration>, schema: Json, le: Order)
    requires TotalOrder(le) && AllWellFormed(log) && WellFormed(schema)
    ensures Occurrences(log, SchemaSignature(schema, le), le) == SameMeaning(log, MeaningOf(schema))
  {
    if log != [] {
      var n := |log| - 1;
      OccurrencesMean(log[..n], schema, le);
      SignatureIff(log[n].schema, schema, le);
    }
  }

  lemma {:induction false} LastNameMeans(log: seq<Registration>, schema: Json, le: Order)
    requires TotalOrder(le) && AllWellFormed(log) && WellFormed(schema)
    ensures LastName(log, SchemaSignature(schema, le), le) == NameOfMeaning(log, MeaningOf(schema))
  {
    if log != [] {
      var n := |log| - 1;
      LastNameMeans(log[..n], schema, le);
      SignatureIff(log[n].schema, schema, le);
    }
  }

  lemma {:induction false} ObjectDefines(log: seq<Registration>, id: nat, schema: Json)
    requires ObjectName(log, id).Some?
    requires forall i :: 0 <= i < |log| && log[i].id == id ==> log[i].schema == schema
    ensures Defines(log, ObjectName(log, id).value, MeaningOf(schema))
  {
    var n := |log| - 1;
    if log[n].id != id {
      ObjectDefines(log[..n], id, schema);
      var i :| 0 <= i < n && log[..n][i].name == ObjectName(log, id).value && MeaningOf(log[..n][i].schema) == MeaningOf(schema);
      assert log[i] == log[..n][i];
    }
  }

  lemma {:induction false} LastDefines(log: seq<Registration>, schema: Json, le: Order)
    requires TotalOrder(le) && AllWellFormed(log) && WellFormed(schema)
    requires LastName(log, SchemaSignature(schema, le), le).Some?
    ensures Defines(log, LastName(log, SchemaSignature(schema, le), le).value, MeaningOf(schema))
  {
    var n := |log| - 1;
    SignatureIff(log[n].schema, schema, le);
    if SchemaSignature(log[n].schema, le) != SchemaSignature(schema, le) {
      LastDefines(log[..n], schema, le);
      var name := LastName(log, SchemaSignature(schema, le), le).value;
      var i :| 0 <= i < n && log[..n][i].name == name && MeaningOf(log[..n][i].schema) == MeaningOf(schema);
      assert log[i] == log[..n][i];
    }
  }

  /**
   * After registering any sequence of schemas, a shape has a name exactly when it was registered once, and is
   * a duplicate exactly when it was registered twice or more.
   */
  method RegisterAll(log: seq<Registration>, schema: Json, le: Order) returns (named: bool, duplicate: bool)
    requires TotalOrder(le) && AllWellFormed(log) && WellFormed(schema)
    ensures named <==> SameMeaning(log, MeaningOf(schema)) == 1
    ensures duplicate <==> SameMeaning(log, MeaningOf(schema)) >= 2
  {
    var registry := new Registry(le);
    for i := 0 to |log|
      invariant registry.Valid() && registry.le == le && registry.log == log[..i] && fresh(registry)
    {
      registry.RegisterNamedSchema(log[i].name, log[i].id, log[i].schema);
    }
    assert log[..|log|] == log;
    OccurrencesMean(log, schema, le);
    var signature := SchemaSignature(schema, le);
    named, duplicate := signature in registry.nameBySignature, signature in registry.duplicates;
  }
}
