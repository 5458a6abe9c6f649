/** Data model of the argument-list parser: argument descriptors, the values a
    parse produces, the warnings it emits, and alias lookup over a schema. */
module Args {

  datatype Option<T> = None | Some(value: T)

  /** The descriptor's `values` field: 0 = no values, 1 = a single value,
      anything else truthy (the code uses 2) = multiple values. */
  datatype Arity = Zero | Single | Multi

  /** A coerced value token. `IntVal` is the decimal value of an all-digit
      string; `LooseInt` stands for whatever the host's integer parse returns
      on any other string, which this model leaves uninterpreted. */
  datatype Value =
    | IntVal(n: nat)
    | LooseInt(raw: string)
    | BoolVal(b: bool)
    | StrVal(s: string)

  /** A property of the result object. A zero-value flag records
      `Scalar(BoolVal(true))`; valued args record a `List`; a default may be
      any of these, including `Undefined`. */
  datatype Entry = Undefined | Scalar(v: Value) | List(items: seq<Value>)

  /** `typeName` is the declared `type`; an omitted type is written "string". */
  datatype Descriptor = Descriptor(
    names: seq<string>,
    values: Arity,
    typeName: string,
    defaultValues: Entry,
    example: string,
    explanation: string)

  /** The closed set of non-fatal diagnostics, each carrying the text the
      message quotes. */
  datatype Warning =
    | UnexpectedArgName(token: string)
    | RepeatedArgName(token: string)
    | ValueWithoutArgName(token: string)
    | ValueForZeroValueArg(name: string)
    | MultipleValuesForSingleValueArg(name: string)
    | UnexpectedIntValue(value: string)
    | UnexpectedBoolValue(value: string)
    | UnexpectedArgType(typeName: string)

  /** The key under which a descriptor's values are reported. */
  function Canonical(d: Descriptor): (name: string)
    requires |d.names| > 0
  {
    d.names[0]
  }

  /** What the parser needs of a schema: every descriptor has a name, and no
      two descriptors report under the same key. */
  predicate WellFormed(schema: seq<Descriptor>) {
    && (forall i :: 0 <= i < |schema| ==> |schema[i].names| > 0)
    && (forall i, j :: 0 <= i < j < |schema| ==> schema[i].names[0] != schema[j].names[0])
  }

  function CanonicalNames(schema: seq<Descriptor>): (keys: set<string>)
    requires WellFormed(schema)
    ensures forall i :: 0 <= i < |schema| ==> Canonical(schema[i]) in keys
    ensures forall k :: k in keys ==> exists i :: 0 <= i < |schema| && Canonical(schema[i]) == k
  {
    set i | 0 <= i < |schema| :: Canonical(schema[i])
  }

  /** Under a well-formed schema distinct descriptors report under distinct keys. */
  lemma CanonicalDistinct(schema: seq<Descriptor>, i: nat, j: nat)
    requires WellFormed(schema)
    requires i < |schema| && j < |schema| && i != j
    ensures Canonical(schema[i]) != Canonical(schema[j])
  {
    if i < j {
      assert schema[i].names[0] != schema[j].names[0];
    } else {
      assert schema[j].names[0] != schema[i].names[0];
    }
  }

  /** Dropping the last descriptor keeps a schema well-formed, removes only
      that descriptor's key, and that key belonged to no earlier descriptor. */
  lemma CanonicalNamesOfPrefix(schema: seq<Descriptor>)
    requires WellFormed(schema) && |schema| > 0
    ensures WellFormed(schema[..|schema| - 1])
    ensures CanonicalNames(schema)
      == CanonicalNames(schema[..|schema| - 1]) + {Canonical(schema[|schema| - 1])}
    ensures Canonical(schema[|schema| - 1]) !in CanonicalNames(schema[..|schema| - 1])
  {
    var pre := schema[..|schema| - 1];
    assert forall i :: 0 <= i < |pre| ==> pre[i] == schema[i];
    var a := CanonicalNames(schema);
    var b := CanonicalNames(pre) + {Canonical(schema[|schema| - 1])};
    forall k | k in a
      ensures k in b
    {
      var i :| 0 <= i < |schema| && Canonical(schema[i]) == k;
      if i < |pre| {
        assert Canonical(pre[i]) == k;
      }
    }
  }

  /** Index of the first descriptor at or after `start` listing `alias`. */
  function FirstMatchFrom(schema: seq<Descriptor>, alias: string, start: nat): (r: Option<nat>)
    requires start <= |schema|
    ensures r.Some? ==> start <= r.value < |schema| && alias in schema[r.value].names
    ensures r.Some? ==> forall j :: start <= j < r.value ==> alias !in schema[j].names
    ensures r.None? <==> forall j :: start <= j < |schema| ==> alias !in schema[j].names
    decreases |schema| - start
  {
    if start == |schema| then None
    else if alias in schema[start].names then Some(start)
    else FirstMatchFrom(schema, alias, start + 1)
  }

  /** Alias lookup: the first descriptor, in declaration order, whose names
      contain `alias`, given by its index in the schema. */
  function ArgDescriptionIndex(schema: seq<Descriptor>, alias: string): (r: Option<nat>)
    ensures r.Some? ==> r.value < |schema| && alias in schema[r.value].names
    ensures r.Some? ==> forall j :: 0 <= j < r.value ==> alias !in schema[j].names
    ensures r.None? <==> forall j :: 0 <= j < |schema| ==> alias !in schema[j].names
  {
    FirstMatchFrom(schema, alias, 0)
  }
}
