/** The repeated-flag test as the source writes it: `name in args` on a
    plain object, which also answers true for names every object inherits. */
module InheritedKeys {
  import opened Args
  import opened Parser

  /** The property names every plain object inherits from `Object.prototype`. */
  const ObjectPrototypeKeys: set<string> := {
    "constructor", "toString", "toLocaleString", "valueOf", "hasOwnProperty",
    "isPrototypeOf", "propertyIsEnumerable", "__proto__",
    "__defineGetter__", "__defineSetter__", "__lookupGetter__", "__lookupSetter__"}

  /** The `in` test on the result object as written. */
  predicate InAsWritten(args: map<string, Entry>, name: string) {
    name in args || name in ObjectPrototypeKeys
  }

  /** The flag branch with the `in` test as written. */
  function FlagStepAsWritten(schema: seq<Descriptor>, st: State, token: string): (r: State)
    requires WellFormed(schema) && IsFlag(token)
    ensures r.active == ArgDescriptionIndex(schema, token[1..])
    ensures r.active.Some? && schema[r.active.value].values != Zero ==>
      r.args == st.args
      && (var name := Canonical(schema[r.active.value]);
          r.warnings == st.warnings + [RepeatedArgName(token)] <==> InAsWritten(st.args, name))
  {
    match ArgDescriptionIndex(schema, token[1..])
    case None => State(None, st.args, st.warnings + [UnexpectedArgName(token)])
    case Some(i) =>
      var name := Canonical(schema[i]);
      if schema[i].values == Zero then
        State(Some(i), st.args[name := Scalar(BoolVal(true))], st.warnings)
      else if InAsWritten(st.args, name) then
        State(Some(i), st.args, st.warnings + [RepeatedArgName(token)])
      else
        State(Some(i), st.args, st.warnings)
  }

  /** A single-value arg named `toString`, given once: the test as written
      reports it as having appeared multiple times, `FlagStep` does not. */
  lemma InheritedNameWarnsOnFirstUse()
    ensures var schema := [Descriptor(["toString"], Single, "string", Undefined, "", "")];
      && WellFormed(schema)
      && FlagStepAsWritten(schema, Initial, "-toString").warnings == [RepeatedArgName("-toString")]
      && FlagStep(schema, Initial, "-toString").warnings == []
  {
    var schema := [Descriptor(["toString"], Single, "string", Undefined, "", "")];
    assert ArgDescriptionIndex(schema, "toString") == Some(0);
  }

  /** With own keys only, the first flag of a parse never draws the
      "appeared multiple times" warning, whatever its name. */
  lemma FirstFlagNeverRepeated(schema: seq<Descriptor>, token: string)
    requires WellFormed(schema) && IsFlag(token)
    ensures RepeatedArgName(token) !in Step(schema, Initial, token).warnings
  {
    assert Step(schema, Initial, token) == FlagStep(schema, Initial, token);
  }
}
