/** The parsing pass: a left-to-right fold of `Step` over the token list,
    followed by default substitution. */
module Parser {
  import opened Args
  import opened Coercion
  import opened Help

  /** The fold's accumulator: the active descriptor (by index), the result
      object built so far, and the warnings emitted so far. */
  datatype State = State(active: Option<nat>, args: map<string, Entry>, warnings: seq<Warning>)

  /** The result object and the warnings of a completed parse, with the
      help text when an empty token list made `parse` print it first. */
  datatype ParseOutput = ParseOutput(args: map<string, Entry>, warnings: seq<Warning>, help: Option<string>)

  /** The three ways `parse` ends: it prints the help and returns `undefined`
      (first token `help`); rendering the help throws (the schema is not
      renderable); or it returns the result object. */
  datatype ParseResult =
    | HelpOnly(text: string)
    | HelpThrows
    | Parsed(output: ParseOutput)

  const Initial: State := State(None, map[], [])

  /** A flag token is `-` followed by at least one character; every other
      token, including "" and "-", is a value token. */
  predicate IsFlag(token: string) {
    |token| > 1 && token[0] == '-'
  }

  /** The shape a recorded entry has for a descriptor of the given arity. */
  predicate Fits(arity: Arity, e: Entry) {
    match arity
    case Zero => e == Scalar(BoolVal(true))
    case Single => e.List? && |e.items| == 1
    case Multi => e.List? && |e.items| >= 1
  }

  /** What holds of the accumulator between tokens: the active descriptor is
      in the schema, and every key is some descriptor's canonical name
      holding an entry of that descriptor's shape. */
  predicate Inv(schema: seq<Descriptor>, st: State)
    requires WellFormed(schema)
  {
    && (st.active.Some? ==> st.active.value < |schema|)
    && st.args.Keys <= CanonicalNames(schema)
    && (forall i :: 0 <= i < |schema| && Canonical(schema[i]) in st.args ==>
          Fits(schema[i].values, st.args[Canonical(schema[i])]))
  }

  /** Recording an entry of the right shape under a descriptor's canonical
      name keeps the invariant. */
  lemma RecordKeepsInv(schema: seq<Descriptor>, st: State, i: nat, e: Entry)
    requires WellFormed(schema) && Inv(schema, st)
    requires i < |schema| && Fits(schema[i].values, e)
    ensures Inv(schema, st.(args := st.args[Canonical(schema[i]) := e]))
  {
    var name := Canonical(schema[i]);
    forall j | 0 <= j < |schema| && j != i
      ensures Canonical(schema[j]) != name
    {
      if j < i {
        assert schema[j].names[0] != schema[i].names[0];
      } else {
        assert schema[i].names[0] != schema[j].names[0];
      }
    }
  }

  /** A flag token: look its alias up and make the match (or nothing) the
      active descriptor. */
  function FlagStep(schema: seq<Descriptor>, st: State, token: string): (r: State)
    requires WellFormed(schema) && Inv(schema, st)
    requires IsFlag(token)
    ensures Inv(schema, r)
    ensures r.active == ArgDescriptionIndex(schema, token[1..])
    // An unknown name changes nothing but the active descriptor and warns once.
    ensures r.active.None? ==>
      r.args == st.args && r.warnings == st.warnings + [UnexpectedArgName(token)]
    // A zero-value flag records `true` and never warns.
    ensures r.active.Some? && schema[r.active.value].values == Zero ==>
      var name := Canonical(schema[r.active.value]);
      && r.args.Keys == st.args.Keys + {name}
      && r.args[name] == Scalar(BoolVal(true))
      && (forall k :: k in st.args && k != name ==> r.args[k] == st.args[k])
      && r.warnings == st.warnings
    // A valued flag changes no entry and warns exactly when its name is already a key.
    ensures r.active.Some? && schema[r.active.value].values != Zero ==>
      && r.args == st.args
      && (Canonical(schema[r.active.value]) in st.args ==>
            r.warnings == st.warnings + [RepeatedArgName(token)])
      && (Canonical(schema[r.active.value]) !in st.args ==> r.warnings == st.warnings)
  {
    match ArgDescriptionIndex(schema, token[1..])
    case None => State(None, st.args, st.warnings + [UnexpectedArgName(token)])
    case Some(i) =>
      var name := Canonical(schema[i]);
      if schema[i].values == Zero then
        RecordKeepsInv(schema, st, i, Scalar(BoolVal(true)));
        State(Some(i), st.args[name := Scalar(BoolVal(true))], st.warnings)
      else if name in st.args then
        State(Some(i), st.args, st.warnings + [RepeatedArgName(token)])
      else
        State(Some(i), st.args, st.warnings)
  }

  /** A value token: hand it to the active descriptor, or discard it with a
      warning when there is none or it takes no (more) values. */
  function ValueStep(schema: seq<Descriptor>, st: State, token: string): (r: State)
    requires WellFormed(schema) && Inv(schema, st)
    ensures Inv(schema, r)
    ensures r.active == st.active
    // With no active descriptor the value is discarded with one warning.
    ensures st.active.None? ==>
      r.args == st.args && r.warnings == st.warnings + [ValueWithoutArgName(token)]
    // A value for a zero-value arg is discarded with one warning.
    ensures st.active.Some? && schema[st.active.value].values == Zero ==>
      && r.args == st.args
      && r.warnings == st.warnings + [ValueForZeroValueArg(Canonical(schema[st.active.value]))]
    // A second value for a single-value arg is discarded with one warning.
    ensures st.active.Some? && schema[st.active.value].values == Single
            && Canonical(schema[st.active.value]) in st.args ==>
      && r.args == st.args
      && r.warnings == st.warnings + [MultipleValuesForSingleValueArg(Canonical(schema[st.active.value]))]
    // Otherwise the coerced value is appended under the canonical name, with
    // whatever the coercion warned, and no other key changes.
    ensures st.active.Some? && Accepts(schema, st, st.active.value) ==>
      var d := schema[st.active.value];
      var c := ParseStringValue(token, d.typeName);
      var name := Canonical(d);
      && r.args.Keys == st.args.Keys + {name}
      && r.args[name] == List((if name in st.args then st.args[name].items else []) + [c.value])
      && (forall k :: k in st.args && k != name ==> r.args[k] == st.args[k])
      && r.warnings == st.warnings + c.warnings
  {
    match st.active
    case None => State(None, st.args, st.warnings + [ValueWithoutArgName(token)])
    case Some(i) =>
      var d := schema[i];
      var name := Canonical(d);
      if d.values == Zero then
        State(st.active, st.args, st.warnings + [ValueForZeroValueArg(name)])
      else if name in st.args && d.values == Single then
        State(st.active, st.args, st.warnings + [MultipleValuesForSingleValueArg(name)])
      else
        var c := ParseStringValue(token, d.typeName);
        assert name in st.args ==> Fits(d.values, st.args[name]);
        var prior := if name in st.args then st.args[name].items else [];
        RecordKeepsInv(schema, st, i, List(prior + [c.value]));
        State(st.active, st.args[name := List(prior + [c.value])], st.warnings + c.warnings)
  }

  /** Whether descriptor `i` takes another value in state `st`: it is valued,
      and single-value descriptors take only their first. */
  predicate Accepts(schema: seq<Descriptor>, st: State, i: nat)
    requires WellFormed(schema) && i < |schema|
  {
    schema[i].values != Zero && !(schema[i].values == Single && Canonical(schema[i]) in st.args)
  }

  /** The body of the token loop: one token's effect on the accumulator. The
      warning log only grows, by at most one warning per token. */
  function Step(schema: seq<Descriptor>, st: State, token: string): (r: State)
    requires WellFormed(schema) && Inv(schema, st)
    ensures Inv(schema, r)
    ensures |st.warnings| <= |r.warnings| <= |st.warnings| + 1
    ensures r.warnings[..|st.warnings|] == st.warnings
  {
    if IsFlag(token) then FlagStep(schema, st, token) else ValueStep(schema, st, token)
  }

  /** The token loop: `Step` folded over `tokens` from the left. */
  function Run(schema: seq<Descriptor>, tokens: seq<string>): (st: State)
    requires WellFormed(schema)
    ensures Inv(schema, st)
    decreases |tokens|
  {
    if |tokens| == 0 then Initial
    else Step(schema, Run(schema, tokens[..|tokens| - 1]), tokens[|tokens| - 1])
  }

  /** One step of default substitution: given the result for all but the
      last descriptor, filling in the last one keeps every property. */
  lemma DefaultStep(schema: seq<Descriptor>, args: map<string, Entry>, earlier: map<string, Entry>)
    requires WellFormed(schema) && |schema| > 0
    requires earlier.Keys == args.Keys + CanonicalNames(schema[..|schema| - 1])
    requires forall k :: k in args ==> earlier[k] == args[k]
    requires forall i :: 0 <= i < |schema| - 1 && Canonical(schema[i]) !in args ==>
      earlier[Canonical(schema[i])] == schema[i].defaultValues
    ensures var d := schema[|schema| - 1];
            var r := if Canonical(d) in earlier then earlier else earlier[Canonical(d) := d.defaultValues];
            && r.Keys == args.Keys + CanonicalNames(schema)
            && (forall k :: k in args ==> r[k] == args[k])
            && (forall i :: 0 <= i < |schema| && Canonical(schema[i]) !in args ==>
                  r[Canonical(schema[i])] == schema[i].defaultValues)
  {
    var n := |schema|;
    var d := schema[n - 1];
    CanonicalNamesOfPrefix(schema);
    forall i | 0 <= i < n - 1
      ensures Canonical(schema[i]) != Canonical(d)
    {
      CanonicalDistinct(schema, i, n - 1);
    }
  }

  /** Default substitution: every canonical name the pass left unset gets
      its descriptor's `defaultValues`; recorded entries are kept. */
  function FillDefaults(schema: seq<Descriptor>, args: map<string, Entry>): (r: map<string, Entry>)
    requires WellFormed(schema)
    ensures r.Keys == args.Keys + CanonicalNames(schema)
    ensures forall k :: k in args ==> r[k] == args[k]
    ensures forall i :: 0 <= i < |schema| && Canonical(schema[i]) !in args ==>
      r[Canonical(schema[i])] == schema[i].defaultValues
    decreases |schema|
  {
    if |schema| == 0 then args
    else
      var d := schema[|schema| - 1];
      var pre := schema[..|schema| - 1];
      CanonicalNamesOfPrefix(schema);
      assert forall i :: 0 <= i < |pre| ==> pre[i] == schema[i];
      var earlier := FillDefaults(pre, args);
      DefaultStep(schema, args, earlier);
      if Canonical(d) in earlier then earlier else earlier[Canonical(d) := d.defaultValues]
  }

  /** `parse` prints the help first when the token list is empty or starts
      with `help`. */
  predicate ShowsHelp(tokens: seq<string>) {
    |tokens| == 0 || tokens[0] == "help"
  }

  /** The token loop followed by default substitution: every canonical
      name is a key, holding its default or an entry of its descriptor's
      shape. */
  function ParseTokens(schema: seq<Descriptor>, tokens: seq<string>, help: Option<string>): (out: ParseOutput)
    requires WellFormed(schema)
    ensures out.help == help
    ensures out.warnings == Run(schema, tokens).warnings
    ensures out.args.Keys == CanonicalNames(schema)
    ensures forall i :: 0 <= i < |schema| ==>
      var e := out.args[Canonical(schema[i])];
      e == schema[i].defaultValues || Fits(schema[i].values, e)
  {
    var st := Run(schema, tokens);
    ParseOutput(FillDefaults(schema, st.args), st.warnings, help)
  }

  /** parse: print the help when asked (or when there are no tokens), stop
      after it for `help`, otherwise fold the tokens and fill in defaults. */
  function Parse(schema: seq<Descriptor>, tokens: seq<string>): (r: ParseResult)
    requires WellFormed(schema)
    ensures r.HelpThrows? <==> ShowsHelp(tokens) && !Renderable(schema)
    ensures r.HelpOnly? <==> |tokens| > 0 && tokens[0] == "help" && Renderable(schema)
    ensures r.HelpOnly? ==> Renderable(schema) && r.text == HelpText(schema)
    ensures r.Parsed? ==> (r.output.help.Some? <==> |tokens| == 0)
    ensures r.Parsed? && r.output.help.Some? ==>
      Renderable(schema) && r.output.help.value == HelpText(schema)
    ensures r.Parsed? ==> r.output.warnings == Run(schema, tokens).warnings
    ensures r.Parsed? ==> r.output.args.Keys == CanonicalNames(schema)
    ensures r.Parsed? ==> forall i :: 0 <= i < |schema| ==>
      var e := r.output.args[Canonical(schema[i])];
      e == schema[i].defaultValues || Fits(schema[i].values, e)
  {
    if ShowsHelp(tokens) && !Renderable(schema) then HelpThrows
    else if |tokens| > 0 && tokens[0] == "help" then HelpOnly(HelpText(schema))
    else if |tokens| == 0 then Parsed(ParseTokens(schema, tokens, Some(HelpText(schema))))
    else Parsed(ParseTokens(schema, tokens, None))
  }
}
