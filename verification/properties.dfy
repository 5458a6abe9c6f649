/** Reference descriptions of what a parse records, stated without the fold,
    and the lemmas connecting them to `Parser.Run` and `Parser.Parse`. */
module ParserProperties {
  import opened Args
  import opened Coercion
  import opened Help
  import opened Parser

  /** The descriptor the last flag token of `tokens` selects, if any. */
  function ActiveAfter(schema: seq<Descriptor>, tokens: seq<string>): (r: Option<nat>)
    ensures r.Some? ==> r.value < |schema|
    decreases |tokens|
  {
    if |tokens| == 0 then None
    else if IsFlag(tokens[|tokens| - 1]) then ArgDescriptionIndex(schema, tokens[|tokens| - 1][1..])
    else ActiveAfter(schema, tokens[..|tokens| - 1])
  }

  /** The value tokens that fall under `owner`, in order: those whose nearest
      preceding flag selected it (`None`: values with no selected descriptor). */
  function ValuesFor(schema: seq<Descriptor>, tokens: seq<string>, owner: Option<nat>): (vs: seq<string>)
    ensures |vs| <= |tokens|
    ensures forall k :: 0 <= k < |vs| ==> !IsFlag(vs[k])
    decreases |tokens|
  {
    if |tokens| == 0 then []
    else
      var pre := tokens[..|tokens| - 1];
      var t := tokens[|tokens| - 1];
      ValuesFor(schema, pre, owner) + (if !IsFlag(t) && ActiveAfter(schema, pre) == owner then [t] else [])
  }

  /** Some flag token of `tokens` selects descriptor `i`. */
  ghost predicate FlagSeen(schema: seq<Descriptor>, tokens: seq<string>, i: nat) {
    exists j :: 0 <= j < |tokens| && IsFlag(tokens[j]) && ArgDescriptionIndex(schema, tokens[j][1..]) == Some(i)
  }

  function CoerceAll(vs: seq<string>, typeName: string): (r: seq<Value>)
    ensures |r| == |vs|
    ensures forall k :: 0 <= k < |vs| ==> r[k] == ParseStringValue(vs[k], typeName).value
  {
    seq(|vs|, k requires 0 <= k < |vs| => ParseStringValue(vs[k], typeName).value)
  }

  lemma CoerceAllSnoc(vs: seq<string>, t: string, typeName: string)
    ensures CoerceAll(vs + [t], typeName) == CoerceAll(vs, typeName) + [ParseStringValue(t, typeName).value]
  {
    var a := CoerceAll(vs + [t], typeName);
    var b := CoerceAll(vs, typeName) + [ParseStringValue(t, typeName).value];
    assert |a| == |b|;
    forall k | 0 <= k < |a|
      ensures a[k] == b[k]
    {
      assert (vs + [t])[k] == if k < |vs| then vs[k] else t;
    }
  }

  /** What the final result object holds for descriptor `i`, read off the
      token list directly. */
  ghost function ReferenceEntry(schema: seq<Descriptor>, tokens: seq<string>, i: nat): (e: Entry)
    requires i < |schema|
  {
    var d := schema[i];
    var vs := ValuesFor(schema, tokens, Some(i));
    match d.values
    case Zero => if FlagSeen(schema, tokens, i) then Scalar(BoolVal(true)) else d.defaultValues
    case Single => if |vs| == 0 then d.defaultValues else List([ParseStringValue(vs[0], d.typeName).value])
    case Multi => if |vs| == 0 then d.defaultValues else List(CoerceAll(vs, d.typeName))
  }

  lemma FlagSeenSnoc(schema: seq<Descriptor>, tokens: seq<string>, i: nat)
    requires |tokens| > 0
    ensures var pre := tokens[..|tokens| - 1];
            var t := tokens[|tokens| - 1];
            (FlagSeen(schema, tokens, i)
             <==> FlagSeen(schema, pre, i) || (IsFlag(t) && ArgDescriptionIndex(schema, t[1..]) == Some(i)))
  {
    var pre := tokens[..|tokens| - 1];
    if FlagSeen(schema, tokens, i) {
      var j :| 0 <= j < |tokens| && IsFlag(tokens[j]) && ArgDescriptionIndex(schema, tokens[j][1..]) == Some(i);
      if j < |pre| {
        assert pre[j] == tokens[j];
      }
    }
    if FlagSeen(schema, pre, i) {
      var j :| 0 <= j < |pre| && IsFlag(pre[j]) && ArgDescriptionIndex(schema, pre[j][1..]) == Some(i);
      assert tokens[j] == pre[j];
    }
  }

  /** The descriptor whose entry a token may touch: the one a flag selects,
      or the active one for a value. */
  function Target(schema: seq<Descriptor>, st: State, token: string): (target: Option<nat>) {
    if IsFlag(token) then ArgDescriptionIndex(schema, token[1..]) else st.active
  }

  /** A step leaves the entry of every descriptor but its target alone. */
  lemma StepKeepsOthers(schema: seq<Descriptor>, st: State, token: string, i: nat)
    requires WellFormed(schema) && Inv(schema, st) && i < |schema|
    requires Target(schema, st, token) != Some(i)
    ensures var r := Step(schema, st, token);
            var c := Canonical(schema[i]);
            (c in r.args <==> c in st.args) && (c in st.args ==> r.args[c] == st.args[c])
  {
    var target := Target(schema, st, token);
    if target.Some? && target.value < |schema| {
      CanonicalDistinct(schema, i, target.value);
    }
  }

  /** The fold's active descriptor is the one the last flag token selected. */
  lemma {:induction false} ActiveIsLastFlag(schema: seq<Descriptor>, tokens: seq<string>)
    requires WellFormed(schema)
    ensures Run(schema, tokens).active == ActiveAfter(schema, tokens)
    decreases |tokens|
  {
    if |tokens| > 0 {
      ActiveIsLastFlag(schema, tokens[..|tokens| - 1]);
    }
  }

  /** A zero-value arg is recorded, as `true`, exactly when one of its flags
      appears; values after it never change that. */
  lemma {:induction false} ZeroArgRecordsPresence(schema: seq<Descriptor>, tokens: seq<string>, i: nat)
    requires WellFormed(schema) && i < |schema| && schema[i].values == Zero
    ensures var args := Run(schema, tokens).args;
            (Canonical(schema[i]) in args <==> FlagSeen(schema, tokens, i))
            && (Canonical(schema[i]) in args ==> args[Canonical(schema[i])] == Scalar(BoolVal(true)))
    decreases |tokens|
  {
    if |tokens| > 0 {
      var pre := tokens[..|tokens| - 1];
      var t := tokens[|tokens| - 1];
      var st := Run(schema, pre);
      var c := Canonical(schema[i]);
      ZeroArgRecordsPresence(schema, pre, i);
      FlagSeenSnoc(schema, tokens, i);
      assert Run(schema, tokens) == Step(schema, st, t);
      if Target(schema, st, t) != Some(i) {
        StepKeepsOthers(schema, st, t, i);
      } else if IsFlag(t) {
        assert Step(schema, st, t) == FlagStep(schema, st, t);
      } else {
        assert Step(schema, st, t) == ValueStep(schema, st, t);
      }
    }
  }

  /** A single-value arg keeps its first value: it is recorded exactly when
      some value falls under it, and then holds that first value alone. */
  lemma {:induction false} SingleArgKeepsFirst(schema: seq<Descriptor>, tokens: seq<string>, i: nat)
    requires WellFormed(schema) && i < |schema| && schema[i].values == Single
    ensures var args := Run(schema, tokens).args;
            var vs := ValuesFor(schema, tokens, Some(i));
            var c := Canonical(schema[i]);
            (c in args <==> |vs| > 0)
            && (c in args ==> args[c] == List([ParseStringValue(vs[0], schema[i].typeName).value]))
    decreases |tokens|
  {
    if |tokens| > 0 {
      var pre := tokens[..|tokens| - 1];
      var t := tokens[|tokens| - 1];
      var st := Run(schema, pre);
      SingleArgKeepsFirst(schema, pre, i);
      ActiveIsLastFlag(schema, pre);
      assert Run(schema, tokens) == Step(schema, st, t);
      if Target(schema, st, t) != Some(i) {
        StepKeepsOthers(schema, st, t, i);
      } else if IsFlag(t) {
        assert Step(schema, st, t) == FlagStep(schema, st, t);
      } else {
        assert Step(schema, st, t) == ValueStep(schema, st, t);
      }
    }
  }

  /** A multi-value arg collects every value that falls under it, coerced,
      in order; it is recorded exactly when there is at least one. */
  lemma {:induction false} MultiArgCollectsAll(schema: seq<Descriptor>, tokens: seq<string>, i: nat)
    requires WellFormed(schema) && i < |schema| && schema[i].values == Multi
    ensures var args := Run(schema, tokens).args;
            var vs := ValuesFor(schema, tokens, Some(i));
            var c := Canonical(schema[i]);
            (c in args <==> |vs| > 0)
            && (c in args ==> args[c] == List(CoerceAll(vs, schema[i].typeName)))
    decreases |tokens|
  {
    if |tokens| > 0 {
      var pre := tokens[..|tokens| - 1];
      var t := tokens[|tokens| - 1];
      var st := Run(schema, pre);
      var ty := schema[i].typeName;
      MultiArgCollectsAll(schema, pre, i);
      ActiveIsLastFlag(schema, pre);
      assert Run(schema, tokens) == Step(schema, st, t);
      if Target(schema, st, t) != Some(i) {
        StepKeepsOthers(schema, st, t, i);
      } else if IsFlag(t) {
        assert Step(schema, st, t) == FlagStep(schema, st, t);
      } else {
        assert Step(schema, st, t) == ValueStep(schema, st, t);
        var before := ValuesFor(schema, pre, Some(i));
        assert ValuesFor(schema, tokens, Some(i)) == before + [t];
        CoerceAllSnoc(before, t, ty);
      }
    }
  }

  /** After default substitution every descriptor's key holds exactly the
      reference entry: its recorded value when the tokens supply one, its
      `defaultValues` otherwise. */
  lemma {:induction false} ParseMatchesReference(schema: seq<Descriptor>, tokens: seq<string>, i: nat)
    requires WellFormed(schema) && i < |schema|
    ensures Parse(schema, tokens).Parsed? ==>
      Parse(schema, tokens).output.args[Canonical(schema[i])] == ReferenceEntry(schema, tokens, i)
  {
    match schema[i].values
    case Zero => ZeroArgRecordsPresence(schema, tokens, i);
    case Single => SingleArgKeepsFirst(schema, tokens, i);
    case Multi => MultiArgCollectsAll(schema, tokens, i);
  }

  /** The warning log is append-only along the token list, and each token
      adds at most one warning. */
  lemma {:induction false} WarningsOnlyGrow(schema: seq<Descriptor>, tokens: seq<string>, n: nat)
    requires WellFormed(schema) && n <= |tokens|
    ensures var early := Run(schema, tokens[..n]).warnings;
            var late := Run(schema, tokens).warnings;
            |early| <= |late| && late[..|early|] == early
    ensures |Run(schema, tokens).warnings| <= |tokens|
    decreases |tokens|
  {
    if |tokens| > 0 {
      var pre := tokens[..|tokens| - 1];
      if n < |tokens| {
        assert tokens[..n] == pre[..n];
        WarningsOnlyGrow(schema, pre, n);
      } else {
        assert tokens[..n] == tokens;
        WarningsOnlyGrow(schema, pre, 0);
      }
      WarningsOnlyGrow(schema, pre, |pre|);
    }
  }

  /** How one step changes the count of one warning: it adds `w` exactly
      when `added` holds, and otherwise leaves its count alone. */
  lemma StepAddsWarning(schema: seq<Descriptor>, st: State, t: string, w: Warning, added: bool)
    requires WellFormed(schema) && Inv(schema, st)
    requires !IsCoercionWarning(w)
    requires !w.UnexpectedArgName? && !w.RepeatedArgName?
    requires added <==>
      && !IsFlag(t)
      && match st.active
         case None => w == ValueWithoutArgName(t)
         case Some(i) =>
           var name := Canonical(schema[i]);
           || (schema[i].values == Zero && w == ValueForZeroValueArg(name))
           || (schema[i].values == Single && name in st.args && w == MultipleValuesForSingleValueArg(name))
    ensures multiset(Step(schema, st, t).warnings)[w] == multiset(st.warnings)[w] + (if added then 1 else 0)
  {
    var r := Step(schema, st, t);
    if IsFlag(t) {
      assert r == FlagStep(schema, st, t);
    } else {
      assert r == ValueStep(schema, st, t);
      if st.active.Some? {
        var d := schema[st.active.value];
        if Accepts(schema, st, st.active.value) {
          var c := ParseStringValue(t, d.typeName);
          assert r.warnings == st.warnings + c.warnings;
          assert c.warnings != [] ==> c.warnings == [c.warnings[0]];
        }
      }
    }
  }

  /** Each value that falls under no descriptor (before any flag, or after an
      unknown one) draws exactly one "provided without an arg name" warning. */
  lemma {:induction false} OrphanValuesWarned(schema: seq<Descriptor>, tokens: seq<string>, v: string)
    requires WellFormed(schema)
    ensures multiset(Run(schema, tokens).warnings)[ValueWithoutArgName(v)]
         == multiset(ValuesFor(schema, tokens, None))[v]
    decreases |tokens|
  {
    if |tokens| > 0 {
      var pre := tokens[..|tokens| - 1];
      var t := tokens[|tokens| - 1];
      var st := Run(schema, pre);
      OrphanValuesWarned(schema, pre, v);
      ActiveIsLastFlag(schema, pre);
      StepAddsWarning(schema, st, t, ValueWithoutArgName(v), !IsFlag(t) && st.active.None? && t == v);
    }
  }

  /** Each value that falls under a zero-value arg draws exactly one
      "arg value provided for zero value arg" warning. */
  lemma {:induction false} ZeroArgValuesWarned(schema: seq<Descriptor>, tokens: seq<string>, i: nat)
    requires WellFormed(schema) && i < |schema| && schema[i].values == Zero
    ensures multiset(Run(schema, tokens).warnings)[ValueForZeroValueArg(Canonical(schema[i]))]
         == |ValuesFor(schema, tokens, Some(i))|
    decreases |tokens|
  {
    if |tokens| > 0 {
      var pre := tokens[..|tokens| - 1];
      var t := tokens[|tokens| - 1];
      var st := Run(schema, pre);
      ZeroArgValuesWarned(schema, pre, i);
      ActiveIsLastFlag(schema, pre);
      if st.active.Some? && st.active.value != i {
        CanonicalDistinct(schema, i, st.active.value);
      }
      StepAddsWarning(schema, st, t, ValueForZeroValueArg(Canonical(schema[i])),
        !IsFlag(t) && st.active == Some(i));
    }
  }

  /** Every value after the first that falls under a single-value arg draws
      exactly one "multiple arg values" warning. */
  lemma {:induction false} SingleArgExcessWarned(schema: seq<Descriptor>, tokens: seq<string>, i: nat)
    requires WellFormed(schema) && i < |schema| && schema[i].values == Single
    ensures var n := |ValuesFor(schema, tokens, Some(i))|;
            multiset(Run(schema, tokens).warnings)[MultipleValuesForSingleValueArg(Canonical(schema[i]))]
              == if n == 0 then 0 else n - 1
    decreases |tokens|
  {
    if |tokens| > 0 {
      var pre := tokens[..|tokens| - 1];
      var t := tokens[|tokens| - 1];
      var st := Run(schema, pre);
      var c := Canonical(schema[i]);
      SingleArgExcessWarned(schema, pre, i);
      SingleArgKeepsFirst(schema, pre, i);
      ActiveIsLastFlag(schema, pre);
      var n0 := |ValuesFor(schema, pre, Some(i))|;
      var owned := !IsFlag(t) && st.active == Some(i);
      assert |ValuesFor(schema, tokens, Some(i))| == n0 + (if owned then 1 else 0);
      assert c in st.args <==> n0 > 0;
      if st.active.Some? && st.active.value != i {
        CanonicalDistinct(schema, i, st.active.value);
      }
      StepAddsWarning(schema, st, t, MultipleValuesForSingleValueArg(c), owned && c in st.args);
      assert Run(schema, tokens) == Step(schema, st, t);
    }
  }

  /** Running the fold one token further is one more `Step`. */
  lemma RunSnoc(schema: seq<Descriptor>, tokens: seq<string>, t: string)
    requires WellFormed(schema)
    ensures Run(schema, tokens + [t]) == Step(schema, Run(schema, tokens), t)
  {
    assert (tokens + [t])[..|tokens|] == tokens;
  }

  /** A flag of a valued arg never changes the result, and it warns "appeared
      multiple times" exactly when some value has already fallen under that
      arg; a bare earlier occurrence does not count. */
  lemma RepeatedFlagWarnedIffValued(schema: seq<Descriptor>, tokens: seq<string>, t: string, i: nat)
    requires WellFormed(schema) && IsFlag(t)
    requires ArgDescriptionIndex(schema, t[1..]) == Some(i) && schema[i].values != Zero
    ensures Run(schema, tokens + [t]).args == Run(schema, tokens).args
    ensures |ValuesFor(schema, tokens, Some(i))| > 0 ==>
      Run(schema, tokens + [t]).warnings == Run(schema, tokens).warnings + [RepeatedArgName(t)]
    ensures |ValuesFor(schema, tokens, Some(i))| == 0 ==>
      Run(schema, tokens + [t]).warnings == Run(schema, tokens).warnings
  {
    RunSnoc(schema, tokens, t);
    var st := Run(schema, tokens);
    assert Step(schema, st, t) == FlagStep(schema, st, t);
    if schema[i].values == Single {
      SingleArgKeepsFirst(schema, tokens, i);
    } else {
      MultiArgCollectsAll(schema, tokens, i);
    }
  }

  /** An empty token list prints the help and then yields exactly the
      declared defaults and no warnings, unless the help cannot be rendered,
      in which case `parse` throws. */
  lemma EmptyInputGivesDefaults(schema: seq<Descriptor>)
    requires WellFormed(schema)
    ensures Parse(schema, []).HelpThrows? <==> !Renderable(schema)
    ensures Parse(schema, []).Parsed? <==> Renderable(schema)
    ensures Parse(schema, []).Parsed? ==>
      var out := Parse(schema, []).output;
      && Renderable(schema)
      && out.help == Some(HelpText(schema))
      && out.warnings == []
      && forall i :: 0 <= i < |schema| ==> out.args[Canonical(schema[i])] == schema[i].defaultValues
  {
  }
}
