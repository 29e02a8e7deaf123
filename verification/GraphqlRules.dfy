/** The rules of section 5 of the GraphQL specification that need no schema, and the proof that every query a valid
    recipe asks for keeps them. */
module GraphqlRules {
  import opened GraphqlModel
  import opened GraphqlText
  import opened GraphqlValidity
  import opened GraphqlDocument

  /** Input objects name no field twice, at any depth. */
  ghost predicate InputOk(l: Literal) {
    && (forall i, j :: 0 <= i < j < |l.fields| ==> l.fields[i].name != l.fields[j].name)
    && (forall i :: 0 <= i < |l.items| ==> InputOk(l.items[i]))
    && forall i :: 0 <= i < |l.fields| ==> InputOk(l.fields[i].value)
  }

  ghost predicate ValueOk(v: ArgumentValue, variables: set<string>) {
    match v
    case VariableUse(variable) => variable in variables
    case Constant(literal) => InputOk(literal)
  }

  ghost predicate DistinctArguments(arguments: seq<Argument>) {
    forall i, j :: 0 <= i < j < |arguments| ==> arguments[i].name != arguments[j].name
  }

  /** No two fields of one selection set share a response key, so none need merging. */
  ghost predicate DistinctKeys(fields: seq<Field>) {
    forall i, j :: 0 <= i < j < |fields| ==> fields[i].name != fields[j].name
  }

  /** Arguments are unique, use defined variables and sound input values; so it goes for the fields below. */
  ghost predicate FieldOk(f: Field, variables: set<string>) {
    && DistinctArguments(f.arguments)
    && (forall i :: 0 <= i < |f.arguments| ==> ValueOk(f.arguments[i].value, variables))
    && DistinctKeys(f.selections)
    && forall i :: 0 <= i < |f.selections| ==> FieldOk(f.selections[i], variables)
  }

  /** Some argument of the field, or of a field below it, is the variable. */
  ghost predicate Uses(f: Field, variable: string) {
    || (exists i :: 0 <= i < |f.arguments| && f.arguments[i].value == VariableUse(variable))
    || exists i :: 0 <= i < |f.selections| && Uses(f.selections[i], variable)
  }

  function Names(variables: seq<VariableDefinition>): set<string> {
    set i | 0 <= i < |variables| :: variables[i].name
  }

  /** Variables are unique and each is used, and every field keeps the rules. */
  ghost predicate QueryOk(q: Query) {
    && (forall i, j :: 0 <= i < j < |q.variables| ==> q.variables[i].name != q.variables[j].name)
    && DistinctKeys(q.selections)
    && (forall i :: 0 <= i < |q.selections| ==> FieldOk(q.selections[i], Names(q.variables)))
    && forall v :: 0 <= v < |q.variables| ==>
         exists i :: 0 <= i < |q.selections| && Uses(q.selections[i], q.variables[v].name)
  }

  lemma {:induction false} SoundIsOk(l: Literal)
    requires SoundLiteral(l, AnyInteger)
    ensures InputOk(l)
  {
    forall i | 0 <= i < |l.items| ensures InputOk(l.items[i]) {
      SoundIsOk(l.items[i]);
    }
    forall i | 0 <= i < |l.fields| ensures InputOk(l.fields[i].value) {
      SoundIsOk(l.fields[i].value);
    }
  }

  lemma {:induction false} NodesAt(selections: seq<Selection>)
    requires PathsInShape(selections)
    ensures |NodeFields(selections)| == |selections|
    ensures forall i :: 0 <= i < |selections| ==> NodeFields(selections)[i] == PathField(selections[i].fieldPath)
  {
    if selections != [] {
      NodesAt(selections[1..]);
    }
  }

  lemma {:induction false} ConstantsAt(arguments: seq<FixedArgument>)
    ensures |ConstantArguments(arguments)| == |arguments|
    ensures forall i :: 0 <= i < |arguments| ==>
              ConstantArguments(arguments)[i] == Argument(arguments[i].name, Constant(arguments[i].value))
  {
    if arguments != [] {
      ConstantsAt(arguments[1..]);
    }
  }

  lemma LeafOk(name: string, variables: set<string>)
    ensures FieldOk(Field(name, [], []), variables)
  {
  }

  lemma PathFieldOk(path: seq<string>, variables: set<string>)
    requires 1 <= |path| <= 2
    ensures FieldOk(PathField(path), variables)
  {
    if |path| == 2 {
      LeafOk(path[1], variables);
    }
  }

  lemma NodesOk(r: Recipe, variables: set<string>)
    requires SelectionsValid(r.selections) && PathsInShape(r.selections)
    ensures FieldOk(ConnectionNodes(r), variables)
  {
    NodesAt(r.selections);
    forall i | 0 <= i < |r.selections| ensures FieldOk(NodeFields(r.selections)[i], variables) {
      PathFieldOk(r.selections[i].fieldPath, variables);
    }
  }

  lemma PageOk(r: Recipe, variables: set<string>)
    requires EnvelopeValid(r)
    ensures FieldOk(ConnectionPage(r), variables)
  {
    LeafOk(r.hasNextPageField, variables);
    LeafOk(r.endCursorField, variables);
  }

  lemma ArgumentsOk(r: Recipe, variables: set<string>)
    requires VariablesValid(r) && ArgumentsValid(r, AnyInteger)
    requires r.variables[0].name in variables && r.variables[1].name in variables
    ensures var arguments := ConnectionArguments(r);
            && DistinctArguments(arguments)
            && forall i :: 0 <= i < |arguments| ==> ValueOk(arguments[i].value, variables)
  {
    hide SoundLiteral, InputOk, DepthFits, IsName;
    ConstantsAt(r.fixedArguments);
    forall i | 0 <= i < |r.fixedArguments| ensures InputOk(r.fixedArguments[i].value) {
      SoundIsOk(r.fixedArguments[i].value);
    }
  }

  lemma ConnectionOk(r: Recipe, name: string, variables: set<string>)
    requires ValidRecipe(r, AnyInteger) && Renderable(r)
    requires r.variables[0].name in variables && r.variables[1].name in variables
    ensures FieldOk(Field(name, ConnectionArguments(r), ConnectionFields(r)), variables)
    ensures forall v :: 0 <= v < 2 ==>
              Uses(Field(name, ConnectionArguments(r), ConnectionFields(r)), r.variables[v].name)
  {
    hide SelectionsValid, ArgumentsValid, RootsValid, VariablesValid, ConstantArguments, NodeFields, IsName;
    ArgumentsOk(r, variables);
    NodesOk(r, variables);
    PageOk(r, variables);
    var f := Field(name, ConnectionArguments(r), ConnectionFields(r));
    assert f.selections == [ConnectionNodes(r), ConnectionPage(r)];
    assert f.arguments[0].value == VariableUse(r.variables[0].name);
    assert f.arguments[1].value == VariableUse(r.variables[1].name);
  }

  lemma {:induction false} RootOk(r: Recipe, path: seq<string>, variables: set<string>)
    requires ValidRecipe(r, AnyInteger) && Renderable(r) && path != []
    requires r.variables[0].name in variables && r.variables[1].name in variables
    ensures FieldOk(RootField(r, path), variables)
    ensures forall v :: 0 <= v < 2 ==> Uses(RootField(r, path), r.variables[v].name)
    decreases |path|
  {
    hide ValidRecipe, Renderable, ConnectionArguments, ConnectionFields;
    if |path| == 1 {
      ConnectionOk(r, path[0], variables);
    } else {
      RootOk(r, path[1..], variables);
      var f := RootField(r, path);
      assert f.selections[0] == RootField(r, path[1..]);
    }
  }

  /** The query of a valid recipe keeps the rules. */
  lemma QueryKeepsRules(r: Recipe)
    requires ValidRecipe(r, AnyInteger)
    ensures Renderable(r) && QueryOk(QueryOf(r))
  {
    hide RootField, FieldOk, Uses, RootsValid, SelectionsValid, ArgumentsValid, EnvelopeValid, IsName;
    ValidIsRenderable(r, AnyInteger);
    var q := QueryOf(r);
    assert q.variables[0].name == r.variables[0].name && q.variables[1].name == r.variables[1].name;
    RootOk(r, r.rootPath, Names(q.variables));
    assert q.selections[0] == RootField(r, r.rootPath);
  }
}
