/** A rendered document determines its recipe: names hold no delimiter, strings escape line breaks and quotes, and a
    literal is read back by the parser, so equal documents come from equal parts. */
module GraphqlDeterminism {
  import opened GraphqlModel
  import opened GraphqlText
  import opened GraphqlValidity
  import opened GraphqlParser

  // ----- Taking equal texts apart

  lemma Cancel(front: string, x: string, y: string)
    requires front + x == front + y
    ensures x == y
  {
    assert (front + x)[|front|..] == x && (front + y)[|front|..] == y;
  }

  /** A text that ends the name before it. */
  predicate EndsName(text: string) {
    text != "" && !IsNameChar(text[0])
  }

  lemma NameSplit(a: string, b: string, x: string, y: string)
    requires AllNameChars(a) && AllNameChars(b) && EndsName(x) && EndsName(y)
    requires a + x == b + y
    ensures a == b && x == y
  {
    NameLengthOf(a, x);
    NameLengthOf(b, y);
    assert (a + x)[..|a|] == a && (b + y)[..|b|] == b;
    Cancel(a, x, y);
  }

  // ----- The pieces of a document

  /** The header and what follows it, name by name. */
  lemma HeaderShape(r: Recipe, k: string)
    requires HasTwoVariables(r)
    ensures HeaderText(r) + k
         == "query " + (r.operationName
             + ("($" + (r.variables[0].name + (": Int!, $" + (r.variables[1].name + (": String) {\n" + k))))))
  {
  }

  lemma HeaderDetermines(r: Recipe, s: Recipe, k: string, l: string)
    requires EnvelopeValid(r) && VariablesValid(r) && EnvelopeValid(s) && VariablesValid(s)
    requires HeaderText(r) + k == HeaderText(s) + l
    ensures r.operationName == s.operationName
    ensures r.variables[0].name == s.variables[0].name && r.variables[1].name == s.variables[1].name
    ensures k == l
  {
    hide HeaderText, AllNameChars;
    HeaderShape(r, k);
    HeaderShape(s, l);
    var r2, s2 := ": String) {\n" + k, ": String) {\n" + l;
    var r1, s1 := ": Int!, $" + (r.variables[1].name + r2), ": Int!, $" + (s.variables[1].name + s2);
    var r0, s0 := "($" + (r.variables[0].name + r1), "($" + (s.variables[0].name + s1);
    Cancel("query ", r.operationName + r0, s.operationName + s0);
    NameSplit(r.operationName, s.operationName, r0, s0);
    Cancel("($", r.variables[0].name + r1, s.variables[0].name + s1);
    NameSplit(r.variables[0].name, s.variables[0].name, r1, s1);
    Cancel(": Int!, $", r.variables[1].name + r2, s.variables[1].name + s2);
    NameSplit(r.variables[1].name, s.variables[1].name, r2, s2);
    Cancel(": String) {\n", k, l);
  }

  predicate AllNames(path: seq<string>) {
    forall i :: 0 <= i < |path| ==> IsName(path[i])
  }

  /** What follows the first field of a root path. */
  function AfterRoot(path: seq<string>, depth: nat, k: string): string
    requires path != []
  {
    if |path| == 1 then "(\n" + k else " {\n" + (RootsText(path[1..], depth + 1) + k)
  }

  lemma {:induction false} RootsDetermine(p: seq<string>, q: seq<string>, depth: nat, k: string, l: string)
    requires p != [] && q != [] && AllNames(p) && AllNames(q)
    requires RootsText(p, depth) + k == RootsText(q, depth) + l
    ensures p == q && k == l
    decreases |p|
  {
    hide Indent;
    var x, y := AfterRoot(p, depth, k), AfterRoot(q, depth, l);
    assert RootsText(p, depth) + k == Indent(depth) + (p[0] + x);
    assert RootsText(q, depth) + l == Indent(depth) + (q[0] + y);
    Cancel(Indent(depth), p[0] + x, q[0] + y);
    NameSplit(p[0], q[0], x, y);
    assert x[0] == y[0];
    if |p| == 1 {
      Cancel("(\n", k, l);
    } else {
      Cancel(" {\n", RootsText(p[1..], depth + 1) + k, RootsText(q[1..], depth + 1) + l);
      RootsDetermine(p[1..], q[1..], depth + 1, k, l);
    }
    assert p == [p[0]] + p[1..] && q == [q[0]] + q[1..];
  }

  lemma VariableDetermines(v: Variable, w: Variable, depth: nat, k: string, l: string)
    requires IsName(v.argumentName) && IsName(w.argumentName) && v.name == w.name
    requires VariableText(v, depth) + k == VariableText(w, depth) + l
    ensures v.argumentName == w.argumentName && k == l
  {
    hide Indent;
    var x, y := ": $" + v.name + "\n" + k, ": $" + w.name + "\n" + l;
    assert VariableText(v, depth) + k == Indent(depth + 1) + (v.argumentName + x);
    assert VariableText(w, depth) + l == Indent(depth + 1) + (w.argumentName + y);
    Cancel(Indent(depth + 1), v.argumentName + x, w.argumentName + y);
    NameSplit(v.argumentName, w.argumentName, x, y);
    Cancel(": $" + v.name + "\n", k, l);
  }

  lemma LiteralDetermines(a: Literal, b: Literal, k: string, l: string)
    requires SoundLiteral(a, AnyInteger) && SoundLiteral(b, AnyInteger)
    requires Rendered(a) + ("\n" + k) == Rendered(b) + ("\n" + l)
    ensures a == b && k == l
  {
    hide Rendered, ParseValue;
    LiteralParses(a, "\n" + k);
    LiteralParses(b, "\n" + l);
    Cancel("\n", k, l);
  }

  ghost predicate ArgumentSound(a: FixedArgument) {
    IsName(a.name) && SoundLiteral(a.value, AnyInteger)
  }

  lemma ArgumentDetermines(a: FixedArgument, b: FixedArgument, depth: nat, k: string, l: string)
    requires ArgumentSound(a) && ArgumentSound(b)
    requires ArgumentText(a, depth) + k == ArgumentText(b, depth) + l
    ensures a == b && k == l
  {
    hide Indent, Rendered;
    var va, vb := Rendered(a.value) + ("\n" + k), Rendered(b.value) + ("\n" + l);
    assert ArgumentText(a, depth) + k == Indent(depth + 1) + (a.name + (": " + va));
    assert ArgumentText(b, depth) + l == Indent(depth + 1) + (b.name + (": " + vb));
    Cancel(Indent(depth + 1), a.name + (": " + va), b.name + (": " + vb));
    NameSplit(a.name, b.name, ": " + va, ": " + vb);
    Cancel(": ", va, vb);
    LiteralDetermines(a.value, b.value, k, l);
  }

  /** `k` goes on at the indentation `depth` with a character that is no space. */
  predicate Dedents(k: string, depth: nat) {
    |k| > 2 * depth && k[2 * depth] != ' '
  }

  lemma {:induction false} ArgumentsDetermine(a: seq<FixedArgument>, b: seq<FixedArgument>, depth: nat, k: string,
                                              l: string)
    requires forall i :: 0 <= i < |a| ==> ArgumentSound(a[i])
    requires forall i :: 0 <= i < |b| ==> ArgumentSound(b[i])
    requires Dedents(k, depth) && Dedents(l, depth)
    requires ArgumentsText(a, depth) + k == ArgumentsText(b, depth) + l
    ensures a == b && k == l
    decreases |a|
  {
    hide ArgumentText, ArgumentSound;
    if a == [] && b == [] {
      assert ArgumentsText(a, depth) + k == k && ArgumentsText(b, depth) + l == l;
    } else if a == [] {
      assert ArgumentsText(a, depth) + k == k;
      ArgumentIndents(b, depth, l);
    } else if b == [] {
      assert ArgumentsText(b, depth) + l == l;
      ArgumentIndents(a, depth, k);
    } else {
      var x, y := ArgumentsText(a[1..], depth) + k, ArgumentsText(b[1..], depth) + l;
      assert ArgumentsText(a, depth) + k == ArgumentText(a[0], depth) + x;
      assert ArgumentsText(b, depth) + l == ArgumentText(b[0], depth) + y;
      ArgumentDetermines(a[0], b[0], depth, x, y);
      ArgumentsDetermine(a[1..], b[1..], depth, k, l);
      assert a == [a[0]] + a[1..] && b == [b[0]] + b[1..];
    }
  }

  lemma ArgumentIndents(a: seq<FixedArgument>, depth: nat, k: string)
    requires a != []
    ensures |ArgumentsText(a, depth) + k| > 2 * depth && (ArgumentsText(a, depth) + k)[2 * depth] == ' '
  {
    hide Rendered;
    assert ArgumentText(a[0], depth)[2 * depth] == ' ';
  }

  predicate PathSound(s: Selection) {
    1 <= |s.fieldPath| <= 2 && AllNames(s.fieldPath)
  }

  function AfterField(s: Selection, k: string): string
    requires 1 <= |s.fieldPath| <= 2
  {
    if |s.fieldPath| == 2 then " { " + (s.fieldPath[1] + (" }\n" + k)) else "\n" + k
  }

  lemma SelectionDetermines(a: Selection, b: Selection, depth: nat, k: string, l: string)
    requires PathSound(a) && PathSound(b)
    requires SelectionText(a, depth) + k == SelectionText(b, depth) + l
    ensures a.fieldPath == b.fieldPath && k == l
  {
    hide Indent;
    var x, y := AfterField(a, k), AfterField(b, l);
    assert SelectionText(a, depth) + k == Indent(depth + 2) + (a.fieldPath[0] + x);
    assert SelectionText(b, depth) + l == Indent(depth + 2) + (b.fieldPath[0] + y);
    Cancel(Indent(depth + 2), a.fieldPath[0] + x, b.fieldPath[0] + y);
    NameSplit(a.fieldPath[0], b.fieldPath[0], x, y);
    assert x[0] == y[0];
    if |a.fieldPath| == 2 {
      Cancel(" { ", a.fieldPath[1] + (" }\n" + k), b.fieldPath[1] + (" }\n" + l));
      NameSplit(a.fieldPath[1], b.fieldPath[1], " }\n" + k, " }\n" + l);
      Cancel(" }\n", k, l);
      assert a.fieldPath == [a.fieldPath[0], a.fieldPath[1]] && b.fieldPath == [b.fieldPath[0], b.fieldPath[1]];
    } else {
      Cancel("\n", k, l);
      assert a.fieldPath == [a.fieldPath[0]] && b.fieldPath == [b.fieldPath[0]];
    }
  }

  predicate SamePaths(a: seq<Selection>, b: seq<Selection>) {
    |a| == |b| && forall i :: 0 <= i < |a| ==> a[i].fieldPath == b[i].fieldPath
  }

  lemma {:induction false} SelectionsDetermine(a: seq<Selection>, b: seq<Selection>, depth: nat, k: string, l: string)
    requires (forall i :: 0 <= i < |a| ==> PathSound(a[i])) && (forall i :: 0 <= i < |b| ==> PathSound(b[i]))
    requires PathsInShape(a) && PathsInShape(b)
    requires Dedents(k, depth + 1) && Dedents(l, depth + 1)
    requires SelectionsText(a, depth) + k == SelectionsText(b, depth) + l
    ensures SamePaths(a, b) && k == l
    decreases |a|
  {
    hide SelectionText, AllNames;
    if a == [] && b == [] {
      assert SelectionsText(a, depth) + k == k && SelectionsText(b, depth) + l == l;
    } else if a == [] {
      assert SelectionsText(a, depth) + k == k;
      SelectionIndents(b, depth, l);
    } else if b == [] {
      assert SelectionsText(b, depth) + l == l;
      SelectionIndents(a, depth, k);
    } else {
      var x, y := SelectionsText(a[1..], depth) + k, SelectionsText(b[1..], depth) + l;
      assert SelectionsText(a, depth) + k == SelectionText(a[0], depth) + x;
      assert SelectionsText(b, depth) + l == SelectionText(b[0], depth) + y;
      SelectionDetermines(a[0], b[0], depth, x, y);
      SelectionsDetermine(a[1..], b[1..], depth, k, l);
      assert forall i :: 1 <= i < |a| ==> a[i] == a[1..][i - 1] && b[i] == b[1..][i - 1];
    }
  }

  lemma SelectionIndents(a: seq<Selection>, depth: nat, k: string)
    requires a != [] && PathsInShape(a)
    ensures |SelectionsText(a, depth) + k| > 2 * depth + 2 && (SelectionsText(a, depth) + k)[2 * depth + 2] == ' '
  {
    assert SelectionText(a[0], depth)[2 * depth + 2] == ' ';
  }

  lemma PageInfoShape(r: Recipe, depth: nat, k: string)
    ensures PageInfoText(r, depth) + k
         == NodesEndText(depth) + Indent(depth + 1)
            + (r.pageInfoField + (" { " + (r.hasNextPageField + (" " + (r.endCursorField + (" }\n" + k))))))
  {
    hide Indent, NodesEndText;
  }

  lemma PageInfoDetermines(r: Recipe, s: Recipe, depth: nat, k: string)
    requires EnvelopeValid(r) && EnvelopeValid(s)
    requires PageInfoText(r, depth) + k == PageInfoText(s, depth) + k
    ensures r.pageInfoField == s.pageInfoField
    ensures r.hasNextPageField == s.hasNextPageField && r.endCursorField == s.endCursorField
  {
    hide Indent, NodesEndText, PageInfoText, AllNameChars;
    PageInfoShape(r, depth, k);
    PageInfoShape(s, depth, k);
    var front := NodesEndText(depth) + Indent(depth + 1);
    var r1, s1 := " " + (r.endCursorField + (" }\n" + k)), " " + (s.endCursorField + (" }\n" + k));
    var r0, s0 := " { " + (r.hasNextPageField + r1), " { " + (s.hasNextPageField + s1);
    Cancel(front, r.pageInfoField + r0, s.pageInfoField + s0);
    NameSplit(r.pageInfoField, s.pageInfoField, r0, s0);
    Cancel(" { ", r.hasNextPageField + r1, s.hasNextPageField + s1);
    NameSplit(r.hasNextPageField, s.hasNextPageField, r1, s1);
    Cancel(" ", r.endCursorField + (" }\n" + k), s.endCursorField + (" }\n" + k));
    NameSplit(r.endCursorField, s.endCursorField, " }\n" + k, " }\n" + k);
  }

  // ----- The whole document

  /** The recipes agree in everything but the identity tag and the column names. */
  predicate SameQuery(r: Recipe, s: Recipe) {
    s == r.(identity := s.identity, selections := s.selections) && SamePaths(r.selections, s.selections)
  }

  lemma OpeningDetermines(r: Recipe, s: Recipe, k: string, l: string)
    requires ValidRecipe(r, AnyInteger) && ValidRecipe(s, AnyInteger) && Renderable(r) && Renderable(s)
    requires OpeningText(r) + k == OpeningText(s) + l
    ensures r.operationName == s.operationName && r.rootPath == s.rootPath
    ensures r.variables[0].name == s.variables[0].name && r.variables[1].name == s.variables[1].name
    ensures k == l
  {
    hide HeaderText, RootsText, ArgumentsValid, SelectionsValid, IsName;
    var x, y := RootsText(r.rootPath, 1) + k, RootsText(s.rootPath, 1) + l;
    assert OpeningText(r) + k == HeaderText(r) + x;
    assert OpeningText(s) + l == HeaderText(s) + y;
    HeaderDetermines(r, s, x, y);
    RootsDetermine(r.rootPath, s.rootPath, 1, k, l);
  }

  lemma ArgumentBlockDetermines(r: Recipe, s: Recipe, k: string, l: string)
    requires ValidRecipe(r, AnyInteger) && ValidRecipe(s, AnyInteger) && Renderable(r) && Renderable(s)
    requires r.rootPath == s.rootPath
    requires r.variables[0].name == s.variables[0].name && r.variables[1].name == s.variables[1].name
    requires Dedents(k, |r.rootPath|) && Dedents(l, |r.rootPath|)
    requires ArgumentBlockText(r) + k == ArgumentBlockText(s) + l
    ensures r.variables == s.variables && r.fixedArguments == s.fixedArguments && k == l
  {
    hide VariableText, ArgumentsText, SelectionsValid, RootsValid, IsName, SoundLiteral;
    var depth := |r.rootPath|;
    var x1, y1 := ArgumentsText(r.fixedArguments, depth) + k, ArgumentsText(s.fixedArguments, depth) + l;
    var x0, y0 := VariableText(r.variables[1], depth) + x1, VariableText(s.variables[1], depth) + y1;
    assert ArgumentBlockText(r) + k == VariableText(r.variables[0], depth) + x0;
    assert ArgumentBlockText(s) + l == VariableText(s.variables[0], depth) + y0;
    VariableDetermines(r.variables[0], s.variables[0], depth, x0, y0);
    VariableDetermines(r.variables[1], s.variables[1], depth, x1, y1);
    ArgumentsDetermine(r.fixedArguments, s.fixedArguments, depth, k, l);
    assert r.variables == [r.variables[0], r.variables[1]] && s.variables == [s.variables[0], s.variables[1]];
  }

  lemma NodesBlockDetermines(r: Recipe, s: Recipe, k: string, l: string)
    requires ValidRecipe(r, AnyInteger) && ValidRecipe(s, AnyInteger) && Renderable(r) && Renderable(s)
    requires r.rootPath == s.rootPath
    requires Dedents(k, |r.rootPath| + 1) && Dedents(l, |r.rootPath| + 1)
    requires NodesBlockText(r) + k == NodesBlockText(s) + l
    ensures SamePaths(r.selections, s.selections) && k == l
  {
    hide SelectionsText, ArgumentsValid, RootsValid, IsName, Indent;
    var depth := |r.rootPath|;
    var x, y := SelectionsText(r.selections, depth) + k, SelectionsText(s.selections, depth) + l;
    assert NodesBlockText(r) + k == NodesText(r, depth) + x;
    assert NodesBlockText(s) + l == NodesText(s, depth) + y;
    assert NodesText(r, depth) == NodesText(s, depth);
    Cancel(NodesText(r, depth), x, y);
    assert forall i :: 0 <= i < |r.selections| ==> SelectionShaped(r.selections[i]);
    assert forall i :: 0 <= i < |s.selections| ==> SelectionShaped(s.selections[i]);
    SelectionsDetermine(r.selections, s.selections, depth, k, l);
  }

  lemma NodesBlockDedents(r: Recipe, k: string)
    requires Renderable(r)
    ensures Dedents(NodesBlockText(r) + k, |r.rootPath|)
  {
    hide SelectionsText;
    assert NodesText(r, |r.rootPath|)[2 * |r.rootPath|] == ')';
  }

  lemma EndDedents(r: Recipe)
    ensures Dedents(EndText(r), |r.rootPath| + 1)
  {
    hide ClosersText, PageFieldsText;
    assert NodesEndText(|r.rootPath|)[2 * |r.rootPath| + 2] == '}';
    assert EndText(r)[2 * |r.rootPath| + 2] == '}';
  }

  /** Two valid recipes with equal documents agree in everything but the identity tag and the column names. */
  lemma DocumentDeterminesRecipe(r: Recipe, s: Recipe)
    requires ValidRecipe(r, AnyInteger) && ValidRecipe(s, AnyInteger)
    requires Renderable(r) && Renderable(s) && Document(r) == Document(s)
    ensures SameQuery(r, s)
  {
    hide OpeningText, ArgumentBlockText, NodesBlockText, EndText, Dedents, RootsValid, ArgumentsValid,
        SelectionsValid, IsName;
    var x2, y2 := NodesBlockText(r) + EndText(r), NodesBlockText(s) + EndText(s);
    var x1, y1 := ArgumentBlockText(r) + x2, ArgumentBlockText(s) + y2;
    assert Document(r) == OpeningText(r) + x1;
    assert Document(s) == OpeningText(s) + y1;
    OpeningDetermines(r, s, x1, y1);
    NodesBlockDedents(r, EndText(r));
    NodesBlockDedents(s, EndText(s));
    ArgumentBlockDetermines(r, s, x2, y2);
    EndDedents(r);
    EndDedents(s);
    NodesBlockDetermines(r, s, EndText(r), EndText(s));
    EndDetermines(r, s);
  }

  lemma EndDetermines(r: Recipe, s: Recipe)
    requires EnvelopeValid(r) && EnvelopeValid(s) && r.rootPath == s.rootPath && EndText(r) == EndText(s)
    ensures r.pageInfoField == s.pageInfoField
    ensures r.hasNextPageField == s.hasNextPageField && r.endCursorField == s.endCursorField
  {
    PageInfoDetermines(r, s, |r.rootPath|, ClosersText(|r.rootPath|));
  }
}
