/** The predicate tree a query offers to the planner, and its three-valued meaning. */
module Predicates {
  import opened Scalars

  datatype RequestedPredicate =
    | Unrestricted
    | Comparison(column: nat, columnType: ScalarType, literal: ScalarValue)
    | Conjunction(children: seq<RequestedPredicate>)
    | Disjunction(children: seq<RequestedPredicate>)
    | Negation(child: RequestedPredicate)
    | Unsupported(position: nat)

  const MAX_DEPTH := 16
  const MAX_NODES := 64

  function Max(a: nat, b: nat): nat {
    if a < b then b else a
  }

  function Depth(p: RequestedPredicate): nat
    decreases p, 1
  {
    match p
    case Conjunction(children) => Max(1, DepthOfAll(children) + 1)
    case Disjunction(children) => Max(1, DepthOfAll(children) + 1)
    case Negation(child) => Depth(child) + 1
    case _ => 1
  }

  function DepthOfAll(ps: seq<RequestedPredicate>): nat
    decreases ps, 0
  {
    if ps == [] then 0 else Max(Depth(ps[0]), DepthOfAll(ps[1..]))
  }

  function NodeCount(p: RequestedPredicate): nat
    decreases p, 1
  {
    match p
    case Conjunction(children) => 1 + NodeCountOfAll(children)
    case Disjunction(children) => 1 + NodeCountOfAll(children)
    case Negation(child) => NodeCount(child) + 1
    case _ => 1
  }

  function NodeCountOfAll(ps: seq<RequestedPredicate>): nat
    decreases ps, 0
  {
    if ps == [] then 0 else NodeCount(ps[0]) + NodeCountOfAll(ps[1..])
  }

  /** The trees a query can build: AND and OR have at least two children, a comparison's literal has the type of its
      column, and the limits hold. */
  predicate Buildable(p: RequestedPredicate) {
    WellFormed(p) && Depth(p) <= MAX_DEPTH && NodeCount(p) <= MAX_NODES
  }

  predicate WellFormed(p: RequestedPredicate) {
    match p
    case Comparison(_, columnType, literal) => columnType == literal.Type()
    case Conjunction(children) => |children| >= 2 && forall i :: 0 <= i < |children| ==> WellFormed(children[i])
    case Disjunction(children) => |children| >= 2 && forall i :: 0 <= i < |children| ==> WellFormed(children[i])
    case Negation(child) => WellFormed(child)
    case _ => true
  }

  /** Structural equality of trees, with the host language's equality on literals. */
  predicate StructurallyEquals(p: RequestedPredicate, q: RequestedPredicate) {
    match (p, q)
    case (Unrestricted, Unrestricted) => true
    case (Comparison(c, t, v), Comparison(c', t', v')) => c == c' && t == t' && SameValue(v, v')
    case (Unsupported(n), Unsupported(n')) => n == n'
    case (Negation(x), Negation(y)) => StructurallyEquals(x, y)
    case (Conjunction(xs), Conjunction(ys)) =>
      |xs| == |ys| && forall i :: 0 <= i < |xs| ==> StructurallyEquals(xs[i], ys[i])
    case (Disjunction(xs), Disjunction(ys)) =>
      |xs| == |ys| && forall i :: 0 <= i < |xs| ==> StructurallyEquals(xs[i], ys[i])
    case _ => false
  }

  // ----- Three-valued semantics

  datatype Truth = True | False | Unknown

  function And(a: Truth, b: Truth): Truth {
    if a == False || b == False then False
    else if a == Unknown || b == Unknown then Unknown
    else True
  }

  function Or(a: Truth, b: Truth): Truth {
    if a == True || b == True then True
    else if a == Unknown || b == Unknown then Unknown
    else False
  }

  function Not(a: Truth): Truth {
    match a
    case True => False
    case False => True
    case Unknown => Unknown
  }

  datatype Cell = NullCell | ScalarCell(value: ScalarValue) | ArrayCell(items: seq<Cell>)
  type Row = seq<Cell>

  /** SQL equality of one cell with a non-NULL literal; DuckDB orders NaN equal to itself. */
  function CellEquals(cell: Cell, literal: ScalarValue): Truth {
    match cell
    case ScalarCell(v) => if v == literal then True else False
    case _ => Unknown
  }

  function ColumnEquals(row: Row, column: nat, literal: ScalarValue): Truth {
    if column < |row| then CellEquals(row[column], literal) else Unknown
  }

  /** The truth of `p` on `row`. `untranslated` gives the truth of each position the query could
      not translate; nothing is known about it. */
  function Eval(p: RequestedPredicate, row: Row, untranslated: nat -> Truth): Truth
    decreases p, 1
  {
    match p
    case Unrestricted => True
    case Comparison(column, _, literal) => ColumnEquals(row, column, literal)
    case Conjunction(children) => EvalAll(children, row, untranslated)
    case Disjunction(children) => EvalAny(children, row, untranslated)
    case Negation(child) => Not(Eval(child, row, untranslated))
    case Unsupported(position) => untranslated(position)
  }

  function EvalAll(ps: seq<RequestedPredicate>, row: Row, untranslated: nat -> Truth): Truth
    decreases ps, 0
  {
    if ps == [] then True else And(Eval(ps[0], row, untranslated), EvalAll(ps[1..], row, untranslated))
  }

  function EvalAny(ps: seq<RequestedPredicate>, row: Row, untranslated: nat -> Truth): Truth
    decreases ps, 0
  {
    if ps == [] then False else Or(Eval(ps[0], row, untranslated), EvalAny(ps[1..], row, untranslated))
  }
}
