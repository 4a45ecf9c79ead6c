/** The nodes of an expression, and what an engine may read of a document to evaluate it: said of the tree alone. */
module Subexpressions {
  import opened Values
  import opened Sql

  /** The expressions that stand directly in `e`. */
  ghost function Children(e: Expr): (r: set<Expr>)
    ensures forall c | c in r :: c < e
  {
    match e
    case Neg(x) => {x}
    case AggCall(_, arg, _, _) => if arg.Some? then {arg.value} else {}
    case Paren(x) => {x}
    case Not(x) => {x}
    case And(l, r) => {l, r}
    case Or(l, r) => {l, r}
    case IsNull(x, _) => {x}
    case InList(x, list, _, _) => {x} + Elements(list)
    case Compare(_, l, r) => {l, r}
    case ListContains(args, _) => Elements(args)
    case Call(_, args) => Elements(args)
    case _ => {}
  }

  ghost function Elements(es: seq<Expr>): set<Expr> { set e | e in es }

  /** `e`, what stands in it, what stands in that, and so on. */
  ghost function Subs(e: Expr): set<Expr> { {e} + set c, x | c in Children(e) && x in Subs(c) :: x }

  /** The stored field a column reads: a qualifier other than the collection's own names a struct column. */
  ghost function FieldRead(alias: string, c: Expr): string
    requires c.Column?
  {
    match c.table case Some(table) => (if table == alias then c.name else table) case None => c.name
  }

  /** The stored fields that columns anywhere in `e` read. */
  ghost function ReadSet(alias: string, e: Expr): set<string> { set c | c in Subs(e) && c.Column? :: FieldRead(alias, c) }

  /** Somewhere in `e` there is a star, or a COUNT, whose node has a star flag. */
  ghost predicate Starred(e: Expr) { exists x :: x in Subs(e) && (x.Star? || (x.AggCall? && x.kind == Count)) }

  // ----- the parts of an expression -----

  lemma SubsSelf(e: Expr)
    ensures e in Subs(e)
  {
  }

  lemma SubsIff(e: Expr, x: Expr)
    ensures x in Subs(e) <==> x == e || exists c :: c in Children(e) && x in Subs(c)
  {
  }

  /** What stands in an operand stands in the whole. */
  lemma SubsOfChild(e: Expr, c: Expr)
    requires c in Children(e)
    ensures Subs(c) <= Subs(e)
  {
  }

  ghost predicate InSome(es: seq<Expr>, x: Expr) { exists i :: 0 <= i < |es| && x in Subs(es[i]) }

  lemma SubsOfElements(es: seq<Expr>, x: Expr)
    ensures (exists c :: c in Elements(es) && x in Subs(c)) <==> InSome(es, x)
  {
    if c :| c in Elements(es) && x in Subs(c) { var i :| 0 <= i < |es| && es[i] == c; }
    if InSome(es, x) { var i :| 0 <= i < |es| && x in Subs(es[i]); assert es[i] in Elements(es); }
  }

  lemma InSomeCons(es: seq<Expr>, x: Expr)
    requires es != []
    ensures InSome(es, x) <==> x in Subs(es[0]) || InSome(es[1..], x)
  {
    hide Subs;
    if InSome(es[1..], x) { var i :| 0 <= i < |es[1..]| && x in Subs(es[1..][i]); assert x in Subs(es[i + 1]); }
    if InSome(es, x) { var i :| 0 <= i < |es| && x in Subs(es[i]); if i > 0 { assert x in Subs(es[1..][i - 1]); } }
  }
}
