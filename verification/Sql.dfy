/**
 The part of PostgreSQL's expression language that rendered predicates use: tokens, the
 reading of a token list with PostgreSQL's operator precedence (PostgreSQL manual,
 section 4.1.6), and three-valued evaluation (section 9.1).

 The reader knows nothing about the renderer: it is a general expression reader, so a
 missing pair of parentheses shows up as a different expression.
 */
module Sql {
  import opened Wrappers
  import opened Filters

  datatype Comparison = Eq | Ne | Lt | Gt | Le | Ge

  datatype SqlType = InferFromSql | Jsonb | JsonbArray | TextArray

  datatype Parameter =
    | JsonValue(v: PayloadValue)
    | JsonArray(vs: seq<PayloadValue>)
    | Bound(b: RangeBound)
    | PathSegments(path: seq<string>)

  /** One placeholder's value with the type it is bound as. */
  datatype Binding = Binding(value: Parameter, ty: SqlType)

  datatype Token =
    | LParen | RParen
    | KwAnd | KwOr | KwNot | KwTrue | KwIs | KwNull | KwAny | KwAll
    | Ident(name: string)
    | Placeholder(i: nat)
    | Compare(op: Comparison)
    | FollowPath          // #>
    | Cast(ty: SqlType)   // ::text[], ::jsonb, ::jsonb[]

  datatype Expr =
    | ETrue
    | EColumn(name: string)
    | EParam(i: nat)
    | ECast(e: Expr, ty: SqlType)
    | EPath(e: Expr, path: Expr)
    | ECompare(op: Comparison, l: Expr, r: Expr)
    | EAny(op: Comparison, l: Expr, array: Expr)
    | EAll(op: Comparison, l: Expr, array: Expr)
    | EIsNull(e: Expr, negated: bool)
    | ENot(e: Expr)
    | EAnd(l: Expr, r: Expr)
    | EOr(l: Expr, r: Expr)

  // ---------- reading ----------

  // Precedence levels, loosest first.
  const OR: nat := 0
  const AND: nat := 1
  const NOT: nat := 2
  const IS: nat := 3
  const COMPARE: nat := 4
  const OPERATOR: nat := 5
  const CAST: nat := 6
  const PRIMARY: nat := 7

  datatype Reading = Fail | Read(e: Expr, rest: seq<Token>)

  /** Reads one expression of the given level from the front of a token list. */
  function ReadLevel(ts: seq<Token>, level: nat): (r: Reading)
    requires level <= PRIMARY
    ensures r.Read? ==> |r.rest| < |ts|
    decreases |ts|, PRIMARY - level + 1
  {
    if level == PRIMARY then
      ReadPrimary(ts)
    else if level == NOT && ts != [] && ts[0] == KwNot then
      match ReadLevel(ts[1..], NOT)
      case Fail => Fail
      case Read(e, rest) => Read(ENot(e), rest)
    else
      match ReadLevel(ts, level + 1)
      case Fail => Fail
      case Read(e, rest) => ReadTail(e, rest, level)
  }

  function ReadPrimary(ts: seq<Token>): (r: Reading)
    ensures r.Read? ==> |r.rest| < |ts|
    decreases |ts|, 0
  {
    if ts == [] then
      Fail
    else
      match ts[0]
      case KwTrue => Read(ETrue, ts[1..])
      case Ident(name) => Read(EColumn(name), ts[1..])
      case Placeholder(i) => Read(EParam(i), ts[1..])
      case LParen => ReadClosed(ts[1..])
      case _ => Fail
  }

  /** Reads an expression and the parenthesis that closes it. */
  function ReadClosed(ts: seq<Token>): (r: Reading)
    ensures r.Read? ==> |r.rest| < |ts|
    decreases |ts|, PRIMARY + 2
  {
    match ReadLevel(ts, OR)
    case Fail => Fail
    case Read(e, rest) => if rest != [] && rest[0] == RParen then Read(e, rest[1..]) else Fail
  }

  /** Extends a read expression with the operators of one level, to the left. */
  function ReadTail(e: Expr, ts: seq<Token>, level: nat): (r: Reading)
    requires level < PRIMARY
    ensures r.Read? ==> |r.rest| <= |ts|
    decreases |ts|, PRIMARY + 3
  {
    if ts == [] || Level(ts[0]) != level then
      Read(e, ts)
    else
      match ts[0]
      case KwOr =>
        (match ReadLevel(ts[1..], AND)
         case Fail => Fail
         case Read(r, rest) => ReadTail(EOr(e, r), rest, level))
      case KwAnd =>
        (match ReadLevel(ts[1..], NOT)
         case Fail => Fail
         case Read(r, rest) => ReadTail(EAnd(e, r), rest, level))
      case KwIs =>
        if |ts| >= 2 && ts[1] == KwNull then Read(EIsNull(e, false), ts[2..])
        else if |ts| >= 3 && ts[1] == KwNot && ts[2] == KwNull then Read(EIsNull(e, true), ts[3..])
        else Fail
      case Compare(op) =>
        if |ts| >= 3 && (ts[1] == KwAny || ts[1] == KwAll) && ts[2] == LParen then
          match ReadClosed(ts[3..])
          case Fail => Fail
          case Read(a, rest) => Read(if ts[1] == KwAny then EAny(op, e, a) else EAll(op, e, a), rest)
        else
          (match ReadLevel(ts[1..], OPERATOR)
           case Fail => Fail
           case Read(r, rest) => Read(ECompare(op, e, r), rest))
      case FollowPath =>
        (match ReadLevel(ts[1..], CAST)
         case Fail => Fail
         case Read(r, rest) => ReadTail(EPath(e, r), rest, level))
      case Cast(ty) => ReadTail(ECast(e, ty), ts[1..], level)
      case _ => Fail
  }

  /** The level whose operators include this token; tokens that continue no expression have none. */
  function Level(t: Token): int {
    match t
    case KwOr => OR
    case KwAnd => AND
    case KwIs => IS
    case Compare(_) => COMPARE
    case FollowPath => OPERATOR
    case Cast(_) => CAST
    case _ => -1
  }

  /** A whole token list read as one expression. */
  function ReadAll(ts: seq<Token>): Option<Expr> {
    match ReadLevel(ts, OR)
    case Read(e, rest) => if rest == [] then Some(e) else None
    case Fail => None
  }

  // ---------- three-valued evaluation ----------

  datatype Truth = True | False | Unknown

  function And(a: Truth, b: Truth): Truth {
    if a == False || b == False then False else if a == Unknown || b == Unknown then Unknown else True
  }

  function Or(a: Truth, b: Truth): Truth {
    if a == True || b == True then True else if a == Unknown || b == Unknown then Unknown else False
  }

  function Not(a: Truth): Truth {
    match a case True => False case False => True case Unknown => Unknown
  }

  /**
   One row and the database's own operators: column values, `#>`, comparison, null test, and
   the conversion of bound values (as `jsonb` when the flag is set). Every result below holds
   for every choice of these.
   */
  datatype World<!V(!new)> = World(
    column: string -> V,
    follow: (V, seq<string>) -> V,
    compare: (Comparison, V, V) -> Truth,
    isNull: V -> bool,
    scalar: (PayloadValue, bool) -> V,
    bound: (RangeBound, bool) -> V)

  datatype Value<V> = Logical(t: Truth) | Datum(v: V) | Items(vs: seq<V>) | Path(path: seq<string>) | TypeError

  function Scalars<V(!new)>(vs: seq<PayloadValue>, jsonb: bool, w: World<V>): seq<V> {
    if vs == [] then [] else [w.scalar(vs[0], jsonb)] + Scalars(vs[1..], jsonb, w)
  }

  /** The value a driver binds for a parameter under its declared type. */
  function Bind<V(!new)>(b: Binding, w: World<V>): Value<V> {
    match (b.value, b.ty)
    case (JsonValue(v), InferFromSql) => Datum(w.scalar(v, false))
    case (JsonValue(v), Jsonb) => Datum(w.scalar(v, true))
    case (JsonArray(vs), InferFromSql) => Items(Scalars(vs, false, w))
    case (JsonArray(vs), JsonbArray) => Items(Scalars(vs, true, w))
    case (Bound(b), InferFromSql) => Datum(w.bound(b, false))
    case (Bound(b), Jsonb) => Datum(w.bound(b, true))
    case (PathSegments(path), TextArray) => Path(path)
    case _ => TypeError
  }

  /** `x op ANY(items)`: true if one comparison is, false if all are, unknown otherwise. */
  function AnyOf<V(!new)>(op: Comparison, x: V, vs: seq<V>, w: World<V>): Truth {
    if vs == [] then False else Or(w.compare(op, x, vs[0]), AnyOf(op, x, vs[1..], w))
  }

  function AllOf<V(!new)>(op: Comparison, x: V, vs: seq<V>, w: World<V>): Truth {
    if vs == [] then True else And(w.compare(op, x, vs[0]), AllOf(op, x, vs[1..], w))
  }

  /** Evaluates an expression with each `$i` bound to parameter i under its declared type. */
  function Eval<V(!new)>(e: Expr, bs: seq<Binding>, w: World<V>): Value<V> {
    match e
    case ETrue => Logical(True)
    case EColumn(name) => Datum(w.column(name))
    case EParam(i) => if 1 <= i <= |bs| then Bind(bs[i - 1], w) else TypeError
    case ECast(EParam(i), ty) =>
      // A placeholder may only be cast to the type it is bound with.
      if 1 <= i <= |bs| && bs[i - 1].ty == ty then Bind(bs[i - 1], w) else TypeError
    case ECast(_, _) => TypeError
    case EPath(l, r) =>
      (match (Eval(l, bs, w), Eval(r, bs, w))
       case (Datum(v), Path(path)) => Datum(w.follow(v, path))
       case _ => TypeError)
    case ECompare(op, l, r) =>
      (match (Eval(l, bs, w), Eval(r, bs, w))
       case (Datum(x), Datum(y)) => Logical(w.compare(op, x, y))
       case _ => TypeError)
    case EAny(op, l, a) =>
      (match (Eval(l, bs, w), Eval(a, bs, w))
       case (Datum(x), Items(vs)) => Logical(AnyOf(op, x, vs, w))
       case _ => TypeError)
    case EAll(op, l, a) =>
      (match (Eval(l, bs, w), Eval(a, bs, w))
       case (Datum(x), Items(vs)) => Logical(AllOf(op, x, vs, w))
       case _ => TypeError)
    case EIsNull(x, negated) =>
      (match Eval(x, bs, w)
       case Datum(v) => Logical(if w.isNull(v) != negated then True else False)
       case _ => TypeError)
    case ENot(x) =>
      (match Eval(x, bs, w)
       case Logical(t) => Logical(Not(t))
       case _ => TypeError)
    case EAnd(l, r) =>
      (match (Eval(l, bs, w), Eval(r, bs, w))
       case (Logical(a), Logical(b)) => Logical(And(a, b))
       case _ => TypeError)
    case EOr(l, r) =>
      (match (Eval(l, bs, w), Eval(r, bs, w))
       case (Logical(a), Logical(b)) => Logical(Or(a, b))
       case _ => TypeError)
  }
}
