/**
 * The `Parser::new` instances as functions.  Each takes a CST node, the
 * source bytes and the cursor's position, and gives the built AST node
 * or the first error, together with the cursor's position afterwards:
 * the imperative builders in `Parser` are proved to compute exactly this.
 */
module Build {
  import opened Utf8
  import opened Cst
  import opened Syntax
  import opened Locations
  import opened Errors
  import opened Reader

  /** Applies a constructor to a successful result. */
  function Wrap<T, U>(s: Step<T>, f: T -> U): (w: Step<U>)
    ensures w.pos == s.pos
    ensures s.result.Ok? ==> w.result == Ok(f(s.result.value))
    ensures s.result.Err? ==> w.result == Err(s.result.error)
  {
    match s.result
    case Ok(v) => Step(Ok(f(v)), s.pos)
    case Err(e) => Step(Err(e), s.pos)
  }

  /** `read` of a node's text, as an identifier. */
  function IdentAt(n: Node, text: seq<byte>, pos: nat): (s: Step<Identifier>)
    ensures s.result.Ok? <==>
      Location(n).offset < U64_LIMIT && InText(Location(n), text) && IsUtf8(Covered(Location(n), text))
    ensures s.result.Ok? ==> s.result.value.text == Covered(Location(n), text)
  {
    Wrap(ReadAt(Location(n), text, pos), (b: seq<byte>) => Identifier(b))
  }

  /** `Atom::new`: the text of the `identifier` field. */
  function AtomAt(n: Node, text: seq<byte>, pos: nat): (s: Step<Atom<Span>>)
    ensures s.result.Ok? ==>
      && s.result.value.ann == Location(n)
      && ChildByFieldName(n, "identifier").Some?
      && InText(Location(ChildByFieldName(n, "identifier").value), text)
      && s.result.value.ident.text == Covered(Location(ChildByFieldName(n, "identifier").value), text)
  {
    var ann := Location(n);
    match ChildByFieldName(n, "identifier")
    case None => Step(Err(Missing(ann, n.kind, "identifier")), pos)
    case Some(i) => Wrap(IdentAt(i, text, pos), (id: Identifier) => Atom.Atom(ann, id))
  }

  /** `Variable::new`: the node's own text. */
  function VariableAt(n: Node, text: seq<byte>, pos: nat): (s: Step<Variable<Span>>)
    ensures s.result.Ok? ==>
      && s.result.value.ann == Location(n)
      && InText(Location(n), text)
      && s.result.value.ident.text == Covered(Location(n), text)
  {
    var ann := Location(n);
    Wrap(IdentAt(n, text, pos), (id: Identifier) => Variable(ann, id))
  }

  /** `Type::new`: the node's own text. */
  function TypeAt(n: Node, text: seq<byte>, pos: nat): (s: Step<Type<Span>>)
    ensures s.result.Ok? ==>
      && s.result.value.ann == Location(n)
      && InText(Location(n), text)
      && s.result.value.ident.text == Covered(Location(n), text)
  {
    var ann := Location(n);
    Wrap(IdentAt(n, text, pos), (id: Identifier) => Type(ann, id))
  }

  /** The `arguments` children from the i-th on, built in order; the first error stops the walk. */
  function ArgsAt(n: Node, i: nat, text: seq<byte>, pos: nat): (s: Step<seq<Expression<Span>>>)
    requires i <= |ChildrenByFieldName(n, "arguments")|
    ensures s.result.Ok? ==> |s.result.value| == |ChildrenByFieldName(n, "arguments")| - i
    decreases n, 0, |ChildrenByFieldName(n, "arguments")| - i
  {
    var nodes := ChildrenByFieldName(n, "arguments");
    if i == |nodes| then Step(Ok([]), pos)
    else
      var head := ExprAt(nodes[i], text, pos);
      if head.result.Err? then Step(Err(head.result.error), head.pos)
      else
        var tail := ArgsAt(n, i + 1, text, head.pos);
        if tail.result.Err? then tail
        else Step(Ok([head.result.value] + tail.result.value), tail.pos)
  }

  /** `Lambda::new`: the arguments first, then the mandatory body. */
  function LambdaAt(n: Node, text: seq<byte>, pos: nat): (s: Step<Lambda<Span>>)
    ensures s.result.Ok? ==>
      && s.result.value.ann == Location(n)
      && |s.result.value.args| == |ChildrenByFieldName(n, "arguments")|
      && ChildByFieldName(n, "body").Some?
    decreases n, 1, 0
  {
    var ann := Location(n);
    var args := ArgsAt(n, 0, text, pos);
    if args.result.Err? then Step(Err(args.result.error), args.pos)
    else match ChildByFieldName(n, "body")
      case None => Step(Err(Missing(ann, "`lambda'", "body `expression'")), args.pos)
      case Some(b) => Wrap(ExprAt(b, text, args.pos), (body: Expression<Span>) => Lambda(ann, args.result.value, body))
  }

  /** `Apply::new`: the mandatory function first, then the arguments. */
  function ApplyAt(n: Node, text: seq<byte>, pos: nat): (s: Step<Apply<Span>>)
    ensures s.result.Ok? ==>
      && s.result.value.ann == Location(n)
      && ChildByFieldName(n, "function").Some?
      && |s.result.value.args| == |ChildrenByFieldName(n, "arguments")|
    decreases n, 1, 0
  {
    var ann := Location(n);
    match ChildByFieldName(n, "function")
    case None => Step(Err(Missing(ann, "function `application'", "function `expression'")), pos)
    case Some(f) =>
      var fun := ExprAt(f, text, pos);
      if fun.result.Err? then Step(Err(fun.result.error), fun.pos)
      else Wrap(ArgsAt(n, 0, text, fun.pos), (args: seq<Expression<Span>>) => Apply(ann, fun.result.value, args))
  }

  /** `Expression::new`: check the wrapper's kind, then dispatch on its first named child's kind. */
  function ExprAt(n: Node, text: seq<byte>, pos: nat): (s: Step<Expression<Span>>)
    ensures s.result.Ok? ==> n.kind == "expression" && NamedChild(n, 0).Some?
    ensures s.result.Ok? && NamedChild(n, 0).Some? ==>
      var k := NamedChild(n, 0).value.kind;
      && (s.result.value.Atom? <==> k == "atom")
      && (s.result.value.Ref? <==> k == "identifier")
      && (s.result.value.Ty? <==> k == "type_identifier")
      && (s.result.value.Abs? <==> k == "lambda")
      && (s.result.value.App? <==> k == "application")
    decreases n, 2, 0
  {
    var ann := Location(n);
    if n.kind != "expression" then Step(Err(Mismatch(ann, n.kind, "`expression'")), pos)
    else match NamedChild(n, 0)
      case None => Step(Err(Missing(ann, "expression", "expression body")), pos)
      case Some(c) =>
        if c.kind == "atom" then Wrap(AtomAt(c, text, pos), (a: Atom<Span>) => Expression.Atom(a))
        else if c.kind == "identifier" then Wrap(VariableAt(c, text, pos), (v: Variable<Span>) => Ref(v))
        else if c.kind == "type_identifier" then Wrap(TypeAt(c, text, pos), (t: Type<Span>) => Ty(t))
        else if c.kind == "lambda" then Wrap(LambdaAt(c, text, pos), (l: Lambda<Span>) => Abs(l))
        else if c.kind == "application" then Wrap(ApplyAt(c, text, pos), (a: Apply<Span>) => App(a))
        else Step(Err(Mismatch(ann, c.kind, OneOfMsg(ExpressionKinds))), pos)
  }

  /** `Claim::new`: the identifier, then the mandatory type. */
  function ClaimAt(n: Node, text: seq<byte>, pos: nat): (s: Step<Claim<Span>>)
    ensures s.result.Ok? ==>
      && s.result.value.ann == Location(n)
      && ChildByFieldName(n, "identifier").Some?
      && InText(Location(ChildByFieldName(n, "identifier").value), text)
      && s.result.value.ident.text == Covered(Location(ChildByFieldName(n, "identifier").value), text)
      && ChildByFieldName(n, "type").Some?
  {
    var ann := Location(n);
    match ChildByFieldName(n, "identifier")
    case None => Step(Err(Missing(ann, n.kind, "identifier")), pos)
    case Some(i) =>
      var ident := IdentAt(i, text, pos);
      if ident.result.Err? then Step(Err(ident.result.error), ident.pos)
      else match ChildByFieldName(n, "type")
        case None => Step(Err(Missing(ann, "`claim'", "type `expression'")), ident.pos)
        case Some(t) => Wrap(ExprAt(t, text, ident.pos), (e: Expression<Span>) => Claim.Claim(ann, ident.result.value, e))
  }

  /** `Define::new`: the identifier, then the mandatory body. */
  function DefineAt(n: Node, text: seq<byte>, pos: nat): (s: Step<Define<Span>>)
    ensures s.result.Ok? ==>
      && s.result.value.ann == Location(n)
      && ChildByFieldName(n, "identifier").Some?
      && InText(Location(ChildByFieldName(n, "identifier").value), text)
      && s.result.value.ident.text == Covered(Location(ChildByFieldName(n, "identifier").value), text)
      && ChildByFieldName(n, "body").Some?
  {
    var ann := Location(n);
    match ChildByFieldName(n, "identifier")
    case None => Step(Err(Missing(ann, n.kind, "identifier")), pos)
    case Some(i) =>
      var ident := IdentAt(i, text, pos);
      if ident.result.Err? then Step(Err(ident.result.error), ident.pos)
      else match ChildByFieldName(n, "body")
        case None => Step(Err(Missing(ann, "`define'", "body `expression'")), ident.pos)
        case Some(b) => Wrap(ExprAt(b, text, ident.pos), (e: Expression<Span>) => Define(ann, ident.result.value, e))
  }

  /** `Statement::new`: dispatch on the node's own kind. */
  function StatementAt(n: Node, text: seq<byte>, pos: nat): (s: Step<Statement<Span>>)
    ensures s.result.Ok? ==>
      && (s.result.value.Claim? <==> n.kind == "claim")
      && (s.result.value.Def? <==> n.kind == "define")
      && (s.result.value.Expr? <==> n.kind == "expression")
  {
    if n.kind == "claim" then Wrap(ClaimAt(n, text, pos), (c: Claim<Span>) => Statement.Claim(c))
    else if n.kind == "define" then Wrap(DefineAt(n, text, pos), (d: Define<Span>) => Def(d))
    else if n.kind == "expression" then Wrap(ExprAt(n, text, pos), (e: Expression<Span>) => Expr(e))
    else Step(Err(Mismatch(Location(n), n.kind, OneOfMsg(StatementKinds))), pos)
  }

  /** The loop of `Source::new` from the i-th named child on: comments are skipped, the first error stops it. */
  function StatementsAt(n: Node, i: nat, text: seq<byte>, pos: nat): (s: Step<seq<Statement<Span>>>)
    requires i <= |NamedChildren(n)|
    ensures s.result.Ok? ==> |s.result.value| <= |NamedChildren(n)| - i
    decreases |NamedChildren(n)| - i
  {
    var cs := NamedChildren(n);
    if i == |cs| then Step(Ok([]), pos)
    else if cs[i].kind == "comment" then StatementsAt(n, i + 1, text, pos)
    else
      var head := StatementAt(cs[i], text, pos);
      if head.result.Err? then Step(Err(head.result.error), head.pos)
      else
        var tail := StatementsAt(n, i + 1, text, head.pos);
        if tail.result.Err? then tail
        else Step(Ok([head.result.value] + tail.result.value), tail.pos)
  }

  /** `Source::new`: the root must be a `source`; its statements are built in order. */
  function SourceAt(n: Node, text: seq<byte>, pos: nat): (s: Step<Source<Span>>)
    ensures s.result.Ok? ==>
      && n.kind == "source"
      && s.result.value.ann == Location(n)
      && |s.result.value.statements| <= |NamedChildren(n)|
  {
    var ann := Location(n);
    if n.kind == "source" then Wrap(StatementsAt(n, 0, text, pos), (ss: seq<Statement<Span>>) => Source(ann, ss))
    else Step(Err(Mismatch(ann, n.kind, "source")), pos)
  }
}
