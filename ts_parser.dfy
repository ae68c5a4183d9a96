/**
 * The `Parser::new` instances as the source runs them: recursive
 * descent over the CST, threading one mutable cursor over the source
 * bytes through every call.  Each builder is proved to produce exactly
 * what its function in `Build` describes, and to leave the cursor where
 * that function says; nothing but the cursor's position changes.
 */
module Parser {
  import opened Utf8
  import opened Cst
  import opened Syntax
  import opened Locations
  import opened Errors
  import opened Reader
  import opened Build
  import opened Properties

  /** A partial result `s` for the rest of a list, with the elements already built in front. */
  ghost function Prefixed<T>(done: seq<T>, s: Step<seq<T>>): Step<seq<T>> {
    if s.result.Ok? then Step(Ok(done + s.result.value), s.pos) else s
  }

  lemma PrefixedTwice<T>(a: seq<T>, b: seq<T>, s: Step<seq<T>>)
    ensures Prefixed(a, Prefixed(b, s)) == Prefixed(a + b, s)
  {
    if s.result.Ok? {
      assert a + (b + s.result.value) == (a + b) + s.result.value;
    }
  }

  lemma PrefixedNothing<T>(s: Step<seq<T>>)
    ensures Prefixed([], s) == s
  {
    if s.result.Ok? {
      assert [] + s.result.value == s.result.value;
    }
  }

  /** `Parser for Atom` */
  method ParseAtom(n: Node, source: Cursor) returns (r: Result<Atom<Span>>)
    modifies source`pos
    ensures Step(r, source.pos) == AtomAt(n, source.inner, old(source.pos))
  {
    var ann := Location(n);
    match ChildByFieldName(n, "identifier") {
      case None =>
        return Err(Missing(ann, n.kind, "identifier"));
      case Some(i) =>
        var ident := Read(Location(i), source);
        if ident.Err? {
          return Err(ident.error);
        }
        return Ok(Atom.Atom(ann, Identifier(ident.value)));
    }
  }

  /** `Parser for Variable` */
  method ParseVariable(n: Node, source: Cursor) returns (r: Result<Variable<Span>>)
    modifies source`pos
    ensures Step(r, source.pos) == VariableAt(n, source.inner, old(source.pos))
  {
    var ann := Location(n);
    var ident := Read(Location(n), source);
    if ident.Err? {
      return Err(ident.error);
    }
    return Ok(Variable(ann, Identifier(ident.value)));
  }

  /** `Parser for Type` */
  method ParseType(n: Node, source: Cursor) returns (r: Result<Type<Span>>)
    modifies source`pos
    ensures Step(r, source.pos) == TypeAt(n, source.inner, old(source.pos))
  {
    var ann := Location(n);
    var ident := Read(Location(n), source);
    if ident.Err? {
      return Err(ident.error);
    }
    return Ok(Type(ann, Identifier(ident.value)));
  }

  /** The `arguments` field collected into a vector: built in order, stopping at the first error. */
  method ParseArguments(n: Node, source: Cursor) returns (r: Result<seq<Expression<Span>>>)
    modifies source`pos
    ensures Step(r, source.pos) == ArgsAt(n, 0, source.inner, old(source.pos))
    decreases n, 0, 0
  {
    var nodes := ChildrenByFieldName(n, "arguments");
    ghost var text, start := source.inner, source.pos;
    var args: seq<Expression<Span>> := [];
    var i := 0;
    PrefixedNothing(ArgsAt(n, 0, text, start));
    while i < |nodes|
      invariant 0 <= i <= |nodes| && source.inner == text
      invariant ArgsAt(n, 0, text, start) == Prefixed(args, ArgsAt(n, i, text, source.pos))
      decreases |nodes| - i
    {
      ghost var before := source.pos;
      var arg := ParseExpression(nodes[i], source);
      if arg.Err? {
        assert ArgsAt(n, i, text, before) == Step(Err(arg.error), source.pos);
        return Err(arg.error);
      }
      assert ArgsAt(n, i, text, before) == Prefixed([arg.value], ArgsAt(n, i + 1, text, source.pos));
      PrefixedTwice(args, [arg.value], ArgsAt(n, i + 1, text, source.pos));
      args := args + [arg.value];
      i := i + 1;
    }
    assert args + [] == args;
    return Ok(args);
  }

  /** `Parser for Lambda` */
  method ParseLambda(n: Node, source: Cursor) returns (r: Result<Lambda<Span>>)
    modifies source`pos
    ensures Step(r, source.pos) == LambdaAt(n, source.inner, old(source.pos))
    decreases n, 1, 0
  {
    var ann := Location(n);
    var args := ParseArguments(n, source);
    if args.Err? {
      return Err(args.error);
    }
    match ChildByFieldName(n, "body") {
      case None =>
        return Err(Missing(ann, "`lambda'", "body `expression'"));
      case Some(b) =>
        var body := ParseExpression(b, source);
        if body.Err? {
          return Err(body.error);
        }
        return Ok(Lambda(ann, args.value, body.value));
    }
  }

  /** `Parser for Apply` */
  method ParseApply(n: Node, source: Cursor) returns (r: Result<Apply<Span>>)
    modifies source`pos
    ensures Step(r, source.pos) == ApplyAt(n, source.inner, old(source.pos))
    decreases n, 1, 0
  {
    var ann := Location(n);
    match ChildByFieldName(n, "function") {
      case None =>
        return Err(Missing(ann, "function `application'", "function `expression'"));
      case Some(f) =>
        var fun := ParseExpression(f, source);
        if fun.Err? {
          return Err(fun.error);
        }
        var args := ParseArguments(n, source);
        if args.Err? {
          return Err(args.error);
        }
        return Ok(Apply(ann, fun.value, args.value));
    }
  }

  /** `Parser for Expression` */
  method ParseExpression(n: Node, source: Cursor) returns (r: Result<Expression<Span>>)
    modifies source`pos
    ensures Step(r, source.pos) == ExprAt(n, source.inner, old(source.pos))
    decreases n, 2, 0
  {
    var ann := Location(n);
    if n.kind != "expression" {
      return Err(Mismatch(ann, n.kind, "`expression'"));
    }
    match NamedChild(n, 0) {
      case None =>
        return Err(Missing(ann, "expression", "expression body"));
      case Some(c) =>
        if c.kind == "atom" {
          var a := ParseAtom(c, source);
          r := if a.Ok? then Ok(Expression.Atom(a.value)) else Err(a.error);
        } else if c.kind == "identifier" {
          var v := ParseVariable(c, source);
          r := if v.Ok? then Ok(Ref(v.value)) else Err(v.error);
        } else if c.kind == "type_identifier" {
          var t := ParseType(c, source);
          r := if t.Ok? then Ok(Ty(t.value)) else Err(t.error);
        } else if c.kind == "lambda" {
          var l := ParseLambda(c, source);
          r := if l.Ok? then Ok(Abs(l.value)) else Err(l.error);
        } else if c.kind == "application" {
          var a := ParseApply(c, source);
          r := if a.Ok? then Ok(App(a.value)) else Err(a.error);
        } else {
          r := Err(Mismatch(ann, c.kind, OneOfMsg(ExpressionKinds)));
        }
    }
  }

  /** `Parser for Claim` */
  method ParseClaim(n: Node, source: Cursor) returns (r: Result<Claim<Span>>)
    modifies source`pos
    ensures Step(r, source.pos) == ClaimAt(n, source.inner, old(source.pos))
  {
    var ann := Location(n);
    match ChildByFieldName(n, "identifier") {
      case None =>
        return Err(Missing(ann, n.kind, "identifier"));
      case Some(i) =>
        var ident := Read(Location(i), source);
        if ident.Err? {
          return Err(ident.error);
        }
        match ChildByFieldName(n, "type") {
          case None =>
            return Err(Missing(ann, "`claim'", "type `expression'"));
          case Some(t) =>
            var expr := ParseExpression(t, source);
            if expr.Err? {
              return Err(expr.error);
            }
            return Ok(Claim.Claim(ann, Identifier(ident.value), expr.value));
        }
    }
  }

  /** `Parser for Define` */
  method ParseDefine(n: Node, source: Cursor) returns (r: Result<Define<Span>>)
    modifies source`pos
    ensures Step(r, source.pos) == DefineAt(n, source.inner, old(source.pos))
  {
    var ann := Location(n);
    match ChildByFieldName(n, "identifier") {
      case None =>
        return Err(Missing(ann, n.kind, "identifier"));
      case Some(i) =>
        var ident := Read(Location(i), source);
        if ident.Err? {
          return Err(ident.error);
        }
        match ChildByFieldName(n, "body") {
          case None =>
            return Err(Missing(ann, "`define'", "body `expression'"));
          case Some(b) =>
            var body := ParseExpression(b, source);
            if body.Err? {
              return Err(body.error);
            }
            return Ok(Define(ann, Identifier(ident.value), body.value));
        }
    }
  }

  /** `Parser for Statement` */
  method ParseStatement(n: Node, source: Cursor) returns (r: Result<Statement<Span>>)
    modifies source`pos
    ensures Step(r, source.pos) == StatementAt(n, source.inner, old(source.pos))
  {
    if n.kind == "claim" {
      var c := ParseClaim(n, source);
      r := if c.Ok? then Ok(Statement.Claim(c.value)) else Err(c.error);
    } else if n.kind == "define" {
      var d := ParseDefine(n, source);
      r := if d.Ok? then Ok(Def(d.value)) else Err(d.error);
    } else if n.kind == "expression" {
      var e := ParseExpression(n, source);
      r := if e.Ok? then Ok(Expr(e.value)) else Err(e.error);
    } else {
      r := Err(Mismatch(Location(n), n.kind, OneOfMsg(StatementKinds)));
    }
  }

  /** `Parser for Source`: a `for` loop over the named children that skips comments and stops at the first error. */
  method ParseSource(n: Node, source: Cursor) returns (r: Result<Source<Span>>)
    modifies source`pos
    ensures Step(r, source.pos) == SourceAt(n, source.inner, old(source.pos))
  {
    var ann := Location(n);
    if n.kind != "source" {
      return Err(Mismatch(ann, n.kind, "source"));
    }
    var cs := NamedChildren(n);
    ghost var text, start := source.inner, source.pos;
    var statements: seq<Statement<Span>> := [];
    PrefixedNothing(StatementsAt(n, 0, text, start));
    for i := 0 to |cs|
      invariant source.inner == text
      invariant StatementsAt(n, 0, text, start) == Prefixed(statements, StatementsAt(n, i, text, source.pos))
    {
      if cs[i].kind != "comment" {
        ghost var before := source.pos;
        var s := ParseStatement(cs[i], source);
        if s.Err? {
          assert StatementsAt(n, i, text, before) == Step(Err(s.error), source.pos);
          return Err(s.error);
        }
        assert StatementsAt(n, i, text, before) == Prefixed([s.value], StatementsAt(n, i + 1, text, source.pos));
        PrefixedTwice(statements, [s.value], StatementsAt(n, i + 1, text, source.pos));
        statements := statements + [s.value];
      }
    }
    assert statements + [] == statements;
    return Ok(Source(ann, statements));
  }

  /**
   * The last step of `parse`: build the `Source` from the root node over
   * a fresh cursor on the text.  It succeeds with exactly the program
   * the tree denotes, and fails when there is none.
   */
  method Parse(root: Node, text: seq<byte>) returns (r: Result<Source<Span>>)
    ensures r == SourceAt(root, text, 0).result
    ensures forall src :: r == Ok(src) <==> SourceDenotes(root, text, src)
  {
    var cursor := new Cursor(text);
    r := ParseSource(root, cursor);
    forall src ensures r == Ok(src) <==> SourceDenotes(root, text, src) {
      SourceBuilt(root, text, 0, src);
    }
  }
}
