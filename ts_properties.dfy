/**
 * What the builders promise.
 *
 * `*Denotes` says, without any error plumbing, when an AST node is the
 * reading of a CST node: kinds as the dispatch expects them, every
 * annotation the location of the node it was built from, every
 * identifier the exact source bytes of its node (valid UTF-8), children
 * in field order.  The builders succeed with `x` exactly when `x`
 * denotes the tree, whatever the cursor's position (see `Outcomes`);
 * the error cases are in `Failures`.
 */
module Properties {
  import opened Utf8
  import opened Cst
  import opened Syntax
  import opened Locations
  import opened Errors
  import opened Reader
  import opened Build
  import opened Outcomes

  /**
   * `id` is the text under node `n`: readable (an empty span is, wherever
   * it starts), valid UTF-8, byte for byte.
   */
  ghost predicate IdentDenotes(n: Node, text: seq<byte>, id: Identifier) {
    var s := Location(n);
    && s.offset < U64_LIMIT
    && InText(s, text)
    && id.text == Covered(s, text)
    && IsUtf8(id.text)
  }

  ghost predicate AtomDenotes(n: Node, text: seq<byte>, a: Atom<Span>) {
    && a.ann == Location(n)
    && ChildByFieldName(n, "identifier").Some?
    && IdentDenotes(ChildByFieldName(n, "identifier").value, text, a.ident)
  }

  ghost predicate ArgsDenote(n: Node, i: nat, text: seq<byte>, args: seq<Expression<Span>>)
    requires i <= |ChildrenByFieldName(n, "arguments")|
    decreases n, 0, 0
  {
    var nodes := ChildrenByFieldName(n, "arguments");
    && |args| == |nodes| - i
    && forall k :: 0 <= k < |args| ==> ExprDenotes(nodes[i + k], text, args[k])
  }

  ghost predicate LambdaDenotes(n: Node, text: seq<byte>, l: Lambda<Span>)
    decreases n, 1, 0
  {
    && l.ann == Location(n)
    && ArgsDenote(n, 0, text, l.args)
    && ChildByFieldName(n, "body").Some?
    && ExprDenotes(ChildByFieldName(n, "body").value, text, l.body)
  }

  ghost predicate ApplyDenotes(n: Node, text: seq<byte>, a: Apply<Span>)
    decreases n, 1, 0
  {
    && a.ann == Location(n)
    && ChildByFieldName(n, "function").Some?
    && ExprDenotes(ChildByFieldName(n, "function").value, text, a.fun)
    && ArgsDenote(n, 0, text, a.args)
  }

  /** An `expression` node with a first named child, which the variant of `e` reads. */
  ghost predicate ExprDenotes(n: Node, text: seq<byte>, e: Expression<Span>)
    decreases n, 2, 0
  {
    && n.kind == "expression"
    && NamedChild(n, 0).Some?
    && var c := NamedChild(n, 0).value;
      match e
      case Atom(a) => c.kind == "atom" && AtomDenotes(c, text, a)
      case Ref(v) => c.kind == "identifier" && v.ann == Location(c) && IdentDenotes(c, text, v.ident)
      case Ty(t) => c.kind == "type_identifier" && t.ann == Location(c) && IdentDenotes(c, text, t.ident)
      case Abs(l) => c.kind == "lambda" && LambdaDenotes(c, text, l)
      case App(a) => c.kind == "application" && ApplyDenotes(c, text, a)
  }

  ghost predicate ClaimDenotes(n: Node, text: seq<byte>, c: Claim<Span>) {
    && c.ann == Location(n)
    && ChildByFieldName(n, "identifier").Some?
    && IdentDenotes(ChildByFieldName(n, "identifier").value, text, c.ident)
    && ChildByFieldName(n, "type").Some?
    && ExprDenotes(ChildByFieldName(n, "type").value, text, c.expr)
  }

  ghost predicate DefineDenotes(n: Node, text: seq<byte>, d: Define<Span>) {
    && d.ann == Location(n)
    && ChildByFieldName(n, "identifier").Some?
    && IdentDenotes(ChildByFieldName(n, "identifier").value, text, d.ident)
    && ChildByFieldName(n, "body").Some?
    && ExprDenotes(ChildByFieldName(n, "body").value, text, d.body)
  }

  ghost predicate StatementDenotes(n: Node, text: seq<byte>, s: Statement<Span>) {
    match s
    case Claim(c) => n.kind == "claim" && ClaimDenotes(n, text, c)
    case Def(d) => n.kind == "define" && DefineDenotes(n, text, d)
    case Expr(e) => ExprDenotes(n, text, e)
  }

  /** The statements are exactly the non-comment named children, in order. */
  ghost predicate StatementsDenote(n: Node, i: nat, text: seq<byte>, ss: seq<Statement<Span>>)
    requires i <= |NamedChildren(n)|
  {
    var cs := Pending(n, i);
    && |ss| == |cs|
    && forall k :: 0 <= k < |ss| ==> StatementDenotes(cs[k], text, ss[k])
  }

  ghost predicate SourceDenotes(n: Node, text: seq<byte>, src: Source<Span>) {
    && n.kind == "source"
    && src.ann == Location(n)
    && StatementsDenote(n, 0, text, src.statements)
  }

  // ---------------------------------------------------------------------
  // Success: the builders compute exactly the denoted AST.

  lemma IdentBuilt(n: Node, text: seq<byte>, p: nat, id: Identifier)
    ensures IdentAt(n, text, p).result == Ok(id) <==> IdentDenotes(n, text, id)
  {
  }

  lemma {:induction false} ArgsBuilt(n: Node, i: nat, text: seq<byte>, p: nat, args: seq<Expression<Span>>)
    requires i <= |ChildrenByFieldName(n, "arguments")|
    ensures ArgsAt(n, i, text, p).result == Ok(args) <==> ArgsDenote(n, i, text, args)
    decreases n, 0, 0
  {
    var nodes := ChildrenByFieldName(n, "arguments");
    ArgsCollect(n, i, text, p);
    var rs := ExprOutcomes(nodes[i..], text);
    CollectSucceeds(rs, args);
    forall j | 0 <= j < |rs| && j < |args| ensures rs[j] == Ok(args[j]) <==> ExprDenotes(nodes[i + j], text, args[j]) {
      ExprOutcomesAt(nodes[i..], text, j);
      assert nodes[i..][j] == nodes[i + j];
      ExprBuilt(nodes[i + j], text, 0, args[j]);
    }
  }

  lemma {:induction false} LambdaBuilt(n: Node, text: seq<byte>, p: nat, l: Lambda<Span>)
    ensures LambdaAt(n, text, p).result == Ok(l) <==> LambdaDenotes(n, text, l)
    decreases n, 1, 0
  {
    var args := ArgsAt(n, 0, text, p);
    ArgsBuilt(n, 0, text, p, l.args);
    if args.result.Ok? && ChildByFieldName(n, "body").Some? {
      ExprBuilt(ChildByFieldName(n, "body").value, text, args.pos, l.body);
    }
  }

  lemma {:induction false} ApplyBuilt(n: Node, text: seq<byte>, p: nat, a: Apply<Span>)
    ensures ApplyAt(n, text, p).result == Ok(a) <==> ApplyDenotes(n, text, a)
    decreases n, 1, 0
  {
    if ChildByFieldName(n, "function").Some? {
      var fun := ExprAt(ChildByFieldName(n, "function").value, text, p);
      ExprBuilt(ChildByFieldName(n, "function").value, text, p, a.fun);
      if fun.result.Ok? {
        ArgsBuilt(n, 0, text, fun.pos, a.args);
      }
    }
  }

  /** `Expression::new` succeeds with `e` exactly when `e` denotes the node. */
  lemma {:induction false} ExprBuilt(n: Node, text: seq<byte>, p: nat, e: Expression<Span>)
    ensures ExprAt(n, text, p).result == Ok(e) <==> ExprDenotes(n, text, e)
    decreases n, 2, 0
  {
    if n.kind == "expression" && NamedChild(n, 0).Some? {
      var c := NamedChild(n, 0).value;
      if c.kind == "atom" {
        if e.Atom? && ChildByFieldName(c, "identifier").Some? {
          IdentBuilt(ChildByFieldName(c, "identifier").value, text, p, e.atom.ident);
        }
      } else if c.kind == "identifier" {
        if e.Ref? {
          IdentBuilt(c, text, p, e.variable.ident);
        }
      } else if c.kind == "type_identifier" {
        if e.Ty? {
          IdentBuilt(c, text, p, e.ty.ident);
        }
      } else if c.kind == "lambda" {
        if e.Abs? {
          LambdaBuilt(c, text, p, e.lambda);
        }
      } else if c.kind == "application" {
        if e.App? {
          ApplyBuilt(c, text, p, e.apply);
        }
      }
    }
  }

  lemma ClaimBuilt(n: Node, text: seq<byte>, p: nat, c: Claim<Span>)
    ensures ClaimAt(n, text, p).result == Ok(c) <==> ClaimDenotes(n, text, c)
  {
    if ChildByFieldName(n, "identifier").Some? {
      var ident := IdentAt(ChildByFieldName(n, "identifier").value, text, p);
      IdentBuilt(ChildByFieldName(n, "identifier").value, text, p, c.ident);
      if ident.result.Ok? && ChildByFieldName(n, "type").Some? {
        ExprBuilt(ChildByFieldName(n, "type").value, text, ident.pos, c.expr);
      }
    }
  }

  lemma DefineBuilt(n: Node, text: seq<byte>, p: nat, d: Define<Span>)
    ensures DefineAt(n, text, p).result == Ok(d) <==> DefineDenotes(n, text, d)
  {
    if ChildByFieldName(n, "identifier").Some? {
      var ident := IdentAt(ChildByFieldName(n, "identifier").value, text, p);
      IdentBuilt(ChildByFieldName(n, "identifier").value, text, p, d.ident);
      if ident.result.Ok? && ChildByFieldName(n, "body").Some? {
        ExprBuilt(ChildByFieldName(n, "body").value, text, ident.pos, d.body);
      }
    }
  }

  /** `Statement::new` succeeds with `s` exactly when `s` denotes the node. */
  lemma StatementBuilt(n: Node, text: seq<byte>, p: nat, s: Statement<Span>)
    ensures StatementAt(n, text, p).result == Ok(s) <==> StatementDenotes(n, text, s)
  {
    match s
    case Claim(c) => ClaimBuilt(n, text, p, c);
    case Def(d) => DefineBuilt(n, text, p, d);
    case Expr(e) => ExprBuilt(n, text, p, e);
  }

  lemma StatementsBuilt(n: Node, i: nat, text: seq<byte>, p: nat, ss: seq<Statement<Span>>)
    requires i <= |NamedChildren(n)|
    ensures StatementsAt(n, i, text, p).result == Ok(ss) <==> StatementsDenote(n, i, text, ss)
  {
    StatementsCollect(n, i, text, p);
    var cs := Pending(n, i);
    var rs := StatementOutcomes(cs, text);
    CollectSucceeds(rs, ss);
    forall j | 0 <= j < |cs| && j < |ss| ensures rs[j] == Ok(ss[j]) <==> StatementDenotes(cs[j], text, ss[j]) {
      StatementOutcomesAt(cs, text, j);
      StatementBuilt(cs[j], text, 0, ss[j]);
    }
  }

  /** `Source::new` succeeds with `src` exactly when `src` denotes the root. */
  lemma SourceBuilt(n: Node, text: seq<byte>, p: nat, src: Source<Span>)
    ensures SourceAt(n, text, p).result == Ok(src) <==> SourceDenotes(n, text, src)
  {
    StatementsBuilt(n, 0, text, p, src.statements);
  }

  /** The whole walk: `parse` yields `src` exactly when `src` denotes the tree, so at most one AST can. */
  lemma ParseSucceedsExactlyOnDenotation(root: Node, text: seq<byte>, src: Source<Span>, other: Source<Span>)
    ensures SourceAt(root, text, 0).result == Ok(src) <==> SourceDenotes(root, text, src)
    ensures SourceDenotes(root, text, src) && SourceDenotes(root, text, other) ==> src == other
  {
    SourceBuilt(root, text, 0, src);
    SourceBuilt(root, text, 0, other);
  }

  /** A variable's identifier displays as exactly the source bytes its annotation covers. */
  lemma VariableDisplaysSourceText(n: Node, text: seq<byte>, p: nat, v: Variable<Span>)
    requires ExprAt(n, text, p).result == Ok(Ref(v))
    ensures InText(v.ann, text)
    ensures Fmt(v.ident, []) == Covered(v.ann, text)
  {
    ExprBuilt(n, text, p, Ref(v));
  }

  /** A lambda without arguments builds, with an empty argument list. */
  lemma LambdaWithoutArguments(n: Node, text: seq<byte>, p: nat, body: Expression<Span>)
    requires ChildrenByFieldName(n, "arguments") == []
    requires ChildByFieldName(n, "body").Some? && ExprDenotes(ChildByFieldName(n, "body").value, text, body)
    ensures LambdaAt(n, text, p).result == Ok(Lambda(Location(n), [], body))
  {
    LambdaBuilt(n, text, p, Lambda(Location(n), [], body));
  }

  /** A root holding nothing but comments (or nothing at all) builds an empty program. */
  lemma EmptySource(n: Node, text: seq<byte>, p: nat)
    requires n.kind == "source" && Pending(n, 0) == []
    ensures SourceAt(n, text, p).result == Ok(Source(Location(n), []))
  {
    assert NamedChildren(n)[0..] == NamedChildren(n);
    SourceBuilt(n, text, p, Source(Location(n), []));
  }
}
