/**
 * The abstract syntax of Pie.  Every node is parameterised by its
 * annotation `Ann`; the parser instantiates it with source spans.
 * Children are owned values, so the tree has no sharing and no cycles.
 */
module Syntax {
  import opened Utf8

  /** A name, compared and hashed by its text (the UTF-8 bytes of a Rust `String`). */
  datatype Identifier = Identifier(text: seq<byte>)

  /**
   * `Display for Identifier`: writing an identifier to a formatter whose
   * output so far is `out` appends exactly the identifier's text.
   */
  function Fmt(id: Identifier, out: seq<byte>): (r: seq<byte>)
    ensures |r| == |out| + |id.text|
    ensures r[..|out|] == out && r[|out|..] == id.text
  {
    out + id.text
  }

  /** Equal identifiers are those with equal text, as the derived `PartialEq` compares them. */
  lemma IdentifierEqualityIsTextual(a: Identifier, b: Identifier)
    ensures a == b <==> a.text == b.text
  {
  }

  /** The five kinds of expression; the annotation sits on the payload. */
  datatype Expression<Ann> =
    | Atom(atom: Atom<Ann>)
    | Ref(variable: Variable<Ann>)
    | Ty(ty: Type<Ann>)
    | Abs(lambda: Lambda<Ann>)
    | App(apply: Apply<Ann>)

  /** A quoted symbol. */
  datatype Atom<Ann> = Atom(ann: Ann, ident: Identifier)

  /** A reference to a term-level name. */
  datatype Variable<Ann> = Variable(ann: Ann, ident: Identifier)

  /** A reference to a type-level name. */
  datatype Type<Ann> = Type(ann: Ann, ident: Identifier)

  /** An abstraction: ordered, possibly empty arguments and one body. */
  datatype Lambda<Ann> = Lambda(ann: Ann, args: seq<Expression<Ann>>, body: Expression<Ann>)

  /** An application: one function and ordered, possibly empty arguments. */
  datatype Apply<Ann> = Apply(ann: Ann, fun: Expression<Ann>, args: seq<Expression<Ann>>)

  /** The three kinds of top-level statement. */
  datatype Statement<Ann> =
    | Claim(claim: Claim<Ann>)
    | Def(define: Define<Ann>)
    | Expr(expr: Expression<Ann>)

  /** `claim name type` */
  datatype Claim<Ann> = Claim(ann: Ann, ident: Identifier, expr: Expression<Ann>)

  /** `define name body` */
  datatype Define<Ann> = Define(ann: Ann, ident: Identifier, body: Expression<Ann>)

  /** A whole program: its statements in source order. */
  datatype Source<Ann> = Source(ann: Ann, statements: seq<Statement<Ann>>)

  /** A claim paired with its definition; it has no annotation of its own, one per part instead. */
  datatype Definition<Ann> = Definition(ident: Identifier, claim: (Ann, Expression<Ann>), body: (Ann, Expression<Ann>))
}
