/**
 * How the builders fail: each error case of `Parser::new`, which of two
 * competing errors wins, and that `Source::new` aborts at the first
 * failing statement with no partial result.
 */
module Failures {
  import opened Utf8
  import opened Cst
  import opened Locations
  import opened Errors
  import opened Build
  import opened Outcomes

  /** `Source::new` aborts with the first failing statement's error; no partial program is returned. */
  lemma SourceStopsAtFirstError(n: Node, text: seq<byte>, p: nat, k: nat)
    requires n.kind == "source"
    requires k < |Pending(n, 0)| && StatementOf(Pending(n, 0)[k], text).Err?
    requires forall j :: 0 <= j < k ==> StatementOf(Pending(n, 0)[j], text).Ok?
    ensures SourceAt(n, text, p).result == Err(StatementOf(Pending(n, 0)[k], text).error)
  {
    var cs := Pending(n, 0);
    var rs := StatementOutcomes(cs, text);
    forall j | 0 <= j <= k ensures rs[j] == StatementOf(cs[j], text) {
      StatementOutcomesAt(cs, text, j);
    }
    CollectStopsAtFirstError(rs, k);
    StatementsCollect(n, 0, text, p);
  }

  /** When every non-comment named child builds, the program holds exactly those statements, in order. */
  lemma SourceBuildsEveryStatement(n: Node, text: seq<byte>, p: nat)
    requires n.kind == "source"
    requires forall j :: 0 <= j < |Pending(n, 0)| ==> StatementOf(Pending(n, 0)[j], text).Ok?
    ensures SourceAt(n, text, p).result.Ok?
    ensures SourceAt(n, text, p).result.value.ann == Location(n)
    ensures |SourceAt(n, text, p).result.value.statements| == |Pending(n, 0)|
    ensures forall j :: 0 <= j < |Pending(n, 0)| ==>
      SourceAt(n, text, p).result.value.statements[j] == StatementOf(Pending(n, 0)[j], text).value
  {
    var cs := Pending(n, 0);
    var rs := StatementOutcomes(cs, text);
    forall j | 0 <= j < |cs| ensures rs[j] == StatementOf(cs[j], text) {
      StatementOutcomesAt(cs, text, j);
    }
    CollectKeepsEveryValue(rs);
    StatementsCollect(n, 0, text, p);
  }

  /** An atom needs its `identifier` field, and passes on the error of reading it. */
  lemma AtomErrors(n: Node, text: seq<byte>, p: nat)
    ensures ChildByFieldName(n, "identifier").None? ==>
      AtomAt(n, text, p).result == Err(Missing(Location(n), n.kind, "identifier"))
    ensures ChildByFieldName(n, "identifier").Some? && IdentAt(ChildByFieldName(n, "identifier").value, text, p).result.Err? ==>
      AtomAt(n, text, p).result == Err(IdentAt(ChildByFieldName(n, "identifier").value, text, p).result.error)
  {
  }

  /** The error cases of `Expression::new`, each located at the `expression` node. */
  lemma ExpressionErrors(n: Node, text: seq<byte>, p: nat)
    ensures n.kind != "expression" ==>
      ExprAt(n, text, p).result == Err(Mismatch(Location(n), n.kind, "`expression'"))
    ensures n.kind == "expression" && NamedChild(n, 0).None? ==>
      ExprAt(n, text, p).result == Err(Missing(Location(n), "expression", "expression body"))
    ensures (n.kind == "expression" && NamedChild(n, 0).Some? &&
      NamedChild(n, 0).value.kind !in ["atom", "identifier", "type_identifier", "lambda", "application"]) ==>
      ExprAt(n, text, p).result == Err(Mismatch(Location(n), NamedChild(n, 0).value.kind,
        "one of: " + Quoted("atom") + "," + Quoted("identifier") + "," + Quoted("type identifier") + ","
        + Quoted("lambda") + "," + Quoted("application")))
  {
    ExpressionKindsMessage();
  }

  /** In a lambda, an argument's error wins over a missing body. */
  lemma LambdaErrors(n: Node, text: seq<byte>, p: nat)
    ensures ArgsAt(n, 0, text, p).result.Err? ==>
      LambdaAt(n, text, p).result == Err(ArgsAt(n, 0, text, p).result.error)
    ensures ArgsAt(n, 0, text, p).result.Ok? && ChildByFieldName(n, "body").None? ==>
      LambdaAt(n, text, p).result == Err(Missing(Location(n), "`lambda'", "body `expression'"))
  {
  }

  /** In an application, a missing function wins over any argument's error. */
  lemma ApplyErrors(n: Node, text: seq<byte>, p: nat)
    ensures ChildByFieldName(n, "function").None? ==>
      ApplyAt(n, text, p).result == Err(Missing(Location(n), "function `application'", "function `expression'"))
    ensures ChildByFieldName(n, "function").Some? && ExprAt(ChildByFieldName(n, "function").value, text, p).result.Err? ==>
      ApplyAt(n, text, p).result == Err(ExprAt(ChildByFieldName(n, "function").value, text, p).result.error)
  {
  }

  /** A claim reads its identifier before looking for its type. */
  lemma ClaimErrors(n: Node, text: seq<byte>, p: nat)
    ensures ChildByFieldName(n, "identifier").None? ==>
      ClaimAt(n, text, p).result == Err(Missing(Location(n), n.kind, "identifier"))
    ensures ChildByFieldName(n, "identifier").Some? && IdentAt(ChildByFieldName(n, "identifier").value, text, p).result.Err? ==>
      ClaimAt(n, text, p).result == Err(IdentAt(ChildByFieldName(n, "identifier").value, text, p).result.error)
    ensures (ChildByFieldName(n, "identifier").Some? && IdentAt(ChildByFieldName(n, "identifier").value, text, p).result.Ok? &&
      ChildByFieldName(n, "type").None?) ==>
      ClaimAt(n, text, p).result == Err(Missing(Location(n), "`claim'", "type `expression'"))
  {
  }

  /** A definition reads its identifier before looking for its body. */
  lemma DefineErrors(n: Node, text: seq<byte>, p: nat)
    ensures ChildByFieldName(n, "identifier").None? ==>
      DefineAt(n, text, p).result == Err(Missing(Location(n), n.kind, "identifier"))
    ensures ChildByFieldName(n, "identifier").Some? && IdentAt(ChildByFieldName(n, "identifier").value, text, p).result.Err? ==>
      DefineAt(n, text, p).result == Err(IdentAt(ChildByFieldName(n, "identifier").value, text, p).result.error)
    ensures (ChildByFieldName(n, "identifier").Some? && IdentAt(ChildByFieldName(n, "identifier").value, text, p).result.Ok? &&
      ChildByFieldName(n, "body").None?) ==>
      DefineAt(n, text, p).result == Err(Missing(Location(n), "`define'", "body `expression'"))
  {
  }

  /** `Statement::new` rejects any other kind, listing the three it accepts (with the `clam' misspelling). */
  lemma StatementErrors(n: Node, text: seq<byte>, p: nat)
    ensures n.kind !in ["claim", "define", "expression"] ==>
      StatementAt(n, text, p).result == Err(Mismatch(Location(n), n.kind,
        "one of: " + Quoted("clam") + "," + Quoted("define") + "," + Quoted("expression")))
  {
    StatementKindsMessage();
  }

  /** `Source::new` rejects a root that is not a `source`. */
  lemma SourceErrors(n: Node, text: seq<byte>, p: nat)
    ensures n.kind != "source" ==> SourceAt(n, text, p).result == Err(Mismatch(Location(n), n.kind, "source"))
  {
  }
}
