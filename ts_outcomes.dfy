/**
 * The outcome of a builder apart from the cursor it threads: every read
 * seeks first, so where the cursor stood never changes a result, and a
 * build loop is the abort rule `Collect` applied to its items' own
 * outcomes.
 */
module Outcomes {
  import opened Utf8
  import opened Cst
  import opened Syntax
  import opened Locations
  import opened Errors
  import opened Reader
  import opened Build

  /** The nodes among `cs` that are not comments, in order. */
  function Uncommented(cs: seq<Node>): (r: seq<Node>)
    ensures |r| <= |cs|
  {
    if cs == [] then []
    else if cs[0].kind == "comment" then Uncommented(cs[1..])
    else [cs[0]] + Uncommented(cs[1..])
  }

  /** The statements still to build from the i-th named child on. */
  function Pending(n: Node, i: nat): seq<Node>
    requires i <= |NamedChildren(n)|
  {
    Uncommented(NamedChildren(n)[i..])
  }

  /** Skipping comments keeps every other node, in order, and only those. */
  lemma {:induction false} UncommentedKeepsStatements(cs: seq<Node>)
    ensures forall k :: 0 <= k < |Uncommented(cs)| ==> Uncommented(cs)[k].kind != "comment"
    ensures (forall k :: 0 <= k < |cs| ==> cs[k].kind != "comment") ==> Uncommented(cs) == cs
    ensures forall k :: 0 <= k < |Uncommented(cs)| ==> Uncommented(cs)[k] in cs
    ensures forall k :: 0 <= k < |cs| && cs[k].kind != "comment" ==> cs[k] in Uncommented(cs)
  {
    if cs != [] {
      UncommentedKeepsStatements(cs[1..]);
      forall k | 0 <= k < |cs| && cs[k].kind != "comment" ensures cs[k] in Uncommented(cs) {
        if k > 0 {
          assert cs[k] == cs[1..][k - 1];
        }
      }
    }
  }

  lemma PendingStep(n: Node, i: nat)
    requires i < |NamedChildren(n)|
    ensures Pending(n, i) == if NamedChildren(n)[i].kind == "comment" then Pending(n, i + 1)
      else [NamedChildren(n)[i]] + Pending(n, i + 1)
  {
    var cs := NamedChildren(n);
    assert cs[i..][0] == cs[i] && cs[i..][1..] == cs[i + 1..];
  }

  /** One turn of the loop of `Source::new`. */
  lemma StatementsStep(n: Node, i: nat, text: seq<byte>, p: nat)
    requires i < |NamedChildren(n)| && NamedChildren(n)[i].kind != "comment"
    ensures var head := StatementAt(NamedChildren(n)[i], text, p);
      var tail := StatementsAt(n, i + 1, text, head.pos);
      StatementsAt(n, i, text, p).result ==
        if head.result.Err? then Err(head.result.error)
        else if tail.result.Err? then tail.result
        else Ok([head.result.value] + tail.result.value)
  {
  }

  /** A read's outcome does not depend on where the cursor stood: `read` seeks first. */
  lemma ReadIgnoresCursor(loc: Span, text: seq<byte>, p: nat, q: nat)
    ensures ReadAt(loc, text, p).result == ReadAt(loc, text, q).result
  {
  }

  lemma {:induction false} ArgsIgnoreCursor(n: Node, i: nat, text: seq<byte>, p: nat, q: nat)
    requires i <= |ChildrenByFieldName(n, "arguments")|
    ensures ArgsAt(n, i, text, p).result == ArgsAt(n, i, text, q).result
    decreases n, 0, |ChildrenByFieldName(n, "arguments")| - i
  {
    var nodes := ChildrenByFieldName(n, "arguments");
    if i < |nodes| {
      ExprIgnoresCursor(nodes[i], text, p, q);
      var hp := ExprAt(nodes[i], text, p);
      var hq := ExprAt(nodes[i], text, q);
      if hp.result.Ok? {
        ArgsIgnoreCursor(n, i + 1, text, hp.pos, hq.pos);
      }
    }
  }

  lemma {:induction false} LambdaIgnoresCursor(n: Node, text: seq<byte>, p: nat, q: nat)
    ensures LambdaAt(n, text, p).result == LambdaAt(n, text, q).result
    decreases n, 1, 0
  {
    ArgsIgnoreCursor(n, 0, text, p, q);
    var ap := ArgsAt(n, 0, text, p);
    var aq := ArgsAt(n, 0, text, q);
    if ap.result.Ok? && ChildByFieldName(n, "body").Some? {
      ExprIgnoresCursor(ChildByFieldName(n, "body").value, text, ap.pos, aq.pos);
    }
  }

  lemma {:induction false} ApplyIgnoresCursor(n: Node, text: seq<byte>, p: nat, q: nat)
    ensures ApplyAt(n, text, p).result == ApplyAt(n, text, q).result
    decreases n, 1, 0
  {
    if ChildByFieldName(n, "function").Some? {
      var f := ChildByFieldName(n, "function").value;
      ExprIgnoresCursor(f, text, p, q);
      var fp := ExprAt(f, text, p);
      var fq := ExprAt(f, text, q);
      if fp.result.Ok? {
        ArgsIgnoreCursor(n, 0, text, fp.pos, fq.pos);
      }
    }
  }

  /** An expression's outcome does not depend on where the cursor stood. */
  lemma {:induction false} ExprIgnoresCursor(n: Node, text: seq<byte>, p: nat, q: nat)
    ensures ExprAt(n, text, p).result == ExprAt(n, text, q).result
    decreases n, 2, 0
  {
    if n.kind == "expression" && NamedChild(n, 0).Some? {
      var c := NamedChild(n, 0).value;
      if c.kind == "lambda" {
        LambdaIgnoresCursor(c, text, p, q);
      } else if c.kind == "application" {
        ApplyIgnoresCursor(c, text, p, q);
      }
    }
  }

  lemma ClaimIgnoresCursor(n: Node, text: seq<byte>, p: nat, q: nat)
    ensures ClaimAt(n, text, p).result == ClaimAt(n, text, q).result
  {
    if ChildByFieldName(n, "identifier").Some? && ChildByFieldName(n, "type").Some? {
      var i := ChildByFieldName(n, "identifier").value;
      ExprIgnoresCursor(ChildByFieldName(n, "type").value, text, IdentAt(i, text, p).pos, IdentAt(i, text, q).pos);
    }
  }

  lemma DefineIgnoresCursor(n: Node, text: seq<byte>, p: nat, q: nat)
    ensures DefineAt(n, text, p).result == DefineAt(n, text, q).result
  {
    if ChildByFieldName(n, "identifier").Some? && ChildByFieldName(n, "body").Some? {
      var i := ChildByFieldName(n, "identifier").value;
      ExprIgnoresCursor(ChildByFieldName(n, "body").value, text, IdentAt(i, text, p).pos, IdentAt(i, text, q).pos);
    }
  }

  /** A statement's outcome does not depend on where the cursor stood. */
  lemma StatementIgnoresCursor(n: Node, text: seq<byte>, p: nat, q: nat)
    ensures StatementAt(n, text, p).result == StatementAt(n, text, q).result
  {
    ClaimIgnoresCursor(n, text, p, q);
    DefineIgnoresCursor(n, text, p, q);
    ExprIgnoresCursor(n, text, p, q);
  }

  /** The outcome of `Statement::new` on a node, from a fresh cursor. */
  function StatementOf(n: Node, text: seq<byte>): Result<Statement<Span>> {
    StatementAt(n, text, 0).result
  }

  /** The abort rule of a build loop on its own: the first error, or every value in order. */
  function Collect<T>(rs: seq<Result<T>>): Result<seq<T>> {
    if rs == [] then Ok([])
    else if rs[0].Err? then Err(rs[0].error)
    else match Collect(rs[1..])
      case Err(e) => Err(e)
      case Ok(vs) => Ok([rs[0].value] + vs)
  }

  lemma {:induction false} CollectStopsAtFirstError<T>(rs: seq<Result<T>>, k: nat)
    requires k < |rs| && rs[k].Err?
    requires forall j :: 0 <= j < k ==> rs[j].Ok?
    ensures Collect(rs) == Err(rs[k].error)
  {
    if k > 0 {
      assert forall j :: 0 <= j < k - 1 ==> rs[1..][j] == rs[j + 1];
      CollectStopsAtFirstError(rs[1..], k - 1);
    }
  }

  /** `Collect` succeeds with `vs` exactly when every item succeeded, with the matching value. */
  lemma {:induction false} CollectSucceeds<T>(rs: seq<Result<T>>, vs: seq<T>)
    ensures Collect(rs) == Ok(vs) <==> |vs| == |rs| && forall j :: 0 <= j < |rs| ==> rs[j] == Ok(vs[j])
  {
    if rs != [] && vs != [] {
      CollectSucceeds(rs[1..], vs[1..]);
      assert [vs[0]] + vs[1..] == vs;
      assert forall j :: 0 < j < |rs| ==> rs[j] == rs[1..][j - 1];
      assert forall j :: 0 < j < |vs| ==> vs[j] == vs[1..][j - 1];
    }
  }

  lemma {:induction false} CollectKeepsEveryValue<T>(rs: seq<Result<T>>)
    requires forall j :: 0 <= j < |rs| ==> rs[j].Ok?
    ensures Collect(rs).Ok? && |Collect(rs).value| == |rs|
    ensures forall j :: 0 <= j < |rs| ==> Collect(rs).value[j] == rs[j].value
  {
    if rs != [] {
      assert forall j :: 0 <= j < |rs| - 1 ==> rs[1..][j] == rs[j + 1];
      CollectKeepsEveryValue(rs[1..]);
    }
  }

  /** The outcome of `Statement::new` on each node, each from a fresh cursor. */
  function StatementOutcomes(cs: seq<Node>, text: seq<byte>): (r: seq<Result<Statement<Span>>>)
    ensures |r| == |cs|
  {
    if cs == [] then [] else [StatementOf(cs[0], text)] + StatementOutcomes(cs[1..], text)
  }

  lemma {:induction false} StatementOutcomesAt(cs: seq<Node>, text: seq<byte>, j: nat)
    requires j < |cs|
    ensures StatementOutcomes(cs, text)[j] == StatementOf(cs[j], text)
  {
    if j > 0 {
      StatementOutcomesAt(cs[1..], text, j - 1);
    }
  }

  /** The loop of `Source::new` is the abort rule applied to the statements' own outcomes. */
  lemma {:induction false} StatementsCollect(n: Node, i: nat, text: seq<byte>, p: nat)
    requires i <= |NamedChildren(n)|
    ensures StatementsAt(n, i, text, p).result == Collect(StatementOutcomes(Pending(n, i), text))
    decreases |NamedChildren(n)| - i
  {
    var cs := NamedChildren(n);
    if i == |cs| {
      assert cs[i..] == [];
    } else {
      PendingStep(n, i);
      if cs[i].kind == "comment" {
        StatementsCollect(n, i + 1, text, p);
      } else {
        StatementsStep(n, i, text, p);
        StatementIgnoresCursor(cs[i], text, p, 0);
        var head := StatementAt(cs[i], text, p);
        StatementsCollect(n, i + 1, text, head.pos);
        var now := Pending(n, i);
        assert now[0] == cs[i] && now[1..] == Pending(n, i + 1);
      }
    }
  }

  /** The outcome of `Expression::new` on each node, each from a fresh cursor. */
  function ExprOutcomes(cs: seq<Node>, text: seq<byte>): (r: seq<Result<Expression<Span>>>)
    ensures |r| == |cs|
  {
    if cs == [] then [] else [ExprAt(cs[0], text, 0).result] + ExprOutcomes(cs[1..], text)
  }

  lemma {:induction false} ExprOutcomesAt(cs: seq<Node>, text: seq<byte>, j: nat)
    requires j < |cs|
    ensures ExprOutcomes(cs, text)[j] == ExprAt(cs[j], text, 0).result
  {
    if j > 0 {
      ExprOutcomesAt(cs[1..], text, j - 1);
    }
  }

  /** Arguments are built in field order, and the first failing one aborts the list. */
  lemma {:induction false} ArgsCollect(n: Node, i: nat, text: seq<byte>, p: nat)
    requires i <= |ChildrenByFieldName(n, "arguments")|
    ensures ArgsAt(n, i, text, p).result == Collect(ExprOutcomes(ChildrenByFieldName(n, "arguments")[i..], text))
    decreases |ChildrenByFieldName(n, "arguments")| - i
  {
    var nodes := ChildrenByFieldName(n, "arguments");
    if i == |nodes| {
      assert nodes[i..] == [];
    } else {
      ExprIgnoresCursor(nodes[i], text, p, 0);
      var head := ExprAt(nodes[i], text, p);
      ArgsCollect(n, i + 1, text, head.pos);
      assert nodes[i..][0] == nodes[i] && nodes[i..][1..] == nodes[i + 1..];
    }
  }
}
