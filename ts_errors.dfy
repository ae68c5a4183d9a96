/** The parser's closed error taxonomy and the "one of" message it builds. */
module Errors {
  import opened Utf8
  import opened Locations

  /**
   * `ParseError`.  The payload structs `Reading`, `Mismatch` and
   * `Missing` are folded into their variants; `mismatch(..)` and
   * `missing(..)` are the constructors `Mismatch(..)` and `Missing(..)`.
   */
  datatype ParseError =
    | Encoding(cause: Utf8Error)
    | TreeSitter(version: nat)
    | Reading(loc: Span, help: string)
    | Mismatch(loc: Span, actual: string, expected: string)
    | Missing(loc: Span, token: string, what: string)

  /** `ts::Result` */
  datatype Result<T> = Ok(value: T) | Err(error: ParseError)

  /** The fold step of `one_of_msg` appends `` `v',`` after a space. */
  function Fold(acc: string, variants: seq<string>): string
    decreases |variants|
  {
    if variants == [] then acc
    else Fold(acc + " `" + variants[0] + "',", variants[1..])
  }

  /** `trim_end_matches(',')`: drops every trailing comma and nothing else. */
  function TrimEndCommas(s: string): (r: string)
    ensures r <= s
    ensures r == [] || r[|r| - 1] != ','
    ensures forall i :: |r| <= i < |s| ==> s[i] == ','
  {
    if s != [] && s[|s| - 1] == ',' then TrimEndCommas(s[..|s| - 1]) else s
  }

  /**
   * `one_of_msg`: "one of: " followed by each alternative as `` `v'``, in
   * the given order, separated by commas, with no trailing comma.
   */
  function OneOfMsg(variants: seq<string>): (r: string)
    ensures r == "one of: " + Listing(variants)
    ensures r[|r| - 1] != ','
  {
    TrimmedFold(variants);
    TrimEndCommas(Fold("one of: ", variants))
  }

  /** One quoted alternative as the message shows it. */
  function Quoted(v: string): string {
    " `" + v + "'"
  }

  /** The alternatives quoted, in order, separated by commas. */
  function Listing(variants: seq<string>): string
    decreases |variants|
  {
    if |variants| == 0 then ""
    else if |variants| == 1 then Quoted(variants[0])
    else Quoted(variants[0]) + "," + Listing(variants[1..])
  }

  /** The alternatives `Expression` dispatches on, as its message names them. */
  const ExpressionKinds: seq<string> := ["atom", "identifier", "type identifier", "lambda", "application"]

  /** The alternatives `Statement` dispatches on, as its message names them (sic: "clam"). */
  const StatementKinds: seq<string> := ["clam", "define", "expression"]

  lemma {:induction false} FoldAppendsItems(acc: string, variants: seq<string>)
    ensures variants == [] ==> Fold(acc, variants) == acc
    ensures variants != [] ==> Fold(acc, variants) == acc + Listing(variants) + ","
    decreases |variants|
  {
    if variants != [] {
      var v := variants[0];
      var head := acc + " `" + v + "',";
      assert head == acc + Quoted(v) + "," by {
        assert "'," == "'" + ",";
      }
      FoldAppendsItems(head, variants[1..]);
      if |variants| > 1 {
        var rest := Listing(variants[1..]);
        calc {
          Fold(acc, variants);
          head + rest + ",";
          acc + (Quoted(v) + "," + rest) + ",";
          acc + Listing(variants) + ",";
        }
      }
    }
  }

  lemma {:induction false} ListingEndsWithQuote(variants: seq<string>)
    requires variants != []
    ensures |Listing(variants)| > 0 && Listing(variants)[|Listing(variants)| - 1] == '\''
    decreases |variants|
  {
    if |variants| > 1 {
      ListingEndsWithQuote(variants[1..]);
    }
  }

  /** Trimming the fold's trailing comma leaves exactly the listing. */
  lemma TrimmedFold(variants: seq<string>)
    ensures TrimEndCommas(Fold("one of: ", variants)) == "one of: " + Listing(variants)
  {
    FoldAppendsItems("one of: ", variants);
    if variants != [] {
      ListingEndsWithQuote(variants);
      var body := "one of: " + Listing(variants);
      var folded := body + ",";
      assert folded[|folded| - 1] == ',' && folded[..|folded| - 1] == body;
      assert body[|body| - 1] == '\'';
      assert TrimEndCommas(body) == body;
    }
  }

  lemma ListingCons(v: string, rest: seq<string>)
    requires rest != []
    ensures Listing([v] + rest) == Quoted(v) + "," + Listing(rest)
  {
    assert ([v] + rest)[1..] == rest;
  }

  lemma ListingOfThree(a: string, b: string, c: string)
    ensures Listing([a, b, c]) == Quoted(a) + "," + Quoted(b) + "," + Quoted(c)
  {
    ListingCons(b, [c]);
    ListingCons(a, [b, c]);
    assert [a, b, c] == [a] + [b, c] && [b, c] == [b] + [c];
  }

  lemma ListingOfFive(a: string, b: string, c: string, d: string, e: string)
    ensures Listing([a, b, c, d, e]) == Quoted(a) + "," + Quoted(b) + "," + Quoted(c) + "," + Quoted(d) + "," + Quoted(e)
  {
    ListingOfThree(c, d, e);
    ListingCons(b, [c, d, e]);
    ListingCons(a, [b, c, d, e]);
    assert [a, b, c, d, e] == [a] + [b, c, d, e] && [b, c, d, e] == [b] + [c, d, e];
  }

  lemma OneOfFive(a: string, b: string, c: string, d: string, e: string)
    ensures OneOfMsg([a, b, c, d, e]) == "one of: " + Quoted(a) + "," + Quoted(b) + "," + Quoted(c) + "," + Quoted(d) + "," + Quoted(e)
  {
    ListingOfFive(a, b, c, d, e);
  }

  /** The expected-field of an unknown expression kind, alternative by alternative. */
  lemma ExpressionKindsMessage()
    ensures OneOfMsg(ExpressionKinds) == "one of: " + Quoted("atom") + "," + Quoted("identifier") + ","
      + Quoted("type identifier") + "," + Quoted("lambda") + "," + Quoted("application")
  {
    var ks := ExpressionKinds;
    OneOfFive(ks[0], ks[1], ks[2], ks[3], ks[4]);
    assert ks == [ks[0], ks[1], ks[2], ks[3], ks[4]];
  }

  /** The expected-field of an unknown statement kind, alternative by alternative, typo included. */
  lemma StatementKindsMessage()
    ensures OneOfMsg(StatementKinds) == "one of: " + Quoted("clam") + "," + Quoted("define") + "," + Quoted("expression")
  {
    ListingOfThree("clam", "define", "expression");
  }
}
