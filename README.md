# Pie: from concrete syntax tree to annotated AST

This project models, in Dafny, the layer of the Pie language front end
that turns a tree-sitter concrete syntax tree (CST) into the annotated
abstract syntax tree of `lib/syntax/mod.rs`. The layer lives in
`lib/parser/ts.rs`:

- `location` turns a node's byte range into a span.
- `read` recovers a node's text from a seekable cursor over the source
  bytes and checks that it is UTF-8.
- `mismatch`, `missing` and `one_of_msg` build the errors.
- The `Parser::new` instances (Atom, Variable, Type, Lambda, Apply,
  Expression, Claim, Define, Statement, Source) walk the tree
  depth-first, left to right, and stop at the first error.

## How the model is built

- `Cst` is the input tree in tree-sitter's own shape. A node has a kind,
  a byte range with `start <= end`, and an ordered list of children, each
  flagged named or not and tagged with an optional field name.
  `named_child`, `named_children`, `child_by_field_name` and
  `children_by_field_name` are filters over that list.
- `Syntax` holds the AST datatypes, generic over the annotation `Ann`
  as in the source, plus `Identifier` and its `Display`.
- `Utf8` states UTF-8 validity as the byte-sequence grammar of section 4
  of RFC 3629 (`IsUtf8`). `Validate` is the standard library's validator,
  a width table plus per-width checks, returning
  `Utf8Error(validUpTo, errorLen)`. The two are proved to agree.
- `Reader` models `std::io::Cursor` as a class with the bytes and a
  position field. `Seek` and `ReadExact` change only the position.
  `Read` is `read`. Its contract ties its result and the cursor's new
  position to the function `ReadAt`.
- `Build` states every `Parser::new` as a function of
  (node, text, cursor position) that returns the result and the cursor
  position afterwards.
- `Parser` holds the imperative builders. They thread one `Cursor`,
  and the argument lists and the statement loop are `while`/`for`
  loops. Each method is proved to compute exactly its `Build` function
  and to change nothing but the cursor's position.
- `Properties` says, without any error plumbing, when an AST denotes a
  CST: kinds as the dispatch expects, each annotation the location of its
  node, each identifier the exact UTF-8 bytes under its node, children in
  field order. It proves that every builder succeeds with `x` exactly
  when `x` denotes the tree.
- `Outcomes` proves that where the cursor stood never changes a
  builder's result, because every `read` seeks first. It also proves
  that each build loop equals `Collect`, the first-error-or-all-values
  rule of `collect::<Result<Vec<_>>>` and of the `?` in the `for` loop,
  applied to the items' own outcomes.
- `Failures` fixes each error case and which error wins when two
  compete.

Integers are unbounded. The one width check that `read` makes is
modelled explicitly: the `usize` to `u64` conversion of the offset
(`U64_LIMIT`). Strings are `seq<char>`. Source text and identifiers are
bytes (`seq<byte>`), since a Rust `String` is its UTF-8 bytes.

What the code does at its less obvious points:

- An unknown kind gives a single `Mismatch` whose expected field is the
  `one_of_msg` string.
- `Encoding` carries the `Utf8Error` only, with no span.
- `Reading` is one struct with a span and a help string. Seeking a
  cursor past the end succeeds, so a non-empty span that runs past the
  end fails at `read_exact`. An empty span reads as the empty text
  wherever it starts, even past the end.
- The missing-type error of a claim names the token `` `claim' `` and
  the item `` type `expression' ``. The missing-body error of a
  definition names `` `define' `` and `` body `expression' ``.
- The expression alternatives are listed as `type identifier`, with a
  space, although the dispatch matches `type_identifier`. The statement
  alternatives are listed as `clam`, `define`, `expression`. Both are
  modelled as written.
- `"one of: "` is followed by `` `v'`` with its own leading space, so
  the message has two spaces after the colon.
- Every argument, body, function and type child goes through
  `Expression::new`, so it must itself be an `expression` node.
  `Lambda` and `Apply` accept an empty argument list.

## Model

| member | source | states |
|---|---|---|
| Locations.Location | lib/parser/ts.rs:106-109 | the span starts at the node's start byte and ends at its end byte (length = end - start) |
| Cst.NamedChildren | lib/parser/ts.rs:336-338 | every named child is a child of the node, so the walk over them is well founded |
| Cst.NamedChild | lib/parser/ts.rs:236-237 | there is an i-th named child exactly when the node has more than i named children, and it is that one |
| Cst.ChildrenByFieldName | lib/parser/ts.rs:183-186 | every node returned is one of the node's own children |
| Cst.ChildByFieldName | lib/parser/ts.rs:147-149 | there is a child exactly when the field list is non-empty, and it is the first of that list |
| Syntax.Fmt | lib/syntax/mod.rs:6-10 | `Display` appends exactly the identifier's bytes to the output and leaves what was written before unchanged |
| Syntax.IdentifierEqualityIsTextual | lib/syntax/mod.rs:3-4 | two identifiers are equal exactly when their texts are equal |
| Utf8.Validate | lib/parser/ts.rs:136 | a reported error lies inside the input, after the starting point |
| Utf8.CharAt | lib/parser/ts.rs:136 | the validator's width table and per-width checks accept k bytes at i exactly when they form one RFC 3629 character |
| Utf8.ValidateAgreesWithRfc3629 | lib/parser/ts.rs:136 | the validator reports no error exactly when the bytes match the byte-sequence grammar of section 4 of RFC 3629 |
| Utf8.Utf8ErrorDescribesInput | lib/parser/ts.rs:136 | on an error, the bytes before `valid_up_to` are valid and the rest is not; `error_len` is 1 to 3 bytes that are present, or absent only when fewer than 4 bytes remain |
| Errors.TrimEndCommas | lib/parser/ts.rs:87 | the result is a prefix of the input, does not end in a comma, and only commas were removed |
| Errors.TrimmedFold | lib/parser/ts.rs:83-87 | trimming the trailing commas off the fold leaves `"one of: "` followed by the comma-separated listing |
| Errors.FoldAppendsItems | lib/parser/ts.rs:83-86 | the fold appends each alternative as `` `v'`` after a space, in order, comma-separated, and leaves one trailing comma |
| Errors.OneOfMsg | lib/parser/ts.rs:81-89 | `one_of_msg` is `"one of: "` followed by each alternative quoted, in the given order, comma-separated, and it never ends in a comma |
| Errors.ExpressionKindsMessage | lib/parser/ts.rs:247-260 | the expected-field for an unknown expression kind lists atom, identifier, type identifier, lambda, application, in that order |
| Errors.StatementKindsMessage | lib/parser/ts.rs:318-322 | the expected-field for an unknown statement kind lists clam, define, expression, in that order |
| Reader.ReadAt | lib/parser/ts.rs:113-137 | `read` succeeds exactly when the offset converts to `u64`, the span's buffer can be filled (it is empty, or lies inside the text) and the bytes are valid UTF-8, and then yields exactly those bytes (none for an empty span) and leaves the cursor after the span; a non-empty span that runs past the end or an offset that does not convert is a `Reading` error at that span; invalid bytes are an `Encoding` error whose `valid_up_to` lies inside the span after a valid prefix |
| Reader.Cursor.constructor | lib/parser/mod.rs:15 | the cursor holds the text and starts at position 0 |
| Reader.Cursor.Seek | lib/parser/ts.rs:121-126 | seeking from the start always succeeds, even past the end, and sets the position |
| Reader.Cursor.ReadExact | lib/parser/ts.rs:128-134 | succeeds exactly when `len` is 0 or at most the remaining bytes, yielding the next `len` bytes and moving past them (an empty read succeeds even past the end and keeps the position); otherwise fails and leaves the cursor at the end; the bytes never change |
| Reader.Read | lib/parser/ts.rs:113-137 | the imperative `read` computes `ReadAt`: same result, same final cursor position, and only the position changes |
| Reader.Covered | lib/parser/ts.rs:128-134 | the bytes a span covers have exactly the span's length; none for an empty span |
| Build.IdentAt | lib/parser/ts.rs:113-137 | reading a node's text as an identifier succeeds exactly when the offset converts, the span can be read and its bytes are valid UTF-8, and the identifier's text is then those bytes |
| Build.AtomAt | lib/parser/ts.rs:141-154 | a built atom is annotated with the node's span and its identifier is the bytes under the `identifier` child, which must exist |
| Build.VariableAt | lib/parser/ts.rs:156-164 | a built variable is annotated with the node's span and its identifier is the bytes under that span |
| Build.TypeAt | lib/parser/ts.rs:166-174 | a built type is annotated with the node's span and its identifier is the bytes under that span |
| Build.ArgsAt | lib/parser/ts.rs:183-186 | a built argument list has one expression per remaining `arguments` child |
| Build.LambdaAt | lib/parser/ts.rs:176-196 | a built lambda is annotated with the node's span, has one argument per `arguments` child, and the node has a `body` child |
| Build.ApplyAt | lib/parser/ts.rs:198-222 | a built application is annotated with the node's span, the node has a `function` child, and the application has one argument per `arguments` child |
| Build.ExprAt | lib/parser/ts.rs:224-263 | an expression builds only from an `expression` node with a first named child, and its variant is the one that child's kind selects (atom, identifier, type_identifier, lambda, application) |
| Build.ClaimAt | lib/parser/ts.rs:265-284 | a built claim is annotated with the node's span, its identifier is the bytes under the `identifier` child, and the node has a `type` child |
| Build.DefineAt | lib/parser/ts.rs:286-305 | a built definition is annotated with the node's span, its identifier is the bytes under the `identifier` child, and the node has a `body` child |
| Build.StatementAt | lib/parser/ts.rs:307-325 | a built statement's variant is the one the node's kind selects: claim, define or expression |
| Build.StatementsAt | lib/parser/ts.rs:336-344 | the statement loop builds at most one statement per remaining named child |
| Build.SourceAt | lib/parser/ts.rs:327-354 | a program builds only from a `source` root, is annotated with its span and has at most one statement per named child |
| Parser.ParseAtom | lib/parser/ts.rs:141-154 | computes the `Atom` builder, result and cursor position |
| Parser.ParseVariable | lib/parser/ts.rs:156-164 | computes the `Variable` builder, result and cursor position |
| Parser.ParseType | lib/parser/ts.rs:166-174 | computes the `Type` builder, result and cursor position |
| Parser.ParseArguments | lib/parser/ts.rs:183-186 | the loop over the `arguments` children computes the argument-list builder; its invariant is that what was built so far, followed by the rest of the walk, is the whole walk |
| Parser.ParseLambda | lib/parser/ts.rs:176-196 | computes the `Lambda` builder, result and cursor position |
| Parser.ParseApply | lib/parser/ts.rs:198-222 | computes the `Apply` builder, result and cursor position |
| Parser.ParseExpression | lib/parser/ts.rs:224-263 | computes the `Expression` builder, result and cursor position |
| Parser.ParseClaim | lib/parser/ts.rs:265-284 | computes the `Claim` builder, result and cursor position |
| Parser.ParseDefine | lib/parser/ts.rs:286-305 | computes the `Define` builder, result and cursor position |
| Parser.ParseStatement | lib/parser/ts.rs:307-325 | computes the `Statement` builder, result and cursor position |
| Parser.ParseSource | lib/parser/ts.rs:327-354 | the `for` loop that skips comments and pushes statements computes the `Source` builder, result and cursor position |
| Parser.Parse | lib/parser/mod.rs:15-16 | building from the root over a fresh cursor succeeds with exactly the program the tree denotes, and fails when there is none |
| Properties.IdentBuilt | lib/parser/ts.rs:150 | an identifier is read with `id` exactly when the offset converts, the node's span can be read (it is empty, or inside the text) and `id` is the valid UTF-8 bytes it covers |
| Properties.ArgsBuilt | lib/parser/ts.rs:183-186 | the argument list is built with `args` exactly when each argument denotes the corresponding `arguments` child, in field order, possibly none |
| Properties.LambdaBuilt | lib/parser/ts.rs:176-196 | `Lambda::new` succeeds with `l` exactly when `l` is annotated with the node's span, its arguments denote the `arguments` children and its body the `body` child |
| Properties.ApplyBuilt | lib/parser/ts.rs:198-222 | `Apply::new` succeeds with `a` exactly when `a` is annotated with the node's span, its function denotes the `function` child and its arguments the `arguments` children |
| Properties.ExprBuilt | lib/parser/ts.rs:224-263 | `Expression::new` succeeds with `e` exactly when the node is an `expression` whose first named child has the kind of `e`'s variant (atom, identifier, type_identifier, lambda, application) and denotes it |
| Properties.ClaimBuilt | lib/parser/ts.rs:265-284 | `Claim::new` succeeds with `c` exactly when `c` is annotated with the node's span, its identifier is the text of the `identifier` child and its type denotes the `type` child |
| Properties.DefineBuilt | lib/parser/ts.rs:286-305 | `Define::new` succeeds with `d` exactly when `d` is annotated with the node's span, its identifier is the text of the `identifier` child and its body denotes the `body` child |
| Properties.StatementBuilt | lib/parser/ts.rs:307-325 | `Statement::new` succeeds with `s` exactly when the node's kind matches `s`'s variant (claim, define, expression) and the node denotes it |
| Outcomes.UncommentedKeepsStatements | lib/parser/ts.rs:338-343 | skipping comments leaves no comment, keeps every other named child and adds nothing |
| Properties.StatementsBuilt | lib/parser/ts.rs:336-344 | the statement loop succeeds with `ss` exactly when `ss` denotes the non-comment named children, one for one, in order |
| Properties.SourceBuilt | lib/parser/ts.rs:327-354 | `Source::new` succeeds with `src` exactly when the root is a `source`, `src` is annotated with its span and its statements denote the non-comment named children in order |
| Properties.ParseSucceedsExactlyOnDenotation | lib/parser/mod.rs:15-16 | the parse yields `src` exactly when `src` denotes the tree, so at most one program can |
| Properties.VariableDisplaysSourceText | lib/syntax/mod.rs:6-10 | a built variable's identifier displays as exactly the source bytes its annotation covers |
| Properties.LambdaWithoutArguments | lib/parser/ts.rs:183-194 | a lambda with no `arguments` children builds, with an empty argument list |
| Properties.EmptySource | lib/parser/ts.rs:335-349 | a `source` root with only comments, or no named children, builds a program with no statements |
| Outcomes.ReadIgnoresCursor | lib/parser/ts.rs:121-126 | the result of `read` does not depend on where the cursor stood, because it seeks first |
| Outcomes.ArgsIgnoreCursor | lib/parser/ts.rs:183-186 | the argument list built does not depend on where the cursor stood |
| Outcomes.LambdaIgnoresCursor | lib/parser/ts.rs:176-196 | the result of `Lambda::new` does not depend on where the cursor stood |
| Outcomes.ApplyIgnoresCursor | lib/parser/ts.rs:198-222 | the result of `Apply::new` does not depend on where the cursor stood |
| Outcomes.ExprIgnoresCursor | lib/parser/ts.rs:224-263 | the result of `Expression::new` does not depend on where the cursor stood |
| Outcomes.ClaimIgnoresCursor | lib/parser/ts.rs:265-284 | the result of `Claim::new` does not depend on where the cursor stood |
| Outcomes.DefineIgnoresCursor | lib/parser/ts.rs:286-305 | the result of `Define::new` does not depend on where the cursor stood |
| Outcomes.StatementIgnoresCursor | lib/parser/ts.rs:307-325 | the result of `Statement::new` does not depend on where the cursor stood |
| Outcomes.CollectSucceeds | lib/parser/ts.rs:186 | collecting succeeds with `vs` exactly when every item succeeded with the matching value of `vs` |
| Outcomes.CollectStopsAtFirstError | lib/parser/ts.rs:186 | collecting fails with the error of the first failing item |
| Outcomes.CollectKeepsEveryValue | lib/parser/ts.rs:186 | when every item succeeds, the collected list holds every value, in order |
| Outcomes.ArgsCollect | lib/parser/ts.rs:183-186 | the argument list is the first error or every value of `Expression::new` over the `arguments` children, in field order |
| Outcomes.StatementsCollect | lib/parser/ts.rs:336-344 | the statement loop is the first error or every value of `Statement::new` over the non-comment named children, in order |
| Failures.SourceStopsAtFirstError | lib/parser/ts.rs:338-344 | `Source::new` fails with exactly the first failing statement's error and returns no partial program |
| Failures.SourceBuildsEveryStatement | lib/parser/ts.rs:335-349 | when every statement builds, the program is annotated with the root's span and holds exactly those statements, in order |
| Failures.AtomErrors | lib/parser/ts.rs:145-152 | an atom without an `identifier` field is `Missing{node kind, identifier}` at the atom's span; otherwise a failing read of that child is passed on unchanged |
| Failures.ExpressionErrors | lib/parser/ts.rs:230-260 | a non-`expression` node is a `Mismatch` expecting `` `expression' ``; an expression with no named child is `Missing{expression, expression body}`; an unknown child kind is a `Mismatch` at the expression's span naming the child's kind and the five alternatives |
| Failures.LambdaErrors | lib/parser/ts.rs:183-192 | an argument's error wins over a missing body; a missing body is `` Missing{`lambda', body `expression'} `` |
| Failures.ApplyErrors | lib/parser/ts.rs:205-213 | a missing function is `` Missing{function `application', function `expression'} `` whatever the arguments; a failing function wins over the arguments |
| Failures.ClaimErrors | lib/parser/ts.rs:271-280 | a missing identifier is `Missing{node kind, identifier}`; the identifier is read before the type is looked for; a missing type is `` Missing{`claim', type `expression'} `` |
| Failures.DefineErrors | lib/parser/ts.rs:292-301 | a missing identifier is `Missing{node kind, identifier}`; the identifier is read before the body is looked for; a missing body is `` Missing{`define', body `expression'} `` |
| Failures.StatementErrors | lib/parser/ts.rs:313-322 | any kind but claim, define and expression is a `Mismatch` naming the kind and listing `` `clam' ``, `` `define' ``, `` `expression' `` |
| Failures.SourceErrors | lib/parser/ts.rs:333-351 | a root that is not a `source` is a `Mismatch` expecting `source` |

## Left out

- `parse` in `lib/parser/mod.rs` is modelled only from its last step on: building the `Source` from a root node over a fresh cursor on the text. The tree-sitter setup (`set_language`, `parser.parse(..).unwrap()`) is a foreign library call.
- The `TreeSitter` error variant is declared, with a version number standing in for `LanguageError`. Only that foreign call produces it.
- `Reader.Cursor.Seek`: the seek error branch of `read` is not modelled as reachable, because seeking a `std::io::Cursor` from the start never fails.
- `Reader.Cursor.ReadExact`: leaving the cursor at the end after a short read follows the current standard library. Since every `read` seeks first, the position after a failure is never observed.
- `Reader.ReadAt`: the `Encoding` error is stated through `valid_up_to` and the validity of the prefix. `Utf8.Utf8ErrorDescribesInput` adds what `error_len` says. The `Display` text of a `Utf8Error` is not modelled.
- The help texts of `Reading` are the `Display` strings of `TryFromIntError` and of the short-read `UnexpectedEof`. Other I/O error texts cannot arise from an in-memory cursor.
- `usize` arithmetic is unbounded apart from the offset conversion. The allocation of the `len`-byte buffer is not modelled.
- The miette diagnostic attributes (help and label texts, rendering) are presentation, not logic.
- `Parser::KIND` constants are never read by the builders and are not modelled.
- `Identifier`'s `Hash` is not modelled. Equality is Dafny's structural equality on the text.
- `Definition` is declared as a datatype. Nothing in the core builds one.
- `tree-sitter-pie/grammar.js`, the REPL, the command-line entry point, the benchmark and `lib/error/mod.rs` are not part of this model. The grammar is run by an external engine, and its node kinds do not match what `lib/parser/ts.rs` dispatches on. The rest is line editing, file I/O, printing and error wrapping.
