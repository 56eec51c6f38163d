# gogo core in Dafny

A model of the core of gogo, a Go library for generating Go code, with proofs about the model.
It covers four parts:

- **The matcher** (`pkg/match/match.go`). It compares two go/ast trees and ignores positions, comments and a few other fields.
- **Scopes** (`pkg/code/scope.go`). They record the variable names in use and a stash of context, and pick fresh names.
- **The node producers** (`pkg/code/marshaler.go`). These are the `Op`, `Paren`, `Call` and `Then` combinators, which build syntax from a scope.
- **The router generator's configuration and route collection** (`pkg/router/router.go`).

## Files

- `wrappers.dfy`: `Option`.
- `token.dfy` (GoToken): go/token.
  - The token constants in declaration order and their printed forms.
  - The operator lookup scan that `Op` performs.
- `ast.dfy` (GoAst): a uniform encoding of go/ast nodes.
  - A node is a type (`Kind`), the scalars the matcher compares (`Key`), its child fields (`Slot`) and the fields it ignores (`Attr`).
  - A child field is classed by its Go type: a never-nil child, an interface value, a pointer, or a slice (nil or made).
  - There is one builder function per go/ast type. It lists the children in the order the matcher compares them.
- `match.dfy` (Match): `Compare`, which returns `Same`, `Differ` or `Panic`.
  - It models `Match` in two editions:
    - `AsWritten` follows the code;
    - `Fixed` has the one correction listed under Findings.
  - `Erase` drops what the matcher ignores. It is the reference definition the comparison is proved against, in both directions.
  - The file also holds symmetry, transitivity, slice and nil-handling properties.
- `match_cases.dfy` (MatchCases): one lemma per case of the type switch. Each states what comparing two nodes of that type amounts to: which fields are compared, in which order, and which are skipped.
- `match_findings.dfy` (MatchFindings): the select-case finding.
- `scope.dfy` (Scopes): the `Scope` class.
  - Its mutable fields are `stash`, `vars` and `parent`, plus a ghost `chain` of ancestors.
  - Lookups are functions over the chain.
  - `PickName` is a method. Its loop (`FirstFree`) is proved to end and to return the first free candidate.
- `marshaler.dfy` (Code): producers as a datatype, resolved by reference functions.
  - `Resolve`, `ResolveCall` and `ResolveThen` are methods with the source's loops. They are proved equal to those functions.
- `router.dfy` (Router): `New` and the collection loop of `Generate`.

## Modelling choices

- **Scope as a state value.**
  - In Go, the producers share one mutable `*Scope` during resolution.
  - Here the scope is a state value of a type parameter `S`. It is passed left to right through resolution.
  - Leaf producers (identifiers, if statements and the other constructors outside this model) are given by an environment `env(id, st)`. It returns the node built and the state left.
  - So a producer resolved later sees whatever an earlier one recorded.
- **Panics as `None`.** A failed type assertion (`.(ast.Expr)`, `.(*ast.IfStmt)`, `.(ast.Stmt)`) panics in Go. Here it is the result `None`.
- **Interface comparison in the matcher.**
  - The matcher first compares `left == right` on interface values.
  - Here this is value equality of nodes. Two interface values of one pointer type are equal exactly when the pointers are, and the model cannot tell the same node from an equal copy.
  - The `Panic` outcome models comparing interfaces that hold slices, which Go rejects at run time. Dereferencing a nil pointer child also gives `Panic`.
- **Zero-argument calls.** A call with no arguments gets a nil argument slice (marshaler.go:74-76). The matcher treats nil and empty slices alike.
- **PickName records nothing.** `PickName` only proposes a name and records nothing (scope.go:59-72). Recording it is left to the caller.

## Model

| member | source | states |
|---|---|---|
| Match.Match | pkg/match/match.go:18-268 | Corrected edition (see Findings). Where the comparison does not panic, two trees match exactly when they are equal once the fields the matcher ignores are erased. |
| Match.SameIffErasedEqual | pkg/match/match.go:18-268 | Corrected edition (see Findings); for the code as written see Match.AsWrittenSameIffErasedEqual. Both directions: the comparison gives Same exactly when the erased trees are equal. |
| Match.SameIffErasedEqualSlices | pkg/match/match.go:32-44 | Corrected edition (see Findings). Two slices match exactly when their erased elements are equal; a nil slice and an empty one match. |
| Match.SameIffErasedEqualOpt | pkg/match/match.go:18-21 | Corrected edition (see Findings). Two possibly-nil children (interface- or pointer-typed) match exactly when both are nil or both match. |
| Match.EraseIdempotent | pkg/match/match.go:18-268 | Erasing an erased tree leaves it unchanged. |
| Match.MatchesOwnErasure | pkg/match/match.go:18-268 | Corrected edition (see Findings). A tree matches its own erasure: positions, comments and ignored fields do not count. As written, a tree holding a select case gives Panic instead. |
| Match.EditionsAgree | pkg/match/match.go:18-268 | Wherever the matcher as written does not panic, it gives the corrected edition's answer; the correction only removes panics. |
| Match.AsWrittenSameIffErasedEqual | pkg/match/match.go:18-268 | The code as written, wherever it does not panic: two trees match exactly when they are equal once erased. |
| Match.SameTransitive | pkg/match/match.go:18-268 | Corrected edition (see Findings). Matching is transitive. |
| Match.CompareSymmetric | pkg/match/match.go:18-268 | Swapping the two trees changes no outcome, including a panic (both editions). |
| Match.LengthMismatch | pkg/match/match.go:32-37 | Slices of different lengths never match. |
| Match.SlicesReflexive | pkg/match/match.go:38-44 | A slice matches itself element by element. |
| Match.Elementwise | pkg/match/match.go:38-44 | Slices of equal length match exactly when every pair at the same index matches; otherwise the outcome is that of the first pair that does not. |
| Match.EachFirstFailure | pkg/match/match.go:38-44 | The element loop matches exactly when every pair matches, and otherwise stops at the first pair that does not match, earlier pairs all matching. |
| Match.NilPointerChild | pkg/match/match.go:125-127 | A pointer-typed child nil on one side only panics on dereference; an interface-typed one fails the type assertion and does not match. |
| Match.NilChildren | pkg/match/match.go:19-21 | Two nil children are equal values and match. |
| Match.KindMismatch | pkg/match/match.go:266-268 | Nodes of different types never match; two different nodes of a type without a case do not match. |
| Match.Identical | pkg/match/match.go:19-21 | The same node matches itself at once. |
| MatchCases.FieldListCase | pkg/match/match.go:32-44 | A field list compares its fields as a slice. The identical node matches at once. |
| MatchCases.FieldCase | pkg/match/match.go:45-48 | A field compares its names, then its type; the tag is not read. The identical node matches at once. |
| MatchCases.IdentListCase | pkg/match/match.go:49-61 | A list of identifiers compares as a slice. The identical node matches at once. |
| MatchCases.IdentCase | pkg/match/match.go:62-64 | An identifier compares its name only. The identical node matches at once. |
| MatchCases.BasicLitCase | pkg/match/match.go:65-67 | A literal compares its text only; its kind is not read. The identical node matches at once. |
| MatchCases.EllipsisCase | pkg/match/match.go:68-70 | An ellipsis compares its element type. The identical node matches at once. |
| MatchCases.FuncLitCase | pkg/match/match.go:71-73 | A function literal compares its type, then its body. The identical node matches at once. |
| MatchCases.CompositeLitCase | pkg/match/match.go:74-76 | A composite literal compares its type, then its elements. The identical node matches at once. |
| MatchCases.ExprListCase | pkg/match/match.go:77-88 | A list of expressions compares as a slice. The identical node matches at once. |
| MatchCases.ParenExprCase | pkg/match/match.go:89-91 | A parenthesised expression compares what it encloses. The identical node matches at once. |
| MatchCases.SelectorExprCase | pkg/match/match.go:92-94 | A selector compares its operand, then the selected name. The identical node matches at once. |
| MatchCases.IndexExprCase | pkg/match/match.go:95-97 | An index expression compares its operand, then the index. The identical node matches at once. |
| MatchCases.SliceExprCase | pkg/match/match.go:98-100 | A slice expression compares its operand and its three bounds; whether it is a three-index slice is not read. The identical node matches at once. |
| MatchCases.TypeAssertExprCase | pkg/match/match.go:101-103 | A type assertion compares its operand, then its type. The identical node matches at once. |
| MatchCases.CallExprCase | pkg/match/match.go:104-106 | A call compares whether it has an ellipsis (not where), then the function, then the arguments. The identical node matches at once. |
| MatchCases.StarExprCase | pkg/match/match.go:107-109 | A star expression compares its operand. The identical node matches at once. |
| MatchCases.UnaryExprCase | pkg/match/match.go:110-112 | A unary expression compares its operator, then its operand. The identical node matches at once. |
| MatchCases.BinaryExprCase | pkg/match/match.go:113-115 | A binary expression compares its operator, then both operands in order. The identical node matches at once. |
| MatchCases.KeyValueExprCase | pkg/match/match.go:116-118 | A key-value pair compares its key, then its value. The identical node matches at once. |
| MatchCases.ArrayTypeCase | pkg/match/match.go:119-121 | An array type compares its length, then its element type. The identical node matches at once. |
| MatchCases.StructTypeCase | pkg/match/match.go:122-124 | A struct type compares its fields. The identical node matches at once. |
| MatchCases.FuncTypeCase | pkg/match/match.go:125-127 | A function type compares its parameters, then its results; nothing else is read. The identical node matches at once. |
| MatchCases.InterfaceTypeCase | pkg/match/match.go:128-130 | An interface type compares its methods. The identical node matches at once. |
| MatchCases.MapTypeCase | pkg/match/match.go:131-133 | A map type compares its key type, then its value type. The identical node matches at once. |
| MatchCases.ChanTypeCase | pkg/match/match.go:134-136 | A channel type compares its element type; its direction is not read. The identical node matches at once. |
| MatchCases.DeclStmtCase | pkg/match/match.go:137-139 | A declaration statement compares its declaration. The identical node matches at once. |
| MatchCases.EmptyStmtCase | pkg/match/match.go:140-142 | Any two empty statements match. The identical node matches at once. |
| MatchCases.LabeledStmtCase | pkg/match/match.go:143-145 | A labelled statement compares its label, then the statement. The identical node matches at once. |
| MatchCases.ExprStmtCase | pkg/match/match.go:146-148 | An expression statement compares its expression. The identical node matches at once. |
| MatchCases.SendStmtCase | pkg/match/match.go:149-151 | A send compares the channel, then the value. The identical node matches at once. |
| MatchCases.IncDecStmtCase | pkg/match/match.go:152-154 | An increment or decrement compares its token, then its operand. The identical node matches at once. |
| MatchCases.AssignStmtCase | pkg/match/match.go:155-157 | An assignment compares its token, then both sides in order. The identical node matches at once. |
| MatchCases.GoStmtCase | pkg/match/match.go:158-160 | A go statement compares its call. The identical node matches at once. |
| MatchCases.DeferStmtCase | pkg/match/match.go:161-163 | A defer statement compares its call. The identical node matches at once. |
| MatchCases.ReturnStmtCase | pkg/match/match.go:164-166 | A return statement compares its results. The identical node matches at once. |
| MatchCases.BranchStmtCase | pkg/match/match.go:167-169 | A branch statement compares its token, then its label. The identical node matches at once. |
| MatchCases.BlockStmtCase | pkg/match/match.go:170-172 | A block compares its statements. The identical node matches at once. |
| MatchCases.StmtListCase | pkg/match/match.go:173-185 | A list of statements compares as a slice. The identical node matches at once. |
| MatchCases.IfStmtCase | pkg/match/match.go:186-188 | An if statement compares its init, condition, body and else branch, in that order. The identical node matches at once. |
| MatchCases.CaseClauseCase | pkg/match/match.go:189-191 | A case clause compares its expressions, then its statements. The identical node matches at once. |
| MatchCases.SwitchStmtCase | pkg/match/match.go:193-195 | A switch compares its init, tag and body. The identical node matches at once. |
| MatchCases.TypeSwitchStmtCase | pkg/match/match.go:196-198 | A type switch compares its init, assignment and body. The identical node matches at once. |
| MatchCases.SelectStmtCase | pkg/match/match.go:204-206 | A select statement compares its body. The identical node matches at once. |
| MatchCases.ForStmtCase | pkg/match/match.go:208-210 | A for statement compares its init, condition, post statement and body. The identical node matches at once. |
| MatchCases.RangeStmtCase | pkg/match/match.go:211-215 | A range statement compares its token, then key, value, operand and body. The identical node matches at once. |
| MatchCases.ImportSpecCase | pkg/match/match.go:216-218 | An import compares its name, then its path. The identical node matches at once. |
| MatchCases.ValueSpecCase | pkg/match/match.go:220-223 | A value spec compares its names, its values, then its type. The identical node matches at once. |
| MatchCases.TypeSpecCase | pkg/match/match.go:224-226 | A type spec compares its name, then its type. The identical node matches at once. |
| MatchCases.GenDeclCase | pkg/match/match.go:228-230 | A general declaration compares its token, then its specs. The identical node matches at once. |
| MatchCases.SpecListCase | pkg/match/match.go:231-243 | A list of specs compares as a slice. The identical node matches at once. |
| MatchCases.FuncDeclCase | pkg/match/match.go:244-247 | A function declaration compares its name, receiver, type and body, in that order. The identical node matches at once. |
| MatchCases.FileCase | pkg/match/match.go:248-250 | A file compares its package name, then its declarations. The identical node matches at once. |
| MatchCases.DeclListCase | pkg/match/match.go:251-263 | A list of declarations compares as a slice. The identical node matches at once. |
| MatchCases.CommClauseCase | pkg/match/match.go:200-202 | A select case compares its communication, then its statements; as written, the statements meet in an interface comparison that panics, once the communications match. The identical node matches at once. |
| MatchFindings.SelectCaseAsWritten | pkg/match/match.go:200-202 | As written: a select case and its copy at other positions give a panic, not a match. |
| MatchFindings.SelectCaseWitness | pkg/match/match.go:200-202 | `select { default: }` parsed at two positions: a panic as written, a match when corrected. |
| MatchFindings.SelectCaseFixed | pkg/match/match.go:200-202 | Corrected: a select case matches its copy wherever the copy stands. |
| MatchFindings.SelectCaseFixedIff | pkg/match/match.go:200-202 | Corrected: two select cases match exactly when their communications and statements are equal once erased. |
| GoToken.StringInjective | pkg/code/marshaler.go:41-45 | Different tokens print differently, so the scan can find at most one token per text. |
| GoToken.LastMatch | pkg/code/marshaler.go:41-45 | The scan up to a bound gives ILLEGAL or a token below the bound whose text is `op`, and no later token below the bound prints as `op`. |
| GoToken.LookupString | pkg/code/marshaler.go:41-45 | Looking up the printed form of any token up to VAR gives that token. |
| GoToken.LookupUnknown | pkg/code/marshaler.go:40-45 | Text that no token up to VAR prints gives ILLEGAL, the zero token. |
| GoToken.LookupFinds | pkg/code/marshaler.go:41-45 | The token found is ILLEGAL or prints as `op`. |
| GoAst.Append | pkg/code/marshaler.go:89 | Appending to a slice, nil or not, gives a non-nil slice holding the old elements and then the new one. |
| Scopes.Scope.New | pkg/code/scope.go:28-34 | A new scope has empty tables, the given parent, and a chain of this scope followed by the parent's chain. |
| Scopes.RootScope | pkg/code/scope.go:13-16 | A fresh scope with no parent and empty tables. |
| Scopes.LookupVar | pkg/code/scope.go:48-56 | Found exactly when some scope of the chain binds the name, and the value comes from the nearest such scope; a nil scope finds nothing. |
| Scopes.LookupStash | pkg/code/scope.go:37-45 | Found exactly when some scope of the chain stashes the key, and the value comes from the nearest such scope; a nil scope finds nothing. |
| Scopes.Shadowing | pkg/code/scope.go:52-54 | A local binding is what the lookup returns, whatever the ancestors bind. |
| Scopes.Delegation | pkg/code/scope.go:37-56 | Without a local entry, both lookups give the parent's answer. |
| Scopes.FoundIffVisible | pkg/code/scope.go:48-56 | A name is found exactly when it is among the names bound along the chain. |
| Scopes.Itoa | pkg/code/scope.go:69 | Decimal digits only, at least one, and two or more from 10 on. |
| Scopes.ItoaValue | pkg/code/scope.go:69 | strconv.Itoa's decimal form: the digits denote `n`, with no leading zero unless `n` is zero. |
| Scopes.ItoaInjective | pkg/code/scope.go:69 | Different numbers are written differently. |
| Scopes.Prefix | pkg/code/scope.go:60-62 | The prefix used is never empty and is the given one when that is not empty. |
| Scopes.CandidateNext | pkg/code/scope.go:69-70 | The name built from the counter is the next candidate in the sequence prefix, prefix2, prefix3, … |
| Scopes.CandidateInjective | pkg/code/scope.go:64-71 | No candidate name is tried twice. |
| Scopes.TryNext | pkg/code/scope.go:65-71 | Each turn of the loop tries a visible name not tried before, so the loop ends. |
| Scopes.TriedFound | pkg/code/scope.go:65-71 | Every candidate tried so far is bound somewhere in the chain. |
| Scopes.FirstFree | pkg/code/scope.go:64-71 | The loop of PickName: ends on a candidate that no scope of the chain binds, every candidate tried before it being bound. |
| Scopes.PickName | pkg/code/scope.go:59-72 | Returns a name no scope of the chain binds, which is the first candidate with that property: every earlier candidate is bound. |
| Code.Op | pkg/code/marshaler.go:39-45 | The producer holds the operands and the token the scan finds for `op`. |
| Code.AsExpr | pkg/code/marshaler.go:47 | A resolved operand that passes the type assertion is an expression. |
| Code.WithBody | pkg/code/marshaler.go:94 | Replacing an if statement's body keeps its init, condition, else branch, position and type. |
| Code.ResolvedArgs | pkg/code/marshaler.go:71-73 | The arguments resolve to one expression per argument, in order. |
| Code.AsStmt | pkg/code/marshaler.go:88-92 | An expression becomes an expression statement around it, a statement is kept as it is, and anything else fails the `ast.Stmt` assertion. |
| Code.ResolvedBody | pkg/code/marshaler.go:86-93 | One statement per producer, and a nil list exactly when there are none. |
| Code.ArgsFailFromPrefix | pkg/code/marshaler.go:71-73 | A failed type assertion on an argument fails the whole call. |
| Code.BodyFailFromPrefix | pkg/code/marshaler.go:86-93 | A failed type assertion on a statement fails the whole then-body. |
| Code.Resolve | pkg/code/marshaler.go:35-37 | Resolving a producer by the recursive method gives the reference resolution. |
| Code.ResolveExpr | pkg/code/marshaler.go:47 | Resolution followed by the expression assertion agrees with the reference. |
| Code.ResolveCall | pkg/code/marshaler.go:67-80 | The loop filling a slice made with room for every argument gives the reference call: the function first, then the arguments in order, nil when there are none. |
| Code.ResolveThen | pkg/code/marshaler.go:82-97 | The append loop gives the reference then-body. |
| Code.OpShape | pkg/code/marshaler.go:46-53 | A unary expression when there is no second operand and a binary one otherwise, keyed by the token, the left operand resolved before the right. |
| Code.OpFails | pkg/code/marshaler.go:46-53 | Resolution fails exactly when an operand fails its assertion, the right one only after the left succeeds. |
| Code.ParenWraps | pkg/code/marshaler.go:60-65 | A parenthesised expression around exactly the resolved operand; fails exactly when the operand does. |
| Code.CallShape | pkg/code/marshaler.go:67-80 | A call node with no ellipsis, the function resolved first, then each argument in order from the state the previous one left; nil arguments exactly when there are none. |
| Code.ThenShape | pkg/code/marshaler.go:82-97 | Fails unless the condition producer gives an if statement; otherwise only the body changes, to a block of the resolved statements. |
| Code.PureResolved | pkg/code/marshaler.go:35-37 | When leaves leave the scope as it was, so does every producer. |
| Code.PureArgs | pkg/code/marshaler.go:68-73 | With such leaves each argument resolves on the same scope, and the call fails exactly when some argument fails. |
| Code.PureBody | pkg/code/marshaler.go:83-93 | With such leaves each statement resolves on the same scope, and the body fails exactly when some statement fails. |
| Router.ToLower | pkg/router/router.go:18 | Upper-case ASCII letters map to lower case and every other character is unchanged. |
| Router.New | pkg/router/router.go:13-29 | The package is passed through, the struct defaults to Router, writer and request are w and r, and the receiver is the lower-cased first character, doubled to rr when it would be r, so it never clashes with the request. |
| Router.DefaultRouter | pkg/router/router.go:14-20 | With no struct name the router is Router and its receiver is rr. |
| Router.ExampleRouter | pkg/router/router.go:13-29 | The configuration for package example and struct ex has receiver e. |
| Router.Generate | pkg/router/router.go:39-43 | One statement per route, each the route's producer for this configuration, in route order. |

## Left out

- Logging (`log.Printf` on match failure): output only, with no effect on the result.
- The `Matcher` interface branch of `Match` (match.go:23-29): user-defined matchers are foreign code. With no node implementing it, the branch never fires.
- Scalars: names and literal values, compared through `Match(l.Name, r.Name)` and `Match(l.Value, r.Value)` on strings, and tokens and operators, compared with `==`, are all modelled as equality of the scalars in `Key`. The model has no counterpart for `Match` on arbitrary non-node values.
- Node identity: it is equality of values. Two separate parses of one text at equal positions are equal values here, but distinct pointers in Go. So `Compare` gives `Same` for them at once in both editions, including the as-written one. In Go they are compared field by field, and the code as written panics on them when the tree holds a select case (see Findings). Apart from that, field-by-field comparison of equal trees also gives `Same` (`Match.MatchesOwnErasure`), so the answer is otherwise unaffected.
- The producer constructors other than `Op`, `Paren`, `Call` and `Then` (`Ident`, `IdentPrefix`, literals, `Assign`, `If`, `Func`, `Dot`, `Star`, `File`, the `WithReceiver`/`WithParam` builders) live in files that are not part of this model. They are leaves given by the environment.
- Assign on a producer (marshaler.go:56-58) only forwards to the `Assign` constructor, which is not part of this model.
- ResolveThen: Go's `Then` writes the new body into the if statement that the condition producer returned (`ifstmt.Body = block`). A producer that hands out one shared node would see it changed. The model returns an updated copy, so this aliasing is not captured.
- Router.Generate: only the collection of the routes' statements is modelled. Wrapping them in a `ServeHTTP` function declaration and a file uses `Func`, `Dot`, `Star` and `File`, which are not part of this model. So do the `StatusCode` route (router.go:55-59) and the rendering through go/format.
- Router.ToLower: ASCII letters only. Go's `strings.ToLower` also lowers other Unicode letters, and can change the length of some strings.
- GoToken: the tokens are those of go/token up to `VAR`, which is as far as `Op`'s scan reaches. Tokens added after the keywords in later Go versions are outside the scan.
- Scopes.Datum: stash keys and values are `interface{}` in Go. Here they are a datatype of which only equality is used, as the lookups use them.
- Scopes.PickName: the counter is an `int` in Go. The model's is unbounded, so no overflow is modelled; it would need more than 2^63 bound names.

## Findings

| source | as written | input that shows it | evidently intended | confidence | as-written member | corrected member |
|---|---|---|---|---|---|---|
| pkg/match/match.go:200-202 | The select case passes `l.Body` and `r.Body` (slices of statements) to `Match` by value; every other case passes slice fields by address. `Match` begins with `left == right` on two interface values holding slices, which panics in Go. | `select { default: }` parsed at two offsets: two `CommClause` nodes with nil communication, empty bodies and different positions | pass `&l.Body, &r.Body`, like the other cases, so two select cases match when their communications and statements do | not executed | MatchFindings.SelectCaseAsWritten (witness: MatchFindings.SelectCaseWitness) | MatchFindings.SelectCaseFixed, MatchFindings.SelectCaseFixedIff |
