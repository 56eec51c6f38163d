/**
 * Node producers (the NodeMarshaler combinators).  A producer turns a scope
 * into a syntax-tree node.  `Op`, `Paren`, `Call` and `Then` wrap producers
 * into new ones; the producers they wrap come from constructors such as
 * identifiers and if-statements, which are leaves here: an environment says
 * what each leaf builds and how it changes the scope.
 *
 * The scope is threaded through resolution as a state value of any type
 * `S`: a producer resolved after another sees the scope as the first left
 * it.  A failed type assertion on a resolved node, which panics in Go, is
 * the outcome `None`.
 */
module Code {
  import opened Wrappers
  import opened GoToken
  import opened GoAst

  datatype Producer =
    | Leaf(id: nat)
      /** `x.Op(op, y)` with the token already looked up; no `y` for a unary operator. */
    | Operation(x: Producer, tok: Token, y: Option<Producer>)
    | Paren(x: Producer)
    | Call(fn: Producer, args: seq<Producer>)
    | Then(cond: Producer, stmts: seq<Producer>)

  /** What a leaf builds from a scope, and the scope it leaves. */
  type Env<!S> = (nat, S) -> (Node, S)

  /**
   * `n.Op(op, o)`: finds the token whose text is `op` by scanning the tokens
   * from ILLEGAL to VAR, the last match winning; ILLEGAL when none matches.
   */
  method Op(n: Producer, op: string, o: Option<Producer>) returns (p: Producer)
    ensures p == Operation(n, Lookup(op), o)
  {
    var tok := ILLEGAL;
    var kk := ILLEGAL as int;
    while kk <= VAR as int
      invariant 0 <= kk <= VAR as int + 1
      invariant tok == LastMatch(String, kk, op)
    {
      if String(kk as Token) == op {
        tok := kk as Token;
      }
      kk := kk + 1;
    }
    p := Operation(n, tok, o);
  }

  /** Resolve `p` and assert that the node is an expression. */
  function AsExpr<S>(env: Env<S>, p: Producer, st: S): (r: Option<(Node, S)>)
    ensures r.Some? ==> IsExpr(r.value.0)
    decreases p, 2
  {
    match Resolved(env, p, st)
    case None => None
    case Some((n, st1)) => if IsExpr(n) then Some((n, st1)) else None
  }

  /** The if-statement `i` with its body replaced by `body`. */
  function WithBody(i: Node, body: Node): (r: Node)
    requires IsIfStmt(i)
    ensures IsIfStmt(r) && r.key == i.key && r.attrs == i.attrs
    ensures r.slots[0] == i.slots[0] && r.slots[1] == i.slots[1] && r.slots[3] == i.slots[3]
    ensures r.slots[2] == Child(body)
  {
    Node(i.kind, i.key, i.slots[2 := Child(body)], i.attrs)
  }

  /** What resolving `p` in the state `st` builds, and the state it leaves. */
  function Resolved<S>(env: Env<S>, p: Producer, st: S): Option<(Node, S)>
    decreases p, 1
  {
    match p
    case Leaf(id) => Some(env(id, st))
    case Operation(x, tok, y) => ResolvedOp(env, x, tok, y, st)
    case Paren(x) => ResolvedParen(env, x, st)
    case Call(fn, args) => ResolvedCall(env, fn, args, st)
    case Then(cond, stmts) => ResolvedThen(env, cond, stmts, st)
  }

  /** `x.Op(tok, y)`: the left operand, then the right one, each an expression. */
  function ResolvedOp<S>(env: Env<S>, x: Producer, tok: Token, y: Option<Producer>, st: S): Option<(Node, S)>
    decreases Operation(x, tok, y), 0
  {
    match AsExpr(env, x, st)
    case None => None
    case Some((a, st1)) =>
      if y.None? then Some((UnaryExpr(NoPos, tok, a), st1))
      else
        match AsExpr(env, y.value, st1)
        case None => None
        case Some((b, st2)) => Some((BinaryExpr(a, NoPos, tok, b), st2))
  }

  /** `x.Paren()`: the expression in parentheses. */
  function ResolvedParen<S>(env: Env<S>, x: Producer, st: S): Option<(Node, S)>
    decreases Paren(x), 0
  {
    match AsExpr(env, x, st)
    case None => None
    case Some((a, st1)) => Some((ParenExpr(NoPos, a, NoPos), st1))
  }

  /** `fn.Call(args...)`: the function, then the arguments; no arguments give a nil slice. */
  function ResolvedCall<S>(env: Env<S>, fn: Producer, args: seq<Producer>, st: S): Option<(Node, S)>
    decreases Call(fn, args), 0
  {
    match AsExpr(env, fn, st)
    case None => None
    case Some((f, st1)) =>
      match ResolvedArgs(env, args, st1)
      case None => None
      case Some((xs, st2)) => Some((CallExpr(f, NoPos, if |args| == 0 then Nil else Make(xs), NoPos, NoPos), st2))
  }

  /** `cond.Then(stmts...)`: an if-statement, whose body becomes a block of the statements. */
  function ResolvedThen<S>(env: Env<S>, cond: Producer, stmts: seq<Producer>, st: S): Option<(Node, S)>
    decreases Then(cond, stmts), 0
  {
    match Resolved(env, cond, st)
    case None => None
    case Some((i, st1)) =>
      if !IsIfStmt(i) then None
      else
        match ResolvedBody(env, stmts, st1)
        case None => None
        case Some((list, st2)) => Some((WithBody(i, BlockStmt(NoPos, list, NoPos)), st2))
  }

  /** The arguments of a call, resolved from left to right, each an expression. */
  function ResolvedArgs<S>(env: Env<S>, args: seq<Producer>, st: S): (r: Option<(seq<Node>, S)>)
    ensures r.Some? ==> |r.value.0| == |args| && forall k | 0 <= k < |args| :: IsExpr(r.value.0[k])
    decreases args, 3
  {
    if |args| == 0 then Some(([], st))
    else
      match ResolvedArgs(env, args[..|args| - 1], st)
      case None => None
      case Some((xs, st1)) =>
        match AsExpr(env, args[|args| - 1], st1)
        case None => None
        case Some((x, st2)) => Some((xs + [x], st2))
  }

  /** A resolved node as a statement: an expression is wrapped in an ExprStmt. */
  function AsStmt(n: Node): (r: Option<Node>)
    ensures r.Some? <==> IsExpr(n) || IsStmt(n)
    ensures r.Some? ==> IsStmt(r.value)
    ensures IsExpr(n) ==> r == Some(ExprStmt(n))
    ensures !IsExpr(n) && IsStmt(n) ==> r == Some(n)
  {
    if IsExpr(n) then Some(ExprStmt(n))
    else if IsStmt(n) then Some(n)
    else None
  }

  /** The statements of a `Then`, resolved in order and appended to a block that starts nil. */
  function ResolvedBody<S>(env: Env<S>, stmts: seq<Producer>, st: S): (r: Option<(Slice, S)>)
    ensures r.Some? ==> |Items(r.value.0)| == |stmts| && forall k | 0 <= k < |stmts| :: IsStmt(Items(r.value.0)[k])
    ensures r.Some? ==> (r.value.0.Nil? <==> |stmts| == 0)
    decreases stmts, 3
  {
    if |stmts| == 0 then Some((Nil, st))
    else
      match ResolvedBody(env, stmts[..|stmts| - 1], st)
      case None => None
      case Some((list, st1)) =>
        match Resolved(env, stmts[|stmts| - 1], st1)
        case None => None
        case Some((n, st2)) =>
          match AsStmt(n)
          case None => None
          case Some(s) => Some((Append(list, s), st2))
  }

  /** One more argument resolved: the prefix grows by its node. */
  lemma ArgsStep<S>(env: Env<S>, args: seq<Producer>, k: nat, st: S, xs: seq<Node>, s: S, x: Node, s2: S)
    requires k < |args| && ResolvedArgs(env, args[..k], st) == Some((xs, s)) && AsExpr(env, args[k], s) == Some((x, s2))
    ensures ResolvedArgs(env, args[..k + 1], st) == Some((xs + [x], s2))
  {
    assert args[..k + 1][..k] == args[..k];
  }

  /** One more argument fails: so does the prefix. */
  lemma ArgsStepFails<S>(env: Env<S>, args: seq<Producer>, k: nat, st: S, xs: seq<Node>, s: S)
    requires k < |args| && ResolvedArgs(env, args[..k], st) == Some((xs, s)) && AsExpr(env, args[k], s).None?
    ensures ResolvedArgs(env, args[..k + 1], st).None?
  {
    assert args[..k + 1][..k] == args[..k];
  }

  /** A failure while resolving a prefix of the arguments is a failure of the whole call. */
  lemma {:induction false} ArgsFailFromPrefix<S>(env: Env<S>, args: seq<Producer>, k: nat, st: S)
    requires k <= |args| && ResolvedArgs(env, args[..k], st).None?
    ensures ResolvedArgs(env, args, st).None?
    decreases |args| - k
  {
    if k < |args| {
      assert args[..k + 1][..k] == args[..k];
      ArgsFailFromPrefix(env, args, k + 1, st);
    } else {
      assert args[..k] == args;
    }
  }

  /** A failure while resolving a prefix of the statements is a failure of the whole body. */
  lemma {:induction false} BodyFailFromPrefix<S>(env: Env<S>, stmts: seq<Producer>, k: nat, st: S)
    requires k <= |stmts| && ResolvedBody(env, stmts[..k], st).None?
    ensures ResolvedBody(env, stmts, st).None?
    decreases |stmts| - k
  {
    if k < |stmts| {
      assert stmts[..k + 1][..k] == stmts[..k];
      BodyFailFromPrefix(env, stmts, k + 1, st);
    } else {
      assert stmts[..k] == stmts;
    }
  }

  /** MarshalNode: resolve a producer against a scope. */
  method Resolve<S>(env: Env<S>, p: Producer, st: S) returns (r: Option<(Node, S)>)
    ensures r == Resolved(env, p, st)
    decreases p, 1
  {
    match p
    case Leaf(id) =>
      r := Some(env(id, st));
    case Operation(x, tok, y) =>
      var a := ResolveExpr(env, x, st);
      if a.None? {
        return None;
      }
      if y.None? {
        return Some((UnaryExpr(NoPos, tok, a.value.0), a.value.1));
      }
      var b := ResolveExpr(env, y.value, a.value.1);
      if b.None? {
        return None;
      }
      r := Some((BinaryExpr(a.value.0, NoPos, tok, b.value.0), b.value.1));
    case Paren(x) =>
      var a := ResolveExpr(env, x, st);
      if a.None? {
        return None;
      }
      r := Some((ParenExpr(NoPos, a.value.0, NoPos), a.value.1));
    case Call(fn, args) =>
      r := ResolveCall(env, fn, args, st);
    case Then(cond, stmts) =>
      r := ResolveThen(env, cond, stmts, st);
  }

  /** Resolve `p` and assert that the node is an expression. */
  method ResolveExpr<S>(env: Env<S>, p: Producer, st: S) returns (r: Option<(Node, S)>)
    ensures r == AsExpr(env, p, st)
    decreases p, 2
  {
    r := Resolve(env, p, st);
    if r.Some? && !IsExpr(r.value.0) {
      r := None;
    }
  }

  /** `fn.Call(args...)`: the function first, then the arguments into a slice made with room for all of them. */
  method ResolveCall<S>(env: Env<S>, fn: Producer, args: seq<Producer>, st: S) returns (r: Option<(Node, S)>)
    ensures r == ResolvedCall(env, fn, args, st)
    decreases Call(fn, args), 0
  {
    var f := ResolveExpr(env, fn, st);
    if f.None? {
      return None;
    }
    var st1 := f.value.1;
    var s := st1;
    var exprs := new Node[|args|](_ => f.value.0);
    for kk := 0 to |args|
      invariant ResolvedArgs(env, args[..kk], st1) == Some((exprs[..kk], s))
    {
      var e := ResolveExpr(env, args[kk], s);
      if e.None? {
        ArgsStepFails(env, args, kk, st1, exprs[..kk], s);
        ArgsFailFromPrefix(env, args, kk + 1, st1);
        return None;
      }
      ghost var done := exprs[..kk];
      ArgsStep(env, args, kk, st1, done, s, e.value.0, e.value.1);
      exprs[kk] := e.value.0;
      s := e.value.1;
      assert exprs[..kk + 1] == done + [exprs[kk]];
    }
    assert args[..|args|] == args && exprs[..] == exprs[..|args|];
    var list := if |args| == 0 then Nil else Make(exprs[..]);
    r := Some((CallExpr(f.value.0, NoPos, list, NoPos, NoPos), s));
  }

  /** `n.Then(stmts...)`: the if-statement first, then its new body, statement by statement. */
  method ResolveThen<S>(env: Env<S>, cond: Producer, stmts: seq<Producer>, st: S) returns (r: Option<(Node, S)>)
    ensures r == ResolvedThen(env, cond, stmts, st)
    decreases Then(cond, stmts), 0
  {
    var ri := Resolve(env, cond, st);
    if ri.None? || !IsIfStmt(ri.value.0) {
      return None;
    }
    var ifstmt, st1 := ri.value.0, ri.value.1;
    var s := st1;
    var list := Nil;
    for kk := 0 to |stmts|
      invariant ResolvedBody(env, stmts[..kk], st1) == Some((list, s))
    {
      var rn := Resolve(env, stmts[kk], s);
      assert stmts[..kk + 1][..kk] == stmts[..kk] && stmts[..kk + 1][kk] == stmts[kk];
      if rn.None? {
        BodyFailFromPrefix(env, stmts, kk + 1, st1);
        return None;
      }
      var nn := rn.value.0;
      s := rn.value.1;
      if IsExpr(nn) {
        list := Append(list, ExprStmt(nn));
      } else if IsStmt(nn) {
        list := Append(list, nn);
      } else {
        BodyFailFromPrefix(env, stmts, kk + 1, st1);
        return None;
      }
    }
    assert stmts[..|stmts|] == stmts;
    r := Some((WithBody(ifstmt, BlockStmt(NoPos, list, NoPos)), s));
  }

  // Properties

  /**
   * An operation resolves to a unary node exactly when it has no right
   * operand, and to a binary one otherwise, carrying the token either way:
   * the left operand first, then the right one in the scope the left one left.
   */
  lemma OpShape<S>(env: Env<S>, x: Producer, tok: Token, y: Option<Producer>, st: S)
    ensures var r := ResolvedOp(env, x, tok, y, st);
      r.Some? ==>
        && r.value.0.key == Key.Op(tok)
        && (r.value.0.kind == UnaryExprKind <==> y.None?)
        && (y.Some? <==> r.value.0.kind == BinaryExprKind)
        && |r.value.0.slots| == (if y.None? then 1 else 2)
        && exists st1 ::
          && AsExpr(env, x, st) == Some((r.value.0.slots[0].node, st1))
          && if y.None? then r.value.1 == st1
             else AsExpr(env, y.value, st1) == Some((r.value.0.slots[1].node, r.value.1))
  {
    var r := ResolvedOp(env, x, tok, y, st);
    if r.Some? {
      var (a, st1) := AsExpr(env, x, st).value;
      assert r.value.0.slots[0].node == a;
    }
  }

  /** An operation fails exactly when an operand does not resolve to an expression. */
  lemma OpFails<S>(env: Env<S>, x: Producer, tok: Token, y: Option<Producer>, st: S)
    ensures ResolvedOp(env, x, tok, y, st).None? <==>
      AsExpr(env, x, st).None? || (y.Some? && AsExpr(env, y.value, AsExpr(env, x, st).value.1).None?)
  {
  }

  /** Parentheses wrap the resolved expression and change nothing else. */
  lemma ParenWraps<S>(env: Env<S>, x: Producer, st: S)
    ensures ResolvedParen(env, x, st).Some? <==> AsExpr(env, x, st).Some?
    ensures AsExpr(env, x, st).Some? ==>
      var (n, st1) := ResolvedParen(env, x, st).value;
      n.kind == ParenExprKind && n.slots == [Child(AsExpr(env, x, st).value.0)] && st1 == AsExpr(env, x, st).value.1
  {
  }

  /**
   * A call node holds the function, resolved first, and one argument per
   * argument producer, resolved after it; no arguments give a nil slice.
   */
  lemma CallShape<S>(env: Env<S>, fn: Producer, args: seq<Producer>, st: S)
    ensures var r := ResolvedCall(env, fn, args, st);
      r.Some? ==>
        && r.value.0.kind == CallExprKind
        && r.value.0.key == EllipsisAt(NoPos)
        && |r.value.0.slots| == 2 && r.value.0.slots[1].List?
        && (r.value.0.slots[1].slice.Nil? <==> |args| == 0)
        && |Items(r.value.0.slots[1].slice)| == |args|
        && exists st1 ::
          && AsExpr(env, fn, st) == Some((r.value.0.slots[0].node, st1))
          && ResolvedArgs(env, args, st1) == Some((Items(r.value.0.slots[1].slice), r.value.1))
  {
    var r := ResolvedCall(env, fn, args, st);
    if r.Some? {
      var (f, st1) := AsExpr(env, fn, st).value;
      var (xs, st2) := ResolvedArgs(env, args, st1).value;
      assert r.value.0.slots[0].node == f;
      assert Items(r.value.0.slots[1].slice) == xs;
    }
  }

  /**
   * `Then` needs an if-statement; it replaces the body with a block of the
   * statements, resolved after the if-statement, and keeps every other field.
   */
  lemma ThenShape<S>(env: Env<S>, cond: Producer, stmts: seq<Producer>, st: S)
    ensures var c := Resolved(env, cond, st);
      c.Some? && !IsIfStmt(c.value.0) ==> ResolvedThen(env, cond, stmts, st).None?
    ensures var r := ResolvedThen(env, cond, stmts, st);
      r.Some? ==>
        exists i, st1, list ::
          && Resolved(env, cond, st) == Some((i, st1)) && IsIfStmt(i)
          && ResolvedBody(env, stmts, st1) == Some((list, r.value.1))
          && r.value.0.kind == IfStmtKind && r.value.0.key == i.key && r.value.0.attrs == i.attrs
          && r.value.0.slots == [i.slots[0], i.slots[1], Child(BlockStmt(NoPos, list, NoPos)), i.slots[3]]
  {
    var r := ResolvedThen(env, cond, stmts, st);
    if r.Some? {
      var (i, st1) := Resolved(env, cond, st).value;
      var (list, st2) := ResolvedBody(env, stmts, st1).value;
      assert i.slots[2 := Child(BlockStmt(NoPos, list, NoPos))] == [i.slots[0], i.slots[1], Child(BlockStmt(NoPos, list, NoPos)), i.slots[3]];
    }
  }

  // Producers that leave the scope alone

  /** Every leaf leaves the scope as it found it. */
  ghost predicate Pure<S(!new)>(env: Env<S>)
  {
    forall id: nat, st: S :: env(id, st).1 == st
  }

  /** With such leaves, no producer changes the scope. */
  lemma {:induction false} PureResolved<S(!new)>(env: Env<S>, p: Producer, st: S)
    requires Pure(env)
    ensures Resolved(env, p, st).Some? ==> Resolved(env, p, st).value.1 == st
    ensures AsExpr(env, p, st).Some? ==> AsExpr(env, p, st).value.1 == st
    decreases p
  {
    match p
    case Leaf(id) =>
    case Operation(x, tok, y) =>
      PureResolved(env, x, st);
      if y.Some? {
        PureResolved(env, y.value, st);
      }
    case Paren(x) =>
      PureResolved(env, x, st);
    case Call(fn, args) =>
      PureResolved(env, fn, st);
      PureArgs(env, args, st);
    case Then(cond, stmts) =>
      PureResolved(env, cond, st);
      PureBody(env, stmts, st);
  }

  /**
   * With such leaves, argument `k` is what its producer resolves to on its
   * own, and the arguments fail exactly when one of them is not an expression.
   */
  lemma {:induction false} PureArgs<S(!new)>(env: Env<S>, args: seq<Producer>, st: S)
    requires Pure(env)
    ensures var r := ResolvedArgs(env, args, st);
      r.Some? ==> r.value.1 == st && forall k | 0 <= k < |args| :: AsExpr(env, args[k], st) == Some((r.value.0[k], st))
    ensures ResolvedArgs(env, args, st).None? <==> exists k | 0 <= k < |args| :: AsExpr(env, args[k], st).None?
    decreases args
  {
    if |args| > 0 {
      var pre, last := args[..|args| - 1], args[|args| - 1];
      PureArgs(env, pre, st);
      PureResolved(env, last, st);
      assert forall k | 0 <= k < |pre| :: pre[k] == args[k];
      var r := ResolvedArgs(env, args, st);
      if r.Some? {
        var xs := ResolvedArgs(env, pre, st).value.0;
        assert r.value.0 == xs + [AsExpr(env, last, st).value.0];
        assert forall k | 0 <= k < |pre| :: r.value.0[k] == xs[k];
      } else if ResolvedArgs(env, pre, st).None? {
        var k :| 0 <= k < |pre| && AsExpr(env, pre[k], st).None?;
        assert AsExpr(env, args[k], st).None?;
      } else {
        assert AsExpr(env, args[|args| - 1], st).None?;
      }
    }
  }

  /**
   * With such leaves, statement `k` of the body is what its producer resolves
   * to on its own, wrapped when it is an expression, and the body fails exactly
   * when one of them is neither an expression nor a statement.
   */
  lemma {:induction false} PureBody<S(!new)>(env: Env<S>, stmts: seq<Producer>, st: S)
    requires Pure(env)
    ensures var r := ResolvedBody(env, stmts, st);
      r.Some? ==> r.value.1 == st && forall k | 0 <= k < |stmts| ::
        Resolved(env, stmts[k], st).Some? && AsStmt(Resolved(env, stmts[k], st).value.0) == Some(Items(r.value.0)[k])
    ensures ResolvedBody(env, stmts, st).None? <==>
      exists k | 0 <= k < |stmts| :: Resolved(env, stmts[k], st).None? || AsStmt(Resolved(env, stmts[k], st).value.0).None?
    decreases stmts
  {
    if |stmts| > 0 {
      var pre, last := stmts[..|stmts| - 1], stmts[|stmts| - 1];
      PureBody(env, pre, st);
      PureResolved(env, last, st);
      assert forall k | 0 <= k < |pre| :: pre[k] == stmts[k];
      var r := ResolvedBody(env, stmts, st);
      if r.Some? {
        var list := ResolvedBody(env, pre, st).value.0;
        assert Items(r.value.0) == Items(list) + [AsStmt(Resolved(env, last, st).value.0).value];
        assert forall k | 0 <= k < |pre| :: Items(r.value.0)[k] == Items(list)[k];
      } else if ResolvedBody(env, pre, st).None? {
        var k :| 0 <= k < |pre| && (Resolved(env, pre[k], st).None? || AsStmt(Resolved(env, pre[k], st).value.0).None?);
        assert stmts[k] == pre[k];
      } else {
        assert stmts[|stmts| - 1] == last;
      }
    }
  }
}
