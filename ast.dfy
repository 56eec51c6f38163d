/**
 * The Go syntax tree (package go/ast), as far as the matcher and the builder
 * see it.  Every node records its Go type, the one scalar field the matcher
 * compares (an identifier's name, a literal's text, an operator, whether a
 * call has an ellipsis), its children in the order the matcher visits them,
 * and the fields the matcher never reads (positions, a literal's kind, a
 * struct field's tag and so on).  One function per go/ast type builds its
 * nodes from the type's fields, in the type's own field order.
 */
module GoAst {
  import opened Wrappers
  import opened GoToken

  /** token.NoPos, the position of something that is not there. */
  const NoPos := 0

  /** The go/ast types, in the order of the matcher's type switch. */
  datatype Kind =
    | FieldListKind | FieldKind | IdentListKind | IdentKind | BasicLitKind
    | EllipsisKind | FuncLitKind | CompositeLitKind | ExprListKind
    | ParenExprKind | SelectorExprKind | IndexExprKind | SliceExprKind
    | TypeAssertExprKind | CallExprKind | StarExprKind | UnaryExprKind
    | BinaryExprKind | KeyValueExprKind | ArrayTypeKind | StructTypeKind
    | FuncTypeKind | InterfaceTypeKind | MapTypeKind | ChanTypeKind
    | DeclStmtKind | EmptyStmtKind | LabeledStmtKind | ExprStmtKind
    | SendStmtKind | IncDecStmtKind | AssignStmtKind | GoStmtKind
    | DeferStmtKind | ReturnStmtKind | BranchStmtKind | BlockStmtKind
    | StmtListKind | IfStmtKind | CaseClauseKind | SwitchStmtKind
    | TypeSwitchStmtKind | CommClauseKind | SelectStmtKind | ForStmtKind
    | RangeStmtKind | ImportSpecKind | ValueSpecKind | TypeSpecKind
    | GenDeclKind | SpecListKind | FuncDeclKind | FileKind | DeclListKind
      // Types the matcher has no case for.
    | BadExprKind | BadStmtKind | BadDeclKind

  /** The scalar field the matcher compares, if the type has one. */
  datatype Key =
    | NoKey
    | Name(name: string)     // ast.Ident.Name
    | Value(value: string)   // ast.BasicLit.Value
    | Op(tok: Token)         // an operator or keyword token
    | EllipsisAt(pos: int)   // ast.CallExpr.Ellipsis, NoPos when absent
    | Addr(addr: nat)        // the identity of a node of an unhandled type

  /** A field the matcher does not read. */
  datatype Attr =
    | Pos(pos: int)
    | LitKind(kind: Token)
    | Tag(tag: Option<Node>)
    | Dir(dir: int)
    | Flag(flag: bool)

  /** A Go slice of nodes: nil, or made with the given elements. */
  datatype Slice = Nil | Make(elems: seq<Node>)

  /** A child field, by its Go type. */
  datatype Slot =
    | Child(node: Node)           // never nil
    | Iface(opt: Option<Node>)    // of interface type (ast.Expr, ast.Stmt, ast.Decl); may be nil
    | Ptr(ptr: Option<Node>)      // of pointer type (*ast.Ident, *ast.FieldList, *ast.BlockStmt); may be nil
    | List(slice: Slice)          // of slice type

  datatype Node = Node(kind: Kind, key: Key, slots: seq<Slot>, attrs: seq<Attr>)

  /** The elements of a slice; a nil slice has none. */
  function Items(s: Slice): seq<Node>
  {
    if s.Nil? then [] else s.elems
  }

  /** Go's `append(s, n)` on a slice of nodes. */
  function Append(s: Slice, n: Node): (r: Slice)
    ensures r.Make? && Items(r) == Items(s) + [n]
  {
    match s
    case Nil => Make([n])
    case Make(e) => Make(e + [n])
  }

  /** Whether the matcher has a case for the type. */
  predicate Handled(k: Kind)
  {
    !(k.BadExprKind? || k.BadStmtKind? || k.BadDeclKind?)
  }

  /** Whether nodes of the type implement ast.Expr. */
  predicate IsExpr(n: Node)
  {
    var k := n.kind;
    || k.IdentKind? || k.BasicLitKind? || k.EllipsisKind? || k.FuncLitKind?
    || k.CompositeLitKind? || k.ParenExprKind? || k.SelectorExprKind?
    || k.IndexExprKind? || k.SliceExprKind? || k.TypeAssertExprKind?
    || k.CallExprKind? || k.StarExprKind? || k.UnaryExprKind?
    || k.BinaryExprKind? || k.KeyValueExprKind? || k.ArrayTypeKind?
    || k.StructTypeKind? || k.FuncTypeKind? || k.InterfaceTypeKind?
    || k.MapTypeKind? || k.ChanTypeKind? || k.BadExprKind?
  }

  /** Whether nodes of the type implement ast.Stmt. */
  predicate IsStmt(n: Node)
  {
    var k := n.kind;
    || k.DeclStmtKind? || k.EmptyStmtKind? || k.LabeledStmtKind?
    || k.ExprStmtKind? || k.SendStmtKind? || k.IncDecStmtKind?
    || k.AssignStmtKind? || k.GoStmtKind? || k.DeferStmtKind?
    || k.ReturnStmtKind? || k.BranchStmtKind? || k.BlockStmtKind?
    || k.IfStmtKind? || k.CaseClauseKind? || k.SwitchStmtKind?
    || k.TypeSwitchStmtKind? || k.CommClauseKind? || k.SelectStmtKind?
    || k.ForStmtKind? || k.RangeStmtKind? || k.BadStmtKind?
  }

  /** An *ast.IfStmt with its four child fields. */
  predicate IsIfStmt(n: Node)
  {
    n.kind == IfStmtKind && |n.slots| == 4
  }

  // Node builders, one per go/ast type.  The children are listed in the
  // order the matcher compares them, which is the field order except for
  // ValueSpec (Names, Values, Type) and FuncDecl (Name, Recv, Type, Body).

  function FieldList(opening: int, list: Slice, closing: int): Node
  { Node(FieldListKind, NoKey, [List(list)], [Pos(opening), Pos(closing)]) }

  function Field(names: Slice, typ: Node, tag: Option<Node>): Node
  { Node(FieldKind, NoKey, [List(names), Child(typ)], [Tag(tag)]) }

  /** A *[]*ast.Ident, as the matcher receives a field's names. */
  function IdentList(items: Slice): Node
  { Node(IdentListKind, NoKey, [List(items)], []) }

  function Ident(namePos: int, name: string): Node
  { Node(IdentKind, Name(name), [], [Pos(namePos)]) }

  function BasicLit(valuePos: int, kind: Token, value: string): Node
  { Node(BasicLitKind, Value(value), [], [Pos(valuePos), LitKind(kind)]) }

  function Ellipsis(ellipsis: int, elt: Option<Node>): Node
  { Node(EllipsisKind, NoKey, [Iface(elt)], [Pos(ellipsis)]) }

  function FuncLit(typ: Node, body: Node): Node
  { Node(FuncLitKind, NoKey, [Child(typ), Child(body)], []) }

  function CompositeLit(typ: Option<Node>, lbrace: int, elts: Slice, rbrace: int): Node
  { Node(CompositeLitKind, NoKey, [Iface(typ), List(elts)], [Pos(lbrace), Pos(rbrace)]) }

  /** A *[]ast.Expr. */
  function ExprList(items: Slice): Node
  { Node(ExprListKind, NoKey, [List(items)], []) }

  function ParenExpr(lparen: int, x: Node, rparen: int): Node
  { Node(ParenExprKind, NoKey, [Child(x)], [Pos(lparen), Pos(rparen)]) }

  function SelectorExpr(x: Node, sel: Node): Node
  { Node(SelectorExprKind, NoKey, [Child(x), Child(sel)], []) }

  function IndexExpr(x: Node, lbrack: int, index: Node, rbrack: int): Node
  { Node(IndexExprKind, NoKey, [Child(x), Child(index)], [Pos(lbrack), Pos(rbrack)]) }

  function SliceExpr(x: Node, lbrack: int, low: Option<Node>, high: Option<Node>, max: Option<Node>,
                     slice3: bool, rbrack: int): Node
  { Node(SliceExprKind, NoKey, [Child(x), Iface(low), Iface(high), Iface(max)], [Pos(lbrack), Flag(slice3), Pos(rbrack)]) }

  function TypeAssertExpr(x: Node, lparen: int, typ: Option<Node>, rparen: int): Node
  { Node(TypeAssertExprKind, NoKey, [Child(x), Iface(typ)], [Pos(lparen), Pos(rparen)]) }

  function CallExpr(fun: Node, lparen: int, args: Slice, ellipsis: int, rparen: int): Node
  { Node(CallExprKind, EllipsisAt(ellipsis), [Child(fun), List(args)], [Pos(lparen), Pos(rparen)]) }

  function StarExpr(star: int, x: Node): Node
  { Node(StarExprKind, NoKey, [Child(x)], [Pos(star)]) }

  function UnaryExpr(opPos: int, op: Token, x: Node): Node
  { Node(UnaryExprKind, Op(op), [Child(x)], [Pos(opPos)]) }

  function BinaryExpr(x: Node, opPos: int, op: Token, y: Node): Node
  { Node(BinaryExprKind, Op(op), [Child(x), Child(y)], [Pos(opPos)]) }

  function KeyValueExpr(key: Node, colon: int, value: Node): Node
  { Node(KeyValueExprKind, NoKey, [Child(key), Child(value)], [Pos(colon)]) }

  function ArrayType(lbrack: int, len: Option<Node>, elt: Node): Node
  { Node(ArrayTypeKind, NoKey, [Iface(len), Child(elt)], [Pos(lbrack)]) }

  function StructType(structPos: int, fields: Node, incomplete: bool): Node
  { Node(StructTypeKind, NoKey, [Child(fields)], [Pos(structPos), Flag(incomplete)]) }

  function FuncType(funcPos: int, params: Node, results: Option<Node>): Node
  { Node(FuncTypeKind, NoKey, [Child(params), Ptr(results)], [Pos(funcPos)]) }

  function InterfaceType(interfacePos: int, methods: Node, incomplete: bool): Node
  { Node(InterfaceTypeKind, NoKey, [Child(methods)], [Pos(interfacePos), Flag(incomplete)]) }

  function MapType(mapPos: int, key: Node, value: Node): Node
  { Node(MapTypeKind, NoKey, [Child(key), Child(value)], [Pos(mapPos)]) }

  function ChanType(begin: int, arrow: int, dir: int, value: Node): Node
  { Node(ChanTypeKind, NoKey, [Child(value)], [Pos(begin), Pos(arrow), Dir(dir)]) }

  function DeclStmt(decl: Node): Node
  { Node(DeclStmtKind, NoKey, [Child(decl)], []) }

  function EmptyStmt(semicolon: int, implicit: bool): Node
  { Node(EmptyStmtKind, NoKey, [], [Pos(semicolon), Flag(implicit)]) }

  function LabeledStmt(lbl: Node, colon: int, stmt: Node): Node
  { Node(LabeledStmtKind, NoKey, [Child(lbl), Child(stmt)], [Pos(colon)]) }

  function ExprStmt(x: Node): Node
  { Node(ExprStmtKind, NoKey, [Child(x)], []) }

  function SendStmt(chan: Node, arrow: int, value: Node): Node
  { Node(SendStmtKind, NoKey, [Child(chan), Child(value)], [Pos(arrow)]) }

  function IncDecStmt(x: Node, tokPos: int, tok: Token): Node
  { Node(IncDecStmtKind, Op(tok), [Child(x)], [Pos(tokPos)]) }

  function AssignStmt(lhs: Slice, tokPos: int, tok: Token, rhs: Slice): Node
  { Node(AssignStmtKind, Op(tok), [List(lhs), List(rhs)], [Pos(tokPos)]) }

  function GoStmt(goPos: int, call: Node): Node
  { Node(GoStmtKind, NoKey, [Child(call)], [Pos(goPos)]) }

  function DeferStmt(deferPos: int, call: Node): Node
  { Node(DeferStmtKind, NoKey, [Child(call)], [Pos(deferPos)]) }

  function ReturnStmt(returnPos: int, results: Slice): Node
  { Node(ReturnStmtKind, NoKey, [List(results)], [Pos(returnPos)]) }

  function BranchStmt(tokPos: int, tok: Token, lbl: Option<Node>): Node
  { Node(BranchStmtKind, Op(tok), [Ptr(lbl)], [Pos(tokPos)]) }

  function BlockStmt(lbrace: int, list: Slice, rbrace: int): Node
  { Node(BlockStmtKind, NoKey, [List(list)], [Pos(lbrace), Pos(rbrace)]) }

  /** A *[]ast.Stmt. */
  function StmtList(items: Slice): Node
  { Node(StmtListKind, NoKey, [List(items)], []) }

  function IfStmt(ifPos: int, init: Option<Node>, cond: Node, body: Node, els: Option<Node>): (n: Node)
    ensures IsIfStmt(n)
  { Node(IfStmtKind, NoKey, [Iface(init), Child(cond), Child(body), Iface(els)], [Pos(ifPos)]) }

  function CaseClause(casePos: int, list: Slice, colon: int, body: Slice): Node
  { Node(CaseClauseKind, NoKey, [List(list), List(body)], [Pos(casePos), Pos(colon)]) }

  function SwitchStmt(switchPos: int, init: Option<Node>, tag: Option<Node>, body: Node): Node
  { Node(SwitchStmtKind, NoKey, [Iface(init), Iface(tag), Child(body)], [Pos(switchPos)]) }

  function TypeSwitchStmt(switchPos: int, init: Option<Node>, assign: Node, body: Node): Node
  { Node(TypeSwitchStmtKind, NoKey, [Iface(init), Child(assign), Child(body)], [Pos(switchPos)]) }

  function CommClause(casePos: int, comm: Option<Node>, colon: int, body: Slice): Node
  { Node(CommClauseKind, NoKey, [Iface(comm), List(body)], [Pos(casePos), Pos(colon)]) }

  function SelectStmt(selectPos: int, body: Node): Node
  { Node(SelectStmtKind, NoKey, [Child(body)], [Pos(selectPos)]) }

  function ForStmt(forPos: int, init: Option<Node>, cond: Option<Node>, post: Option<Node>, body: Node): Node
  { Node(ForStmtKind, NoKey, [Iface(init), Iface(cond), Iface(post), Child(body)], [Pos(forPos)]) }

  function RangeStmt(forPos: int, key: Option<Node>, value: Option<Node>, tokPos: int, tok: Token,
                     x: Node, body: Node): Node
  { Node(RangeStmtKind, Op(tok), [Iface(key), Iface(value), Child(x), Child(body)], [Pos(forPos), Pos(tokPos)]) }

  function ImportSpec(name: Option<Node>, path: Node, endPos: int): Node
  { Node(ImportSpecKind, NoKey, [Ptr(name), Child(path)], [Pos(endPos)]) }

  function ValueSpec(names: Slice, typ: Option<Node>, values: Slice): Node
  { Node(ValueSpecKind, NoKey, [List(names), List(values), Iface(typ)], []) }

  function TypeSpec(name: Node, assign: int, typ: Node): Node
  { Node(TypeSpecKind, NoKey, [Child(name), Child(typ)], [Pos(assign)]) }

  function GenDecl(tokPos: int, tok: Token, lparen: int, specs: Slice, rparen: int): Node
  { Node(GenDeclKind, Op(tok), [List(specs)], [Pos(tokPos), Pos(lparen), Pos(rparen)]) }

  /** A *[]ast.Spec. */
  function SpecList(items: Slice): Node
  { Node(SpecListKind, NoKey, [List(items)], []) }

  function FuncDecl(recv: Option<Node>, name: Node, typ: Node, body: Option<Node>): Node
  { Node(FuncDeclKind, NoKey, [Child(name), Ptr(recv), Child(typ), Ptr(body)], []) }

  function File(packagePos: int, name: Node, decls: Slice): Node
  { Node(FileKind, NoKey, [Child(name), List(decls)], [Pos(packagePos)]) }

  /** A *[]ast.Decl. */
  function DeclList(items: Slice): Node
  { Node(DeclListKind, NoKey, [List(items)], []) }

  function BadExpr(addr: nat, from: int, to: int): Node
  { Node(BadExprKind, Addr(addr), [], [Pos(from), Pos(to)]) }

  function BadStmt(addr: nat, from: int, to: int): Node
  { Node(BadStmtKind, Addr(addr), [], [Pos(from), Pos(to)]) }

  function BadDecl(addr: nat, from: int, to: int): Node
  { Node(BadDeclKind, Addr(addr), [], [Pos(from), Pos(to)]) }
}
