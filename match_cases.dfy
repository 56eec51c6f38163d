/**
 * The matcher's type switch case by case: for each go/ast type, what
 * comparing two nodes of that type amounts to, in terms of the comparisons of
 * their children in the order the case makes them.
 */
module MatchCases {
  import opened Wrappers
  import opened GoToken
  import opened GoAst
  import opened Match

  /** Two distinct nodes of one handled type: their scalars, then their children. */
  lemma Distinct(ed: Edition, l: Node, r: Node)
    requires l != r && Handled(l.kind) && l.kind == r.kind
    ensures Compare(ed, l, r) == if SameKey(l.key, r.key) then CompareSlots(ed, l.kind, 0, l.slots, r.slots) else Differ
  {
  }

  lemma ChildSlot(ed: Edition, k: Kind, i: nat, x: Node, y: Node)
    ensures CompareSlot(ed, k, i, Child(x), Child(y)) == Compare(ed, x, y)
  {
  }

  lemma IfaceSlot(ed: Edition, k: Kind, i: nat, x: Option<Node>, y: Option<Node>)
    ensures CompareSlot(ed, k, i, Iface(x), Iface(y)) == CompareIface(ed, x, y)
  {
  }

  lemma PtrSlot(ed: Edition, k: Kind, i: nat, x: Option<Node>, y: Option<Node>)
    ensures CompareSlot(ed, k, i, Ptr(x), Ptr(y)) == ComparePtr(ed, x, y)
  {
  }

  lemma ListSlot(ed: Edition, k: Kind, i: nat, x: Slice, y: Slice)
    ensures CompareSlot(ed, k, i, List(x), List(y)) ==
      if ed == AsWritten && k.CommClauseKind? && i == 1 then Panic else CompareSlices(ed, x, y)
  {
  }

  lemma Slots1(ed: Edition, k: Kind, i: nat, a0: Slot, b0: Slot)
    ensures CompareSlots(ed, k, i, [a0], [b0]) ==
      CompareSlot(ed, k, i, a0, b0)
  {
    assert [a0][1..] == [] && [b0][1..] == [];
  }

  lemma Slots2(ed: Edition, k: Kind, i: nat, a0: Slot, a1: Slot, b0: Slot, b1: Slot)
    ensures CompareSlots(ed, k, i, [a0, a1], [b0, b1]) ==
      And(CompareSlot(ed, k, i, a0, b0), CompareSlot(ed, k, i + 1, a1, b1))
  {
    assert [a0, a1][1..] == [a1] && [b0, b1][1..] == [b1];
    Slots1(ed, k, i + 1, a1, b1);
  }

  lemma Slots3(ed: Edition, k: Kind, i: nat, a0: Slot, a1: Slot, a2: Slot, b0: Slot, b1: Slot, b2: Slot)
    ensures CompareSlots(ed, k, i, [a0, a1, a2], [b0, b1, b2]) ==
      And(CompareSlot(ed, k, i, a0, b0), And(CompareSlot(ed, k, i + 1, a1, b1), CompareSlot(ed, k, i + 2, a2, b2)))
  {
    assert [a0, a1, a2][1..] == [a1, a2] && [b0, b1, b2][1..] == [b1, b2];
    Slots2(ed, k, i + 1, a1, a2, b1, b2);
  }

  lemma Slots4(ed: Edition, k: Kind, i: nat, a0: Slot, a1: Slot, a2: Slot, a3: Slot, b0: Slot, b1: Slot, b2: Slot, b3: Slot)
    ensures CompareSlots(ed, k, i, [a0, a1, a2, a3], [b0, b1, b2, b3]) ==
      And(CompareSlot(ed, k, i, a0, b0), And(CompareSlot(ed, k, i + 1, a1, b1), And(CompareSlot(ed, k, i + 2, a2, b2), CompareSlot(ed, k, i + 3, a3, b3))))
  {
    assert [a0, a1, a2, a3][1..] == [a1, a2, a3] && [b0, b1, b2, b3][1..] == [b1, b2, b3];
    Slots3(ed, k, i + 1, a1, a2, a3, b1, b2, b3);
  }


  lemma FieldListSlots(ed: Edition, list: Slice,
                   list': Slice)
    ensures CompareSlots(ed, FieldListKind, 0, [List(list)], [List(list')]) ==
      CompareSlices(ed, list, list')
  {
    Slots1(ed, FieldListKind, 0, List(list), List(list'));
    ListSlot(ed, FieldListKind, 0, list, list');
  }

  /** A field list compares its fields as a slice. */
  lemma FieldListCase(ed: Edition, opening: int, list: Slice, closing: int,
                   opening': int, list': Slice, closing': int)
    ensures Compare(ed, FieldList(opening, list, closing), FieldList(opening', list', closing')) ==
      if FieldList(opening, list, closing) == FieldList(opening', list', closing') then Same else
      CompareSlices(ed, list, list')
  {
    var l, r := FieldList(opening, list, closing), FieldList(opening', list', closing');
    if l != r {
      Distinct(ed, l, r);
      FieldListSlots(ed, list, list');
    }
  }

  lemma FieldSlots(ed: Edition, names: Slice, typ: Node,
                   names': Slice, typ': Node)
    ensures CompareSlots(ed, FieldKind, 0, [List(names), Child(typ)], [List(names'), Child(typ')]) ==
      And(CompareSlices(ed, names, names'), Compare(ed, typ, typ'))
  {
    Slots2(ed, FieldKind, 0, List(names), Child(typ), List(names'), Child(typ'));
    ListSlot(ed, FieldKind, 0, names, names');
    ChildSlot(ed, FieldKind, 1, typ, typ');
  }

  /** A field compares its names, then its type; the tag is not read. */
  lemma FieldCase(ed: Edition, names: Slice, typ: Node, tag: Option<Node>,
                   names': Slice, typ': Node, tag': Option<Node>)
    ensures Compare(ed, Field(names, typ, tag), Field(names', typ', tag')) ==
      if Field(names, typ, tag) == Field(names', typ', tag') then Same else
      And(CompareSlices(ed, names, names'), Compare(ed, typ, typ'))
  {
    var l, r := Field(names, typ, tag), Field(names', typ', tag');
    if l != r {
      Distinct(ed, l, r);
      FieldSlots(ed, names, typ, names', typ');
    }
  }

  lemma IdentListSlots(ed: Edition, items: Slice,
                   items': Slice)
    ensures CompareSlots(ed, IdentListKind, 0, [List(items)], [List(items')]) ==
      CompareSlices(ed, items, items')
  {
    Slots1(ed, IdentListKind, 0, List(items), List(items'));
    ListSlot(ed, IdentListKind, 0, items, items');
  }

  /** A list of identifiers compares as a slice. */
  lemma IdentListCase(ed: Edition, items: Slice,
                   items': Slice)
    ensures Compare(ed, IdentList(items), IdentList(items')) ==
      if IdentList(items) == IdentList(items') then Same else
      CompareSlices(ed, items, items')
  {
    var l, r := IdentList(items), IdentList(items');
    if l != r {
      Distinct(ed, l, r);
      IdentListSlots(ed, items, items');
    }
  }

  /** An identifier compares its name only. */
  lemma IdentCase(ed: Edition, namePos: int, name: string,
                   namePos': int, name': string)
    ensures Compare(ed, Ident(namePos, name), Ident(namePos', name')) ==
      if Ident(namePos, name) == Ident(namePos', name') then Same else
      if name == name' then Same else Differ
  {
    var l, r := Ident(namePos, name), Ident(namePos', name');
    if l != r {
      Distinct(ed, l, r);
    }
  }

  /** A literal compares its text only; its kind is not read. */
  lemma BasicLitCase(ed: Edition, valuePos: int, kind: Token, value: string,
                   valuePos': int, kind': Token, value': string)
    ensures Compare(ed, BasicLit(valuePos, kind, value), BasicLit(valuePos', kind', value')) ==
      if BasicLit(valuePos, kind, value) == BasicLit(valuePos', kind', value') then Same else
      if value == value' then Same else Differ
  {
    var l, r := BasicLit(valuePos, kind, value), BasicLit(valuePos', kind', value');
    if l != r {
      Distinct(ed, l, r);
    }
  }

  lemma EllipsisSlots(ed: Edition, elt: Option<Node>,
                   elt': Option<Node>)
    ensures CompareSlots(ed, EllipsisKind, 0, [Iface(elt)], [Iface(elt')]) ==
      CompareIface(ed, elt, elt')
  {
    Slots1(ed, EllipsisKind, 0, Iface(elt), Iface(elt'));
    IfaceSlot(ed, EllipsisKind, 0, elt, elt');
  }

  /** An ellipsis compares its element type. */
  lemma EllipsisCase(ed: Edition, ellipsis: int, elt: Option<Node>,
                   ellipsis': int, elt': Option<Node>)
    ensures Compare(ed, Ellipsis(ellipsis, elt), Ellipsis(ellipsis', elt')) ==
      if Ellipsis(ellipsis, elt) == Ellipsis(ellipsis', elt') then Same else
      CompareIface(ed, elt, elt')
  {
    var l, r := Ellipsis(ellipsis, elt), Ellipsis(ellipsis', elt');
    if l != r {
      Distinct(ed, l, r);
      EllipsisSlots(ed, elt, elt');
    }
  }

  lemma FuncLitSlots(ed: Edition, typ: Node, body: Node,
                   typ': Node, body': Node)
    ensures CompareSlots(ed, FuncLitKind, 0, [Child(typ), Child(body)], [Child(typ'), Child(body')]) ==
      And(Compare(ed, typ, typ'), Compare(ed, body, body'))
  {
    Slots2(ed, FuncLitKind, 0, Child(typ), Child(body), Child(typ'), Child(body'));
    ChildSlot(ed, FuncLitKind, 0, typ, typ');
    ChildSlot(ed, FuncLitKind, 1, body, body');
  }

  /** A function literal compares its type, then its body. */
  lemma FuncLitCase(ed: Edition, typ: Node, body: Node,
                   typ': Node, body': Node)
    ensures Compare(ed, FuncLit(typ, body), FuncLit(typ', body')) ==
      if FuncLit(typ, body) == FuncLit(typ', body') then Same else
      And(Compare(ed, typ, typ'), Compare(ed, body, body'))
  {
    var l, r := FuncLit(typ, body), FuncLit(typ', body');
    if l != r {
      Distinct(ed, l, r);
      FuncLitSlots(ed, typ, body, typ', body');
    }
  }

  lemma CompositeLitSlots(ed: Edition, typ: Option<Node>, elts: Slice,
                   typ': Option<Node>, elts': Slice)
    ensures CompareSlots(ed, CompositeLitKind, 0, [Iface(typ), List(elts)], [Iface(typ'), List(elts')]) ==
      And(CompareIface(ed, typ, typ'), CompareSlices(ed, elts, elts'))
  {
    Slots2(ed, CompositeLitKind, 0, Iface(typ), List(elts), Iface(typ'), List(elts'));
    IfaceSlot(ed, CompositeLitKind, 0, typ, typ');
    ListSlot(ed, CompositeLitKind, 1, elts, elts');
  }

  /** A composite literal compares its type, then its elements. */
  lemma CompositeLitCase(ed: Edition, typ: Option<Node>, lbrace: int, elts: Slice, rbrace: int,
                   typ': Option<Node>, lbrace': int, elts': Slice, rbrace': int)
    ensures Compare(ed, CompositeLit(typ, lbrace, elts, rbrace), CompositeLit(typ', lbrace', elts', rbrace')) ==
      if CompositeLit(typ, lbrace, elts, rbrace) == CompositeLit(typ', lbrace', elts', rbrace') then Same else
      And(CompareIface(ed, typ, typ'), CompareSlices(ed, elts, elts'))
  {
    var l, r := CompositeLit(typ, lbrace, elts, rbrace), CompositeLit(typ', lbrace', elts', rbrace');
    if l != r {
      Distinct(ed, l, r);
      CompositeLitSlots(ed, typ, elts, typ', elts');
    }
  }

  lemma ExprListSlots(ed: Edition, items: Slice,
                   items': Slice)
    ensures CompareSlots(ed, ExprListKind, 0, [List(items)], [List(items')]) ==
      CompareSlices(ed, items, items')
  {
    Slots1(ed, ExprListKind, 0, List(items), List(items'));
    ListSlot(ed, ExprListKind, 0, items, items');
  }

  /** A list of expressions compares as a slice. */
  lemma ExprListCase(ed: Edition, items: Slice,
                   items': Slice)
    ensures Compare(ed, ExprList(items), ExprList(items')) ==
      if ExprList(items) == ExprList(items') then Same else
      CompareSlices(ed, items, items')
  {
    var l, r := ExprList(items), ExprList(items');
    if l != r {
      Distinct(ed, l, r);
      ExprListSlots(ed, items, items');
    }
  }

  lemma ParenExprSlots(ed: Edition, x: Node,
                   x': Node)
    ensures CompareSlots(ed, ParenExprKind, 0, [Child(x)], [Child(x')]) ==
      Compare(ed, x, x')
  {
    Slots1(ed, ParenExprKind, 0, Child(x), Child(x'));
    ChildSlot(ed, ParenExprKind, 0, x, x');
  }

  /** A parenthesised expression compares what it encloses. */
  lemma ParenExprCase(ed: Edition, lparen: int, x: Node, rparen: int,
                   lparen': int, x': Node, rparen': int)
    ensures Compare(ed, ParenExpr(lparen, x, rparen), ParenExpr(lparen', x', rparen')) ==
      if ParenExpr(lparen, x, rparen) == ParenExpr(lparen', x', rparen') then Same else
      Compare(ed, x, x')
  {
    var l, r := ParenExpr(lparen, x, rparen), ParenExpr(lparen', x', rparen');
    if l != r {
      Distinct(ed, l, r);
      ParenExprSlots(ed, x, x');
    }
  }

  lemma SelectorExprSlots(ed: Edition, x: Node, sel: Node,
                   x': Node, sel': Node)
    ensures CompareSlots(ed, SelectorExprKind, 0, [Child(x), Child(sel)], [Child(x'), Child(sel')]) ==
      And(Compare(ed, x, x'), Compare(ed, sel, sel'))
  {
    Slots2(ed, SelectorExprKind, 0, Child(x), Child(sel), Child(x'), Child(sel'));
    ChildSlot(ed, SelectorExprKind, 0, x, x');
    ChildSlot(ed, SelectorExprKind, 1, sel, sel');
  }

  /** A selector compares its operand, then the selected name. */
  lemma SelectorExprCase(ed: Edition, x: Node, sel: Node,
                   x': Node, sel': Node)
    ensures Compare(ed, SelectorExpr(x, sel), SelectorExpr(x', sel')) ==
      if SelectorExpr(x, sel) == SelectorExpr(x', sel') then Same else
      And(Compare(ed, x, x'), Compare(ed, sel, sel'))
  {
    var l, r := SelectorExpr(x, sel), SelectorExpr(x', sel');
    if l != r {
      Distinct(ed, l, r);
      SelectorExprSlots(ed, x, sel, x', sel');
    }
  }

  lemma IndexExprSlots(ed: Edition, x: Node, index: Node,
                   x': Node, index': Node)
    ensures CompareSlots(ed, IndexExprKind, 0, [Child(x), Child(index)], [Child(x'), Child(index')]) ==
      And(Compare(ed, x, x'), Compare(ed, index, index'))
  {
    Slots2(ed, IndexExprKind, 0, Child(x), Child(index), Child(x'), Child(index'));
    ChildSlot(ed, IndexExprKind, 0, x, x');
    ChildSlot(ed, IndexExprKind, 1, index, index');
  }

  /** An index expression compares its operand, then the index. */
  lemma IndexExprCase(ed: Edition, x: Node, lbrack: int, index: Node, rbrack: int,
                   x': Node, lbrack': int, index': Node, rbrack': int)
    ensures Compare(ed, IndexExpr(x, lbrack, index, rbrack), IndexExpr(x', lbrack', index', rbrack')) ==
      if IndexExpr(x, lbrack, index, rbrack) == IndexExpr(x', lbrack', index', rbrack') then Same else
      And(Compare(ed, x, x'), Compare(ed, index, index'))
  {
    var l, r := IndexExpr(x, lbrack, index, rbrack), IndexExpr(x', lbrack', index', rbrack');
    if l != r {
      Distinct(ed, l, r);
      IndexExprSlots(ed, x, index, x', index');
    }
  }

  lemma SliceExprSlots(ed: Edition, x: Node, low: Option<Node>, high: Option<Node>, max: Option<Node>,
                   x': Node, low': Option<Node>, high': Option<Node>, max': Option<Node>)
    ensures CompareSlots(ed, SliceExprKind, 0, [Child(x), Iface(low), Iface(high), Iface(max)], [Child(x'), Iface(low'), Iface(high'), Iface(max')]) ==
      And(Compare(ed, x, x'), And(CompareIface(ed, low, low'), And(CompareIface(ed, high, high'), CompareIface(ed, max, max'))))
  {
    Slots4(ed, SliceExprKind, 0, Child(x), Iface(low), Iface(high), Iface(max), Child(x'), Iface(low'), Iface(high'), Iface(max'));
    ChildSlot(ed, SliceExprKind, 0, x, x');
    IfaceSlot(ed, SliceExprKind, 1, low, low');
    IfaceSlot(ed, SliceExprKind, 2, high, high');
    IfaceSlot(ed, SliceExprKind, 3, max, max');
  }

  /** A slice expression compares its operand and its three bounds; whether it is a three-index slice is not read. */
  lemma SliceExprCase(ed: Edition, x: Node, lbrack: int, low: Option<Node>, high: Option<Node>, max: Option<Node>, slice3: bool, rbrack: int,
                   x': Node, lbrack': int, low': Option<Node>, high': Option<Node>, max': Option<Node>, slice3': bool, rbrack': int)
    ensures Compare(ed, SliceExpr(x, lbrack, low, high, max, slice3, rbrack), SliceExpr(x', lbrack', low', high', max', slice3', rbrack')) ==
      if SliceExpr(x, lbrack, low, high, max, slice3, rbrack) == SliceExpr(x', lbrack', low', high', max', slice3', rbrack') then Same else
      And(Compare(ed, x, x'), And(CompareIface(ed, low, low'), And(CompareIface(ed, high, high'), CompareIface(ed, max, max'))))
  {
    var l, r := SliceExpr(x, lbrack, low, high, max, slice3, rbrack), SliceExpr(x', lbrack', low', high', max', slice3', rbrack');
    if l != r {
      Distinct(ed, l, r);
      SliceExprSlots(ed, x, low, high, max, x', low', high', max');
    }
  }

  lemma TypeAssertExprSlots(ed: Edition, x: Node, typ: Option<Node>,
                   x': Node, typ': Option<Node>)
    ensures CompareSlots(ed, TypeAssertExprKind, 0, [Child(x), Iface(typ)], [Child(x'), Iface(typ')]) ==
      And(Compare(ed, x, x'), CompareIface(ed, typ, typ'))
  {
    Slots2(ed, TypeAssertExprKind, 0, Child(x), Iface(typ), Child(x'), Iface(typ'));
    ChildSlot(ed, TypeAssertExprKind, 0, x, x');
    IfaceSlot(ed, TypeAssertExprKind, 1, typ, typ');
  }

  /** A type assertion compares its operand, then its type. */
  lemma TypeAssertExprCase(ed: Edition, x: Node, lparen: int, typ: Option<Node>, rparen: int,
                   x': Node, lparen': int, typ': Option<Node>, rparen': int)
    ensures Compare(ed, TypeAssertExpr(x, lparen, typ, rparen), TypeAssertExpr(x', lparen', typ', rparen')) ==
      if TypeAssertExpr(x, lparen, typ, rparen) == TypeAssertExpr(x', lparen', typ', rparen') then Same else
      And(Compare(ed, x, x'), CompareIface(ed, typ, typ'))
  {
    var l, r := TypeAssertExpr(x, lparen, typ, rparen), TypeAssertExpr(x', lparen', typ', rparen');
    if l != r {
      Distinct(ed, l, r);
      TypeAssertExprSlots(ed, x, typ, x', typ');
    }
  }

  lemma CallExprSlots(ed: Edition, fun: Node, args: Slice,
                   fun': Node, args': Slice)
    ensures CompareSlots(ed, CallExprKind, 0, [Child(fun), List(args)], [Child(fun'), List(args')]) ==
      And(Compare(ed, fun, fun'), CompareSlices(ed, args, args'))
  {
    Slots2(ed, CallExprKind, 0, Child(fun), List(args), Child(fun'), List(args'));
    ChildSlot(ed, CallExprKind, 0, fun, fun');
    ListSlot(ed, CallExprKind, 1, args, args');
  }

  /** A call compares whether it has an ellipsis (not where), then the function, then the arguments. */
  lemma CallExprCase(ed: Edition, fun: Node, lparen: int, args: Slice, ellipsis: int, rparen: int,
                   fun': Node, lparen': int, args': Slice, ellipsis': int, rparen': int)
    ensures Compare(ed, CallExpr(fun, lparen, args, ellipsis, rparen), CallExpr(fun', lparen', args', ellipsis', rparen')) ==
      if CallExpr(fun, lparen, args, ellipsis, rparen) == CallExpr(fun', lparen', args', ellipsis', rparen') then Same else
      if (ellipsis == NoPos) == (ellipsis' == NoPos) then And(Compare(ed, fun, fun'), CompareSlices(ed, args, args')) else Differ
  {
    var l, r := CallExpr(fun, lparen, args, ellipsis, rparen), CallExpr(fun', lparen', args', ellipsis', rparen');
    if l != r {
      Distinct(ed, l, r);
      CallExprSlots(ed, fun, args, fun', args');
    }
  }

  lemma StarExprSlots(ed: Edition, x: Node,
                   x': Node)
    ensures CompareSlots(ed, StarExprKind, 0, [Child(x)], [Child(x')]) ==
      Compare(ed, x, x')
  {
    Slots1(ed, StarExprKind, 0, Child(x), Child(x'));
    ChildSlot(ed, StarExprKind, 0, x, x');
  }

  /** A star expression compares its operand. */
  lemma StarExprCase(ed: Edition, star: int, x: Node,
                   star': int, x': Node)
    ensures Compare(ed, StarExpr(star, x), StarExpr(star', x')) ==
      if StarExpr(star, x) == StarExpr(star', x') then Same else
      Compare(ed, x, x')
  {
    var l, r := StarExpr(star, x), StarExpr(star', x');
    if l != r {
      Distinct(ed, l, r);
      StarExprSlots(ed, x, x');
    }
  }

  lemma UnaryExprSlots(ed: Edition, x: Node,
                   x': Node)
    ensures CompareSlots(ed, UnaryExprKind, 0, [Child(x)], [Child(x')]) ==
      Compare(ed, x, x')
  {
    Slots1(ed, UnaryExprKind, 0, Child(x), Child(x'));
    ChildSlot(ed, UnaryExprKind, 0, x, x');
  }

  /** A unary expression compares its operator, then its operand. */
  lemma UnaryExprCase(ed: Edition, opPos: int, op: Token, x: Node,
                   opPos': int, op': Token, x': Node)
    ensures Compare(ed, UnaryExpr(opPos, op, x), UnaryExpr(opPos', op', x')) ==
      if UnaryExpr(opPos, op, x) == UnaryExpr(opPos', op', x') then Same else
      if op == op' then Compare(ed, x, x') else Differ
  {
    var l, r := UnaryExpr(opPos, op, x), UnaryExpr(opPos', op', x');
    if l != r {
      Distinct(ed, l, r);
      UnaryExprSlots(ed, x, x');
    }
  }

  lemma BinaryExprSlots(ed: Edition, x: Node, y: Node,
                   x': Node, y': Node)
    ensures CompareSlots(ed, BinaryExprKind, 0, [Child(x), Child(y)], [Child(x'), Child(y')]) ==
      And(Compare(ed, x, x'), Compare(ed, y, y'))
  {
    Slots2(ed, BinaryExprKind, 0, Child(x), Child(y), Child(x'), Child(y'));
    ChildSlot(ed, BinaryExprKind, 0, x, x');
    ChildSlot(ed, BinaryExprKind, 1, y, y');
  }

  /** A binary expression compares its operator, then both operands in order. */
  lemma BinaryExprCase(ed: Edition, x: Node, opPos: int, op: Token, y: Node,
                   x': Node, opPos': int, op': Token, y': Node)
    ensures Compare(ed, BinaryExpr(x, opPos, op, y), BinaryExpr(x', opPos', op', y')) ==
      if BinaryExpr(x, opPos, op, y) == BinaryExpr(x', opPos', op', y') then Same else
      if op == op' then And(Compare(ed, x, x'), Compare(ed, y, y')) else Differ
  {
    var l, r := BinaryExpr(x, opPos, op, y), BinaryExpr(x', opPos', op', y');
    if l != r {
      Distinct(ed, l, r);
      BinaryExprSlots(ed, x, y, x', y');
    }
  }

  lemma KeyValueExprSlots(ed: Edition, key: Node, value: Node,
                   key': Node, value': Node)
    ensures CompareSlots(ed, KeyValueExprKind, 0, [Child(key), Child(value)], [Child(key'), Child(value')]) ==
      And(Compare(ed, key, key'), Compare(ed, value, value'))
  {
    Slots2(ed, KeyValueExprKind, 0, Child(key), Child(value), Child(key'), Child(value'));
    ChildSlot(ed, KeyValueExprKind, 0, key, key');
    ChildSlot(ed, KeyValueExprKind, 1, value, value');
  }

  /** A key-value pair compares its key, then its value. */
  lemma KeyValueExprCase(ed: Edition, key: Node, colon: int, value: Node,
                   key': Node, colon': int, value': Node)
    ensures Compare(ed, KeyValueExpr(key, colon, value), KeyValueExpr(key', colon', value')) ==
      if KeyValueExpr(key, colon, value) == KeyValueExpr(key', colon', value') then Same else
      And(Compare(ed, key, key'), Compare(ed, value, value'))
  {
    var l, r := KeyValueExpr(key, colon, value), KeyValueExpr(key', colon', value');
    if l != r {
      Distinct(ed, l, r);
      KeyValueExprSlots(ed, key, value, key', value');
    }
  }

  lemma ArrayTypeSlots(ed: Edition, len: Option<Node>, elt: Node,
                   len': Option<Node>, elt': Node)
    ensures CompareSlots(ed, ArrayTypeKind, 0, [Iface(len), Child(elt)], [Iface(len'), Child(elt')]) ==
      And(CompareIface(ed, len, len'), Compare(ed, elt, elt'))
  {
    Slots2(ed, ArrayTypeKind, 0, Iface(len), Child(elt), Iface(len'), Child(elt'));
    IfaceSlot(ed, ArrayTypeKind, 0, len, len');
    ChildSlot(ed, ArrayTypeKind, 1, elt, elt');
  }

  /** An array type compares its length, then its element type. */
  lemma ArrayTypeCase(ed: Edition, lbrack: int, len: Option<Node>, elt: Node,
                   lbrack': int, len': Option<Node>, elt': Node)
    ensures Compare(ed, ArrayType(lbrack, len, elt), ArrayType(lbrack', len', elt')) ==
      if ArrayType(lbrack, len, elt) == ArrayType(lbrack', len', elt') then Same else
      And(CompareIface(ed, len, len'), Compare(ed, elt, elt'))
  {
    var l, r := ArrayType(lbrack, len, elt), ArrayType(lbrack', len', elt');
    if l != r {
      Distinct(ed, l, r);
      ArrayTypeSlots(ed, len, elt, len', elt');
    }
  }

  lemma StructTypeSlots(ed: Edition, fields: Node,
                   fields': Node)
    ensures CompareSlots(ed, StructTypeKind, 0, [Child(fields)], [Child(fields')]) ==
      Compare(ed, fields, fields')
  {
    Slots1(ed, StructTypeKind, 0, Child(fields), Child(fields'));
    ChildSlot(ed, StructTypeKind, 0, fields, fields');
  }

  /** A struct type compares its fields. */
  lemma StructTypeCase(ed: Edition, structPos: int, fields: Node, incomplete: bool,
                   structPos': int, fields': Node, incomplete': bool)
    ensures Compare(ed, StructType(structPos, fields, incomplete), StructType(structPos', fields', incomplete')) ==
      if StructType(structPos, fields, incomplete) == StructType(structPos', fields', incomplete') then Same else
      Compare(ed, fields, fields')
  {
    var l, r := StructType(structPos, fields, incomplete), StructType(structPos', fields', incomplete');
    if l != r {
      Distinct(ed, l, r);
      StructTypeSlots(ed, fields, fields');
    }
  }

  lemma FuncTypeSlots(ed: Edition, params: Node, results: Option<Node>,
                   params': Node, results': Option<Node>)
    ensures CompareSlots(ed, FuncTypeKind, 0, [Child(params), Ptr(results)], [Child(params'), Ptr(results')]) ==
      And(Compare(ed, params, params'), ComparePtr(ed, results, results'))
  {
    Slots2(ed, FuncTypeKind, 0, Child(params), Ptr(results), Child(params'), Ptr(results'));
    ChildSlot(ed, FuncTypeKind, 0, params, params');
    PtrSlot(ed, FuncTypeKind, 1, results, results');
  }

  /** A function type compares its parameters, then its results; nothing else is read. */
  lemma FuncTypeCase(ed: Edition, funcPos: int, params: Node, results: Option<Node>,
                   funcPos': int, params': Node, results': Option<Node>)
    ensures Compare(ed, FuncType(funcPos, params, results), FuncType(funcPos', params', results')) ==
      if FuncType(funcPos, params, results) == FuncType(funcPos', params', results') then Same else
      And(Compare(ed, params, params'), ComparePtr(ed, results, results'))
  {
    var l, r := FuncType(funcPos, params, results), FuncType(funcPos', params', results');
    if l != r {
      Distinct(ed, l, r);
      FuncTypeSlots(ed, params, results, params', results');
    }
  }

  lemma InterfaceTypeSlots(ed: Edition, methods: Node,
                   methods': Node)
    ensures CompareSlots(ed, InterfaceTypeKind, 0, [Child(methods)], [Child(methods')]) ==
      Compare(ed, methods, methods')
  {
    Slots1(ed, InterfaceTypeKind, 0, Child(methods), Child(methods'));
    ChildSlot(ed, InterfaceTypeKind, 0, methods, methods');
  }

  /** An interface type compares its methods. */
  lemma InterfaceTypeCase(ed: Edition, interfacePos: int, methods: Node, incomplete: bool,
                   interfacePos': int, methods': Node, incomplete': bool)
    ensures Compare(ed, InterfaceType(interfacePos, methods, incomplete), InterfaceType(interfacePos', methods', incomplete')) ==
      if InterfaceType(interfacePos, methods, incomplete) == InterfaceType(interfacePos', methods', incomplete') then Same else
      Compare(ed, methods, methods')
  {
    var l, r := InterfaceType(interfacePos, methods, incomplete), InterfaceType(interfacePos', methods', incomplete');
    if l != r {
      Distinct(ed, l, r);
      InterfaceTypeSlots(ed, methods, methods');
    }
  }

  lemma MapTypeSlots(ed: Edition, key: Node, value: Node,
                   key': Node, value': Node)
    ensures CompareSlots(ed, MapTypeKind, 0, [Child(key), Child(value)], [Child(key'), Child(value')]) ==
      And(Compare(ed, key, key'), Compare(ed, value, value'))
  {
    Slots2(ed, MapTypeKind, 0, Child(key), Child(value), Child(key'), Child(value'));
    ChildSlot(ed, MapTypeKind, 0, key, key');
    ChildSlot(ed, MapTypeKind, 1, value, value');
  }

  /** A map type compares its key type, then its value type. */
  lemma MapTypeCase(ed: Edition, mapPos: int, key: Node, value: Node,
                   mapPos': int, key': Node, value': Node)
    ensures Compare(ed, MapType(mapPos, key, value), MapType(mapPos', key', value')) ==
      if MapType(mapPos, key, value) == MapType(mapPos', key', value') then Same else
      And(Compare(ed, key, key'), Compare(ed, value, value'))
  {
    var l, r := MapType(mapPos, key, value), MapType(mapPos', key', value');
    if l != r {
      Distinct(ed, l, r);
      MapTypeSlots(ed, key, value, key', value');
    }
  }

  lemma ChanTypeSlots(ed: Edition, value: Node,
                   value': Node)
    ensures CompareSlots(ed, ChanTypeKind, 0, [Child(value)], [Child(value')]) ==
      Compare(ed, value, value')
  {
    Slots1(ed, ChanTypeKind, 0, Child(value), Child(value'));
    ChildSlot(ed, ChanTypeKind, 0, value, value');
  }

  /** A channel type compares its element type; its direction is not read. */
  lemma ChanTypeCase(ed: Edition, begin: int, arrow: int, dir: int, value: Node,
                   begin': int, arrow': int, dir': int, value': Node)
    ensures Compare(ed, ChanType(begin, arrow, dir, value), ChanType(begin', arrow', dir', value')) ==
      if ChanType(begin, arrow, dir, value) == ChanType(begin', arrow', dir', value') then Same else
      Compare(ed, value, value')
  {
    var l, r := ChanType(begin, arrow, dir, value), ChanType(begin', arrow', dir', value');
    if l != r {
      Distinct(ed, l, r);
      ChanTypeSlots(ed, value, value');
    }
  }

  lemma DeclStmtSlots(ed: Edition, decl: Node,
                   decl': Node)
    ensures CompareSlots(ed, DeclStmtKind, 0, [Child(decl)], [Child(decl')]) ==
      Compare(ed, decl, decl')
  {
    Slots1(ed, DeclStmtKind, 0, Child(decl), Child(decl'));
    ChildSlot(ed, DeclStmtKind, 0, decl, decl');
  }

  /** A declaration statement compares its declaration. */
  lemma DeclStmtCase(ed: Edition, decl: Node,
                   decl': Node)
    ensures Compare(ed, DeclStmt(decl), DeclStmt(decl')) ==
      if DeclStmt(decl) == DeclStmt(decl') then Same else
      Compare(ed, decl, decl')
  {
    var l, r := DeclStmt(decl), DeclStmt(decl');
    if l != r {
      Distinct(ed, l, r);
      DeclStmtSlots(ed, decl, decl');
    }
  }

  /** Any two empty statements match. */
  lemma EmptyStmtCase(ed: Edition, semicolon: int, implicit: bool,
                   semicolon': int, implicit': bool)
    ensures Compare(ed, EmptyStmt(semicolon, implicit), EmptyStmt(semicolon', implicit')) ==
      if EmptyStmt(semicolon, implicit) == EmptyStmt(semicolon', implicit') then Same else
      Same
  {
    var l, r := EmptyStmt(semicolon, implicit), EmptyStmt(semicolon', implicit');
    if l != r {
      Distinct(ed, l, r);
    }
  }

  lemma LabeledStmtSlots(ed: Edition, lbl: Node, stmt: Node,
                   lbl': Node, stmt': Node)
    ensures CompareSlots(ed, LabeledStmtKind, 0, [Child(lbl), Child(stmt)], [Child(lbl'), Child(stmt')]) ==
      And(Compare(ed, lbl, lbl'), Compare(ed, stmt, stmt'))
  {
    Slots2(ed, LabeledStmtKind, 0, Child(lbl), Child(stmt), Child(lbl'), Child(stmt'));
    ChildSlot(ed, LabeledStmtKind, 0, lbl, lbl');
    ChildSlot(ed, LabeledStmtKind, 1, stmt, stmt');
  }

  /** A labelled statement compares its label, then the statement. */
  lemma LabeledStmtCase(ed: Edition, lbl: Node, colon: int, stmt: Node,
                   lbl': Node, colon': int, stmt': Node)
    ensures Compare(ed, LabeledStmt(lbl, colon, stmt), LabeledStmt(lbl', colon', stmt')) ==
      if LabeledStmt(lbl, colon, stmt) == LabeledStmt(lbl', colon', stmt') then Same else
      And(Compare(ed, lbl, lbl'), Compare(ed, stmt, stmt'))
  {
    var l, r := LabeledStmt(lbl, colon, stmt), LabeledStmt(lbl', colon', stmt');
    if l != r {
      Distinct(ed, l, r);
      LabeledStmtSlots(ed, lbl, stmt, lbl', stmt');
    }
  }

  lemma ExprStmtSlots(ed: Edition, x: Node,
                   x': Node)
    ensures CompareSlots(ed, ExprStmtKind, 0, [Child(x)], [Child(x')]) ==
      Compare(ed, x, x')
  {
    Slots1(ed, ExprStmtKind, 0, Child(x), Child(x'));
    ChildSlot(ed, ExprStmtKind, 0, x, x');
  }

  /** An expression statement compares its expression. */
  lemma ExprStmtCase(ed: Edition, x: Node,
                   x': Node)
    ensures Compare(ed, ExprStmt(x), ExprStmt(x')) ==
      if ExprStmt(x) == ExprStmt(x') then Same else
      Compare(ed, x, x')
  {
    var l, r := ExprStmt(x), ExprStmt(x');
    if l != r {
      Distinct(ed, l, r);
      ExprStmtSlots(ed, x, x');
    }
  }

  lemma SendStmtSlots(ed: Edition, chan: Node, value: Node,
                   chan': Node, value': Node)
    ensures CompareSlots(ed, SendStmtKind, 0, [Child(chan), Child(value)], [Child(chan'), Child(value')]) ==
      And(Compare(ed, chan, chan'), Compare(ed, value, value'))
  {
    Slots2(ed, SendStmtKind, 0, Child(chan), Child(value), Child(chan'), Child(value'));
    ChildSlot(ed, SendStmtKind, 0, chan, chan');
    ChildSlot(ed, SendStmtKind, 1, value, value');
  }

  /** A send compares the channel, then the value. */
  lemma SendStmtCase(ed: Edition, chan: Node, arrow: int, value: Node,
                   chan': Node, arrow': int, value': Node)
    ensures Compare(ed, SendStmt(chan, arrow, value), SendStmt(chan', arrow', value')) ==
      if SendStmt(chan, arrow, value) == SendStmt(chan', arrow', value') then Same else
      And(Compare(ed, chan, chan'), Compare(ed, value, value'))
  {
    var l, r := SendStmt(chan, arrow, value), SendStmt(chan', arrow', value');
    if l != r {
      Distinct(ed, l, r);
      SendStmtSlots(ed, chan, value, chan', value');
    }
  }

  lemma IncDecStmtSlots(ed: Edition, x: Node,
                   x': Node)
    ensures CompareSlots(ed, IncDecStmtKind, 0, [Child(x)], [Child(x')]) ==
      Compare(ed, x, x')
  {
    Slots1(ed, IncDecStmtKind, 0, Child(x), Child(x'));
    ChildSlot(ed, IncDecStmtKind, 0, x, x');
  }

  /** An increment or decrement compares its token, then its operand. */
  lemma IncDecStmtCase(ed: Edition, x: Node, tokPos: int, tok: Token,
                   x': Node, tokPos': int, tok': Token)
    ensures Compare(ed, IncDecStmt(x, tokPos, tok), IncDecStmt(x', tokPos', tok')) ==
      if IncDecStmt(x, tokPos, tok) == IncDecStmt(x', tokPos', tok') then Same else
      if tok == tok' then Compare(ed, x, x') else Differ
  {
    var l, r := IncDecStmt(x, tokPos, tok), IncDecStmt(x', tokPos', tok');
    if l != r {
      Distinct(ed, l, r);
      IncDecStmtSlots(ed, x, x');
    }
  }

  lemma AssignStmtSlots(ed: Edition, lhs: Slice, rhs: Slice,
                   lhs': Slice, rhs': Slice)
    ensures CompareSlots(ed, AssignStmtKind, 0, [List(lhs), List(rhs)], [List(lhs'), List(rhs')]) ==
      And(CompareSlices(ed, lhs, lhs'), CompareSlices(ed, rhs, rhs'))
  {
    Slots2(ed, AssignStmtKind, 0, List(lhs), List(rhs), List(lhs'), List(rhs'));
    ListSlot(ed, AssignStmtKind, 0, lhs, lhs');
    ListSlot(ed, AssignStmtKind, 1, rhs, rhs');
  }

  /** An assignment compares its token, then both sides in order. */
  lemma AssignStmtCase(ed: Edition, lhs: Slice, tokPos: int, tok: Token, rhs: Slice,
                   lhs': Slice, tokPos': int, tok': Token, rhs': Slice)
    ensures Compare(ed, AssignStmt(lhs, tokPos, tok, rhs), AssignStmt(lhs', tokPos', tok', rhs')) ==
      if AssignStmt(lhs, tokPos, tok, rhs) == AssignStmt(lhs', tokPos', tok', rhs') then Same else
      if tok == tok' then And(CompareSlices(ed, lhs, lhs'), CompareSlices(ed, rhs, rhs')) else Differ
  {
    var l, r := AssignStmt(lhs, tokPos, tok, rhs), AssignStmt(lhs', tokPos', tok', rhs');
    if l != r {
      Distinct(ed, l, r);
      AssignStmtSlots(ed, lhs, rhs, lhs', rhs');
    }
  }

  lemma GoStmtSlots(ed: Edition, call: Node,
                   call': Node)
    ensures CompareSlots(ed, GoStmtKind, 0, [Child(call)], [Child(call')]) ==
      Compare(ed, call, call')
  {
    Slots1(ed, GoStmtKind, 0, Child(call), Child(call'));
    ChildSlot(ed, GoStmtKind, 0, call, call');
  }

  /** A go statement compares its call. */
  lemma GoStmtCase(ed: Edition, goPos: int, call: Node,
                   goPos': int, call': Node)
    ensures Compare(ed, GoStmt(goPos, call), GoStmt(goPos', call')) ==
      if GoStmt(goPos, call) == GoStmt(goPos', call') then Same else
      Compare(ed, call, call')
  {
    var l, r := GoStmt(goPos, call), GoStmt(goPos', call');
    if l != r {
      Distinct(ed, l, r);
      GoStmtSlots(ed, call, call');
    }
  }

  lemma DeferStmtSlots(ed: Edition, call: Node,
                   call': Node)
    ensures CompareSlots(ed, DeferStmtKind, 0, [Child(call)], [Child(call')]) ==
      Compare(ed, call, call')
  {
    Slots1(ed, DeferStmtKind, 0, Child(call), Child(call'));
    ChildSlot(ed, DeferStmtKind, 0, call, call');
  }

  /** A defer statement compares its call. */
  lemma DeferStmtCase(ed: Edition, deferPos: int, call: Node,
                   deferPos': int, call': Node)
    ensures Compare(ed, DeferStmt(deferPos, call), DeferStmt(deferPos', call')) ==
      if DeferStmt(deferPos, call) == DeferStmt(deferPos', call') then Same else
      Compare(ed, call, call')
  {
    var l, r := DeferStmt(deferPos, call), DeferStmt(deferPos', call');
    if l != r {
      Distinct(ed, l, r);
      DeferStmtSlots(ed, call, call');
    }
  }

  lemma ReturnStmtSlots(ed: Edition, results: Slice,
                   results': Slice)
    ensures CompareSlots(ed, ReturnStmtKind, 0, [List(results)], [List(results')]) ==
      CompareSlices(ed, results, results')
  {
    Slots1(ed, ReturnStmtKind, 0, List(results), List(results'));
    ListSlot(ed, ReturnStmtKind, 0, results, results');
  }

  /** A return statement compares its results. */
  lemma ReturnStmtCase(ed: Edition, returnPos: int, results: Slice,
                   returnPos': int, results': Slice)
    ensures Compare(ed, ReturnStmt(returnPos, results), ReturnStmt(returnPos', results')) ==
      if ReturnStmt(returnPos, results) == ReturnStmt(returnPos', results') then Same else
      CompareSlices(ed, results, results')
  {
    var l, r := ReturnStmt(returnPos, results), ReturnStmt(returnPos', results');
    if l != r {
      Distinct(ed, l, r);
      ReturnStmtSlots(ed, results, results');
    }
  }

  lemma BranchStmtSlots(ed: Edition, lbl: Option<Node>,
                   lbl': Option<Node>)
    ensures CompareSlots(ed, BranchStmtKind, 0, [Ptr(lbl)], [Ptr(lbl')]) ==
      ComparePtr(ed, lbl, lbl')
  {
    Slots1(ed, BranchStmtKind, 0, Ptr(lbl), Ptr(lbl'));
    PtrSlot(ed, BranchStmtKind, 0, lbl, lbl');
  }

  /** A branch statement compares its token, then its label. */
  lemma BranchStmtCase(ed: Edition, tokPos: int, tok: Token, lbl: Option<Node>,
                   tokPos': int, tok': Token, lbl': Option<Node>)
    ensures Compare(ed, BranchStmt(tokPos, tok, lbl), BranchStmt(tokPos', tok', lbl')) ==
      if BranchStmt(tokPos, tok, lbl) == BranchStmt(tokPos', tok', lbl') then Same else
      if tok == tok' then ComparePtr(ed, lbl, lbl') else Differ
  {
    var l, r := BranchStmt(tokPos, tok, lbl), BranchStmt(tokPos', tok', lbl');
    if l != r {
      Distinct(ed, l, r);
      BranchStmtSlots(ed, lbl, lbl');
    }
  }

  lemma BlockStmtSlots(ed: Edition, list: Slice,
                   list': Slice)
    ensures CompareSlots(ed, BlockStmtKind, 0, [List(list)], [List(list')]) ==
      CompareSlices(ed, list, list')
  {
    Slots1(ed, BlockStmtKind, 0, List(list), List(list'));
    ListSlot(ed, BlockStmtKind, 0, list, list');
  }

  /** A block compares its statements. */
  lemma BlockStmtCase(ed: Edition, lbrace: int, list: Slice, rbrace: int,
                   lbrace': int, list': Slice, rbrace': int)
    ensures Compare(ed, BlockStmt(lbrace, list, rbrace), BlockStmt(lbrace', list', rbrace')) ==
      if BlockStmt(lbrace, list, rbrace) == BlockStmt(lbrace', list', rbrace') then Same else
      CompareSlices(ed, list, list')
  {
    var l, r := BlockStmt(lbrace, list, rbrace), BlockStmt(lbrace', list', rbrace');
    if l != r {
      Distinct(ed, l, r);
      BlockStmtSlots(ed, list, list');
    }
  }

  lemma StmtListSlots(ed: Edition, items: Slice,
                   items': Slice)
    ensures CompareSlots(ed, StmtListKind, 0, [List(items)], [List(items')]) ==
      CompareSlices(ed, items, items')
  {
    Slots1(ed, StmtListKind, 0, List(items), List(items'));
    ListSlot(ed, StmtListKind, 0, items, items');
  }

  /** A list of statements compares as a slice. */
  lemma StmtListCase(ed: Edition, items: Slice,
                   items': Slice)
    ensures Compare(ed, StmtList(items), StmtList(items')) ==
      if StmtList(items) == StmtList(items') then Same else
      CompareSlices(ed, items, items')
  {
    var l, r := StmtList(items), StmtList(items');
    if l != r {
      Distinct(ed, l, r);
      StmtListSlots(ed, items, items');
    }
  }

  lemma IfStmtSlots(ed: Edition, init: Option<Node>, cond: Node, body: Node, els: Option<Node>,
                   init': Option<Node>, cond': Node, body': Node, els': Option<Node>)
    ensures CompareSlots(ed, IfStmtKind, 0, [Iface(init), Child(cond), Child(body), Iface(els)], [Iface(init'), Child(cond'), Child(body'), Iface(els')]) ==
      And(CompareIface(ed, init, init'), And(Compare(ed, cond, cond'), And(Compare(ed, body, body'), CompareIface(ed, els, els'))))
  {
    Slots4(ed, IfStmtKind, 0, Iface(init), Child(cond), Child(body), Iface(els), Iface(init'), Child(cond'), Child(body'), Iface(els'));
    IfaceSlot(ed, IfStmtKind, 0, init, init');
    ChildSlot(ed, IfStmtKind, 1, cond, cond');
    ChildSlot(ed, IfStmtKind, 2, body, body');
    IfaceSlot(ed, IfStmtKind, 3, els, els');
  }

  /** An if statement compares its init, condition, body and else branch, in that order. */
  lemma IfStmtCase(ed: Edition, ifPos: int, init: Option<Node>, cond: Node, body: Node, els: Option<Node>,
                   ifPos': int, init': Option<Node>, cond': Node, body': Node, els': Option<Node>)
    ensures Compare(ed, IfStmt(ifPos, init, cond, body, els), IfStmt(ifPos', init', cond', body', els')) ==
      if IfStmt(ifPos, init, cond, body, els) == IfStmt(ifPos', init', cond', body', els') then Same else
      And(CompareIface(ed, init, init'), And(Compare(ed, cond, cond'), And(Compare(ed, body, body'), CompareIface(ed, els, els'))))
  {
    var l, r := IfStmt(ifPos, init, cond, body, els), IfStmt(ifPos', init', cond', body', els');
    if l != r {
      Distinct(ed, l, r);
      IfStmtSlots(ed, init, cond, body, els, init', cond', body', els');
    }
  }

  lemma CaseClauseSlots(ed: Edition, list: Slice, body: Slice,
                   list': Slice, body': Slice)
    ensures CompareSlots(ed, CaseClauseKind, 0, [List(list), List(body)], [List(list'), List(body')]) ==
      And(CompareSlices(ed, list, list'), CompareSlices(ed, body, body'))
  {
    Slots2(ed, CaseClauseKind, 0, List(list), List(body), List(list'), List(body'));
    ListSlot(ed, CaseClauseKind, 0, list, list');
    ListSlot(ed, CaseClauseKind, 1, body, body');
  }

  /** A case clause compares its expressions, then its statements. */
  lemma CaseClauseCase(ed: Edition, casePos: int, list: Slice, colon: int, body: Slice,
                   casePos': int, list': Slice, colon': int, body': Slice)
    ensures Compare(ed, CaseClause(casePos, list, colon, body), CaseClause(casePos', list', colon', body')) ==
      if CaseClause(casePos, list, colon, body) == CaseClause(casePos', list', colon', body') then Same else
      And(CompareSlices(ed, list, list'), CompareSlices(ed, body, body'))
  {
    var l, r := CaseClause(casePos, list, colon, body), CaseClause(casePos', list', colon', body');
    if l != r {
      Distinct(ed, l, r);
      CaseClauseSlots(ed, list, body, list', body');
    }
  }

  lemma SwitchStmtSlots(ed: Edition, init: Option<Node>, tag: Option<Node>, body: Node,
                   init': Option<Node>, tag': Option<Node>, body': Node)
    ensures CompareSlots(ed, SwitchStmtKind, 0, [Iface(init), Iface(tag), Child(body)], [Iface(init'), Iface(tag'), Child(body')]) ==
      And(CompareIface(ed, init, init'), And(CompareIface(ed, tag, tag'), Compare(ed, body, body')))
  {
    Slots3(ed, SwitchStmtKind, 0, Iface(init), Iface(tag), Child(body), Iface(init'), Iface(tag'), Child(body'));
    IfaceSlot(ed, SwitchStmtKind, 0, init, init');
    IfaceSlot(ed, SwitchStmtKind, 1, tag, tag');
    ChildSlot(ed, SwitchStmtKind, 2, body, body');
  }

  /** A switch compares its init, tag and body. */
  lemma SwitchStmtCase(ed: Edition, switchPos: int, init: Option<Node>, tag: Option<Node>, body: Node,
                   switchPos': int, init': Option<Node>, tag': Option<Node>, body': Node)
    ensures Compare(ed, SwitchStmt(switchPos, init, tag, body), SwitchStmt(switchPos', init', tag', body')) ==
      if SwitchStmt(switchPos, init, tag, body) == SwitchStmt(switchPos', init', tag', body') then Same else
      And(CompareIface(ed, init, init'), And(CompareIface(ed, tag, tag'), Compare(ed, body, body')))
  {
    var l, r := SwitchStmt(switchPos, init, tag, body), SwitchStmt(switchPos', init', tag', body');
    if l != r {
      Distinct(ed, l, r);
      SwitchStmtSlots(ed, init, tag, body, init', tag', body');
    }
  }

  lemma TypeSwitchStmtSlots(ed: Edition, init: Option<Node>, assign: Node, body: Node,
                   init': Option<Node>, assign': Node, body': Node)
    ensures CompareSlots(ed, TypeSwitchStmtKind, 0, [Iface(init), Child(assign), Child(body)], [Iface(init'), Child(assign'), Child(body')]) ==
      And(CompareIface(ed, init, init'), And(Compare(ed, assign, assign'), Compare(ed, body, body')))
  {
    Slots3(ed, TypeSwitchStmtKind, 0, Iface(init), Child(assign), Child(body), Iface(init'), Child(assign'), Child(body'));
    IfaceSlot(ed, TypeSwitchStmtKind, 0, init, init');
    ChildSlot(ed, TypeSwitchStmtKind, 1, assign, assign');
    ChildSlot(ed, TypeSwitchStmtKind, 2, body, body');
  }

  /** A type switch compares its init, assignment and body. */
  lemma TypeSwitchStmtCase(ed: Edition, switchPos: int, init: Option<Node>, assign: Node, body: Node,
                   switchPos': int, init': Option<Node>, assign': Node, body': Node)
    ensures Compare(ed, TypeSwitchStmt(switchPos, init, assign, body), TypeSwitchStmt(switchPos', init', assign', body')) ==
      if TypeSwitchStmt(switchPos, init, assign, body) == TypeSwitchStmt(switchPos', init', assign', body') then Same else
      And(CompareIface(ed, init, init'), And(Compare(ed, assign, assign'), Compare(ed, body, body')))
  {
    var l, r := TypeSwitchStmt(switchPos, init, assign, body), TypeSwitchStmt(switchPos', init', assign', body');
    if l != r {
      Distinct(ed, l, r);
      TypeSwitchStmtSlots(ed, init, assign, body, init', assign', body');
    }
  }

  lemma SelectStmtSlots(ed: Edition, body: Node,
                   body': Node)
    ensures CompareSlots(ed, SelectStmtKind, 0, [Child(body)], [Child(body')]) ==
      Compare(ed, body, body')
  {
    Slots1(ed, SelectStmtKind, 0, Child(body), Child(body'));
    ChildSlot(ed, SelectStmtKind, 0, body, body');
  }

  /** A select statement compares its body. */
  lemma SelectStmtCase(ed: Edition, selectPos: int, body: Node,
                   selectPos': int, body': Node)
    ensures Compare(ed, SelectStmt(selectPos, body), SelectStmt(selectPos', body')) ==
      if SelectStmt(selectPos, body) == SelectStmt(selectPos', body') then Same else
      Compare(ed, body, body')
  {
    var l, r := SelectStmt(selectPos, body), SelectStmt(selectPos', body');
    if l != r {
      Distinct(ed, l, r);
      SelectStmtSlots(ed, body, body');
    }
  }

  lemma ForStmtSlots(ed: Edition, init: Option<Node>, cond: Option<Node>, post: Option<Node>, body: Node,
                   init': Option<Node>, cond': Option<Node>, post': Option<Node>, body': Node)
    ensures CompareSlots(ed, ForStmtKind, 0, [Iface(init), Iface(cond), Iface(post), Child(body)], [Iface(init'), Iface(cond'), Iface(post'), Child(body')]) ==
      And(CompareIface(ed, init, init'), And(CompareIface(ed, cond, cond'), And(CompareIface(ed, post, post'), Compare(ed, body, body'))))
  {
    Slots4(ed, ForStmtKind, 0, Iface(init), Iface(cond), Iface(post), Child(body), Iface(init'), Iface(cond'), Iface(post'), Child(body'));
    IfaceSlot(ed, ForStmtKind, 0, init, init');
    IfaceSlot(ed, ForStmtKind, 1, cond, cond');
    IfaceSlot(ed, ForStmtKind, 2, post, post');
    ChildSlot(ed, ForStmtKind, 3, body, body');
  }

  /** A for statement compares its init, condition, post statement and body. */
  lemma ForStmtCase(ed: Edition, forPos: int, init: Option<Node>, cond: Option<Node>, post: Option<Node>, body: Node,
                   forPos': int, init': Option<Node>, cond': Option<Node>, post': Option<Node>, body': Node)
    ensures Compare(ed, ForStmt(forPos, init, cond, post, body), ForStmt(forPos', init', cond', post', body')) ==
      if ForStmt(forPos, init, cond, post, body) == ForStmt(forPos', init', cond', post', body') then Same else
      And(CompareIface(ed, init, init'), And(CompareIface(ed, cond, cond'), And(CompareIface(ed, post, post'), Compare(ed, body, body'))))
  {
    var l, r := ForStmt(forPos, init, cond, post, body), ForStmt(forPos', init', cond', post', body');
    if l != r {
      Distinct(ed, l, r);
      ForStmtSlots(ed, init, cond, post, body, init', cond', post', body');
    }
  }

  lemma RangeStmtSlots(ed: Edition, key: Option<Node>, value: Option<Node>, x: Node, body: Node,
                   key': Option<Node>, value': Option<Node>, x': Node, body': Node)
    ensures CompareSlots(ed, RangeStmtKind, 0, [Iface(key), Iface(value), Child(x), Child(body)], [Iface(key'), Iface(value'), Child(x'), Child(body')]) ==
      And(CompareIface(ed, key, key'), And(CompareIface(ed, value, value'), And(Compare(ed, x, x'), Compare(ed, body, body'))))
  {
    Slots4(ed, RangeStmtKind, 0, Iface(key), Iface(value), Child(x), Child(body), Iface(key'), Iface(value'), Child(x'), Child(body'));
    IfaceSlot(ed, RangeStmtKind, 0, key, key');
    IfaceSlot(ed, RangeStmtKind, 1, value, value');
    ChildSlot(ed, RangeStmtKind, 2, x, x');
    ChildSlot(ed, RangeStmtKind, 3, body, body');
  }

  /** A range statement compares its token, then key, value, operand and body. */
  lemma RangeStmtCase(ed: Edition, forPos: int, key: Option<Node>, value: Option<Node>, tokPos: int, tok: Token, x: Node, body: Node,
                   forPos': int, key': Option<Node>, value': Option<Node>, tokPos': int, tok': Token, x': Node, body': Node)
    ensures Compare(ed, RangeStmt(forPos, key, value, tokPos, tok, x, body), RangeStmt(forPos', key', value', tokPos', tok', x', body')) ==
      if RangeStmt(forPos, key, value, tokPos, tok, x, body) == RangeStmt(forPos', key', value', tokPos', tok', x', body') then Same else
      if tok == tok' then And(CompareIface(ed, key, key'), And(CompareIface(ed, value, value'), And(Compare(ed, x, x'), Compare(ed, body, body')))) else Differ
  {
    var l, r := RangeStmt(forPos, key, value, tokPos, tok, x, body), RangeStmt(forPos', key', value', tokPos', tok', x', body');
    if l != r {
      Distinct(ed, l, r);
      RangeStmtSlots(ed, key, value, x, body, key', value', x', body');
    }
  }

  lemma ImportSpecSlots(ed: Edition, name: Option<Node>, path: Node,
                   name': Option<Node>, path': Node)
    ensures CompareSlots(ed, ImportSpecKind, 0, [Ptr(name), Child(path)], [Ptr(name'), Child(path')]) ==
      And(ComparePtr(ed, name, name'), Compare(ed, path, path'))
  {
    Slots2(ed, ImportSpecKind, 0, Ptr(name), Child(path), Ptr(name'), Child(path'));
    PtrSlot(ed, ImportSpecKind, 0, name, name');
    ChildSlot(ed, ImportSpecKind, 1, path, path');
  }

  /** An import compares its name, then its path. */
  lemma ImportSpecCase(ed: Edition, name: Option<Node>, path: Node, endPos: int,
                   name': Option<Node>, path': Node, endPos': int)
    ensures Compare(ed, ImportSpec(name, path, endPos), ImportSpec(name', path', endPos')) ==
      if ImportSpec(name, path, endPos) == ImportSpec(name', path', endPos') then Same else
      And(ComparePtr(ed, name, name'), Compare(ed, path, path'))
  {
    var l, r := ImportSpec(name, path, endPos), ImportSpec(name', path', endPos');
    if l != r {
      Distinct(ed, l, r);
      ImportSpecSlots(ed, name, path, name', path');
    }
  }

  lemma ValueSpecSlots(ed: Edition, names: Slice, typ: Option<Node>, values: Slice,
                   names': Slice, typ': Option<Node>, values': Slice)
    ensures CompareSlots(ed, ValueSpecKind, 0, [List(names), List(values), Iface(typ)], [List(names'), List(values'), Iface(typ')]) ==
      And(CompareSlices(ed, names, names'), And(CompareSlices(ed, values, values'), CompareIface(ed, typ, typ')))
  {
    Slots3(ed, ValueSpecKind, 0, List(names), List(values), Iface(typ), List(names'), List(values'), Iface(typ'));
    ListSlot(ed, ValueSpecKind, 0, names, names');
    ListSlot(ed, ValueSpecKind, 1, values, values');
    IfaceSlot(ed, ValueSpecKind, 2, typ, typ');
  }

  /** A value spec compares its names, its values, then its type. */
  lemma ValueSpecCase(ed: Edition, names: Slice, typ: Option<Node>, values: Slice,
                   names': Slice, typ': Option<Node>, values': Slice)
    ensures Compare(ed, ValueSpec(names, typ, values), ValueSpec(names', typ', values')) ==
      if ValueSpec(names, typ, values) == ValueSpec(names', typ', values') then Same else
      And(CompareSlices(ed, names, names'), And(CompareSlices(ed, values, values'), CompareIface(ed, typ, typ')))
  {
    var l, r := ValueSpec(names, typ, values), ValueSpec(names', typ', values');
    if l != r {
      Distinct(ed, l, r);
      ValueSpecSlots(ed, names, typ, values, names', typ', values');
    }
  }

  lemma TypeSpecSlots(ed: Edition, name: Node, typ: Node,
                   name': Node, typ': Node)
    ensures CompareSlots(ed, TypeSpecKind, 0, [Child(name), Child(typ)], [Child(name'), Child(typ')]) ==
      And(Compare(ed, name, name'), Compare(ed, typ, typ'))
  {
    Slots2(ed, TypeSpecKind, 0, Child(name), Child(typ), Child(name'), Child(typ'));
    ChildSlot(ed, TypeSpecKind, 0, name, name');
    ChildSlot(ed, TypeSpecKind, 1, typ, typ');
  }

  /** A type spec compares its name, then its type. */
  lemma TypeSpecCase(ed: Edition, name: Node, assign: int, typ: Node,
                   name': Node, assign': int, typ': Node)
    ensures Compare(ed, TypeSpec(name, assign, typ), TypeSpec(name', assign', typ')) ==
      if TypeSpec(name, assign, typ) == TypeSpec(name', assign', typ') then Same else
      And(Compare(ed, name, name'), Compare(ed, typ, typ'))
  {
    var l, r := TypeSpec(name, assign, typ), TypeSpec(name', assign', typ');
    if l != r {
      Distinct(ed, l, r);
      TypeSpecSlots(ed, name, typ, name', typ');
    }
  }

  lemma GenDeclSlots(ed: Edition, specs: Slice,
                   specs': Slice)
    ensures CompareSlots(ed, GenDeclKind, 0, [List(specs)], [List(specs')]) ==
      CompareSlices(ed, specs, specs')
  {
    Slots1(ed, GenDeclKind, 0, List(specs), List(specs'));
    ListSlot(ed, GenDeclKind, 0, specs, specs');
  }

  /** A general declaration compares its token, then its specs. */
  lemma GenDeclCase(ed: Edition, tokPos: int, tok: Token, lparen: int, specs: Slice, rparen: int,
                   tokPos': int, tok': Token, lparen': int, specs': Slice, rparen': int)
    ensures Compare(ed, GenDecl(tokPos, tok, lparen, specs, rparen), GenDecl(tokPos', tok', lparen', specs', rparen')) ==
      if GenDecl(tokPos, tok, lparen, specs, rparen) == GenDecl(tokPos', tok', lparen', specs', rparen') then Same else
      if tok == tok' then CompareSlices(ed, specs, specs') else Differ
  {
    var l, r := GenDecl(tokPos, tok, lparen, specs, rparen), GenDecl(tokPos', tok', lparen', specs', rparen');
    if l != r {
      Distinct(ed, l, r);
      GenDeclSlots(ed, specs, specs');
    }
  }

  lemma SpecListSlots(ed: Edition, items: Slice,
                   items': Slice)
    ensures CompareSlots(ed, SpecListKind, 0, [List(items)], [List(items')]) ==
      CompareSlices(ed, items, items')
  {
    Slots1(ed, SpecListKind, 0, List(items), List(items'));
    ListSlot(ed, SpecListKind, 0, items, items');
  }

  /** A list of specs compares as a slice. */
  lemma SpecListCase(ed: Edition, items: Slice,
                   items': Slice)
    ensures Compare(ed, SpecList(items), SpecList(items')) ==
      if SpecList(items) == SpecList(items') then Same else
      CompareSlices(ed, items, items')
  {
    var l, r := SpecList(items), SpecList(items');
    if l != r {
      Distinct(ed, l, r);
      SpecListSlots(ed, items, items');
    }
  }

  lemma FuncDeclSlots(ed: Edition, recv: Option<Node>, name: Node, typ: Node, body: Option<Node>,
                   recv': Option<Node>, name': Node, typ': Node, body': Option<Node>)
    ensures CompareSlots(ed, FuncDeclKind, 0, [Child(name), Ptr(recv), Child(typ), Ptr(body)], [Child(name'), Ptr(recv'), Child(typ'), Ptr(body')]) ==
      And(Compare(ed, name, name'), And(ComparePtr(ed, recv, recv'), And(Compare(ed, typ, typ'), ComparePtr(ed, body, body'))))
  {
    Slots4(ed, FuncDeclKind, 0, Child(name), Ptr(recv), Child(typ), Ptr(body), Child(name'), Ptr(recv'), Child(typ'), Ptr(body'));
    ChildSlot(ed, FuncDeclKind, 0, name, name');
    PtrSlot(ed, FuncDeclKind, 1, recv, recv');
    ChildSlot(ed, FuncDeclKind, 2, typ, typ');
    PtrSlot(ed, FuncDeclKind, 3, body, body');
  }

  /** A function declaration compares its name, receiver, type and body, in that order. */
  lemma FuncDeclCase(ed: Edition, recv: Option<Node>, name: Node, typ: Node, body: Option<Node>,
                   recv': Option<Node>, name': Node, typ': Node, body': Option<Node>)
    ensures Compare(ed, FuncDecl(recv, name, typ, body), FuncDecl(recv', name', typ', body')) ==
      if FuncDecl(recv, name, typ, body) == FuncDecl(recv', name', typ', body') then Same else
      And(Compare(ed, name, name'), And(ComparePtr(ed, recv, recv'), And(Compare(ed, typ, typ'), ComparePtr(ed, body, body'))))
  {
    var l, r := FuncDecl(recv, name, typ, body), FuncDecl(recv', name', typ', body');
    if l != r {
      Distinct(ed, l, r);
      FuncDeclSlots(ed, recv, name, typ, body, recv', name', typ', body');
    }
  }

  lemma FileSlots(ed: Edition, name: Node, decls: Slice,
                   name': Node, decls': Slice)
    ensures CompareSlots(ed, FileKind, 0, [Child(name), List(decls)], [Child(name'), List(decls')]) ==
      And(Compare(ed, name, name'), CompareSlices(ed, decls, decls'))
  {
    Slots2(ed, FileKind, 0, Child(name), List(decls), Child(name'), List(decls'));
    ChildSlot(ed, FileKind, 0, name, name');
    ListSlot(ed, FileKind, 1, decls, decls');
  }

  /** A file compares its package name, then its declarations. */
  lemma FileCase(ed: Edition, packagePos: int, name: Node, decls: Slice,
                   packagePos': int, name': Node, decls': Slice)
    ensures Compare(ed, File(packagePos, name, decls), File(packagePos', name', decls')) ==
      if File(packagePos, name, decls) == File(packagePos', name', decls') then Same else
      And(Compare(ed, name, name'), CompareSlices(ed, decls, decls'))
  {
    var l, r := File(packagePos, name, decls), File(packagePos', name', decls');
    if l != r {
      Distinct(ed, l, r);
      FileSlots(ed, name, decls, name', decls');
    }
  }

  lemma DeclListSlots(ed: Edition, items: Slice,
                   items': Slice)
    ensures CompareSlots(ed, DeclListKind, 0, [List(items)], [List(items')]) ==
      CompareSlices(ed, items, items')
  {
    Slots1(ed, DeclListKind, 0, List(items), List(items'));
    ListSlot(ed, DeclListKind, 0, items, items');
  }

  /** A list of declarations compares as a slice. */
  lemma DeclListCase(ed: Edition, items: Slice,
                   items': Slice)
    ensures Compare(ed, DeclList(items), DeclList(items')) ==
      if DeclList(items) == DeclList(items') then Same else
      CompareSlices(ed, items, items')
  {
    var l, r := DeclList(items), DeclList(items');
    if l != r {
      Distinct(ed, l, r);
      DeclListSlots(ed, items, items');
    }
  }

  lemma CommClauseSlots(ed: Edition, comm: Option<Node>, body: Slice,
                   comm': Option<Node>, body': Slice)
    ensures CompareSlots(ed, CommClauseKind, 0, [Iface(comm), List(body)], [Iface(comm'), List(body')]) ==
      And(CompareIface(ed, comm, comm'), if ed == AsWritten then Panic else CompareSlices(ed, body, body'))
  {
    Slots2(ed, CommClauseKind, 0, Iface(comm), List(body), Iface(comm'), List(body'));
    IfaceSlot(ed, CommClauseKind, 0, comm, comm');
    ListSlot(ed, CommClauseKind, 1, body, body');
  }

  /** A select case compares its communication, then its statements; as written, the statements are passed by value and meet in `==`, which panics on slices, so only the same node matches itself. */
  lemma CommClauseCase(ed: Edition, casePos: int, comm: Option<Node>, colon: int, body: Slice,
                   casePos': int, comm': Option<Node>, colon': int, body': Slice)
    ensures Compare(ed, CommClause(casePos, comm, colon, body), CommClause(casePos', comm', colon', body')) ==
      if CommClause(casePos, comm, colon, body) == CommClause(casePos', comm', colon', body') then Same else
      And(CompareIface(ed, comm, comm'), if ed == AsWritten then Panic else CompareSlices(ed, body, body'))
  {
    var l, r := CommClause(casePos, comm, colon, body), CommClause(casePos', comm', colon', body');
    if l != r {
      Distinct(ed, l, r);
      CommClauseSlots(ed, comm, body, comm', body');
    }
  }
}
