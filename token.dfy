/**
 * The lexical tokens of Go as the go/token package declares them: `Token` is
 * an integer, each value has a printed form, and the constants follow the
 * package's declaration order from ILLEGAL to the end-of-keywords marker.
 */
module GoToken {

  /** A go/token `Token`: an integer in the range the package declares. */
  newtype Token = x: int | 0 <= x < 87

  const ILLEGAL: Token := 0
  const EOF: Token := 1
  const COMMENT: Token := 2
  const literal_beg: Token := 3
  const IDENT: Token := 4
  const INT: Token := 5
  const FLOAT: Token := 6
  const IMAG: Token := 7
  const CHAR: Token := 8
  const STRING: Token := 9
  const literal_end: Token := 10
  const operator_beg: Token := 11
  const ADD: Token := 12
  const SUB: Token := 13
  const MUL: Token := 14
  const QUO: Token := 15
  const REM: Token := 16
  const AND: Token := 17
  const OR: Token := 18
  const XOR: Token := 19
  const SHL: Token := 20
  const SHR: Token := 21
  const AND_NOT: Token := 22
  const ADD_ASSIGN: Token := 23
  const SUB_ASSIGN: Token := 24
  const MUL_ASSIGN: Token := 25
  const QUO_ASSIGN: Token := 26
  const REM_ASSIGN: Token := 27
  const AND_ASSIGN: Token := 28
  const OR_ASSIGN: Token := 29
  const XOR_ASSIGN: Token := 30
  const SHL_ASSIGN: Token := 31
  const SHR_ASSIGN: Token := 32
  const AND_NOT_ASSIGN: Token := 33
  const LAND: Token := 34
  const LOR: Token := 35
  const ARROW: Token := 36
  const INC: Token := 37
  const DEC: Token := 38
  const EQL: Token := 39
  const LSS: Token := 40
  const GTR: Token := 41
  const ASSIGN: Token := 42
  const NOT: Token := 43
  const NEQ: Token := 44
  const LEQ: Token := 45
  const GEQ: Token := 46
  const DEFINE: Token := 47
  const ELLIPSIS: Token := 48
  const LPAREN: Token := 49
  const LBRACK: Token := 50
  const LBRACE: Token := 51
  const COMMA: Token := 52
  const PERIOD: Token := 53
  const RPAREN: Token := 54
  const RBRACK: Token := 55
  const RBRACE: Token := 56
  const SEMICOLON: Token := 57
  const COLON: Token := 58
  const operator_end: Token := 59
  const keyword_beg: Token := 60
  const BREAK: Token := 61
  const CASE: Token := 62
  const CHAN: Token := 63
  const CONST: Token := 64
  const CONTINUE: Token := 65
  const DEFAULT: Token := 66
  const DEFER: Token := 67
  const ELSE: Token := 68
  const FALLTHROUGH: Token := 69
  const FOR: Token := 70
  const FUNC: Token := 71
  const GO: Token := 72
  const GOTO: Token := 73
  const IF: Token := 74
  const IMPORT: Token := 75
  const INTERFACE: Token := 76
  const MAP: Token := 77
  const PACKAGE: Token := 78
  const RANGE: Token := 79
  const RETURN: Token := 80
  const SELECT: Token := 81
  const STRUCT: Token := 82
  const SWITCH: Token := 83
  const TYPE: Token := 84
  const VAR: Token := 85
  const keyword_end: Token := 86

  /**
   * What `Token.String()` returns: the operator or keyword text, the name of a
   * special or literal token, and "token(N)" for the four range markers,
   * whose entry in go/token's table of texts is empty.
   */
  function String(t: Token): string
  {
    match t
    case 0 => "ILLEGAL"
    case 1 => "EOF"
    case 2 => "COMMENT"
    case 3 => "token(3)"
    case 4 => "IDENT"
    case 5 => "INT"
    case 6 => "FLOAT"
    case 7 => "IMAG"
    case 8 => "CHAR"
    case 9 => "STRING"
    case 10 => "token(10)"
    case 11 => "token(11)"
    case 12 => "+"
    case 13 => "-"
    case 14 => "*"
    case 15 => "/"
    case 16 => "%"
    case 17 => "&"
    case 18 => "|"
    case 19 => "^"
    case 20 => "<<"
    case 21 => ">>"
    case 22 => "&^"
    case 23 => "+="
    case 24 => "-="
    case 25 => "*="
    case 26 => "/="
    case 27 => "%="
    case 28 => "&="
    case 29 => "|="
    case 30 => "^="
    case 31 => "<<="
    case 32 => ">>="
    case 33 => "&^="
    case 34 => "&&"
    case 35 => "||"
    case 36 => "<-"
    case 37 => "++"
    case 38 => "--"
    case 39 => "=="
    case 40 => "<"
    case 41 => ">"
    case 42 => "="
    case 43 => "!"
    case 44 => "!="
    case 45 => "<="
    case 46 => ">="
    case 47 => ":="
    case 48 => "..."
    case 49 => "("
    case 50 => "["
    case 51 => "{"
    case 52 => ","
    case 53 => "."
    case 54 => ")"
    case 55 => "]"
    case 56 => "}"
    case 57 => ";"
    case 58 => ":"
    case 59 => "token(59)"
    case 60 => "token(60)"
    case 61 => "break"
    case 62 => "case"
    case 63 => "chan"
    case 64 => "const"
    case 65 => "continue"
    case 66 => "default"
    case 67 => "defer"
    case 68 => "else"
    case 69 => "fallthrough"
    case 70 => "for"
    case 71 => "func"
    case 72 => "go"
    case 73 => "goto"
    case 74 => "if"
    case 75 => "import"
    case 76 => "interface"
    case 77 => "map"
    case 78 => "package"
    case 79 => "range"
    case 80 => "return"
    case 81 => "select"
    case 82 => "struct"
    case 83 => "switch"
    case 84 => "type"
    case 85 => "var"
    case _ => "token(86)"
  }

  /** No two tokens print alike; the pairs are checked block by block. */
  lemma StringInjective(a: Token, b: Token)
    requires String(a) == String(b)
    ensures a == b
  {
    if a < b {
      Distinct(a, b);
    } else if b < a {
      Distinct(b, a);
    }
  }

  lemma Distinct(a: Token, b: Token)
    requires a < b
    ensures String(a) != String(b)
  {
    if a <= 14 && 0 <= b <= 14 {
      Distinct00(a, b);
    } else if a <= 14 && 15 <= b <= 29 {
      Distinct01(a, b);
    } else if a <= 14 && 30 <= b <= 44 {
      Distinct02(a, b);
    } else if a <= 14 && 45 <= b <= 59 {
      Distinct03(a, b);
    } else if a <= 14 && 60 <= b <= 74 {
      Distinct04(a, b);
    } else if a <= 14 && 75 <= b <= 86 {
      Distinct05(a, b);
    } else if a <= 29 && 15 <= b <= 29 {
      Distinct11(a, b);
    } else if a <= 29 && 30 <= b <= 44 {
      Distinct12(a, b);
    } else if a <= 29 && 45 <= b <= 59 {
      Distinct13(a, b);
    } else if a <= 29 && 60 <= b <= 74 {
      Distinct14(a, b);
    } else if a <= 29 && 75 <= b <= 86 {
      Distinct15(a, b);
    } else if a <= 44 && 30 <= b <= 44 {
      Distinct22(a, b);
    } else if a <= 44 && 45 <= b <= 59 {
      Distinct23(a, b);
    } else if a <= 44 && 60 <= b <= 74 {
      Distinct24(a, b);
    } else if a <= 44 && 75 <= b <= 86 {
      Distinct25(a, b);
    } else if a <= 59 && 45 <= b <= 59 {
      Distinct33(a, b);
    } else if a <= 59 && 60 <= b <= 74 {
      Distinct34(a, b);
    } else if a <= 59 && 75 <= b <= 86 {
      Distinct35(a, b);
    } else if a <= 74 && 60 <= b <= 74 {
      Distinct44(a, b);
    } else if a <= 74 && 75 <= b <= 86 {
      Distinct45(a, b);
    } else if a <= 86 && 75 <= b <= 86 {
      Distinct55(a, b);
    }
  }

  lemma Distinct00(a: Token, b: Token)
    requires 0 <= a <= 14 && 0 <= b <= 14 && a < b
    ensures String(a) != String(b)
  {
  }

  lemma Distinct01(a: Token, b: Token)
    requires 0 <= a <= 14 && 15 <= b <= 29 && a < b
    ensures String(a) != String(b)
  {
  }

  lemma Distinct02(a: Token, b: Token)
    requires 0 <= a <= 14 && 30 <= b <= 44 && a < b
    ensures String(a) != String(b)
  {
  }

  lemma Distinct03(a: Token, b: Token)
    requires 0 <= a <= 14 && 45 <= b <= 59 && a < b
    ensures String(a) != String(b)
  {
  }

  lemma Distinct04(a: Token, b: Token)
    requires 0 <= a <= 14 && 60 <= b <= 74 && a < b
    ensures String(a) != String(b)
  {
  }

  lemma Distinct05(a: Token, b: Token)
    requires 0 <= a <= 14 && 75 <= b <= 86 && a < b
    ensures String(a) != String(b)
  {
  }

  lemma Distinct11(a: Token, b: Token)
    requires 15 <= a <= 29 && 15 <= b <= 29 && a < b
    ensures String(a) != String(b)
  {
  }

  lemma Distinct12(a: Token, b: Token)
    requires 15 <= a <= 29 && 30 <= b <= 44 && a < b
    ensures String(a) != String(b)
  {
  }

  lemma Distinct13(a: Token, b: Token)
    requires 15 <= a <= 29 && 45 <= b <= 59 && a < b
    ensures String(a) != String(b)
  {
  }

  lemma Distinct14(a: Token, b: Token)
    requires 15 <= a <= 29 && 60 <= b <= 74 && a < b
    ensures String(a) != String(b)
  {
  }

  lemma Distinct15(a: Token, b: Token)
    requires 15 <= a <= 29 && 75 <= b <= 86 && a < b
    ensures String(a) != String(b)
  {
  }

  lemma Distinct22(a: Token, b: Token)
    requires 30 <= a <= 44 && 30 <= b <= 44 && a < b
    ensures String(a) != String(b)
  {
  }

  lemma Distinct23(a: Token, b: Token)
    requires 30 <= a <= 44 && 45 <= b <= 59 && a < b
    ensures String(a) != String(b)
  {
  }

  lemma Distinct24(a: Token, b: Token)
    requires 30 <= a <= 44 && 60 <= b <= 74 && a < b
    ensures String(a) != String(b)
  {
  }

  lemma Distinct25(a: Token, b: Token)
    requires 30 <= a <= 44 && 75 <= b <= 86 && a < b
    ensures String(a) != String(b)
  {
  }

  lemma Distinct33(a: Token, b: Token)
    requires 45 <= a <= 59 && 45 <= b <= 59 && a < b
    ensures String(a) != String(b)
  {
  }

  lemma Distinct34(a: Token, b: Token)
    requires 45 <= a <= 59 && 60 <= b <= 74 && a < b
    ensures String(a) != String(b)
  {
  }

  lemma Distinct35(a: Token, b: Token)
    requires 45 <= a <= 59 && 75 <= b <= 86 && a < b
    ensures String(a) != String(b)
  {
  }

  lemma Distinct44(a: Token, b: Token)
    requires 60 <= a <= 74 && 60 <= b <= 74 && a < b
    ensures String(a) != String(b)
  {
  }

  lemma Distinct45(a: Token, b: Token)
    requires 60 <= a <= 74 && 75 <= b <= 86 && a < b
    ensures String(a) != String(b)
  {
  }

  lemma Distinct55(a: Token, b: Token)
    requires 75 <= a <= 86 && 75 <= b <= 86 && a < b
    ensures String(a) != String(b)
  {
  }

  /**
   * The scan `for kk := ILLEGAL; kk <= VAR; kk++ { if kk.String() == op { tok = kk } }`
   * stopped before `n`: the last token below `n` whose text is `op`, or
   * ILLEGAL when there is none.
   */
  function LastMatch(text: Token -> string, n: nat, op: string): (r: Token)
    requires n <= VAR as nat + 1
    ensures r == ILLEGAL || (r as nat < n && text(r) == op)
    ensures forall j: Token | r < j && j as nat < n :: text(j) != op
  {
    if n == 0 then ILLEGAL
    else if text((n - 1) as Token) == op then (n - 1) as Token
    else LastMatch(text, n - 1, op)
  }

  /** The token whose printed form is `op`, found by scanning ILLEGAL..VAR. */
  function Lookup(op: string): Token
  {
    LastMatch(String, VAR as nat + 1, op)
  }

  /** Looking up the text of any token up to VAR gives that token back. */
  lemma LookupString(t: Token)
    requires t <= VAR
    ensures Lookup(String(t)) == t
  {
    var r := Lookup(String(t));
    assert String(t) == String(t);
    if r != ILLEGAL {
      StringInjective(r, t);
    }
  }

  /** A text that no token up to VAR prints as is looked up as ILLEGAL. */
  lemma LookupUnknown(op: string)
    requires forall t: Token | t <= VAR :: String(t) != op
    ensures Lookup(op) == ILLEGAL
  {
  }

  /** Whatever the lookup finds prints as `op`, unless it is ILLEGAL. */
  lemma LookupFinds(op: string)
    ensures Lookup(op) == ILLEGAL || String(Lookup(op)) == op
  {
  }
}
