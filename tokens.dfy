/** Token kinds and tokens, as produced by the lexer and consumed by the
    parser. */
module Tokens {
  import opened Results
  import opened Values

  datatype TokenType =
    // keywords
    | Let | If | Else | While | Print
    // identifiers and literals
    | Identifier | Number
    // operators
    | Plus | Minus | Star | Slash
    | Equal | EqualEqual | BangEqual
    | Less | LessEqual | Greater | GreaterEqual
    // punctuation
    | LeftParen | RightParen | LeftBrace | RightBrace | Semicolon
    // end-of-input sentinel
    | EOF

  /** A token: its kind, the source text it was scanned from, the integer
      value of a number literal (`null` in the original for every other kind)
      and the line it was found on. */
  datatype Token = Token(kind: TokenType, lexeme: string, literal: Option<Int32>, line: nat)

  predicate IsKeyword(k: TokenType)
  {
    k.Let? || k.If? || k.Else? || k.While? || k.Print?
  }

  /** The reserved-word table. */
  const Keywords: map<string, TokenType> :=
    map["let" := Let, "if" := If, "else" := Else, "while" := While, "print" := Print]

  /** The operator and punctuation table: every lexeme the lexer accepts
      that is not a number or a word. */
  const Symbols: map<string, TokenType> :=
    map["(" := LeftParen, ")" := RightParen, "{" := LeftBrace, "}" := RightBrace,
        "+" := Plus, "-" := Minus, "*" := Star, "/" := Slash, ";" := Semicolon,
        "=" := Equal, "==" := EqualEqual, "!=" := BangEqual,
        "<" := Less, "<=" := LessEqual, ">" := Greater, ">=" := GreaterEqual]

  /** The kind a word scans as: a keyword if the table has it, an identifier
      otherwise. */
  function WordKind(text: string): (k: TokenType)
    ensures IsKeyword(k) <==> text in {"let", "if", "else", "while", "print"}
    ensures !IsKeyword(k) ==> k == Identifier
    ensures IsKeyword(k) ==> Keywords[text] == k
  {
    if text in Keywords then Keywords[text] else Identifier
  }

  /** The reserved-word table maps exactly five words, and its kinds are
      exactly the five keyword kinds. */
  lemma KeywordTableIsOnto()
    ensures |Keywords| == 5
    ensures forall k :: IsKeyword(k) <==> k in Keywords.Values
  {
    assert Keywords.Keys == {"let", "if", "else", "while", "print"};
    assert Keywords.Values == {Let, If, Else, While, Print} by {
      assert Keywords["let"] == Let && Keywords["if"] == If && Keywords["else"] == Else;
      assert Keywords["while"] == While && Keywords["print"] == Print;
    }
  }

  /** The reserved-word table maps no two words to the same kind. */
  lemma KeywordTableIsOneToOne(w1: string, w2: string)
    requires w1 in Keywords && w2 in Keywords && Keywords[w1] == Keywords[w2]
    ensures w1 == w2
  {
    assert w1 in {"let", "if", "else", "while", "print"};
    assert w2 in {"let", "if", "else", "while", "print"};
  }

  /** No symbol is a lone `!`, and the one- and two-character forms of `=`,
      `<` and `>` are distinct kinds. */
  lemma SymbolForms()
    ensures "!" !in Symbols
    ensures Symbols["="] != Symbols["=="] && Symbols["<"] != Symbols["<="] && Symbols[">"] != Symbols[">="]
  {
  }

  /** Every symbol is one or two operator or punctuation characters long,
      and its kind is no keyword, word, number or end sentinel. */
  lemma SymbolShape(s: string)
    requires s in Symbols
    ensures 1 <= |s| <= 2
    ensures forall i | 0 <= i < |s| :: s[i] in "(){}+-*/;=!<>"
    ensures !IsKeyword(Symbols[s]) && Symbols[s] !in {EOF, Identifier, Number}
  {
    assert s in {"(", ")", "{", "}", "+", "-", "*", "/", ";", "=", "==", "!=", "<", "<=", ">", ">="};
  }

  /** The ten binary operator kinds are spelled by exactly the ten operator
      symbols of the table. */
  lemma OperatorSymbols(s: string)
    requires s in Symbols
    ensures Symbols[s] in {Plus, Minus, Star, Slash, EqualEqual, BangEqual, Less, LessEqual, Greater, GreaterEqual}
            <==> s in {"+", "-", "*", "/", "==", "!=", "<", "<=", ">", ">="}
  {
    assert s in {"(", ")", "{", "}", "+", "-", "*", "/", ";", "=", "==", "!=", "<", "<=", ">", ">="};
  }
}
