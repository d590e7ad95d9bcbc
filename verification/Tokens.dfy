/** Tokens as the lexer hands them to the pre-compiler (src/botlib/l_script.h). */
module Tokens {

  datatype TokenType = TT_STRING | TT_LITERAL | TT_NUMBER | TT_NAME | TT_PUNCTUATION

  /** `whitespace` says whether white space stood in front of the token,
      `linescrossed` how many line ends that white space held. */
  datatype Token = Token(
    str: string,
    typ: TokenType,
    subtype: int,
    intvalue: int,
    floatvalue: real,
    linescrossed: nat,
    whitespace: bool)

  // Number subtypes
  const TT_DECIMAL := 0x0008
  const TT_HEX := 0x0100
  const TT_OCTAL := 0x0200
  const TT_BINARY := 0x0400
  const TT_FLOAT := 0x0800
  const TT_INTEGER := 0x1000
  const TT_LONG := 0x2000
  const TT_UNSIGNED := 0x4000

  const MAX_TOKEN := 1024

  // Punctuation subtypes
  const P_LOGIC_AND := 5
  const P_LOGIC_OR := 6
  const P_LOGIC_GEQ := 7
  const P_LOGIC_LEQ := 8
  const P_LOGIC_EQ := 9
  const P_LOGIC_UNEQ := 10
  const P_INC := 16
  const P_DEC := 17
  const P_RSHIFT := 21
  const P_LSHIFT := 22
  const P_MUL := 26
  const P_DIV := 27
  const P_MOD := 28
  const P_ADD := 29
  const P_SUB := 30
  const P_BIN_AND := 32
  const P_BIN_OR := 33
  const P_BIN_XOR := 34
  const P_BIN_NOT := 35
  const P_LOGIC_NOT := 36
  const P_LOGIC_GREATER := 37
  const P_LOGIC_LESS := 38
  const P_COLON := 42
  const P_QUESTIONMARK := 43
  const P_PARENTHESESOPEN := 44
  const P_PARENTHESESCLOSE := 45

  function Punctuation(str: string, subtype: int): Token {
    Token(str, TT_PUNCTUATION, subtype, 0, 0.0, 0, false)
  }

  function Open(): Token { Punctuation("(", P_PARENTHESESOPEN) }
  function Close(): Token { Punctuation(")", P_PARENTHESESCLOSE) }
}
