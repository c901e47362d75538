/** The token stream the DL parser consumes and the error messages it
    records. */
module Tokens {
  import opened Basics
  import opened Numbers

  /** The punctuation token types of the DL lexer kernel. */
  datatype Punct =
    | LBrace | RBrace | LParen | RParen | LBrack | RBrack
    | Semicolon | Colon | Comma | Period | Minus

  /** One lexeme. A string token carries its text with escapes already
      resolved; a number token carries the magnitude the lexeme parses
      to (a leading '-' is a separate Minus token). */
  datatype Token =
    | Ident(id: string)
    | Str(text: string)
    | Number(n: Num)
    | Sym(p: Punct)

  /** A character an identifier may start with. */
  predicate IdentStart(c: char)
  {
    'a' <= c <= 'z' || 'A' <= c <= 'Z' || c == '_'
  }

  /** A character an identifier may continue with. */
  predicate IdentPart(c: char)
  {
    IdentStart(c) || '0' <= c <= '9'
  }

  /** A name the lexer reads as one identifier token: it starts with a
      letter or '_' and holds only letters, digits and '_', so no
      delimiter, quote, comment start or white space splits it and it
      cannot be read as a number. */
  predicate Word(s: string)
  {
    |s| > 0 && IdentStart(s[0]) && forall i {:trigger IdentPart(s[i])} :: 1 <= i < |s| ==> IdentPart(s[i])
  }

  /** getTypeErrorText: the quoted text of a punctuation type; the switch
      has no case for '.' and '-', which give "". */
  function TypeErrorText(p: Punct): string
  {
    match p
    case LParen => "'('"
    case RParen => "')'"
    case LBrace => "'{'"
    case RBrace => "'}'"
    case LBrack => "'['"
    case RBrack => "']'"
    case Semicolon => "';'"
    case Colon => "':'"
    case Comma => "','"
    case Period => ""
    case Minus => ""
  }

  /** The messages the parser records. */
  datatype Msg =
    | ExpectedIdentifier
    | ExpectedArchetypeField
    | ExpectedValue
    | ExpectedString
    | ExpectedNumber
    | UndeclaredArchetype(name: string)
    | TooManyValues(name: string, count: int)
    | InheritTargetMissing(typeName: string, valueText: string)
    | ExpectedValidStructure
    /** A strict match or a type error naming the token types accepted. */
    | UnexpectedToken(accepted: seq<Punct>)

  function MsgText(m: Msg): string
  {
    match m
    case ExpectedIdentifier => "Expected identifier."
    case ExpectedArchetypeField => "Expected archetype field declaration."
    case ExpectedValue => "Expected value in value list."
    case ExpectedString => "Expected string in string array."
    case ExpectedNumber => "Expected numerical value."
    case UndeclaredArchetype(n) => "Archetype '" + n + "' was not declared."
    case TooManyValues(n, c) =>
      "Archetype '" + n + "' requires " + IntText(c)
      + " values (or less) to complete statement. Too many values provided."
    case InheritTargetMissing(t, v) =>
      "The struct that this struct is supposed to inherit data from, " + t + " " + v + ", can't be found."
    case ExpectedValidStructure => "Expected valid structure."
    case UnexpectedToken(ps) => Join(seq(|ps|, i requires 0 <= i < |ps| => TypeErrorText(ps[i])), ", ")
  }

  /** The text of the DLParseException thrown by read(): the messages in
      order, separated by '\n'. */
  function ErrorText(ms: seq<Msg>): string
  {
    Join(seq(|ms|, i requires 0 <= i < |ms| => MsgText(ms[i])), "\n")
  }
}
