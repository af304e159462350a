/**
  The two character classes the service's URL pattern relies on, listed
  explicitly as ECMAScript defines them: `\s` (WhiteSpace plus LineTerminator)
  and the line terminators that `.` refuses to match.
 */
module CharClasses {

  /** ECMAScript LineTerminator: LF, CR, LINE SEPARATOR, PARAGRAPH SEPARATOR. */
  predicate IsLineTerm(c: char) {
    c == '\n' || c == '\r' || c == '\U{2028}' || c == '\U{2029}'
  }

  /** ECMAScript WhiteSpace: TAB, VT, FF, ZWNBSP and the Unicode "Zs" space separators. */
  predicate IsWhiteSpace(c: char) {
    || c == '\t' || c == '\U{000B}' || c == '\U{000C}' || c == ' '
    || c == '\U{00A0}' || c == '\U{1680}'
    || ('\U{2000}' <= c <= '\U{200A}')
    || c == '\U{202F}' || c == '\U{205F}' || c == '\U{3000}' || c == '\U{FEFF}'
  }

  /** The regular-expression class `\s`. */
  predicate IsWs(c: char) {
    IsWhiteSpace(c) || IsLineTerm(c)
  }
}
