/**
  Character classes of the JavaScript regular expression that recognises a
  method signature, and of `String.prototype.trim`.
 */
module Chars {

  /** JavaScript's `\s`: the white-space characters (tab, vertical tab, form feed,
      space, no-break space, byte order mark and the other Unicode space separators)
      together with the line terminators. `String.prototype.trim` strips the same set. */
  predicate IsSpace(c: char) {
    || c == '\t' || c == '\n' || c == '\U{000B}' || c == '\U{000C}' || c == '\r'
    || c == ' ' || c == '\U{00A0}' || c == '\U{1680}'
    || ('\U{2000}' <= c <= '\U{200A}')
    || c == '\U{2028}' || c == '\U{2029}' || c == '\U{202F}' || c == '\U{205F}'
    || c == '\U{3000}' || c == '\U{FEFF}'
  }

  /** `[a-zA-Z_]`: the first character of an identifier. */
  predicate IsIdStart(c: char) {
    ('a' <= c <= 'z') || ('A' <= c <= 'Z') || c == '_'
  }

  /** `[a-zA-Z0-9_]`: any later character of an identifier. */
  predicate IsIdChar(c: char) {
    IsIdStart(c) || ('0' <= c <= '9')
  }

  /** `[a-zA-Z_][a-zA-Z0-9_]*` matches the whole of `s`. */
  predicate IsIdentifier(s: string) {
    && |s| > 0
    && IsIdStart(s[0])
    && forall i :: 1 <= i < |s| ==> IsIdChar(s[i])
  }

  /** Every character of `s` is white space (so `\s*` matches the whole of `s`). */
  predicate AllSpaces(s: string) {
    forall i :: 0 <= i < |s| ==> IsSpace(s[i])
  }

  predicate IsDigit(c: char) {
    '0' <= c <= '9'
  }

  /** A character outside `[a-zA-Z0-9_]` never occurs in an identifier. */
  lemma NotInIdentifier(s: string, c: char)
    requires IsIdentifier(s) && !IsIdChar(c)
    ensures c !in s && multiset(s)[c] == 0
  {
    assert IsIdChar(s[0]);
    assert forall i :: 0 <= i < |s| ==> IsIdChar(s[i]);
  }
}
