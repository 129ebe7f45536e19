/** Characters as the form's string operations see them.

    `IsWhitespace` is the set of code points that ECMAScript's `\s` class
    and `String.prototype.trim` both treat as white space (WhiteSpace plus
    LineTerminator). `ToLower` is the ASCII part of `toLowerCase`. */
module Chars {

  /** ECMAScript white space and line terminators. Every one of them is a
      single UTF-16 code unit and none is a letter; among ASCII characters
      they are exactly space, tab, line feed, vertical tab, form feed and
      carriage return. */
  function IsWhitespace(c: char): (b: bool)
    ensures b ==> c as int < 0x1_0000 && !('A' <= c <= 'Z') && !('a' <= c <= 'z')
    ensures c as int < 0x80 ==> (b <==> (c == ' ' || '\t' <= c <= '\r'))
  {
    || c == ' ' || c == '\t' || c == '\n' || c == '\r'
    || c == '\U{000B}' || c == '\U{000C}'
    || c == '\U{00A0}' || c == '\U{1680}'
    || ('\U{2000}' <= c <= '\U{200A}')
    || c == '\U{2028}' || c == '\U{2029}'
    || c == '\U{202F}' || c == '\U{205F}'
    || c == '\U{3000}' || c == '\U{FEFF}'
  }

  predicate IsUpper(c: char) {
    'A' <= c <= 'Z'
  }

  /** ASCII lower-casing: an upper-case letter becomes the same letter in
      lower case, every other character is left alone. */
  function ToLower(c: char): (r: char)
    ensures !IsUpper(r)
    ensures IsUpper(c) ==> 'a' <= r <= 'z' && r as int - 'a' as int == c as int - 'A' as int
    ensures !IsUpper(c) ==> r == c
    ensures IsWhitespace(r) <==> IsWhitespace(c)
  {
    if IsUpper(c) then (c as int - 'A' as int + 'a' as int) as char else c
  }
}
