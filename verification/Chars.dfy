// Character classes.  Text is a sequence of bytes without a zero byte.
module Chars {

  const NUL: char := '\0'

  // sqlite3IsIdChar(): letters, digits, underscore, dollar and everything beyond ASCII.
  predicate IsIdChar(c: char) {
    || 'a' <= c <= 'z' || 'A' <= c <= 'Z' || '0' <= c <= '9' || c == '_' || c == '$'
    || c >= '\U{0080}'
  }

  // The character at i, or the terminator.
  function CharAt(s: string, i: nat): char {
    if i < |s| then s[i] else NUL
  }

  // sqlite3UpperToLower[]
  function LowerChar(c: char): char {
    if 'A' <= c <= 'Z' then (c as int + 32) as char else c
  }
}
