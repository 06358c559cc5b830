/** Character classes and string helpers shared by the escaping, classification,
    import and index-cache modules. Every character stands for one byte. */
module Chars {

  /** The set PCRE's `\s` matches without the Unicode flag:
      space, tab, line feed, vertical tab, form feed, carriage return. */
  predicate IsSpace(c: char)
  {
    c == ' ' || c == '\t' || c == '\n' || c == '\U{0B}' || c == '\U{0C}' || c == '\r'
  }

  /** The set PHP's `trim()` strips by default:
      space, tab, line feed, carriage return, NUL, vertical tab. */
  predicate IsTrimmed(c: char)
  {
    c == ' ' || c == '\t' || c == '\n' || c == '\r' || c == '\0' || c == '\U{0B}'
  }

  /** Drops leading `trim()` characters. */
  function TrimLeft(s: string): string
  {
    if |s| > 0 && IsTrimmed(s[0]) then TrimLeft(s[1..]) else s
  }

  /** Drops trailing `trim()` characters. */
  function TrimRight(s: string): string
  {
    if |s| > 0 && IsTrimmed(s[|s| - 1]) then TrimRight(s[..|s| - 1]) else s
  }

  /** PHP's `trim()` with its default character list. */
  function Trim(s: string): string
  {
    TrimRight(TrimLeft(s))
  }

  /** `TrimLeft` removes the longest prefix of `trim()` characters and nothing else. */
  lemma {:induction false} TrimLeftShape(s: string)
    ensures var r := TrimLeft(s);
      && |r| <= |s| && r == s[|s| - |r|..]
      && (|r| > 0 ==> !IsTrimmed(r[0]))
      && (forall i :: 0 <= i < |s| - |r| ==> IsTrimmed(s[i]))
  {
    if |s| > 0 && IsTrimmed(s[0]) {
      TrimLeftShape(s[1..]);
    }
  }

  /** `TrimRight` removes the longest suffix of `trim()` characters and nothing else. */
  lemma {:induction false} TrimRightShape(s: string)
    ensures var r := TrimRight(s);
      && |r| <= |s| && r == s[..|r|]
      && (|r| > 0 ==> !IsTrimmed(r[|r| - 1]))
      && (forall i :: |r| <= i < |s| ==> IsTrimmed(s[i]))
  {
    if |s| > 0 && IsTrimmed(s[|s| - 1]) {
      TrimRightShape(s[..|s| - 1]);
    }
  }

  /** ASCII lower-casing, as PCRE's `/i` flag compares letters without a locale. */
  function ToLower(c: char): char
  {
    if 'A' <= c <= 'Z' then (c as int + 32) as char else c
  }

  /** Case-insensitive equality of two strings of the same length. */
  predicate EqualsIgnoringCase(a: string, b: string)
  {
    |a| == |b| && forall i :: 0 <= i < |a| ==> ToLower(a[i]) == ToLower(b[i])
  }

  /** Drops the leading run that `^\s*` consumes. */
  function DropSpaces(s: string): (r: string)
    ensures |r| <= |s| && r == s[|s| - |r|..]
    ensures |r| > 0 ==> !IsSpace(r[0])
    ensures forall i :: 0 <= i < |s| - |r| ==> IsSpace(s[i])
  {
    if |s| > 0 && IsSpace(s[0]) then DropSpaces(s[1..]) else s
  }

  /** Concatenation of a sequence of strings. */
  function Concat(parts: seq<string>): string
  {
    if |parts| == 0 then "" else Concat(parts[..|parts| - 1]) + parts[|parts| - 1]
  }

  lemma ConcatAppend(parts: seq<string>, last: string)
    ensures Concat(parts + [last]) == Concat(parts) + last
  {
    assert (parts + [last])[..|parts|] == parts;
  }

  lemma {:induction false} ConcatPrepend(first: string, parts: seq<string>)
    ensures Concat([first] + parts) == first + Concat(parts)
    decreases |parts|
  {
    if |parts| == 0 {
      assert [first] + parts == [] + [first];
      ConcatAppend([], first);
    } else {
      var init, last := parts[..|parts| - 1], parts[|parts| - 1];
      assert parts == init + [last];
      assert [first] + parts == ([first] + init) + [last];
      ConcatAppend([first] + init, last);
      ConcatPrepend(first, init);
      ConcatAppend(init, last);
    }
  }
}
