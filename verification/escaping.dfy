/** The static escaping helpers of the manager: `escapeStr` and `escapeForLikeStr`.
    Both are a `strtr` with single-character keys, so each input character is
    rewritten on its own and the output is never rescanned. */
module Escaping {
  import opened Wrappers

  /** The six characters `escapeStr` rewrites: NUL, LF, CR, backslash, single and double quote. */
  predicate IsSqlSpecial(c: char)
  {
    c == '\0' || c == '\n' || c == '\r' || c == '\\' || c == '\'' || c == '"'
  }

  /** The two LIKE wildcards `escapeForLikeStr` rewrites in addition. */
  predicate IsWildcard(c: char)
  {
    c == '%' || c == '_'
  }

  /** The key set of the `strtr` table: `like` selects the `escapeForLikeStr` table. */
  predicate IsSpecial(c: char, like: bool)
  {
    IsSqlSpecial(c) || (like && IsWildcard(c))
  }

  /** The character written after the backslash for a special character. */
  function CodeOf(c: char): char
  {
    if c == '\0' then '0' else if c == '\n' then 'n' else if c == '\r' then 'r' else c
  }

  /** The table entry for one character. */
  function EscapeChar(c: char, like: bool): string
  {
    if IsSpecial(c, like) then ['\\', CodeOf(c)] else [c]
  }

  /** Number of characters of `s` that the table rewrites. */
  function CountSpecial(s: string, like: bool): nat
  {
    if |s| == 0 then 0 else (if IsSpecial(s[0], like) then 1 else 0) + CountSpecial(s[1..], like)
  }

  /** `strtr(s, table)` for a table whose keys are single characters. */
  function EscapeWith(s: string, like: bool): (r: string)
    ensures |r| == |s| + CountSpecial(s, like)
    ensures forall i :: 0 <= i < |r| ==> r[i] != '\0' && r[i] != '\n' && r[i] != '\r'
    ensures forall i :: 0 <= i < |r| && IsSpecial(r[i], like) && r[i] != '\\' ==> 0 < i && r[i - 1] == '\\'
  {
    if |s| == 0 then "" else EscapeChar(s[0], like) + EscapeWith(s[1..], like)
  }

  /** Inverse of `CodeOf` on the table's codes; `None` for a code the table never writes. */
  function DecodeCode(d: char, like: bool): Option<char>
  {
    if d == '0' then Some('\0')
    else if d == 'n' then Some('\n')
    else if d == 'r' then Some('\r')
    else if d == '\\' || d == '\'' || d == '"' then Some(d)
    else if like && IsWildcard(d) then Some(d)
    else None
  }

  /** Reads escaped text back: a backslash starts a two-character escape, any other
      character stands for itself, and a bare special character or an unknown or
      unfinished escape makes the text ill-formed. */
  function Unescape(t: string, like: bool): Option<string>
  {
    if |t| == 0 then Some("")
    else if t[0] == '\\' then
      if |t| == 1 then None
      else match DecodeCode(t[1], like)
        case None => None
        case Some(c) =>
          match Unescape(t[2..], like)
          case None => None
          case Some(rest) => Some([c] + rest)
    else if IsSpecial(t[0], like) then None
    else
      match Unescape(t[1..], like)
      case None => None
      case Some(rest) => Some([t[0]] + rest)
  }

  /** Reading back escaped text recovers the input. */
  lemma {:induction false} UnescapeEscape(s: string, like: bool)
    ensures Unescape(EscapeWith(s, like), like) == Some(s)
  {
    if |s| > 0 {
      var e := EscapeChar(s[0], like);
      var rest := EscapeWith(s[1..], like);
      UnescapeEscape(s[1..], like);
      var t := e + rest;
      if IsSpecial(s[0], like) {
        assert t[0] == '\\' && t[1] == CodeOf(s[0]) && t[2..] == rest;
      } else {
        assert t[0] == s[0] && t[1..] == rest;
      }
      assert [s[0]] + s[1..] == s;
    }
  }

  /** Every well-formed escaped text is the escape of what it reads back to, so the
      escaped texts are exactly the well-formed ones. */
  lemma {:induction false} EscapeUnescape(t: string, s: string, like: bool)
    requires Unescape(t, like) == Some(s)
    ensures EscapeWith(s, like) == t
  {
    if |t| > 0 {
      if t[0] == '\\' {
        var c := DecodeCode(t[1], like).value;
        var rest := Unescape(t[2..], like).value;
        EscapeUnescape(t[2..], rest, like);
        DecodeCodeInverts(t[1], like);
        assert s == [c] + rest;
        assert EscapeWith(s, like) == EscapeChar(c, like) + EscapeWith(rest, like) by {
          assert s[0] == c && s[1..] == rest;
        }
        assert t == ['\\', t[1]] + t[2..];
      } else {
        var rest := Unescape(t[1..], like).value;
        EscapeUnescape(t[1..], rest, like);
        assert s == [t[0]] + rest;
        assert EscapeWith(s, like) == EscapeChar(t[0], like) + EscapeWith(rest, like) by {
          assert s[0] == t[0] && s[1..] == rest;
        }
        assert t == [t[0]] + t[1..];
      }
    }
  }

  /** Every code `DecodeCode` accepts is the code of a special character. */
  lemma DecodeCodeInverts(d: char, like: bool)
    requires DecodeCode(d, like).Some?
    ensures IsSpecial(DecodeCode(d, like).value, like) && CodeOf(DecodeCode(d, like).value) == d
  {
  }

  /** `escapeStr`: NUL, LF, CR, backslash and both quotes become two-character
      backslash escapes, everything else is kept, and reading the output back
      recovers the input. */
  function EscapeStr(s: string): (r: string)
    ensures |r| == |s| + CountSpecial(s, false)
    ensures forall i :: 0 <= i < |r| ==> r[i] != '\0' && r[i] != '\n' && r[i] != '\r'
    ensures forall i :: 0 <= i < |r| && (r[i] == '\'' || r[i] == '"') ==> 0 < i && r[i - 1] == '\\'
    ensures Unescape(r, false) == Some(s)
  {
    UnescapeEscape(s, false);
    EscapeWith(s, false)
  }

  /** `escapeForLikeStr`: the `escapeStr` table plus `%` and `_`, so that no LIKE
      wildcard survives unescaped and reading the output back recovers the input. */
  function EscapeForLikeStr(s: string): (r: string)
    ensures |r| == |s| + CountSpecial(s, true)
    ensures forall i :: 0 <= i < |r| && IsWildcard(r[i]) ==> 0 < i && r[i - 1] == '\\'
    ensures Unescape(r, true) == Some(s)
  {
    UnescapeEscape(s, true);
    EscapeWith(s, true)
  }

  /** Escaping is injective: two inputs with the same escape are equal. */
  lemma EscapeInjective(s1: string, s2: string, like: bool)
    requires EscapeWith(s1, like) == EscapeWith(s2, like)
    ensures s1 == s2
  {
    UnescapeEscape(s1, like);
    UnescapeEscape(s2, like);
  }

  /** `addcslashes(s, "%_")`: a backslash before every `%` and `_`. */
  function AddLikeSlashes(s: string): string
  {
    if |s| == 0 then "" else (if IsWildcard(s[0]) then ['\\', s[0]] else [s[0]]) + AddLikeSlashes(s[1..])
  }

  lemma {:induction false} AddLikeSlashesAppend(a: string, b: string)
    ensures AddLikeSlashes(a + b) == AddLikeSlashes(a) + AddLikeSlashes(b)
  {
    if |a| > 0 {
      assert (a + b)[1..] == a[1..] + b;
      AddLikeSlashesAppend(a[1..], b);
    } else {
      assert a + b == b;
    }
  }

  /** The LIKE table is the plain table followed by `addcslashes(…, "%_")`, the
      two-pass form the instance method `escapeForLike` uses; on input without
      wildcards the two static helpers agree. */
  lemma EscapeForLikeIsTwoPass(s: string)
    ensures EscapeForLikeStr(s) == AddLikeSlashes(EscapeStr(s))
    ensures (forall i :: 0 <= i < |s| ==> !IsWildcard(s[i])) ==> EscapeForLikeStr(s) == EscapeStr(s)
  {
    TwoPass(s);
    if forall i :: 0 <= i < |s| ==> !IsWildcard(s[i]) {
      WithoutWildcards(s);
    }
  }

  lemma {:induction false} TwoPass(s: string)
    ensures EscapeWith(s, true) == AddLikeSlashes(EscapeWith(s, false))
  {
    if |s| > 0 {
      TwoPass(s[1..]);
      var e := EscapeChar(s[0], false);
      AddLikeSlashesAppend(e, EscapeWith(s[1..], false));
      if IsSqlSpecial(s[0]) {
        assert AddLikeSlashes(e) == e by {
          assert e[1..][1..] == [];
        }
      } else {
        assert e == [s[0]];
        assert AddLikeSlashes(e) == EscapeChar(s[0], true) by {
          assert e[1..] == [];
        }
      }
    }
  }

  lemma {:induction false} WithoutWildcards(s: string)
    requires forall i :: 0 <= i < |s| ==> !IsWildcard(s[i])
    ensures EscapeWith(s, true) == EscapeWith(s, false)
  {
    if |s| > 0 {
      assert !IsWildcard(s[0]);
      assert forall i :: 0 <= i < |s[1..]| ==> !IsWildcard(s[1..][i]) by {
        forall i | 0 <= i < |s[1..]| ensures !IsWildcard(s[1..][i]) {
          assert s[1..][i] == s[i + 1];
        }
      }
      WithoutWildcards(s[1..]);
    }
  }
}
