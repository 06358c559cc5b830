/** `HandlerSocketError::throwNormalError`: the translation of a HandlerSocket error
    code into a bracketed code followed by a human-readable message. */
module HandlerSocketErrors {
  import opened Wrappers
  import opened HandlerSocketMessages

  /** A `case` group of the switch: the codes it lists and the message they share. */
  datatype Case = Case(codes: seq<string>, message: string)

  /** The groups of the switch, in their order. */
  const Cases: seq<Case> := [
    Case(["cmd", "syntax", "notimpl"], ParsingMessage),
    Case(["authtype", "unauth"], AuthMessage),
    Case(["open_table"], OpenTableMessage),
    Case(["tblnum", "stmtnum"], IndexNumberMessage),
    Case(["invalueslen"], InValuesMessage),
    Case(["filtertype"], FilterTypeMessage),
    Case(["filterfld"], FilterFieldMessage),
    Case(["lock_tables", "modop"], LockedMessage),
    Case(["idxnum"], KeyIndexMessage),
    Case(["kpnum", "klen"], KeyLengthMessage),
    Case(["op"], OperatorMessage),
    Case(["readonly"], ReadOnlyMessage),
    Case(["fld"], FieldMessage)
  ]

  predicate IsDigit(c: char)
  {
    '0' <= c <= '9'
  }

  /** Digits with at most one decimal point, and at least one digit. */
  predicate IsDecimal(s: string)
  {
    && (exists i :: 0 <= i < |s| && IsDigit(s[i]))
    && (forall i :: 0 <= i < |s| ==> IsDigit(s[i]) || s[i] == '.')
    && (forall i, j :: 0 <= i < j < |s| && s[i] == '.' ==> s[j] != '.')
  }

  /** `is_numeric` for plain decimal numbers: an optional sign, then a decimal. */
  predicate IsNumeric(code: string)
  {
    |code| > 0 && (if code[0] == '+' || code[0] == '-' then IsDecimal(code[1..]) else IsDecimal(code))
  }

  /** The first group at or after `from` that lists `code`. */
  function CaseIndex(code: string, from: nat): (r: Option<nat>)
    ensures r.Some? ==> from <= r.value < |Cases| && code in Cases[r.value].codes
    ensures r.None? ==> forall j :: from <= j < |Cases| ==> code !in Cases[j].codes
    decreases |Cases| - from
  {
    if from >= |Cases| then None
    else if code in Cases[from].codes then Some(from)
    else CaseIndex(code, from + 1)
  }

  /** The message the switch assigns to `code`: that of the group listing it, or for
      an unlisted code the numeric or the unknown fallback. */
  function MessageFor(code: string): string
  {
    match CaseIndex(code, 0)
    case Some(i) => Cases[i].message
    case None => if IsNumeric(code) then WrongDataMessage else UnknownMessage
  }

  /** `throwNormalError($errorCode)`: `[code] message`. */
  function NormalError(code: string): string
  {
    "[" + code + "] " + MessageFor(code)
  }

  /** No code is listed in two groups. */
  lemma CasesDisjoint(i: nat, j: nat, code: string)
    requires i < j < |Cases| && code in Cases[i].codes
    ensures code !in Cases[j].codes
  {
    var k :| 0 <= k < |Cases[i].codes| && Cases[i].codes[k] == code;
    forall m | 0 <= m < |Cases[j].codes| ensures Cases[j].codes[m] != code {
      CodesDiffer(i, k, j, m);
    }
  }

  /** Codes of different groups differ in their length or their first letter. */
  lemma CodesDiffer(i: nat, k: nat, j: nat, m: nat)
    requires i < j < |Cases| && k < |Cases[i].codes| && m < |Cases[j].codes|
    ensures Cases[i].codes[k] != Cases[j].codes[m]
  {
    var a, b := Cases[i].codes[k], Cases[j].codes[m];
    assert |a| != |b| || a[0] != b[0];
  }

  /** Every code a group lists gets that group's message. */
  lemma ListedCode(i: nat, code: string)
    requires i < |Cases| && code in Cases[i].codes
    ensures MessageFor(code) == Cases[i].message
  {
    var k := CaseIndex(code, 0).value;
    if k < i {
      CasesDisjoint(k, i, code);
    } else if i < k {
      CasesDisjoint(i, k, code);
    }
  }

  /** The shared messages of the groups of more than one code, as the switch spells
      them out. */
  lemma SharedMessages()
    ensures MessageFor("cmd") == MessageFor("syntax") == MessageFor("notimpl") == ParsingMessage
    ensures MessageFor("authtype") == MessageFor("unauth") == AuthMessage
    ensures MessageFor("tblnum") == MessageFor("stmtnum") == IndexNumberMessage
    ensures MessageFor("lock_tables") == MessageFor("modop") == LockedMessage
    ensures MessageFor("kpnum") == MessageFor("klen") == KeyLengthMessage
  {
    assert Cases[0].codes == ["cmd", "syntax", "notimpl"];
    assert Cases[1].codes == ["authtype", "unauth"];
    assert Cases[3].codes == ["tblnum", "stmtnum"];
    assert Cases[7].codes == ["lock_tables", "modop"];
    assert Cases[9].codes == ["kpnum", "klen"];
    ListedCode(0, "cmd");
    ListedCode(0, "syntax");
    ListedCode(0, "notimpl");
    ListedCode(1, "authtype");
    ListedCode(1, "unauth");
    ListedCode(3, "tblnum");
    ListedCode(3, "stmtnum");
    ListedCode(7, "lock_tables");
    ListedCode(7, "modop");
    ListedCode(9, "kpnum");
    ListedCode(9, "klen");
  }

  /** A code no group lists falls back on the numeric message when it is numeric and
      on "Unknown error" otherwise. */
  lemma UnlistedCode(code: string)
    requires forall i :: 0 <= i < |Cases| ==> code !in Cases[i].codes
    ensures IsNumeric(code) ==> MessageFor(code) == WrongDataMessage
    ensures !IsNumeric(code) ==> MessageFor(code) == UnknownMessage
  {
  }

  /** A listed code is never numeric, so the order of the switch and of its default
      branch does not matter. */
  lemma ListedCodesAreNotNumeric(i: nat, code: string)
    requires i < |Cases| && code in Cases[i].codes
    ensures !IsNumeric(code)
  {
    ListedCodeStartsWithLetter(i, code);
    assert !IsDigit(code[0]) && code[0] != '.';
  }

  lemma ListedCodeStartsWithLetter(i: nat, code: string)
    requires i < |Cases| && code in Cases[i].codes
    ensures |code| > 0 && 'a' <= code[0] <= 'z'
  {
  }

  /** The messages of the groups are pairwise different: only two pairs share a
      length, and those end differently. */
  lemma MessagesDistinct(i: nat, j: nat)
    requires i < j < |Cases|
    ensures Cases[i].message != Cases[j].message
  {
    var a, b := Cases[i].message, Cases[j].message;
    if i == 3 && j == 9 {
      assert a[|a| - 1] == 'r' && b[|b| - 1] == '0';
    } else if i == 11 && j == 12 {
      assert a[|a| - 1] == 't' && b[|b| - 1] == 'n';
    } else {
      assert |a| != |b|;
    }
  }

  /** The two fallback messages differ from each other and from every group's. */
  lemma FallbacksDistinct(i: nat)
    requires i < |Cases|
    ensures Cases[i].message != WrongDataMessage && Cases[i].message != UnknownMessage
    ensures WrongDataMessage != UnknownMessage
  {
    assert |Cases[i].message| != |WrongDataMessage| && |Cases[i].message| != |UnknownMessage|;
  }

  /** Two codes share a message exactly when a group lists both, or neither is listed
      and both are numeric or both are not. */
  lemma SameMessage(a: string, b: string)
    ensures MessageFor(a) == MessageFor(b) <==>
      match (CaseIndex(a, 0), CaseIndex(b, 0))
      case (Some(i), Some(j)) => i == j
      case (None, None) => IsNumeric(a) == IsNumeric(b)
      case _ => false
  {
    match (CaseIndex(a, 0), CaseIndex(b, 0))
    case (Some(i), Some(j)) =>
      if i < j { MessagesDistinct(i, j); } else if j < i { MessagesDistinct(j, i); }
    case (Some(i), None) => FallbacksDistinct(i);
    case (None, Some(j)) => FallbacksDistinct(j);
    case (None, None) => FallbacksDistinct(0);
  }

  /** No message contains a closing bracket. */
  lemma MessagesHaveNoBracket(code: string)
    ensures ']' !in MessageFor(code)
  {
    match CaseIndex(code, 0)
    case None =>
      MessageConstantsHaveNoBracket();
    case Some(i) =>
      CaseMessageHasNoBracket(i);
  }

  lemma CaseMessageHasNoBracket(i: nat)
    requires i < |Cases|
    ensures ']' !in Cases[i].message
  {
    MessageConstantsHaveNoBracket();
    CaseMessageIs(i);
  }

  lemma CaseMessageIs(i: nat)
    requires i < |Cases|
    ensures Cases[i].message in {ParsingMessage, AuthMessage, OpenTableMessage, IndexNumberMessage, InValuesMessage, FilterTypeMessage, FilterFieldMessage, LockedMessage, KeyIndexMessage, KeyLengthMessage, OperatorMessage, ReadOnlyMessage, FieldMessage}
  {
  }

  /** The position of the last `c` in `s`. */
  function LastIndexOf(s: string, c: char): (r: Option<nat>)
    ensures r.Some? ==> r.value < |s| && s[r.value] == c && forall j :: r.value < j < |s| ==> s[j] != c
    ensures r.None? ==> c !in s
  {
    if |s| == 0 then None
    else if s[|s| - 1] == c then Some(|s| - 1)
    else LastIndexOf(s[..|s| - 1], c)
  }

  /** Splits `[code] message` at the last closing bracket. */
  function ParseNormalError(s: string): Option<(string, string)>
  {
    if |s| == 0 || s[0] != '[' then None
    else match LastIndexOf(s, ']')
      case None => None
      case Some(k) =>
        if 1 <= k && k + 1 < |s| && s[k + 1] == ' ' then Some((s[1..k], s[k + 2..])) else None
  }

  /** A bracketed code followed by a message free of closing brackets splits back
      into the two, whatever the code holds, brackets included. */
  lemma SplitBracketed(code: string, msg: string)
    requires ']' !in msg
    ensures ParseNormalError("[" + code + "] " + msg) == Some((code, msg))
  {
    var s := "[" + code + "] " + msg;
    var k := |code| + 1;
    assert s[k] == ']' && s[k + 1] == ' ';
    assert forall j :: k + 1 < j < |s| ==> s[j] == msg[j - k - 2];
    var last := LastIndexOf(s, ']');
    assert last.Some? && last.value == k;
    assert s[1..k] == code && s[k + 2..] == msg;
  }

  /** The code and the message can be read back from the normalised error. */
  lemma NormalErrorRoundTrip(code: string)
    ensures ParseNormalError(NormalError(code)) == Some((code, MessageFor(code)))
  {
    MessagesHaveNoBracket(code);
    SplitBracketed(code, MessageFor(code));
  }

  /** Different codes give different normalised errors. */
  lemma NormalErrorInjective(a: string, b: string)
    requires NormalError(a) == NormalError(b)
    ensures a == b
  {
    NormalErrorRoundTrip(a);
    NormalErrorRoundTrip(b);
  }
}
