/** `MysqliManager::getBestCharset`: prefer `utf8mb4` over `utf8` and the newer
    unicode collations, as far as the server supports them. The two capability
    checks are passed in as booleans. */
module Charset {

  /** Whether `pat` occurs in `s`. */
  predicate Contains(s: string, pat: string)
    requires |pat| > 0
    decreases |s|
  {
    |s| >= |pat| && (s[..|pat|] == pat || Contains(s[1..], pat))
  }

  /** `str_replace(pat, rep, s)`: every occurrence of `pat`, scanning left to right
      without overlap, is replaced by `rep`. */
  function ReplaceAll(s: string, pat: string, rep: string): (r: string)
    requires |pat| > 0
    decreases |s|
  {
    if |s| < |pat| then s
    else if s[..|pat|] == pat then rep + ReplaceAll(s[|pat|..], pat, rep)
    else [s[0]] + ReplaceAll(s[1..], pat, rep)
  }

  /** Without an occurrence of the pattern nothing is replaced. */
  lemma {:induction false} ReplaceAbsent(s: string, pat: string, rep: string)
    requires |pat| > 0 && !Contains(s, pat)
    ensures ReplaceAll(s, pat, rep) == s
    decreases |s|
  {
    if |s| >= |pat| {
      ReplaceAbsent(s[1..], pat, rep);
      assert s == [s[0]] + s[1..];
    }
  }

  /** PHP's `!$collate` for a string: true for "" and "0". */
  predicate Falsy(s: string)
  {
    s == "" || s == "0"
  }

  datatype Choice = Choice(charset: string, collate: string)

  /** `getBestCharset($charset, $collate)`: without a connected client the request
      is returned as it is; otherwise `utf8` and `utf8mb4` become whichever of the
      two the server supports, a `utf8mb4` collation is upgraded from `utf8` or from
      the general one, and `utf8mb4_unicode_ci` becomes `utf8mb4_unicode_520_ci`
      where that is supported. */
  function BestCharset(connected: bool, charset: string, collate: string, mb4: bool, mb4Unicode520: bool): (r: Choice)
    ensures !connected ==> r == Choice(charset, collate)
    ensures connected && (charset == "utf8" || charset == "utf8mb4") ==>
      r.charset == (if mb4 then "utf8mb4" else "utf8")
    ensures charset != "utf8" && charset != "utf8mb4" ==> r.charset == charset
    ensures charset != "utf8" && charset != "utf8mb4" ==>
      r.collate == (if connected && mb4Unicode520 && collate == "utf8mb4_unicode_ci" then "utf8mb4_unicode_520_ci" else collate)
  {
    if !connected then Choice(charset, collate)
    else
      var charset1 := if charset == "utf8" && mb4 then "utf8mb4" else charset;
      var (charset2, collate2) :=
        if charset1 == "utf8mb4" && !mb4 then ("utf8", ReplaceAll(collate, "utf8mb4_", "utf8_"))
        else (charset1, collate);
      var collate3 :=
        if charset2 == "utf8mb4" then
          (if Falsy(collate2) || collate2 == "utf8_general_ci" then "utf8mb4_unicode_ci"
           else ReplaceAll(collate2, "utf8_", "utf8mb4_"))
        else collate2;
      var collate4 := if mb4Unicode520 && collate3 == "utf8mb4_unicode_ci" then "utf8mb4_unicode_520_ci" else collate3;
      Choice(charset2, collate4)
  }

  /** With `utf8mb4` available, a unicode request without a collation, or with the
      outdated general one, gets the best unicode collation the server has. */
  lemma DefaultCollation(charset: string, collate: string, mb4Unicode520: bool)
    requires charset == "utf8" || charset == "utf8mb4"
    requires Falsy(collate) || collate == "utf8_general_ci"
    ensures BestCharset(true, charset, collate, true, mb4Unicode520) ==
      Choice("utf8mb4", if mb4Unicode520 then "utf8mb4_unicode_520_ci" else "utf8mb4_unicode_ci")
  {
  }

  /** Without `utf8mb4` support a `utf8mb4` request falls back to `utf8` and every
      `utf8mb4_` in its collation becomes `utf8_`, while a `utf8` request keeps its
      collation; only the 520 upgrade can change the result after that. */
  lemma FallbackRenamesCollation(charset: string, collate: string, mb4Unicode520: bool)
    requires charset == "utf8" || charset == "utf8mb4"
    ensures var c := if charset == "utf8mb4" then ReplaceAll(collate, "utf8mb4_", "utf8_") else collate;
      BestCharset(true, charset, collate, false, mb4Unicode520) ==
        Choice("utf8", if mb4Unicode520 && c == "utf8mb4_unicode_ci" then "utf8mb4_unicode_520_ci" else c)
  {
  }

  /** With `utf8mb4` support a `utf8` or `utf8mb4` request with a collation other
      than the general one gets `utf8mb4`, and every `utf8_` in its collation becomes
      `utf8mb4_`; only the 520 upgrade can change the result after that. */
  lemma UpgradeRenamesCollation(charset: string, collate: string, mb4Unicode520: bool)
    requires charset == "utf8" || charset == "utf8mb4"
    requires !Falsy(collate) && collate != "utf8_general_ci"
    ensures var c := ReplaceAll(collate, "utf8_", "utf8mb4_");
      BestCharset(true, charset, collate, true, mb4Unicode520) ==
        Choice("utf8mb4", if mb4Unicode520 && c == "utf8mb4_unicode_ci" then "utf8mb4_unicode_520_ci" else c)
  {
  }

  /** A collation that is already a `utf8mb4` one, with no `utf8_` in it, survives the
      upgrade unchanged apart from the 520 rule. */
  lemma UpgradeKeepsMb4Collation(charset: string, collate: string, mb4Unicode520: bool)
    requires charset == "utf8" || charset == "utf8mb4"
    requires !Falsy(collate) && collate != "utf8_general_ci" && !Contains(collate, "utf8_")
    ensures BestCharset(true, charset, collate, true, mb4Unicode520) ==
      Choice("utf8mb4", if mb4Unicode520 && collate == "utf8mb4_unicode_ci" then "utf8mb4_unicode_520_ci" else collate)
  {
    ReplaceAbsent(collate, "utf8_", "utf8mb4_");
  }

  /** For example, `utf8mb4_bin` falls back to `utf8_bin`. */
  lemma FallbackExample(mb4Unicode520: bool)
    ensures BestCharset(true, "utf8mb4", "utf8mb4_bin", false, mb4Unicode520) == Choice("utf8", "utf8_bin")
  {
    var c := "utf8mb4_bin";
    assert c[..8] == "utf8mb4_";
    var rest := c[8..];
    assert rest == "bin";
    assert !Contains(rest, "utf8mb4_");
    ReplaceAbsent(rest, "utf8mb4_", "utf8_");
  }

  /** For example, `utf8_bin` is upgraded to `utf8mb4_bin`. */
  lemma UpgradeExample(mb4Unicode520: bool)
    ensures BestCharset(true, "utf8", "utf8_bin", true, mb4Unicode520) == Choice("utf8mb4", "utf8mb4_bin")
  {
    var c := "utf8_bin";
    assert c[..5] == "utf8_";
    var rest := c[5..];
    assert rest == "bin";
    assert !Contains(rest, "utf8_");
    ReplaceAbsent(rest, "utf8_", "utf8mb4_");
  }
}
