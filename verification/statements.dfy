/** Statement classification by leading keyword, as `parseResults` does it with
    three case-insensitive patterns of the form `^\s*(k1|k2|…)\s`. */
module Statements {
  import opened Chars

  /** What `parseResults` returns for a statement: the raw result for schema changes,
      the affected-row count for mutations (insert and replace also record the
      generated id), materialised rows otherwise. */
  datatype StatementClass = SchemaChange | Mutation(setsInsertId: bool) | Read

  const SchemaKeywords: seq<string> := ["create", "alter", "truncate", "drop"]
  const MutationKeywords: seq<string> := ["insert", "delete", "update", "replace"]
  const InsertIdKeywords: seq<string> := ["insert", "replace"]

  /** The pattern `^\s*kw\s` with the `/i` flag, matched by skipping the leading
      whitespace and looking at what follows. */
  predicate StartsWithKeyword(sql: string, kw: string)
  {
    var t := DropSpaces(sql);
    |t| > |kw| && EqualsIgnoringCase(t[..|kw|], kw) && IsSpace(t[|kw|])
  }

  /** One of the alternatives `(k1|k2|…)` matches. */
  predicate MatchesAny(sql: string, kws: seq<string>)
  {
    exists k :: 0 <= k < |kws| && StartsWithKeyword(sql, kws[k])
  }

  /** The three `preg_match` tests of `parseResults`, in their order. */
  function Classify(sql: string): StatementClass
  {
    if MatchesAny(sql, SchemaKeywords) then SchemaChange
    else if MatchesAny(sql, MutationKeywords) then Mutation(MatchesAny(sql, InsertIdKeywords))
    else Read
  }

  /** Regular-expression semantics of `^\s*kw\s`: some split of the subject into a
      whitespace run, the keyword in any letter case, and one whitespace character. */
  ghost predicate PatternMatches(sql: string, kw: string)
  {
    exists k :: MatchesAt(sql, kw, k)
  }

  /** The split that puts the keyword at index `k`. */
  ghost predicate MatchesAt(sql: string, kw: string, k: int)
  {
    && 0 <= k && k + |kw| < |sql|
    && (forall j :: 0 <= j < k ==> IsSpace(sql[j]))
    && EqualsIgnoringCase(sql[k..k + |kw|], kw)
    && IsSpace(sql[k + |kw|])
  }

  ghost predicate PatternMatchesAny(sql: string, kws: seq<string>)
  {
    exists k :: 0 <= k < |kws| && PatternMatches(sql, kws[k])
  }

  /** Skipping the leading whitespace finds exactly the regular-expression matches,
      for any keyword that does not itself start with whitespace. */
  lemma StartsWithKeywordIsPattern(sql: string, kw: string)
    requires |kw| > 0 && !IsSpace(ToLower(kw[0]))
    ensures StartsWithKeyword(sql, kw) <==> PatternMatches(sql, kw)
  {
    if StartsWithKeyword(sql, kw) {
      SkipFindsMatch(sql, kw);
    }
    if PatternMatches(sql, kw) {
      var k :| MatchesAt(sql, kw, k);
      MatchIsFoundBySkip(sql, kw, k);
    }
  }

  /** The split found by skipping the whitespace is a regular-expression match. */
  lemma SkipFindsMatch(sql: string, kw: string)
    requires StartsWithKeyword(sql, kw)
    ensures MatchesAt(sql, kw, |sql| - |DropSpaces(sql)|)
  {
    var t := DropSpaces(sql);
    var m := |sql| - |t|;
    assert t == sql[m..];
    var word := t[..|kw|];
    assert EqualsIgnoringCase(word, kw);
    assert sql[m..m + |kw|] == word;
    assert sql[m + |kw|] == t[|kw|];
  }

  /** Every regular-expression match is the one found by skipping the whitespace. */
  lemma MatchIsFoundBySkip(sql: string, kw: string, k: int)
    requires |kw| > 0 && !IsSpace(ToLower(kw[0]))
    requires MatchesAt(sql, kw, k)
    ensures StartsWithKeyword(sql, kw)
  {
    var t := DropSpaces(sql);
    KeywordPosition(sql, kw, k);
    assert t[..|kw|] == sql[k..k + |kw|];
    assert t[|kw|] == sql[k + |kw|];
  }

  /** A regular-expression match can only put the keyword right after the whole
      leading whitespace run. */
  lemma KeywordPosition(sql: string, kw: string, k: int)
    requires |kw| > 0 && !IsSpace(ToLower(kw[0]))
    requires MatchesAt(sql, kw, k)
    ensures k == |sql| - |DropSpaces(sql)|
  {
    var t := DropSpaces(sql);
    var m := |sql| - |t|;
    assert sql[k..k + |kw|][0] == sql[k];
    SpaceIsNotALetter(sql[k]);
    assert !IsSpace(sql[k]);
    assert m < |sql| ==> t[0] == sql[m];
  }

  lemma MatchesAnyIsPattern(sql: string, kws: seq<string>)
    requires forall k :: 0 <= k < |kws| ==> |kws[k]| > 0 && !IsSpace(ToLower(kws[k][0]))
    ensures MatchesAny(sql, kws) <==> PatternMatchesAny(sql, kws)
  {
    forall k | 0 <= k < |kws|
      ensures StartsWithKeyword(sql, kws[k]) <==> PatternMatches(sql, kws[k])
    {
      StartsWithKeywordIsPattern(sql, kws[k]);
    }
  }

  /** Classification agrees with the regular-expression reading of the three
      patterns, tried in order: schema changes first, then mutations, the insert-id
      test only among mutations, and everything else is a read. */
  lemma ClassifyIsPattern(sql: string)
    ensures Classify(sql) == SchemaChange <==> PatternMatchesAny(sql, SchemaKeywords)
    ensures Classify(sql).Mutation? <==>
      !PatternMatchesAny(sql, SchemaKeywords) && PatternMatchesAny(sql, MutationKeywords)
    ensures Classify(sql).Mutation? ==>
      (Classify(sql).setsInsertId <==> PatternMatchesAny(sql, InsertIdKeywords))
    ensures Classify(sql) == Read <==>
      !PatternMatchesAny(sql, SchemaKeywords) && !PatternMatchesAny(sql, MutationKeywords)
  {
    MatchesAnyIsPattern(sql, SchemaKeywords);
    MatchesAnyIsPattern(sql, MutationKeywords);
    MatchesAnyIsPattern(sql, InsertIdKeywords);
  }

  /** Lower-casing leaves whitespace alone. */
  lemma SpaceIsNotALetter(c: char)
    ensures IsSpace(c) ==> ToLower(c) == c
  {
  }

  /** The leading keyword decides the class: no statement matches a schema-change
      keyword and a mutation keyword at once, so the order of the tests only matters
      for reads. */
  lemma GroupsDisjoint(sql: string)
    ensures MatchesAny(sql, SchemaKeywords) ==> !MatchesAny(sql, MutationKeywords)
  {
    SchemaHead(sql);
    MutationHead(sql);
  }

  /** The first two letters after the whitespace of a schema-change statement. */
  lemma SchemaHead(sql: string)
    ensures MatchesAny(sql, SchemaKeywords) ==>
      var t := DropSpaces(sql);
      |t| >= 2 && var h0, h1 := ToLower(t[0]), ToLower(t[1]);
      h0 == 'c' || h0 == 'a' || h0 == 't' || (h0 == 'd' && h1 == 'r')
  {
    if MatchesAny(sql, SchemaKeywords) {
      var a :| 0 <= a < |SchemaKeywords| && StartsWithKeyword(sql, SchemaKeywords[a]);
      SchemaKeywordHead(a);
      LeadingPair(sql, SchemaKeywords[a]);
    }
  }

  /** The first two letters after the whitespace of a mutation statement. */
  lemma MutationHead(sql: string)
    ensures MatchesAny(sql, MutationKeywords) ==>
      var t := DropSpaces(sql);
      |t| >= 2 && var h0, h1 := ToLower(t[0]), ToLower(t[1]);
      h0 == 'i' || h0 == 'u' || h0 == 'r' || (h0 == 'd' && h1 == 'e')
  {
    if MatchesAny(sql, MutationKeywords) {
      var a :| 0 <= a < |MutationKeywords| && StartsWithKeyword(sql, MutationKeywords[a]);
      MutationKeywordHead(a);
      LeadingPair(sql, MutationKeywords[a]);
    }
  }

  lemma SchemaKeywordHead(a: int)
    requires 0 <= a < |SchemaKeywords|
    ensures var kw := SchemaKeywords[a];
      && |kw| >= 2 && 'a' <= kw[0] <= 'z' && 'a' <= kw[1] <= 'z'
      && (kw[0] == 'c' || kw[0] == 'a' || kw[0] == 't' || (kw[0] == 'd' && kw[1] == 'r'))
  {
  }

  lemma MutationKeywordHead(a: int)
    requires 0 <= a < |MutationKeywords|
    ensures var kw := MutationKeywords[a];
      && |kw| >= 2 && 'a' <= kw[0] <= 'z' && 'a' <= kw[1] <= 'z'
      && (kw[0] == 'i' || kw[0] == 'u' || kw[0] == 'r' || (kw[0] == 'd' && kw[1] == 'e'))
  {
  }

  /** A matched lower-case keyword fixes the first two letters after the whitespace. */
  lemma LeadingPair(sql: string, kw: string)
    requires |kw| >= 2 && 'a' <= kw[0] <= 'z' && 'a' <= kw[1] <= 'z'
    ensures StartsWithKeyword(sql, kw) ==>
      |DropSpaces(sql)| >= 2 && ToLower(DropSpaces(sql)[0]) == kw[0] && ToLower(DropSpaces(sql)[1]) == kw[1]
  {
    var t := DropSpaces(sql);
    if StartsWithKeyword(sql, kw) {
      var p := t[..|kw|];
      assert EqualsIgnoringCase(p, kw);
      assert ToLower(p[0]) == ToLower(kw[0]);
      assert ToLower(p[1]) == ToLower(kw[1]);
      assert ToLower(kw[0]) == kw[0] && ToLower(kw[1]) == kw[1];
    }
  }

  /** Whitespace before the keyword and the letter case of the keyword do not change
      the class: `"  INSERT x"` is classified as `"insert x"`. */
  lemma ClassifyIgnoresLeadingSpace(sql: string, pad: string)
    requires forall i :: 0 <= i < |pad| ==> IsSpace(pad[i])
    ensures Classify(pad + sql) == Classify(sql)
  {
    GroupIgnoresLeadingSpace(sql, pad, SchemaKeywords);
    GroupIgnoresLeadingSpace(sql, pad, MutationKeywords);
    GroupIgnoresLeadingSpace(sql, pad, InsertIdKeywords);
  }

  lemma GroupIgnoresLeadingSpace(sql: string, pad: string, kws: seq<string>)
    requires forall i :: 0 <= i < |pad| ==> IsSpace(pad[i])
    ensures MatchesAny(pad + sql, kws) == MatchesAny(sql, kws)
  {
    DropSpacesPrefix(pad, sql);
    forall k | 0 <= k < |kws|
      ensures StartsWithKeyword(pad + sql, kws[k]) == StartsWithKeyword(sql, kws[k])
    {
    }
  }

  lemma {:induction false} DropSpacesPrefix(pad: string, s: string)
    requires forall i :: 0 <= i < |pad| ==> IsSpace(pad[i])
    ensures DropSpaces(pad + s) == DropSpaces(s)
  {
    if |pad| > 0 {
      assert (pad + s)[1..] == pad[1..] + s;
      DropSpacesPrefix(pad[1..], s);
    } else {
      assert pad + s == s;
    }
  }
}
