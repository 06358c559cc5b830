/** The resumable line-based SQL import, in its two variants:
    `MysqliManager::tryImportSqlFile` and `PDOSqlFileImporter::tryImport`.

    The file is its content as one string, one character per byte, so offsets are
    character indices. The checkpoint file holds the offset just past the last
    statement that ran, and a run starts reading there. Reading is a pure function of
    the content; executing a statement is an oracle. */
module Importer {
  import opened Wrappers
  import opened Chars

  // ---------------------------------------------------------------- lines

  /** Where `fgets` stops reading a line that starts at `pos`: just past the next line
      feed, or at the end of the content. */
  function LineEnd(content: string, pos: nat): (e: nat)
    requires pos < |content|
    ensures pos < e <= |content|
    ensures forall i :: pos <= i < e - 1 ==> content[i] != '\n'
    ensures content[e - 1] == '\n' || e == |content|
    decreases |content| - pos
  {
    if content[pos] == '\n' || pos + 1 == |content| then pos + 1 else LineEnd(content, pos + 1)
  }

  /** A line as `fgets` returns it, line feed included, and `ftell` after reading it. */
  datatype Line = Line(text: string, end: nat)

  /** The lines `fgets` returns from `pos` on, until it answers false at the end. */
  function Lines(content: string, pos: nat): seq<Line>
    decreases |content| - pos
  {
    if pos >= |content| then []
    else
      var e := LineEnd(content, pos);
      [Line(content[pos..e], e)] + Lines(content, e)
  }

  function LineTexts(lines: seq<Line>): seq<string>
  {
    if |lines| == 0 then [] else [lines[0].text] + LineTexts(lines[1..])
  }

  /** Lines strictly after `lo` and at most `hi`, in increasing order of their ends. */
  predicate Ordered(lines: seq<Line>, lo: int, hi: int)
  {
    && (forall i :: 0 <= i < |lines| ==> lo < lines[i].end <= hi)
    && (forall i, j :: 0 <= i < j < |lines| ==> lines[i].end < lines[j].end)
  }

  /** One step of `fgets`: the first line from `pos` and the lines after it. */
  lemma LinesStep(content: string, pos: nat)
    requires pos < |content|
    ensures var e := LineEnd(content, pos);
      && Lines(content, pos) == [Line(content[pos..e], e)] + Lines(content, e)
      && Lines(content, pos)[1..] == Lines(content, e)
  {
  }

  /** Reading line by line from `pos` loses nothing and adds nothing: the lines
      concatenate to the rest of the content. */
  lemma {:induction false} LinesCover(content: string, pos: nat)
    requires pos <= |content|
    ensures Concat(LineTexts(Lines(content, pos))) == content[pos..]
    decreases |content| - pos
  {
    if pos < |content| {
      var e := LineEnd(content, pos);
      var text := content[pos..e];
      LinesStep(content, pos);
      LinesCover(content, e);
      assert LineTexts(Lines(content, pos)) == [text] + LineTexts(Lines(content, e));
      ConcatPrepend(text, LineTexts(Lines(content, e)));
      assert content[pos..] == text + content[e..];
    } else {
      assert LineTexts(Lines(content, pos)) == [];
    }
  }

  /** Each line is non-empty and holds a line feed at most as its last character,
      and the offsets after the lines increase, past `pos` and up to the end. */
  lemma {:induction false} LinesOrdered(content: string, pos: nat)
    ensures var ls := Lines(content, pos);
      && Ordered(ls, pos, |content|)
      && (forall i, j :: 0 <= i < |ls| && 0 <= j < |ls[i].text| - 1 ==> ls[i].text[j] != '\n')
      && (forall i :: 0 <= i < |ls| ==> |ls[i].text| > 0)
    decreases |content| - pos
  {
    if pos < |content| {
      var e := LineEnd(content, pos);
      var line := Line(content[pos..e], e);
      LinesStep(content, pos);
      LinesOrdered(content, e);
      OrderedPrepend(line, Lines(content, e), pos, |content|);
      SingleBreaksPrepend(line, Lines(content, e));
    }
  }

  lemma OrderedPrepend(line: Line, rest: seq<Line>, lo: int, hi: int)
    requires lo < line.end <= hi && Ordered(rest, line.end, hi)
    ensures Ordered([line] + rest, lo, hi)
  {
  }

  lemma SingleBreaksPrepend(line: Line, rest: seq<Line>)
    requires |line.text| > 0 && forall j :: 0 <= j < |line.text| - 1 ==> line.text[j] != '\n'
    requires forall i, j :: 0 <= i < |rest| && 0 <= j < |rest[i].text| - 1 ==> rest[i].text[j] != '\n'
    requires forall i :: 0 <= i < |rest| ==> |rest[i].text| > 0
    ensures var ls := [line] + rest;
      && (forall i, j :: 0 <= i < |ls| && 0 <= j < |ls[i].text| - 1 ==> ls[i].text[j] != '\n')
      && (forall i :: 0 <= i < |ls| ==> |ls[i].text| > 0)
  {
  }

  // ---------------------------------------------------------------- statements

  /** `substr($line, 0, 2) == '--'`: the raw line starts with two dashes. */
  predicate IsComment(line: string)
  {
    |line| >= 2 && line[0] == '-' && line[1] == '-'
  }

  /** A line the import passes over: a comment, or blank once trimmed. */
  predicate Skipped(line: string)
  {
    IsComment(line) || Trim(line) == ""
  }

  /** The trimmed line ends with a semicolon. */
  predicate Terminates(line: string)
  {
    var t := Trim(line);
    |t| > 0 && t[|t| - 1] == ';'
  }

  /** A statement the import executes: the raw kept lines it spans, and the offset
      just past its last line. */
  datatype Statement = Statement(text: string, end: nat)

  /** The statements formed from `lines` when `pending` holds the kept lines read
      since the last statement, and the unterminated text left at the end. */
  function Group(lines: seq<Line>, pending: string): (seq<Statement>, string)
  {
    if |lines| == 0 then ([], pending)
    else if Skipped(lines[0].text) then Group(lines[1..], pending)
    else if Terminates(lines[0].text) then
      var rest := Group(lines[1..], "");
      ([Statement(pending + lines[0].text, lines[0].end)] + rest.0, rest.1)
    else Group(lines[1..], pending + lines[0].text)
  }

  /** The statements a run starting at offset `start` executes, if all succeed. */
  function Statements(content: string, start: nat): seq<Statement>
  {
    Group(Lines(content, start), "").0
  }

  /** The texts of the lines that are not skipped. */
  function KeptTexts(lines: seq<Line>): seq<string>
  {
    if |lines| == 0 then []
    else (if Skipped(lines[0].text) then [] else [lines[0].text]) + KeptTexts(lines[1..])
  }

  /** The kept lines whose trimmed form ends with a semicolon. */
  function Terminators(lines: seq<Line>): seq<Line>
  {
    if |lines| == 0 then []
    else (if !Skipped(lines[0].text) && Terminates(lines[0].text) then [lines[0]] else [])
         + Terminators(lines[1..])
  }

  function StatementTexts(stmts: seq<Statement>): seq<string>
  {
    if |stmts| == 0 then [] else [stmts[0].text] + StatementTexts(stmts[1..])
  }

  /** The offsets a run writes to the checkpoint file after the given statements. */
  function Ends(stmts: seq<Statement>): seq<nat>
  {
    seq(|stmts|, i requires 0 <= i < |stmts| => stmts[i].end)
  }

  /** Statements are made of exactly the kept lines, in order and whole: the pending
      text followed by every kept line equals the statements' texts followed by the
      unterminated remainder. Skipped lines appear nowhere. */
  lemma {:induction false} GroupKeepsText(lines: seq<Line>, pending: string)
    ensures var r := Group(lines, pending);
      pending + Concat(KeptTexts(lines)) == Concat(StatementTexts(r.0)) + r.1
  {
    if |lines| > 0 {
      var line, rest := lines[0], lines[1..];
      if Skipped(line.text) {
        assert KeptTexts(lines) == [] + KeptTexts(rest) == KeptTexts(rest);
        GroupKeepsText(rest, pending);
      } else if Terminates(line.text) {
        var g := Group(rest, "");
        var stmts := [Statement(pending + line.text, line.end)] + g.0;
        GroupKeepsText(rest, "");
        assert "" + Concat(KeptTexts(rest)) == Concat(KeptTexts(rest));
        assert KeptTexts(lines) == [line.text] + KeptTexts(rest);
        assert stmts[1..] == g.0;
        assert StatementTexts(stmts) == [pending + line.text] + StatementTexts(g.0);
        assert Group(lines, pending) == (stmts, g.1);
        TerminatedKeepsText(pending, line.text, KeptTexts(rest), StatementTexts(g.0), g.1);
      } else {
        GroupKeepsText(rest, pending + line.text);
        assert KeptTexts(lines) == [line.text] + KeptTexts(rest);
        ConcatPrepend(line.text, KeptTexts(rest));
      }
    } else {
      assert Concat([]) == "";
    }
  }

  /** The text step of `GroupKeepsText` at a terminating line `t`: the pending text
      and `t` become the first statement. */
  lemma TerminatedKeepsText(pending: string, t: string, kept: seq<string>, texts: seq<string>, tail: string)
    requires Concat(kept) == Concat(texts) + tail
    ensures pending + Concat([t] + kept) == Concat([pending + t] + texts) + tail
  {
    ConcatPrepend(t, kept);
    ConcatPrepend(pending + t, texts);
  }

  /** There is one statement per terminating kept line, and it ends where that line
      ends: text after the last terminating line is never executed. */
  lemma {:induction false} GroupEnds(lines: seq<Line>, pending: string)
    ensures var r := Group(lines, pending).0;
      |r| == |Terminators(lines)| && forall i :: 0 <= i < |r| ==> r[i].end == Terminators(lines)[i].end
  {
    if |lines| > 0 {
      var line, rest := lines[0], lines[1..];
      if Skipped(line.text) {
        GroupEnds(rest, pending);
      } else if Terminates(line.text) {
        GroupEnds(rest, "");
      } else {
        GroupEnds(rest, pending + line.text);
      }
    }
  }

  lemma {:induction false} TerminatorsOrdered(lines: seq<Line>, lo: int, hi: int)
    requires Ordered(lines, lo, hi)
    ensures Ordered(Terminators(lines), lo, hi)
  {
    if |lines| > 0 {
      TerminatorsOrdered(lines[1..], lines[0].end, hi);
    }
  }

  /** The checkpoints a run writes strictly increase, all lie past the offset the run
      started from, and none lies past the end of the content. */
  lemma StatementEndsIncrease(content: string, start: nat)
    requires start <= |content|
    ensures var s := Statements(content, start);
      && (forall i :: 0 <= i < |s| ==> start < s[i].end <= |content|)
      && (forall i, j :: 0 <= i < j < |s| ==> s[i].end < s[j].end)
  {
    var ls := Lines(content, start);
    LinesOrdered(content, start);
    TerminatorsOrdered(ls, start, |content|);
    GroupEnds(ls, "");
  }

  /** Reading from the checkpoint written after statement `k` yields exactly the
      statements after it, so none that ended at or before the checkpoint is read
      again. */
  lemma {:induction false} ResumeAt(content: string, pos: nat, pending: string, k: nat)
    requires k < |Group(Lines(content, pos), pending).0|
    ensures var r := Group(Lines(content, pos), pending).0;
      Group(Lines(content, r[k].end), "").0 == r[k + 1..]
    decreases |content| - pos
  {
    assert pos < |content|;
    var e := LineEnd(content, pos);
    var text := content[pos..e];
    GroupAtLine(content, pos, pending);
    if Skipped(text) {
      ResumeAt(content, e, pending, k);
    } else if Terminates(text) {
      var r := Group(Lines(content, pos), pending).0;
      var g := Group(Lines(content, e), "").0;
      if k > 0 {
        ResumeAt(content, e, "", k - 1);
        assert r[k] == g[k - 1] && r[k + 1..] == g[k..];
      } else {
        assert r[0].end == e && r[1..] == g;
      }
    } else {
      ResumeAt(content, e, pending + text, k);
    }
  }

  /** How the statements from `pos` on follow from the first line. */
  lemma GroupAtLine(content: string, pos: nat, pending: string)
    requires pos < |content|
    ensures var e := LineEnd(content, pos);
      var text := content[pos..e];
      var r := Group(Lines(content, pos), pending);
      && (Skipped(text) ==> r == Group(Lines(content, e), pending))
      && (!Skipped(text) && Terminates(text) ==>
            r.0 == [Statement(pending + text, e)] + Group(Lines(content, e), "").0)
      && (!Skipped(text) && !Terminates(text) ==> r == Group(Lines(content, e), pending + text))
  {
    LinesStep(content, pos);
  }

  /** A run resumed from the checkpoint after statement `k` executes statement
      `k + 1` onwards. */
  lemma ResumeFromCheckpoint(content: string, start: nat, k: nat)
    requires k < |Statements(content, start)|
    ensures Statements(content, Statements(content, start)[k].end) == Statements(content, start)[k + 1..]
  {
    ResumeAt(content, start, "", k);
  }

  /** Content made only of comments and blank lines holds no statement. */
  lemma {:induction false} OnlySkippedLines(lines: seq<Line>, pending: string)
    requires forall i :: 0 <= i < |lines| ==> Skipped(lines[i].text)
    ensures Group(lines, pending) == ([], pending)
  {
    if |lines| > 0 {
      OnlySkippedLines(lines[1..], pending);
    }
  }

  /** A comment must start the raw line: an indented `--` line is kept, and one at
      the start of the line is skipped. */
  lemma CommentsStartTheLine()
    ensures Skipped("-- note\n")
    ensures !Skipped("  -- note\n")
    ensures !Skipped("  --;\n") && Terminates("  --;\n")
  {
    IndentedCommentKept();
    IndentedTerminatorKept();
  }

  lemma IndentedCommentKept()
    ensures !Skipped("  -- note\n")
  {
    assert TrimLeft("  -- note\n") == "-- note\n";
    assert TrimRight("-- note\n") == "-- note";
  }

  lemma IndentedTerminatorKept()
    ensures !Skipped("  --;\n") && Terminates("  --;\n")
  {
    assert TrimLeft("  --;\n") == "--;\n";
    assert TrimRight("--;\n") == "--;";
  }

  // ---------------------------------------------------------------- runs

  /** The index of the first statement the executor rejects, or the number of
      statements if it accepts them all. */
  function FirstFailure(stmts: seq<Statement>, ok: string -> bool): (k: nat)
    ensures k <= |stmts|
    ensures forall i :: 0 <= i < k ==> ok(stmts[i].text)
    ensures k < |stmts| ==> !ok(stmts[k].text)
  {
    if |stmts| == 0 || !ok(stmts[0].text) then 0 else 1 + FirstFailure(stmts[1..], ok)
  }

  lemma {:induction false} FirstFailureIs(stmts: seq<Statement>, ok: string -> bool, k: nat)
    requires k <= |stmts|
    requires forall i :: 0 <= i < k ==> ok(stmts[i].text)
    requires k < |stmts| ==> !ok(stmts[k].text)
    ensures FirstFailure(stmts, ok) == k
  {
    if k > 0 {
      FirstFailureIs(stmts[1..], ok, k - 1);
    }
  }

  /** The offset a run starts reading at: the checkpoint if there is one. */
  function StartOf(checkpoint: Option<nat>): nat
  {
    if checkpoint.Some? then checkpoint.value else 0
  }

  /** The read-and-execute loop both variants share: read lines until `fgets`
      answers false, skip comments and blank lines, append the rest to the pending
      statement, and execute it when a line ends with a semicolon. After each
      success the pending text is reset, the offset after the line is written to the
      checkpoint file and the query count increases; the first rejected statement
      stops the loop. */
  method RunStatements(content: string, start: nat, ok: string -> bool)
    returns (queries: nat, failed: Option<string>, written: seq<nat>)
    ensures var s := Statements(content, start);
      var k := FirstFailure(s, ok);
      && queries == k
      && written == Ends(s[..k])
      && (failed.None? <==> k == |s|)
      && (failed.Some? ==> failed.value == s[k].text)
  {
    ghost var all := Statements(content, start);
    var pos := start;
    var pending := "";
    queries := 0;
    written := [];
    while pos < |content|
      invariant queries <= |all|
      invariant all[queries..] == Group(Lines(content, pos), pending).0
      invariant forall i :: 0 <= i < queries ==> ok(all[i].text)
      invariant written == Ends(all[..queries])
      decreases |content| - pos
    {
      var e := LineEnd(content, pos);
      var line := content[pos..e];
      GroupAtLine(content, pos, pending);
      pos := e;
      if Skipped(line) {
        continue;
      }
      pending := pending + line;
      if Terminates(line) {
        assert all[queries] == Statement(pending, e);
        if !ok(pending) {
          FirstFailureIs(all, ok, queries);
          return queries, Some(pending), written;
        }
        assert all[queries + 1..] == all[queries..][1..];
        pending := "";
        written := written + [pos];
        queries := queries + 1;
        assert written == Ends(all[..queries]);
      }
    }
    FirstFailureIs(all, ok, queries);
    failed := None;
  }

  /** What a run reports: its status, details and the number of statements run. */
  datatype Status = Success | Fail
  datatype Report = Report(status: Status, details: string, queries: nat)

  /** The report for a file that does not exist. */
  const NotFound: Report := Report(Fail, "Error: File not found.", 0)

  // ---------------------------------------------------------------- mysqli variant

  /** `tryImportSqlFile`: each statement goes through `query`, given here as whether
      that call returns or raises. A missing file reports failure without touching
      anything. A raised query propagates with the checkpoint left at the last
      statement that ran (or as it was, if none ran) and the client still open.
      Otherwise the run reports success with the number of statements, deletes the
      checkpoint and closes the client. */
  method TryImportMysqli(file: Option<string>, checkpoint: Option<nat>, ok: string -> bool)
    returns (out: Result<Report, string>, after: Option<nat>, written: seq<nat>, closed: bool)
    ensures file.None? ==> out == Ok(NotFound) && after == checkpoint && written == [] && !closed
    ensures file.Some? ==>
      var s := Statements(file.value, StartOf(checkpoint));
      var k := FirstFailure(s, ok);
      && written == Ends(s[..k])
      && (k == |s| ==> out == Ok(Report(Success, "", k)) && after == None && closed)
      && (k < |s| ==> out == Err(s[k].text) && !closed &&
                      after == (if k == 0 then checkpoint else Some(s[k - 1].end)))
  {
    if file.None? {
      return Ok(NotFound), checkpoint, [], false;
    }
    var queries, failed;
    queries, failed, written := RunStatements(file.value, StartOf(checkpoint), ok);
    if failed.Some? {
      after := if |written| == 0 then checkpoint else Some(written[|written| - 1]);
      return Err(failed.value), after, written, false;
    }
    return Ok(Report(Success, "", queries)), None, written, true;
  }

  /** After a query raised, running the import again re-executes that statement
      first and then the rest, and nothing before it. */
  lemma MysqliRetryResumes(content: string, checkpoint: Option<nat>, ok: string -> bool)
    requires StartOf(checkpoint) <= |content|
    requires FirstFailure(Statements(content, StartOf(checkpoint)), ok) < |Statements(content, StartOf(checkpoint))|
    ensures var s := Statements(content, StartOf(checkpoint));
      var k := FirstFailure(s, ok);
      var after := if k == 0 then checkpoint else Some(s[k - 1].end);
      Statements(content, StartOf(after)) == s[k..]
  {
    var s := Statements(content, StartOf(checkpoint));
    var k := FirstFailure(s, ok);
    if k > 0 {
      ResumeFromCheckpoint(content, StartOf(checkpoint), k - 1);
    }
  }

  // ---------------------------------------------------------------- PDO variant

  /** What `execute()` does with a prepared statement: succeeds, returns false, or
      throws a `PDOException`; the latter two come with `errorCode()` and the
      exported `errorInfo()`. */
  datatype Outcome = Executed | ReturnedFalse(code: string, info: string) | Threw(code: string, info: string)

  function Succeeded(exec: string -> Outcome): string -> bool
  {
    s => exec(s).Executed?
  }

  /** The message of a failed PDO run, naming the statement and the driver's error. */
  function FailureDetails(stmt: string, o: Outcome): string
  {
    match o
    case Executed => ""
    case ReturnedFalse(code, info) => "Error performing query '" + stmt + "': " + code + " - " + info
    case Threw(code, info) => "Error catch performing query '" + stmt + "': " + code + " - " + info
  }

  /** The checkpoint file and the error file, each absent or with its content. */
  datatype Files = Files(checkpoint: Option<nat>, errorLog: Option<string>)

  /** `PDOSqlFileImporter::tryImport`. A missing file reports failure without
      touching anything. Otherwise the first statement whose execution returns false
      or throws ends the run with a failure report naming it and counting the earlier
      successes, the same message plus a line feed in the error file, and the
      checkpoint deleted; a run in which every statement succeeds reports success
      with their number and deletes the checkpoint. */
  method TryImportPdo(file: Option<string>, files: Files, exec: string -> Outcome)
    returns (report: Report, after: Files, written: seq<nat>)
    ensures file.None? ==> report == NotFound && after == files && written == []
    ensures file.Some? ==>
      var s := Statements(file.value, StartOf(files.checkpoint));
      var k := FirstFailure(s, Succeeded(exec));
      && report.queries == k
      && written == Ends(s[..k])
      && after.checkpoint == None
      && (k == |s| ==> report == Report(Success, "", k) && after.errorLog == files.errorLog)
      && (k < |s| ==>
            && report.status == Fail
            && report.details == FailureDetails(s[k].text, exec(s[k].text))
            && after.errorLog == Some(report.details + "\n"))
  {
    if file.None? {
      return NotFound, files, [];
    }
    var queries, failed;
    queries, failed, written := RunStatements(file.value, StartOf(files.checkpoint), Succeeded(exec));
    if failed.Some? {
      var details := FailureDetails(failed.value, exec(failed.value));
      return Report(Fail, details, queries), Files(None, Some(details + "\n")), written;
    }
    return Report(Success, "", queries), files.(checkpoint := None), written;
  }

  /** The failure details name the statement and say whether `execute()` returned
      false or threw. */
  lemma FailureDetailsNameStatement(stmt: string, o: Outcome)
    requires !o.Executed?
    ensures var d := FailureDetails(stmt, o);
      var lead := if o.ReturnedFalse? then "Error performing query '" else "Error catch performing query '";
      && d[..|lead|] == lead
      && d[|lead|..|lead| + |stmt|] == stmt
      && d[|lead| + |stmt|..|lead| + |stmt| + 3] == "': "
  {
  }
}
