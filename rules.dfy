/** The static rule engine: a scan of unified-diff text that looks only at
    added lines and reports long lines, TODO markers, and, in Python files,
    `print(` calls and bare `except:` clauses. */
module Rules {
  import opened Wrappers
  import opened Text
  import opened Schemas

  /** Longest added line, not counting the leading `+`, that is not reported. */
  const MaxLineLength := 120

  const LongLine := Finding("style", None, "Line too long (>120 chars)", "Wrap or refactor long line", "info")
  const TodoLeft := Finding("best_practice", None, "TODO left in code", "Resolve TODO or link to a ticket", "warn")
  const PrintCall := Finding("best_practice", None, "print() in production code", "Use logging instead", "info")
  const BareExcept := Finding("bug", None, "Bare except", "Catch specific exception types", "warn")

  /** A line the diff adds: it starts with `+` but is not a `+++` file header. */
  predicate IsAddedLine(line: string) {
    StartsWith(line, "+") && !StartsWith(line, "+++")
  }

  predicate IsPythonFile(fileName: string) {
    EndsWith(fileName, ".py")
  }

  /** The length rule on the content after the `+`. */
  function LongLineFindings(content: string): seq<Finding> {
    if |content| > MaxLineLength then [LongLine] else []
  }

  function TodoFindings(content: string): seq<Finding> {
    if Contains(content, "TODO") then [TodoLeft] else []
  }

  function PrintFindings(fileName: string, content: string): seq<Finding> {
    if Contains(content, "print(") && IsPythonFile(fileName) then [PrintCall] else []
  }

  function BareExceptFindings(fileName: string, content: string): seq<Finding> {
    if Contains(content, "except:") && IsPythonFile(fileName) then [BareExcept] else []
  }

  /** The findings one line of the diff yields, in rule order. */
  function LineFindings(fileName: string, line: string): seq<Finding> {
    if !IsAddedLine(line) then []
    else
      var content := line[1..];
      LongLineFindings(content) + TodoFindings(content)
      + PrintFindings(fileName, content) + BareExceptFindings(fileName, content)
  }

  /** The findings of a sequence of lines, line after line. */
  function FindingsOfLines(fileName: string, lines: seq<string>): seq<Finding>
    decreases |lines|
  {
    if lines == [] then []
    else FindingsOfLines(fileName, lines[..|lines| - 1]) + LineFindings(fileName, lines[|lines| - 1])
  }

  /** What `quick_static_checks(file_name, patch)` returns. */
  function StaticFindings(fileName: string, patch: string): seq<Finding> {
    FindingsOfLines(fileName, SplitLines(patch))
  }

  /** The scan itself: one pass over the lines of the patch, appending the
      findings of each added line. */
  method QuickStaticChecks(fileName: string, patch: string) returns (issues: seq<Finding>)
    ensures issues == StaticFindings(fileName, patch)
  {
    var lines := SplitLines(patch);
    issues := [];
    for i := 0 to |lines|
      invariant issues == FindingsOfLines(fileName, lines[..i])
    {
      assert lines[..i + 1][..i] == lines[..i];
      issues := CheckLine(fileName, lines[i], issues);
    }
    assert lines[..|lines|] == lines;
  }

  /** The body of the scan for one line: skip it unless it is added, then
      apply the four rules in order. */
  method CheckLine(fileName: string, line: string, issues: seq<Finding>) returns (issues': seq<Finding>)
    ensures issues' == issues + LineFindings(fileName, line)
  {
    issues' := issues;
    if !StartsWith(line, "+") || StartsWith(line, "+++") {
      return;
    }
    var content := line[1..];
    if |content| > MaxLineLength {
      issues' := issues' + [LongLine];
    }
    assert issues' == issues + LongLineFindings(content);
    if Contains(content, "TODO") {
      issues' := issues' + [TodoLeft];
    }
    assert issues' == issues + LongLineFindings(content) + TodoFindings(content);
    if Contains(content, "print(") && EndsWith(fileName, ".py") {
      issues' := issues' + [PrintCall];
    }
    assert issues' == issues + LongLineFindings(content) + TodoFindings(content) + PrintFindings(fileName, content);
    if Contains(content, "except:") && EndsWith(fileName, ".py") {
      issues' := issues' + [BareExcept];
    }
    assert issues' == issues + (LongLineFindings(content) + TodoFindings(content)
      + PrintFindings(fileName, content) + BareExceptFindings(fileName, content));
  }

  /** One of the four findings the rules produce. */
  predicate IsRuleFinding(f: Finding) {
    f == LongLine || f == TodoLeft || f == PrintCall || f == BareExcept
  }

  /** The position of a rule in the fixed rule order. */
  function Rank(f: Finding): nat {
    if f == LongLine then 0 else if f == TodoLeft then 1 else if f == PrintCall then 2 else 3
  }

  /** A line yields at most one finding per rule, in rule order, each one of
      the four fixed findings. */
  lemma LineFindingsInRuleOrder(fileName: string, line: string)
    ensures var fs := LineFindings(fileName, line);
      |fs| <= 4
      && (forall i :: 0 <= i < |fs| ==> IsRuleFinding(fs[i]))
      && (forall i, j :: 0 <= i < j < |fs| ==> Rank(fs[i]) < Rank(fs[j]))
  {
  }

  /** Context, removed and header lines never yield a finding. */
  lemma NonAddedLineSilent(fileName: string, line: string)
    requires !IsAddedLine(line)
    ensures LineFindings(fileName, line) == []
  {
  }

  /** The length rule fires exactly when the content after the `+` is longer
      than 120 characters. */
  lemma LongLineRule(fileName: string, line: string)
    ensures LongLine in LineFindings(fileName, line) <==> IsAddedLine(line) && |line| - 1 > MaxLineLength
  {
  }

  /** The TODO rule fires exactly when the content contains `TODO`, whatever
      the file name. */
  lemma TodoRule(fileName: string, line: string)
    ensures TodoLeft in LineFindings(fileName, line) <==> IsAddedLine(line) && Contains(line[1..], "TODO")
  {
  }

  /** The print rule fires exactly in Python files whose content contains `print(`. */
  lemma PrintRule(fileName: string, line: string)
    ensures PrintCall in LineFindings(fileName, line)
      <==> IsAddedLine(line) && Contains(line[1..], "print(") && IsPythonFile(fileName)
  {
  }

  /** The bare-except rule fires exactly in Python files whose content contains `except:`. */
  lemma BareExceptRule(fileName: string, line: string)
    ensures BareExcept in LineFindings(fileName, line)
      <==> IsAddedLine(line) && Contains(line[1..], "except:") && IsPythonFile(fileName)
  {
  }

  /** Outside Python files only the length and TODO rules apply. */
  lemma NonPythonAtMostTwo(fileName: string, line: string)
    requires !IsPythonFile(fileName)
    ensures |LineFindings(fileName, line)| <= 2
  {
  }

  /** Findings follow line order: the findings of two runs of lines are
      those of the first run, then those of the second. */
  lemma {:induction false} FindingsOfLinesAppend(fileName: string, a: seq<string>, b: seq<string>)
    ensures FindingsOfLines(fileName, a + b) == FindingsOfLines(fileName, a) + FindingsOfLines(fileName, b)
    decreases |b|
  {
    if b != [] {
      var b' := b[..|b| - 1];
      assert (a + b)[..|a + b| - 1] == a + b';
      assert (a + b)[|a + b| - 1] == b[|b| - 1];
      FindingsOfLinesAppend(fileName, a, b');
    } else {
      assert a + b == a;
    }
  }

  /** The added lines among `lines`, in order. */
  function AddedLines(lines: seq<string>): seq<string>
    decreases |lines|
  {
    if lines == [] then []
    else AddedLines(lines[..|lines| - 1]) + (if IsAddedLine(lines[|lines| - 1]) then [lines[|lines| - 1]] else [])
  }

  /** Only added lines matter, and each yields at most four findings. */
  lemma {:induction false} OnlyAddedLinesMatter(fileName: string, lines: seq<string>)
    ensures FindingsOfLines(fileName, lines) == FindingsOfLines(fileName, AddedLines(lines))
    ensures |FindingsOfLines(fileName, lines)| <= 4 * |AddedLines(lines)|
    decreases |lines|
  {
    if lines != [] {
      var init, last := lines[..|lines| - 1], lines[|lines| - 1];
      OnlyAddedLinesMatter(fileName, init);
      LineFindingsInRuleOrder(fileName, last);
      if IsAddedLine(last) {
        FindingsOfLinesAppend(fileName, AddedLines(init), [last]);
        assert [last][..0] == [];
      } else {
        assert AddedLines(lines) == AddedLines(init);
      }
    }
  }

  /** Every static finding is one of the four fixed findings; none has a
      line number and none is critical. */
  lemma {:induction false} StaticFindingsShape(fileName: string, lines: seq<string>)
    ensures forall i :: 0 <= i < |FindingsOfLines(fileName, lines)| ==>
      IsRuleFinding(FindingsOfLines(fileName, lines)[i])
      && FindingsOfLines(fileName, lines)[i].line == None
      && FindingsOfLines(fileName, lines)[i].severity != "critical"
    decreases |lines|
  {
    if lines != [] {
      var init, last := lines[..|lines| - 1], lines[|lines| - 1];
      StaticFindingsShape(fileName, init);
      LineFindingsInRuleOrder(fileName, last);
      var a, b := FindingsOfLines(fileName, init), LineFindings(fileName, last);
      forall i | 0 <= i < |a + b| ensures IsRuleFinding((a + b)[i]) {
        if i < |a| {
          assert (a + b)[i] == a[i] && IsRuleFinding(a[i]);
        } else {
          assert (a + b)[i] == b[i - |a|] && IsRuleFinding(b[i - |a|]);
        }
      }
    }
  }

  /** One line yields its own findings. */
  lemma SingleLine(fileName: string, line: string)
    ensures FindingsOfLines(fileName, [line]) == LineFindings(fileName, line)
  {
    assert [line][..0] == [];
  }

  /** A patch of two lines yields the findings of the first line, then
      those of the second. */
  lemma TwoLinePatch(fileName: string, first: string, second: string)
    requires '\n' !in first && '\n' !in second
    ensures StaticFindings(fileName, first + "\n" + second)
      == LineFindings(fileName, first) + LineFindings(fileName, second)
  {
    SplitTwoLines(first, second);
    SingleLine(fileName, first);
    if second != "" {
      SingleLine(fileName, second);
      FindingsOfLinesAppend(fileName, [first], [second]);
    }
  }

  /** An added line over the limit followed by an added line with a TODO
      yields the length finding, then the TODO finding. */
  lemma LongThenTodo(fileName: string, long: string, todo: string)
    requires '\n' !in long && '\n' !in todo
    requires IsAddedLine(long) && |long| - 1 > MaxLineLength
    requires IsAddedLine(todo) && Contains(todo[1..], "TODO")
    ensures var fs := StaticFindings(fileName, long + "\n" + todo);
      |fs| >= 2 && fs[0] == LongLine && TodoLeft in fs[1..]
  {
    TwoLinePatch(fileName, long, todo);
    TodoRule(fileName, todo);
    var a, b := LineFindings(fileName, long), LineFindings(fileName, todo);
    assert a[0] == LongLine;
    var k :| 0 <= k < |b| && b[k] == TodoLeft;
    assert (a + b)[1..][|a| - 1 + k] == TodoLeft;
  }

  /** An empty patch yields no findings. */
  lemma EmptyPatchSilent(fileName: string)
    ensures StaticFindings(fileName, "") == []
  {
  }
}
