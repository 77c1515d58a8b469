/**
 * The animated code window (src/components/ui/CodeWindow.tsx): a counter
 * advanced by an interval decides which lines are lit and where the cursor
 * is, and a chain of substring tests gives each line its colour. The timer
 * itself is not modelled: `Tick` is one firing of the interval callback.
 */
module CodeWindow {

  const CodeLines: seq<string> := [
    "class Developer {",
    "  constructor() {",
    "    this.name = 'KerYagciHTL';",
    "    this.school = 'HTL Leonding';",
    "    this.languages = [",
    "      'C', 'C++', 'C#', 'Java',",
    "      'JavaScript', 'TypeScript'",
    "    ];",
    "    this.passion = 'Clean Code';",
    "  }",
    "",
    "  async buildFuture() {",
    "    return 'Amazing Projects';",
    "  }",
    "}"
  ]

  /** `codeLines.length + 2`: the counter runs two steps past the last line before it wraps. */
  const Period: nat := |CodeLines| + 2

  lemma PeriodIs17()
    ensures |CodeLines| == 15 && Period == 17
  {
  }

  // ---------------------------------------------------------------------
  // The counter

  /** `(prev + 1) % (codeLines.length + 2)`. */
  function NextLine(prev: nat): (r: nat)
    ensures r < Period
    ensures prev + 1 < Period ==> r == prev + 1
    ensures prev + 1 == Period ==> r == 0
  {
    (prev + 1) % Period
  }

  /** The counter after `n` firings of the interval. */
  function LineAfter(n: nat): (r: nat)
    ensures r < Period
  {
    if n == 0 then 0 else NextLine(LineAfter(n - 1))
  }

  /** After `n` firings the counter is `n` modulo the period: it cycles through 0 .. 16. */
  lemma {:induction false} LineAfterIsModulo(n: nat)
    ensures LineAfter(n) == n % Period
  {
    if n > 0 {
      LineAfterIsModulo(n - 1);
      var m := (n - 1) % Period;
      assert n - 1 == ((n - 1) / Period) * Period + m;
      if m + 1 < Period {
        assert n == ((n - 1) / Period) * Period + (m + 1);
      } else {
        assert n == ((n - 1) / Period + 1) * Period;
      }
    }
  }

  /** The `currentLine` state of the component. */
  class Ticker {
    var currentLine: nat

    ghost predicate Valid()
      reads this
    {
      currentLine < Period
    }

    constructor ()
      ensures Valid() && currentLine == 0
    {
      currentLine := 0;
    }

    /** One firing of the interval callback. */
    method Tick()
      requires Valid()
      modifies this
      ensures Valid()
      ensures currentLine == (old(currentLine) + 1) % Period
    {
      currentLine := NextLine(currentLine);
    }
  }

  // ---------------------------------------------------------------------
  // Lit lines and the cursor

  /** `index <= currentLine`: the line is shown at full opacity. */
  predicate IsLit(index: nat, currentLine: nat)
    ensures index == 0 ==> IsLit(index, currentLine)
  {
    index <= currentLine
  }

  /** `index === currentLine`: the cursor block follows the line. */
  predicate HasCursor(index: nat, currentLine: nat)
    ensures HasCursor(index, currentLine) ==> IsLit(index, currentLine)
  {
    index == currentLine
  }

  /** The lines that carry the cursor. */
  function CursorLines(currentLine: nat): (s: set<nat>)
    ensures forall i: nat :: i in s <==> i < |CodeLines| && HasCursor(i, currentLine)
  {
    if currentLine < |CodeLines| then {currentLine} else {}
  }

  /** The cursor is on at most one line, and on none in the two steps past the last line. */
  lemma CursorOnAtMostOneLine(currentLine: nat)
    ensures |CursorLines(currentLine)| <= 1
    ensures currentLine >= |CodeLines| ==> CursorLines(currentLine) == {}
  {
  }

  /** In the two steps past the last line every line is lit and none has the cursor. */
  lemma AllLitPastTheEnd(currentLine: nat)
    requires |CodeLines| <= currentLine < Period
    ensures forall i :: 0 <= i < |CodeLines| ==> IsLit(i, currentLine) && !HasCursor(i, currentLine)
  {
  }

  /** The lit lines are exactly the lines up to the counter: the prefix grows by one line per step. */
  lemma LitIsPrefix(currentLine: nat, i: nat, j: nat)
    requires i <= j && IsLit(j, currentLine)
    ensures IsLit(i, currentLine)
  {
  }

  // ---------------------------------------------------------------------
  // Line colours

  datatype Colour = Purple | Green | Cyan | Yellow | White

  /** `sub` occurs in `s` starting at position `i`. */
  predicate OccursAt(s: string, sub: string, i: int)
  {
    0 <= i <= |s| - |sub| && s[i..i + |sub|] == sub
  }

  /** `s.includes(sub)`: `sub` occurs at some position of `s`. */
  predicate Contains(s: string, sub: string)
    ensures Contains(s, sub) ==> |sub| <= |s|
  {
    exists i :: 0 <= i <= |s| - |sub| && OccursAt(s, sub, i)
  }

  /** A one-character pattern is contained exactly when the character occurs. */
  lemma ContainsChar(s: string, c: char)
    ensures Contains(s, [c]) <==> c in s
  {
    if c in s {
      var i :| 0 <= i < |s| && s[i] == c;
      assert s[i..i + 1] == [c];
      assert OccursAt(s, [c], i);
    }
    if Contains(s, [c]) {
      var i :| 0 <= i <= |s| - 1 && OccursAt(s, [c], i);
      assert s[i..i + 1] == [c];
      assert s[i] == s[i..i + 1][0];
    }
  }

  /** A pattern with a character the line lacks is not contained in it. */
  lemma MissingCharExcludes(s: string, sub: string, c: char)
    requires c in sub && c !in s
    ensures !Contains(s, sub)
  {
    forall i | 0 <= i <= |s| - |sub|
      ensures !OccursAt(s, sub, i)
    {
      var k :| 0 <= k < |sub| && sub[k] == c;
      assert s[i..i + |sub|][k] == s[i + k];
    }
  }

  /** `this.` needs a dot in the line. */
  lemma ThisNeedsDot(line: string)
    ensures Contains(line, "this.") ==> '.' in line
  {
    if Contains(line, "this.") {
      var i :| 0 <= i <= |line| - 5 && OccursAt(line, "this.", i);
      assert line[i..i + 5][4] == line[i + 4];
    }
  }

  /** A keyword test: the line holds `class`, `constructor` or `async`. */
  predicate IsKeywordLine(line: string)
    ensures IsKeywordLine(line) ==> |line| >= 5
  {
    Contains(line, "class") || Contains(line, "constructor") || Contains(line, "async")
  }

  /** The string-literal test: the line holds a single or a double quote. */
  predicate HasQuote(line: string)
    ensures HasQuote(line) <==> '\'' in line || '"' in line
  {
    ContainsChar(line, '\'');
    ContainsChar(line, '"');
    Contains(line, "'") || Contains(line, "\"")
  }

  /** The member-access test: the line holds `this.`. */
  predicate HasThis(line: string)
    ensures HasThis(line) ==> '.' in line && |line| >= 5
  {
    ThisNeedsDot(line);
    Contains(line, "this.")
  }

  /** The bracket test: the line holds a brace or a square bracket. */
  predicate HasBracket(line: string)
    ensures HasBracket(line) <==> '{' in line || '}' in line || '[' in line || ']' in line
  {
    ContainsChar(line, '{');
    ContainsChar(line, '}');
    ContainsChar(line, '[');
    ContainsChar(line, ']');
    Contains(line, "{") || Contains(line, "}") || Contains(line, "[") || Contains(line, "]")
  }

  /** The colour class of a line: the first test of the chain that holds decides. */
  function Classify(line: string): (c: Colour)
    ensures c == Purple <==> IsKeywordLine(line)
    ensures c == Green <==> !IsKeywordLine(line) && HasQuote(line)
    ensures c == Cyan <==> !IsKeywordLine(line) && !HasQuote(line) && HasThis(line)
    ensures c == Yellow <==> !IsKeywordLine(line) && !HasQuote(line) && !HasThis(line) && HasBracket(line)
    ensures c == White <==> !IsKeywordLine(line) && !HasQuote(line) && !HasThis(line) && !HasBracket(line)
  {
    if IsKeywordLine(line) then Purple
    else if HasQuote(line) then Green
    else if HasThis(line) then Cyan
    else if HasBracket(line) then Yellow
    else White
  }

  /** A keyword wins over every other test. */
  lemma KeywordWins(line: string)
    requires IsKeywordLine(line)
    ensures Classify(line) == Purple
  {
  }

  /** Without a keyword, a quote wins over `this.`, which wins over brackets. */
  lemma QuoteBeatsThisBeatsBracket(line: string)
    requires !IsKeywordLine(line)
    ensures HasQuote(line) ==> Classify(line) == Green
    ensures !HasQuote(line) && HasThis(line) ==> Classify(line) == Cyan
    ensures !HasQuote(line) && !HasThis(line) && HasBracket(line) ==> Classify(line) == Yellow
  {
  }

  /** "class Developer {" is purple. */
  lemma ClassLineColour()
    ensures Classify(CodeLines[0]) == Purple
  {
    var line := CodeLines[0];
    assert line[0..5] == "class";
    assert OccursAt(line, "class", 0);
  }

  /** "constructor() {" is purple. */
  lemma ConstructorLineColour()
    ensures Classify(CodeLines[1]) == Purple
  {
    var line := CodeLines[1];
    assert line[2..13] == "constructor";
    assert OccursAt(line, "constructor", 2);
  }

  /** "async buildFuture() {" is purple. */
  lemma AsyncLineColour()
    ensures Classify(CodeLines[11]) == Purple
  {
    var line := CodeLines[11];
    assert line[2..7] == "async";
    assert OccursAt(line, "async", 2);
  }

  /** "this.name = 'KerYagciHTL';" has a quote and `this.`: the quote wins, green. */
  lemma QuotedLineColour()
    ensures Classify(CodeLines[2]) == Green
  {
    var line := CodeLines[2];
    MissingCharExcludes(line, "class", 'l');
    MissingCharExcludes(line, "constructor", 'o');
    MissingCharExcludes(line, "async", 'y');
    ContainsChar(line, '\'');
  }

  /** "this.languages = [" has `this.` and a bracket but no quote: cyan. */
  lemma ThisLineColour()
    ensures Classify(CodeLines[4]) == Cyan
  {
    var line := CodeLines[4];
    MissingCharExcludes(line, "class", 'c');
    MissingCharExcludes(line, "constructor", 'c');
    MissingCharExcludes(line, "async", 'y');
    ContainsChar(line, '\'');
    ContainsChar(line, '"');
    assert line[4..9] == "this.";
    assert OccursAt(line, "this.", 4);
  }

  /** "];" has only a bracket: yellow. */
  lemma BracketLineColour()
    ensures Classify(CodeLines[7]) == Yellow
  {
    var line := CodeLines[7];
    MissingCharExcludes(line, "class", 'c');
    MissingCharExcludes(line, "constructor", 'c');
    MissingCharExcludes(line, "async", 'a');
    ContainsChar(line, '\'');
    ContainsChar(line, '"');
    MissingCharExcludes(line, "this.", 't');
    ContainsChar(line, ']');
  }

  /** The empty line matches no test: white. */
  lemma EmptyLineColour()
    ensures Classify(CodeLines[10]) == White
  {
  }
}
