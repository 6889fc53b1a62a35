/**
 * The line scanners of the editor's code-emotion feature: a C/C++ document,
 * taken as its sequence of lines, is scanned once for statements that
 * lack a semicolon and once for trailing white space, with a flag that
 * follows block comments from line to line. Both scans produce the
 * indices of the lines that get a decoration.
 */
module CodeEmotion {
  import opened Options
  import opened Text

  /** `isCppFile`. */
  predicate IsCppFile(languageId: string) {
    languageId == "c" || languageId == "cpp"
  }

  // ---------------------------------------------------------------------
  // stripComments

  // The first pass of `stripComments`: a lazy global regex that removes each
  // slash-star up to the first star-slash after it.
  function RemoveBlockComments(s: string): (r: string)
    decreases |s|
    ensures |r| <= |s|
  {
    match IndexOf(s, "/*")
    case None => s
    case Some(i) =>
      match IndexFrom(s, "*/", i + 2)
      case None => s
      case Some(j) => s[..i] + RemoveBlockComments(s[j + 2..])
  }

  // The second pass of `stripComments`: a multi-line global regex that removes
  // each double slash up to, not including, the end of its line.
  function RemoveLineComments(s: string): string
    decreases |s|
  {
    match IndexOf(s, "//")
    case None => s
    case Some(i) => s[..i] + RemoveLineComments(s[Span(s, i + 2, IsNotLineTerminator)..])
  }

  /** No `//` is left, and a text that does not start with one keeps its first character. */
  lemma {:induction false} RemoveLineCommentsSpec(s: string)
    ensures !Contains(RemoveLineComments(s), "//")
    ensures |s| > 0 && !StartsWith(s, "//") ==> |RemoveLineComments(s)| > 0 && RemoveLineComments(s)[0] == s[0]
    decreases |s|
  {
    match IndexOf(s, "//") {
      case None =>
      case Some(i) =>
        var k := Span(s, i + 2, IsNotLineTerminator);
        RemoveLineCommentsSpec(s[k..]);
        var rest := RemoveLineComments(s[k..]);
        assert !Contains(s[..i], "//") by {
          forall p | 0 <= p <= i - 2 ensures !OccursAt(s[..i], "//", p) {
            OccursAtPair(s, '/', '/', p);
            OccursAtPair(s[..i], '/', '/', p);
          }
        }
        assert k < |s| ==> !StartsWith(s[k..], "//") by {
          if k < |s| {
            assert s[k..][0] == s[k];
          }
        }
        NoDoubleSlashAcross(s[..i], rest);
    }
  }

  predicate IsNotLineTerminator(c: char) {
    !IsLineTerminator(c)
  }

  /** Two texts without `//` joined with no `/` on both sides of the seam. */
  lemma NoDoubleSlashAcross(a: string, b: string)
    requires !Contains(a, "//") && !Contains(b, "//")
    requires a == [] || b == [] || b[0] != '/'
    ensures !Contains(a + b, "//")
  {
    var s := a + b;
    forall p | 0 <= p <= |s| - 2 ensures !OccursAt(s, "//", p) {
      OccursAtPair(s, '/', '/', p);
      if p + 2 <= |a| {
        OccursAtPair(a, '/', '/', p);
        assert s[p] == a[p] && s[p + 1] == a[p + 1];
      } else if p >= |a| {
        OccursAtPair(b, '/', '/', p - |a|);
        assert s[p] == b[p - |a|] && s[p + 1] == b[p - |a| + 1];
      } else {
        assert s[p + 1] == b[0];
      }
    }
  }

  /** `stripComments`: the result holds no `//`. */
  function StripComments(code: string): (r: string)
    ensures !Contains(r, "//")
  {
    RemoveLineCommentsSpec(RemoveBlockComments(code));
    RemoveLineComments(RemoveBlockComments(code))
  }

  // A text without a slash-star has no block comment to remove.
  lemma NoBlockComment(s: string)
    requires !Contains(s, "/*")
    ensures RemoveBlockComments(s) == s
  {
  }

  // The first slash-star and the first star-slash after it delimit the run
  // that is removed.
  lemma BlockCommentRemoved(x: string, c: string, y: string)
    requires !Contains(x, "/*") && !Contains(c, "*/")
    ensures RemoveBlockComments(x + "/*" + c + "*/" + y) == x + RemoveBlockComments(y)
  {
    var s := x + "/*" + c + "*/" + y;
    var i, j := |x|, |x| + 2 + |c|;
    assert s[i] == '/' && s[i + 1] == '*';
    OccursAtPair(s, '/', '*', i);
    forall p | 0 <= p < i ensures !OccursAt(s, "/*", p) {
      OccursAtPair(s, '/', '*', p);
      OccursAtPair(x, '/', '*', p);
      assert s[p] == x[p];
      if p + 1 < i {
        assert s[p + 1] == x[p + 1];
      } else {
        assert s[p + 1] == '/';
      }
    }
    IndexFromIs(s, "/*", 0, i);
    assert s[j] == '*' && s[j + 1] == '/';
    OccursAtPair(s, '*', '/', j);
    forall p | i + 2 <= p < j ensures !OccursAt(s, "*/", p) {
      OccursAtPair(s, '*', '/', p);
      OccursAtPair(c, '*', '/', p - i - 2);
      assert s[p] == c[p - i - 2];
      if p + 1 < j {
        assert s[p + 1] == c[p - i - 1];
      } else {
        assert s[p + 1] == '*';
      }
    }
    IndexFromIs(s, "*/", i + 2, j);
    assert s[..i] == x;
    assert s[j + 2..] == y;
  }

  // A slash-star with no star-slash after it is not a match of the lazy
  // regex, so the rest of the text is kept as it is.
  lemma UnclosedBlockComment(x: string, c: string)
    requires !Contains(x, "/*") && !Contains(c, "*/")
    ensures RemoveBlockComments(x + "/*" + c) == x + "/*" + c
  {
    var s := x + "/*" + c;
    var i := |x|;
    assert s[i] == '/' && s[i + 1] == '*';
    OccursAtPair(s, '/', '*', i);
    forall p | 0 <= p < i ensures !OccursAt(s, "/*", p) {
      OccursAtPair(s, '/', '*', p);
      OccursAtPair(x, '/', '*', p);
      assert s[p] == x[p];
      if p + 1 < i {
        assert s[p + 1] == x[p + 1];
      } else {
        assert s[p + 1] == '/';
      }
    }
    IndexFromIs(s, "/*", 0, i);
    forall p | i + 2 <= p ensures !OccursAt(s, "*/", p) {
      OccursAtPair(s, '*', '/', p);
      if p + 1 < |s| {
        OccursAtPair(c, '*', '/', p - i - 2);
        assert s[p] == c[p - i - 2] && s[p + 1] == c[p - i - 1];
      }
    }
    assert IndexFrom(s, "*/", i + 2).None?;
  }

  /** The first `//` of `x + "//" + z` is the one after `x`. */
  lemma FirstDoubleSlash(x: string, z: string)
    requires !Contains(x, "//") && (x == [] || x[|x| - 1] != '/')
    ensures IndexOf(x + "//" + z, "//") == Some(|x|)
  {
    var s := x + "//" + z;
    var i := |x|;
    assert s[i] == '/' && s[i + 1] == '/';
    OccursAtPair(s, '/', '/', i);
    forall p | 0 <= p < i ensures !OccursAt(s, "//", p) {
      OccursAtPair(s, '/', '/', p);
      OccursAtPair(x, '/', '/', p);
      assert s[p] == x[p];
      if p + 1 < i {
        assert s[p + 1] == x[p + 1];
      }
    }
    IndexFromIs(s, "//", 0, i);
  }

  /** A `//` removes up to, and not including, the end of its line. */
  lemma LineCommentRemoved(x: string, c: string, y: string)
    requires !Contains(x, "//") && (x == [] || x[|x| - 1] != '/')
    requires forall m :: 0 <= m < |c| ==> !IsLineTerminator(c[m])
    requires y == [] || IsLineTerminator(y[0])
    ensures RemoveLineComments(x + "//" + c + y) == x + RemoveLineComments(y)
  {
    var s := x + "//" + c + y;
    FirstDoubleSlash(x, c + y);
    assert s == x + "//" + (c + y);
    CommentEnd(x, c, y);
    LineCommentAt(s, |x|);
  }

  /** One step of the second pass, at the first `//`. */
  lemma LineCommentAt(s: string, i: nat)
    requires IndexOf(s, "//") == Some(i)
    ensures RemoveLineComments(s) == s[..i] + RemoveLineComments(s[Span(s, i + 2, IsNotLineTerminator)..])
  {
  }

  /** The comment after `x` runs to the end of its line, where `y` starts. */
  lemma CommentEnd(x: string, c: string, y: string)
    requires forall m :: 0 <= m < |c| ==> !IsLineTerminator(c[m])
    requires y == [] || IsLineTerminator(y[0])
    ensures var s := x + "//" + c + y;
      Span(s, |x| + 2, IsNotLineTerminator) == |x| + 2 + |c| && s[..|x|] == x && s[|x| + 2 + |c|..] == y
  {
    var s := x + "//" + c + y;
    SpanOver(x + "//", c, y, IsNotLineTerminator);
    assert s[..|x|] == x;
    assert s[|x| + 2 + |c|..] == y;
  }

  // ---------------------------------------------------------------------
  // The line scans

  /** The new block-comment flag and whether the line gets a decoration. */
  datatype LineVerdict = LineVerdict(inside: bool, flag: bool)

  /** The flag and the decorated line indices after the first lines. */
  datatype ScanState = ScanState(inside: bool, flagged: seq<nat>)

  /**
   * The loop over the first `i` lines with the per-line rule `step`: each
   * line is decorated at most once, in ascending order, and exactly when
   * `step` says so for the flag the line starts with.
   */
  function Scan(step: (bool, string) -> LineVerdict, lines: seq<string>, i: nat): ScanState
    requires i <= |lines|
  {
    if i == 0 then ScanState(false, [])
    else
      var s := Scan(step, lines, i - 1);
      var v := step(s.inside, lines[i - 1]);
      ScanState(v.inside, s.flagged + (if v.flag then [i - 1] else []))
  }

  /** The decorated indices are below `i` and strictly ascending. */
  lemma {:induction false} ScanOrdered(step: (bool, string) -> LineVerdict, lines: seq<string>, i: nat)
    requires i <= |lines|
    ensures forall k :: 0 <= k < |Scan(step, lines, i).flagged| ==> Scan(step, lines, i).flagged[k] < i
    ensures forall k, l :: 0 <= k < l < |Scan(step, lines, i).flagged| ==>
      Scan(step, lines, i).flagged[k] < Scan(step, lines, i).flagged[l]
  {
    if i > 0 {
      ScanOrdered(step, lines, i - 1);
    }
  }

  /** Line `j` is decorated exactly when `step` says so for the flag it starts with. */
  lemma {:induction false} ScanFlagged(step: (bool, string) -> LineVerdict, lines: seq<string>, i: nat, j: nat)
    requires j < i <= |lines|
    ensures j in Scan(step, lines, i).flagged <==> step(Scan(step, lines, j).inside, lines[j]).flag
  {
    var s := Scan(step, lines, i - 1);
    var v := step(s.inside, lines[i - 1]);
    assert Scan(step, lines, i).flagged == s.flagged + (if v.flag then [i - 1] else []);
    if j < i - 1 {
      ScanFlagged(step, lines, i - 1, j);
    } else {
      ScanOrdered(step, lines, i - 1);
      assert i - 1 !in s.flagged;
    }
  }

  /** One more line: `step` applied to the flag the line starts with. */
  lemma ScanAdvance(step: (bool, string) -> LineVerdict, lines: seq<string>, i: nat, st: ScanState, v: LineVerdict)
    requires i < |lines| && Scan(step, lines, i) == st && v == step(st.inside, lines[i])
    ensures Scan(step, lines, i + 1) == ScanState(v.inside, st.flagged + (if v.flag then [i] else []))
  {
  }

  /** The flag a line starts with. */
  function InsideAt(step: (bool, string) -> LineVerdict, lines: seq<string>, j: nat): bool
    requires j <= |lines|
  {
    Scan(step, lines, j).inside
  }

  /** The listed keywords of `checkMissingSemicolon`. */
  const Keywords: seq<string> := ["if", "for", "while", "switch", "return", "#include", "#define",
    "namespace", "class", "struct", "try", "catch"]

  /** No word character at `e`: `\b` after a keyword, which ends in a letter. */
  predicate BoundaryAt(t: string, e: int) {
    0 <= e && (e >= |t| || !IsWordChar(t[e]))
  }

  /** The keyword regex: a keyword anywhere, followed by a word boundary. */
  predicate HasKeyword(t: string) {
    exists k, i :: 0 <= k < |Keywords| && 0 <= i <= |t| && OccursAt(t, Keywords[k], i) && BoundaryAt(t, i + |Keywords[k]|)
  }

  predicate IsOperatorChar(c: char) {
    c == '=' || c == '+' || c == '-' || c == '*' || c == '/' || c == '&' || c == '|'
  }

  // The operator regex: an operator character, then white space to the end.
  predicate EndsWithOperator(t: string) {
    var k := SpanBack(t, |t|, IsSpace);
    0 < k && IsOperatorChar(t[k - 1])
  }

  /** On a trimmed line the operator test reads the last character. */
  lemma EndsWithOperatorTrimmed(line: string)
    ensures var t := Trim(line); EndsWithOperator(t) <==> t != [] && IsOperatorChar(t[|t| - 1])
  {
  }

  /** The per-line rule of `checkMissingSemicolon`, on the trimmed line. */
  function SemicolonStep(inside: bool, line: string): LineVerdict {
    var t := Trim(line);
    var ins := inside || StartsWith(t, "/*");
    if t == "" || StartsWith(t, "//") || ins || HasKeyword(t) || EndsWith(t, "{") || EndsWith(t, "}") then
      LineVerdict(if Contains(t, "*/") then false else ins, false)
    else
      LineVerdict(ins, !EndsWith(t, ";") && !EndsWith(t, ")") && !EndsWithOperator(t))
  }

  /** The trailing-space regex: white space up to the end. */
  predicate TrailingSpace(t: string) {
    SpanBack(t, |t|, IsSpace) < |t|
  }

  /** The regex reads the last character only. */
  lemma TrailingSpaceLast(t: string)
    ensures TrailingSpace(t) <==> t != [] && IsSpace(t[|t| - 1])
  {
  }

  /** The per-line rule of `checkTrailingWhitespace`, on the raw line. */
  function TrailingStep(inside: bool, line: string): LineVerdict {
    var ins := inside || StartsWith(line, "/*");
    if line == "" || StartsWith(line, "//") || ins then
      LineVerdict(if Contains(line, "*/") then false else ins, false)
    else
      LineVerdict(ins, |Trim(line)| > 0 && TrailingSpace(line))
  }

  // The comment flag in `checkMissingSemicolon`: it is set by a trimmed
  // line that starts with slash-star and cleared only by a skipped line
  // holding star-slash; a line seen with the flag set is never decorated.
  lemma SemicolonInside(lines: seq<string>, j: nat)
    requires j < |lines|
    ensures var t := Trim(lines[j]);
      var ins := InsideAt(SemicolonStep, lines, j) || StartsWith(t, "/*");
      InsideAt(SemicolonStep, lines, j + 1) == (ins && !Contains(t, "*/"))
      && (ins ==> j !in Scan(SemicolonStep, lines, |lines|).flagged)
  {
    ScanFlagged(SemicolonStep, lines, |lines|, j);
  }

  /** The comment flag in `checkTrailingWhitespace`, on raw lines. */
  lemma TrailingInside(lines: seq<string>, j: nat)
    requires j < |lines|
    ensures var line := lines[j];
      var ins := InsideAt(TrailingStep, lines, j) || StartsWith(line, "/*");
      InsideAt(TrailingStep, lines, j + 1) == (ins && !Contains(line, "*/"))
      && (ins ==> j !in Scan(TrailingStep, lines, |lines|).flagged)
  {
    ScanFlagged(TrailingStep, lines, |lines|, j);
  }

  /** The lines `checkMissingSemicolon` decorates. */
  lemma SemicolonFlagged(lines: seq<string>, j: nat)
    requires j < |lines|
    ensures var t := Trim(lines[j]);
      j in Scan(SemicolonStep, lines, |lines|).flagged <==>
        !InsideAt(SemicolonStep, lines, j) && !StartsWith(t, "/*")
        && t != "" && !StartsWith(t, "//") && !HasKeyword(t)
        && (var last := t[|t| - 1];
            last != '{' && last != '}' && last != ';' && last != ')' && !IsOperatorChar(last))
  {
    ScanFlagged(SemicolonStep, lines, |lines|, j);
    var t := Trim(lines[j]);
    EndsWithOperatorTrimmed(lines[j]);
    if t != "" {
      var last := t[|t| - 1];
      assert EndsWith(t, "{") <==> last == '{';
      assert EndsWith(t, "}") <==> last == '}';
      assert EndsWith(t, ";") <==> last == ';';
      assert EndsWith(t, ")") <==> last == ')';
    }
  }

  /** The lines `checkTrailingWhitespace` decorates. */
  lemma TrailingFlagged(lines: seq<string>, j: nat)
    requires j < |lines|
    ensures var line := lines[j];
      j in Scan(TrailingStep, lines, |lines|).flagged <==>
        !InsideAt(TrailingStep, lines, j) && !StartsWith(line, "/*")
        && line != "" && !StartsWith(line, "//") && Trim(line) != ""
        && IsSpace(line[|line| - 1])
  {
    ScanFlagged(TrailingStep, lines, |lines|, j);
    TrailingSpaceLast(lines[j]);
  }

  /** The body of the loop in `checkMissingSemicolon`, for one line. */
  method SemicolonLine(inside: bool, line: string) returns (isInsideBlockComment: bool, flag: bool)
    ensures LineVerdict(isInsideBlockComment, flag) == SemicolonStep(inside, line)
  {
    isInsideBlockComment, flag := inside, false;
    var lineText := Trim(line);
    if StartsWith(lineText, "/*") {
      isInsideBlockComment := true;
    }
    if lineText == "" || StartsWith(lineText, "//") || isInsideBlockComment || HasKeyword(lineText)
      || EndsWith(lineText, "{") || EndsWith(lineText, "}")
    {
      if Contains(lineText, "*/") {
        isInsideBlockComment := false;
      }
    } else if !EndsWith(lineText, ";") && !EndsWith(lineText, ")") && !EndsWithOperator(lineText) {
      flag := true;
    }
  }

  /** The body of the loop in `checkTrailingWhitespace`, for one line. */
  method TrailingLine(inside: bool, line: string) returns (isInsideBlockComment: bool, flag: bool)
    ensures LineVerdict(isInsideBlockComment, flag) == TrailingStep(inside, line)
  {
    isInsideBlockComment, flag := inside, false;
    var lineText := line;
    if StartsWith(lineText, "/*") {
      isInsideBlockComment := true;
    }
    if lineText == "" || StartsWith(lineText, "//") || isInsideBlockComment {
      if Contains(lineText, "*/") {
        isInsideBlockComment := false;
      }
    } else if |Trim(lineText)| > 0 && TrailingSpace(lineText) {
      flag := true;
    }
  }

  /**
   * The loop both checks share: the block-comment flag is threaded from
   * line to line and the index of each line the rule flags is pushed.
   */
  method ScanLines(step: (bool, string) -> LineVerdict, lines: seq<string>) returns (decorations: seq<nat>)
    ensures decorations == Scan(step, lines, |lines|).flagged
  {
    decorations := [];
    var isInsideBlockComment := false;
    var i := 0;
    while i < |lines|
      invariant i <= |lines|
      invariant Scan(step, lines, i) == ScanState(isInsideBlockComment, decorations)
    {
      var v := step(isInsideBlockComment, lines[i]);
      ScanAdvance(step, lines, i, ScanState(isInsideBlockComment, decorations), v);
      isInsideBlockComment := v.inside;
      if v.flag {
        decorations := decorations + [i];
      }
      i := i + 1;
    }
  }

  /** `checkMissingSemicolon`: the indices of the decorated lines. */
  method CheckMissingSemicolon(languageId: string, lines: seq<string>) returns (decorations: seq<nat>)
    ensures !IsCppFile(languageId) ==> decorations == []
    ensures IsCppFile(languageId) ==> decorations == Scan(SemicolonStep, lines, |lines|).flagged
  {
    decorations := [];
    if !IsCppFile(languageId) {
      return;
    }
    decorations := ScanLines(SemicolonStep, lines);
  }

  /** `checkTrailingWhitespace`: the indices of the decorated lines. */
  method CheckTrailingWhitespace(languageId: string, lines: seq<string>) returns (decorations: seq<nat>)
    ensures !IsCppFile(languageId) ==> decorations == []
    ensures IsCppFile(languageId) ==> decorations == Scan(TrailingStep, lines, |lines|).flagged
  {
    decorations := [];
    if !IsCppFile(languageId) {
      return;
    }
    decorations := ScanLines(TrailingStep, lines);
  }
}
