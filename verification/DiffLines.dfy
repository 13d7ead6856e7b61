/**
 The unified-diff parser of scripts/check_version_literals.py (`_added_lines_by_path`), against the shape git
 prints: file sections, hunks, and for every path the added new-file line numbers.
 A diff is a list of lines; how its text splits into lines is not part of this model.
 */
module DiffLines {
  import opened Common
  import opened GitPaths
  import opened Numerals
  import opened Text

  // ----- the parser -----

  datatype State = State(added: map<string, set<nat>>, path: Option<string>, line: nat, inHunk: bool)

  const INITIAL := State(map[], None, 0, false)

  /** The length of the run of non-space characters. */
  function WordRun(s: string): (n: nat)
    ensures n <= |s|
  {
    if s == "" || IsSpace(s[0]) then 0 else 1 + WordRun(s[1..])
  }

  /** The first new-file line of a hunk header `@@ -<old> +<start>...`, 0 when the line is not one. */
  function HunkStart(raw: string): nat {
    if !("@@ -" <= raw) then 0
    else
      var rest := raw[4..];
      var w := WordRun(rest);
      if w == 0 || !(" +" <= rest[w..]) then 0
      else
        var number := rest[w + 2..];
        Number(number[..DigitRun(number)])
  }

  /** added.setdefault(path, set()).add(line) */
  function Mark(added: map<string, set<nat>>, path: string, line: nat): map<string, set<nat>> {
    added[path := (if path in added then added[path] else {}) + {line}]
  }

  function Step(st: State, raw: string): State {
    if "diff --git" <= raw then st.(path := None, inHunk := false)
    else if "@@" <= raw then st.(line := HunkStart(raw), inHunk := true)
    else if !st.inHunk then
      if "+++ " <= raw then
        var name := DiffHeaderName(raw[4..]);
        st.(path := if "b/" <= name then Some(name[2..]) else None)
      else st
    else if "+" <= raw then
      st.(added := if st.path.Some? then Mark(st.added, st.path.value, st.line) else st.added, line := st.line + 1)
    else if "-" <= raw || "\\" <= raw then st
    else st.(line := st.line + 1)
  }

  /** What starts a section and what starts a hunk, whatever follows on the line and wherever the parser is. */
  lemma Starts(st: State, tail: string)
    ensures Step(st, "diff --git" + tail) == st.(path := None, inHunk := false)
    ensures Step(st, "@@" + tail) == st.(line := HunkStart("@@" + tail), inHunk := true)
  {
    hide HunkStart, DiffHeaderName, Mark;
    assert ("@@" + tail)[0] == '@' && ("diff --git" + tail)[0] == 'd';
  }

  function ParseFrom(st: State, lines: seq<string>): State
    decreases |lines|
  {
    if lines == [] then st else ParseFrom(Step(st, lines[0]), lines[1..])
  }

  method AddedLinesByPath(lines: seq<string>) returns (added: map<string, set<nat>>)
    ensures added == ParseFrom(INITIAL, lines).added
  {
    added := map[];
    var path: Option<string> := None;
    var lineno, inHunk := 0, false;
    for i := 0 to |lines|
      invariant ParseFrom(State(added, path, lineno, inHunk), lines[i..]) == ParseFrom(INITIAL, lines)
    {
      var raw := lines[i];
      assert lines[i..][1..] == lines[i + 1..];
      if "diff --git" <= raw {
        path, inHunk := None, false;
        continue;
      }
      if "@@" <= raw {
        lineno, inHunk := HunkStart(raw), true;
        continue;
      }
      if !inHunk {
        if "+++ " <= raw {
          var name := DiffHeaderName(raw[4..]);
          path := if "b/" <= name then Some(name[2..]) else None;
        }
        continue;
      }
      if "+" <= raw {
        if path.Some? {
          added := Mark(added, path.value, lineno);
        }
        lineno := lineno + 1;
      } else if !("-" <= raw) && !("\\" <= raw) {
        lineno := lineno + 1;
      }
    }
  }

  // ----- what git prints -----

  /** A line of a hunk: its text, or the marker that the file has no final newline. */
  datatype Line = Added(text: string) | Removed(text: string) | Context(text: string) | NoNewline(text: string)

  /** The old range and whatever follows the start are printed as given. */
  datatype Hunk = Hunk(before: string, start: nat, tail: string, lines: seq<Line>)

  /** The new file's header line: none (a pure rename or mode change), /dev/null (a deleted file) or its path. */
  datatype Target = NoFile | Deleted | NewFile(path: string)

  datatype Section = Section(names: string, header: seq<string>, target: Target, hunks: seq<Hunk>)

  function PrintLine(l: Line): string {
    match l
    case Added(t) => "+" + t
    case Removed(t) => "-" + t
    case Context(t) => " " + t
    case NoNewline(t) => "\\" + t
  }

  function PrintLines(lines: seq<Line>): seq<string> {
    if lines == [] then [] else [PrintLine(lines[0])] + PrintLines(lines[1..])
  }

  function HunkHeader(h: Hunk): string {
    "@@ -" + (h.before + (" +" + (Decimal(h.start) + h.tail)))
  }

  function PrintHunks(hunks: seq<Hunk>): seq<string> {
    if hunks == [] then [] else [HunkHeader(hunks[0])] + PrintLines(hunks[0].lines) + PrintHunks(hunks[1..])
  }

  function PrintTarget(t: Target): seq<string>
    requires t.NewFile? ==> IsBytes("b/" + t.path)
  {
    match t
    case NoFile => []
    case Deleted => ["+++ " + "/dev/null"]
    case NewFile(path) => ["+++ " + PrintName("b/" + path)]
  }

  /** A header line that is neither a section start, a hunk header nor the new file's name. */
  predicate IsPlain(l: string) {
    !("diff --git" <= l) && !("@@" <= l) && !("+++ " <= l)
  }

  predicate IsHunk(h: Hunk) {
    IsWord(h.before) && (h.tail == "" || !IsDigit(h.tail[0]))
  }

  predicate IsSection(s: Section) {
    && (forall i :: 0 <= i < |s.header| ==> IsPlain(s.header[i]))
    && (s.target.NewFile? ==> IsBytes("b/" + s.target.path))
    && (forall i :: 0 <= i < |s.hunks| ==> IsHunk(s.hunks[i]))
  }

  function PrintSection(s: Section): seq<string>
    requires IsSection(s)
  {
    ["diff --git" + s.names] + s.header + PrintTarget(s.target) + PrintHunks(s.hunks)
  }

  predicate IsDiff(d: seq<Section>) {
    forall i :: 0 <= i < |d| ==> IsSection(d[i])
  }

  function PrintDiff(d: seq<Section>): seq<string>
    requires IsDiff(d)
  {
    if d == [] then [] else PrintSection(d[0]) + PrintDiff(d[1..])
  }

  // ----- which lines were added -----

  /** Lines of the new file among the first k of a hunk. */
  function NewLines(lines: seq<Line>, k: nat): nat
    requires k <= |lines|
  {
    if k == 0 then 0 else NewLines(lines, k - 1) + if lines[k - 1].Added? || lines[k - 1].Context? then 1 else 0
  }

  /** Line n of the new file is one this hunk adds. */
  ghost predicate HunkAdds(h: Hunk, n: nat) {
    exists k :: 0 <= k < |h.lines| && h.lines[k].Added? && n == h.start + NewLines(h.lines, k)
  }

  ghost predicate Adds(d: seq<Section>, path: string, n: nat) {
    exists i, j :: 0 <= i < |d| && 0 <= j < |d[i].hunks| && d[i].target == NewFile(path) && HunkAdds(d[i].hunks[j], n)
  }

  // ----- numbers -----

  predicate IsWord(s: string) {
    s != "" && forall i :: 0 <= i < |s| ==> !IsSpace(s[i])
  }

  lemma {:induction false} WordRunIs(word: string, tail: string)
    requires word == "" || IsWord(word)
    requires tail == "" || IsSpace(tail[0])
    ensures WordRun(word + tail) == |word|
    decreases |word|
  {
    if word == "" {
      assert word + tail == tail;
    } else {
      assert (word + tail)[1..] == word[1..] + tail;
      WordRunIs(word[1..], tail);
    }
  }

  /** A hunk header: the old range as one word, then the new start with its plus sign. */
  predicate IsHeader(raw: string, before: string, digits: string, tail: string) {
    && IsWord(before) && IsNumber(digits) && (tail == "" || !IsDigit(tail[0]))
    && raw == "@@ -" + (before + (" +" + (digits + tail)))
  }

  lemma HunkStartOf(raw: string, before: string, digits: string, tail: string)
    requires IsHeader(raw, before, digits, tail)
    ensures HunkStart(raw) == Number(digits)
  {
    var number := digits + tail;
    var end := " +" + number;
    assert raw[4..] == before + end;
    WordRunIs(before, end);
    assert (before + end)[|before|..] == end;
    assert (before + end)[|before| + 2..] == number;
    DigitRunIs(digits, tail);
    assert number[..|digits|] == digits;
  }

  lemma {:induction false} WordRunStops(s: string)
    ensures WordRun(s) > 0 ==> IsWord(s[..WordRun(s)])
    ensures WordRun(s) < |s| ==> IsSpace(s[WordRun(s)])
  {
    hide IsSpace, IsWord;
    if s != "" && !IsSpace(s[0]) {
      WordRunStops(s[1..]);
      LongerWord(s, WordRun(s[1..]));
    }
  }

  lemma LongerWord(s: string, w: nat)
    requires s != "" && !IsSpace(s[0]) && w <= |s[1..]| && (w > 0 ==> IsWord(s[1..][..w]))
    ensures IsWord(s[..1 + w])
  {
    hide IsSpace;
    assert s[..1 + w] == [s[0]] + s[1..][..w];
  }

  lemma HeaderParts(raw: string)
    requires HunkStart(raw) > 0
    ensures "@@ -" <= raw && WordRun(raw[4..]) > 0 && " +" <= raw[4..][WordRun(raw[4..])..]
    ensures DigitRun(raw[4..][WordRun(raw[4..]) + 2..]) > 0
  {
    hide WordRun, DigitRun, Number;
    NoNumber();
  }

  lemma HeaderReads(raw: string) returns (before: string, digits: string, tail: string)
    requires HunkStart(raw) > 0
    ensures IsHeader(raw, before, digits, tail)
  {
    hide WordRun, DigitRun, IsWord, IsDigit, HunkStart;
    HeaderParts(raw);
    var rest := raw[4..];
    var w := WordRun(rest);
    var number := rest[w + 2..];
    var d := DigitRun(number);
    before, digits, tail := rest[..w], number[..d], number[d..];
    WordRunStops(rest);
    DigitRunStops(number);
    SpelledOut(raw, w, d);
  }

  lemma SpelledOut(raw: string, w: nat, d: nat)
    requires "@@ -" <= raw && w <= |raw[4..]| && " +" <= raw[4..][w..] && d <= |raw[4..][w + 2..]|
    ensures var rest, number := raw[4..], raw[4..][w + 2..];
            raw == "@@ -" + (rest[..w] + (" +" + (number[..d] + number[d..])))
  {
    var rest, number := raw[4..], raw[4..][w + 2..];
    assert number == number[..d] + number[d..] && rest[w..] == " +" + number;
    assert rest == rest[..w] + rest[w..] && raw == "@@ -" + rest;
  }

  lemma NoNumber()
    ensures Number("") == 0
  {
  }

  /** Lines count from the number of the header, and from 0 when the line is no such header. */
  lemma HunkStartExactly(raw: string)
    ensures forall b, d, t :: IsHeader(raw, b, d, t) ==> HunkStart(raw) == Number(d)
    ensures (forall b, d, t :: !IsHeader(raw, b, d, t)) ==> HunkStart(raw) == 0
  {
    hide HunkStart;
    if HunkStart(raw) > 0 {
      var before, digits, tail := HeaderReads(raw);
    }
    forall b, d, t | IsHeader(raw, b, d, t)
      ensures HunkStart(raw) == Number(d)
    {
      HunkStartOf(raw, b, d, t);
    }
  }

  lemma HunkStartIs(h: Hunk)
    requires IsHunk(h)
    ensures HunkStart(HunkHeader(h)) == h.start
    ensures "@@" <= HunkHeader(h) && !("diff --git" <= HunkHeader(h))
  {
    DecimalDigits(h.start);
    HunkStartOf(HunkHeader(h), h.before, Decimal(h.start), h.tail);
    assert HunkHeader(h)[0] == '@' && HunkHeader(h)[1] == '@';
  }

  // ----- parsing what was printed -----

  lemma {:induction false} ParseParts(st: State, a: seq<string>, b: seq<string>)
    ensures ParseFrom(st, a + b) == ParseFrom(ParseFrom(st, a), b)
    decreases |a|
  {
    if a == [] {
      assert a + b == b;
    } else {
      assert (a + b)[1..] == a[1..] + b;
      ParseParts(Step(st, a[0]), a[1..], b);
    }
  }

  /** The new line numbers a hunk's remaining lines add, counting on from `line`. */
  function Numbers(lines: seq<Line>, line: nat): set<nat> {
    if lines == [] then {}
    else match lines[0]
         case Added(_) => {line} + Numbers(lines[1..], line + 1)
         case Context(_) => Numbers(lines[1..], line + 1)
         case _ => Numbers(lines[1..], line)
  }

  function MarkAll(added: map<string, set<nat>>, path: Option<string>, ns: set<nat>): map<string, set<nat>> {
    if path.None? || ns == {} then added
    else added[path.value := (if path.value in added then added[path.value] else {}) + ns]
  }

  lemma MarkThenAll(added: map<string, set<nat>>, path: string, n: nat, ns: set<nat>)
    ensures MarkAll(Mark(added, path, n), Some(path), ns) == MarkAll(added, Some(path), {n} + ns)
  {
    var before := if path in added then added[path] else {};
    assert before + {n} + ns == before + ({n} + ns);
    assert ns == {} ==> {n} + ns == {n};
  }

  lemma StepLine(st: State, l: Line)
    requires st.inHunk
    ensures Step(st, PrintLine(l)) ==
            match l
            case Added(_) => st.(added := if st.path.Some? then Mark(st.added, st.path.value, st.line) else st.added,
                                 line := st.line + 1)
            case Context(_) => st.(line := st.line + 1)
            case _ => st
  {
    var raw := PrintLine(l);
    assert raw[0] == match l
                     case Added(_) => '+' case Removed(_) => '-' case Context(_) => ' ' case NoNewline(_) => '\\';
  }

  lemma {:induction false} ParseLines(st: State, lines: seq<Line>)
    requires st.inHunk
    ensures var end := ParseFrom(st, PrintLines(lines));
            end.added == MarkAll(st.added, st.path, Numbers(lines, st.line)) && end.path == st.path && end.inHunk
    decreases |lines|
  {
    if lines != [] {
      StepLine(st, lines[0]);
      ParseLines(Step(st, PrintLine(lines[0])), lines[1..]);
      assert PrintLines(lines)[1..] == PrintLines(lines[1..]);
      if lines[0].Added? && st.path.Some? {
        MarkThenAll(st.added, st.path.value, st.line, Numbers(lines[1..], st.line + 1));
      }
    }
  }

  function HunkNumbers(hunks: seq<Hunk>): set<nat> {
    if hunks == [] then {} else Numbers(hunks[0].lines, hunks[0].start) + HunkNumbers(hunks[1..])
  }

  lemma AllThenAll(added: map<string, set<nat>>, path: Option<string>, a: set<nat>, b: set<nat>)
    ensures MarkAll(MarkAll(added, path, a), path, b) == MarkAll(added, path, a + b)
  {
    if path.Some? {
      var before := if path.value in added then added[path.value] else {};
      assert before + a + b == before + (a + b);
      assert a == {} ==> a + b == b;
      assert b == {} ==> a + b == a;
    }
  }

  lemma ParseHunk(st: State, h: Hunk)
    requires IsHunk(h)
    ensures var end := ParseFrom(st, [HunkHeader(h)] + PrintLines(h.lines));
            end.added == MarkAll(st.added, st.path, Numbers(h.lines, h.start)) && end.path == st.path
  {
    var st1 := st.(line := h.start, inHunk := true);
    HunkStartIs(h);
    assert Step(st, HunkHeader(h)) == st1;
    ParseLines(st1, h.lines);
    assert ([HunkHeader(h)] + PrintLines(h.lines))[1..] == PrintLines(h.lines);
  }

  lemma {:induction false} ParseHunks(st: State, hunks: seq<Hunk>)
    requires forall i :: 0 <= i < |hunks| ==> IsHunk(hunks[i])
    ensures ParseFrom(st, PrintHunks(hunks)).added == MarkAll(st.added, st.path, HunkNumbers(hunks))
    decreases |hunks|
  {
    if hunks != [] {
      var first := [HunkHeader(hunks[0])] + PrintLines(hunks[0].lines);
      ParseHunk(st, hunks[0]);
      ParseParts(st, first, PrintHunks(hunks[1..]));
      ParseHunks(ParseFrom(st, first), hunks[1..]);
      AllThenAll(st.added, st.path, Numbers(hunks[0].lines, hunks[0].start), HunkNumbers(hunks[1..]));
    }
  }

  lemma {:induction false} ParsePlain(st: State, lines: seq<string>)
    requires !st.inHunk && forall i :: 0 <= i < |lines| ==> IsPlain(lines[i])
    ensures ParseFrom(st, lines) == st
    decreases |lines|
  {
    if lines != [] {
      assert IsPlain(lines[0]);
      ParsePlain(st, lines[1..]);
    }
  }

  function PathOf(t: Target): Option<string> {
    if t.NewFile? then Some(t.path) else None
  }

  lemma OneStep(st: State, raw: string)
    ensures ParseFrom(st, [raw]) == Step(st, raw)
  {
    assert [raw][1..] == [];
  }

  lemma StepName(st: State, field: string)
    requires !st.inHunk
    ensures var name := DiffHeaderName(field);
            ParseFrom(st, ["+++ " + field]) == st.(path := if "b/" <= name then Some(name[2..]) else None)
  {
    var raw := "+++ " + field;
    assert raw[0] == '+' && raw[4..] == field;
    OneStep(st, raw);
  }

  lemma AbsoluteNameHasNoPath(field: string)
    requires field != "" && field[0] == '/'
    ensures !("b/" <= DiffHeaderName(field))
  {
    var name := DiffHeaderName(field);
    assert name != "" ==> name[0] == field[0];
  }

  lemma ParseTarget(st: State, t: Target)
    requires !st.inHunk && st.path.None? && (t.NewFile? ==> IsBytes("b/" + t.path))
    ensures ParseFrom(st, PrintTarget(t)) == st.(path := PathOf(t))
  {
    match t
    case NoFile =>
    case Deleted =>
      StepName(st, "/dev/null");
      AbsoluteNameHasNoPath("/dev/null");
    case NewFile(path) =>
      var name := "b/" + path;
      StepName(st, PrintName(name));
      HeaderNameInvertsPrint(name);
      assert name[2..] == path;
  }

  lemma ParseSection(st: State, s: Section)
    requires IsSection(s)
    ensures ParseFrom(st, PrintSection(s)).added == MarkAll(st.added, PathOf(s.target), HunkNumbers(s.hunks))
  {
    var start := ["diff --git" + s.names];
    var target, hunks := PrintTarget(s.target), PrintHunks(s.hunks);
    var st1 := st.(path := None, inHunk := false);
    OneStep(st, start[0]);
    ParsePlain(st1, s.header);
    ParseTarget(st1, s.target);
    ParseHunks(st1.(path := PathOf(s.target)), s.hunks);
    ParseParts(st, start, s.header);
    ParseParts(st, start + s.header, target);
    ParseParts(st, start + s.header + target, hunks);
  }

  function Collect(added: map<string, set<nat>>, d: seq<Section>): map<string, set<nat>>
    decreases |d|
  {
    if d == [] then added
    else Collect(MarkAll(added, PathOf(d[0].target), HunkNumbers(d[0].hunks)), d[1..])
  }

  lemma {:induction false} ParseDiff(st: State, d: seq<Section>)
    requires IsDiff(d)
    ensures ParseFrom(st, PrintDiff(d)).added == Collect(st.added, d)
    decreases |d|
  {
    if d != [] {
      ParseSection(st, d[0]);
      ParseParts(st, PrintSection(d[0]), PrintDiff(d[1..]));
      ParseDiff(ParseFrom(st, PrintSection(d[0])), d[1..]);
    }
  }

  // ----- the numbers are the added lines -----

  lemma {:induction false} NewLinesTail(lines: seq<Line>, k: nat)
    requires 0 < k <= |lines|
    ensures NewLines(lines, k) == (if lines[0].Added? || lines[0].Context? then 1 else 0) + NewLines(lines[1..], k - 1)
    decreases k
  {
    if k > 1 {
      NewLinesTail(lines, k - 1);
    }
  }

  lemma {:induction false} NumbersAre(lines: seq<Line>, line: nat, n: nat)
    ensures n in Numbers(lines, line) <==>
            exists k :: 0 <= k < |lines| && lines[k].Added? && n == line + NewLines(lines, k)
    decreases |lines|
  {
    if lines != [] {
      var first := if lines[0].Added? || lines[0].Context? then 1 else 0;
      NumbersAre(lines[1..], line + first, n);
      if k :| 0 <= k < |lines| && lines[k].Added? && n == line + NewLines(lines, k) {
        if k > 0 {
          NewLinesTail(lines, k);
          assert lines[1..][k - 1] == lines[k];
        }
      }
      if k :| 0 <= k < |lines[1..]| && lines[1..][k].Added? && n == line + first + NewLines(lines[1..], k) {
        NewLinesTail(lines, k + 1);
        assert lines[k + 1].Added?;
      }
      if lines[0].Added? && n == line {
        assert NewLines(lines, 0) == 0;
      }
    }
  }

  lemma {:induction false} HunkNumbersAre(hunks: seq<Hunk>, n: nat)
    ensures n in HunkNumbers(hunks) <==> exists j :: 0 <= j < |hunks| && HunkAdds(hunks[j], n)
    decreases |hunks|
  {
    if hunks != [] {
      NumbersAre(hunks[0].lines, hunks[0].start, n);
      HunkNumbersAre(hunks[1..], n);
      if j :| 0 <= j < |hunks| && HunkAdds(hunks[j], n) {
        assert j > 0 ==> hunks[1..][j - 1] == hunks[j];
      }
      if j :| 0 <= j < |hunks[1..]| && HunkAdds(hunks[1..][j], n) {
        assert hunks[j + 1] == hunks[1..][j];
      }
    }
  }

  predicate NoEmptySets(added: map<string, set<nat>>) {
    forall p <- added :: added[p] != {}
  }

  lemma {:induction false} CollectIs(added: map<string, set<nat>>, d: seq<Section>, path: string, n: nat)
    requires NoEmptySets(added)
    ensures NoEmptySets(Collect(added, d))
    ensures path in Collect(added, d) && n in Collect(added, d)[path] <==>
            (path in added && n in added[path]) || Adds(d, path, n)
    decreases |d|
  {
    if d != [] {
      var numbers := HunkNumbers(d[0].hunks);
      CollectIs(MarkAll(added, PathOf(d[0].target), numbers), d[1..], path, n);
      HunkNumbersAre(d[0].hunks, n);
      AddsSplit(d, path, n);
    }
  }

  lemma AddsSplit(d: seq<Section>, path: string, n: nat)
    requires d != []
    ensures Adds(d, path, n) <==>
            (d[0].target == NewFile(path) && exists j :: 0 <= j < |d[0].hunks| && HunkAdds(d[0].hunks[j], n))
            || Adds(d[1..], path, n)
  {
    if i, j :| 0 <= i < |d| && 0 <= j < |d[i].hunks| && d[i].target == NewFile(path) && HunkAdds(d[i].hunks[j], n) {
      assert i > 0 ==> d[1..][i - 1] == d[i];
    }
    if i, j :| 0 <= i < |d[1..]| && 0 <= j < |d[1..][i].hunks| && d[1..][i].target == NewFile(path)
               && HunkAdds(d[1..][i].hunks[j], n) {
      assert d[i + 1] == d[1..][i];
    }
  }

  /**
   The parser inverts the printer: for every list of sections and hunks, whatever bytes their paths and texts are
   made of, a path maps to line n exactly when some section of that path adds line n. Added texts that look like
   headers, deleted files and missing-newline markers do not disturb it, and no path gets an empty entry.
   */
  lemma ParserInvertsPrinter(d: seq<Section>, path: string, n: nat)
    requires IsDiff(d)
    ensures var added := ParseFrom(INITIAL, PrintDiff(d)).added;
            && (path in added && n in added[path] <==> Adds(d, path, n))
            && (path in added ==> added[path] != {})
  {
    ParseDiff(INITIAL, d);
    CollectIs(map[], d, path, n);
  }
}
