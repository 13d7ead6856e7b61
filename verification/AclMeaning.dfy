/**
 What a load means (go/pfb_dns_gateway/aclconf.go): over one state of the file system the walker's rows are a
 last-wins fold over the include tree read in place, plus the implicit allows nobody listed.
 */
module AclMeaning {
  import opened Common
  import opened AclLookup
  import opened AclText
  import opened Text
  import opened AclWalk

  // ----- one state of the file system -----

  /** Unreadable is a permission error; Unopenable any other failure to open a path that is there. */
  datatype FileState =
    | Absent
    | Unopenable(id: Identity)
    | Unreadable(id: Identity)
    | Readable(id: Identity, content: string, whole: bool)

  datatype Fs = Fs(files: string -> FileState, globs: string -> GlobAnswer)

  function Observe(f: FileState): FileAnswer {
    match f
    case Absent => NotOpened(None)
    case Unopenable(_) => NotOpened(None)
    case Unreadable(id) => NotOpened(Some(id))
    case Readable(id, content, whole) => Opened(id, content, whole)
  }

  /** The state each question finds: one for every path looked at and one for every glob. */
  datatype Looks = Looks(file: nat -> Fs, glob: nat -> Fs)

  function Always(fs: Fs): Looks {
    Looks(_ => fs, _ => fs)
  }

  /** A load that finds these states. */
  function Watching(x: Lexer, looks: Looks): World {
    World(x, (k: nat, path: string) => Observe(looks.file(k).files(path)),
          (k: nat, pattern: string) => looks.glob(k).globs(pattern))
  }

  /** A load during which nothing is written. */
  function Still(x: Lexer, fs: Fs): World {
    Watching(x, Always(fs))
  }

  // ----- lines -----

  function JoinLines(lines: seq<string>): string {
    if lines == [] then "" else lines[0] + "\n" + JoinLines(lines[1..])
  }

  function Fitting(lines: seq<string>): seq<string> {
    if lines == [] then []
    else (if |lines[0]| <= 4097 then [lines[0]] else []) + Fitting(lines[1..])
  }

  lemma {:induction false} FindNewline(line: string, rest: string)
    requires '\n' !in line
    ensures Find(line + "\n" + rest, "\n") == |line|
  {
    var s := line + "\n" + rest;
    if line != "" {
      assert s[1..] == line[1..] + "\n" + rest;
      FindNewline(line[1..], rest);
    }
  }

  lemma {:induction false} FindNone(s: string)
    requires '\n' !in s
    ensures Find(s, "\n") == |s|
  {
    if s != "" {
      FindNone(s[1..]);
    }
  }

  /**
   The reader acts on exactly the lines of at most 4097 bytes, in order; a longer one is skipped alone and an
   unterminated tail is dropped.
   */
  lemma {:induction false} LinesOfText(lines: seq<string>, tail: string)
    requires forall l <- lines :: '\n' !in l
    requires '\n' !in tail
    ensures Lines(JoinLines(lines) + tail) == Fitting(lines)
    decreases |lines|
  {
    if lines == [] {
      assert JoinLines(lines) + tail == tail;
      FindNone(tail);
    } else {
      var rest := JoinLines(lines[1..]) + tail;
      var s := JoinLines(lines) + tail;
      assert s == lines[0] + "\n" + rest;
      FindNewline(lines[0], rest);
      assert s[..|lines[0]|] == lines[0] && s[|lines[0]| + 1..] == rest;
      LinesOfText(lines[1..], tail);
    }
  }

  lemma {:induction false} FindInCut(s: string, k: nat)
    requires k <= |s|
    ensures Find(s[..k], "\n") == if Find(s, "\n") < k then Find(s, "\n") else k
    decreases k
  {
    if k > 0 && s[0] != '\n' {
      FindInCut(s[1..], k - 1);
      assert s[..k][1..] == s[1..][..k - 1];
    }
  }

  lemma FirstLine(s: string, i: nat)
    requires i == Find(s, "\n") && i < |s|
    ensures Lines(s) == (if i + 1 <= READ_BUFFER then [s[..i]] else []) + Lines(s[i + 1..])
  {
    hide Find;
  }

  lemma NoLine(s: string)
    requires Find(s, "\n") == |s|
    ensures Lines(s) == []
  {
  }

  /**
   A file cut off anywhere, as by a writer that truncates and writes again, reads as the first of its lines: no row cut
   short is ever read as another row.
   */
  lemma {:induction false} CutTextReadsEarlierLines(s: string, k: nat)
    requires k <= |s|
    ensures Lines(s[..k]) <= Lines(s)
    decreases |s|
  {
    hide Find, Lines;
    var i := Find(s, "\n");
    FindInCut(s, k);
    if i < k {
      CutTextReadsEarlierLines(s[i + 1..], k - i - 1);
      assert s[..k][i + 1..] == s[i + 1..][..k - i - 1];
      assert s[..k][..i] == s[..i];
      FirstLine(s, i);
      FirstLine(s[..k], i);
    } else {
      NoLine(s[..k]);
    }
  }

  // ----- the include tree read in place -----

  /** The rows an include tree contributes, in reading order, and the number of files it opens. */
  datatype Flat = Flat(items: seq<Item>, files: nat)

  function Append(a: Option<Flat>, b: Option<Flat>): Option<Flat> {
    if a.None? || b.None? then None
    else Some(Flat(a.value.items + b.value.items, a.value.files + b.value.files))
  }

  function FlattenFile(x: Lexer, fs: Fs, path: string, depth: nat): Option<Flat>
    requires depth <= MAX_DEPTH + 1
    decreases MAX_DEPTH + 1 - depth, 3, 0
  {
    if depth > MAX_DEPTH then None
    else
      match fs.files(path)
      case Readable(_, content, true) => Append(Some(Flat([], 1)), FlattenItems(x, fs, Items(x, Lines(content)), depth))
      case _ => None
  }

  function Items(x: Lexer, lines: seq<string>): (items: seq<Item>)
    ensures |items| == |lines| && forall i :: 0 <= i < |lines| ==> items[i] == Classify(x, lines[i])
  {
    if lines == [] then [] else [Classify(x, lines[0])] + Items(x, lines[1..])
  }

  function FlattenItems(x: Lexer, fs: Fs, items: seq<Item>, depth: nat): Option<Flat>
    requires depth <= MAX_DEPTH
    decreases MAX_DEPTH + 1 - depth, 2, |items|
  {
    if items == [] then Some(Flat([], 0))
    else Append(FlattenItem(x, fs, items[0], depth), FlattenItems(x, fs, items[1..], depth))
  }

  function FlattenItem(x: Lexer, fs: Fs, item: Item, depth: nat): Option<Flat>
    requires depth <= MAX_DEPTH
    decreases MAX_DEPTH + 1 - depth, 1, 0
  {
    match item
    case Include(Bad) => None
    case Include(Path(path)) => FlattenFile(x, fs, path, depth + 1)
    case Include(Glob(pattern)) =>
      (match fs.globs(pattern)
       case GlobFailed => None
       case Matches(paths) => FlattenFiles(x, fs, paths, depth + 1))
    case _ => Some(Flat([item], 0))
  }

  function FlattenFiles(x: Lexer, fs: Fs, paths: seq<string>, depth: nat): Option<Flat>
    requires depth <= MAX_DEPTH + 1
    decreases MAX_DEPTH + 1 - depth, 4, |paths|
  {
    if paths == [] then Some(Flat([], 0))
    else Append(FlattenFile(x, fs, paths[0], depth), FlattenFiles(x, fs, paths[1..], depth))
  }

  /** Last row read wins. */
  function Fold(rows: map<Prefix, Action>, items: seq<Item>): map<Prefix, Action>
    decreases |items|
  {
    if items == [] then rows
    else Fold(if items[0].Listed? then rows[items[0].row.prefix := items[0].row.action] else rows, items[1..])
  }

  function ImpliedBy(items: seq<Item>): seq<Prefix> {
    if items == [] then []
    else (if items[0].Implied? then [items[0].prefix] else []) + ImpliedBy(items[1..])
  }

  lemma {:induction false} FoldAppend(rows: map<Prefix, Action>, a: seq<Item>, b: seq<Item>)
    ensures Fold(rows, a + b) == Fold(Fold(rows, a), b)
    ensures ImpliedBy(a + b) == ImpliedBy(a) + ImpliedBy(b)
    decreases |a|
  {
    if a == [] {
      assert a + b == b;
    } else {
      assert (a + b)[1..] == a[1..] + b;
      FoldAppend(if a[0].Listed? then rows[a[0].row.prefix := a[0].row.action] else rows, a[1..], b);
    }
  }

  // ----- the walk does what the flattening says -----

  /** The walk from st succeeds exactly when the tree flattens within the file limit, and then has folded it in. */
  predicate Means(st: Walk, r: (Walk, bool), flat: Option<Flat>) {
    && (r.1 <==> flat.Some? && (flat.value.files > 0 ==> st.openCount + flat.value.files <= MAX_FILES))
    && (r.1 ==>
          && r.0.rows == Fold(st.rows, flat.value.items)
          && r.0.implied == st.implied + ImpliedBy(flat.value.items)
          && r.0.openCount == st.openCount + flat.value.files)
  }

  lemma MeansAppend(st: Walk, a: (Walk, bool), fa: Option<Flat>, b: (Walk, bool), fb: Option<Flat>)
    requires st.openCount <= MAX_FILES
    requires Means(st, a, fa) && (a.1 ==> Means(a.0, b, fb))
    ensures Means(st, if a.1 then b else (a.0, false), Append(fa, fb))
  {
    if fa.Some? && fb.Some? {
      FoldAppend(st.rows, fa.value.items, fb.value.items);
    }
  }

  lemma OneFile(st: Walk, st2: Walk, r: (Walk, bool), flat: Option<Flat>, whole: bool)
    requires st.openCount < MAX_FILES
    requires st2.openCount == st.openCount + 1 && st2.rows == st.rows && st2.implied == st.implied
    requires Means(st2, r, flat)
    ensures Means(st, (r.0, r.1 && whole), if whole then Append(Some(Flat([], 1)), flat) else None)
  {
    assert flat.Some? ==> [] + flat.value.items == flat.value.items;
  }

  /** Opening a path: the answer, the bookkeeping and the rest. */
  lemma OpenedFile(x: Lexer, fs: Fs, st: Walk, path: string, depth: nat) returns (st2: Walk)
    requires depth <= MAX_DEPTH && st.openCount < MAX_FILES && fs.files(path).Readable?
    ensures st2.openCount == st.openCount + 1 && st2.rows == st.rows && st2.implied == st.implied
    ensures var f := fs.files(path);
            var r := WalkLines(Still(x, fs), st2, Lines(f.content), depth);
            WalkFile(Still(x, fs), st, path, depth) == (r.0, r.1 && f.whole)
  {
    var f := fs.files(path);
    assert Still(x, fs).file(|st.files|, path) == Opened(f.id, f.content, f.whole);
    st2 := st.(openCount := st.openCount + 1, files := st.files + [FileDep(path, Some(f.id))]);
  }

  lemma NotOpenedFile(x: Lexer, fs: Fs, st: Walk, path: string, depth: nat)
    requires depth <= MAX_DEPTH + 1
    requires depth > MAX_DEPTH || st.openCount >= MAX_FILES || !fs.files(path).Readable?
    ensures !WalkFile(Still(x, fs), st, path, depth).1
  {
    if !fs.files(path).Readable? {
      assert Still(x, fs).file(|st.files|, path).NotOpened?;
    }
  }

  lemma FlatFile(x: Lexer, fs: Fs, path: string, depth: nat)
    requires depth <= MAX_DEPTH && fs.files(path).Readable?
    ensures FlattenFile(x, fs, path, depth) ==
            if fs.files(path).whole
            then Append(Some(Flat([], 1)), FlattenItems(x, fs, Items(x, Lines(fs.files(path).content)), depth))
            else None
    ensures FlattenFile(x, fs, path, depth).Some? ==> FlattenFile(x, fs, path, depth).value.files > 0
  {
  }

  lemma {:induction false} FileMeans(x: Lexer, fs: Fs, st: Walk, path: string, depth: nat)
    requires depth <= MAX_DEPTH + 1 && st.openCount <= MAX_FILES
    ensures Means(st, WalkFile(Still(x, fs), st, path, depth), FlattenFile(x, fs, path, depth))
    decreases MAX_DEPTH + 1 - depth, 3, 0
  {
    if depth > MAX_DEPTH || !fs.files(path).Readable? {
      NotOpenedFile(x, fs, st, path, depth);
      NothingToRead(x, fs, path, depth);
    } else {
      FlatFile(x, fs, path, depth);
      if st.openCount >= MAX_FILES {
        NotOpenedFile(x, fs, st, path, depth);
      } else {
        var lines := Lines(fs.files(path).content);
        var st2 := OpenedFile(x, fs, st, path, depth);
        LinesMean(x, fs, st2, lines, depth);
        OneFile(st, st2, WalkLines(Still(x, fs), st2, lines, depth), FlattenItems(x, fs, Items(x, lines), depth),
                fs.files(path).whole);
      }
    }
  }

  lemma {:induction false} LinesMean(x: Lexer, fs: Fs, st: Walk, lines: seq<string>, depth: nat)
    requires depth <= MAX_DEPTH && st.openCount <= MAX_FILES
    ensures Means(st, WalkLines(Still(x, fs), st, lines, depth), FlattenItems(x, fs, Items(x, lines), depth))
    decreases MAX_DEPTH + 1 - depth, 2, |lines|
  {
    var w := Still(x, fs);
    if lines != [] {
      var r := WalkLine(w, st, lines[0], depth);
      ItemMeans(x, fs, st, Classify(x, lines[0]), depth);
      if r.1 {
        LinesMean(x, fs, r.0, lines[1..], depth);
      }
      assert Items(x, lines)[1..] == Items(x, lines[1..]);
      MeansAppend(st, r, FlattenItem(x, fs, Classify(x, lines[0]), depth),
                  WalkLines(w, r.0, lines[1..], depth), FlattenItems(x, fs, Items(x, lines[1..]), depth));
    }
  }

  lemma {:induction false} ItemMeans(x: Lexer, fs: Fs, st: Walk, item: Item, depth: nat)
    requires depth <= MAX_DEPTH && st.openCount <= MAX_FILES
    ensures Means(st, WalkItem(Still(x, fs), st, item, depth), FlattenItem(x, fs, item, depth))
    decreases MAX_DEPTH + 1 - depth, 1, 0
  {
    var w := Still(x, fs);
    match item
    case Include(Path(path)) => FileMeans(x, fs, st, path, depth + 1);
    case Include(Glob(pattern)) =>
      var answer := fs.globs(pattern);
      assert w.glob(|st.globs|, pattern) == answer;
      if answer.Matches? {
        FilesMean(x, fs, st.(globs := st.globs + [GlobDep(pattern, answer)]), answer.paths, depth + 1);
      }
    case Include(Bad) =>
    case Listed(row) => OneItem(st, Listed(row));
    case Implied(p) => OneItem(st, Implied(p));
    case Nothing => OneItem(st, Nothing);
  }

  lemma OneItem(st: Walk, item: Item)
    ensures Fold(st.rows, [item]) == if item.Listed? then st.rows[item.row.prefix := item.row.action] else st.rows
    ensures ImpliedBy([item]) == if item.Implied? then [item.prefix] else []
  {
    assert [item][1..] == [];
  }

  lemma {:induction false} FilesMean(x: Lexer, fs: Fs, st: Walk, paths: seq<string>, depth: nat)
    requires depth <= MAX_DEPTH + 1 && st.openCount <= MAX_FILES
    ensures Means(st, WalkFiles(Still(x, fs), st, paths, depth), FlattenFiles(x, fs, paths, depth))
    decreases MAX_DEPTH + 1 - depth, 4, |paths|
  {
    var w := Still(x, fs);
    if paths != [] {
      var r := WalkFile(w, st, paths[0], depth);
      FileMeans(x, fs, st, paths[0], depth);
      if r.1 {
        FilesMean(x, fs, r.0, paths[1..], depth);
      }
      MeansAppend(st, r, FlattenFile(x, fs, paths[0], depth),
                  WalkFiles(w, r.0, paths[1..], depth), FlattenFiles(x, fs, paths[1..], depth));
    }
  }

  // ----- the rows of a load -----

  /** The action of the last row that lists the prefix. */
  function LastListed(items: seq<Item>, p: Prefix): Option<Action> {
    if items == [] then None
    else
      var last := items[|items| - 1];
      if last.Listed? && last.row.prefix == p then Some(last.row.action) else LastListed(items[..|items| - 1], p)
  }

  lemma {:induction false} FoldIsLastListed(items: seq<Item>, p: Prefix)
    ensures p in Fold(map[], items) <==> LastListed(items, p).Some?
    ensures p in Fold(map[], items) ==> LastListed(items, p) == Some(Fold(map[], items)[p])
    decreases |items|
  {
    if items != [] {
      var n := |items| - 1;
      FoldIsLastListed(items[..n], p);
      assert items == items[..n] + [items[n]];
      FoldAppend(map[], items[..n], [items[n]]);
      OneItem(START.(rows := Fold(map[], items[..n])), items[n]);
    }
  }

  lemma {:induction false} WithImpliedIs(rows: map<Prefix, Action>, implied: seq<Prefix>)
    ensures forall p :: p in WithImplied(rows, implied) <==> p in rows || p in implied
    ensures forall p <- WithImplied(rows, implied) ::
              WithImplied(rows, implied)[p] == if p in rows then rows[p] else Forward
    decreases |implied|
  {
    if implied != [] {
      WithImpliedIs(if implied[0] in rows then rows else rows[implied[0] := Forward], implied[1..]);
    }
  }

  /**
   The load is the in-place include meaning. Over one state of the file system a load succeeds exactly when the
   include tree flattens within depth 100 and 4096 files; its rows are then the last listed action of every listed
   prefix, and allow for every implied prefix that is not listed.
   */
  lemma LoadMeaning(x: Lexer, fs: Fs, path: string, p: Prefix)
    ensures var (st, ok) := WalkFile(Still(x, fs), START, path, 0);
            var flat := FlattenFile(x, fs, path, 0);
            && (ok <==> flat.Some? && flat.value.files <= 4096)
            && (ok ==> st.openCount == flat.value.files)
            && (ok ==>
                  var rows, listed := WithImplied(st.rows, st.implied), LastListed(flat.value.items, p);
                  && (p in rows <==> listed.Some? || p in ImpliedBy(flat.value.items))
                  && (p in rows ==> rows[p] == if listed.Some? then listed.value else Forward))
  {
    hide WalkFile, FlattenFile, WithImplied, LastListed;
    var (st, ok) := WalkFile(Still(x, fs), START, path, 0);
    var flat := FlattenFile(x, fs, path, 0);
    FileMeans(x, fs, START, path, 0);
    if ok {
      FoldIsLastListed(flat.value.items, p);
      WithImpliedIs(st.rows, st.implied);
      assert START.implied + ImpliedBy(flat.value.items) == ImpliedBy(flat.value.items);
    }
  }

  // ----- where the acting rows come from -----

  /** Some line of some readable file asks for the item. */
  ghost predicate IsWritten(x: Lexer, fs: Fs, item: Item) {
    exists file, k: nat :: WrittenAt(x, fs, file, k, item)
  }

  predicate WrittenAt(x: Lexer, fs: Fs, file: string, k: nat, item: Item) {
    && fs.files(file).Readable? && k < |Lines(fs.files(file).content)|
    && Classify(x, Lines(fs.files(file).content)[k]) == item
  }

  ghost predicate AllWritten(x: Lexer, fs: Fs, items: seq<Item>) {
    forall i :: 0 <= i < |items| ==> IsWritten(x, fs, items[i])
  }

  ghost predicate FlatWritten(x: Lexer, fs: Fs, flat: Option<Flat>) {
    flat.Some? ==> AllWritten(x, fs, flat.value.items)
  }

  lemma AppendWritten(x: Lexer, fs: Fs, a: Option<Flat>, b: Option<Flat>)
    requires FlatWritten(x, fs, a) && FlatWritten(x, fs, b)
    ensures FlatWritten(x, fs, Append(a, b))
  {
  }

  lemma ItemsAreWritten(x: Lexer, fs: Fs, file: string)
    requires fs.files(file).Readable?
    ensures AllWritten(x, fs, Items(x, Lines(fs.files(file).content)))
  {
    var lines := Lines(fs.files(file).content);
    forall i | 0 <= i < |lines|
      ensures IsWritten(x, fs, Items(x, lines)[i])
    {
      assert WrittenAt(x, fs, file, i, Items(x, lines)[i]);
    }
  }

  lemma {:induction false} FileWritten(x: Lexer, fs: Fs, path: string, depth: nat)
    requires depth <= MAX_DEPTH + 1
    ensures FlatWritten(x, fs, FlattenFile(x, fs, path, depth))
    decreases MAX_DEPTH + 1 - depth, 3, 0
  {
    hide IsWritten, Lines, Items;
    if depth <= MAX_DEPTH && fs.files(path).Readable? {
      var items := Items(x, Lines(fs.files(path).content));
      ItemsAreWritten(x, fs, path);
      ItemsWritten(x, fs, items, depth);
      AppendWritten(x, fs, Some(Flat([], 1)), FlattenItems(x, fs, items, depth));
    }
  }

  lemma {:induction false} ItemsWritten(x: Lexer, fs: Fs, items: seq<Item>, depth: nat)
    requires depth <= MAX_DEPTH && AllWritten(x, fs, items)
    ensures FlatWritten(x, fs, FlattenItems(x, fs, items, depth))
    decreases MAX_DEPTH + 1 - depth, 2, |items|
  {
    hide IsWritten;
    if items != [] {
      ItemWritten(x, fs, items[0], depth);
      ItemsWritten(x, fs, items[1..], depth);
      AppendWritten(x, fs, FlattenItem(x, fs, items[0], depth), FlattenItems(x, fs, items[1..], depth));
    }
  }

  lemma {:induction false} ItemWritten(x: Lexer, fs: Fs, item: Item, depth: nat)
    requires depth <= MAX_DEPTH && IsWritten(x, fs, item)
    ensures FlatWritten(x, fs, FlattenItem(x, fs, item, depth))
    decreases MAX_DEPTH + 1 - depth, 1, 0
  {
    hide IsWritten;
    match item
    case Include(Path(path)) => FileWritten(x, fs, path, depth + 1);
    case Include(Glob(pattern)) =>
      if fs.globs(pattern).Matches? {
        FilesWritten(x, fs, fs.globs(pattern).paths, depth + 1);
      }
    case _ =>
  }

  lemma {:induction false} FilesWritten(x: Lexer, fs: Fs, paths: seq<string>, depth: nat)
    requires depth <= MAX_DEPTH + 1
    ensures FlatWritten(x, fs, FlattenFiles(x, fs, paths, depth))
    decreases MAX_DEPTH + 1 - depth, 4, |paths|
  {
    hide IsWritten;
    if paths != [] {
      FileWritten(x, fs, paths[0], depth);
      FilesWritten(x, fs, paths[1..], depth);
      AppendWritten(x, fs, FlattenFile(x, fs, paths[0], depth), FlattenFiles(x, fs, paths[1..], depth));
    }
  }

  lemma {:induction false} LastListedIsItem(items: seq<Item>, p: Prefix)
    ensures LastListed(items, p).Some? ==> Listed(Row(p, LastListed(items, p).value)) in items
    decreases |items|
  {
    if items != [] {
      LastListedIsItem(items[..|items| - 1], p);
    }
  }

  /** The line's only action word, bare or in quotes, is deny for Drop and refuse for Refuse. */
  predicate Commands(x: Lexer, line: string, action: Action) {
    && action != Forward && Words(x, line).Some? && RuleHead(Words(x, line).value).Some?
    && var h := RuleHead(Words(x, line).value).value;
       h.key == "access-control" && |h.tail| == 1 && Unquote(h.tail[0]) == if action == Drop then "deny" else "refuse"
  }

  /**
   Never stricter than the config: a prefix is denied or refused after a load only where some line of a readable file
   lists that prefix with the word deny or refuse.
   */
  lemma ActingRowsAreWritten(x: Lexer, fs: Fs, path: string, p: Prefix) returns (file: string, k: nat)
    requires WalkFile(Still(x, fs), START, path, 0).1
    requires var st := WalkFile(Still(x, fs), START, path, 0).0;
             p in WithImplied(st.rows, st.implied) && WithImplied(st.rows, st.implied)[p] != Forward
    ensures var st := WalkFile(Still(x, fs), START, path, 0).0;
            var action := WithImplied(st.rows, st.implied)[p];
            && WrittenAt(x, fs, file, k, Listed(Row(p, action)))
            && Commands(x, Lines(fs.files(file).content)[k], action)
  {
    hide WalkFile, FlattenFile, WithImplied, Lines, Words, RuleHead, Classify, LastListed;
    var st := WalkFile(Still(x, fs), START, path, 0).0;
    var action := WithImplied(st.rows, st.implied)[p];
    LoadMeaning(x, fs, path, p);
    var items := FlattenFile(x, fs, path, 0).value.items;
    LastListedIsItem(items, p);
    FileWritten(x, fs, path, 0);
    var i :| 0 <= i < |items| && items[i] == Listed(Row(p, action));
    assert IsWritten(x, fs, items[i]);
    file, k :| WrittenAt(x, fs, file, k, items[i]);
    OnlyDenyAndRefuseAct(x, Lines(fs.files(file).content)[k]);
  }

  // ----- include cycles -----

  /** The files an item includes. */
  function Targets(fs: Fs, item: Item): seq<string> {
    match item
    case Include(Path(path)) => [path]
    case Include(Glob(pattern)) => if fs.globs(pattern).Matches? then fs.globs(pattern).paths else []
    case _ => []
  }

  function ItemsOf(x: Lexer, f: FileState): seq<Item> {
    if f.Readable? then Items(x, Lines(f.content)) else []
  }

  /** Line i of the file includes the target. */
  predicate IncludesAt(x: Lexer, fs: Fs, path: string, i: nat, target: string) {
    i < |ItemsOf(x, fs.files(path))| && target in Targets(fs, ItemsOf(x, fs.files(path))[i])
  }

  /** Every readable file of the set has a line that includes a file of the set. */
  ghost predicate Cyclic(x: Lexer, fs: Fs, paths: iset<string>) {
    forall p :: p in paths && fs.files(p).Readable? ==> exists i: nat, t :: t in paths && IncludesAt(x, fs, p, i, t)
  }

  /** The same with the line and the included file picked for every file. */
  ghost predicate CyclicBy(x: Lexer, fs: Fs, paths: iset<string>, next: string -> (nat, string)) {
    forall p {:trigger next(p)} :: p in paths && fs.files(p).Readable? ==>
      next(p).1 in paths && IncludesAt(x, fs, p, next(p).0, next(p).1)
  }

  lemma CyclicHasNext(x: Lexer, fs: Fs, paths: iset<string>) returns (next: string -> (nat, string))
    requires Cyclic(x, fs, paths)
    ensures CyclicBy(x, fs, paths, next)
  {
    next := p =>
      if exists i: nat, t :: t in paths && IncludesAt(x, fs, p, i, t)
      then var i: nat, t :| t in paths && IncludesAt(x, fs, p, i, t); (i, t)
      else (0, "");
  }

  lemma IncludeFails(x: Lexer, fs: Fs, path: string, depth: nat, i: nat, target: string)
    requires depth <= MAX_DEPTH && IncludesAt(x, fs, path, i, target)
    requires FlattenFile(x, fs, target, depth + 1).None?
    ensures FlattenFile(x, fs, path, depth).None?
  {
    var items := ItemsOf(x, fs.files(path));
    TargetFails(x, fs, items[i], target, depth);
    ItemFailsAll(x, fs, items, i, depth);
  }

  lemma NothingToRead(x: Lexer, fs: Fs, path: string, depth: nat)
    requires depth <= MAX_DEPTH + 1 && (depth > MAX_DEPTH || !fs.files(path).Readable?)
    ensures FlattenFile(x, fs, path, depth).None?
  {
  }

  lemma NextInCycle(x: Lexer, fs: Fs, paths: iset<string>, next: string -> (nat, string), path: string)
    requires CyclicBy(x, fs, paths, next) && path in paths && fs.files(path).Readable?
    ensures next(path).1 in paths && IncludesAt(x, fs, path, next(path).0, next(path).1)
  {
  }

  lemma {:induction false} CycleFails(x: Lexer, fs: Fs, paths: iset<string>, next: string -> (nat, string),
                                       path: string, depth: nat)
    requires CyclicBy(x, fs, paths, next) && path in paths && depth <= MAX_DEPTH + 1
    ensures FlattenFile(x, fs, path, depth).None?
    decreases MAX_DEPTH + 1 - depth
  {
    hide FlattenFile, CyclicBy, IncludesAt;
    if depth > MAX_DEPTH || !fs.files(path).Readable? {
      NothingToRead(x, fs, path, depth);
    } else {
      NextInCycle(x, fs, paths, next, path);
      var i, target := next(path).0, next(path).1;
      CycleFails(x, fs, paths, next, target, depth + 1);
      IncludeFails(x, fs, path, depth, i, target);
    }
  }

  lemma TargetFails(x: Lexer, fs: Fs, item: Item, path: string, depth: nat)
    requires depth <= MAX_DEPTH && path in Targets(fs, item) && FlattenFile(x, fs, path, depth + 1).None?
    ensures FlattenItem(x, fs, item, depth).None?
  {
    if item.Include? && item.target.Glob? {
      FileFailsAll(x, fs, fs.globs(item.target.pattern).paths, path, depth + 1);
    }
  }

  lemma {:induction false} ItemFailsAll(x: Lexer, fs: Fs, items: seq<Item>, i: nat, depth: nat)
    requires depth <= MAX_DEPTH && i < |items| && FlattenItem(x, fs, items[i], depth).None?
    ensures FlattenItems(x, fs, items, depth).None?
    decreases i
  {
    if i > 0 {
      ItemFailsAll(x, fs, items[1..], i - 1, depth);
    }
  }

  lemma {:induction false} FileFailsAll(x: Lexer, fs: Fs, paths: seq<string>, path: string, depth: nat)
    requires depth <= MAX_DEPTH + 1 && path in paths && FlattenFile(x, fs, path, depth).None?
    ensures FlattenFiles(x, fs, paths, depth).None?
    decreases |paths|
  {
    if paths[0] != path {
      FileFailsAll(x, fs, paths[1..], path, depth);
    }
  }

  /** A config that includes itself, directly, through other files or through a glob, never loads. */
  lemma SelfIncludeNeverLoads(x: Lexer, fs: Fs, paths: iset<string>, path: string)
    requires Cyclic(x, fs, paths) && path in paths
    ensures !WalkFile(Still(x, fs), START, path, 0).1
  {
    var next := CyclicHasNext(x, fs, paths);
    CycleFails(x, fs, paths, next, path, 0);
    FileMeans(x, fs, START, path, 0);
  }

  /** However a load goes and whatever is written meanwhile, it opens at most 4096 files. */
  lemma {:induction false} FileLimit(w: World, st: Walk, path: string, depth: nat)
    requires depth <= MAX_DEPTH + 1 && |st.files| <= st.openCount <= MAX_FILES
    ensures var (st', ok) := WalkFile(w, st, path, depth); Bounded(st', ok)
    decreases MAX_DEPTH + 1 - depth, 3, 0
  {
    if depth <= MAX_DEPTH && st.openCount + 1 <= MAX_FILES {
      match w.file(|st.files|, path)
      case NotOpened(_) =>
      case StatFailed =>
      case Opened(id, content, whole) =>
        var st2 := st.(openCount := st.openCount + 1, files := st.files + [FileDep(path, Some(id))]);
        LinesLimit(w, st2, Lines(content), depth);
    }
  }

  predicate Bounded(st: Walk, ok: bool) {
    |st.files| <= st.openCount <= 4097 && |st.files| <= 4096 && (ok ==> st.openCount <= 4096)
  }

  lemma {:induction false} ItemLimit(w: World, st: Walk, item: Item, depth: nat)
    requires depth <= MAX_DEPTH && |st.files| <= st.openCount <= MAX_FILES
    ensures var (st', ok) := WalkItem(w, st, item, depth); Bounded(st', ok)
    decreases MAX_DEPTH + 1 - depth, 1, 0
  {
    match item
    case Include(Path(path)) => FileLimit(w, st, path, depth + 1);
    case Include(Glob(pattern)) =>
      var answer := w.glob(|st.globs|, pattern);
      if answer.Matches? {
        FilesLimit(w, st.(globs := st.globs + [GlobDep(pattern, answer)]), answer.paths, depth + 1);
      }
    case _ =>
  }

  lemma {:induction false} LinesLimit(w: World, st: Walk, lines: seq<string>, depth: nat)
    requires depth <= MAX_DEPTH && |st.files| <= st.openCount <= MAX_FILES
    ensures var (st', ok) := WalkLines(w, st, lines, depth); Bounded(st', ok)
    decreases MAX_DEPTH + 1 - depth, 2, |lines|
  {
    if lines != [] {
      ItemLimit(w, st, Classify(w.lexer, lines[0]), depth);
      var (st1, ok) := WalkLine(w, st, lines[0], depth);
      if ok {
        LinesLimit(w, st1, lines[1..], depth);
      }
    }
  }

  lemma {:induction false} FilesLimit(w: World, st: Walk, paths: seq<string>, depth: nat)
    requires depth <= MAX_DEPTH + 1 && |st.files| <= st.openCount <= MAX_FILES
    ensures var (st', ok) := WalkFiles(w, st, paths, depth); Bounded(st', ok)
    decreases MAX_DEPTH + 1 - depth, 4, |paths|
  {
    if paths != [] {
      FileLimit(w, st, paths[0], depth);
      var (st1, ok) := WalkFile(w, st, paths[0], depth);
      if ok {
        FilesLimit(w, st1, paths[1..], depth);
      }
    }
  }
}
