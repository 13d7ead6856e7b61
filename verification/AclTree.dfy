/**
 The include tree of a config on the text of its files (go/pfb_dns_gateway/aclconf.go): an included file stands where
 its directive stands, a glob's files stand there in order, and a chain of includes loads up to 101 files.
 */
module AclTree {
  import opened Common
  import opened AclLookup
  import opened AclText
  import opened AclWalk
  import opened AclMeaning

  // ----- joining -----

  lemma AppendJoins(a: Option<Flat>, b: Option<Flat>, c: Option<Flat>)
    ensures Append(Append(a, b), c) == Append(a, Append(b, c))
    ensures Append(Some(Flat([], 0)), a) == a && Append(a, Some(Flat([], 0))) == a
  {
    if a.Some? {
      assert a.value.items + [] == a.value.items && [] + a.value.items == a.value.items;
      if b.Some? && c.Some? {
        var i, j, k := a.value.items, b.value.items, c.value.items;
        assert (i + j) + k == i + (j + k);
      }
    }
  }

  lemma {:induction false} ItemsJoin(x: Lexer, a: seq<string>, b: seq<string>)
    ensures Items(x, a + b) == Items(x, a) + Items(x, b)
    decreases |a|
  {
    if a == [] {
      assert a + b == b;
    } else {
      assert (a + b)[1..] == a[1..] + b;
      ItemsJoin(x, a[1..], b);
    }
  }

  lemma FlattenFirst(x: Lexer, fs: Fs, item: Item, rest: seq<Item>, depth: nat)
    requires depth <= MAX_DEPTH
    ensures FlattenItems(x, fs, [item] + rest, depth)
            == Append(FlattenItem(x, fs, item, depth), FlattenItems(x, fs, rest, depth))
  {
    hide FlattenItem, Append;
    assert ([item] + rest)[1..] == rest;
  }

  lemma {:induction false} FlattenJoins(x: Lexer, fs: Fs, a: seq<Item>, b: seq<Item>, depth: nat)
    requires depth <= MAX_DEPTH
    ensures FlattenItems(x, fs, a + b, depth) == Append(FlattenItems(x, fs, a, depth), FlattenItems(x, fs, b, depth))
    decreases |a|
  {
    hide FlattenItem, Append;
    if a == [] {
      assert a + b == b;
      AppendJoins(FlattenItems(x, fs, b, depth), None, None);
    } else {
      assert a + b == [a[0]] + (a[1..] + b) && a == [a[0]] + a[1..];
      FlattenFirst(x, fs, a[0], a[1..] + b, depth);
      FlattenJoins(x, fs, a[1..], b, depth);
      AppendJoins(FlattenItem(x, fs, a[0], depth), FlattenItems(x, fs, a[1..], depth), FlattenItems(x, fs, b, depth));
    }
  }

  // ----- the text of a file -----

  predicate AreLines(lines: seq<string>) {
    forall i :: 0 <= i < |lines| ==> '\n' !in lines[i] && |lines[i]| <= 4097
  }

  /** The file holds these lines and can be read to its end. */
  predicate Holds(fs: Fs, path: string, lines: seq<string>) {
    fs.files(path).Readable? && fs.files(path).whole && fs.files(path).content == JoinLines(lines)
  }

  lemma {:induction false} AllFit(lines: seq<string>)
    requires AreLines(lines)
    ensures Fitting(lines) == lines
  {
    if lines != [] {
      AllFit(lines[1..]);
    }
  }

  lemma HeldFile(x: Lexer, fs: Fs, path: string, lines: seq<string>, depth: nat)
    requires AreLines(lines) && Holds(fs, path, lines) && depth <= MAX_DEPTH
    ensures FlattenFile(x, fs, path, depth) == Append(Some(Flat([], 1)), FlattenItems(x, fs, Items(x, lines), depth))
  {
    hide Lines, Items, Append, Fitting, FlattenItems;
    LinesOfText(lines, "");
    assert JoinLines(lines) + "" == JoinLines(lines);
    AllFit(lines);
  }

  // ----- in place -----

  /** The parts follow one another; when one is missing the whole is. */
  predicate InOrder(whole: Option<Flat>, own: nat, before: Option<Flat>, included: Option<Flat>, after: Option<Flat>) {
    && (whole.Some? <==> before.Some? && included.Some? && after.Some?)
    && (whole.Some? ==>
          && whole.value.items == before.value.items + included.value.items + after.value.items
          && whole.value.files == own + before.value.files + included.value.files + after.value.files)
  }

  /** An included file is read where its directive stands: behind the rows before it and before the rows behind it. */
  lemma ReadsInPlace(x: Lexer, fs: Fs, path: string, before: seq<string>, line: string, after: seq<string>, depth: nat,
                     target: string)
    requires depth <= 100 && AreLines(before + [line] + after) && Holds(fs, path, before + [line] + after)
    requires Classify(x, line) == Include(Path(target))
    ensures InOrder(FlattenFile(x, fs, path, depth), 1, FlattenItems(x, fs, Items(x, before), depth),
                    FlattenFile(x, fs, target, depth + 1), FlattenItems(x, fs, Items(x, after), depth))
  {
    hide FlattenFile, FlattenItems, Items, Classify, AreLines, Holds, Append;
    AroundLine(x, fs, path, before, line, after, depth);
    OneIncluded(x, fs, line, target, depth);
    var a, b, c := FlattenItems(x, fs, Items(x, before), depth), FlattenFile(x, fs, target, depth + 1),
      FlattenItems(x, fs, Items(x, after), depth);
    PartsInOrder(a, b, c);
  }

  lemma PartsInOrder(a: Option<Flat>, b: Option<Flat>, c: Option<Flat>)
    ensures InOrder(Append(Some(Flat([], 1)), Append(a, Append(b, c))), 1, a, b, c)
  {
    if a.Some? && b.Some? && c.Some? {
      var i, j, k := a.value.items, b.value.items, c.value.items;
      assert [] + (i + (j + k)) == i + j + k;
    }
  }

  lemma OneIncluded(x: Lexer, fs: Fs, line: string, target: string, depth: nat)
    requires depth <= MAX_DEPTH && Classify(x, line) == Include(Path(target))
    ensures FlattenItem(x, fs, Classify(x, line), depth) == FlattenFile(x, fs, target, depth + 1)
  {
    hide Classify, FlattenFile;
  }

  lemma AroundLine(x: Lexer, fs: Fs, path: string, before: seq<string>, line: string, after: seq<string>, depth: nat)
    requires depth <= MAX_DEPTH && AreLines(before + [line] + after) && Holds(fs, path, before + [line] + after)
    ensures FlattenFile(x, fs, path, depth)
            == Append(Some(Flat([], 1)),
                      Append(FlattenItems(x, fs, Items(x, before), depth),
                             Append(FlattenItem(x, fs, Classify(x, line), depth),
                                    FlattenItems(x, fs, Items(x, after), depth))))
  {
    hide FlattenFile, FlattenItems, FlattenItem, Items, Classify, AreLines, Holds, Append;
    HeldFile(x, fs, path, before + [line] + after, depth);
    assert before + [line] + after == before + ([line] + after);
    ItemsJoin(x, before, [line] + after);
    ItemsJoin(x, [line], after);
    ItemOfLine(x, line);
    FlattenJoins(x, fs, Items(x, before), [Classify(x, line)] + Items(x, after), depth);
    FlattenFirst(x, fs, Classify(x, line), Items(x, after), depth);
  }

  lemma ItemOfLine(x: Lexer, line: string)
    ensures Items(x, [line]) == [Classify(x, line)]
  {
    hide Classify;
    assert [line][1..] == [];
  }

  /** A glob's files are read one after the other in the order of the matches. */
  lemma GlobInPlace(x: Lexer, fs: Fs, line: string, pattern: string, first: seq<string>, path: string,
                    rest: seq<string>, depth: nat)
    requires depth <= 100 && Classify(x, line) == Include(Glob(pattern))
    requires fs.globs(pattern) == Matches(first + [path] + rest)
    ensures InOrder(FlattenItem(x, fs, Classify(x, line), depth), 0, FlattenFiles(x, fs, first, depth + 1),
                    FlattenFile(x, fs, path, depth + 1), FlattenFiles(x, fs, rest, depth + 1))
    ensures FlattenFiles(x, fs, [], depth + 1) == Some(Flat([], 0))
  {
    hide FlattenFile, FlattenFiles, Classify, Append;
    FilesAround(x, fs, first, path, rest, depth + 1);
    var a, b, c := FlattenFiles(x, fs, first, depth + 1), FlattenFile(x, fs, path, depth + 1),
      FlattenFiles(x, fs, rest, depth + 1);
    FilesInOrder(a, b, c);
    NoFiles(x, fs, depth + 1);
  }

  lemma NoFiles(x: Lexer, fs: Fs, depth: nat)
    requires depth <= MAX_DEPTH + 1
    ensures FlattenFiles(x, fs, [], depth) == Some(Flat([], 0))
  {
  }

  lemma FilesInOrder(a: Option<Flat>, b: Option<Flat>, c: Option<Flat>)
    ensures InOrder(Append(a, Append(b, c)), 0, a, b, c)
  {
    if a.Some? && b.Some? && c.Some? {
      var i, j, k := a.value.items, b.value.items, c.value.items;
      assert i + (j + k) == i + j + k;
    }
  }

  lemma {:induction false} FilesAround(x: Lexer, fs: Fs, first: seq<string>, path: string, rest: seq<string>,
                                       depth: nat)
    requires depth <= MAX_DEPTH + 1
    ensures FlattenFiles(x, fs, first + [path] + rest, depth)
            == Append(FlattenFiles(x, fs, first, depth),
                      Append(FlattenFile(x, fs, path, depth), FlattenFiles(x, fs, rest, depth)))
    decreases |first|
  {
    hide FlattenFile, Append;
    var all := first + [path] + rest;
    if first == [] {
      assert all[0] == path && all[1..] == rest;
      AppendJoins(FlattenFiles(x, fs, all, depth), None, None);
    } else {
      assert all[0] == first[0] && all[1..] == first[1..] + [path] + rest;
      FilesAround(x, fs, first[1..], path, rest, depth);
      AppendJoins(FlattenFile(x, fs, first[0], depth), FlattenFiles(x, fs, first[1..], depth),
                  Append(FlattenFile(x, fs, path, depth), FlattenFiles(x, fs, rest, depth)));
    }
  }

  /** A file without directives contributes its own lines, in order, and counts as one file. */
  lemma PlainFile(x: Lexer, fs: Fs, path: string, lines: seq<string>, depth: nat)
    requires depth <= 100 && AreLines(lines) && Holds(fs, path, lines)
    requires forall i :: 0 <= i < |lines| ==> !Classify(x, lines[i]).Include?
    ensures FlattenFile(x, fs, path, depth) == Some(Flat(Items(x, lines), 1))
  {
    hide FlattenFile, Classify, AreLines, Holds, FlattenItems;
    HeldFile(x, fs, path, lines, depth);
    PlainItems(x, fs, Items(x, lines), depth);
    assert [] + Items(x, lines) == Items(x, lines);
  }

  lemma {:induction false} PlainItems(x: Lexer, fs: Fs, items: seq<Item>, depth: nat)
    requires depth <= MAX_DEPTH && forall i :: 0 <= i < |items| ==> !items[i].Include?
    ensures FlattenItems(x, fs, items, depth) == Some(Flat(items, 0))
    decreases |items|
  {
    if items != [] {
      PlainItems(x, fs, items[1..], depth);
      assert FlattenItem(x, fs, items[0], depth) == Some(Flat([items[0]], 0));
      assert [items[0]] + items[1..] == items;
    }
  }

  // ----- the depth limit -----

  /** Each file holds one directive for the next; the last is empty. */
  ghost predicate IsChain(x: Lexer, fs: Fs, paths: seq<string>, lines: seq<string>) {
    && |paths| == |lines| + 1 && AreLines(lines)
    && (forall i :: 0 <= i < |lines| ==>
          Holds(fs, paths[i], [lines[i]]) && Classify(x, lines[i]) == Include(Path(paths[i + 1])))
    && Holds(fs, paths[|lines|], [])
  }

  lemma ChainTail(x: Lexer, fs: Fs, paths: seq<string>, lines: seq<string>)
    requires IsChain(x, fs, paths, lines) && lines != []
    ensures IsChain(x, fs, paths[1..], lines[1..])
    ensures AreLines([lines[0]]) && Holds(fs, paths[0], [lines[0]])
    ensures Classify(x, lines[0]) == Include(Path(paths[1..][0]))
  {
    hide Holds, Classify;
  }

  lemma {:induction false} ChainFlattens(x: Lexer, fs: Fs, paths: seq<string>, lines: seq<string>, depth: nat)
    requires IsChain(x, fs, paths, lines) && depth <= 101
    ensures FlattenFile(x, fs, paths[0], depth).Some? <==> depth + |lines| <= 100
    ensures FlattenFile(x, fs, paths[0], depth).Some? ==>
              FlattenFile(x, fs, paths[0], depth).value == Flat([], |paths|)
    decreases |lines|
  {
    hide FlattenFile, FlattenItems, Items, Classify, AreLines, Holds;
    if depth > 100 {
      TooDeep(x, fs, paths[0], depth);
    } else if lines == [] {
      NoLines(x);
      PlainFile(x, fs, paths[0], [], depth);
    } else {
      ChainTail(x, fs, paths, lines);
      ChainFlattens(x, fs, paths[1..], lines[1..], depth + 1);
      assert [] + [lines[0]] + [] == [lines[0]];
      ReadsInPlace(x, fs, paths[0], [], lines[0], [], depth, paths[1..][0]);
      NoItems(x, fs, depth);
    }
  }

  lemma NoLines(x: Lexer)
    ensures AreLines([]) && Items(x, []) == []
  {
  }

  lemma NoItems(x: Lexer, fs: Fs, depth: nat)
    requires depth <= MAX_DEPTH
    ensures FlattenItems(x, fs, Items(x, []), depth) == Some(Flat([], 0))
  {
  }

  lemma TooDeep(x: Lexer, fs: Fs, path: string, depth: nat)
    requires depth == MAX_DEPTH + 1
    ensures FlattenFile(x, fs, path, depth).None?
  {
  }

  /** A chain of includes loads exactly when it has at most 101 files: the config and a hundred levels below it. */
  lemma ChainLoads(x: Lexer, fs: Fs, paths: seq<string>, lines: seq<string>)
    requires IsChain(x, fs, paths, lines)
    ensures WalkFile(Still(x, fs), START, paths[0], 0).1 <==> |paths| <= 101
  {
    hide IsChain, WalkFile, FlattenFile;
    ChainLengths(x, fs, paths, lines);
    ChainFlattens(x, fs, paths, lines, 0);
    LoadMeaning(x, fs, paths[0], Prefix(true, 0, 0));
  }

  lemma ChainLengths(x: Lexer, fs: Fs, paths: seq<string>, lines: seq<string>)
    requires IsChain(x, fs, paths, lines)
    ensures |paths| == |lines| + 1
  {
  }
}
