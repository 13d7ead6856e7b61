/**
 The include walker (go/pfb_dns_gateway/aclconf.go): what one load reads and the rows it builds.

 A load asks the file system two kinds of questions, "open this path" and "match this glob", one after the
 other; files may be written in between. `World` therefore answers by the number of the question. A world
 that gives the same answer every time is one state of the file system.
 */
module AclWalk {
  import opened Common
  import opened AclLookup
  import opened AclText
  import opened Text

  const READ_BUFFER: nat := 4096 + 2
  const MAX_DEPTH: nat := 100
  const MAX_FILES: nat := 4096

  /** os.FileInfo as sameFile compares it: inode, mtime, size and mode. */
  type Identity = nat

  /**
   What opening a path gave: the identity taken before the read and the bytes read (whole is false when the
   read ended in an error, not in EOF); or nothing, with the identity kept only for a permission error; or an open
   file whose identity could not be taken.
   */
  datatype FileAnswer =
    | Opened(id: Identity, content: string, whole: bool)
    | NotOpened(info: Option<Identity>)
    | StatFailed

  datatype GlobAnswer = Matches(paths: seq<string>) | GlobFailed

  datatype World = World(lexer: Lexer, file: (nat, string) -> FileAnswer, glob: (nat, string) -> GlobAnswer)

  datatype FileDep = FileDep(path: string, info: Option<Identity>)

  datatype GlobDep = GlobDep(pattern: string, answer: GlobAnswer)

  /** `lost` is history: the walk was stopped by an open file without identity, of which it recorded nothing. */
  datatype Walk = Walk(
    rows: map<Prefix, Action>,
    files: seq<FileDep>,
    globs: seq<GlobDep>,
    openCount: nat,
    implied: seq<Prefix>,
    lost: bool)

  const START := Walk(map[], [], [], 0, [], false)

  // ----- lines -----

  /** The newline-terminated lines that fit the read buffer, without their newline; an unterminated tail is dropped. */
  function Lines(s: string): seq<string>
    decreases |s|
  {
    var i := Find(s, "\n");
    if i == |s| then []
    else if i + 1 <= READ_BUFFER then [s[..i]] + Lines(s[i + 1..])
    else Lines(s[i + 1..])
  }

  datatype ReadEnd = Delimiter | BufferFull | End

  /** bufio.Reader.ReadSlice('\n') with that buffer: how many bytes it takes, and how it ends. */
  function SliceLength(s: string): (n: nat)
    ensures n <= |s|
  {
    var i := Find(s, "\n");
    if i < |s| && i + 1 <= READ_BUFFER then i + 1
    else if |s| >= READ_BUFFER then READ_BUFFER
    else |s|
  }

  function SliceEnd(s: string): ReadEnd {
    var i := Find(s, "\n");
    if i < |s| && i + 1 <= READ_BUFFER then Delimiter
    else if |s| >= READ_BUFFER then BufferFull
    else End
  }

  // ----- the walk -----

  function WalkFile(w: World, st: Walk, path: string, depth: nat): (r: (Walk, bool))
    requires depth <= MAX_DEPTH + 1
    decreases MAX_DEPTH + 1 - depth, 3, 0
  {
    if depth > MAX_DEPTH then (st, false)
    else
      var st1 := st.(openCount := st.openCount + 1);
      if st1.openCount > MAX_FILES then (st1, false)
      else
        match w.file(|st1.files|, path)
        case NotOpened(info) => (st1.(files := st1.files + [FileDep(path, info)]), false)
        case StatFailed => (st1.(lost := true), false)
        case Opened(id, content, whole) =>
          var st2 := st1.(files := st1.files + [FileDep(path, Some(id))]);
          var (st3, ok) := WalkLines(w, st2, Lines(content), depth);
          (st3, ok && whole)
  }

  function WalkLines(w: World, st: Walk, lines: seq<string>, depth: nat): (r: (Walk, bool))
    requires depth <= MAX_DEPTH
    decreases MAX_DEPTH + 1 - depth, 2, |lines|
  {
    if lines == [] then (st, true)
    else
      var (st1, ok) := WalkLine(w, st, lines[0], depth);
      if !ok then (st1, false) else WalkLines(w, st1, lines[1..], depth)
  }

  function WalkLine(w: World, st: Walk, raw: string, depth: nat): (r: (Walk, bool))
    requires depth <= MAX_DEPTH
    decreases MAX_DEPTH + 1 - depth, 1, 1
  {
    WalkItem(w, st, Classify(w.lexer, raw), depth)
  }

  function WalkItem(w: World, st: Walk, item: Item, depth: nat): (r: (Walk, bool))
    requires depth <= MAX_DEPTH
    decreases MAX_DEPTH + 1 - depth, 1, 0
  {
    match item
    case Listed(row) => (st.(rows := st.rows[row.prefix := row.action]), true)
    case Implied(p) => (st.(implied := st.implied + [p]), true)
    case Include(target) => WalkInclude(w, st, target, depth)
    case Nothing => (st, true)
  }

  function WalkInclude(w: World, st: Walk, target: Target, depth: nat): (r: (Walk, bool))
    requires depth <= MAX_DEPTH
    decreases MAX_DEPTH + 1 - depth, 0, 0
  {
    match target
    case Bad => (st, false)
    case Path(path) => WalkFile(w, st, path, depth + 1)
    case Glob(pattern) =>
      var answer := w.glob(|st.globs|, pattern);
      var st1 := st.(globs := st.globs + [GlobDep(pattern, answer)]);
      match answer
      case GlobFailed => (st1, false)
      case Matches(paths) => WalkFiles(w, st1, paths, depth + 1)
  }

  function WalkFiles(w: World, st: Walk, paths: seq<string>, depth: nat): (r: (Walk, bool))
    requires depth <= MAX_DEPTH + 1
    decreases MAX_DEPTH + 1 - depth, 4, |paths|
  {
    if paths == [] then (st, true)
    else
      var (st1, ok) := WalkFile(w, st, paths[0], depth);
      if !ok then (st1, false) else WalkFiles(w, st1, paths[1..], depth)
  }

  /** Implicit allows come last and only for netblocks no access-control row lists. */
  function WithImplied(rows: map<Prefix, Action>, implied: seq<Prefix>): map<Prefix, Action>
    decreases |implied|
  {
    if implied == [] then rows
    else
      var p := implied[0];
      WithImplied(if p in rows then rows else rows[p := Forward], implied[1..])
  }

  // ----- the walker itself -----

  lemma SliceOfLines(s: string)
    ensures SliceEnd(s) == Delimiter ==> Lines(s) == [s[..SliceLength(s) - 1]] + Lines(s[SliceLength(s)..])
    ensures SliceEnd(s) == End ==> Lines(s) == []
  {
  }

  /** What is left of a line after its first part filled the buffer: up to and with its newline. */
  function AfterLine(s: string): string {
    var i := Find(s, "\n");
    if i == |s| then "" else s[i + 1..]
  }

  lemma LongLineIsSkipped(s: string)
    requires SliceEnd(s) == BufferFull
    ensures Lines(s) == Lines(AfterLine(s))
  {
  }

  lemma {:induction false} FindInTail(s: string, n: nat)
    requires n <= |s| && n <= Find(s, "\n")
    ensures Find(s[n..], "\n") == Find(s, "\n") - n
    decreases n
  {
    if n > 0 {
      FindInTail(s[1..], n - 1);
      assert s[1..][n - 1..] == s[n..];
    } else {
      assert s[n..] == s;
    }
  }

  lemma AfterSlice(s: string)
    ensures SliceEnd(s) == BufferFull ==> AfterLine(s) == AfterLine(s[SliceLength(s)..])
    ensures SliceEnd(s) == Delimiter ==> AfterLine(s) == s[SliceLength(s)..]
    ensures SliceEnd(s) == End ==> AfterLine(s) == ""
  {
    hide Find;
    if SliceEnd(s) == BufferFull {
      var i := Find(s, "\n");
      FindInTail(s, READ_BUFFER);
      if i < |s| {
        assert s[READ_BUFFER..][i - READ_BUFFER + 1..] == s[i + 1..];
      }
    }
  }

  class ConfWalker {
    const world: World
    var rows: map<Prefix, Action>
    var files: seq<FileDep>
    var globs: seq<GlobDep>
    var openCount: nat
    var implied: seq<Prefix>
    ghost var lost: bool

    ghost function State(): Walk
      reads this
    {
      Walk(rows, files, globs, openCount, implied, lost)
    }

    constructor (world: World)
      ensures this.world == world && State() == START
    {
      this.world := world;
      rows, files, globs, openCount, implied := map[], [], [], 0, [];
      lost := false;
    }

    method File(path: string, depth: nat) returns (ok: bool)
      requires depth <= MAX_DEPTH + 1
      modifies this
      ensures (State(), ok) == WalkFile(world, old(State()), path, depth)
      decreases MAX_DEPTH + 1 - depth, 3
    {
      if depth > MAX_DEPTH {
        return false;
      }
      openCount := openCount + 1;
      if openCount > MAX_FILES {
        return false;
      }
      match world.file(|files|, path)
      case NotOpened(info) =>
        files := files + [FileDep(path, info)];
        return false;
      case StatFailed =>
        lost := true;
        return false;
      case Opened(id, content, whole) =>
        files := files + [FileDep(path, Some(id))];
        ok := Stream(content, depth);
        return ok && whole;
    }

    /** The read loop: an over-long line is read to its end and skipped. */
    method Stream(content: string, depth: nat) returns (ok: bool)
      requires depth <= MAX_DEPTH
      modifies this
      ensures (State(), ok) == WalkLines(world, old(State()), Lines(content), depth)
      decreases MAX_DEPTH + 1 - depth, 2
    {
      var rest := content;
      while true
        invariant WalkLines(world, State(), Lines(rest), depth) == WalkLines(world, old(State()), Lines(content), depth)
        decreases |rest|
      {
        var n, end := SliceLength(rest), SliceEnd(rest);
        SliceOfLines(rest);
        if end == BufferFull {
          LongLineIsSkipped(rest);
          rest := SkipLine(rest);
          continue;
        }
        if end == End {
          return true;
        }
        var line := rest[..n - 1];
        rest := rest[n..];
        assert ([line] + Lines(rest))[1..] == Lines(rest);
        ok := Line(line, depth);
        if !ok {
          return false;
        }
      }
    }

    /** Reads on until the buffer no longer fills without a newline. */
    method SkipLine(s: string) returns (rest: string)
      requires SliceEnd(s) == BufferFull
      ensures rest == AfterLine(s) && |rest| < |s|
    {
      rest := s;
      var end := BufferFull;
      while end == BufferFull
        invariant |rest| <= |s|
        invariant end == BufferFull ==> AfterLine(rest) == AfterLine(s)
        invariant end == BufferFull ==> rest == s || |rest| < |s|
        invariant end != BufferFull ==> rest == AfterLine(s) && |rest| < |s|
        decreases end == BufferFull, |rest|
      {
        AfterSlice(rest);
        end := SliceEnd(rest);
        rest := rest[SliceLength(rest)..];
      }
    }

    method Line(raw: string, depth: nat) returns (ok: bool)
      requires depth <= MAX_DEPTH
      modifies this
      ensures (State(), ok) == WalkLine(world, old(State()), raw, depth)
      decreases MAX_DEPTH + 1 - depth, 1
    {
      ok := true;
      match Classify(world.lexer, raw)
      case Listed(row) => rows := rows[row.prefix := row.action];
      case Implied(p) => implied := implied + [p];
      case Include(target) => ok := Include(target, depth);
      case Nothing =>
    }

    method Include(target: Target, depth: nat) returns (ok: bool)
      requires depth <= MAX_DEPTH
      modifies this
      ensures (State(), ok) == WalkInclude(world, old(State()), target, depth)
      decreases MAX_DEPTH + 1 - depth, 0
    {
      match target
      case Bad => ok := false;
      case Path(path) => ok := File(path, depth + 1);
      case Glob(pattern) =>
        var answer := world.glob(|globs|, pattern);
        globs := globs + [GlobDep(pattern, answer)];
        if answer.GlobFailed? {
          return false;
        }
        ghost var st := State();
        var paths := answer.paths;
        for i := 0 to |paths|
          invariant WalkFiles(world, State(), paths[i..], depth + 1) == WalkFiles(world, st, paths, depth + 1)
        {
          assert paths[i..][1..] == paths[i + 1..];
          ok := File(paths[i], depth + 1);
          if !ok {
            return false;
          }
        }
        ok := true;
    }

    method AllowImplicit()
      modifies this`rows
      ensures rows == WithImplied(old(rows), implied)
    {
      for i := 0 to |implied|
        invariant WithImplied(rows, implied[i..]) == WithImplied(old(rows), implied)
      {
        assert implied[i..][1..] == implied[i + 1..];
        if implied[i] !in rows {
          rows := rows[implied[i] := Forward];
        }
      }
    }
  }
}
