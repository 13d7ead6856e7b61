/**
 The cache of a load (go/pfb_dns_gateway/acl.go `Refresh` and `load`, aclconf.go `changed`): a reload is skipped
 when nothing a load recorded has changed. The theorem: whenever it is skipped, a full reload would give the load
 already in force, whatever was written during and after it, exactly when that load did not stop at an open file
 whose identity it could not take.
 */
module AclRefresh {
  import opened Common
  import opened AclLookup
  import opened AclText
  import opened AclWalk
  import opened AclMeaning

  /** One load: what it recorded, the rules it put in force, and whether there never was a good load. */
  datatype Loaded = Loaded(files: seq<FileDep>, globs: seq<GlobDep>, rules: map<Prefix, Action>, broken: bool)

  /** After a good load its rules stay when a later one fails; a failure before the first forwards everything. */
  function Load(w: World, path: string, prev: Option<Loaded>): Loaded {
    var (st, ok) := WalkFile(w, START, path, 0);
    if ok then Loaded(st.files, st.globs, WithDefaults(WithImplied(st.rows, st.implied)), false)
    else if prev.Some? && !prev.value.broken then Loaded(st.files, st.globs, prev.value.rules, false)
    else Loaded(st.files, st.globs, map[], true)
  }

  // ----- the rules in force -----

  /** Some row read lists the prefix. */
  predicate IsListed(items: seq<Item>, p: Prefix) {
    exists i :: 0 <= i < |items| && items[i].Listed? && items[i].row.prefix == p
  }

  /** The last row read that lists the prefix. */
  predicate IsLast(items: seq<Item>, p: Prefix, i: nat) {
    && i < |items| && items[i].Listed? && items[i].row.prefix == p
    && forall j :: i < j < |items| && items[j].Listed? ==> items[j].row.prefix != p
  }

  /** A load's rules hold the prefix: it is listed, implied, or one of Unbound's localhost rows 127.0.0.0/8 and ::1. */
  predicate IsRuled(items: seq<Item>, p: Prefix) {
    IsListed(items, p) || Implied(p) in items || p == Prefix(true, 0x7f00_0000, 8) || p == Prefix(false, 1, 128)
  }

  /** What the rules say of it: the last listed action, else forward. */
  ghost predicate Decides(items: seq<Item>, p: Prefix, action: Action) {
    && IsRuled(items, p)
    && (forall i: nat :: IsLast(items, p, i) ==> items[i].row.action == action)
    && (!IsListed(items, p) ==> action == Forward)
  }

  lemma {:induction false} LastIsLast(items: seq<Item>, p: Prefix)
    ensures LastListed(items, p).None? <==> !IsListed(items, p)
    ensures LastListed(items, p).Some? ==> exists i: nat :: IsLast(items, p, i)
    ensures forall i: nat :: IsLast(items, p, i) ==> LastListed(items, p) == Some(items[i].row.action)
    decreases |items|
  {
    hide IsListed;
    if items == [] {
      LastOf(items, p);
    } else {
      var n := |items| - 1;
      LastIsLast(items[..n], p);
      ListedFront(items[..n], items[n], p);
      assert items == items[..n] + [items[n]];
      forall i: nat
        ensures IsLast(items, p, i) ==> LastListed(items, p) == Some(items[i].row.action)
      {
        LastFront(items[..n], items[n], p, i);
      }
      LastFront(items[..n], items[n], p, n);
      if LastListed(items[..n], p).Some? {
        var i: nat :| IsLast(items[..n], p, i);
        LastFront(items[..n], items[n], p, i);
      }
    }
  }

  lemma LastOf(items: seq<Item>, p: Prefix)
    requires items == []
    ensures !IsListed(items, p) && forall i: nat :: !IsLast(items, p, i)
  {
  }

  lemma ListedFront(front: seq<Item>, last: Item, p: Prefix)
    ensures IsListed(front + [last], p) <==> IsListed(front, p) || (last.Listed? && last.row.prefix == p)
  {
    var items := front + [last];
    assert items[|front|] == last && forall i :: 0 <= i < |front| ==> items[i] == front[i];
  }

  lemma LastFront(front: seq<Item>, last: Item, p: Prefix, i: nat)
    ensures IsLast(front + [last], p, i) <==>
              if last.Listed? && last.row.prefix == p then i == |front| else IsLast(front, p, i)
    ensures i < |front| ==> (front + [last])[i] == front[i]
    ensures (front + [last])[|front|] == last
    ensures IsLast(front, p, i) ==> i < |front| && front[i].Listed?
    ensures IsLast(front + [last], p, i) ==> i <= |front| && (front + [last])[i].Listed?
  {
    var items := front + [last];
    assert items[|front|] == last && forall i :: 0 <= i < |front| ==> items[i] == front[i];
  }

  lemma {:induction false} ImpliedByIs(items: seq<Item>, p: Prefix)
    ensures p in ImpliedBy(items) <==> Implied(p) in items
  {
    if items != [] {
      ImpliedByIs(items[1..], p);
      assert items == [items[0]] + items[1..];
    }
  }

  /** The tree a state of the file system holds at the path, within the limits a load accepts. */
  predicate Loads(x: Lexer, fs: Fs, path: string) {
    FlattenFile(x, fs, path, 0).Some? && FlattenFile(x, fs, path, 0).value.files <= 4096
  }

  /**
   A load over one state of the file system: it is good exactly when the tree can be read within the limits, and its
   rules then hold a prefix exactly when it is listed, implied or a localhost default, with the last listed action, or
   forward where no row lists it.
   */
  lemma LoadRules(x: Lexer, fs: Fs, path: string, prev: Option<Loaded>, p: Prefix)
    ensures var l := Load(Still(x, fs), path, prev);
            && (Loads(x, fs, path) <==> WalkFile(Still(x, fs), START, path, 0).1)
            && (Loads(x, fs, path) ==>
                  var items := FlattenFile(x, fs, path, 0).value.items;
                  && !l.broken && (p in l.rules <==> IsRuled(items, p))
                  && (p in l.rules ==> Decides(items, p, l.rules[p])))
  {
    hide WalkFile, FlattenFile, WithImplied, LastListed, ImpliedBy, IsListed;
    LoadMeaning(x, fs, path, p);
    if Loads(x, fs, path) {
      var items := FlattenFile(x, fs, path, 0).value.items;
      LastIsLast(items, p);
      ImpliedByIs(items, p);
    }
  }

  /** The most specific prefix a load's rules hold for the client. */
  ghost predicate MostSpecific(items: seq<Item>, a: Addr, p: Prefix) {
    IsRuled(items, p) && Covers(p, a) && forall q :: IsRuled(items, q) && Covers(q, a) ==> q.len <= p.len
  }

  /**
   So a client gets what the most specific such prefix says, refuse where none covers it, and nothing else: which prefix
   is the most specific leaves no choice.
   */
  lemma LoadedLookup(x: Lexer, fs: Fs, path: string, prev: Option<Loaded>, a: Addr, p: Prefix)
    requires Loads(x, fs, path)
    ensures var rules, items := Load(Still(x, fs), path, prev).rules, FlattenFile(x, fs, path, 0).value.items;
            && (MostSpecific(items, a, p) ==> Decides(items, p, Scan(rules, a)))
            && ((forall q :: IsRuled(items, q) ==> !Covers(q, a)) ==> Scan(rules, a) == Refuse)
  {
    hide FlattenFile, Load, Covers, IsRuled, Decides, IsMasked;
    var rules, items := Load(Still(x, fs), path, prev).rules, FlattenFile(x, fs, path, 0).value.items;
    forall q
      ensures q in rules <==> IsRuled(items, q)
      ensures q in rules ==> Decides(items, q, rules[q])
    {
      LoadRules(x, fs, path, prev, q);
    }
    LoadsAreMasked(x, fs, path, prev);
    if MostSpecific(items, a, p) {
      assert Named(rules, a) && IsBest(rules, a, p);
      var best :| IsBest(rules, a, best) && rules[best] == Scan(rules, a);
      BestIsUnique(rules, a, p, best);
    }
  }

  lemma LoadsAreMasked(x: Lexer, fs: Fs, path: string, prev: Option<Loaded>)
    requires Loads(x, fs, path)
    ensures AllMasked(Load(Still(x, fs), path, prev).rules)
  {
    hide WalkFile, FlattenFile, WithImplied, IsMasked;
    LoadRules(x, fs, path, prev, LOCALHOST4);
    LoadedRowsAreMasked(Still(x, fs), path);
    DefaultsAreMasked(WithImplied(WalkFile(Still(x, fs), START, path, 0).0.rows,
                                  WalkFile(Still(x, fs), START, path, 0).0.implied));
  }

  // ----- changed -----

  /** os.Stat: the identity of what the path names now. */
  function Stat(f: FileState): Option<Identity> {
    if f.Absent? then None else Some(f.id)
  }

  predicate FileChanged(fs: Fs, d: FileDep) {
    Stat(fs.files(d.path)) != d.info
  }

  predicate GlobChanged(fs: Fs, g: GlobDep) {
    fs.globs(g.pattern) != g.answer
  }

  /** The stats and globs follow one another, so each looks at a state of its own. */
  predicate Changed(looks: Looks, files: seq<FileDep>, globs: seq<GlobDep>) {
    || (exists k :: 0 <= k < |files| && FileChanged(looks.file(k), files[k]))
    || (exists k :: 0 <= k < |globs| && GlobChanged(looks.glob(k), globs[k]))
  }

  // ----- a walk depends on nothing but the answers it recorded -----

  function InfoOf(a: FileAnswer): Option<Identity> {
    match a
    case Opened(id, _, _) => Some(id)
    case NotOpened(info) => info
    case StatFailed => None
  }

  predicate Recorded(w: World, st: Walk) {
    && (forall k :: 0 <= k < |st.files| ==>
          !w.file(k, st.files[k].path).StatFailed? && st.files[k].info == InfoOf(w.file(k, st.files[k].path)))
    && (forall k :: 0 <= k < |st.globs| ==> st.globs[k].answer == w.glob(k, st.globs[k].pattern))
  }

  /** The two worlds answer alike every question the walk recorded. */
  ghost predicate Agree(w: World, w': World, st: Walk) {
    && w.lexer == w'.lexer
    && (forall k :: 0 <= k < |st.files| ==> w.file(k, st.files[k].path) == w'.file(k, st.files[k].path))
    && (forall k :: 0 <= k < |st.globs| ==> w.glob(k, st.globs[k].pattern) == w'.glob(k, st.globs[k].pattern))
  }

  predicate Extends(st: Walk, st': Walk) {
    st.files <= st'.files && st.globs <= st'.globs
  }

  lemma AgreeEarlier(w: World, w': World, st: Walk, st': Walk)
    requires Extends(st, st') && Agree(w, w', st')
    ensures Agree(w, w', st)
  {
    assert st.files == st'.files[..|st.files|] && st.globs == st'.globs[..|st.globs|];
  }

  /** Every file that opens gives its identity. */
  ghost predicate GivesIdentities(w: World) {
    forall k, p :: !w.file(k, p).StatFailed?
  }

  /**
   What one part of the walk does under w, against the same part under a world w' that agrees with its records: it
   only adds records and records its answers; it replays, unless it lost a file, and then a walk that gets identities
   records more.
   */
  ghost predicate Replays(w: World, st: Walk, r: (Walk, bool), r': (Walk, bool), w': World) {
    && Extends(st, r.0)
    && (Recorded(w, st) ==> Recorded(w, r.0))
    && (!st.lost && r.0.lost ==> !r.1)
    && (!st.lost && Agree(w, w', r.0) ==> AsBefore(r, r', w'))
  }

  ghost predicate AsBefore(r: (Walk, bool), r': (Walk, bool), w': World) {
    if r.0.lost then GivesIdentities(w') ==> |r.0.files| < |r'.0.files| else r' == r
  }

  /** The walk after a path was opened or refused. */
  function Noted(st: Walk, path: string, info: Option<Identity>): (st': Walk)
    ensures st'.files == st.files + [FileDep(path, info)] && st'.globs == st.globs && st'.lost == st.lost
  {
    st.(openCount := st.openCount + 1, files := st.files + [FileDep(path, info)])
  }

  lemma OpenedReplays(w: World, w': World, st: Walk, path: string, answer: FileAnswer, r: (Walk, bool),
                      r': (Walk, bool), s: (Walk, bool))
    requires answer.Opened? && w.file(|st.files|, path) == answer
    requires Replays(w, Noted(st, path, Some(answer.id)), r, r', w')
    requires w'.file(|st.files|, path) == answer ==> s == (r'.0, r'.1 && answer.whole)
    ensures Replays(w, st, (r.0, r.1 && answer.whole), s, w')
  {
    var st2 := Noted(st, path, Some(answer.id));
    assert st2.files[|st.files|] == FileDep(path, Some(answer.id));
    if Agree(w, w', r.0) {
      AgreeEarlier(w, w', st2, r.0);
    }
  }

  lemma RefusedReplays(w: World, w': World, st: Walk, path: string, info: Option<Identity>, s: (Walk, bool))
    requires w.file(|st.files|, path) == NotOpened(info)
    requires w'.file(|st.files|, path) == NotOpened(info) ==> s == (Noted(st, path, info), false)
    ensures Replays(w, st, (Noted(st, path, info), false), s, w')
  {
    var st2 := Noted(st, path, info);
    assert st2.files[|st.files|] == FileDep(path, info);
  }

  lemma {:induction false} FileReplays(w: World, w': World, st: Walk, path: string, depth: nat)
    requires depth <= MAX_DEPTH + 1 && w.lexer == w'.lexer
    ensures Replays(w, st, WalkFile(w, st, path, depth), WalkFile(w', st, path, depth), w')
    decreases MAX_DEPTH + 1 - depth, 4, 0
  {
    if depth <= MAX_DEPTH && st.openCount + 1 <= MAX_FILES {
      var answer := w.file(|st.files|, path);
      match answer
      case Opened(id, content, whole) =>
        var st2, lines := Noted(st, path, Some(id)), Lines(content);
        LinesReplay(w, w', st2, lines, depth);
        OpenedReplays(w, w', st, path, answer, WalkLines(w, st2, lines, depth), WalkLines(w', st2, lines, depth),
                      WalkFile(w', st, path, depth));
      case NotOpened(info) => RefusedReplays(w, w', st, path, info, WalkFile(w', st, path, depth));
      case StatFailed => FileRecords(w', st, path, depth);
    }
  }

  /** A path that is opened or refused is recorded. */
  lemma {:induction false} FileRecords(w: World, st: Walk, path: string, depth: nat)
    requires depth <= MAX_DEPTH && st.openCount + 1 <= MAX_FILES
    ensures !w.file(|st.files|, path).StatFailed? ==> |st.files| < |WalkFile(w, st, path, depth).0.files|
    decreases MAX_DEPTH + 1 - depth, 3
  {
    var answer := w.file(|st.files|, path);
    if answer.Opened? {
      LinesReplay(w, w, Noted(st, path, Some(answer.id)), Lines(answer.content), depth);
    }
  }

  lemma {:induction false} LinesReplay(w: World, w': World, st: Walk, lines: seq<string>, depth: nat)
    requires depth <= MAX_DEPTH && w.lexer == w'.lexer
    ensures Replays(w, st, WalkLines(w, st, lines, depth), WalkLines(w', st, lines, depth), w')
    decreases MAX_DEPTH + 1 - depth, 2, |lines|
  {
    if lines != [] {
      var item := Classify(w.lexer, lines[0]);
      var r, r' := WalkItem(w, st, item, depth), WalkItem(w', st, item, depth);
      ItemReplays(w, w', st, item, depth);
      if r.1 {
        LinesReplay(w, w', r.0, lines[1..], depth);
        var end := WalkLines(w, r.0, lines[1..], depth);
        if Agree(w, w', end.0) {
          AgreeEarlier(w, w', r.0, end.0);
        }
      } else {
        LinesReplay(w', w', r'.0, lines[1..], depth);
      }
    }
  }

  lemma {:induction false} ItemReplays(w: World, w': World, st: Walk, item: Item, depth: nat)
    requires depth <= MAX_DEPTH && w.lexer == w'.lexer
    ensures Replays(w, st, WalkItem(w, st, item, depth), WalkItem(w', st, item, depth), w')
    decreases MAX_DEPTH + 1 - depth, 1, 0
  {
    match item
    case Include(Path(path)) => FileReplays(w, w', st, path, depth + 1);
    case Include(Glob(pattern)) => GlobReplays(w, w', st, pattern, depth);
    case _ =>
  }

  lemma {:induction false} GlobReplays(w: World, w': World, st: Walk, pattern: string, depth: nat)
    requires depth <= MAX_DEPTH && w.lexer == w'.lexer
    ensures Replays(w, st, WalkInclude(w, st, Glob(pattern), depth), WalkInclude(w', st, Glob(pattern), depth), w')
    decreases MAX_DEPTH + 1 - depth, 0, 0
  {
    hide WalkFile, WalkFiles;
    var answer := w.glob(|st.globs|, pattern);
    var st1 := st.(globs := st.globs + [GlobDep(pattern, answer)]);
    assert st1.globs[|st.globs|].pattern == pattern;
    if answer.Matches? {
      FilesReplay(w, w', st1, answer.paths, depth + 1);
      var r := WalkFiles(w, st1, answer.paths, depth + 1);
      if Agree(w, w', r.0) {
        AgreeEarlier(w, w', st1, r.0);
      }
    }
  }

  lemma {:induction false} FilesReplay(w: World, w': World, st: Walk, paths: seq<string>, depth: nat)
    requires depth <= MAX_DEPTH + 1 && w.lexer == w'.lexer
    ensures Replays(w, st, WalkFiles(w, st, paths, depth), WalkFiles(w', st, paths, depth), w')
    decreases MAX_DEPTH + 1 - depth, 5, |paths|
  {
    if paths != [] {
      var r, r' := WalkFile(w, st, paths[0], depth), WalkFile(w', st, paths[0], depth);
      FileReplays(w, w', st, paths[0], depth);
      if r.1 {
        FilesReplay(w, w', r.0, paths[1..], depth);
        var end := WalkFiles(w, r.0, paths[1..], depth);
        if Agree(w, w', end.0) {
          AgreeEarlier(w, w', r.0, end.0);
        }
      } else {
        FilesReplay(w', w', r'.0, paths[1..], depth);
      }
    }
  }

  // ----- the file system over time -----

  /** Every change of a path leaves it absent or with an identity it never had before. */
  ghost predicate Fresh(h: seq<Fs>) {
    forall j, i, p :: 0 <= j < i < |h| ==> NewAt(h, j, i, p)
  }

  predicate NewAt(h: seq<Fs>, j: nat, i: nat, p: string)
    requires j < i < |h|
  {
    var f := h[i].files(p);
    f != h[i - 1].files(p) && Stat(f).Some? ==> Stat(h[j].files(p)) != Stat(f)
  }

  /** So an identity seen again is the same file, unchanged all the time in between. */
  lemma {:induction false} SameIdentitySameFile(h: seq<Fs>, i: nat, j: nat, p: string)
    requires Fresh(h) && i <= j < |h|
    requires Stat(h[i].files(p)).Some? && Stat(h[i].files(p)) == Stat(h[j].files(p))
    ensures forall k :: i <= k <= j ==> h[k].files(p) == h[i].files(p)
    decreases j
  {
    if i < j {
      assert NewAt(h, i, j, p);
      SameIdentitySameFile(h, i, j - 1, p);
    }
  }

  /**
   An answer a load may get for a path between the moments a and b. The identity is taken before the read, and a
   torn read is possible only when the file changes under the reader. A permission error keeps the identity an
   earlier stat gave; any other failure keeps none. Taking the identity of a file that was opened may fail.
   */
  ghost predicate Seen(h: seq<Fs>, a: nat, b: nat, p: string, answer: FileAnswer)
    requires a <= b < |h|
  {
    match answer
    case Opened(id, content, whole) =>
      exists t :: a <= t <= b && SeenAt(h, t, b, p, id, content, whole)
    case NotOpened(info) =>
      exists t1, t2 :: a <= t1 <= t2 <= b && DeniedAt(h[t1].files(p), h[t2].files(p), info)
    case StatFailed =>
      exists t :: a <= t <= b && h[t].files(p).Readable?
  }

  ghost predicate SeenAt(h: seq<Fs>, t: nat, b: nat, p: string, id: Identity, content: string, whole: bool)
    requires t <= b < |h|
  {
    var f := h[t].files(p);
    && f.Readable? && f.id == id
    && ((f.content == content && f.whole == whole) || exists t' :: t < t' <= b && h[t'].files(p) != f)
  }

  predicate DeniedAt(atStat: FileState, atOpen: FileState, info: Option<Identity>) {
    !atOpen.Readable? && info == if atOpen.Unreadable? then Stat(atStat) else None
  }

  /** A path whose recorded identity still stands would give the recorded answer again. */
  lemma UnchangedAnswer(h: seq<Fs>, a: nat, b: nat, now: nat, p: string, answer: FileAnswer)
    requires !answer.StatFailed? && Fresh(h) && a <= b <= now < |h| && Seen(h, a, b, p, answer)
    requires Stat(h[now].files(p)) == InfoOf(answer)
    ensures Observe(h[now].files(p)) == answer
  {
    match answer
    case Opened(id, content, whole) =>
      var t :| a <= t <= b && SeenAt(h, t, b, p, id, content, whole);
      SameIdentitySameFile(h, t, now, p);
    case NotOpened(info) =>
      var t1, t2 :| a <= t1 <= t2 <= b && DeniedAt(h[t1].files(p), h[t2].files(p), info);
      if info.Some? {
        SameIdentitySameFile(h, t1, now, p);
      }
  }

  /** The record of one load: its answers, when it ran, and the load before it. */
  datatype LoadRun = LoadRun(world: World, start: nat, end: nat, prev: Option<Loaded>)

  /** The load's file answers are ones it may have seen while it ran. A glob may list a mix of several moments. */
  ghost predicate Happened(h: seq<Fs>, run: LoadRun) {
    run.start <= run.end < |h| && forall k, p :: Seen(h, run.start, run.end, p, run.world.file(k, p))
  }

  /** The run's load stopped at an open file whose identity it could not take. */
  predicate Lost(w: World, path: string) {
    WalkFile(w, START, path, 0).0.lost
  }

  /** The looks found states of the history from some moment on. */
  ghost predicate LooksSince(h: seq<Fs>, from: nat, looks: Looks) {
    && (forall k :: exists t :: from <= t < |h| && looks.file(k) == h[t])
    && (forall k :: exists t :: from <= t < |h| && looks.glob(k) == h[t])
  }

  /** Nothing recorded changed: a reload that finds the states looked at gets every recorded answer again. */
  lemma UnchangedAgrees(x: Lexer, h: seq<Fs>, run: LoadRun, path: string, looks: Looks)
    requires Fresh(h) && Happened(h, run) && LooksSince(h, run.end, looks) && run.world.lexer == x
    requires var st := WalkFile(run.world, START, path, 0).0; !Changed(looks, st.files, st.globs)
    ensures Agree(run.world, Watching(x, looks), WalkFile(run.world, START, path, 0).0)
  {
    var w, w' := run.world, Watching(x, looks);
    var st := WalkFile(w, START, path, 0).0;
    FileReplays(w, w, START, path, 0);
    forall k | 0 <= k < |st.files|
      ensures w.file(k, st.files[k].path) == w'.file(k, st.files[k].path)
    {
      var d := st.files[k];
      var t :| run.end <= t < |h| && looks.file(k) == h[t];
      assert !FileChanged(looks.file(k), d);
      assert Seen(h, run.start, run.end, d.path, w.file(k, d.path));
      UnchangedAnswer(h, run.start, run.end, t, d.path, w.file(k, d.path));
    }
    forall k | 0 <= k < |st.globs|
      ensures w.glob(k, st.globs[k].pattern) == w'.glob(k, st.globs[k].pattern)
    {
      assert !GlobChanged(looks.glob(k), st.globs[k]);
    }
  }
  lemma WatchingGivesIdentities(x: Lexer, looks: Looks)
    ensures GivesIdentities(Watching(x, looks))
  {
    forall k: nat, p: string
      ensures !Watching(x, looks).file(k, p).StatFailed?
    {
      assert Watching(x, looks).file(k, p) == Observe(looks.file(k).files(p));
    }
  }

  /** A load that failed or succeeded once more, or that records more. */
  lemma ReloadsAs(w: World, w': World, path: string, prev: Option<Loaded>)
    requires var r, r' := WalkFile(w, START, path, 0), WalkFile(w', START, path, 0);
             (r.0.lost ==> !r.1) && AsBefore(r, r', w') && GivesIdentities(w')
    ensures var l := Load(w, path, prev);
            && (Load(w', path, Some(l)) == l <==> !Lost(w, path))
            && (Lost(w, path) ==> |l.files| < |Load(w', path, Some(l)).files|)
  {
  }

  /**
   Nothing recorded changed: a reload that finds the states looked at gives the load in force exactly when that load
   had not lost a file. When it had, the reload records a file that the load in force does not depend on.
   */
  lemma UnchangedReloads(x: Lexer, h: seq<Fs>, run: LoadRun, path: string, looks: Looks)
    requires Fresh(h) && Happened(h, run) && LooksSince(h, run.end, looks) && run.world.lexer == x
    requires var l := Load(run.world, path, run.prev); !Changed(looks, l.files, l.globs)
    ensures var l := Load(run.world, path, run.prev);
            && (Load(Watching(x, looks), path, Some(l)) == l <==> !Lost(run.world, path))
            && (Lost(run.world, path) ==> |l.files| < |Load(Watching(x, looks), path, Some(l)).files|)
  {
    var w, w' := run.world, Watching(x, looks);
    UnchangedAgrees(x, h, run, path, looks);
    FileReplays(w, w', START, path, 0);
    WatchingGivesIdentities(x, looks);
    ReloadsAs(w, w', path, run.prev);
  }

  // ----- every run of refreshes and writes -----

  /** All file-system states so far, the load in force, and how it came about. */
  datatype AclRun = AclRun(h: seq<Fs>, snap: Option<Loaded>, last: Option<LoadRun>)

  datatype Event =
    | Write(fs: Fs)
    | Refresh(looks: Looks, world: World, meanwhile: seq<Fs>)  // the states written while it looks and loads

  function Now(s: AclRun): Fs
    requires s.h != []
  {
    s.h[|s.h| - 1]
  }

  ghost predicate Possible(x: Lexer, s: AclRun, e: Event) {
    && s.h != []
    && match e
       case Write(fs) => Fresh(s.h + [fs])
       case Refresh(looks, world, meanwhile) =>
         && Fresh(s.h + meanwhile) && world.lexer == x
         && LooksSince(s.h + meanwhile, |s.h| - 1, looks)
         && Happened(s.h + meanwhile, LoadRun(world, |s.h| - 1, |s.h + meanwhile| - 1, s.snap))
  }

  /** A refresh that looks like this does not reload. */
  predicate Skips(s: AclRun, looks: Looks) {
    s.snap.Some? && !Changed(looks, s.snap.value.files, s.snap.value.globs)
  }

  function After(s: AclRun, path: string, e: Event): AclRun
    requires s.h != []
  {
    match e
    case Write(fs) => s.(h := s.h + [fs])
    case Refresh(looks, world, meanwhile) =>
      var h := s.h + meanwhile;
      if Skips(s, looks) then s.(h := h)
      else AclRun(h, Some(Load(world, path, s.snap)), Some(LoadRun(world, |s.h| - 1, |h| - 1, s.snap)))
  }

  ghost predicate Follows(x: Lexer, path: string, s: AclRun, events: seq<Event>, end: AclRun)
    decreases |events|
  {
    if events == [] then s == end
    else Possible(x, s, events[0]) && Follows(x, path, After(s, path, events[0]), events[1..], end)
  }

  ghost predicate RunOk(x: Lexer, path: string, s: AclRun) {
    && s.h != [] && Fresh(s.h)
    && (s.snap.Some? ==>
          && s.last.Some? && Happened(s.h, s.last.value) && s.last.value.world.lexer == x
          && s.snap.value == Load(s.last.value.world, path, s.last.value.prev))
  }

  lemma HappenedStays(h: seq<Fs>, more: seq<Fs>, run: LoadRun)
    requires Happened(h, run)
    ensures Happened(h + more, run)
  {
    forall k, p
      ensures Seen(h + more, run.start, run.end, p, run.world.file(k, p))
    {
      SeenStays(h, more, run.start, run.end, p, run.world.file(k, p));
    }
  }

  lemma SeenStays(h: seq<Fs>, more: seq<Fs>, a: nat, b: nat, p: string, answer: FileAnswer)
    requires a <= b < |h| && Seen(h, a, b, p, answer)
    ensures Seen(h + more, a, b, p, answer)
  {
    match answer
    case Opened(id, content, whole) =>
      var t :| a <= t <= b && SeenAt(h, t, b, p, id, content, whole);
      var f := h[t].files(p);
      if !(f.content == content && f.whole == whole) {
        var t' :| t < t' <= b && h[t'].files(p) != f;
        assert (h + more)[t'].files(p) != f;
      }
      assert SeenAt(h + more, t, b, p, id, content, whole);
    case NotOpened(info) =>
      var t1, t2 :| a <= t1 <= t2 <= b && DeniedAt(h[t1].files(p), h[t2].files(p), info);
      assert DeniedAt((h + more)[t1].files(p), (h + more)[t2].files(p), info);
    case StatFailed =>
      var t :| a <= t <= b && h[t].files(p).Readable?;
      assert (h + more)[t].files(p).Readable?;
  }

  lemma WriteKeepsRunOk(x: Lexer, path: string, s: AclRun, more: seq<Fs>)
    requires RunOk(x, path, s) && Fresh(s.h + more)
    ensures RunOk(x, path, s.(h := s.h + more))
  {
    if s.snap.Some? {
      HappenedStays(s.h, more, s.last.value);
    }
  }

  lemma EventKeepsRunOk(x: Lexer, path: string, s: AclRun, e: Event)
    requires RunOk(x, path, s) && Possible(x, s, e)
    ensures RunOk(x, path, After(s, path, e))
  {
    match e
    case Write(fs) => WriteKeepsRunOk(x, path, s, [fs]);
    case Refresh(looks, _, meanwhile) =>
      if Skips(s, looks) {
        WriteKeepsRunOk(x, path, s, meanwhile);
      }
  }

  lemma {:induction false} RunStaysOk(x: Lexer, path: string, s: AclRun, events: seq<Event>, end: AclRun)
    requires RunOk(x, path, s) && Follows(x, path, s, events, end)
    ensures RunOk(x, path, end)
    decreases |events|
  {
    if events != [] {
      EventKeepsRunOk(x, path, s, events[0]);
      RunStaysOk(x, path, After(s, path, events[0]), events[1..], end);
    }
  }

  /**
   Over every run of refreshes and writes, writes during the checks and the loads included: a refresh whose looks find
   nothing changed skips a reload that, finding the states it looked at, would give exactly the load in force, if and
   only if that load had not lost a file.
   */
  lemma SkippedIsExact(x: Lexer, path: string, first: Fs, events: seq<Event>, end: AclRun, looks: Looks)
    requires Follows(x, path, AclRun([first], None, None), events, end)
    requires Skips(end, looks) && (end.last.Some? ==> LooksSince(end.h, end.last.value.end, looks))
    ensures end.last.Some?
    ensures Load(Watching(x, looks), path, end.snap) == end.snap.value <==> !Lost(end.last.value.world, path)
  {
    assert RunOk(x, path, AclRun([first], None, None));
    RunStaysOk(x, path, AclRun([first], None, None), events, end);
    UnchangedReloads(x, end.h, end.last.value, path, looks);
  }

  /**
   Refresh soundness. Over every run of refreshes and writes, whenever the next refresh would be skipped a full reload
   of the present state would give exactly the load in force, its rules, whether good, kept or broken, and its records,
   if and only if that load had not lost a file.
   */
  lemma RefreshIsSound(x: Lexer, path: string, first: Fs, events: seq<Event>, end: AclRun)
    requires Follows(x, path, AclRun([first], None, None), events, end)
    ensures end.h != []
    ensures Skips(end, Always(Now(end))) ==>
              end.last.Some?
              && (Load(Still(x, Now(end)), path, end.snap) == end.snap.value <==> !Lost(end.last.value.world, path))
  {
    assert RunOk(x, path, AclRun([first], None, None));
    RunStaysOk(x, path, AclRun([first], None, None), events, end);
    if Skips(end, Always(Now(end))) {
      assert end.h[|end.h| - 1] == Now(end);
      SkippedIsExact(x, path, first, events, end, Always(Now(end)));
    }
  }

  // ----- a lost file -----

  /** The config opens and its identity cannot be taken; everything else answers as it is. */
  function RootLost(x: Lexer, path: string, fs: Fs): World {
    World(x, (_, p) => if p == path then StatFailed else Observe(fs.files(p)), (_, pattern) => fs.globs(pattern))
  }

  /** It can happen in every state in which the config can be read. */
  lemma LostConfigHappens(x: Lexer, path: string, s: AclRun)
    requires s.h != [] && Fresh(s.h) && Now(s).files(path).Readable?
    ensures Possible(x, s, Refresh(Always(Now(s)), RootLost(x, path, Now(s)), []))
  {
    var h, n, w := s.h + [], |s.h| - 1, RootLost(x, path, Now(s));
    assert h == s.h;
    forall k: nat, p: string
      ensures Seen(h, n, n, p, w.file(k, p))
    {
      var f := h[n].files(p);
      assert f.Readable? ==> SeenAt(h, n, n, p, f.id, f.content, f.whole);
      assert !f.Readable? ==> DeniedAt(f, f, w.file(k, p).info);
    }
  }

  /** With no dependency left nothing can change any more. */
  lemma {:induction false} NoDependencyIsForEver(x: Lexer, path: string, s: AclRun, events: seq<Event>, end: AclRun,
                                                 looks: Looks)
    requires Follows(x, path, s, events, end) && s.snap.Some? && s.snap.value.files == [] && s.snap.value.globs == []
    ensures Skips(end, looks) && end.snap == s.snap
    decreases |events|
  {
    if events != [] {
      assert Skips(s, match events[0] case Write(_) => looks case Refresh(l, _, _) => l);
      NoDependencyIsForEver(x, path, After(s, path, events[0]), events[1..], end, looks);
    }
  }

  /**
   A load that opens the config and cannot take its identity depends on nothing. In every later state, whatever is
   written, every refresh is skipped and the rules stay as they were, forwarding everything if none were good yet; and
   wherever the include tree can be read a reload would succeed.
   */
  lemma LostConfigIsNeverReadAgain(x: Lexer, path: string, s: AclRun, looks: Looks, w: World, meanwhile: seq<Fs>,
                                   events: seq<Event>, end: AclRun)
    requires s.h != [] && !Skips(s, looks) && w.file(0, path).StatFailed?
    requires Follows(x, path, After(s, path, Refresh(looks, w, meanwhile)), events, end)
    ensures end.h != [] && Skips(end, Always(Now(end)))
    ensures end.snap == Some(if s.snap.Some? && !s.snap.value.broken then Loaded([], [], s.snap.value.rules, false)
                             else Loaded([], [], map[], true))
    ensures var flat := FlattenFile(x, Now(end), path, 0);
            WalkFile(Still(x, Now(end)), START, path, 0).1 <==> flat.Some? && flat.value.files <= MAX_FILES
  {
    var after := After(s, path, Refresh(looks, w, meanwhile));
    FollowsKeepsStates(x, path, after, events, end);
    NoDependencyIsForEver(x, path, after, events, end, Always(Now(end)));
    FileMeans(x, Now(end), START, path, 0);
  }

  lemma {:induction false} FollowsKeepsStates(x: Lexer, path: string, s: AclRun, events: seq<Event>, end: AclRun)
    requires Follows(x, path, s, events, end) && s.h != []
    ensures end.h != []
    decreases |events|
  {
    if events != [] {
      FollowsKeepsStates(x, path, After(s, path, events[0]), events[1..], end);
    }
  }

  /**
   The freshness assumption is needed. A file is readable, replaced by one that may not be opened, and put back with
   its old identity: the load in between fails, and no later refresh notices that it would now succeed.
   */
  lemma ReusedIdentityIsMissed(x: Lexer, path: string) returns (h: seq<Fs>, run: LoadRun)
    ensures |h| == 3 && !Fresh(h) && Happened(h[..2], run) && run.world.lexer == x
    ensures var l := Load(run.world, path, run.prev);
            && !Changed(Always(h[2]), l.files, l.globs)
            && l.broken && !Load(Still(x, h[2]), path, Some(l)).broken
  {
    var readable := Fs(_ => Readable(1, "", true), _ => GlobFailed);
    var denied := Fs(_ => Unreadable(2), _ => GlobFailed);
    h := [readable, denied, readable];
    var world := World(x, (_, _) => NotOpened(Some(1)), (_, _) => GlobFailed);
    run := LoadRun(world, 0, 1, None);
    assert !NewAt(h, 0, 2, path);
    forall k, p
      ensures Seen(h[..2], 0, 1, p, world.file(k, p))
    {
      assert DeniedAt(h[..2][0].files(p), h[..2][1].files(p), Some(1));
    }
    var l := Load(world, path, None);
    assert world.file(0, path) == NotOpened(Some(1));
    assert l.files == [FileDep(path, Some(1))] && l.globs == [];
    assert Still(x, h[2]).file(0, path) == Opened(1, "", true);
    assert Lines("") == [];
  }

  // ----- the cache itself -----

  datatype Snapshot = Snapshot(files: seq<FileDep>, globs: seq<GlobDep>, rules: Rules, broken: bool)

  function Abstract(s: Snapshot): Loaded {
    Loaded(s.files, s.globs, s.rules.byPrefix, s.broken)
  }

  method DepsChanged(looks: Looks, files: seq<FileDep>, globs: seq<GlobDep>) returns (changed: bool)
    ensures changed == Changed(looks, files, globs)
  {
    for i := 0 to |files|
      invariant forall k :: 0 <= k < i ==> !FileChanged(looks.file(k), files[k])
    {
      if FileChanged(looks.file(i), files[i]) {
        return true;
      }
    }
    for i := 0 to |globs|
      invariant forall k :: 0 <= k < i ==> !GlobChanged(looks.glob(k), globs[k])
    {
      if GlobChanged(looks.glob(i), globs[i]) {
        return true;
      }
    }
    return false;
  }

  class Acl {
    const path: string
    var snap: Option<Snapshot>

    function State(): Option<Loaded>
      reads this
    {
      if snap.None? then None else Some(Abstract(snap.value))
    }

    /** The rules in force are indexed, so that lookups may trust their lengths. */
    ghost predicate Valid()
      reads this
    {
      snap.Some? && !snap.value.broken ==> Indexed(snap.value.rules)
    }

    /** NewACL loads immediately. */
    constructor (path: string, w: World)
      ensures this.path == path && Valid() && State() == Some(Load(w, path, None))
    {
      this.path := path;
      snap := None;
      new;
      LoadNow(w);
    }

    method LoadNow(w: World)
      requires Valid()
      modifies this`snap
      ensures Valid() && State() == Some(Load(w, path, old(State())))
    {
      var walker := new ConfWalker(w);
      var ok := walker.File(path, 0);
      if !ok {
        if snap.Some? && !snap.value.broken {
          snap := Some(Snapshot(walker.files, walker.globs, snap.value.rules, false));
        } else {
          snap := Some(Snapshot(walker.files, walker.globs, Rules(0, map[], [], []), true));
        }
        return;
      }
      LoadedRowsAreMasked(w, path);
      walker.AllowImplicit();
      var rules := NewRules(walker.rows);
      snap := Some(Snapshot(walker.files, walker.globs, rules, false));
    }

    /** Reloads only when something the rules came from changed; looks are the states `changed` finds. */
    method Refresh(looks: Looks, w: World) returns (changed: bool)
      requires Valid()
      modifies this`snap
      ensures Valid()
      ensures changed <==> !(old(State()).Some? && !Changed(looks, old(State()).value.files, old(State()).value.globs))
      ensures State() == if changed then Some(Load(w, path, old(State()))) else old(State())
    {
      if snap.Some? {
        changed := DepsChanged(looks, snap.value.files, snap.value.globs);
        if !changed {
          return;
        }
      }
      LoadNow(w);
      changed := true;
    }

    /** No valid address, or no good load yet: forward. Otherwise the most specific row decides. */
    method Find(client: Option<Addr>) returns (action: Action)
      requires Valid() && snap.Some?
      ensures action == if client.None? || snap.value.broken then Forward
                        else Scan(snap.value.rules.byPrefix, Unmap(client.value))
    {
      if client.None? || snap.value.broken {
        return Forward;
      }
      action := Lookup(snap.value.rules, Unmap(client.value));
    }
  }

  // ----- every row the walker collects is masked -----

  predicate MaskedWalk(st: Walk) {
    AllMasked(st.rows) && forall p <- st.implied :: IsMasked(p)
  }

  lemma ImpliedAreMasked(rows: map<Prefix, Action>, implied: seq<Prefix>)
    requires AllMasked(rows) && forall p <- implied :: IsMasked(p)
    ensures AllMasked(WithImplied(rows, implied))
  {
    WithImpliedIs(rows, implied);
  }

  lemma LoadedRowsAreMasked(w: World, path: string)
    ensures var st := WalkFile(w, START, path, 0).0; AllMasked(WithImplied(st.rows, st.implied))
  {
    FileRowsAreMasked(w, START, path, 0);
    var st := WalkFile(w, START, path, 0).0;
    ImpliedAreMasked(st.rows, st.implied);
  }

  lemma {:induction false} FileRowsAreMasked(w: World, st: Walk, path: string, depth: nat)
    requires depth <= MAX_DEPTH + 1 && MaskedWalk(st)
    ensures MaskedWalk(WalkFile(w, st, path, depth).0)
    decreases MAX_DEPTH + 1 - depth, 3
  {
    if depth <= MAX_DEPTH && st.openCount + 1 <= MAX_FILES {
      match w.file(|st.files|, path)
      case NotOpened(_) =>
      case StatFailed =>
      case Opened(id, content, whole) =>
        var st2 := st.(openCount := st.openCount + 1, files := st.files + [FileDep(path, Some(id))]);
        LinesRowsAreMasked(w, st2, Lines(content), depth);
    }
  }

  lemma {:induction false} LinesRowsAreMasked(w: World, st: Walk, lines: seq<string>, depth: nat)
    requires depth <= MAX_DEPTH && MaskedWalk(st)
    ensures MaskedWalk(WalkLines(w, st, lines, depth).0)
    decreases MAX_DEPTH + 1 - depth, 2, |lines|
  {
    if lines != [] {
      RowsAreMasked(w.lexer, lines[0]);
      ItemRowsAreMasked(w, st, Classify(w.lexer, lines[0]), depth);
      var r := WalkItem(w, st, Classify(w.lexer, lines[0]), depth);
      if r.1 {
        LinesRowsAreMasked(w, r.0, lines[1..], depth);
      }
    }
  }

  lemma {:induction false} ItemRowsAreMasked(w: World, st: Walk, item: Item, depth: nat)
    requires depth <= MAX_DEPTH && MaskedWalk(st)
    requires (item.Listed? ==> IsMasked(item.row.prefix)) && (item.Implied? ==> IsMasked(item.prefix))
    ensures MaskedWalk(WalkItem(w, st, item, depth).0)
    decreases MAX_DEPTH + 1 - depth, 1, 0
  {
    match item
    case Include(Path(path)) => FileRowsAreMasked(w, st, path, depth + 1);
    case Include(Glob(pattern)) =>
      var answer := w.glob(|st.globs|, pattern);
      if answer.Matches? {
        FilesRowsAreMasked(w, st.(globs := st.globs + [GlobDep(pattern, answer)]), answer.paths, depth + 1);
      }
    case _ =>
  }

  lemma {:induction false} FilesRowsAreMasked(w: World, st: Walk, paths: seq<string>, depth: nat)
    requires depth <= MAX_DEPTH + 1 && MaskedWalk(st)
    ensures MaskedWalk(WalkFiles(w, st, paths, depth).0)
    decreases MAX_DEPTH + 1 - depth, 4, |paths|
  {
    if paths != [] {
      FileRowsAreMasked(w, st, paths[0], depth);
      var r := WalkFile(w, st, paths[0], depth);
      if r.1 {
        FilesRowsAreMasked(w, r.0, paths[1..], depth);
      }
    }
  }
}
