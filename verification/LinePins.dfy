/**
 Line pins and retention by channel (scripts/build-repo-portable.py, `_line_key`, `_line_pins`,
 `retain_by_channel`): what a rolling window drops, its line pins keep.
 */
module LinePins {
  import opened Common
  import opened Numerals
  import opened PkgVersion
  import opened Ranking
  import opened Retention
  import opened Text

  /** The major.minor line of a version; None where the source refuses it. */
  function LineKey(version: string): Option<string> {
    var parts := Split(version, SEPARATORS);
    if |parts| < 2 || !IsNumber(parts[0]) || !IsNumber(parts[1]) then None
    else Some(parts[0] + "." + parts[1])
  }

  predicate HasLine(p: Package) {
    LineKey(p.version).Some?
  }

  predicate SameLine(p: Package, q: Package) {
    LineKey(p.version) == LineKey(q.version)
  }

  predicate AllHaveLines(ps: seq<Package>) {
    forall i :: 0 <= i < |ps| ==> HasLine(ps[i])
  }

  // ----- what a line is -----

  /** The version starts with these two numbers, kept apart and ended by any of the separators. */
  ghost predicate HasMajorMinor(version: string, major: string, minor: string) {
    IsNumber(major) && IsNumber(minor) && exists sep, rest :: Reads(version, major, sep, minor, rest)
  }

  predicate Reads(version: string, major: string, sep: char, minor: string, rest: string) {
    sep in "._," && (rest == "" || rest[0] in "._,") && version == major + ([sep] + (minor + rest))
  }

  lemma NumberIsFree(s: string)
    requires AllDigits(s)
    ensures forall i :: 0 <= i < |s| ==> s[i] !in SEPARATORS && s[i] != '.'
  {
    forall i | 0 <= i < |s|
      ensures s[i] !in SEPARATORS && s[i] != '.'
    {
      assert IsDigit(s[i]);
    }
  }

  lemma FirstPart(a: string, rest: string)
    requires AllDigits(a) && (rest == "" || rest[0] in SEPARATORS)
    ensures Split(a + rest, SEPARATORS)[0] == a
  {
    NumberIsFree(a);
    if rest == "" {
      SplitLast(a, SEPARATORS);
      assert a + rest == a;
    } else {
      SplitFirst(a, rest[0], rest[1..], SEPARATORS);
      assert rest == [rest[0]] + rest[1..];
    }
  }

  lemma ReadLine(version: string, major: string, sep: char, minor: string, rest: string)
    requires IsNumber(major) && IsNumber(minor) && Reads(version, major, sep, minor, rest)
    ensures LineKey(version) == Some(major + "." + minor)
  {
    hide Split;
    NumberIsFree(major);
    SplitFirst(major, sep, minor + rest, SEPARATORS);
    FirstPart(minor, rest);
  }

  lemma PartReads(s: string) returns (rest: string)
    ensures s == Split(s, SEPARATORS)[0] + rest && (rest == "" || rest[0] in SEPARATORS)
    ensures |Split(s, SEPARATORS)| >= 2 <==> rest != ""
    ensures rest != "" ==> Split(s, SEPARATORS)[1..] == Split(rest[1..], SEPARATORS)
  {
    var i := Find(s, SEPARATORS);
    rest := s[i..];
    assert s == s[..i] + s[i..];
    assert rest != "" ==> rest[1..] == s[i + 1..];
  }

  lemma LineReads(version: string)
    requires LineKey(version).Some?
    ensures exists major, minor :: HasMajorMinor(version, major, minor)
  {
    hide Split;
    var parts := Split(version, SEPARATORS);
    var tail := PartReads(version);
    var rest := PartReads(tail[1..]);
    assert tail == [tail[0]] + tail[1..];
    assert Reads(version, parts[0], tail[0], parts[1], rest);
    assert HasMajorMinor(version, parts[0], parts[1]);
  }

  lemma SameText(a: string, b: string, c: string, d: string)
    requires AllDigits(a) && AllDigits(c) && a + "." + b == c + "." + d
    ensures a == c && b == d
  {
    NumberIsFree(a);
    NumberIsFree(c);
    FindIs(a, "." + b, ".");
    FindIs(c, "." + d, ".");
    assert a + ("." + b) == a + "." + b && c + ("." + d) == c + "." + d;
    assert a == (a + "." + b)[..|a|] && b == (a + "." + b)[|a| + 1..];
    assert c == (c + "." + d)[..|c|] && d == (c + "." + d)[|c| + 1..];
  }

  /**
   A version has a line exactly when it starts with two numbers, and two such versions share their line exactly when
   both numbers are the same text.
   */
  lemma LineIsMajorMinor(v: string, w: string, major: string, minor: string)
    ensures LineKey(v).Some? <==> exists a, b :: HasMajorMinor(v, a, b)
    ensures HasMajorMinor(v, major, minor) ==> (LineKey(w) == LineKey(v) <==> HasMajorMinor(w, major, minor))
  {
    forall a, b | HasMajorMinor(v, a, b)
      ensures LineKey(v) == Some(a + "." + b)
    {
      var sep, rest :| Reads(v, a, sep, b, rest);
      ReadLine(v, a, sep, b, rest);
    }
    if LineKey(v).Some? {
      LineReads(v);
    }
    if HasMajorMinor(v, major, minor) {
      LineOfText(w, major, minor);
    }
  }

  lemma LineOfText(w: string, major: string, minor: string)
    requires IsNumber(major) && IsNumber(minor)
    ensures LineKey(w) == Some(major + "." + minor) <==> HasMajorMinor(w, major, minor)
  {
    if LineKey(w) == Some(major + "." + minor) {
      LineReads(w);
      var a, b :| HasMajorMinor(w, a, b);
      var sep, rest :| Reads(w, a, sep, b, rest);
      ReadLine(w, a, sep, b, rest);
      SameText(a, b, major, minor);
    }
    if HasMajorMinor(w, major, minor) {
      var sep, rest :| Reads(w, major, sep, minor, rest);
      ReadLine(w, major, sep, minor, rest);
    }
  }

  function PinOf(pins: seq<Package>, p: Package): (i: nat)
    ensures i <= |pins| && (i < |pins| ==> SameLine(pins[i], p))
    ensures forall j :: 0 <= j < i ==> !SameLine(pins[j], p)
  {
    if pins == [] || SameLine(pins[0], p) then 0 else 1 + PinOf(pins[1..], p)
  }

  /** Only a strictly higher rank replaces the pin of a line. */
  function AddPin(pins: seq<Package>, p: Package): seq<Package> {
    var i := PinOf(pins, p);
    if i == |pins| then pins + [p]
    else if RANKS(pins[i], p) then pins[i := p]
    else pins
  }

  function Pins(ps: seq<Package>): seq<Package> {
    if ps == [] then [] else AddPin(Pins(ps[..|ps| - 1]), ps[|ps| - 1])
  }

  /** The newest package of every line, newest first; None when a version has no line. */
  function OrderedPins(ps: seq<Package>): Option<seq<Package>> {
    if AllHaveLines(ps) then Some(SortDescending(Pins(ps), RANKS)) else None
  }

  lemma NoPins()
    ensures Pins([]) == []
  {
  }

  lemma PinsExtend(front: seq<Package>, p: Package)
    ensures Pins(front + [p]) == AddPin(Pins(front), p)
  {
    assert (front + [p])[..|front|] == front;
  }

  lemma LinesExtend(bucket: seq<Package>, i: nat)
    requires i < |bucket| && AllHaveLines(bucket[..i])
    ensures HasLine(bucket[i]) ==> AllHaveLines(bucket[..i + 1])
    ensures !HasLine(bucket[i]) ==> !AllHaveLines(bucket)
  {
  }

  method LinePinsOf(bucket: seq<Package>) returns (pins: Option<seq<Package>>)
    ensures pins == OrderedPins(bucket)
  {
    hide Pins, AddPin, SortDescending, HasLine;
    var lines: seq<Package> := [];
    NoPins();
    assert bucket[..0] == [];
    for i := 0 to |bucket|
      invariant AllHaveLines(bucket[..i]) && lines == Pins(bucket[..i])
    {
      var p := bucket[i];
      LinesExtend(bucket, i);
      if !HasLine(p) {
        return None;
      }
      PinsExtend(bucket[..i], p);
      assert bucket[..i + 1] == bucket[..i] + [p];
      lines := NotePin(lines, p);
    }
    assert bucket[..|bucket|] == bucket;
    pins := Some(SortDescending(lines, RANKS));
  }

  /** One round of the loop on the dictionary of lines. */
  method NotePin(lines: seq<Package>, p: Package) returns (after: seq<Package>)
    ensures after == AddPin(lines, p)
  {
    after := lines;
    var at := PinOf(lines, p);
    if at == |lines| {
      after := lines + [p];
    } else if RANKS(lines[at], p) {
      after := lines[at := p];
    }
  }

  /** _prune: no limit, nothing to prune, or the window and the pins outside it. */
  function Pruned(bucket: seq<Package>, keep: nat): Option<seq<Package>> {
    if keep == 0 || keep >= |bucket| then Some(if bucket == [] then [] else Retained(bucket, |bucket|))
    else
      var pins := OrderedPins(bucket);
      if pins.None? then None
      else
        var window := Retained(bucket, keep);
        Some(window + Outside(pins.value, window))
  }

  ghost predicate HasNumbers(version: string) {
    exists major, minor :: HasMajorMinor(version, major, minor)
  }

  lemma NumberedLines(bucket: seq<Package>)
    ensures AllHaveLines(bucket) <==> forall i :: 0 <= i < |bucket| ==> HasNumbers(bucket[i].version)
  {
    hide LineKey, HasMajorMinor;
    forall i | 0 <= i < |bucket|
      ensures HasLine(bucket[i]) <==> HasNumbers(bucket[i].version)
    {
      LineIsMajorMinor(bucket[i].version, "", "", "");
    }
  }

  /**
   Pruning fails exactly when there is something to prune and some version does not start with two numbers. With no
   limit, or one the bucket does not reach, every package stays or gives way to a newer file of its pair.
   */
  lemma PrunesExactly(bucket: seq<Package>, keep: nat, p: Package)
    ensures Pruned(bucket, keep).Some? <==>
              keep == 0 || keep >= |bucket| || forall i :: 0 <= i < |bucket| ==> HasNumbers(bucket[i].version)
    ensures (keep == 0 || keep >= |bucket|) && p in bucket ==> HasEntry(Pruned(bucket, keep).value, p)
  {
    hide HasNumbers, AllHaveLines, Ordered, HasEntry;
    NumberedLines(bucket);
    if (keep == 0 || keep >= |bucket|) && p in bucket {
      AllKept(bucket, keep);
      OrderedMembers(bucket);
      var i :| 0 <= i < |bucket| && bucket[i] == p;
      assert HasEntry(Ordered(bucket), bucket[i]);
    }
  }

  function Outside(pins: seq<Package>, window: seq<Package>): seq<Package> {
    Filter(pins, (p: Package) => p !in window)
  }

  method Prune(bucket: seq<Package>, keep: nat) returns (kept: Option<seq<Package>>)
    ensures kept == Pruned(bucket, keep)
  {
    if keep == 0 || keep >= |bucket| {
      if bucket == [] {
        return Some([]);
      }
      var all := RetainNewest(bucket, |bucket|);
      return Some(all);
    }
    var window := RetainNewest(bucket, keep);
    var pins := LinePinsOf(bucket);
    if pins.None? {
      return None;
    }
    kept := Some(window + Outside(pins.value, window));
  }

  // ----- what a pin is -----

  /** ps[i] is the first of the highest-ranking packages of its line. */
  predicate LeadsLine(ps: seq<Package>, i: nat)
    requires i < |ps|
  {
    && (forall j :: 0 <= j < i && SameLine(ps[j], ps[i]) ==> RANKS(ps[j], ps[i]))
    && (forall j :: i < j < |ps| && SameLine(ps[j], ps[i]) ==> !RANKS(ps[i], ps[j]))
  }

  predicate IsLeader(x: Package, ps: seq<Package>) {
    exists i :: 0 <= i < |ps| && ps[i] == x && LeadsLine(ps, i)
  }

  predicate DistinctLines(pins: seq<Package>) {
    forall i, j :: 0 <= i < j < |pins| ==> !SameLine(pins[i], pins[j])
  }

  predicate HasPin(pins: seq<Package>, p: Package) {
    exists i :: 0 <= i < |pins| && SameLine(pins[i], p)
  }

  predicate AllLead(pins: seq<Package>, ps: seq<Package>) {
    forall i :: 0 <= i < |pins| ==> IsLeader(pins[i], ps)
  }

  predicate AllPinned(pins: seq<Package>, ps: seq<Package>) {
    forall i :: 0 <= i < |ps| ==> HasPin(pins, ps[i])
  }

  lemma LeaderStays(front: seq<Package>, p: Package, x: Package)
    requires IsLeader(x, front) && (SameLine(p, x) ==> !RANKS(x, p))
    ensures IsLeader(x, front + [p])
  {
    var i :| 0 <= i < |front| && front[i] == x && LeadsLine(front, i);
    assert LeadsLine(front + [p], i);
  }

  /** A package above the pin of its line, or of a line without pin, leads it. */
  lemma NewLeader(front: seq<Package>, pins: seq<Package>, p: Package)
    requires Strict(RANKS) && AllLead(pins, front) && AllPinned(pins, front) && DistinctLines(pins)
    requires PinOf(pins, p) < |pins| ==> RANKS(pins[PinOf(pins, p)], p)
    ensures IsLeader(p, front + [p])
  {
    var all := front + [p];
    forall j | 0 <= j < |front| && SameLine(front[j], p)
      ensures RANKS(front[j], p)
    {
      assert HasPin(pins, front[j]);
      var k := PinOf(pins, p);
      LeaderIsTop(front, pins[k], j);
      OutrankedOrEqual(front[j], pins[k], p);
    }
    assert LeadsLine(all, |front|);
  }

  lemma LeaderIsTop(ps: seq<Package>, x: Package, j: nat)
    requires Strict(RANKS) && IsLeader(x, ps) && j < |ps| && SameLine(ps[j], x)
    ensures !RANKS(x, ps[j])
  {
    hide LineKey;
    var i :| 0 <= i < |ps| && ps[i] == x && LeadsLine(ps, i);
    if j < i {
      assert RANKS(ps[j], ps[i]);
    }
  }

  lemma OutrankedOrEqual(a: Package, b: Package, c: Package)
    requires !RANKS(b, a) && RANKS(b, c)
    ensures RANKS(a, c)
  {
    RanksAreTotal(a, b);
    OutrankedIsStrict(a, b, c);
  }

  lemma AddPinLeads(front: seq<Package>, pins: seq<Package>, p: Package)
    requires Strict(RANKS) && AllLead(pins, front) && AllPinned(pins, front) && DistinctLines(pins)
    ensures AllLead(AddPin(pins, p), front + [p])
  {
    hide IsLeader, LineKey;
    var k, r := PinOf(pins, p), AddPin(pins, p);
    forall i | 0 <= i < |r|
      ensures IsLeader(r[i], front + [p])
    {
      if i == k && (k == |pins| || RANKS(pins[k], p)) {
        NewLeader(front, pins, p);
      } else {
        LeaderStays(front, p, pins[i]);
      }
    }
  }

  lemma AddPinPins(front: seq<Package>, pins: seq<Package>, p: Package)
    requires AllPinned(pins, front) && DistinctLines(pins)
    ensures AllPinned(AddPin(pins, p), front + [p]) && DistinctLines(AddPin(pins, p))
  {
    hide LineKey;
    var r, all := AddPin(pins, p), front + [p];
    forall i | 0 <= i < |all|
      ensures HasPin(r, all[i])
    {
      if i < |front| {
        assert HasPin(pins, front[i]);
        var j :| 0 <= j < |pins| && SameLine(pins[j], front[i]);
        assert SameLine(r[j], all[i]);
      } else {
        assert SameLine(r[PinOf(pins, p)], p);
      }
    }
  }

  /** The pins are leaders of their lines, one for every line. */
  predicate PinsAre(pins: seq<Package>, ps: seq<Package>) {
    AllLead(pins, ps) && AllPinned(pins, ps) && DistinctLines(pins)
  }

  lemma PinsStep(ps: seq<Package>, pins: seq<Package>)
    requires ps != [] && PinsAre(pins, ps[..|ps| - 1])
    ensures PinsAre(AddPin(pins, ps[|ps| - 1]), ps)
  {
    var front, p := ps[..|ps| - 1], ps[|ps| - 1];
    assert ps == front + [p];
    RanksAreStrict();
    AddPinLeads(front, pins, p);
    AddPinPins(front, pins, p);
  }

  lemma {:induction false} PinsLead(ps: seq<Package>)
    ensures PinsAre(Pins(ps), ps)
  {
    if ps != [] {
      PinsLead(ps[..|ps| - 1]);
      PinsStep(ps, Pins(ps[..|ps| - 1]));
    }
  }

  // ----- pins are entries -----

  /** ps[i] is the first of the newest files of its pair. */
  predicate LeadsPair(ps: seq<Package>, i: nat)
    requires i < |ps|
  {
    && (forall j :: 0 <= j < i && SameNv(ps[j], ps[i]) ==> ps[j].mtime < ps[i].mtime)
    && (forall j :: i < j < |ps| && SameNv(ps[j], ps[i]) ==> ps[j].mtime <= ps[i].mtime)
  }

  lemma {:induction false} PairLeaderIsEntry(ps: seq<Package>, i: nat)
    requires i < |ps| && LeadsPair(ps, i)
    ensures ps[i] in Entries(ps)
    decreases |ps|
  {
    var front, p := ps[..|ps| - 1], ps[|ps| - 1];
    EntriesAreDistinct(front);
    AddEntryMembers(Entries(front), p, ps[i]);
    if i < |front| {
      assert LeadsPair(front, i);
      PairLeaderIsEntry(front, i);
    } else {
      EntriesSuperseded(front, Entries(front), p);
    }
  }

  lemma EntriesSuperseded(front: seq<Package>, es: seq<Package>, p: Package)
    requires Within(es, front) && forall j :: 0 <= j < |front| && SameNv(front[j], p) ==> front[j].mtime < p.mtime
    ensures Supersedes(es, p)
  {
    forall i | 0 <= i < |es| && SameNv(es[i], p)
      ensures es[i].mtime < p.mtime
    {
      assert es[i] in front;
      var j :| 0 <= j < |front| && front[j] == es[i];
    }
  }

  lemma SameNvRanks(p: Package, q: Package)
    requires SameNv(p, q)
    ensures RANKS(p, q) <==> p.mtime < q.mtime
    ensures SameLine(p, q)
  {
    OutrankedIsStrict(p, p, p);
    KeyLessTotal(SortKey(p.version), SortKey(p.version));
    ListLessTotal(Codes(p.name), Codes(p.name));
  }

  lemma LeaderIsEntry(ps: seq<Package>, x: Package)
    requires IsLeader(x, ps)
    ensures x in Entries(ps)
  {
    var i :| 0 <= i < |ps| && ps[i] == x && LeadsLine(ps, i);
    forall j | 0 <= j < |ps| && SameNv(ps[j], ps[i])
      ensures j < i ==> ps[j].mtime < ps[i].mtime
      ensures j > i ==> ps[j].mtime <= ps[i].mtime
    {
      SameNvRanks(ps[j], ps[i]);
      SameNvRanks(ps[i], ps[j]);
    }
    PairLeaderIsEntry(ps, i);
  }

  // ----- what pruning keeps -----

  /** No two packages of one line tie: the condition of the pin theorems. */
  predicate NoLineTies(ps: seq<Package>) {
    forall p, q :: p in ps && q in ps && SameRank(p, q) && SameLine(p, q) ==> SameNv(p, q)
  }

  lemma DistinctLinesAreDistinct(pins: seq<Package>)
    requires DistinctLines(pins)
    ensures DistinctNv(pins)
  {
  }

  /** The sorted pins: newest first, one for each line. */
  lemma SortedPins(ps: seq<Package>)
    ensures var r := SortDescending(Pins(ps), RANKS);
            Weak(RANKS) && Falling(r, RANKS) && SameMembers(r, Pins(ps)) && DistinctNv(r)
  {
    RanksAreWeak();
    PinsLead(ps);
    DistinctLinesAreDistinct(Pins(ps));
    SortDistinct(Pins(ps));
    SortFalls(Pins(ps), RANKS);
    SortMembers(Pins(ps), RANKS);
  }

  /** The package leads its line in the bucket, and no package of the window is of that line. */
  predicate IsLonePin(x: Package, bucket: seq<Package>, window: seq<Package>) {
    IsLeader(x, bucket) && !HasPin(window, x)
  }

  lemma FallsBefore(os: seq<Package>, k: nat, i: nat)
    requires Falling(os, RANKS) && k < |os| && i < |os| && RANKS(os[k], os[i])
    ensures i < k
  {
    RanksAreStrict();
  }

  /** A leader is in the window exactly when its line is. */
  lemma LeaderInWindow(bucket: seq<Package>, os: seq<Package>, keep: nat, x: Package)
    requires NoLineTies(bucket) && Falling(os, RANKS) && DistinctNv(os) && Within(os, bucket)
    requires x in os && IsLeader(x, bucket)
    ensures x in Take(os, keep) <==> HasPin(Take(os, keep), x)
  {
    var window := Take(os, keep);
    if HasPin(window, x) {
      var i :| 0 <= i < |window| && SameLine(window[i], x);
      LeaderNotBelow(bucket, os, x, i);
      var k :| 0 <= k <= i && os[k] == x;
      assert window[k] == x;
    }
    if x in window {
      var i :| 0 <= i < |window| && window[i] == x;
    }
  }

  /** No package of its line comes before a leader. */
  lemma LeaderNotBelow(bucket: seq<Package>, os: seq<Package>, x: Package, i: nat)
    requires NoLineTies(bucket) && Falling(os, RANKS) && DistinctNv(os) && Within(os, bucket)
    requires x in os && IsLeader(x, bucket) && i < |os| && SameLine(os[i], x)
    ensures exists k :: 0 <= k <= i && os[k] == x
  {
    hide LineKey, Outranked;
    RanksAreStrict();
    assert os[i] in bucket;
    var j :| 0 <= j < |bucket| && bucket[j] == os[i];
    LeaderIsTop(bucket, x, j);
    var k :| 0 <= k < |os| && os[k] == x;
    assert x in bucket;
    RanksAreTotal(os[i], x);
    if RANKS(os[i], x) {
      FallsBefore(os, i, k);
    } else {
      assert SameNv(os[i], os[k]);
    }
  }

  /**
   r is the window, then exactly the leaders of the lines without a package in the window, each once, newest first.
   */
  ghost predicate IsWindowAndPins(bucket: seq<Package>, window: seq<Package>, r: seq<Package>) {
    && |window| <= |r| && r[..|window|] == window
    && Falling(r[|window|..], RANKS) && DistinctNv(r[|window|..])
    && forall x :: x in r[|window|..] <==> IsLonePin(x, bucket, window)
  }

  lemma PrunedIsWindowAndPins(bucket: seq<Package>, keep: nat)
    requires NoLineTies(bucket) && 0 < keep < |bucket| && AllHaveLines(bucket)
    ensures Pruned(bucket, keep).Some?
    ensures IsWindowAndPins(bucket, Retained(bucket, keep), Pruned(bucket, keep).value)
    ensures NoTies(bucket) ==> Descending(Pruned(bucket, keep).value[|Retained(bucket, keep)|..], RANKS)
  {
    hide Pins, SortDescending, Retained, Outranked, IsLonePin, AllLead, AllPinned;
    OutsideShape(bucket, keep);
    var pins, window := SortDescending(Pins(bucket), RANKS), Retained(bucket, keep);
    var r := Pruned(bucket, keep).value;
    assert r[|window|..] == Outside(pins, window);
    PinsLead(bucket);
    SortedPins(bucket);
    forall x
      ensures x in Outside(pins, window) <==> IsLonePin(x, bucket, window)
    {
      OutsideIsLone(bucket, keep, pins, x);
    }
    if NoTies(bucket) {
      FallingDescends(bucket, Outside(pins, window));
    }
  }

  lemma {:induction false} FilterDistinct(s: seq<Package>, keep: Package -> bool)
    requires DistinctNv(s)
    ensures DistinctNv(Filter(s, keep))
  {
    if s != [] {
      var rest := s[1..];
      assert forall i :: 0 <= i < |rest| ==> rest[i] == s[i + 1];
      FilterDistinct(rest, keep);
      FilterMembers(rest, keep);
      forall j | 0 <= j < |Filter(rest, keep)|
        ensures !SameNv(s[0], Filter(rest, keep)[j])
      {
        assert Filter(rest, keep)[j] in rest;
      }
    }
  }

  /** The pins behind the window: newest first, each once, of the bucket. */
  lemma OutsideShape(bucket: seq<Package>, keep: nat)
    ensures var tail := Outside(SortDescending(Pins(bucket), RANKS), Retained(bucket, keep));
            Falling(tail, RANKS) && DistinctNv(tail) && Within(tail, bucket)
  {
    var pins, window := SortDescending(Pins(bucket), RANKS), Retained(bucket, keep);
    SortedPins(bucket);
    PinsLead(bucket);
    FilterFalls(pins, (p: Package) => p !in window, RANKS);
    FilterDistinct(pins, (p: Package) => p !in window);
    FilterMembers(pins, (p: Package) => p !in window);
    var tail := Outside(pins, window);
    forall i | 0 <= i < |tail|
      ensures tail[i] in bucket
    {
      assert tail[i] in pins && tail[i] in Pins(bucket);
      PinIsMember(Pins(bucket), bucket, tail[i]);
    }
  }

  lemma PinIsMember(pins: seq<Package>, ps: seq<Package>, x: Package)
    requires AllLead(pins, ps) && x in pins
    ensures IsLeader(x, ps) && x in ps
  {
    var k :| 0 <= k < |pins| && pins[k] == x;
    assert IsLeader(pins[k], ps);
  }

  lemma FallingDescends(ps: seq<Package>, s: seq<Package>)
    requires NoTies(ps) && Within(s, ps) && DistinctNv(s) && Falling(s, RANKS)
    ensures Descending(s, RANKS)
  {
    forall i, j | 0 <= i < j < |s|
      ensures RANKS(s[j], s[i])
    {
      RanksAreTotal(s[i], s[j]);
    }
  }

  lemma OutsideIsLone(bucket: seq<Package>, keep: nat, pins: seq<Package>, x: Package)
    requires NoLineTies(bucket) && SameMembers(pins, Pins(bucket)) && PinsAre(Pins(bucket), bucket)
    ensures x in Outside(pins, Retained(bucket, keep)) <==> IsLonePin(x, bucket, Retained(bucket, keep))
  {
    hide Pins, IsLeader, HasPin, AllPinned;
    FilterMembers(pins, (p: Package) => p !in Retained(bucket, keep));
    OrderedFalls(bucket);
    OrderedMembers(bucket);
    if x in Pins(bucket) {
      PinIsMember(Pins(bucket), bucket, x);
    }
    if IsLeader(x, bucket) {
      LeaderIsPin(bucket, Pins(bucket), x);
      LeaderIsEntry(bucket, x);
      LeaderInWindow(bucket, Ordered(bucket), keep, x);
    }
  }

  /** A line has one leader. */
  lemma OneLeader(ps: seq<Package>, i: nat, j: nat)
    requires i < |ps| && j < |ps| && LeadsLine(ps, i) && LeadsLine(ps, j) && SameLine(ps[i], ps[j])
    ensures i == j
  {
  }

  lemma LeaderIsPin(ps: seq<Package>, pins: seq<Package>, x: Package)
    requires AllLead(pins, ps) && AllPinned(pins, ps) && IsLeader(x, ps)
    ensures x in pins
  {
    hide LeadsLine, LineKey;
    var i :| 0 <= i < |ps| && ps[i] == x && LeadsLine(ps, i);
    assert HasPin(pins, ps[i]);
    var k :| 0 <= k < |pins| && SameLine(pins[k], x);
    assert IsLeader(pins[k], ps);
    SameLeader(ps, i, pins[k]);
  }

  lemma SameLeader(ps: seq<Package>, i: nat, y: Package)
    requires i < |ps| && LeadsLine(ps, i) && IsLeader(y, ps) && SameLine(y, ps[i])
    ensures ps[i] == y
  {
    var j :| 0 <= j < |ps| && ps[j] == y && LeadsLine(ps, j);
    OneLeader(ps, i, j);
  }

  lemma PinInParts(r: seq<Package>, n: nat, x: Package, p: Package)
    requires n <= |r| && SameLine(x, p) && (HasPin(r[..n], x) || x in r[n..])
    ensures HasPin(r, p)
  {
    if HasPin(r[..n], x) {
      var j :| 0 <= j < |r[..n]| && SameLine(r[..n][j], x);
      assert SameLine(r[j], p);
    } else {
      var j :| 0 <= j < |r[n..]| && r[n..][j] == x;
      assert SameLine(r[n + j], p);
    }
  }

  /** No line is lost, whatever ties: every kept bucket has a package of the line of every package it had. */
  lemma EveryLineKept(bucket: seq<Package>, keep: nat, p: Package)
    requires Pruned(bucket, keep).Some? && p in bucket
    ensures HasPin(Pruned(bucket, keep).value, p)
  {
    hide Ordered, SortDescending, Pins, Outranked, LineKey;
    if keep == 0 || keep >= |bucket| {
      AllKept(bucket, keep);
      OrderedMembers(bucket);
      CoveredLine(Ordered(bucket), bucket, p);
    } else {
      var pins, window := SortDescending(Pins(bucket), RANKS), Retained(bucket, keep);
      var x := LeaderOf(bucket, p);
      SortedPins(bucket);
      FilterMembers(pins, (q: Package) => q !in window);
      var r := Pruned(bucket, keep).value;
      assert r[..|window|] == window && r[|window|..] == Outside(pins, window);
      MemberIsPin(window, x);
      PinInParts(r, |window|, x, p);
    }
  }

  /** So whatever major and minor number a bucket has, the pruned bucket has too. */
  lemma EveryMajorMinorKept(bucket: seq<Package>, keep: nat, p: Package, major: string, minor: string)
    requires Pruned(bucket, keep).Some? && p in bucket && HasMajorMinor(p.version, major, minor)
    ensures exists q :: q in Pruned(bucket, keep).value && HasMajorMinor(q.version, major, minor)
  {
    hide Pruned, LineKey, HasMajorMinor;
    var kept := Pruned(bucket, keep).value;
    EveryLineKept(bucket, keep, p);
    var i :| 0 <= i < |kept| && SameLine(kept[i], p);
    LineIsMajorMinor(p.version, kept[i].version, major, minor);
    assert kept[i] in kept;
  }

  lemma MemberIsPin(window: seq<Package>, x: Package)
    ensures x in window ==> HasPin(window, x)
  {
    if x in window {
      var i :| 0 <= i < |window| && window[i] == x;
      assert SameLine(window[i], x);
    }
  }

  lemma {:induction false} EntriesBound(ps: seq<Package>)
    ensures |Entries(ps)| <= |ps|
  {
    if ps != [] {
      EntriesBound(ps[..|ps| - 1]);
    }
  }

  lemma AllKept(bucket: seq<Package>, keep: nat)
    requires keep == 0 || keep >= |bucket|
    ensures Pruned(bucket, keep) == Some(Ordered(bucket)) && |Ordered(bucket)| <= |bucket|
  {
    EntriesBound(bucket);
    assert Take(Ordered(bucket), |bucket|) == Ordered(bucket);
  }

  lemma CoveredLine(os: seq<Package>, ps: seq<Package>, p: Package)
    requires Covers(os, ps) && p in ps
    ensures HasPin(os, p)
  {
    hide LineKey;
    var i :| 0 <= i < |ps| && ps[i] == p;
    assert HasEntry(os, ps[i]);
    var j :| 0 <= j < |os| && SameNv(os[j], p);
    assert SameLine(os[j], p);
  }

  lemma LeaderOf(ps: seq<Package>, p: Package) returns (x: Package)
    requires p in ps
    ensures IsLeader(x, ps) && SameLine(x, p) && x in Pins(ps)
  {
    hide LineKey, LeadsLine;
    PinsLead(ps);
    PinnedAt(Pins(ps), ps, p);
    var i :| 0 <= i < |Pins(ps)| && SameLine(Pins(ps)[i], p);
    x := Pins(ps)[i];
  }

  lemma PinnedAt(pins: seq<Package>, ps: seq<Package>, p: Package)
    requires AllPinned(pins, ps) && p in ps
    ensures HasPin(pins, p)
  {
    var i :| 0 <= i < |ps| && ps[i] == p;
    assert HasPin(pins, ps[i]);
  }
}
