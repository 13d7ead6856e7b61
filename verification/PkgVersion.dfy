/** The package-version sort key (scripts/pfb_pkg.py, `pkg_version_sort_key`). Text is ASCII. */
module PkgVersion {
  import opened Common
  import opened Numerals

  const SEPARATORS := "._,"
  const RELEASE_RANK: nat := 3

  /** (base, stage_rank, stage_num), compared as Python compares nested tuples and lists. */
  datatype Key = Key(base: seq<nat>, rank: nat, num: nat)

  function Lower(s: string): (r: string)
    ensures |r| == |s|
    ensures forall i :: 0 <= i < |s| && IsDigit(s[i]) ==> r[i] == s[i]
  {
    if s == "" then "" else [if 'A' <= s[0] <= 'Z' then (s[0] as int + 32) as char else s[0]] + Lower(s[1..])
  }

  /** A legacy stage keyword, alone in its component. */
  function StageRank(part: string): Option<nat> {
    var p := Lower(part);
    if p == "alpha" then Some(0) else if p == "beta" then Some(1) else if p == "rc" then Some(2) else None
  }

  function LetterRank(c: char): Option<nat> {
    if c == 'a' || c == 'A' then Some(0)
    else if c == 'b' || c == 'B' then Some(1)
    else if c == 'r' || c == 'R' then Some(2)
    else None
  }

  /** A compact prerelease: one stage letter and a number without leading zero. */
  predicate IsCompact(part: string) {
    |part| >= 2 && LetterRank(part[0]).Some? && '1' <= part[1] <= '9' && AllDigits(part[1..])
  }

  function KeyFrom(parts: seq<string>, key: Key): Key
    decreases |parts|
  {
    if parts == [] then key
    else
      var part := parts[0];
      if StageRank(part).Some? then
        if |parts| > 1 && IsNumber(parts[1]) then
          KeyFrom(parts[2..], key.(rank := StageRank(part).value, num := Number(parts[1])))
        else KeyFrom(parts[1..], key.(rank := StageRank(part).value))
      else if IsCompact(part) then
        KeyFrom(parts[1..], key.(rank := LetterRank(part[0]).value, num := Number(part[1..])))
      else
        KeyFrom(parts[1..], key.(base := key.base + [if IsNumber(part) then Number(part) else 0]))
  }

  lemma KeyPlain(part: string, parts: seq<string>, key: Key)
    requires StageRank(part).None? && !IsCompact(part) && IsNumber(part)
    ensures KeyFrom([part] + parts, key) == KeyFrom(parts, key.(base := key.base + [Number(part)]))
  {
    assert ([part] + parts)[1..] == parts;
  }

  lemma KeyCompact(part: string, key: Key)
    requires StageRank(part).None? && IsCompact(part)
    ensures KeyFrom([part], key) == key.(rank := LetterRank(part[0]).value, num := Number(part[1..]))
  {
    assert [part][1..] == [];
  }

  function SortKey(version: string): Key {
    KeyFrom(Split(version, SEPARATORS), Key([], RELEASE_RANK, 0))
  }

  method PkgVersionSortKey(version: string) returns (key: Key)
    ensures key == SortKey(version)
  {
    var parts := Split(version, SEPARATORS);
    var base: seq<nat> := [];
    var stageRank, stageNum := RELEASE_RANK, 0;
    var i := 0;
    while i < |parts|
      invariant i <= |parts|
      invariant KeyFrom(parts[i..], Key(base, stageRank, stageNum)) == SortKey(version)
    {
      var part := parts[i];
      assert parts[i..][1..] == parts[i + 1..];
      if StageRank(part).Some? {
        stageRank := StageRank(part).value;
        if i + 1 < |parts| && IsNumber(parts[i + 1]) {
          assert parts[i..][2..] == parts[i + 2..];
          stageNum := Number(parts[i + 1]);
          i := i + 2;
        } else {
          i := i + 1;
        }
      } else if IsCompact(part) {
        stageRank, stageNum := LetterRank(part[0]).value, Number(part[1..]);
        i := i + 1;
      } else {
        base := base + [if IsNumber(part) then Number(part) else 0];
        i := i + 1;
      }
    }
    key := Key(base, stageRank, stageNum);
  }

  // ----- comparison -----

  /** Python's list order: first difference decides, and a proper prefix is smaller. */
  predicate ListLess(a: seq<nat>, b: seq<nat>) {
    if b == [] then false
    else if a == [] then true
    else a[0] < b[0] || (a[0] == b[0] && ListLess(a[1..], b[1..]))
  }

  predicate KeyLess(a: Key, b: Key) {
    ListLess(a.base, b.base) || (a.base == b.base && (a.rank < b.rank || (a.rank == b.rank && a.num < b.num)))
  }

  lemma {:induction false} ListLessTotal(a: seq<nat>, b: seq<nat>)
    ensures !(ListLess(a, b) && ListLess(b, a)) && !ListLess(a, a)
    ensures a != b ==> ListLess(a, b) || ListLess(b, a)
    decreases |a|
  {
    if a != [] && b != [] {
      ListLessTotal(a[1..], b[1..]);
      assert a == [a[0]] + a[1..] && b == [b[0]] + b[1..];
    }
    if a != [] {
      ListLessTotal(a[1..], a[1..]);
    }
  }

  lemma {:induction false} ListLessTransitive(a: seq<nat>, b: seq<nat>, c: seq<nat>)
    requires ListLess(a, b) && ListLess(b, c)
    ensures ListLess(a, c)
    decreases |a|
  {
    if a != [] && a[0] == b[0] && b[0] == c[0] {
      ListLessTransitive(a[1..], b[1..], c[1..]);
    }
  }

  /** The keys are totally ordered: exactly one of less, equal and greater. */
  lemma KeyLessTotal(a: Key, b: Key)
    ensures !(KeyLess(a, b) && KeyLess(b, a)) && !KeyLess(a, a)
    ensures a != b ==> KeyLess(a, b) || KeyLess(b, a)
  {
    ListLessTotal(a.base, b.base);
  }

  lemma KeyLessTransitive(a: Key, b: Key, c: Key)
    requires KeyLess(a, b) && KeyLess(b, c)
    ensures KeyLess(a, c)
  {
    if ListLess(a.base, b.base) && ListLess(b.base, c.base) {
      ListLessTransitive(a.base, b.base, c.base);
    }
  }
}
