/**
 What the sort key makes of a version text (scripts/pfb_pkg.py, the examples of `pkg_version_sort_key`): numbers
 under any separators, compact and spelled-out stages, and the order that follows.
 */
module PkgTexts {
  import opened Common
  import opened Numerals
  import opened PkgVersion

  // ----- texts put together from components -----

  predicate Component(part: string) {
    forall i :: 0 <= i < |part| ==> part[i] !in "._,"
  }

  predicate Components(parts: seq<string>) {
    parts != [] && forall i :: 0 <= i < |parts| ==> Component(parts[i])
  }

  predicate Separators(seps: string) {
    forall i :: 0 <= i < |seps| ==> seps[i] in "._,"
  }

  /** The components with one separator between each two. */
  function Joined(parts: seq<string>, seps: string): string
    requires |parts| == |seps| + 1
  {
    if seps == "" then parts[0] else parts[0] + ([seps[0]] + Joined(parts[1..], seps[1..]))
  }

  lemma {:induction false} SplitJoined(parts: seq<string>, seps: string)
    requires |parts| == |seps| + 1 && Components(parts) && Separators(seps)
    ensures Split(Joined(parts, seps), SEPARATORS) == parts
    decreases |seps|
  {
    hide Split;
    assert Component(parts[0]);
    if seps == "" {
      SplitLast(parts[0], SEPARATORS);
    } else {
      assert Components(parts[1..]) by {
        assert forall i :: 0 <= i < |parts[1..]| ==> parts[1..][i] == parts[i + 1];
      }
      SplitJoined(parts[1..], seps[1..]);
      SplitFirst(parts[0], seps[0], Joined(parts[1..], seps[1..]), SEPARATORS);
      assert [parts[0]] + parts[1..] == parts;
    }
  }

  predicate AllNumbers(parts: seq<string>) {
    forall i :: 0 <= i < |parts| ==> IsNumber(parts[i])
  }

  function Values(parts: seq<string>): (ns: seq<nat>)
    requires AllNumbers(parts)
    ensures |ns| == |parts| && forall i :: 0 <= i < |ns| ==> ns[i] == Number(parts[i])
  {
    seq(|parts|, i requires 0 <= i < |parts| => Number(parts[i]))
  }

  lemma NumberIsPlain(part: string)
    requires IsNumber(part)
    ensures Component(part) && StageRank(part).None? && !IsCompact(part)
  {
    assert IsDigit(part[0]);
    assert Lower(part)[0] == part[0];
    forall i | 0 <= i < |part|
      ensures part[i] !in "._,"
    {
      assert IsDigit(part[i]);
    }
  }

  lemma ValuesCons(first: string, rest: seq<string>)
    requires IsNumber(first) && AllNumbers(rest)
    ensures AllNumbers([first] + rest) && Values([first] + rest) == [Number(first)] + Values(rest)
  {
    hide Number;
  }

  lemma Grouped(base: seq<nat>, n: nat, ns: seq<nat>)
    ensures base + [n] + ns == base + ([n] + ns)
  {
  }

  lemma {:induction false} NumbersFirst(parts: seq<string>, tail: seq<string>, key: Key)
    requires AllNumbers(parts)
    ensures KeyFrom(parts + tail, key) == KeyFrom(tail, key.(base := key.base + Values(parts)))
    decreases |parts|
  {
    hide KeyFrom, Number, Values;
    if parts == [] {
      assert parts + tail == tail && key.base + Values(parts) == key.base;
    } else {
      var first, rest := parts[0], parts[1..];
      assert parts == [first] + rest && [first] + rest + tail == [first] + (rest + tail);
      NumberIsPlain(first);
      KeyPlain(first, rest + tail, key);
      NumbersFirst(rest, tail, key.(base := key.base + [Number(first)]));
      ValuesCons(first, rest);
      Grouped(key.base, Number(first), Values(rest));
    }
  }

  // ----- numbers -----

  lemma KeyOfJoined(parts: seq<string>, tail: seq<string>, seps: string)
    requires AllNumbers(parts) && |parts + tail| == |seps| + 1 && Separators(seps)
    requires forall i :: 0 <= i < |tail| ==> Component(tail[i])
    ensures SortKey(Joined(parts + tail, seps)) == KeyFrom(tail, Key(Values(parts), 3, 0))
  {
    hide KeyFrom, Split, Number;
    forall i | 0 <= i < |parts|
      ensures Component(parts[i])
    {
      NumberIsPlain(parts[i]);
    }
    SplitJoined(parts + tail, seps);
    NumbersFirst(parts, tail, Key([], RELEASE_RANK, 0));
    assert [] + Values(parts) == Values(parts);
  }

  /** Numbers alone, separated by any of `._,`: the numbers are the base, and the rank is a release's. */
  lemma ReleaseText(parts: seq<string>, seps: string)
    requires AllNumbers(parts) && |parts| == |seps| + 1 && Separators(seps)
    ensures SortKey(Joined(parts, seps)) == Key(Values(parts), 3, 0)
  {
    assert parts + [] == parts;
    KeyOfJoined(parts, [], seps);
  }

  /** Stages in the order of a release: the letter of a compact stage and its spelled-out word. */
  datatype Word = Word(letter: char, text: string, rank: nat)

  const WORDS := [Word('a', "alpha", 0), Word('b', "beta", 1), Word('r', "rc", 2)]

  /** A stage letter of either case and a number without leading zero. */
  lemma CompactText(parts: seq<string>, seps: string, w: Word, letter: char, digits: string)
    requires AllNumbers(parts) && |parts| == |seps| && Separators(seps)
    requires w in WORDS && IsNumber(digits) && digits[0] != '0' && Lower([letter]) == [w.letter]
    ensures SortKey(Joined(parts + [[letter] + digits], seps)) == Key(Values(parts), w.rank, Number(digits))
  {
    hide KeyFrom, Split, Number, IsCompact, LetterRank, StageRank, Component, Lower;
    var part, key := [letter] + digits, Key(Values(parts), 3, 0);
    CompactIs(w, letter, digits);
    KeyOfJoined(parts, [part], seps);
    KeyCompact(part, key);
  }

  lemma CompactIs(w: Word, letter: char, digits: string)
    requires w in WORDS && IsNumber(digits) && digits[0] != '0' && Lower([letter]) == [w.letter]
    ensures var part := [letter] + digits;
            && Component(part) && StageRank(part).None? && IsCompact(part) && LetterRank(letter) == Some(w.rank)
            && part[0] == letter && part[1..] == digits
  {
    var part := [letter] + digits;
    LowerAt([letter], 0);
    assert w.letter in "abr" && Lower([letter])[0] == w.letter;
    NumberIsPlain(digits);
    assert IsDigit(digits[0]);
    assert Lower(part)[1] == part[1];
    forall i | 0 <= i < |part|
      ensures part[i] !in "._,"
    {
      assert i > 0 ==> part[i] == digits[i - 1];
    }
  }

  /** A stage word in any case, with or without a number behind it. */
  lemma SpelledText(parts: seq<string>, seps: string, w: Word, word: string, digits: string)
    requires AllNumbers(parts) && |parts| == |seps| && Separators(seps) && w in WORDS && Lower(word) == w.text
    ensures SortKey(Joined(parts + [word], seps)) == Key(Values(parts), w.rank, 0)
    ensures IsNumber(digits) ==>
              SortKey(Joined(parts + [word, digits], seps + ".")) == Key(Values(parts), w.rank, Number(digits))
  {
    hide Split, Number;
    var key := Key(Values(parts), 3, 0);
    WordIsComponent(word, w);
    KeyOfJoined(parts, [word], seps);
    assert [word][1..] == [];
    if IsNumber(digits) {
      NumberIsPlain(digits);
      assert Separators(seps + ".");
      KeyOfJoined(parts, [word, digits], seps + ".");
      assert [word, digits][2..] == [];
    }
  }

  lemma WordIsComponent(word: string, w: Word)
    requires w in WORDS && Lower(word) == w.text
    ensures Component(word) && StageRank(word) == Some(w.rank)
  {
    forall i | 0 <= i < |word|
      ensures word[i] !in "._,"
    {
      LowerAt(word, i);
    }
  }

  lemma {:induction false} LowerAt(s: string, i: nat)
    requires i < |s|
    ensures Lower(s)[i] == if 'A' <= s[i] <= 'Z' then (s[i] as int + 32) as char else s[i]
    decreases |s|
  {
    if i > 0 {
      LowerAt(s[1..], i - 1);
    }
  }

  /** Any other component counts as 0. */
  lemma OtherText(parts: seq<string>, seps: string, other: string)
    requires AllNumbers(parts) && |parts| == |seps| && Separators(seps) && Component(other)
    requires Lower(other) !in ["alpha", "beta", "rc"] && !IsCompact(other) && !IsNumber(other)
    ensures SortKey(Joined(parts + [other], seps)) == Key(Values(parts) + [0], 3, 0)
  {
    hide Split, Number;
    KeyOfJoined(parts, [other], seps);
    assert [other][1..] == [];
  }

  // ----- the order -----

  /** The lists agree up to i and differ there. */
  predicate DiffersAt(a: seq<nat>, b: seq<nat>, i: nat) {
    i < |a| && i < |b| && a[..i] == b[..i] && a[i] < b[i]
  }

  lemma ListLessHeads(a: seq<nat>, b: seq<nat>, i: nat)
    ensures DiffersAt(a, b, i) && i > 0 ==> a[0] == b[0]
    ensures a != [] && a <= b ==> a[0] == b[0]
  {
    if DiffersAt(a, b, i) && i > 0 {
      assert a[..i][0] == b[..i][0];
    }
  }

  /** Lists compare by their first difference, and a proper prefix is smaller. */
  lemma {:induction false} ListLessIs(a: seq<nat>, b: seq<nat>)
    ensures ListLess(a, b) <==> a < b || exists i: nat :: DiffersAt(a, b, i)
    decreases |a|
  {
    if a != [] && b != [] {
      ListLessHeads(a, b, 0);
      if a[0] == b[0] {
        ListLessIs(a[1..], b[1..]);
        FirstDifference(a, b);
      } else {
        forall i: nat
          ensures DiffersAt(a, b, i) ==> i == 0
        {
          ListLessHeads(a, b, i);
        }
        assert DiffersAt(a, b, 0) <==> a[0] < b[0];
      }
    }
  }

  lemma FirstDifference(a: seq<nat>, b: seq<nat>)
    requires a != [] && b != [] && a[0] == b[0]
    ensures a < b <==> a[1..] < b[1..]
    ensures (exists i: nat :: DiffersAt(a, b, i)) <==> (exists i: nat :: DiffersAt(a[1..], b[1..], i))
  {
    var c, d := a[1..], b[1..];
    assert a == [a[0]] + c && b == [a[0]] + d;
    if i: nat :| DiffersAt(a, b, i) {
      assert c[..i - 1] == a[..i][1..] && d[..i - 1] == b[..i][1..];
      assert DiffersAt(c, d, i - 1);
    }
    if i: nat :| DiffersAt(c, d, i) {
      assert a[..i + 1] == [a[0]] + c[..i] && b[..i + 1] == [a[0]] + d[..i];
      assert DiffersAt(a, b, i + 1);
    }
  }

  /**
   The documented order, for every number list: previews by stage and then by number, all of them below the release,
   and a release below its own extension.
   */
  lemma DocumentedOrder(base: seq<nat>, w: Word, n: nat, x: Word, m: nat, more: nat)
    requires w in WORDS && x in WORDS
    ensures KeyLess(Key(base, w.rank, n), Key(base, x.rank, m)) <==>
              (w.letter == 'a' && x.letter in "br") || (w.letter == 'b' && x.letter == 'r')
              || (w.letter == x.letter && n < m)
    ensures KeyLess(Key(base, w.rank, n), Key(base, 3, 0)) && KeyLess(Key(base, 3, 0), Key(base + [more], w.rank, n))
  {
    ListLessTotal(base, base);
    ListLessIs(base, base + [more]);
    assert base < base + [more];
  }
}
