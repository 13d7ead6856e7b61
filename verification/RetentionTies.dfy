/**
 Where versions tie. Two versions spelled differently can have one sort key; every such pair makes retention depend
 on the order of the files, so that the condition of the retention theorems cannot be dropped.
 */
module RetentionTies {
  import opened Common
  import opened Numerals
  import opened PkgVersion
  import opened Ranking
  import opened Retention
  import opened LinePins

  predicate Tied(a: Package, b: Package) {
    SameRank(a, b) && !SameNv(a, b)
  }

  lemma TiedIsUnranked(a: Package, b: Package)
    requires SameRank(a, b)
    ensures !RANKS(a, b) && !RANKS(b, a)
  {
    KeyLessTotal(SortKey(a.version), SortKey(b.version));
    ListLessTotal(Codes(a.name), Codes(b.name));
  }

  lemma SortTied(a: Package, b: Package)
    requires SameRank(a, b)
    ensures SortDescending([a, b], RANKS) == [a, b]
  {
    TiedIsUnranked(a, b);
    SortOne(b);
    assert [a, b][1..] == [b];
    assert Above(a, [b], RANKS) == 0;
  }

  lemma SortOne(b: Package)
    ensures SortDescending([b], RANKS) == [b]
  {
    assert [b][1..] == [];
    var none: seq<Package> := [];
    assert Above(b, none, RANKS) == 0;
    assert Place(b, none, RANKS) == [b];
  }

  lemma SortTiedUnder(a: Package, b: Package, top: Package)
    requires SameRank(a, b) && RANKS(a, top) && RANKS(b, top)
    ensures SortDescending([a, b, top], RANKS) == [top, a, b]
  {
    TiedIsUnranked(a, b);
    SortOne(top);
    assert [a, b, top][1..] == [b, top] && [b, top][1..] == [top];
    var none: seq<Package> := [];
    assert [top][1..] == none && Above(b, none, RANKS) == 0;
    assert Above(b, [top], RANKS) == 1;
    assert Place(b, [top], RANKS) == [top, b];
    assert [top, b][1..] == [b];
    assert Above(a, [b], RANKS) == 0;
    assert Above(a, [top, b], RANKS) == 1;
  }

  /** A build of a further pair that ranks above the tied ones. */
  predicate Later(c: Package, a: Package, b: Package) {
    RANKS(a, c) && !SameNv(a, c) && !SameNv(b, c)
  }

  /**
   For every tied pair and every later build there is a run after which the directory does not hold what pruning the
   full history keeps: the pair is listed in the other order when the later build arrives.
   */
  lemma TiedPairDiverges(a: Package, b: Package, c: Package)
    requires Tied(a, b) && Later(c, a, b)
    ensures IsRun([[], [a], [b, a], [c, b]], [a, b, c], 2)
    ensures !Lists([c, b], Retained([a, b, c], 2))
  {
    SameRankRanks(a, b, c);
    FirstListing(a);
    SecondListing(a, b);
    ThirdListing(a, b, c);
    RunOfThree([a], [b, a], [c, b], a, b, c);
    KeptTwoOfThree(a, b, c);
    assert b in [c, b] && b !in [c, a];
  }

  lemma RunOfThree(l1: seq<Package>, l2: seq<Package>, l3: seq<Package>, a: Package, b: Package, c: Package)
    requires Lists(l1, Retained([] + [a], 2)) && Lists(l2, Retained(l1 + [b], 2)) && Lists(l3, Retained(l2 + [c], 2))
    ensures IsRun([[], l1, l2, l3], [a, b, c], 2)
  {
  }

  lemma FirstListing(a: Package)
    ensures Lists([a], Retained([] + [a], 2))
  {
    KeptOne(a);
    assert [] + [a] == [a];
    ListedAs([a], [a]);
  }

  lemma SecondListing(a: Package, b: Package)
    requires Tied(a, b)
    ensures Lists([b, a], Retained([a] + [b], 2))
  {
    KeptTwo(a, b);
    assert [a] + [b] == [a, b];
    ListedAs([b, a], [a, b]);
  }

  lemma ThirdListing(a: Package, b: Package, c: Package)
    requires Tied(a, b) && Later(c, a, b) && RANKS(b, c)
    ensures Lists([c, b], Retained([b, a] + [c], 2))
  {
    hide SortDescending, Entries, Outranked;
    KeptTwoOfThree(b, a, c);
    assert [b, a] + [c] == [b, a, c];
    ListedAs([c, b], [c, b]);
  }

  lemma ListedAs(files: seq<Package>, kept: seq<Package>)
    requires DistinctNv(files)
    requires files == kept || (|kept| == 2 && files == [kept[1], kept[0]])
    ensures Lists(files, kept)
  {
  }

  lemma KeptOne(a: Package)
    ensures Retained([a], 2) == [a]
  {
    DistinctEntries([a]);
    SortOne(a);
  }

  lemma KeptTwo(a: Package, b: Package)
    requires Tied(a, b)
    ensures Retained([a, b], 2) == [a, b]
  {
    DistinctEntries([a, b]);
    SortTied(a, b);
  }

  lemma KeptTwoOfThree(a: Package, b: Package, top: Package)
    requires Tied(a, b) && Later(top, a, b) && RANKS(b, top)
    ensures Retained([a, b, top], 2) == [top, a]
  {
    DistinctEntries([a, b, top]);
    SortTiedUnder(a, b, top);
  }

  /** An older file of a. */
  function Older(a: Package): Package {
    Package(a.id + 1, a.name, a.version, a.mtime - 1)
  }

  lemma PinsOfThree(o: Package, b: Package, a: Package)
    requires SameLine(o, b) && SameLine(b, a) && RANKS(o, b) && !RANKS(b, a)
    ensures Pins([o, b, a]) == [b]
  {
    var one, two, three := [o], [o, b], [o, b, a];
    assert one[..0] == [] && two[..1] == one && three[..2] == two;
    assert Pins([]) == [];
    assert Pins(one) == [o];
    assert PinOf([o], b) == 0;
    assert Pins(two) == [b];
    assert PinOf([b], a) == 0;
  }

  lemma EntriesOfThree(o: Package, b: Package, a: Package)
    requires SameNv(o, a) && !SameNv(a, b) && o.mtime < a.mtime
    ensures Entries([o, b, a]) == [a, b]
  {
    DistinctEntries([o, b]);
    assert [o, b, a][..2] == [o, b];
    assert EntryOf([o, b], a) == 0;
  }

  lemma OutsideOne(b: Package, a: Package)
    requires a != b
    ensures Outside([b], [a]) == [b]
  {
    assert [b][1..] == [];
  }

  /**
   Every tied pair of one line has a bucket whose window holds the line and which gets a pin of the line
   nonetheless; pruning it again drops the pin.
   */
  lemma TiedLineIsPinnedTwice(a: Package, b: Package)
    requires Tied(a, b) && SameLine(a, b) && HasLine(a)
    ensures Pruned([Older(a), b, a], 1) == Some([a, b]) && Retained([Older(a), b, a], 1) == [a]
    ensures Pruned([a, b], 1) == Some([a])
  {
    OlderRanks(a, b);
    RetainedOfThree(Older(a), b, a);
    PinnedTwice(Older(a), b, a);
    PinnedOnce(a, b);
  }

  lemma PinnedTwice(o: Package, b: Package, a: Package)
    requires Tied(a, b) && SameLine(a, b) && HasLine(a) && SameNv(o, a) && o.mtime < a.mtime && RANKS(o, b)
    ensures Pruned([o, b, a], 1) == Some([a, b])
  {
    RetainedOfThree(o, b, a);
    SortedPinsOfThree(o, b, a);
    OutsideOne(b, a);
    ThreeHaveLines(o, b, a);
    PrunedOf([o, b, a], [a], [b], [b]);
    assert [a] + [b] == [a, b];
  }

  lemma SortedPinsOfThree(o: Package, b: Package, a: Package)
    requires SameRank(a, b) && SameLine(o, b) && SameLine(b, a) && RANKS(o, b)
    ensures SortDescending(Pins([o, b, a]), RANKS) == [b]
  {
    TiedIsUnranked(a, b);
    PinsOfThree(o, b, a);
    SortOne(b);
  }

  lemma ThreeHaveLines(o: Package, b: Package, a: Package)
    requires HasLine(a) && SameLine(o, a) && SameLine(a, b)
    ensures AllHaveLines([o, b, a])
  {
  }

  lemma OlderRanks(a: Package, b: Package)
    requires SameRank(a, b)
    ensures RANKS(Older(a), b)
  {
    KeyLessTotal(SortKey(a.version), SortKey(a.version));
  }

  lemma PrunedOf(bucket: seq<Package>, window: seq<Package>, pins: seq<Package>, outside: seq<Package>)
    requires 1 < |bucket| && AllHaveLines(bucket)
    requires Retained(bucket, 1) == window && SortDescending(Pins(bucket), RANKS) == pins
    requires Outside(pins, window) == outside
    ensures Pruned(bucket, 1) == Some(window + outside)
  {
  }

  lemma PinnedOnce(a: Package, b: Package)
    requires Tied(a, b) && SameLine(a, b) && HasLine(a)
    ensures Pruned([a, b], 1) == Some([a])
  {
    TiedIsUnranked(a, b);
    RetainedOfTwo(a, b);
    PinsOfTwo(a, b);
    SortOne(a);
    OutsideNone(a);
    PrunedOf([a, b], [a], [a], []);
    assert [a] + [] == [a];
  }

  lemma RetainedOfTwo(a: Package, b: Package)
    requires Tied(a, b)
    ensures Retained([a, b], 1) == [a]
  {
    DistinctEntries([a, b]);
    SortTied(a, b);
  }

  lemma RetainedOfThree(o: Package, b: Package, a: Package)
    requires Tied(a, b) && SameNv(o, a) && o.mtime < a.mtime
    ensures Retained([o, b, a], 1) == [a]
  {
    EntriesOfThree(o, b, a);
    SortTied(a, b);
  }

  lemma OutsideNone(a: Package)
    ensures Outside([a], [a]) == []
  {
    assert [a][1..] == [];
  }

  lemma PinsOfTwo(a: Package, b: Package)
    requires SameLine(a, b) && !RANKS(a, b)
    ensures Pins([a, b]) == [a]
  {
    var one, two := [a], [a, b];
    assert one[..0] == [] && two[..1] == one;
    assert Pins([]) == [];
    assert Pins(one) == [a];
    assert PinOf([a], b) == 0;
  }

  lemma SplitBoth(c: char, digit: char, version: string)
    requires (c == '.' || c == '_') && IsDigit(digit) && version == "1" + ([c] + [digit])
    ensures Split(version, SEPARATORS) == ["1", [digit]]
  {
    SplitFirst("1", c, [digit], SEPARATORS);
    SplitLast([digit], SEPARATORS);
  }

  lemma OneDigit(digit: char)
    requires IsDigit(digit)
    ensures IsNumber([digit]) && StageRank([digit]).None? && Number([digit]) == digit as int - 48
  {
    assert [digit][..0] == "";
    assert Lower([digit])[0] == digit;
  }

  lemma KeyOfBoth(c: char, digit: char, version: string)
    requires (c == '.' || c == '_') && IsDigit(digit) && version == "1" + ([c] + [digit])
    ensures SortKey(version) == Key([1, digit as int - 48], RELEASE_RANK, 0)
  {
    hide KeyFrom, Split, StageRank, Number;
    var start := Key([], RELEASE_RANK, 0);
    SplitBoth(c, digit, version);
    OneDigit('1');
    OneDigit(digit);
    KeyPlain("1", [[digit]], start);
    KeyPlain([digit], [], start.(base := start.base + [1]));
    assert ["1"] + [[digit]] == ["1", [digit]] && [[digit]] + [] == [[digit]];
    assert [] + [1] == [1] && [1] + [digit as int - 48] == [1, digit as int - 48];
    NoMoreParts(Key([1, digit as int - 48], RELEASE_RANK, 0));
  }

  lemma NoMoreParts(key: Key)
    ensures KeyFrom([], key) == key
  {
  }

  /** There are such pairs: a dot and an underscore separate alike. And such later builds: the next minor version. */
  lemma TiesExist(name: string)
    ensures var a, b, c := Package(0, name, "1.0", 0), Package(1, name, "1_0", 0), Package(2, name, "1.1", 0);
            Tied(a, b) && SameLine(a, b) && HasLine(a) && Later(c, a, b)
  {
    hide KeyFrom, Split, StageRank, Number;
    SplitBoth('.', '0', "1.0");
    SplitBoth('_', '0', "1_0");
    KeyOfBoth('.', '0', "1.0");
    KeyOfBoth('_', '0', "1_0");
    KeyOfBoth('.', '1', "1.1");
    OneDigit('1');
    OneDigit('0');
    assert "1.0"[1] != "1_0"[1] && "1.0"[2] != "1.1"[2] && "1_0"[2] != "1.1"[2];
    assert [1, 0][1..] == [0] && [1, 1][1..] == [1];
  }
}
