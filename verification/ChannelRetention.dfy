/**
 Pruning a bucket again changes nothing, and retention over all channels (scripts/build-repo-portable.py,
 `retain_by_channel`).
 */
module ChannelRetention {
  import opened Common
  import opened LinePins
  import opened Ranking
  import opened Retention

  // ----- pruning again -----

  lemma CutTail(os: seq<Package>, keep: nat, x: Package) returns (k: nat)
    requires x in os && x !in Take(os, keep)
    ensures keep <= k < |os| && os[k] == x
  {
    k :| 0 <= k < |os| && os[k] == x;
    InTake(os, keep, k);
  }

  lemma InTake(os: seq<Package>, keep: nat, k: nat)
    ensures k < |os| && k < keep ==> os[k] in Take(os, keep)
  {
    if k < |os| && k < keep {
      assert Take(os, keep)[k] == os[k];
    }
  }

  /** A window and a tail cut from the same order. */
  lemma WindowAndTail(os: seq<Package>, keep: nat, tail: seq<Package>)
    requires Falling(os, RANKS) && DistinctNv(os) && Falling(tail, RANKS) && DistinctNv(tail)
    requires forall j :: 0 <= j < |tail| ==> tail[j] in os && tail[j] !in Take(os, keep)
    ensures Falling(Take(os, keep) + tail, RANKS) && DistinctNv(Take(os, keep) + tail)
    ensures tail != [] ==> |Take(os, keep)| == keep
  {
    forall j | 0 <= j < |tail|
      ensures keep < |os|
      ensures forall i :: 0 <= i < keep ==> !RANKS(os[i], tail[j]) && !SameNv(os[i], tail[j])
    {
      var k := CutTail(os, keep, tail[j]);
    }
    assert tail != [] ==> tail[0] in os;
  }

  /** What pruning keeps of a bucket over the limit, ties or not. */
  function Kept(bucket: seq<Package>, keep: nat): seq<Package> {
    Retained(bucket, keep) + Tail(bucket, keep)
  }

  /** The pins outside the window. */
  function Tail(bucket: seq<Package>, keep: nat): seq<Package> {
    Outside(SortDescending(Pins(bucket), RANKS), Retained(bucket, keep))
  }

  lemma TailMember(bucket: seq<Package>, keep: nat, x: Package)
    requires x in Tail(bucket, keep)
    ensures x in Pins(bucket) && IsLeader(x, bucket) && x in Ordered(bucket) && x !in Retained(bucket, keep)
  {
    var pins, window := SortDescending(Pins(bucket), RANKS), Retained(bucket, keep);
    FilterMembers(pins, (p: Package) => p !in window);
    SortedPins(bucket);
    PinsLead(bucket);
    PinIsMember(Pins(bucket), bucket, x);
    LeaderIsEntry(bucket, x);
    OrderedFalls(bucket);
  }

  /** The kept packages fall, one for each pair, and with pins there the window is full. */
  lemma KeptShape(bucket: seq<Package>, keep: nat)
    ensures var r := Kept(bucket, keep);
            Falling(r, RANKS) && DistinctNv(r) && Within(r, bucket)
    ensures |Kept(bucket, keep)| > |Retained(bucket, keep)| ==> |Retained(bucket, keep)| == keep
  {
    hide Tail, Ordered, Outranked;
    var tail := Tail(bucket, keep);
    OrderedFalls(bucket);
    OrderedMembers(bucket);
    TailShape(bucket, keep);
    forall j | 0 <= j < |tail|
      ensures tail[j] in Ordered(bucket) && tail[j] !in Retained(bucket, keep)
    {
      TailMember(bucket, keep, tail[j]);
    }
    WindowAndTail(Ordered(bucket), keep, tail);
  }

  lemma TailShape(bucket: seq<Package>, keep: nat)
    ensures Falling(Tail(bucket, keep), RANKS) && DistinctNv(Tail(bucket, keep)) && Within(Tail(bucket, keep), bucket)
  {
    OutsideShape(bucket, keep);
  }

  /** A falling list of distinct pairs is its own order. */
  lemma OrderedIsItself(r: seq<Package>)
    requires Falling(r, RANKS) && DistinctNv(r)
    ensures Ordered(r) == r
  {
    DistinctEntries(r);
    SortOfFalling(r, RANKS);
  }

  lemma LinesWithin(r: seq<Package>, ps: seq<Package>)
    requires Within(r, ps) && AllHaveLines(ps)
    ensures AllHaveLines(r)
  {
    forall i | 0 <= i < |r|
      ensures HasLine(r[i])
    {
      var k :| 0 <= k < |ps| && ps[k] == r[i];
    }
  }

  lemma {:induction false} PinsAreMembers(ps: seq<Package>, x: Package)
    requires x in Pins(ps)
    ensures x in ps
  {
    PinsLead(ps);
    PinIsMember(Pins(ps), ps, x);
  }

  /** Packages of new lines, one each, are their own pins. */
  lemma {:induction false} PinsOfNewLines(window: seq<Package>, tail: seq<Package>)
    requires DistinctLines(tail) && forall j :: 0 <= j < |tail| ==> !HasPin(window, tail[j])
    ensures Pins(window + tail) == Pins(window) + tail
    decreases |tail|
  {
    hide Pins, AddPin, HasPin, LineKey;
    if tail == [] {
      assert window + tail == window && Pins(window) + tail == Pins(window);
    } else {
      var front, p := tail[..|tail| - 1], tail[|tail| - 1];
      PinsOfNewLines(window, front);
      assert window + tail == (window + front) + [p];
      PinsExtend(window + front, p);
      NewLine(window, front, p);
      assert Pins(window) + tail == (Pins(window) + front) + [p];
    }
  }

  lemma NewLine(window: seq<Package>, front: seq<Package>, p: Package)
    requires !HasPin(window, p) && forall i :: 0 <= i < |front| ==> !SameLine(front[i], p)
    ensures AddPin(Pins(window) + front, p) == Pins(window) + front + [p]
  {
    hide LineKey, Pins;
    var pins := Pins(window) + front;
    forall i | 0 <= i < |pins|
      ensures !SameLine(pins[i], p)
    {
      if i < |Pins(window)| {
        NoPinOfLine(window, p, pins[i]);
      } else {
        assert pins[i] == front[i - |Pins(window)|];
      }
    }
  }

  lemma NoPinOfLine(window: seq<Package>, p: Package, x: Package)
    requires !HasPin(window, p) && x in Pins(window)
    ensures !SameLine(x, p)
  {
    PinsAreMembers(window, x);
    var k :| 0 <= k < |window| && window[k] == x;
    assert !SameLine(window[k], p);
  }

  /** With no ties within a line, the pins outside the window are of lines the window does not have. */
  lemma TailIsNew(bucket: seq<Package>, keep: nat)
    requires NoLineTies(bucket)
    ensures forall j :: 0 <= j < |Tail(bucket, keep)| ==> !HasPin(Retained(bucket, keep), Tail(bucket, keep)[j])
    ensures DistinctLines(Tail(bucket, keep))
  {
    hide Tail, Outranked, IsLeader, HasPin, Pins, Ordered;
    var tail, os := Tail(bucket, keep), Ordered(bucket);
    OrderedFalls(bucket);
    OrderedMembers(bucket);
    TailShape(bucket, keep);
    PinsLead(bucket);
    forall j | 0 <= j < |tail|
      ensures !HasPin(Retained(bucket, keep), tail[j])
      ensures tail[j] in Pins(bucket)
    {
      TailMember(bucket, keep, tail[j]);
      LeaderInWindow(bucket, os, keep, tail[j]);
    }
    DistinctLinesWithin(tail, Pins(bucket));
  }

  lemma DistinctLinesWithin(tail: seq<Package>, pins: seq<Package>)
    requires DistinctLines(pins) && Within(tail, pins) && DistinctNv(tail)
    ensures DistinctLines(tail)
  {
    forall i, j | 0 <= i < j < |tail|
      ensures !SameLine(tail[i], tail[j])
    {
      var k :| 0 <= k < |pins| && pins[k] == tail[i];
      var l :| 0 <= l < |pins| && pins[l] == tail[j];
      assert !SameNv(tail[i], tail[j]);
    }
  }

  /** The pins of what was kept, outside the window, are the same pins in the same order. */
  lemma TailAgain(window: seq<Package>, tail: seq<Package>)
    requires DistinctLines(tail) && Falling(tail, RANKS)
    requires forall j :: 0 <= j < |tail| ==> !HasPin(window, tail[j])
    ensures Outside(SortDescending(Pins(window + tail), RANKS), window) == tail
  {
    hide LineKey, Outranked, Pins, SortDescending, HasPin;
    var outside := (p: Package) => p !in window;
    PinsOfNewLines(window, tail);
    RanksAreWeak();
    SortFilter(Pins(window + tail), outside, RANKS);
    FilterJoin(Pins(window), tail, outside);
    forall i | 0 <= i < |Pins(window)|
      ensures !outside(Pins(window)[i])
    {
      PinsAreMembers(window, Pins(window)[i]);
    }
    forall j | 0 <= j < |tail|
      ensures outside(tail[j])
    {
      MemberIsPin(window, tail[j]);
    }
    FilterAll(Pins(window), outside);
    FilterAll(tail, outside);
    assert [] + tail == tail;
    SortOfFalling(tail, RANKS);
  }

  lemma AllKeptAgain(bucket: seq<Package>, keep: nat)
    requires keep == 0 || keep >= |bucket|
    ensures Pruned(Pruned(bucket, keep).value, keep) == Pruned(bucket, keep)
  {
    AllKept(bucket, keep);
    OrderedFalls(bucket);
    OrderedMembers(bucket);
    OrderedIsItself(Ordered(bucket));
    AllKept(Ordered(bucket), keep);
  }

  lemma PrunedIsKept(bucket: seq<Package>, keep: nat)
    requires 0 < keep < |bucket| && AllHaveLines(bucket)
    ensures Pruned(bucket, keep) == Some(Kept(bucket, keep))
  {
  }

  lemma KeptAgain(bucket: seq<Package>, keep: nat)
    requires NoLineTies(bucket) && 0 < keep < |bucket| && AllHaveLines(bucket)
    ensures Pruned(Kept(bucket, keep), keep) == Some(Kept(bucket, keep))
  {
    hide Pruned, Tail, Ordered, Outranked, HasPin, LineKey;
    var window, tail, r := Retained(bucket, keep), Tail(bucket, keep), Kept(bucket, keep);
    KeptShape(bucket, keep);
    OrderedIsItself(r);
    if keep >= |r| {
      AllKept(r, keep);
    } else {
      LinesWithin(r, bucket);
      PrunedIsKept(r, keep);
      assert Retained(r, keep) == window;
      TailIsNew(bucket, keep);
      TailShape(bucket, keep);
      TailAgain(window, tail);
      TailIs(r, keep, window, tail);
    }
  }

  lemma TailIs(r: seq<Package>, keep: nat, window: seq<Package>, tail: seq<Package>)
    requires Retained(r, keep) == window && Outside(SortDescending(Pins(r), RANKS), window) == tail
    ensures Kept(r, keep) == window + tail
  {
  }

  /** Pruning what pruning kept changes nothing, order included, when no two packages of one line tie. */
  lemma PruningAgain(bucket: seq<Package>, keep: nat)
    requires NoLineTies(bucket) && Pruned(bucket, keep).Some?
    ensures Pruned(Pruned(bucket, keep).value, keep) == Pruned(bucket, keep)
  {
    if keep == 0 || keep >= |bucket| {
      AllKeptAgain(bucket, keep);
    } else {
      PrunedIsKept(bucket, keep);
      KeptAgain(bucket, keep);
    }
  }

  // ----- all channels -----

  datatype Channel = Testing | Stable | Edge | Nightly

  /** What a package's build record says: nothing, something the source refuses, or a channel. */
  datatype Provenance = Unrecorded | Refused | Recorded(channel: Channel)

  predicate EndsWith(s: string, suffix: string) {
    |suffix| <= |s| && s[|s| - |suffix|..] == suffix
  }

  /** _retention_channel: the record decides, else the suffix of the name; None where the source raises. */
  function ChannelOf(p: Package, provenance: Package -> Provenance): Option<Channel> {
    match provenance(p)
    case Recorded(channel) => Some(channel)
    case Refused => None
    case Unrecorded =>
      if EndsWith(p.name, "-nightly") then Some(Nightly)
      else if EndsWith(p.name, "-devel") then None
      else if EndsWith(p.name, "-testing") then Some(Testing)
      else if EndsWith(p.name, "-edge") then Some(Edge)
      else Some(Stable)
  }

  lemma EndOf(stem: string, suffix: string)
    ensures EndsWith(stem + suffix, suffix)
  {
  }

  lemma OtherEnd(stem: string, suffix: string, other: string)
    requires |other| > 0 && |suffix| > 0 && EndsWith(stem + suffix, other)
    ensures suffix[|suffix| - 1] == other[|other| - 1]
    ensures |suffix| > 1 && |other| > 1 ==> suffix[|suffix| - 2] == other[|other| - 2]
  {
    var s := stem + suffix;
    assert s[|s| - |other|..][|other| - 1] == s[|s| - 1];
    if |suffix| > 1 && |other| > 1 {
      assert s[|s| - |other|..][|other| - 2] == s[|s| - 2];
    }
  }

  /** Without a build record the end of the name is the channel; a development package has none. */
  lemma ChannelByName(p: Package, provenance: Package -> Provenance, stem: string)
    requires provenance(p) == Unrecorded
    ensures p.name == stem + "-nightly" ==> ChannelOf(p, provenance) == Some(Nightly)
    ensures p.name == stem + "-devel" ==> ChannelOf(p, provenance) == None
    ensures p.name == stem + "-testing" ==> ChannelOf(p, provenance) == Some(Testing)
    ensures p.name == stem + "-edge" ==> ChannelOf(p, provenance) == Some(Edge)
    ensures (forall suffix <- {"-nightly", "-devel", "-testing", "-edge"} :: !EndsWith(p.name, suffix)) ==>
              ChannelOf(p, provenance) == Some(Stable)
  {
    hide EndsWith;
    EndOf(stem, "-nightly");
    EndOf(stem, "-devel");
    EndOf(stem, "-testing");
    EndOf(stem, "-edge");
    EndsApart(stem, p.name);
  }

  lemma EndsApart(stem: string, name: string)
    ensures name == stem + "-devel" ==> !EndsWith(name, "-nightly")
    ensures name == stem + "-testing" ==> !EndsWith(name, "-nightly") && !EndsWith(name, "-devel")
    ensures name == stem + "-edge" ==>
              !EndsWith(name, "-nightly") && !EndsWith(name, "-devel") && !EndsWith(name, "-testing")
  {
    hide EndsWith;
    if name == stem + "-devel" && EndsWith(name, "-nightly") {
      OtherEnd(stem, "-devel", "-nightly");
    }
    if name == stem + "-testing" && EndsWith(name, "-nightly") {
      OtherEnd(stem, "-testing", "-nightly");
    }
    if name == stem + "-testing" && EndsWith(name, "-devel") {
      OtherEnd(stem, "-testing", "-devel");
    }
    if name == stem + "-edge" && EndsWith(name, "-nightly") {
      OtherEnd(stem, "-edge", "-nightly");
    }
    if name == stem + "-edge" && EndsWith(name, "-devel") {
      OtherEnd(stem, "-edge", "-devel");
    }
    if name == stem + "-edge" && EndsWith(name, "-testing") {
      OtherEnd(stem, "-edge", "-testing");
    }
  }

  function Bucket(ps: seq<Package>, channel: Channel, provenance: Package -> Provenance): seq<Package> {
    Filter(ps, (p: Package) => ChannelOf(p, provenance) == Some(channel))
  }

  predicate AllHaveChannels(ps: seq<Package>, provenance: Package -> Provenance) {
    forall i :: 0 <= i < |ps| ==> ChannelOf(ps[i], provenance).Some?
  }

  function RetainedByChannel(ps: seq<Package>, keepTesting: int, keepStable: int, provenance: Package -> Provenance)
    : Option<seq<Package>>
  {
    if keepTesting < 0 || keepStable < 0 || !AllHaveChannels(ps, provenance) then None
    else
      var testing := Pruned(Bucket(ps, Testing, provenance), keepTesting);
      var stable := Pruned(Bucket(ps, Stable, provenance), keepStable);
      if testing.None? || stable.None? then None
      else Some(testing.value + stable.value + Bucket(ps, Edge, provenance) + Bucket(ps, Nightly, provenance))
  }

  /** The packages of a channel can be pruned: no limit, nothing to prune, or two numbers in front of every version. */
  ghost predicate CanPrune(bucket: seq<Package>, keep: int) {
    keep == 0 || keep >= |bucket| || forall i :: 0 <= i < |bucket| ==> HasNumbers(bucket[i].version)
  }

  /**
   Retention fails exactly for a negative limit, a package without channel, or a bucket that cannot be pruned; else it
   gives testing, stable, edge and nightly in this order.
   */
  lemma RetainsExactly(ps: seq<Package>, keepTesting: int, keepStable: int, provenance: Package -> Provenance)
    ensures var r := RetainedByChannel(ps, keepTesting, keepStable, provenance);
            var testing, stable := Bucket(ps, Testing, provenance), Bucket(ps, Stable, provenance);
            && (r.Some? <==>
                  && keepTesting >= 0 && keepStable >= 0
                  && (forall i :: 0 <= i < |ps| ==> ChannelOf(ps[i], provenance).Some?)
                  && CanPrune(testing, keepTesting) && CanPrune(stable, keepStable))
            && (r.Some? ==>
                  && Pruned(testing, keepTesting).Some? && Pruned(stable, keepStable).Some?
                  && r.value == Pruned(testing, keepTesting).value + Pruned(stable, keepStable).value
                                + Bucket(ps, Edge, provenance) + Bucket(ps, Nightly, provenance))
  {
    hide Pruned, Bucket, ChannelOf, HasNumbers;
    if keepTesting >= 0 && keepStable >= 0 {
      PrunesExactly(Bucket(ps, Testing, provenance), keepTesting, Package(0, "", "", 0));
      PrunesExactly(Bucket(ps, Stable, provenance), keepStable, Package(0, "", "", 0));
    }
  }

  method RetainByChannel(ps: seq<Package>, keepTesting: int, keepStable: int, provenance: Package -> Provenance)
    returns (kept: Option<seq<Package>>)
    ensures kept == RetainedByChannel(ps, keepTesting, keepStable, provenance)
  {
    if keepTesting < 0 || keepStable < 0 {
      return None;
    }
    var testing, stable, edge, nightly := [], [], [], [];
    for i := 0 to |ps|
      invariant AllHaveChannels(ps[..i], provenance)
      invariant testing == Bucket(ps[..i], Testing, provenance) && stable == Bucket(ps[..i], Stable, provenance)
      invariant edge == Bucket(ps[..i], Edge, provenance) && nightly == Bucket(ps[..i], Nightly, provenance)
    {
      var p := ps[i];
      var channel := ChannelOf(p, provenance);
      if channel.None? {
        return None;
      }
      NextInBucket(ps, i, channel.value, provenance);
      match channel.value
      case Nightly => nightly := nightly + [p];
      case Testing => testing := testing + [p];
      case Edge => edge := edge + [p];
      case Stable => stable := stable + [p];
    }
    assert ps[..|ps|] == ps;
    var keptTesting := Prune(testing, keepTesting);
    if keptTesting.None? {
      return None;
    }
    var keptStable := Prune(stable, keepStable);
    if keptStable.None? {
      return None;
    }
    kept := Some(keptTesting.value + keptStable.value + edge + nightly);
  }

  lemma NextInBucket(ps: seq<Package>, i: nat, channel: Channel, provenance: Package -> Provenance)
    requires i < |ps| && ChannelOf(ps[i], provenance) == Some(channel)
    ensures forall c :: Bucket(ps[..i + 1], c, provenance)
                        == Bucket(ps[..i], c, provenance) + if c == channel then [ps[i]] else []
  {
    assert ps[..i + 1] == ps[..i] + [ps[i]];
    forall c
      ensures Bucket(ps[..i + 1], c, provenance)
              == Bucket(ps[..i], c, provenance) + if c == channel then [ps[i]] else []
    {
      FilterJoin(ps[..i], [ps[i]], (p: Package) => ChannelOf(p, provenance) == Some(c));
    }
  }

  /** Every package is of the channel. */
  predicate OfChannel(s: seq<Package>, channel: Channel, provenance: Package -> Provenance) {
    forall i :: 0 <= i < |s| ==> ChannelOf(s[i], provenance) == Some(channel)
  }

  lemma FilterJoinFour<T(!new)>(a: seq<T>, b: seq<T>, c: seq<T>, d: seq<T>, p: T -> bool)
    ensures Filter(a + b + c + d, p) == Filter(a, p) + Filter(b, p) + Filter(c, p) + Filter(d, p)
  {
    FilterJoin(a + b + c, d, p);
    FilterJoin(a + b, c, p);
    FilterJoin(a, b, p);
  }

  lemma BucketOfOne(s: seq<Package>, own: Channel, channel: Channel, provenance: Package -> Provenance)
    requires OfChannel(s, own, provenance)
    ensures Bucket(s, channel, provenance) == if own == channel then s else []
  {
    FilterAll(s, (p: Package) => ChannelOf(p, provenance) == Some(channel));
  }

  lemma BucketOfParts(t: seq<Package>, s: seq<Package>, e: seq<Package>, n: seq<Package>, channel: Channel,
                      provenance: Package -> Provenance)
    requires OfChannel(t, Testing, provenance) && OfChannel(s, Stable, provenance)
    requires OfChannel(e, Edge, provenance) && OfChannel(n, Nightly, provenance)
    ensures Bucket(t + s + e + n, channel, provenance)
            == match channel case Testing => t case Stable => s case Edge => e case Nightly => n
  {
    BucketOfOne(t, Testing, channel, provenance);
    BucketOfOne(s, Stable, channel, provenance);
    BucketOfOne(e, Edge, channel, provenance);
    BucketOfOne(n, Nightly, channel, provenance);
    FilterJoinFour(t, s, e, n, (p: Package) => ChannelOf(p, provenance) == Some(channel));
  }

  lemma PrunedWithin(bucket: seq<Package>, keep: nat)
    requires Pruned(bucket, keep).Some?
    ensures Within(Pruned(bucket, keep).value, bucket)
  {
    if keep == 0 || keep >= |bucket| {
      AllKept(bucket, keep);
      OrderedMembers(bucket);
    } else {
      PrunedIsKept(bucket, keep);
      KeptShape(bucket, keep);
    }
  }

  lemma WithinBucket(r: seq<Package>, ps: seq<Package>, channel: Channel, provenance: Package -> Provenance)
    requires Within(r, Bucket(ps, channel, provenance))
    ensures OfChannel(r, channel, provenance)
  {
    FilterMembers(ps, (p: Package) => ChannelOf(p, provenance) == Some(channel));
  }

  /**
   Each channel is retained on its own: the result's buckets are the pruned testing and stable buckets and the
   untouched edge and nightly ones.
   */
  lemma ChannelsAreSeparate(ps: seq<Package>, keepTesting: nat, keepStable: nat, provenance: Package -> Provenance)
    requires RetainedByChannel(ps, keepTesting, keepStable, provenance).Some?
    ensures var r := RetainedByChannel(ps, keepTesting, keepStable, provenance).value;
            && Some(Bucket(r, Testing, provenance)) == Pruned(Bucket(ps, Testing, provenance), keepTesting)
            && Some(Bucket(r, Stable, provenance)) == Pruned(Bucket(ps, Stable, provenance), keepStable)
            && Bucket(r, Edge, provenance) == Bucket(ps, Edge, provenance)
            && Bucket(r, Nightly, provenance) == Bucket(ps, Nightly, provenance)
            && AllHaveChannels(r, provenance)
  {
    var t := Pruned(Bucket(ps, Testing, provenance), keepTesting).value;
    var s := Pruned(Bucket(ps, Stable, provenance), keepStable).value;
    var e, n := Bucket(ps, Edge, provenance), Bucket(ps, Nightly, provenance);
    PrunedWithin(Bucket(ps, Testing, provenance), keepTesting);
    PrunedWithin(Bucket(ps, Stable, provenance), keepStable);
    WithinBucket(t, ps, Testing, provenance);
    WithinBucket(s, ps, Stable, provenance);
    WithinBucket(e, ps, Edge, provenance);
    WithinBucket(n, ps, Nightly, provenance);
    BucketOfParts(t, s, e, n, Testing, provenance);
    BucketOfParts(t, s, e, n, Stable, provenance);
    BucketOfParts(t, s, e, n, Edge, provenance);
    BucketOfParts(t, s, e, n, Nightly, provenance);
    PartsHaveChannels(t, s, e, n, provenance);
  }

  lemma PartsHaveChannels(t: seq<Package>, s: seq<Package>, e: seq<Package>, n: seq<Package>,
                          provenance: Package -> Provenance)
    requires OfChannel(t, Testing, provenance) && OfChannel(s, Stable, provenance)
    requires OfChannel(e, Edge, provenance) && OfChannel(n, Nightly, provenance)
    ensures AllHaveChannels(t + s + e + n, provenance)
  {
  }

  /** Retaining what was retained changes nothing, order included. */
  lemma RetainingAgain(ps: seq<Package>, keepTesting: int, keepStable: int, provenance: Package -> Provenance)
    requires RetainedByChannel(ps, keepTesting, keepStable, provenance).Some?
    requires NoLineTies(Bucket(ps, Testing, provenance)) && NoLineTies(Bucket(ps, Stable, provenance))
    ensures var r := RetainedByChannel(ps, keepTesting, keepStable, provenance);
            RetainedByChannel(r.value, keepTesting, keepStable, provenance) == r
  {
    ChannelsAreSeparate(ps, keepTesting, keepStable, provenance);
    PruningAgain(Bucket(ps, Testing, provenance), keepTesting);
    PruningAgain(Bucket(ps, Stable, provenance), keepStable);
  }
}
