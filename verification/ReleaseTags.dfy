/**
 Release tags and the choice of the previous one (scripts/release_version.py), and their agreement with the
 package-version order of scripts/pfb_pkg.py.
 */
module ReleaseTags {
  import opened Common
  import opened Numerals
  import opened PkgVersion

  datatype Stage = Alpha | Beta | Rc | Final

  datatype Channel = Stable | Testing | Edge

  /** The parts of a tag as numbers; the sequence is 0 exactly for a final. */
  datatype Tag = Tag(major: nat, minor: nat, patch: nat, stage: Stage, seqNo: nat)

  predicate IsTag(t: Tag) {
    t.stage == Final <==> t.seqNo == 0
  }

  const MAX_RELEASE_TEXT: nat := 128

  // ----- parsing -----

  function StageOf(c: char): Option<Stage> {
    if c == 'a' then Some(Alpha) else if c == 'b' then Some(Beta) else if c == 'r' then Some(Rc) else None
  }

  function LetterOf(s: Stage): char
    requires s != Final
  {
    match s case Alpha => 'a' case Beta => 'b' case Rc => 'r'
  }

  predicate IsPreview(part: string) {
    |part| >= 2 && StageOf(part[0]).Some? && part[1] != '0' && AllDigits(part[1..])
  }

  /** The two strict patterns: v, three canonical numerals, and for a preview a stage letter with a positive numeral. */
  function Shape(tag: string): Option<Tag> {
    if tag == "" || |tag| > MAX_RELEASE_TEXT || tag[0] != 'v' then None
    else
      var parts := Split(tag[1..], ".");
      if |parts| < 3 || |parts| > 4 || !IsNumeral(parts[0]) || !IsNumeral(parts[1]) || !IsNumeral(parts[2]) then None
      else
        var core := Tag(Number(parts[0]), Number(parts[1]), Number(parts[2]), Final, 0);
        if |parts| == 3 then Some(core)
        else if IsPreview(parts[3]) then
          Some(core.(stage := StageOf(parts[3][0]).value, seqNo := Number(parts[3][1..])))
        else None
  }

  function PrimaryChannel(t: Tag): Channel {
    if t.stage == Final then Stable else if t.patch == 0 then Edge else Testing
  }

  function TargetFinal(t: Tag): string {
    Decimal(t.major) + ("." + (Decimal(t.minor) + ("." + Decimal(t.patch))))
  }

  /** The version inside the package: the tag without its v. */
  function PkgVersionOf(t: Tag): string
    requires IsTag(t)
  {
    if t.stage == Final then TargetFinal(t)
    else
      var preview := [LetterOf(t.stage)] + Decimal(t.seqNo);
      Decimal(t.major) + ("." + (Decimal(t.minor) + ("." + (Decimal(t.patch) + ("." + preview)))))
  }

  /** The strings a ReleaseInfo carries that the order and the selection read. */
  datatype Info = Info(
    tag: string, stage: Stage, sequence: Option<string>, targetFinal: string, releaseLine: string,
    channel: Channel, pkgVersion: string)

  /** parse_release_tag: the shape, then the channel it requires. */
  function ParseReleaseTag(tag: string, channel: Channel): Option<Info> {
    match Shape(tag)
    case None => None
    case Some(t) =>
      ShapeIsTag(tag);
      if channel != PrimaryChannel(t) then None
      else
        Some(Info(tag, t.stage, if t.stage == Final then None else Some(Decimal(t.seqNo)), TargetFinal(t),
                  "release/" + (Decimal(t.major) + ("." + Decimal(t.minor))), channel, PkgVersionOf(t)))
  }

  lemma PositiveNumeral(s: string)
    requires s != "" && AllDigits(s) && s[0] != '0'
    ensures IsNumeral(s) && Number(s) > 0
  {
    NumeralIsDecimal(s);
  }

  lemma ShapeIsTag(tag: string)
    ensures Shape(tag).Some? ==> IsTag(Shape(tag).value)
  {
    if Shape(tag).Some? {
      var parts := Split(tag[1..], ".");
      if |parts| == 4 {
        PositiveNumeral(parts[3][1..]);
      }
    }
  }

  /** A tag is the only text with its parts: v and its package version. */
  lemma ShapeIsCanonical(tag: string)
    requires Shape(tag).Some?
    ensures IsTag(Shape(tag).value) && tag == "v" + PkgVersionOf(Shape(tag).value)
  {
    hide Split, Number, Decimal;
    var t, parts := Shape(tag).value, Split(tag[1..], ".");
    ShapeIsTag(tag);
    SplitJoins(tag[1..], '.');
    NumeralIsDecimal(parts[0]);
    NumeralIsDecimal(parts[1]);
    NumeralIsDecimal(parts[2]);
    if |parts| == 4 {
      PositiveNumeral(parts[3][1..]);
      NumeralIsDecimal(parts[3][1..]);
      assert parts[3] == [LetterOf(t.stage)] + Decimal(t.seqNo);
      JoinFour(parts);
    } else {
      JoinThree(parts);
    }
    assert tag == "v" + tag[1..];
  }

  lemma JoinThree(parts: seq<string>)
    requires |parts| == 3
    ensures Join(parts, '.') == parts[0] + ("." + (parts[1] + ("." + parts[2])))
  {
    assert parts[1..] == [parts[1], parts[2]] && parts[1..][1..] == [parts[2]];
    assert Join(parts[1..], '.') == parts[1] + ("." + parts[2]);
  }

  lemma JoinFour(parts: seq<string>)
    requires |parts| == 4
    ensures Join(parts, '.') == parts[0] + ("." + (parts[1] + ("." + (parts[2] + ("." + parts[3])))))
  {
    assert parts[1..] == [parts[1], parts[2], parts[3]];
    JoinThree(parts[1..]);
  }

  // ----- what is accepted -----

  lemma {:induction false} DecimalIsNumeral(n: nat)
    ensures IsNumeral(Decimal(n)) && Number(Decimal(n)) == n
  {
    DecimalDigits(n);
    if n == 0 {
      assert Decimal(0) == "0";
    }
  }

  lemma PreviewReads(t: Tag)
    requires IsTag(t) && t.stage != Final
    ensures var part := [LetterOf(t.stage)] + Decimal(t.seqNo);
            IsPreview(part) && StageOf(part[0]) == Some(t.stage) && Number(part[1..]) == t.seqNo
  {
    DecimalDigits(t.seqNo);
    assert ([LetterOf(t.stage)] + Decimal(t.seqNo))[1..] == Decimal(t.seqNo);
  }

  /** Every tag reads back from its text, while that has at most 128 characters. */
  lemma PrintedTagReads(t: Tag)
    requires IsTag(t) && |PkgVersionOf(t)| < 128
    ensures Shape("v" + PkgVersionOf(t)) == Some(t)
  {
    hide Split, Decimal, Number;
    DecimalIsNumeral(t.major);
    DecimalIsNumeral(t.minor);
    DecimalIsNumeral(t.patch);
    SplitAtDots(t);
    assert ("v" + PkgVersionOf(t))[1..] == PkgVersionOf(t);
    if t.stage != Final {
      PreviewReads(t);
    }
  }

  lemma SplitAtDots(t: Tag)
    requires IsTag(t)
    ensures Split(PkgVersionOf(t), ".") ==
            [Decimal(t.major), Decimal(t.minor), Decimal(t.patch)]
            + if t.stage == Final then [] else [[LetterOf(t.stage)] + Decimal(t.seqNo)]
  {
    NoDots(t.major);
    NoDots(t.minor);
    NoDots(t.patch);
    if t.stage == Final {
      SplitTarget(t);
    } else {
      PreviewIsFree(t);
      SplitFour(Decimal(t.major), Decimal(t.minor), Decimal(t.patch), [LetterOf(t.stage)] + Decimal(t.seqNo), ".");
    }
  }

  // ----- the release order -----

  datatype Order = Order(major: nat, minor: nat, patch: nat, rank: nat, seqNo: nat)

  function RankOf(s: Stage): nat {
    match s case Alpha => 0 case Beta => 1 case Rc => 2 case Final => 3
  }

  function OrderOfTag(t: Tag): Order {
    Order(t.major, t.minor, t.patch, RankOf(t.stage), t.seqNo)
  }

  predicate OrderLess(a: Order, b: Order) {
    a.major < b.major || (a.major == b.major &&
    (a.minor < b.minor || (a.minor == b.minor &&
    (a.patch < b.patch || (a.patch == b.patch &&
    (a.rank < b.rank || (a.rank == b.rank && a.seqNo < b.seqNo)))))))
  }

  /** _release_order reads the numbers back out of the strings; None where Python would raise. */
  function ReleaseOrder(info: Info): Option<Order> {
    var parts := Split(info.targetFinal, ".");
    if |parts| == 3 && IsNumber(parts[0]) && IsNumber(parts[1]) && IsNumber(parts[2])
       && (info.sequence.Some? ==> IsNumber(info.sequence.value)) then
      Some(Order(Number(parts[0]), Number(parts[1]), Number(parts[2]), RankOf(info.stage),
                 if info.sequence.Some? then Number(info.sequence.value) else 0))
    else None
  }

  lemma NoDots(n: nat)
    ensures forall i :: 0 <= i < |Decimal(n)| ==> Decimal(n)[i] !in SEPARATORS && Decimal(n)[i] !in "."
    ensures IsNumber(Decimal(n)) && Number(Decimal(n)) == n
  {
    DecimalDigits(n);
    forall i | 0 <= i < |Decimal(n)|
      ensures Decimal(n)[i] !in SEPARATORS && Decimal(n)[i] !in "."
    {
      assert IsDigit(Decimal(n)[i]);
    }
  }

  predicate Free(s: string, separators: string) {
    forall i :: 0 <= i < |s| ==> s[i] !in separators
  }

  lemma SplitThree(a: string, b: string, last: string, separators: string)
    requires '.' in separators && Free(a, separators) && Free(b, separators)
    ensures Split(a + ("." + (b + ("." + last))), separators) == [a, b] + Split(last, separators)
  {
    var inner := b + ("." + last);
    SplitFirst(b, '.', last, separators);
    SplitFirst(a, '.', inner, separators);
  }

  lemma SplitFour(a: string, b: string, c: string, d: string, separators: string)
    requires '.' in separators
    requires Free(a, separators) && Free(b, separators) && Free(c, separators) && Free(d, separators)
    ensures Split(a + ("." + (b + ("." + (c + ("." + d))))), separators) == [a, b, c] + [d]
  {
    hide Split;
    SplitThree(a, b, c + ("." + d), separators);
    SplitFirst(c, '.', d, separators);
    SplitLast(d, separators);
  }

  /** TargetFinal as its three components. */
  lemma SplitTarget(t: Tag)
    ensures Split(TargetFinal(t), ".") == [Decimal(t.major), Decimal(t.minor), Decimal(t.patch)]
  {
    NoDots(t.major);
    NoDots(t.minor);
    NoDots(t.patch);
    SplitThree(Decimal(t.major), Decimal(t.minor), Decimal(t.patch), ".");
    SplitLast(Decimal(t.patch), ".");
  }

  lemma OrderOfStrings(info: Info, t: Tag)
    requires IsTag(t) && info.targetFinal == TargetFinal(t) && info.stage == t.stage
    requires info.sequence == if t.stage == Final then None else Some(Decimal(t.seqNo))
    ensures ReleaseOrder(info) == Some(OrderOfTag(t))
  {
    SplitTarget(t);
    NoDots(t.major);
    NoDots(t.minor);
    NoDots(t.patch);
    NoDots(t.seqNo);
  }

  /** The strings of a parsed tag carry its numbers. */
  lemma ParsedOrder(tag: string, channel: Channel)
    requires ParseReleaseTag(tag, channel).Some?
    ensures ReleaseOrder(ParseReleaseTag(tag, channel).value) == Some(OrderOfTag(Shape(tag).value))
  {
    ShapeIsTag(tag);
    OrderOfStrings(ParseReleaseTag(tag, channel).value, Shape(tag).value);
  }

  // ----- the package key of a tag -----

  lemma NumberComponent(n: nat, parts: seq<string>, key: Key)
    ensures KeyFrom([Decimal(n)] + parts, key) == KeyFrom(parts, key.(base := key.base + [n]))
  {
    hide KeyFrom, Decimal, Number;
    NoDots(n);
    var d := Decimal(n);
    assert IsDigit(d[0]);
    assert Lower(d)[0] == d[0];
    assert StageRank(d).None? && !IsCompact(d);
    KeyPlain(d, parts, key);
  }

  lemma PreviewComponent(t: Tag, key: Key)
    requires IsTag(t) && t.stage != Final
    ensures KeyFrom([[LetterOf(t.stage)] + Decimal(t.seqNo)], key) == key.(rank := RankOf(t.stage), num := t.seqNo)
  {
    hide KeyFrom, Decimal, Number;
    NoDots(t.seqNo);
    DecimalDigits(t.seqNo);
    var d := Decimal(t.seqNo);
    var part := [LetterOf(t.stage)] + d;
    assert part[1..] == d && part[1] == d[0];
    assert IsDigit(d[0]);
    assert Lower(part)[1] == d[0];
    assert StageRank(part).None?;
    KeyCompact(part, key);
  }

  lemma SplitVersion(t: Tag)
    requires IsTag(t)
    ensures Split(PkgVersionOf(t), SEPARATORS) ==
            [Decimal(t.major), Decimal(t.minor), Decimal(t.patch)]
            + if t.stage == Final then [] else [[LetterOf(t.stage)] + Decimal(t.seqNo)]
  {
    NoDots(t.major);
    NoDots(t.minor);
    NoDots(t.patch);
    if t.stage == Final {
      SplitThree(Decimal(t.major), Decimal(t.minor), Decimal(t.patch), SEPARATORS);
      SplitLast(Decimal(t.patch), SEPARATORS);
    } else {
      PreviewIsFree(t);
      SplitFour(Decimal(t.major), Decimal(t.minor), Decimal(t.patch), [LetterOf(t.stage)] + Decimal(t.seqNo),
                SEPARATORS);
    }
  }

  lemma PreviewIsFree(t: Tag)
    requires t.stage != Final
    ensures Free([LetterOf(t.stage)] + Decimal(t.seqNo), SEPARATORS)
  {
    NoDots(t.seqNo);
    var part := [LetterOf(t.stage)] + Decimal(t.seqNo);
    assert forall i :: 1 <= i < |part| ==> part[i] == Decimal(t.seqNo)[i - 1];
  }

  /** The sort key of a tag's package version is its three numbers, its stage and its sequence. */
  lemma KeyOfTag(t: Tag)
    requires IsTag(t)
    ensures SortKey(PkgVersionOf(t)) == Key([t.major, t.minor, t.patch], RankOf(t.stage), t.seqNo)
  {
    var key := Key([], RELEASE_RANK, 0);
    SplitVersion(t);
    ThreeNumbers(t, if t.stage == Final then [] else [[LetterOf(t.stage)] + Decimal(t.seqNo)], key);
    if t.stage != Final {
      PreviewComponent(t, key.(base := [t.major, t.minor, t.patch]));
    }
  }

  lemma ThreeNumbers(t: Tag, parts: seq<string>, key: Key)
    requires key.base == []
    ensures KeyFrom([Decimal(t.major), Decimal(t.minor), Decimal(t.patch)] + parts, key)
            == KeyFrom(parts, key.(base := [t.major, t.minor, t.patch]))
  {
    var a, b, c := Decimal(t.major), Decimal(t.minor), Decimal(t.patch);
    NumberComponent(t.major, [b, c] + parts, key);
    NumberComponent(t.minor, [c] + parts, key.(base := [t.major]));
    NumberComponent(t.patch, parts, key.(base := [t.major, t.minor]));
    assert [a, b, c] + parts == [a] + ([b, c] + parts);
    assert [b, c] + parts == [b] + ([c] + parts);
    assert [] + [t.major] == [t.major];
    assert [t.major] + [t.minor] == [t.major, t.minor];
    assert [t.major, t.minor] + [t.patch] == [t.major, t.minor, t.patch];
  }

  lemma CoreLess(a: Tag, b: Tag)
    ensures ListLess([a.major, a.minor, a.patch], [b.major, b.minor, b.patch]) <==>
            a.major < b.major
            || (a.major == b.major && (a.minor < b.minor || (a.minor == b.minor && a.patch < b.patch)))
  {
    var x, y := [a.major, a.minor, a.patch], [b.major, b.minor, b.patch];
    assert x[1..] == [a.minor, a.patch] && y[1..] == [b.minor, b.patch];
    assert x[1..][1..] == [a.patch] && y[1..][1..] == [b.patch];
    assert x[1..][1..][1..] == [] && y[1..][1..][1..] == [];
    assert ListLess([a.patch], [b.patch]) <==> a.patch < b.patch;
  }

  function KeyOf(t: Tag): Key {
    Key([t.major, t.minor, t.patch], RankOf(t.stage), t.seqNo)
  }

  lemma KeysAgree(a: Tag, b: Tag)
    ensures KeyLess(KeyOf(a), KeyOf(b)) <==> OrderLess(OrderOfTag(a), OrderOfTag(b))
    ensures KeyOf(a) == KeyOf(b) ==> a == b
  {
    CoreLess(a, b);
    var x, y := KeyOf(a).base, KeyOf(b).base;
    assert x == y ==> x[0] == y[0] && x[1] == y[1] && x[2] == y[2];
  }

  /**
   The two orders agree on all tags the parser accepts: comparing the package versions is comparing the releases,
   and equal keys mean the same tag.
   */
  lemma OrdersAgree(tag1: string, channel1: Channel, tag2: string, channel2: Channel)
    requires ParseReleaseTag(tag1, channel1).Some? && ParseReleaseTag(tag2, channel2).Some?
    ensures var i1, i2 := ParseReleaseTag(tag1, channel1).value, ParseReleaseTag(tag2, channel2).value;
            && ReleaseOrder(i1).Some? && ReleaseOrder(i2).Some?
            && (KeyLess(SortKey(i1.pkgVersion), SortKey(i2.pkgVersion)) <==>
                  OrderLess(ReleaseOrder(i1).value, ReleaseOrder(i2).value))
            && (SortKey(i1.pkgVersion) == SortKey(i2.pkgVersion) <==> tag1 == tag2)
  {
    ParsedOrder(tag1, channel1);
    ParsedOrder(tag2, channel2);
    ParsedKey(tag1, channel1);
    ParsedKey(tag2, channel2);
    KeysAgree(Shape(tag1).value, Shape(tag2).value);
  }

  lemma ParsedKey(tag: string, channel: Channel)
    requires ParseReleaseTag(tag, channel).Some?
    ensures SortKey(ParseReleaseTag(tag, channel).value.pkgVersion) == KeyOf(Shape(tag).value)
    ensures IsTag(Shape(tag).value) && tag == "v" + PkgVersionOf(Shape(tag).value)
  {
    ShapeIsCanonical(tag);
    KeyOfTag(Shape(tag).value);
  }

  // ----- the previous release -----

  /** A tag of the repository with the ancestry facts the selection needs. */
  datatype Candidate = Candidate(tag: string, info: Info, primary: Channel, onSourceLine: bool, ancestor: bool)

  /** Candidates are validated: their info is their tag parsed in its primary channel. */
  predicate IsCandidate(c: Candidate) {
    ParseReleaseTag(c.tag, c.primary) == Some(c.info)
  }

  /** The order of a candidate; its strings always parse, so the default is never taken. */
  function OrderOf(c: Candidate): Order {
    var order := ReleaseOrder(c.info);
    if order.Some? then order.value else Order(0, 0, 0, 0, 0)
  }

  lemma CandidateOrder(c: Candidate)
    requires IsCandidate(c)
    ensures ReleaseOrder(c.info) == Some(OrderOf(c)) && OrderOf(c) == OrderOfTag(Shape(c.tag).value)
  {
    ParsedOrder(c.tag, c.primary);
  }

  predicate FamilyLess(a: Order, b: Order) {
    a.major < b.major || (a.major == b.major && a.minor < b.minor)
  }

  predicate IsAllowed(primary: Channel, candidate: Channel) {
    match primary
    case Stable => candidate == Stable
    case Testing => candidate == Stable || candidate == Testing
    case Edge => candidate == Stable || candidate == Edge
  }

  /** An earlier release of the same major/minor line. */
  predicate InFamily(c: Candidate, current: Info, order: Order) {
    && c.tag != current.tag && c.info.releaseLine == current.releaseLine && IsAllowed(current.channel, c.primary)
    && c.onSourceLine && c.ancestor && OrderLess(OrderOf(c), order)
  }

  /** A stable release of an earlier line. */
  predicate EarlierStable(c: Candidate, order: Order) {
    c.primary == Stable && c.onSourceLine && c.ancestor && FamilyLess(OrderOf(c), order)
  }

  predicate AllCandidates(cs: seq<Candidate>) {
    forall i :: 0 <= i < |cs| ==> IsCandidate(cs[i])
  }

  function SameFamily(cs: seq<Candidate>, current: Info, order: Order): seq<Candidate> {
    Filter(cs, (c: Candidate) => InFamily(c, current, order))
  }

  function PreviousStables(cs: seq<Candidate>, order: Order): seq<Candidate> {
    Filter(cs, (c: Candidate) => EarlierStable(c, order))
  }

  lemma OrderLessTransitive(a: Order, b: Order, c: Order)
    ensures OrderLess(a, b) && OrderLess(b, c) ==> OrderLess(a, c)
    ensures !OrderLess(a, b) && OrderLess(a, c) ==> OrderLess(b, c)
  {
  }

  /** Python's max: the first of the greatest. */
  function FirstGreatest(orders: seq<Order>): (m: nat)
    requires orders != []
    ensures m < |orders|
    ensures forall i :: 0 <= i < |orders| ==> !OrderLess(orders[m], orders[i])
    ensures forall i :: 0 <= i < m ==> OrderLess(orders[i], orders[m])
  {
    var last := |orders| - 1;
    if last == 0 then 0
    else
      var m := FirstGreatest(orders[..last]);
      assert forall i :: 0 <= i < last ==> orders[..last][i] == orders[i];
      if OrderLess(orders[m], orders[last]) then
        assert forall i :: 0 <= i < last ==> OrderLess(orders[i], orders[last]) by {
          forall i | 0 <= i < last ensures OrderLess(orders[i], orders[last]) {
            OrderLessTransitive(orders[m], orders[i], orders[last]);
          }
        }
        last
      else m
  }

  /** The source's key puts the family before the order; the family is the head of the order, so the order decides. */
  function Newest(cs: seq<Candidate>): (m: Candidate)
    requires cs != []
    ensures m in cs
    ensures forall c :: c in cs ==> !OrderLess(OrderOf(m), OrderOf(c))
  {
    var orders := seq(|cs|, i requires 0 <= i < |cs| => OrderOf(cs[i]));
    var m := FirstGreatest(orders);
    assert forall c :: c in cs ==> !OrderLess(orders[m], OrderOf(c)) by {
      forall c | c in cs ensures !OrderLess(orders[m], OrderOf(c)) {
        var i :| 0 <= i < |cs| && cs[i] == c;
        assert orders[i] == OrderOf(c);
      }
    }
    cs[m]
  }

  datatype Selection = Invalid | NoBase | Base(candidate: Candidate)

  function SelectPrevious(tag: string, channel: Channel, cs: seq<Candidate>): Selection {
    match ParseReleaseTag(tag, channel)
    case None => Invalid
    case Some(current) =>
      ParsedOrder(tag, channel);
      SelectFrom(cs, current, ReleaseOrder(current).value)
  }

  function SelectFrom(cs: seq<Candidate>, current: Info, order: Order): Selection {
    var family, stables := SameFamily(cs, current, order), PreviousStables(cs, order);
    if family != [] then Base(Newest(family))
    else if current.channel == Testing || stables == [] then NoBase
    else Base(Newest(stables))
  }

  /**
   The base is the newest of the earlier releases of the current line its channel allows; failing that, for a
   stable or edge release, the newest stable release of an earlier line. There is none exactly when neither exists.
   */
  lemma SelectionIsNewest(cs: seq<Candidate>, current: Info, order: Order, c: Candidate)
    requires c in cs
    ensures var r := SelectFrom(cs, current, order);
            && r != Invalid
            && (InFamily(c, current, order) ==>
                  r.Base? && InFamily(r.candidate, current, order) && !OrderLess(OrderOf(r.candidate), OrderOf(c)))
            && (EarlierStable(c, order) && current.channel != Testing ==> r.Base?)
            && (EarlierStable(c, order) && r.Base? && !InFamily(r.candidate, current, order) ==>
                  EarlierStable(r.candidate, order) && !OrderLess(OrderOf(r.candidate), OrderOf(c)))
            && (r.Base? ==> r.candidate in cs)
            && (r.Base? && !InFamily(r.candidate, current, order) ==>
                  current.channel != Testing && EarlierStable(r.candidate, order))
  {
    FilterMembers(cs, (c: Candidate) => InFamily(c, current, order));
    FilterMembers(cs, (c: Candidate) => EarlierStable(c, order));
  }

  lemma SelectionIsMember(cs: seq<Candidate>, current: Info, order: Order)
    requires SelectFrom(cs, current, order).Base?
    ensures SelectFrom(cs, current, order).candidate in cs
  {
    FilterMembers(cs, (c: Candidate) => InFamily(c, current, order));
    FilterMembers(cs, (c: Candidate) => EarlierStable(c, order));
  }

  lemma FamilyLessIsLess(a: Order, b: Order)
    ensures FamilyLess(a, b) ==> OrderLess(a, b)
  {
  }

  /** Every base is strictly older than the release it is the base of. */
  lemma BaseIsOlder(tag: string, channel: Channel, cs: seq<Candidate>)
    requires AllCandidates(cs) && SelectPrevious(tag, channel, cs).Base?
    ensures var c := SelectPrevious(tag, channel, cs).candidate;
            && c in cs && IsCandidate(c) && c.onSourceLine && c.ancestor && Below(c.tag, tag)
  {
    ParsedOrder(tag, channel);
    var current := ParseReleaseTag(tag, channel).value;
    var order := ReleaseOrder(current).value;
    var c := SelectPrevious(tag, channel, cs).candidate;
    SelectionIsMember(cs, current, order);
    SelectionIsNewest(cs, current, order, c);
    FamilyLessIsLess(OrderOf(c), order);
    CandidateOrder(c);
  }

  /**
   The chain of bases from a tag on, whatever candidates each step sees. That this function terminates is that
   every such chain is finite: the order strictly descends.
   */
  function NotesChain(tag: string, channel: Channel, candidates: string -> seq<Candidate>): (chain: seq<string>)
    requires forall t :: AllCandidates(candidates(t))
    ensures chain != [] && chain[0] == tag
    decreases if Shape(tag).Some? then Shape(tag).value.major else 0,
              if Shape(tag).Some? then Shape(tag).value.minor else 0,
              if Shape(tag).Some? then Shape(tag).value.patch else 0,
              if Shape(tag).Some? then RankOf(Shape(tag).value.stage) else 0,
              if Shape(tag).Some? then Shape(tag).value.seqNo else 0
  {
    var r := SelectPrevious(tag, channel, candidates(tag));
    if r.Base? then
      BaseIsOlder(tag, channel, candidates(tag));
      [tag] + NotesChain(r.candidate.tag, r.candidate.primary, candidates)
    else [tag]
  }

  predicate Below(older: string, newer: string) {
    && Shape(older).Some? && Shape(newer).Some?
    && OrderLess(OrderOfTag(Shape(older).value), OrderOfTag(Shape(newer).value))
  }

  lemma BelowTransitive(a: string, b: string, c: string)
    requires Below(a, b) && Below(b, c)
    ensures Below(a, c)
  {
  }

  predicate Descends(chain: seq<string>) {
    forall i, j :: 0 <= i < j < |chain| ==> Below(chain[j], chain[i])
  }

  /** A step down in front of a descending chain. */
  lemma StepDown(tag: string, chain: seq<string>)
    requires chain != [] && Descends(chain) && Below(chain[0], tag)
    ensures Descends([tag] + chain)
  {
    var longer := [tag] + chain;
    forall i, j | 0 <= i < j < |longer|
      ensures Below(longer[j], longer[i])
    {
      if i == 0 && j > 1 {
        BelowTransitive(chain[j - 1], chain[0], tag);
      }
    }
  }

  /** Every chain of bases strictly descends, so no tag occurs in it twice. */
  lemma {:induction false} ChainDescends(tag: string, channel: Channel, candidates: string -> seq<Candidate>)
    requires forall t :: AllCandidates(candidates(t))
    ensures Descends(NotesChain(tag, channel, candidates))
    decreases |NotesChain(tag, channel, candidates)|
  {
    var r := SelectPrevious(tag, channel, candidates(tag));
    if r.Base? {
      BaseIsOlder(tag, channel, candidates(tag));
      ChainDescends(r.candidate.tag, r.candidate.primary, candidates);
      StepDown(tag, NotesChain(r.candidate.tag, r.candidate.primary, candidates));
    }
  }

  lemma DescendingIsDistinct(chain: seq<string>, i: nat, j: nat)
    requires Descends(chain) && i < j < |chain|
    ensures chain[i] != chain[j]
  {
    assert Below(chain[j], chain[i]);
  }
}
