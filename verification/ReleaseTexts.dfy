/**
 Release tags as they are written (scripts/release_version.py): which texts are tags, what each says on which channel,
 and the choice of the previous release by the numbers written.
 */
module ReleaseTexts {
  import opened Common
  import opened Numerals
  import opened ReleaseTags

  // ----- the text of a tag -----

  /** v4.2.0 for a final; v4.2.0.a1, v4.2.0.b1 and v4.2.0.r1 for an alpha, a beta and a release candidate. */
  function Written(t: Tag): string {
    "v" + Decimal(t.major) + "." + Decimal(t.minor) + "." + Decimal(t.patch) +
    match t.stage
    case Final => ""
    case Alpha => ".a" + Decimal(t.seqNo)
    case Beta => ".b" + Decimal(t.seqNo)
    case Rc => ".r" + Decimal(t.seqNo)
  }

  lemma WrittenIs(t: Tag)
    requires IsTag(t)
    ensures Written(t) == "v" + PkgVersionOf(t)
  {
    hide Decimal;
    var a, b, c, d := Decimal(t.major), Decimal(t.minor), Decimal(t.patch), Decimal(t.seqNo);
    PutTogether(a, b, c, "");
    assert a + ("." + (b + ("." + (c + "")))) == a + ("." + (b + ("." + c)));
    if t.stage != Final {
      var e := [LetterOf(t.stage)];
      PutTogether(a, b, c, ("." + e) + d);
      assert c + (("." + e) + d) == c + ("." + (e + d));
    }
  }

  lemma PutTogether(a: string, b: string, c: string, d: string)
    ensures "v" + a + "." + b + "." + c + d == "v" + (a + ("." + (b + ("." + (c + d)))))
  {
  }

  /** The accepted texts are exactly the written tags of at most 128 characters. */
  lemma AcceptedAreTheTags(tag: string)
    ensures Shape(tag).Some? <==> exists t :: IsTag(t) && tag == Written(t) && |tag| <= 128
  {
    hide Shape, Written, PkgVersionOf;
    if Shape(tag).Some? {
      ShapeIsCanonical(tag);
      ShapeIsShort(tag);
      WrittenIs(Shape(tag).value);
      assert IsTag(Shape(tag).value) && tag == Written(Shape(tag).value);
    }
    forall t | IsTag(t) && tag == Written(t) && |tag| <= 128
      ensures Shape(tag).Some?
    {
      WrittenIs(t);
      PrintedTagReads(t);
    }
  }

  lemma ShapeIsShort(tag: string)
    requires Shape(tag).Some?
    ensures |tag| <= 128
  {
  }

  // ----- what a tag says -----

  /** The channel of a tag: stable for a final, edge for a preview of patch 0, testing for any other preview. */
  predicate BelongsTo(t: Tag, channel: Channel) {
    match channel
    case Stable => t.stage == Final
    case Edge => t.stage != Final && t.patch == 0
    case Testing => t.stage != Final && t.patch > 0
  }

  /** Parsing a tag succeeds on exactly its own channel and gives its parts as text. */
  lemma ParsesOnItsChannel(t: Tag, channel: Channel)
    requires IsTag(t) && |Written(t)| <= 128
    ensures var line := Decimal(t.major) + ("." + Decimal(t.minor));
            var core := Decimal(t.major) + ("." + (Decimal(t.minor) + ("." + Decimal(t.patch))));
            var preview := if t.stage == Final then None else Some(Decimal(t.seqNo));
            ParseReleaseTag(Written(t), channel) ==
              if BelongsTo(t, channel)
              then Some(Info(Written(t), t.stage, preview, core, "release/" + line, channel, Written(t)[1..]))
              else None
  {
    hide Shape, Decimal, Written, PkgVersionOf;
    WrittenIs(t);
    PrintedTagReads(t);
    assert ("v" + PkgVersionOf(t))[1..] == PkgVersionOf(t);
  }

  // ----- the previous release by the numbers -----

  predicate StageBefore(a: Stage, b: Stage) {
    match a
    case Alpha => b != Alpha
    case Beta => b == Rc || b == Final
    case Rc => b == Final
    case Final => false
  }

  /** Major, minor and patch, then alpha, beta, release candidate and final, then the sequence. */
  predicate Before(a: Tag, b: Tag) {
    || a.major < b.major
    || (a.major == b.major && a.minor < b.minor)
    || (a.major == b.major && a.minor == b.minor && a.patch < b.patch)
    || (a.major == b.major && a.minor == b.minor && a.patch == b.patch && StageBefore(a.stage, b.stage))
    || (a.major == b.major && a.minor == b.minor && a.patch == b.patch && a.stage == b.stage && a.seqNo < b.seqNo)
  }

  lemma BeforeIs(a: Tag, b: Tag)
    ensures Before(a, b) <==> OrderLess(OrderOfTag(a), OrderOfTag(b))
  {
  }

  /** The candidate is the written tag, on the branch of the release and an ancestor of it. */
  predicate Stands(c: Candidate, u: Tag) {
    IsTag(u) && c.tag == Written(u) && c.onSourceLine && c.ancestor
  }

  /** An earlier release of the same major and minor: a final, or for a preview one of the same channel. */
  predicate SameLine(u: Tag, t: Tag) {
    && u.major == t.major && u.minor == t.minor && Before(u, t)
    && (u.stage == Final || (t.stage != Final && (u.patch == 0 <==> t.patch == 0)))
  }

  /** A final of an earlier major or minor, for anything but a testing preview. */
  predicate EarlierLine(u: Tag, t: Tag) {
    && u.stage == Final && (t.stage == Final || t.patch == 0)
    && (u.major < t.major || (u.major == t.major && u.minor < t.minor))
  }

  ghost predicate HasSameLine(cs: seq<Candidate>, t: Tag) {
    exists c, u :: c in cs && Stands(c, u) && SameLine(u, t)
  }

  lemma LinesDiffer(a: Tag, b: Tag)
    requires Decimal(a.major) + ("." + Decimal(a.minor)) == Decimal(b.major) + ("." + Decimal(b.minor))
    ensures a.major == b.major && a.minor == b.minor
  {
    hide Decimal;
    NoDots(a.major);
    NoDots(a.minor);
    NoDots(b.major);
    NoDots(b.minor);
    TwoOf(Decimal(a.major), Decimal(a.minor));
    TwoOf(Decimal(b.major), Decimal(b.minor));
    assert [Decimal(a.major), Decimal(a.minor)][1] == Decimal(a.minor);
  }

  lemma TwoOf(a: string, b: string)
    requires Free(a, ".") && Free(b, ".")
    ensures Split(a + ("." + b), ".") == [a, b]
  {
    SplitFirst(a, '.', b, ".");
    SplitLast(b, ".");
  }

  /** What the strings of a candidate say, by its numbers. */
  lemma ReadCandidate(c: Candidate) returns (u: Tag)
    requires IsCandidate(c)
    ensures IsTag(u) && c.tag == Written(u) && |c.tag| <= 128 && Shape(c.tag) == Some(u)
    ensures BelongsTo(u, c.primary) && OrderOf(c) == OrderOfTag(u)
    ensures c.info.releaseLine == "release/" + (Decimal(u.major) + ("." + Decimal(u.minor)))
  {
    hide Shape, Decimal, Written, PkgVersionOf, OrderOf;
    u := Shape(c.tag).value;
    ShapeIsCanonical(c.tag);
    WrittenIs(u);
    ShapeIsShort(c.tag);
    ParsesOnItsChannel(u, c.primary);
    CandidateOrder(c);
  }

  lemma ReadCurrent(t: Tag, channel: Channel)
    requires IsTag(t) && |Written(t)| <= 128 && BelongsTo(t, channel)
    ensures ParseReleaseTag(Written(t), channel).Some? && Shape(Written(t)) == Some(t)
    ensures var current := ParseReleaseTag(Written(t), channel).value;
            && current.tag == Written(t) && current.channel == channel && ReleaseOrder(current) == Some(OrderOfTag(t))
            && current.releaseLine == "release/" + (Decimal(t.major) + ("." + Decimal(t.minor)))
  {
    hide Shape, Decimal, Written, PkgVersionOf, ReleaseOrder;
    WrittenIs(t);
    PrintedTagReads(t);
    ParsesOnItsChannel(t, channel);
    ParsedOrder(Written(t), channel);
  }

  lemma ChoiceByNumbers(c: Candidate, u: Tag, t: Tag, channel: Channel)
    requires IsCandidate(c) && Stands(c, u)
    requires IsTag(t) && |Written(t)| <= 128 && BelongsTo(t, channel)
    ensures ParseReleaseTag(Written(t), channel).Some?
    ensures var current := ParseReleaseTag(Written(t), channel).value;
            && (InFamily(c, current, OrderOfTag(t)) <==> SameLine(u, t))
            && (EarlierStable(c, OrderOfTag(t)) && channel != Testing <==> EarlierLine(u, t))
            && OrderOf(c) == OrderOfTag(u)
  {
    hide Shape, Decimal, Written, PkgVersionOf, OrderOf, ReleaseOrder, IsCandidate, ParseReleaseTag, Before, OrderLess;
    var v := ReadCandidate(c);
    ReadCurrent(t, channel);
    WrittenIs(u);
    PrintedTagReads(u);
    SameReleaseLine(u, t);
    BeforeIs(u, t);
    NotBeforeItself(u);
  }

  lemma NotBeforeItself(t: Tag)
    ensures !Before(t, t)
  {
  }

  lemma SameReleaseLine(u: Tag, t: Tag)
    ensures "release/" + (Decimal(u.major) + ("." + Decimal(u.minor)))
            == "release/" + (Decimal(t.major) + ("." + Decimal(t.minor)))
            <==> u.major == t.major && u.minor == t.minor
  {
    hide Decimal;
    var a, b := Decimal(u.major) + ("." + Decimal(u.minor)), Decimal(t.major) + ("." + Decimal(t.minor));
    assert ("release/" + a)[8..] == a && ("release/" + b)[8..] == b;
    if a == b {
      LinesDiffer(u, t);
    }
  }

  lemma ChosenByNumbers(t: Tag, channel: Channel, cs: seq<Candidate>) returns (v: Tag)
    requires IsTag(t) && |Written(t)| <= 128 && BelongsTo(t, channel) && AllCandidates(cs)
    ensures var r := SelectPrevious(Written(t), channel, cs);
            && r != Invalid
            && (r.Base? ==>
                  && r.candidate in cs && Stands(r.candidate, v) && IsCandidate(r.candidate)
                  && (SameLine(v, t) || (EarlierLine(v, t) && !HasSameLine(cs, t))))
  {
    hide Shape, Decimal, Written, OrderOf, ReleaseOrder, IsCandidate, ParseReleaseTag, Before, SelectFrom, SameLine,
      EarlierLine, HasSameLine, InFamily, EarlierStable;
    ReadCurrent(t, channel);
    var r := SelectPrevious(Written(t), channel, cs);
    var current := ParseReleaseTag(Written(t), channel).value;
    NeverInvalid(cs, current, OrderOfTag(t));
    v := t;
    if r.Base? {
      SelectionIsMember(cs, current, OrderOfTag(t));
      SelectionIsNewest(cs, current, OrderOfTag(t), r.candidate);
      v := ReadCandidate(r.candidate);
      OnTheBranch(r.candidate, current, OrderOfTag(t));
      ChoiceByNumbers(r.candidate, v, t, channel);
      if HasSameLine(cs, t) {
        var c, u := WithSameLine(cs, t);
        ChoiceByNumbers(c, u, t, channel);
        SelectionIsNewest(cs, current, OrderOfTag(t), c);
      }
    }
  }

  lemma NeverInvalid(cs: seq<Candidate>, current: Info, order: Order)
    ensures SelectFrom(cs, current, order) != Invalid
  {
  }

  lemma OnTheBranch(c: Candidate, current: Info, order: Order)
    requires InFamily(c, current, order) || EarlierStable(c, order)
    ensures c.onSourceLine && c.ancestor
  {
  }

  lemma WithSameLine(cs: seq<Candidate>, t: Tag) returns (c: Candidate, u: Tag)
    requires HasSameLine(cs, t) && AllCandidates(cs)
    ensures c in cs && Stands(c, u) && SameLine(u, t) && IsCandidate(c)
  {
    hide Stands, SameLine, IsCandidate;
    c, u :| c in cs && Stands(c, u) && SameLine(u, t);
  }

  lemma NoneIsNewer(t: Tag, channel: Channel, cs: seq<Candidate>, v: Tag, c: Candidate, u: Tag)
    requires IsTag(t) && |Written(t)| <= 128 && BelongsTo(t, channel) && AllCandidates(cs)
    requires var r := SelectPrevious(Written(t), channel, cs);
             r.Base? ==> Stands(r.candidate, v) && IsCandidate(r.candidate)
    requires c in cs && IsCandidate(c) && Stands(c, u)
    requires SameLine(u, t) || (EarlierLine(u, t) && !HasSameLine(cs, t))
    ensures SelectPrevious(Written(t), channel, cs).Base?
    ensures SameLine(u, t) ==> SameLine(v, t)
    ensures !Before(v, u)
  {
    hide Shape, Decimal, Written, OrderOf, ReleaseOrder, IsCandidate, ParseReleaseTag, Before, SelectFrom, SameLine,
      EarlierLine, InFamily, EarlierStable, OrderLess;
    ReadCurrent(t, channel);
    var r := SelectPrevious(Written(t), channel, cs);
    SelectionIsNewest(cs, ParseReleaseTag(Written(t), channel).value, OrderOfTag(t), c);
    ChoiceByNumbers(c, u, t, channel);
    if r.Base? {
      SelectionIsMember(cs, ParseReleaseTag(Written(t), channel).value, OrderOfTag(t));
      ChoiceByNumbers(r.candidate, v, t, channel);
      BeforeIs(v, u);
    }
  }

  /**
   The base by the numbers of the tags. It is a release of the same major and minor that the channel may build on,
   none of them being newer; only when there is none, a final of an earlier line, none of them being newer.
   */
  lemma SelectionByNumbers(t: Tag, channel: Channel, cs: seq<Candidate>) returns (v: Tag)
    requires IsTag(t) && |Written(t)| <= 128 && BelongsTo(t, channel) && AllCandidates(cs)
    ensures var r := SelectPrevious(Written(t), channel, cs);
            && r != Invalid
            && (r.Base? ==>
                  && r.candidate in cs && Stands(r.candidate, v)
                  && (SameLine(v, t) || (EarlierLine(v, t) && !HasSameLine(cs, t))))
            && (forall c, u :: c in cs && Stands(c, u) && SameLine(u, t) ==> r.Base? && SameLine(v, t) && !Before(v, u))
            && (forall c, u :: c in cs && Stands(c, u) && EarlierLine(u, t) && !HasSameLine(cs, t) ==>
                  r.Base? && !Before(v, u))
  {
    hide Stands, SameLine, EarlierLine, Before, SelectPrevious, Written, IsCandidate;
    v := ChosenByNumbers(t, channel, cs);
    forall c, u | c in cs && Stands(c, u) && (SameLine(u, t) || (EarlierLine(u, t) && !HasSameLine(cs, t)))
      ensures SelectPrevious(Written(t), channel, cs).Base? && !Before(v, u)
      ensures SameLine(u, t) ==> SameLine(v, t)
    {
      var i :| 0 <= i < |cs| && cs[i] == c;
      NoneIsNewer(t, channel, cs, v, c, u);
    }
  }
}
