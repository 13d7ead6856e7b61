/**
 What the planner reads from a version text (scripts/reconcile-plan.py, `family_of`, `version_key` and the label
 check): families and keys of texts, and exactly which boots are quarantined.
 */
module PlanTexts {
  import opened Numerals
  import opened PlanProperties
  import opened ReconcilePlan
  import opened Text
  import PkgVersion

  // ----- blanks around -----

  predicate Blank(s: string) {
    forall i :: 0 <= i < |s| ==> IsSpace(s[i])
  }

  predicate Trimmed(s: string) {
    s != "" ==> !IsSpace(s[0]) && !IsSpace(s[|s| - 1])
  }

  lemma {:induction false} StripLeftIs(l: string, rest: string)
    requires Blank(l) && (rest != "" ==> !IsSpace(rest[0]))
    ensures StripLeft(l + rest) == rest
    decreases |l|
  {
    if l == "" {
      assert l + rest == rest;
    } else {
      assert (l + rest)[1..] == l[1..] + rest;
      StripLeftIs(l[1..], rest);
    }
  }

  lemma {:induction false} StripRightIs(core: string, r: string)
    requires Blank(r) && (core != "" ==> !IsSpace(core[|core| - 1]))
    ensures StripRight(core + r) == core
    decreases |r|
  {
    if r == "" {
      assert core + r == core;
    } else {
      assert (core + r)[..|core + r| - 1] == core + r[..|r| - 1];
      StripRightIs(core, r[..|r| - 1]);
    }
  }

  lemma StripIs(l: string, core: string, r: string)
    requires Blank(l) && Blank(r) && Trimmed(core)
    ensures Strip(l + core + r) == core
  {
    if core == "" {
      assert l + core + r == (l + r) + "" && Blank(l + r);
      StripLeftIs(l + r, "");
    } else {
      assert l + core + r == l + (core + r);
      StripLeftIs(l, core + r);
      StripRightIs(core, r);
    }
  }

  lemma {:induction false} StripLeftReads(s: string) returns (l: string)
    ensures s == l + StripLeft(s) && Blank(l) && (StripLeft(s) != "" ==> !IsSpace(StripLeft(s)[0]))
    decreases |s|
  {
    if s != "" && IsSpace(s[0]) {
      var rest := StripLeftReads(s[1..]);
      l := [s[0]] + rest;
      assert s == [s[0]] + s[1..];
    } else {
      l := "";
    }
  }

  lemma {:induction false} StripRightReads(s: string) returns (r: string)
    ensures s == StripRight(s) + r && Blank(r)
    ensures StripRight(s) != "" ==> !IsSpace(StripRight(s)[|StripRight(s)| - 1])
    ensures StripRight(s) != "" ==> s != "" && StripRight(s)[0] == s[0]
    decreases |s|
  {
    if s != "" && IsSpace(s[|s| - 1]) {
      var rest := StripRightReads(s[..|s| - 1]);
      r := rest + [s[|s| - 1]];
      assert s == s[..|s| - 1] + [s[|s| - 1]];
    } else {
      r := "";
    }
  }

  lemma StripReads(s: string) returns (l: string, r: string)
    ensures s == l + Strip(s) + r && Blank(l) && Blank(r) && Trimmed(Strip(s))
  {
    l := StripLeftReads(s);
    r := StripRightReads(StripLeft(s));
  }

  // ----- the family of a text -----

  predicate FreeOf(s: string, chars: string) {
    forall i :: 0 <= i < |s| ==> s[i] !in chars
  }

  /** At least two dotted components in front of the first dash. */
  predicate TwoParts(core: string, a: string, b: string, rest: string) {
    && FreeOf(a, ".-") && FreeOf(b, ".-") && (rest == "" || rest[0] in ".-")
    && core == a + ("." + (b + rest))
  }

  /** One component in front of the first dash, or of the end. */
  predicate OnePart(core: string, a: string, rest: string) {
    FreeOf(a, ".-") && (rest == "" || rest[0] == '-') && core == a + rest
  }

  lemma {:induction false} FindSkips(a: string, rest: string, chars: string)
    requires FreeOf(a, chars)
    ensures Find(a + rest, chars) == |a| + Find(rest, chars)
    decreases |a|
  {
    if a == "" {
      assert a + rest == rest;
    } else {
      assert (a + rest)[1..] == a[1..] + rest;
      FindSkips(a[1..], rest, chars);
    }
  }

  lemma HeadOfTwo(core: string, a: string, b: string, rest: string)
    requires TwoParts(core, a, b, rest)
    ensures core[..Find(core, "-")] == a + ("." + (b + rest[..Find(rest, "-")]))
  {
    var front := a + ("." + b);
    assert FreeOf(front, "-") by {
      forall i | 0 <= i < |front|
        ensures front[i] !in "-"
      {
        assert i < |a| ==> a[i] !in ".-";
        assert i > |a| ==> b[i - |a| - 1] !in ".-";
      }
    }
    assert core == front + rest;
    FindSkips(front, rest, "-");
  }

  lemma FamilyOfTwo(version: string, core: string, a: string, b: string, rest: string)
    requires Strip(version) == core && TwoParts(core, a, b, rest)
    ensures FamilyOf(version) == a + "." + b
  {
    hide Split, Find;
    var pre := rest[..Find(rest, "-")];
    HeadOfTwo(core, a, b, rest);
    SplitFirst(a, '.', b + pre, ".");
    if pre == "" {
      SplitLast(b, ".");
      assert b + pre == b;
    } else {
      assert pre[0] == rest[0] && rest[0] != '-';
      assert pre == [pre[0]] + pre[1..];
      SplitFirst(b, '.', pre[1..], ".");
    }
    assert Split(a + ("." + (b + pre)), ".")[1] == b;
  }

  lemma FamilyOfOne(version: string, core: string, a: string, rest: string)
    requires Strip(version) == core && OnePart(core, a, rest)
    ensures FamilyOf(version) == core
  {
    hide Split;
    FindSkips(a, rest, "-");
    assert core[..|a|] == a;
    SplitLast(a, ".");
  }

  /** Every text has a family of one kind. */
  lemma CoreReads(core: string) returns (two: bool, a: string, b: string, rest: string)
    ensures two ==> TwoParts(core, a, b, rest)
    ensures !two ==> OnePart(core, a, rest)
  {
    hide FreeOf;
    b := "";
    a, rest := PartReads(core);
    two := rest != "" && rest[0] == '.';
    if two {
      var tail := rest[1..];
      assert rest == "." + tail;
      b, rest := PartReads(tail);
    }
  }

  lemma PartReads(s: string) returns (a: string, rest: string)
    ensures s == a + rest && FreeOf(a, ".-") && (rest == "" || rest[0] == '.' || rest[0] == '-')
  {
    var i := Find(s, ".-");
    a, rest := s[..i], s[i..];
  }

  /** The family a trimmed version text names: major and minor, or the whole text when it has no minor. */
  ghost predicate NamesFamily(core: string, family: string) {
    || (exists a, b, rest :: TwoParts(core, a, b, rest) && family == a + "." + b)
    || (exists a, rest :: OnePart(core, a, rest) && family == core)
  }

  lemma FamilyExactly(version: string, family: string)
    ensures FamilyOf(version) == family <==> NamesFamily(Strip(version), family)
  {
    hide FamilyOf;
    var core := Strip(version);
    forall a, b, rest | TwoParts(core, a, b, rest)
      ensures FamilyOf(version) == a + "." + b
    {
      FamilyOfTwo(version, core, a, b, rest);
    }
    forall a, rest | OnePart(core, a, rest)
      ensures FamilyOf(version) == core
    {
      FamilyOfOne(version, core, a, rest);
    }
    var two, a, b, rest := CoreReads(core);
    assert if two then TwoParts(core, a, b, rest) else OnePart(core, a, rest);
  }

  // ----- which boots are quarantined -----

  /** The booted version names a family, and it is not the one the image claims. */
  ghost predicate WrongLabel(version: string, family: string) {
    exists l, core, r ::
      && version == l + core + r && Blank(l) && Blank(r) && Trimmed(core) && core != "" && !NamesFamily(core, family)
  }

  lemma MislabeledExactly(boot: Boot)
    ensures IsMislabeled(boot) <==> WrongLabel(boot.etcVersion, boot.family)
  {
    hide FamilyOf, NamesFamily, Strip;
    var l, r := StripReads(boot.etcVersion);
    var core := Strip(boot.etcVersion);
    StripIs("", core, "");
    assert "" + core + "" == core;
    FamilyExactly(core, boot.family);
    forall l', core', r' | boot.etcVersion == l' + core' + r' && Blank(l') && Blank(r') && Trimmed(core')
      ensures core' == core
    {
      StripIs(l', core', r');
    }
  }

  /**
   A boot whose version is a.b and anything behind a further dot or dash, blanks around it included, is quarantined
   exactly when its family is not a.b; with one component exactly when its family is not the whole text; with none
   never.
   */
  lemma QuarantinedExactly(boot: Boot, l: string, core: string, r: string, a: string, b: string, rest: string)
    requires boot.etcVersion == l + core + r && Blank(l) && Blank(r) && Trimmed(core)
    ensures core != "" && TwoParts(core, a, b, rest) ==> (IsMislabeled(boot) <==> boot.family != a + "." + b)
    ensures core != "" && OnePart(core, a, rest) ==> (IsMislabeled(boot) <==> boot.family != core)
    ensures core == "" ==> !IsMislabeled(boot)
  {
    hide FamilyOf, Strip;
    StripIs(l, core, r);
    StripIs("", core, "");
    assert "" + core + "" == core;
    if TwoParts(core, a, b, rest) {
      FamilyOfTwo(core, core, a, b, rest);
    }
    if OnePart(core, a, rest) {
      FamilyOfOne(core, core, a, rest);
    }
  }

  /** In the plan the error of a family is there exactly when a boot that claims it booted another family. */
  lemma ErrorsExactly(channel: string, matrix: seq<Entry>, published: PublishedTags, boots: seq<Boot>, f: string)
    ensures HasKey(PlanOf(channel, matrix, published, boots), MislabeledKind, f) <==>
              exists i :: 0 <= i < |boots| && boots[i].family == f && WrongLabel(boots[i].etcVersion, f)
  {
    hide IsMislabeled, WrongLabel, PlanOf, HasKey;
    PlanIsExact(channel, matrix, published, boots, MislabeledKind, f);
    var entries := EntriesOf(channel, matrix);
    forall i | 0 <= i < |boots|
      ensures BootHas(boots[i], entries, MislabeledKind, f) <==>
                boots[i].family == f && WrongLabel(boots[i].etcVersion, f)
    {
      MislabeledExactly(boots[i]);
    }
    BranchesNoError(AllBranches(boots), entries, published, f);
  }

  lemma BranchesNoError(branches: seq<Branch>, entries: seq<Entry>, published: PublishedTags, f: string)
    ensures !SomeBranchHas(branches, entries, published, MislabeledKind, f)
    ensures KindOf(FirstBuild(f, branches, NewestPublished(entries, published))) != MislabeledKind
  {
  }

  // ----- the key of a text -----

  lemma {:induction false} KeyOfPartsAt(parts: seq<string>, i: nat)
    requires i < |parts|
    ensures KeyOfParts(parts)[i] == LeadingNumber(parts[i])
    decreases |parts|
  {
    if i < |parts| - 1 {
      KeyOfPartsAt(parts[..|parts| - 1], i);
    }
  }

  predicate Dotless(parts: seq<string>) {
    forall i :: 0 <= i < |parts| ==> FreeOf(parts[i], ".-")
  }

  lemma {:induction false} SplitJoin(parts: seq<string>)
    requires parts != [] && Dotless(parts)
    ensures Split(Join(parts, '.'), ".") == parts && FreeOf(Join(parts, '.'), "-")
    decreases |parts|
  {
    hide Split;
    assert FreeOf(parts[0], ".-");
    if |parts| == 1 {
      SplitLast(parts[0], ".");
    } else {
      assert Dotless(parts[1..]) by {
        assert forall i :: 0 <= i < |parts[1..]| ==> parts[1..][i] == parts[i + 1];
      }
      SplitJoin(parts[1..]);
      SplitFirst(parts[0], '.', Join(parts[1..], '.'), ".");
      JoinFree(parts[0], Join(parts[1..], '.'));
      assert [parts[0]] + parts[1..] == parts;
    }
  }

  lemma JoinFree(a: string, b: string)
    requires FreeOf(a, "-") && FreeOf(b, "-")
    ensures FreeOf(a + (['.'] + b), "-")
  {
    var s := a + (['.'] + b);
    forall i | 0 <= i < |s|
      ensures s[i] !in "-"
    {
      assert i < |a| ==> s[i] == a[i];
      assert i > |a| ==> s[i] == b[i - |a| - 1];
    }
  }

  /** The key of a version is the number each component in front of the dash starts with, 0 where there is none. */
  lemma KeyOfText(l: string, parts: seq<string>, rest: string, r: string, i: nat)
    requires Blank(l) && Blank(r) && parts != [] && Dotless(parts) && (rest == "" || rest[0] == '-')
    requires Trimmed(Join(parts, '.') + rest) && i < |parts|
    ensures |KeyOf(l + (Join(parts, '.') + rest) + r)| == |parts|
    ensures KeyOf(l + (Join(parts, '.') + rest) + r)[i] == LeadingNumber(parts[i])
  {
    hide Split, Strip, KeyOfParts, LeadingNumber;
    var core := Join(parts, '.') + rest;
    StripIs(l, core, r);
    SplitJoin(parts);
    FindSkips(Join(parts, '.'), rest, "-");
    assert core[..|Join(parts, '.')|] == Join(parts, '.');
    KeyOfPartsAt(parts, i);
  }

  lemma LeadingNumberIs(digits: string, tail: string)
    requires AllDigits(digits) && (tail == "" || !IsDigit(tail[0]))
    ensures LeadingNumber(digits + tail) == Number(digits)
  {
    DigitRunIs(digits, tail);
    assert (digits + tail)[..|digits|] == digits;
  }

  // ----- pre-releases -----

  predicate MarkedAt(text: string, marker: string, i: nat) {
    i <= |text| && marker <= text[i..]
  }

  lemma {:induction false} HasMarkerIs(text: string, marker: string)
    ensures HasMarker(text, marker) <==> exists i: nat :: MarkedAt(text, marker, i)
    decreases |text|
  {
    assert text[0..] == text;
    assert MarkedAt(text, marker, 0) <==> marker <= text;
    if text != "" {
      HasMarkerIs(text[1..], marker);
      forall i: nat
        ensures MarkedAt(text[1..], marker, i) <==> MarkedAt(text, marker, i + 1)
      {
        assert i <= |text[1..]| ==> text[1..][i..] == text[i + 1..];
      }
      forall i: nat | MarkedAt(text, marker, i) && i > 0
        ensures MarkedAt(text[1..], marker, i - 1)
      {
      }
    }
  }

  ghost predicate Contains(text: string, word: string) {
    exists i: nat :: MarkedAt(text, word, i)
  }

  /** A version is a pre-release exactly when one of the four words is in it, in any case. */
  lemma PrereleaseExactly(version: string)
    ensures var v := PkgVersion.Lower(version);
            IsPrerelease(version) <==>
              Contains(v, "beta") || Contains(v, "alpha") || Contains(v, "rc") || Contains(v, "devel")
  {
    hide MarkedAt, HasMarker;
    var v := PkgVersion.Lower(version);
    HasMarkerIs(v, "beta");
    HasMarkerIs(v, "alpha");
    HasMarkerIs(v, "rc");
    HasMarkerIs(v, "devel");
  }
}
