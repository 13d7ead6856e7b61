/**
 The rules of the reconcile plan over its raw inputs (scripts/reconcile-plan.py, `plan`): when each type of action is
 planned for a family, and what every planned action says. Boots count only with the right label.
 */
module PlanRules {
  import opened Common
  import opened PlanProperties
  import opened PlanTexts
  import opened ReconcilePlan
  import opened Text

  // ----- the inputs that count -----

  /** Some boot with the right label reported the branch. */
  ghost predicate IsReported(boots: seq<Boot>, br: Branch) {
    exists i :: 0 <= i < |boots| && !WrongLabel(boots[i].etcVersion, boots[i].family) && br in boots[i].branches
  }

  predicate Counts(channel: string, e: Entry) {
    e.channel == channel && e.role != "route-only" && (e.arch == "" || e.arch == "amd64")
  }

  predicate InMatrix(channel: string, matrix: seq<Entry>, f: string) {
    exists i :: 0 <= i < |matrix| && Counts(channel, matrix[i]) && matrix[i].family == f
  }

  predicate BetaInMatrix(channel: string, matrix: seq<Entry>, f: string) {
    exists i :: 0 <= i < |matrix| && Counts(channel, matrix[i]) && matrix[i].family == f && matrix[i].status == "beta"
  }

  predicate HasImage(published: PublishedTags, f: string) {
    f in published && published[f]
  }

  /** A newer stable branch of the boot's own family. */
  predicate BeatsBoot(br: Branch, boot: Boot) {
    && Strip(boot.etcVersion) != "" && br.family == boot.family && br.stable
    && Later(br.version, Strip(boot.etcVersion))
  }

  /** A family a first build may start from: in the matrix without beta status, with an image. */
  predicate IsSource(channel: string, matrix: seq<Entry>, published: PublishedTags, f: string) {
    && HasImage(published, f)
    && exists i :: 0 <= i < |matrix| && Counts(channel, matrix[i]) && matrix[i].family == f
                   && matrix[i].status != "beta"
  }

  // ----- the rules -----

  ghost predicate Updates(boots: seq<Boot>, f: string) {
    exists i :: 0 <= i < |boots| && !WrongLabel(boots[i].etcVersion, boots[i].family) && boots[i].family == f
                && (boots[i].upgradeAvailable || exists br :: br in boots[i].branches && BeatsBoot(br, boots[i]))
  }

  ghost predicate RunsFinal(boots: seq<Boot>, f: string) {
    exists i :: 0 <= i < |boots| && !WrongLabel(boots[i].etcVersion, boots[i].family) && boots[i].family == f
                && Strip(boots[i].etcVersion) != "" && !IsPrerelease(Strip(boots[i].etcVersion))
  }

  ghost predicate HasBranch(boots: seq<Boot>, f: string, stableOnly: bool) {
    exists br :: IsReported(boots, br) && br.family == f && (stableOnly ==> br.stable)
  }

  /** When each type of action is due for a family; `from` is the newest published family, if any. */
  ghost predicate Fires(channel: string, matrix: seq<Entry>, published: PublishedTags, boots: seq<Boot>, from: string,
                        kind: Kind, f: string) {
    var unpublished := InMatrix(channel, matrix, f) && !HasImage(published, f);
    match kind
    case MislabeledKind => exists i :: 0 <= i < |boots| && boots[i].family == f && WrongLabel(boots[i].etcVersion, f)
    case RepublishKind =>
      Updates(boots, f) || (BetaInMatrix(channel, matrix, f) && HasImage(published, f) && HasBranch(boots, f, true))
    case PrAddKind => HasBranch(boots, f, false) && !InMatrix(channel, matrix, f)
    case GaFlipKind => BetaInMatrix(channel, matrix, f) && (RunsFinal(boots, f) || HasBranch(boots, f, true))
    case WarnKind => unpublished && !(HasBranch(boots, f, false) && from != "")
    case PublishNewKind => unpublished && HasBranch(boots, f, false) && from != ""
  }

  // ----- the inputs as the plan sees them -----

  lemma EntryCounts(channel: string, matrix: seq<Entry>)
    ensures forall e :: e in EntriesOf(channel, matrix) <==> e in matrix && Counts(channel, e)
  {
    FilterMembers(matrix, (e: Entry) => e.channel == channel && e.role != "route-only"
                                        && (e.arch == "" || e.arch == "amd64"));
  }

  lemma SameRows(entries: seq<Entry>, channel: string, matrix: seq<Entry>, f: string)
    requires forall e :: e in entries <==> e in matrix && Counts(channel, e)
    ensures Carries(entries, f) <==> InMatrix(channel, matrix, f)
    ensures IsBeta(entries, f) <==> BetaInMatrix(channel, matrix, f)
  {
    hide Counts;
    assert forall i :: 0 <= i < |entries| ==> entries[i] in entries;
    assert forall k :: 0 <= k < |matrix| ==> matrix[k] in matrix;
  }

  lemma EntriesAre(channel: string, matrix: seq<Entry>, f: string)
    ensures Carries(EntriesOf(channel, matrix), f) <==> InMatrix(channel, matrix, f)
    ensures IsBeta(EntriesOf(channel, matrix), f) <==> BetaInMatrix(channel, matrix, f)
  {
    hide *;
    EntryCounts(channel, matrix);
    SameRows(EntriesOf(channel, matrix), channel, matrix, f);
  }

  lemma SourcesAre(channel: string, matrix: seq<Entry>, published: PublishedTags, f: string)
    ensures Carries(PublishedStable(EntriesOf(channel, matrix), published), f) <==>
              IsSource(channel, matrix, published, f)
  {
    hide Counts, EntriesOf;
    var entries := EntriesOf(channel, matrix);
    var sources := PublishedStable(entries, published);
    EntryCounts(channel, matrix);
    FilterMembers(entries, (e: Entry) => e.status != "beta" && IsPublished(published, e.family));
    assert forall i :: 0 <= i < |sources| ==> sources[i] in sources;
    assert forall k :: 0 <= k < |matrix| ==> matrix[k] in matrix;
  }

  /** First builds start from the newest source, and from none exactly when there is none. */
  lemma NewestImage(channel: string, matrix: seq<Entry>, published: PublishedTags)
    ensures var from := NewestPublished(EntriesOf(channel, matrix), published);
            && ((forall f :: !IsSource(channel, matrix, published, f)) ==> from == "")
            && (forall f :: IsSource(channel, matrix, published, f) ==>
                  IsSource(channel, matrix, published, from) && !Later(f, from))
  {
    hide IsSource, EntriesOf, PublishedStable, Later;
    var sources := PublishedStable(EntriesOf(channel, matrix), published);
    NewestIsGreatest(sources);
    NewestIsCarried(sources);
    SourcesAre(channel, matrix, published, NewestOf(sources));
    forall f
      ensures Carries(sources, f) <==> IsSource(channel, matrix, published, f)
    {
      SourcesAre(channel, matrix, published, f);
    }
    assert forall i :: 0 <= i < |sources| ==> Carries(sources, sources[i].family);
  }

  lemma {:induction false} BranchesAre(boots: seq<Boot>, br: Branch)
    ensures br in AllBranches(boots) <==> IsReported(boots, br)
    decreases |boots|
  {
    hide IsMislabeled, WrongLabel;
    if boots != [] {
      var front, last := boots[..|boots| - 1], boots[|boots| - 1];
      BranchesAre(front, br);
      MislabeledExactly(last);
      LastReported(front, last, br);
      assert boots == front + [last];
    }
  }

  lemma LastReported(front: seq<Boot>, last: Boot, br: Branch)
    ensures IsReported(front + [last], br) <==>
              IsReported(front, br) || (!WrongLabel(last.etcVersion, last.family) && br in last.branches)
  {
    hide WrongLabel;
    var all := front + [last];
    assert all[|front|] == last;
    assert forall i :: 0 <= i < |front| ==> all[i] == front[i];
  }

  lemma ReportedAre(boots: seq<Boot>, f: string)
    ensures Reported(AllBranches(boots), f) <==> HasBranch(boots, f, false)
    ensures ReportedStable(AllBranches(boots), f) <==> HasBranch(boots, f, true)
  {
    hide IsReported, AllBranches;
    var branches := AllBranches(boots);
    forall br
      ensures br in branches <==> IsReported(boots, br)
    {
      BranchesAre(boots, br);
    }
    assert forall i :: 0 <= i < |branches| ==> branches[i] in branches;
  }

  // ----- the plan -----

  lemma BootRules(boots: seq<Boot>, entries: seq<Entry>, kind: Kind, f: string)
    ensures SomeBootHas(boots, entries, kind, f) <==>
              match kind
              case MislabeledKind =>
                exists i :: 0 <= i < |boots| && boots[i].family == f && WrongLabel(boots[i].etcVersion, f)
              case RepublishKind => Updates(boots, f)
              case GaFlipKind => IsBeta(entries, f) && RunsFinal(boots, f)
              case _ => false
  {
    hide IsMislabeled, WrongLabel, IsBeta, IsPrerelease, Strip, Later;
    forall i | 0 <= i < |boots|
      ensures IsMislabeled(boots[i]) <==> WrongLabel(boots[i].etcVersion, boots[i].family)
      ensures SomeNewer(boots[i].branches, boots[i].family, Strip(boots[i].etcVersion)) <==>
                exists br :: br in boots[i].branches && BeatsBoot(br, boots[i])
    {
      MislabeledExactly(boots[i]);
      NewerAre(boots[i]);
    }
  }

  lemma NewerAre(boot: Boot)
    ensures SomeNewer(boot.branches, boot.family, Strip(boot.etcVersion)) <==>
              exists br :: br in boot.branches && BeatsBoot(br, boot)
  {
    hide Strip, Later;
    assert forall i :: 0 <= i < |boot.branches| ==> boot.branches[i] in boot.branches;
  }

  lemma BranchRules(branches: seq<Branch>, entries: seq<Entry>, published: PublishedTags, kind: Kind, f: string)
    ensures SomeBranchHas(branches, entries, published, kind, f) <==>
              match kind
              case PrAddKind => Reported(branches, f) && !Carries(entries, f)
              case RepublishKind => ReportedStable(branches, f) && IsBeta(entries, f) && HasImage(published, f)
              case GaFlipKind => ReportedStable(branches, f) && IsBeta(entries, f)
              case _ => false
  {
    hide Carries, IsBeta;
  }

  /**
   For every type of action and every family: it is in the plan exactly when its rule fires on the raw inputs, the
   matrix rows of the channel, the published tags, the boots with the right label and their branches.
   */
  lemma PlanFollowsRules(channel: string, matrix: seq<Entry>, published: PublishedTags, boots: seq<Boot>, kind: Kind,
                         f: string)
    requires forall br :: IsReported(boots, br) ==> br.name != ""
    ensures HasKey(PlanOf(channel, matrix, published, boots), kind, f) <==>
              Fires(channel, matrix, published, boots, NewestPublished(EntriesOf(channel, matrix), published), kind, f)
  {
    hide PlanOf, HasKey, IsReported, WrongLabel, Updates, RunsFinal, HasBranch, AllBranches, Reported, ReportedStable,
      Carries, IsBeta, InMatrix, BetaInMatrix, NewestPublished, EntriesOf, SomeBootHas, SomeBranchHas;
    var entries, branches := EntriesOf(channel, matrix), AllBranches(boots);
    forall j | 0 <= j < |branches|
      ensures branches[j].name != ""
    {
      BranchesAre(boots, branches[j]);
    }
    EntriesAre(channel, matrix, f);
    ReportedAre(boots, f);
    if kind == WarnKind || kind == PublishNewKind {
      FirstBuildOrWarning(channel, matrix, published, boots, f);
    } else {
      PlanIsExact(channel, matrix, published, boots, kind, f);
      BootRules(boots, entries, kind, f);
      BranchRules(branches, entries, published, kind, f);
      FirstBuildIsNew(f, branches, NewestPublished(entries, published));
    }
  }

  lemma FirstBuildIsNew(f: string, branches: seq<Branch>, newest: string)
    ensures KindOf(FirstBuild(f, branches, newest)) in {WarnKind, PublishNewKind}
  {
  }

  // ----- what a planned action says -----

  /** The inputs bear out every word of the action. */
  ghost predicate BornOut(a: Action, entries: seq<Entry>, published: PublishedTags, boots: seq<Boot>) {
    match a
    case Mislabeled(f, version) =>
      exists boot :: boot in boots && boot.family == f && version == Strip(boot.etcVersion)
                     && WrongLabel(boot.etcVersion, f)
    case Republish(f, name, UpgradeCheck) =>
      name == "" && exists boot :: boot in boots && boot.family == f && boot.upgradeAvailable
                                   && !WrongLabel(boot.etcVersion, f)
    case Republish(f, name, NewerBranch) =>
      exists boot, br :: boot in boots && boot.family == f && !WrongLabel(boot.etcVersion, f)
                         && br in boot.branches && BeatsBoot(br, boot) && br.name == name
    case Republish(f, name, GaFinal) =>
      exists br :: IsReported(boots, br) && br.family == f && br.name == name && br.stable
    case PrAdd(f, name, beta) =>
      exists br :: IsReported(boots, br) && br.family == f && br.name == name && (beta <==> !br.stable)
    case GaFlip(f) => IsBeta(entries, f)
    case Warn(f, cause) => cause == if HasBranch(boots, f, false) then NoImage else NoBranch
    case PublishNew(f, name, from) =>
      && from == NewestPublished(entries, published)
      && exists br :: IsReported(boots, br) && br.family == f && br.name == name
                      && (HasBranch(boots, f, true) ==> br.stable)
  }

  lemma {:induction false} FromBoot(boots: seq<Boot>, entries: seq<Entry>, a: Action) returns (boot: Boot)
    requires a in AllBootActions(boots, entries)
    ensures boot in boots && a in BootActions(boot, entries)
    decreases |boots|
  {
    hide BootActions;
    var front, last := boots[..|boots| - 1], boots[|boots| - 1];
    if a in BootActions(last, entries) {
      boot := last;
    } else {
      boot := FromBoot(front, entries, a);
    }
  }

  lemma {:induction false} FromBranch(branches: seq<Branch>, entries: seq<Entry>, published: PublishedTags, a: Action)
    returns (br: Branch)
    requires a in AllBranchActions(branches, entries, published)
    ensures br in branches && a in BranchActions(br, entries, published)
    decreases |branches|
  {
    hide BranchActions;
    var front, last := branches[..|branches| - 1], branches[|branches| - 1];
    if a in BranchActions(last, entries, published) {
      br := last;
    } else {
      br := FromBranch(front, entries, published, a);
    }
  }

  lemma {:induction false} FromEntry(entries: seq<Entry>, branches: seq<Branch>, published: PublishedTags,
                                     newest: string, a: Action)
    requires a in EntryActions(entries, branches, published, newest)
    ensures a == FirstBuild(a.family, branches, newest)
    decreases |entries|
  {
    var last := entries[|entries| - 1].family;
    if a != FirstBuild(last, branches, newest) {
      FromEntry(entries[..|entries| - 1], branches, published, newest, a);
    }
  }

  lemma {:induction false} FromNewer(branches: seq<Branch>, family: string, booted: string, a: Action)
    returns (br: Branch)
    requires a in NewerBranches(branches, family, booted)
    ensures br in branches && IsNewerBranch(br, family, booted) && a == Republish(family, br.name, NewerBranch)
    decreases |branches|
  {
    hide IsNewerBranch;
    var front, last := branches[..|branches| - 1], branches[|branches| - 1];
    if IsNewerBranch(last, family, booted) && a == Republish(family, last.name, NewerBranch) {
      br := last;
    } else {
      br := FromNewer(front, family, booted, a);
    }
  }

  lemma BootSays(boot: Boot, entries: seq<Entry>, published: PublishedTags, boots: seq<Boot>, a: Action)
    requires boot in boots && a in BootActions(boot, entries)
    ensures BornOut(a, entries, published, boots)
  {
    hide IsMislabeled, WrongLabel, Strip, IsBeta, Later, IsReported, HasBranch, NewerBranches, NewestPublished;
    MislabeledExactly(boot);
    if !IsMislabeled(boot) && a in NewerBranches(boot.branches, boot.family, Strip(boot.etcVersion)) {
      var br := FromNewer(boot.branches, boot.family, Strip(boot.etcVersion), a);
      assert br in boot.branches && BeatsBoot(br, boot);
    }
  }

  lemma BranchSays(br: Branch, entries: seq<Entry>, published: PublishedTags, boots: seq<Boot>, a: Action)
    requires IsReported(boots, br) && a in BranchActions(br, entries, published)
    ensures BornOut(a, entries, published, boots)
  {
    hide IsReported, WrongLabel, IsBeta, Carries, HasBranch, NewestPublished;
  }

  lemma EntrySays(entries: seq<Entry>, published: PublishedTags, boots: seq<Boot>, a: Action)
    requires forall br :: IsReported(boots, br) ==> br.name != ""
    requires a == FirstBuild(a.family, AllBranches(boots), NewestPublished(entries, published))
    ensures BornOut(a, entries, published, boots)
  {
    hide IsReported, HasBranch, WrongLabel, NewestPublished, AllBranches, Reported, ReportedStable;
    var branches := AllBranches(boots);
    forall j | 0 <= j < |branches|
      ensures branches[j].name != "" && IsReported(boots, branches[j])
    {
      BranchesAre(boots, branches[j]);
    }
    ReportedAre(boots, a.family);
    BranchForIs(branches, a.family);
    if a.PublishNew? {
      FirstBuildNames(branches, a.family, NewestPublished(entries, published));
    }
  }

  /** Every action of the plan says what the inputs bear out, down to the branch, the status and the reason it names. */
  lemma PlanIsBornOut(channel: string, matrix: seq<Entry>, published: PublishedTags, boots: seq<Boot>, i: nat)
    requires forall br :: IsReported(boots, br) ==> br.name != ""
    requires i < |PlanOf(channel, matrix, published, boots)|
    ensures BornOut(PlanOf(channel, matrix, published, boots)[i], EntriesOf(channel, matrix), published, boots)
  {
    hide BornOut, IsReported, AllBranches, NewestPublished, EntriesOf, BootActions, BranchActions, FirstBuild;
    var entries, branches := EntriesOf(channel, matrix), AllBranches(boots);
    var all, a := Emitted(entries, published, boots), PlanOf(channel, matrix, published, boots)[i];
    PlanHolds(all);
    assert ChosenFrom(a, all);
    assert a in all;
    if a in AllBootActions(boots, entries) {
      var boot := FromBoot(boots, entries, a);
      BootSays(boot, entries, published, boots, a);
    } else if a in AllBranchActions(branches, entries, published) {
      var br := FromBranch(branches, entries, published, a);
      BranchesAre(boots, br);
      BranchSays(br, entries, published, boots, a);
    } else {
      FromEntry(entries, branches, published, NewestPublished(entries, published), a);
      EntrySays(entries, published, boots, a);
    }
  }
}
