/** The daily image-reconcile planner (scripts/reconcile-plan.py). Boots come with their branch rows parsed. */
module ReconcilePlan {
  import opened Common
  import opened Numerals
  import opened Text
  import PkgVersion

  // ----- versions -----

  /** The dotted components in front of the first dash. */
  function Components(version: string): (parts: seq<string>)
    ensures |parts| >= 1
  {
    var v := Strip(version);
    Split(v[..Find(v, "-")], ".")
  }

  function FamilyOf(version: string): string {
    var parts := Components(version);
    if |parts| >= 2 then parts[0] + "." + parts[1] else Strip(version)
  }

  function LeadingNumber(part: string): nat {
    Number(part[..DigitRun(part)])
  }

  function KeyOfParts(parts: seq<string>): (key: seq<nat>)
    ensures |key| == |parts|
  {
    if parts == [] then [] else KeyOfParts(parts[..|parts| - 1]) + [LeadingNumber(parts[|parts| - 1])]
  }

  method VersionKey(version: string) returns (key: seq<nat>)
    ensures key == KeyOf(version)
  {
    key := [];
    var parts := Components(version);
    for i := 0 to |parts|
      invariant key == KeyOfParts(parts[..i])
    {
      assert parts[..i + 1][..i] == parts[..i];
      key := key + [LeadingNumber(parts[i])];
    }
    assert parts[..|parts|] == parts;
  }

  function KeyOf(version: string): seq<nat> {
    KeyOfParts(Components(version))
  }

  predicate Later(a: string, b: string) {
    PkgVersion.ListLess(KeyOf(b), KeyOf(a))
  }

  predicate HasMarker(text: string, marker: string) {
    marker <= text || (text != "" && HasMarker(text[1..], marker))
  }

  /** A pre-release marker anywhere, in any case. */
  predicate IsPrerelease(version: string) {
    var v := PkgVersion.Lower(version);
    HasMarker(v, "beta") || HasMarker(v, "alpha") || HasMarker(v, "rc") || HasMarker(v, "devel")
  }

  // ----- inputs -----

  datatype Branch = Branch(name: string, version: string, family: string, stable: bool)

  datatype Boot = Boot(family: string, etcVersion: string, branches: seq<Branch>, upgradeAvailable: bool)

  /** A supported-versions entry; "" where the JSON has no value. */
  datatype Entry = Entry(channel: string, role: string, arch: string, family: string, status: string)

  type PublishedTags = map<string, bool>

  predicate IsPublished(published: PublishedTags, family: string) {
    family in published && published[family]
  }

  function EntriesOf(channel: string, matrix: seq<Entry>): seq<Entry> {
    Filter(matrix, (e: Entry) => e.channel == channel && e.role != "route-only" && (e.arch == "" || e.arch == "amd64"))
  }

  predicate Carries(entries: seq<Entry>, family: string) {
    exists i :: 0 <= i < |entries| && entries[i].family == family
  }

  predicate IsBeta(entries: seq<Entry>, family: string) {
    exists i :: 0 <= i < |entries| && entries[i].family == family && entries[i].status == "beta"
  }

  // ----- actions -----

  datatype Reason = UpgradeCheck | NewerBranch | GaFinal

  datatype Cause = NoBranch | NoImage

  datatype Action =
    | Mislabeled(family: string, version: string)
    | Republish(family: string, branch: string, reason: Reason)
    | PrAdd(family: string, branch: string, beta: bool)
    | GaFlip(family: string)
    | Warn(family: string, cause: Cause)
    | PublishNew(family: string, branch: string, from: string)

  datatype Kind = MislabeledKind | RepublishKind | PrAddKind | GaFlipKind | WarnKind | PublishNewKind

  function KindOf(a: Action): Kind {
    match a
    case Mislabeled(_, _) => MislabeledKind
    case Republish(_, _, _) => RepublishKind
    case PrAdd(_, _, _) => PrAddKind
    case GaFlip(_) => GaFlipKind
    case Warn(_, _) => WarnKind
    case PublishNew(_, _, _) => PublishNewKind
  }

  function BranchOf(a: Action): string {
    match a
    case Republish(_, branch, _) => branch
    case PrAdd(_, branch, _) => branch
    case PublishNew(_, branch, _) => branch
    case Mislabeled(_, _) => ""
    case GaFlip(_) => ""
    case Warn(_, _) => ""
  }

  predicate SameKey(a: Action, b: Action) {
    KindOf(a) == KindOf(b) && a.family == b.family
  }

  /** A later duplicate with a branch wins over one without; otherwise the first stays. */
  function Preferred(held: Action, a: Action): Action {
    if BranchOf(held) == "" && BranchOf(a) != "" then a else held
  }

  function AddAction(table: seq<Action>, a: Action): seq<Action> {
    if table == [] then [a]
    else if SameKey(table[0], a) then [Preferred(table[0], a)] + table[1..]
    else [table[0]] + AddAction(table[1..], a)
  }

  /** Adding one action after the other. */
  function Fold(table: seq<Action>, actions: seq<Action>): seq<Action> {
    if actions == [] then table else AddAction(Fold(table, actions[..|actions| - 1]), actions[|actions| - 1])
  }

  function HeldAt(table: seq<Action>, a: Action): (i: nat)
    ensures i <= |table| && (i < |table| ==> SameKey(table[i], a))
    ensures forall j :: 0 <= j < i ==> !SameKey(table[j], a)
  {
    if table == [] || SameKey(table[0], a) then 0 else 1 + HeldAt(table[1..], a)
  }

  lemma {:induction false} AddAt(table: seq<Action>, a: Action)
    ensures var i := HeldAt(table, a);
            AddAction(table, a)
            == if i == |table| then table + [a] else table[i := Preferred(table[i], a)]
    decreases |table|
  {
    hide SameKey, Preferred;
    if table != [] && !SameKey(table[0], a) {
      AddAt(table[1..], a);
      var i := HeldAt(table[1..], a);
      assert i == |table[1..]| ==> [table[0]] + (table[1..] + [a]) == table + [a];
      assert i < |table[1..]| ==>
        [table[0]] + table[1..][i := Preferred(table[i + 1], a)] == table[i + 1 := Preferred(table[i + 1], a)];
    } else if table != [] {
      assert [Preferred(table[0], a)] + table[1..] == table[0 := Preferred(table[0], a)];
    }
  }

  // ----- the rules -----

  predicate IsMislabeled(boot: Boot) {
    var booted := Strip(boot.etcVersion);
    booted != "" && FamilyOf(booted) != boot.family
  }

  predicate IsNewerBranch(br: Branch, family: string, booted: string) {
    booted != "" && br.family == family && br.stable && Later(br.version, booted)
  }

  function NewerBranches(branches: seq<Branch>, family: string, booted: string): seq<Action> {
    if branches == [] then []
    else
      var last := branches[|branches| - 1];
      NewerBranches(branches[..|branches| - 1], family, booted)
      + if IsNewerBranch(last, family, booted) then [Republish(family, last.name, NewerBranch)] else []
  }

  function UpgradeAction(boot: Boot): seq<Action> {
    if boot.upgradeAvailable then [Republish(boot.family, "", UpgradeCheck)] else []
  }

  function FlipAction(boot: Boot, entries: seq<Entry>): seq<Action> {
    var booted := Strip(boot.etcVersion);
    if IsBeta(entries, boot.family) && booted != "" && !IsPrerelease(booted) then [GaFlip(boot.family)] else []
  }

  function BootActions(boot: Boot, entries: seq<Entry>): seq<Action> {
    var booted := Strip(boot.etcVersion);
    if IsMislabeled(boot) then [Mislabeled(boot.family, booted)]
    else UpgradeAction(boot) + NewerBranches(boot.branches, boot.family, booted) + FlipAction(boot, entries)
  }

  function AllBootActions(boots: seq<Boot>, entries: seq<Entry>): seq<Action> {
    if boots == [] then []
    else AllBootActions(boots[..|boots| - 1], entries) + BootActions(boots[|boots| - 1], entries)
  }

  function AllBranches(boots: seq<Boot>): seq<Branch> {
    if boots == [] then []
    else
      var last := boots[|boots| - 1];
      AllBranches(boots[..|boots| - 1]) + if IsMislabeled(last) then [] else last.branches
  }

  function BranchActions(br: Branch, entries: seq<Entry>, published: PublishedTags): seq<Action> {
    if !Carries(entries, br.family) then [PrAdd(br.family, br.name, !br.stable)]
    else if IsBeta(entries, br.family) && br.stable then
      (if IsPublished(published, br.family) then [Republish(br.family, br.name, GaFinal)] else [])
      + [GaFlip(br.family)]
    else []
  }

  function AllBranchActions(branches: seq<Branch>, entries: seq<Entry>, published: PublishedTags): seq<Action> {
    if branches == [] then []
    else
      AllBranchActions(branches[..|branches| - 1], entries, published)
      + BranchActions(branches[|branches| - 1], entries, published)
  }

  function FirstName(branches: seq<Branch>, family: string, stableOnly: bool): string {
    if branches == [] then ""
    else if branches[0].family == family && (stableOnly ==> branches[0].stable) then branches[0].name
    else FirstName(branches[1..], family, stableOnly)
  }

  function BranchFor(branches: seq<Branch>, family: string): string {
    var stable := FirstName(branches, family, true);
    if stable != "" then stable else FirstName(branches, family, false)
  }

  function PublishedStable(entries: seq<Entry>, published: PublishedTags): seq<Entry> {
    Filter(entries, (e: Entry) => e.status != "beta" && IsPublished(published, e.family))
  }

  /** Python's max with default "": the first of the greatest by version key. */
  function NewestOf(entries: seq<Entry>): string {
    if entries == [] then ""
    else
      var front, last := NewestOf(entries[..|entries| - 1]), entries[|entries| - 1].family;
      if |entries| == 1 || Later(last, front) then last else front
  }

  function NewestPublished(entries: seq<Entry>, published: PublishedTags): string {
    NewestOf(PublishedStable(entries, published))
  }

  function FirstBuild(family: string, branches: seq<Branch>, newest: string): Action {
    var branch := BranchFor(branches, family);
    if branch == "" then Warn(family, NoBranch)
    else if newest == "" then Warn(family, NoImage)
    else PublishNew(family, branch, newest)
  }

  function EntryActions(entries: seq<Entry>, branches: seq<Branch>, published: PublishedTags, newest: string)
    : seq<Action>
  {
    if entries == [] then []
    else
      var last := entries[|entries| - 1].family;
      EntryActions(entries[..|entries| - 1], branches, published, newest)
      + if IsPublished(published, last) then [] else [FirstBuild(last, branches, newest)]
  }

  function Emitted(entries: seq<Entry>, published: PublishedTags, boots: seq<Boot>): seq<Action> {
    var branches := AllBranches(boots);
    AllBootActions(boots, entries) + AllBranchActions(branches, entries, published)
    + EntryActions(entries, branches, published, NewestPublished(entries, published))
  }

  function PlanOf(channel: string, matrix: seq<Entry>, published: PublishedTags, boots: seq<Boot>): seq<Action> {
    Fold([], Emitted(EntriesOf(channel, matrix), published, boots))
  }

  // ----- the planner -----

  lemma FoldNone(table: seq<Action>)
    ensures Fold(table, []) == table
  {
  }

  lemma FoldOne(table: seq<Action>, a: Action)
    ensures Fold(table, [a]) == AddAction(table, a)
  {
    assert [a][..0] == [];
    assert Fold(table, []) == table;
  }

  lemma {:induction false} FoldJoin(table: seq<Action>, a: seq<Action>, b: seq<Action>)
    ensures Fold(table, a + b) == Fold(Fold(table, a), b)
    decreases |b|
  {
    if b == [] {
      assert a + b == a;
    } else {
      var n := |b| - 1;
      assert (a + b)[..|a + b| - 1] == a + b[..n] && (a + b)[|a + b| - 1] == b[n];
      FoldJoin(table, a, b[..n]);
    }
  }

  class Planner {
    /** by_key in insertion order, and the branches seen. */
    var byKey: seq<Action>
    var allBranches: seq<Branch>

    constructor ()
      ensures byKey == [] && allBranches == []
    {
      byKey, allBranches := [], [];
    }

    method Add(a: Action)
      modifies this`byKey
      ensures byKey == AddAction(old(byKey), a)
    {
      AddAt(byKey, a);
      var i := HeldAt(byKey, a);
      if i == |byKey| {
        byKey := byKey + [a];
      } else if BranchOf(byKey[i]) == "" && BranchOf(a) != "" {
        byKey := byKey[i := a];
      }
    }

    method ReadBoot(boot: Boot, entries: seq<Entry>)
      modifies this
      ensures byKey == Fold(old(byKey), BootActions(boot, entries))
      ensures allBranches == old(allBranches) + if IsMislabeled(boot) then [] else boot.branches
    {
      hide Fold, NewerBranches, IsMislabeled;
      FoldNone(byKey);
      var family, booted := boot.family, Strip(boot.etcVersion);
      if IsMislabeled(boot) {
        FoldOne(byKey, Mislabeled(family, booted));
        Add(Mislabeled(family, booted));
        return;
      }
      allBranches := allBranches + boot.branches;
      var newer := NewerBranches(boot.branches, family, booted);
      FoldJoin(byKey, UpgradeAction(boot) + newer, FlipAction(boot, entries));
      FoldJoin(byKey, UpgradeAction(boot), newer);
      if boot.upgradeAvailable {
        FoldOne(byKey, Republish(family, "", UpgradeCheck));
        Add(Republish(family, "", UpgradeCheck));
      }
      ReadNewer(boot.branches, family, booted);
      FoldNone(byKey);
      if IsBeta(entries, family) && booted != "" && !IsPrerelease(booted) {
        FoldOne(byKey, GaFlip(family));
        Add(GaFlip(family));
      }
    }

    method ReadNewer(branches: seq<Branch>, family: string, booted: string)
      modifies this`byKey
      ensures byKey == Fold(old(byKey), NewerBranches(branches, family, booted))
    {
      hide Fold, IsNewerBranch;
      FoldNone(byKey);
      ghost var before := byKey;
      for i := 0 to |branches|
        invariant byKey == Fold(before, NewerBranches(branches[..i], family, booted))
      {
        var br := branches[i];
        ghost var done := NewerBranches(branches[..i], family, booted);
        assert branches[..i + 1][..i] == branches[..i];
        if IsNewerBranch(br, family, booted) {
          FoldJoin(before, done, [Republish(family, br.name, NewerBranch)]);
          FoldOne(byKey, Republish(family, br.name, NewerBranch));
          Add(Republish(family, br.name, NewerBranch));
        } else {
          assert done + [] == done;
        }
      }
      assert branches[..|branches|] == branches;
    }

    method ReadBoots(boots: seq<Boot>, entries: seq<Entry>)
      requires byKey == [] && allBranches == []
      modifies this
      ensures byKey == Fold([], AllBootActions(boots, entries)) && allBranches == AllBranches(boots)
    {
      hide Fold, BootActions;
      FoldNone(byKey);
      for i := 0 to |boots|
        invariant byKey == Fold([], AllBootActions(boots[..i], entries)) && allBranches == AllBranches(boots[..i])
      {
        assert boots[..i + 1][..i] == boots[..i];
        FoldJoin([], AllBootActions(boots[..i], entries), BootActions(boots[i], entries));
        ReadBoot(boots[i], entries);
      }
      assert boots[..|boots|] == boots;
    }

    method ReadBranch(br: Branch, entries: seq<Entry>, published: PublishedTags)
      modifies this`byKey
      ensures byKey == Fold(old(byKey), BranchActions(br, entries, published))
    {
      hide Fold, AddAction;
      FoldNone(byKey);
      if !Carries(entries, br.family) {
        FoldOne(byKey, PrAdd(br.family, br.name, !br.stable));
        Add(PrAdd(br.family, br.name, !br.stable));
      } else if IsBeta(entries, br.family) && br.stable {
        if IsPublished(published, br.family) {
          FoldJoin(byKey, [Republish(br.family, br.name, GaFinal)], [GaFlip(br.family)]);
          FoldOne(byKey, Republish(br.family, br.name, GaFinal));
          Add(Republish(br.family, br.name, GaFinal));
        } else {
          assert [] + [GaFlip(br.family)] == [GaFlip(br.family)];
        }
        FoldOne(byKey, GaFlip(br.family));
        Add(GaFlip(br.family));
      }
    }

    method ReadBranches(entries: seq<Entry>, published: PublishedTags)
      modifies this`byKey
      ensures byKey == Fold(old(byKey), AllBranchActions(allBranches, entries, published))
    {
      hide Fold, BranchActions;
      ghost var before := byKey;
      FoldNone(before);
      for i := 0 to |allBranches|
        invariant byKey == Fold(before, AllBranchActions(allBranches[..i], entries, published))
      {
        assert allBranches[..i + 1][..i] == allBranches[..i];
        FoldJoin(before, AllBranchActions(allBranches[..i], entries, published),
                 BranchActions(allBranches[i], entries, published));
        ReadBranch(allBranches[i], entries, published);
      }
      assert allBranches[..|allBranches|] == allBranches;
    }

    method ReadEntries(entries: seq<Entry>, published: PublishedTags, newest: string)
      modifies this`byKey
      ensures byKey == Fold(old(byKey), EntryActions(entries, allBranches, published, newest))
    {
      hide Fold;
      ghost var before := byKey;
      FoldNone(before);
      for i := 0 to |entries|
        invariant byKey == Fold(before, EntryActions(entries[..i], allBranches, published, newest))
      {
        var family := entries[i].family;
        ghost var done := EntryActions(entries[..i], allBranches, published, newest);
        assert entries[..i + 1][..i] == entries[..i];
        if IsPublished(published, family) {
          assert done + [] == done;
          continue;
        }
        var action := FirstBuild(family, allBranches, newest);
        FoldJoin(before, done, [action]);
        FoldOne(byKey, action);
        Add(action);
      }
      assert entries[..|entries|] == entries;
    }
  }

  method Plan(channel: string, matrix: seq<Entry>, published: PublishedTags, boots: seq<Boot>)
    returns (actions: seq<Action>)
    ensures actions == PlanOf(channel, matrix, published, boots)
  {
    var entries := EntriesOf(channel, matrix);
    var newest := NewestPublished(entries, published);
    var planner := new Planner();
    planner.ReadBoots(boots, entries);
    planner.ReadBranches(entries, published);
    planner.ReadEntries(entries, published, newest);
    actions := planner.byKey;
    PartsMerge(AllBootActions(boots, entries), AllBranchActions(AllBranches(boots), entries, published),
               EntryActions(entries, AllBranches(boots), published, newest));
  }

  lemma PartsMerge(a: seq<Action>, b: seq<Action>, c: seq<Action>)
    ensures Fold([], a + b + c) == Fold(Fold(Fold([], a), b), c)
  {
    FoldJoin([], a + b, c);
    FoldJoin([], a, b);
  }
}
