/** What the reconcile plan contains: quarantine, one action per key, and when each action is there. */
module PlanProperties {
  import opened Common
  import opened ReconcilePlan
  import opened Text

  // ----- one action per key -----

  predicate DistinctKeys(table: seq<Action>) {
    forall i, j :: 0 <= i < j < |table| ==> !SameKey(table[i], table[j])
  }

  lemma AddKeepsDistinct(table: seq<Action>, a: Action)
    requires DistinctKeys(table)
    ensures DistinctKeys(AddAction(table, a))
  {
    AddAt(table, a);
  }

  lemma {:induction false} PlanKeysAreDistinct(actions: seq<Action>)
    ensures DistinctKeys(Fold([], actions))
  {
    if actions != [] {
      PlanKeysAreDistinct(actions[..|actions| - 1]);
      AddKeepsDistinct(Fold([], actions[..|actions| - 1]), actions[|actions| - 1]);
    }
  }

  /** actions[i] is the one its key keeps: the first with a branch, or the first if none has one. */
  predicate IsChosen(actions: seq<Action>, i: nat)
    requires i < |actions|
  {
    if BranchOf(actions[i]) != "" then
      forall j :: 0 <= j < i && SameKey(actions[j], actions[i]) ==> BranchOf(actions[j]) == ""
    else
      forall j :: 0 <= j < |actions| && SameKey(actions[j], actions[i]) ==> i <= j && BranchOf(actions[j]) == ""
  }

  predicate ChosenFrom(a: Action, actions: seq<Action>) {
    exists i :: 0 <= i < |actions| && actions[i] == a && IsChosen(actions, i)
  }

  predicate HasKeyOf(table: seq<Action>, a: Action) {
    exists i :: 0 <= i < |table| && SameKey(table[i], a)
  }

  ghost predicate Holds(table: seq<Action>, actions: seq<Action>) {
    && (forall i :: 0 <= i < |table| ==> ChosenFrom(table[i], actions))
    && (forall i :: 0 <= i < |actions| ==> HasKeyOf(table, actions[i]))
  }

  lemma ChosenStays(front: seq<Action>, a: Action, h: Action)
    requires ChosenFrom(h, front) && (SameKey(h, a) ==> Preferred(h, a) == h)
    ensures ChosenFrom(h, front + [a])
  {
    var i :| 0 <= i < |front| && front[i] == h && IsChosen(front, i);
    assert IsChosen(front + [a], i);
  }

  lemma NewIsChosen(front: seq<Action>, a: Action)
    requires forall j :: 0 <= j < |front| && SameKey(front[j], a) ==> BranchOf(front[j]) == "" && BranchOf(a) != ""
    ensures ChosenFrom(a, front + [a])
  {
    assert IsChosen(front + [a], |front|);
  }

  lemma ChosenHasNone(front: seq<Action>, h: Action, a: Action)
    requires ChosenFrom(h, front) && SameKey(h, a) && BranchOf(h) == ""
    ensures forall j :: 0 <= j < |front| && SameKey(front[j], a) ==> BranchOf(front[j]) == ""
  {
  }

  lemma OtherKey(table: seq<Action>, a: Action, k: nat)
    requires DistinctKeys(table) && k < |table| && k != HeldAt(table, a)
    ensures !SameKey(table[k], a)
  {
  }

  lemma AddIsChosen(table: seq<Action>, front: seq<Action>, a: Action, k: nat)
    requires Holds(table, front) && DistinctKeys(table) && k < |AddAction(table, a)|
    ensures ChosenFrom(AddAction(table, a)[k], front + [a])
  {
    AddAt(table, a);
    var i := HeldAt(table, a);
    if k == i {
      HeldIsChosen(table, front, a, i);
    } else {
      OtherKey(table, a, k);
      KeptIsChosen(table, front, a, k);
    }
  }

  lemma KeptIsChosen(table: seq<Action>, front: seq<Action>, a: Action, k: nat)
    requires Holds(table, front) && k < |table| && !SameKey(table[k], a)
    ensures ChosenFrom(table[k], front + [a])
  {
    assert ChosenFrom(table[k], front);
    ChosenStays(front, a, table[k]);
  }

  lemma HeldIsChosen(table: seq<Action>, front: seq<Action>, a: Action, i: nat)
    requires Holds(table, front) && i == HeldAt(table, a)
    ensures ChosenFrom(if i < |table| then Preferred(table[i], a) else a, front + [a])
  {
    if i == |table| {
      NoneHeld(table, front, a);
      NewIsChosen(front, a);
    } else {
      assert ChosenFrom(table[i], front);
      if Preferred(table[i], a) == table[i] {
        ChosenStays(front, a, table[i]);
      } else {
        ChosenHasNone(front, table[i], a);
        NewIsChosen(front, a);
      }
    }
  }

  lemma AddHasKeys(table: seq<Action>, a: Action, x: Action)
    requires HasKeyOf(table, x) || x == a
    ensures HasKeyOf(AddAction(table, a), x)
  {
    AddAt(table, a);
    var r := AddAction(table, a);
    if x == a {
      assert SameKey(r[HeldAt(table, a)], a);
    } else {
      var j :| 0 <= j < |table| && SameKey(table[j], x);
      assert SameKey(r[j], x);
    }
  }

  lemma AddHolds(table: seq<Action>, actions: seq<Action>)
    requires actions != [] && Holds(table, actions[..|actions| - 1]) && DistinctKeys(table)
    ensures Holds(AddAction(table, actions[|actions| - 1]), actions)
  {
    var front, a := actions[..|actions| - 1], actions[|actions| - 1];
    assert actions == front + [a];
    forall k | 0 <= k < |AddAction(table, a)|
      ensures ChosenFrom(AddAction(table, a)[k], actions)
    {
      AddIsChosen(table, front, a, k);
    }
    forall k | 0 <= k < |actions|
      ensures HasKeyOf(AddAction(table, a), actions[k])
    {
      assert k < |front| ==> actions[k] == front[k] && HasKeyOf(table, front[k]);
      AddHasKeys(table, a, actions[k]);
    }
  }

  lemma NoneHeld(table: seq<Action>, front: seq<Action>, a: Action)
    requires HeldAt(table, a) == |table| && forall i :: 0 <= i < |front| ==> HasKeyOf(table, front[i])
    ensures forall j :: 0 <= j < |front| ==> !SameKey(front[j], a)
  {
    forall j | 0 <= j < |front|
      ensures !SameKey(front[j], a)
    {
      assert HasKeyOf(table, front[j]);
    }
  }

  /**
   The plan holds every emitted (type, family) once, and for it the first emitted action with a branch, or the first
   one if none has a branch.
   */
  lemma {:induction false} PlanHolds(actions: seq<Action>)
    ensures Holds(Fold([], actions), actions)
  {
    if actions != [] {
      var front := actions[..|actions| - 1];
      PlanHolds(front);
      PlanKeysAreDistinct(front);
      AddHolds(Fold([], front), actions);
    }
  }

  // ----- quarantine -----

  const MOVES: Action -> bool := (a: Action) => !a.Mislabeled?

  lemma FilterAddSame(first: Action, rest: seq<Action>, a: Action)
    requires SameKey(first, a)
    ensures Filter(AddAction([first] + rest, a), MOVES) == AddMove(Filter([first] + rest, MOVES), a)
  {
    AddFirst(first, rest, a);
    FilterCons(first, rest, MOVES);
    FilterCons(Preferred(first, a), rest, MOVES);
    AddFirst(first, Filter(rest, MOVES), a);
  }

  lemma FilterAddMove(first: Action, rest: seq<Action>, a: Action)
    requires !SameKey(first, a) && MOVES(first)
    requires Filter(AddAction(rest, a), MOVES) == AddMove(Filter(rest, MOVES), a)
    ensures Filter(AddAction([first] + rest, a), MOVES) == AddMove(Filter([first] + rest, MOVES), a)
  {
    AddFirst(first, rest, a);
    FilterCons(first, rest, MOVES);
    FilterCons(first, AddAction(rest, a), MOVES);
    AddFirst(first, Filter(rest, MOVES), a);
  }

  lemma FilterAddError(first: Action, rest: seq<Action>, a: Action)
    requires !SameKey(first, a) && !MOVES(first)
    requires Filter(AddAction(rest, a), MOVES) == AddMove(Filter(rest, MOVES), a)
    ensures Filter(AddAction([first] + rest, a), MOVES) == AddMove(Filter([first] + rest, MOVES), a)
  {
    AddFirst(first, rest, a);
    FilterCons(first, rest, MOVES);
    FilterCons(first, AddAction(rest, a), MOVES);
  }

  /** What an action does to the table without errors. */
  function AddMove(moves: seq<Action>, a: Action): seq<Action> {
    if MOVES(a) then AddAction(moves, a) else moves
  }

  lemma AddFirst(first: Action, rest: seq<Action>, a: Action)
    ensures AddAction([first] + rest, a)
            == if SameKey(first, a) then [Preferred(first, a)] + rest else [first] + AddAction(rest, a)
  {
    assert ([first] + rest)[1..] == rest;
  }

  lemma {:induction false} FilterAdd(table: seq<Action>, a: Action)
    ensures Filter(AddAction(table, a), MOVES) == AddMove(Filter(table, MOVES), a)
    decreases |table|
  {
    if table == [] {
      FilterOne(a);
    } else {
      assert table == [table[0]] + table[1..];
      if SameKey(table[0], a) {
        FilterAddSame(table[0], table[1..], a);
      } else {
        FilterAdd(table[1..], a);
        if MOVES(table[0]) {
          FilterAddMove(table[0], table[1..], a);
        } else {
          FilterAddError(table[0], table[1..], a);
        }
      }
    }
  }

  lemma FoldLast(table: seq<Action>, front: seq<Action>, a: Action)
    ensures Fold(table, front + [a]) == AddAction(Fold(table, front), a)
  {
    assert (front + [a])[..|front|] == front;
  }

  lemma FilterFoldStep(table: seq<Action>, front: seq<Action>, a: Action)
    requires Filter(Fold(table, front), MOVES) == Fold(Filter(table, MOVES), Filter(front, MOVES))
    ensures Filter(Fold(table, front + [a]), MOVES) == Fold(Filter(table, MOVES), Filter(front + [a], MOVES))
  {
    hide Fold, Filter;
    FoldLast(table, front, a);
    FilterAdd(Fold(table, front), a);
    FilterFront(front, a);
    FoldLast(Filter(table, MOVES), Filter(front, MOVES), a);
  }

  lemma FilterFoldNone(table: seq<Action>)
    ensures Filter(Fold(table, []), MOVES) == Fold(Filter(table, MOVES), Filter([], MOVES))
  {
  }

  lemma {:induction false} FilterFold(table: seq<Action>, actions: seq<Action>)
    ensures Filter(Fold(table, actions), MOVES) == Fold(Filter(table, MOVES), Filter(actions, MOVES))
    decreases |actions|
  {
    hide Fold, Filter;
    if actions == [] {
      FilterFoldNone(table);
    } else {
      var front, a := actions[..|actions| - 1], actions[|actions| - 1];
      FilterFold(table, front);
      FilterFoldStep(table, front, a);
      assert actions == front + [a];
    }
  }

  lemma FilterFront(front: seq<Action>, a: Action)
    ensures Filter(front + [a], MOVES) == if MOVES(a) then Filter(front, MOVES) + [a] else Filter(front, MOVES)
  {
    FilterJoin(front, [a], MOVES);
    FilterOne(a);
  }

  lemma FilterOne(a: Action)
    ensures Filter([a], MOVES) == if MOVES(a) then [a] else []
  {
    assert [a][1..] == [];
  }

  function Trusted(boots: seq<Boot>): seq<Boot> {
    Filter(boots, (b: Boot) => !IsMislabeled(b))
  }

  lemma TrustedLast(front: seq<Boot>, last: Boot)
    ensures Trusted(front + [last]) == if IsMislabeled(last) then Trusted(front) else Trusted(front) + [last]
  {
    var p := (b: Boot) => !IsMislabeled(b);
    FilterJoin(front, [last], p);
    assert [last][1..] == [];
    assert Filter([last], p) == if IsMislabeled(last) then [] else [last];
  }

  lemma {:induction false} MovesOfNewer(branches: seq<Branch>, family: string, booted: string)
    ensures forall i :: 0 <= i < |NewerBranches(branches, family, booted)| ==>
              NewerBranches(branches, family, booted)[i].Republish?
  {
    if branches != [] {
      MovesOfNewer(branches[..|branches| - 1], family, booted);
    }
  }

  lemma MovesOfBoot(boot: Boot, entries: seq<Entry>)
    ensures Filter(BootActions(boot, entries), MOVES) == if IsMislabeled(boot) then [] else BootActions(boot, entries)
  {
    if IsMislabeled(boot) {
      FilterOne(Mislabeled(boot.family, Strip(boot.etcVersion)));
    } else {
      MovesOfNewer(boot.branches, boot.family, Strip(boot.etcVersion));
      FilterAll(BootActions(boot, entries), MOVES);
    }
  }

  lemma BootsLast(front: seq<Boot>, last: Boot, entries: seq<Entry>)
    ensures AllBootActions(front + [last], entries) == AllBootActions(front, entries) + BootActions(last, entries)
    ensures AllBranches(front + [last]) == AllBranches(front) + if IsMislabeled(last) then [] else last.branches
  {
    assert (front + [last])[..|front|] == front;
  }

  lemma MovesOfBootsStep(front: seq<Boot>, last: Boot, entries: seq<Entry>)
    requires Filter(AllBootActions(front, entries), MOVES) == AllBootActions(Trusted(front), entries)
    ensures Filter(AllBootActions(front + [last], entries), MOVES) == AllBootActions(Trusted(front + [last]), entries)
  {
    BootsLast(front, last, entries);
    FilterJoin(AllBootActions(front, entries), BootActions(last, entries), MOVES);
    MovesOfBoot(last, entries);
    TrustedLast(front, last);
    if IsMislabeled(last) {
      assert AllBootActions(Trusted(front), entries) + [] == AllBootActions(Trusted(front), entries);
    } else {
      BootsLast(Trusted(front), last, entries);
    }
  }

  lemma MovesOfNone(entries: seq<Entry>)
    ensures Filter(AllBootActions([], entries), MOVES) == AllBootActions(Trusted([]), entries)
  {
  }

  lemma {:induction false} MovesOfBoots(boots: seq<Boot>, entries: seq<Entry>)
    ensures Filter(AllBootActions(boots, entries), MOVES) == AllBootActions(Trusted(boots), entries)
  {
    hide Filter, AllBootActions, Trusted;
    if boots == [] {
      MovesOfNone(entries);
    } else {
      var front, last := boots[..|boots| - 1], boots[|boots| - 1];
      assert boots == front + [last];
      MovesOfBoots(front, entries);
      MovesOfBootsStep(front, last, entries);
    }
  }

  lemma TrustedBranchesStep(front: seq<Boot>, last: Boot)
    requires AllBranches(Trusted(front)) == AllBranches(front)
    ensures AllBranches(Trusted(front + [last])) == AllBranches(front + [last])
  {
    TrustedLast(front, last);
    BootsLast(front, last, []);
    if IsMislabeled(last) {
      assert AllBranches(front) + [] == AllBranches(front);
    } else {
      BootsLast(Trusted(front), last, []);
    }
  }

  lemma {:induction false} TrustedBranches(boots: seq<Boot>)
    ensures AllBranches(Trusted(boots)) == AllBranches(boots)
  {
    if boots != [] {
      var front, last := boots[..|boots| - 1], boots[|boots| - 1];
      assert boots == front + [last];
      TrustedBranches(front);
      TrustedBranchesStep(front, last);
    }
  }

  lemma {:induction false} BranchesMove(branches: seq<Branch>, entries: seq<Entry>, published: PublishedTags)
    ensures Filter(AllBranchActions(branches, entries, published), MOVES)
            == AllBranchActions(branches, entries, published)
  {
    if branches != [] {
      var front, last := branches[..|branches| - 1], branches[|branches| - 1];
      BranchesMove(front, entries, published);
      FilterJoin(AllBranchActions(front, entries, published), BranchActions(last, entries, published), MOVES);
      FilterAll(BranchActions(last, entries, published), MOVES);
    }
  }

  lemma {:induction false} EntriesMove(entries: seq<Entry>, branches: seq<Branch>, published: PublishedTags,
                                       newest: string)
    ensures Filter(EntryActions(entries, branches, published, newest), MOVES)
            == EntryActions(entries, branches, published, newest)
  {
    if entries != [] {
      var front, last := entries[..|entries| - 1], entries[|entries| - 1].family;
      EntriesMove(front, branches, published, newest);
      var one := if IsPublished(published, last) then [] else [FirstBuild(last, branches, newest)];
      FilterJoin(EntryActions(front, branches, published, newest), one, MOVES);
      FilterAll(one, MOVES);
    }
  }

  /**
   Non-interference: the plan without its error actions is, in order, the plan computed with the mislabeled boots
   removed.
   */
  lemma QuarantineIsComplete(channel: string, matrix: seq<Entry>, published: PublishedTags, boots: seq<Boot>)
    ensures Filter(PlanOf(channel, matrix, published, boots), MOVES)
            == PlanOf(channel, matrix, published, Trusted(boots))
  {
    var entries := EntriesOf(channel, matrix);
    var branches, newest := AllBranches(boots), NewestPublished(entries, published);
    var a := AllBootActions(boots, entries);
    var b := AllBranchActions(branches, entries, published);
    var c := EntryActions(entries, branches, published, newest);
    FilterFold([], a + b + c);
    FilterJoin(a + b, c, MOVES);
    FilterJoin(a, b, MOVES);
    MovesOfBoots(boots, entries);
    TrustedBranches(boots);
    BranchesMove(branches, entries, published);
    EntriesMove(entries, branches, published, newest);
  }

  // ----- which actions the plan contains -----

  predicate HasKey(actions: seq<Action>, kind: Kind, family: string) {
    exists i :: 0 <= i < |actions| && KindOf(actions[i]) == kind && actions[i].family == family
  }

  lemma HasKeyJoin(a: seq<Action>, b: seq<Action>, kind: Kind, family: string)
    ensures HasKey(a + b, kind, family) <==> HasKey(a, kind, family) || HasKey(b, kind, family)
  {
    var all := a + b;
    if HasKey(all, kind, family) {
      var i :| 0 <= i < |all| && KindOf(all[i]) == kind && all[i].family == family;
      assert i < |a| ==> all[i] == a[i];
      assert i >= |a| ==> all[i] == b[i - |a|];
    }
    if HasKey(a, kind, family) {
      var i :| 0 <= i < |a| && KindOf(a[i]) == kind && a[i].family == family;
      assert all[i] == a[i];
    }
    if HasKey(b, kind, family) {
      var i :| 0 <= i < |b| && KindOf(b[i]) == kind && b[i].family == family;
      assert all[|a| + i] == b[i];
    }
  }

  lemma HoldsSameKeys(table: seq<Action>, actions: seq<Action>, kind: Kind, family: string)
    requires Holds(table, actions)
    ensures HasKey(table, kind, family) <==> HasKey(actions, kind, family)
  {
    if HasKey(table, kind, family) {
      var i :| 0 <= i < |table| && KindOf(table[i]) == kind && table[i].family == family;
      assert ChosenFrom(table[i], actions);
      var j :| 0 <= j < |actions| && actions[j] == table[i] && IsChosen(actions, j);
    }
    if HasKey(actions, kind, family) {
      var i :| 0 <= i < |actions| && KindOf(actions[i]) == kind && actions[i].family == family;
      assert HasKeyOf(table, actions[i]);
      var j :| 0 <= j < |table| && SameKey(table[j], actions[i]);
    }
  }

  /** The boot, if its label can be trusted, moves its own family: an update offered, or a newer stable branch. */
  predicate BootMoves(boot: Boot, family: string) {
    && !IsMislabeled(boot) && boot.family == family
    && (boot.upgradeAvailable || SomeNewer(boot.branches, family, Strip(boot.etcVersion)))
  }

  predicate BootIsFinal(boot: Boot, family: string) {
    && !IsMislabeled(boot) && boot.family == family
    && Strip(boot.etcVersion) != "" && !IsPrerelease(Strip(boot.etcVersion))
  }

  predicate Reported(branches: seq<Branch>, family: string) {
    exists i :: 0 <= i < |branches| && branches[i].family == family
  }

  predicate ReportedStable(branches: seq<Branch>, family: string) {
    exists i :: 0 <= i < |branches| && branches[i].family == family && branches[i].stable
  }

  predicate SomeNewer(branches: seq<Branch>, family: string, booted: string) {
    exists i :: 0 <= i < |branches| && IsNewerBranch(branches[i], family, booted)
  }

  lemma LastNewer(front: seq<Branch>, last: Branch, family: string, booted: string)
    ensures SomeNewer(front + [last], family, booted) <==>
            SomeNewer(front, family, booted) || IsNewerBranch(last, family, booted)
  {
    var all := front + [last];
    assert all[|front|] == last;
    assert forall i :: 0 <= i < |front| ==> all[i] == front[i];
  }

  lemma {:induction false} NewerHasKey(branches: seq<Branch>, family: string, booted: string, kind: Kind, f: string)
    ensures HasKey(NewerBranches(branches, family, booted), kind, f) <==>
            kind == RepublishKind && family == f && SomeNewer(branches, family, booted)
  {
    if branches != [] {
      var front, last := branches[..|branches| - 1], branches[|branches| - 1];
      assert branches == front + [last];
      NewerHasKey(front, family, booted, kind, f);
      var one := if IsNewerBranch(last, family, booted) then [Republish(family, last.name, NewerBranch)] else [];
      HasKeyJoin(NewerBranches(front, family, booted), one, kind, f);
      OneHasKey(Republish(family, last.name, NewerBranch), kind, f);
      LastNewer(front, last, family, booted);
    }
  }

  predicate BootHas(boot: Boot, entries: seq<Entry>, kind: Kind, f: string) {
    match kind
    case MislabeledKind => IsMislabeled(boot) && boot.family == f
    case RepublishKind => BootMoves(boot, f)
    case GaFlipKind => IsBeta(entries, f) && BootIsFinal(boot, f)
    case PrAddKind => false
    case WarnKind => false
    case PublishNewKind => false
  }

  lemma BootHasKey(boot: Boot, entries: seq<Entry>, kind: Kind, f: string)
    ensures HasKey(BootActions(boot, entries), kind, f) <==> BootHas(boot, entries, kind, f)
  {
    var family, booted := boot.family, Strip(boot.etcVersion);
    if IsMislabeled(boot) {
      OneHasKey(Mislabeled(family, booted), kind, f);
    } else {
      var newer := NewerBranches(boot.branches, family, booted);
      HasKeyJoin(UpgradeAction(boot) + newer, FlipAction(boot, entries), kind, f);
      HasKeyJoin(UpgradeAction(boot), newer, kind, f);
      NewerHasKey(boot.branches, family, booted, kind, f);
      OneHasKey(Republish(family, "", UpgradeCheck), kind, f);
      OneHasKey(GaFlip(family), kind, f);
    }
  }

  lemma OneHasKey(a: Action, kind: Kind, f: string)
    ensures HasKey([a], kind, f) <==> KindOf(a) == kind && a.family == f
    ensures !HasKey([], kind, f)
  {
    var one := [a];
    assert one[0] == a;
  }

  predicate SomeBootHas(boots: seq<Boot>, entries: seq<Entry>, kind: Kind, f: string) {
    exists i :: 0 <= i < |boots| && BootHas(boots[i], entries, kind, f)
  }

  lemma NoBootHas(entries: seq<Entry>, kind: Kind, f: string)
    ensures !HasKey(AllBootActions([], entries), kind, f) && !SomeBootHas([], entries, kind, f)
  {
  }

  lemma {:induction false} BootsHaveKey(boots: seq<Boot>, entries: seq<Entry>, kind: Kind, f: string)
    ensures HasKey(AllBootActions(boots, entries), kind, f) <==> SomeBootHas(boots, entries, kind, f)
  {
    hide HasKey, BootActions, BootHas, SomeBootHas;
    if boots == [] {
      NoBootHas(entries, kind, f);
    } else {
      var front, last := boots[..|boots| - 1], boots[|boots| - 1];
      BootsHaveKey(front, entries, kind, f);
      HasKeyJoin(AllBootActions(front, entries), BootActions(last, entries), kind, f);
      BootHasKey(last, entries, kind, f);
      LastBootHas(front, last, entries, kind, f);
      assert boots == front + [last];
    }
  }

  lemma LastBootHas(front: seq<Boot>, last: Boot, entries: seq<Entry>, kind: Kind, f: string)
    ensures SomeBootHas(front + [last], entries, kind, f) <==>
            SomeBootHas(front, entries, kind, f) || BootHas(last, entries, kind, f)
  {
    var all := front + [last];
    assert all[|front|] == last;
    assert forall i :: 0 <= i < |front| ==> all[i] == front[i];
  }

  predicate BranchHas(br: Branch, entries: seq<Entry>, published: PublishedTags, kind: Kind, f: string) {
    br.family == f &&
    match kind
    case PrAddKind => !Carries(entries, f)
    case RepublishKind => IsBeta(entries, f) && br.stable && IsPublished(published, f)
    case GaFlipKind => IsBeta(entries, f) && br.stable
    case MislabeledKind => false
    case WarnKind => false
    case PublishNewKind => false
  }

  lemma BranchHasKey(br: Branch, entries: seq<Entry>, published: PublishedTags, kind: Kind, f: string)
    ensures HasKey(BranchActions(br, entries, published), kind, f) <==> BranchHas(br, entries, published, kind, f)
  {
    BetaIsCarried(entries, br.family);
    OneHasKey(PrAdd(br.family, br.name, !br.stable), kind, f);
    OneHasKey(Republish(br.family, br.name, GaFinal), kind, f);
    OneHasKey(GaFlip(br.family), kind, f);
    HasKeyJoin([Republish(br.family, br.name, GaFinal)], [GaFlip(br.family)], kind, f);
    HasKeyJoin([], [GaFlip(br.family)], kind, f);
  }

  lemma BetaIsCarried(entries: seq<Entry>, family: string)
    ensures IsBeta(entries, family) ==> Carries(entries, family)
  {
  }

  predicate SomeBranchHas(branches: seq<Branch>, entries: seq<Entry>, published: PublishedTags, kind: Kind,
                          f: string) {
    exists i :: 0 <= i < |branches| && BranchHas(branches[i], entries, published, kind, f)
  }

  lemma NoBranchHas(entries: seq<Entry>, published: PublishedTags, kind: Kind, f: string)
    ensures !HasKey(AllBranchActions([], entries, published), kind, f)
    ensures !SomeBranchHas([], entries, published, kind, f)
  {
  }

  lemma {:induction false} BranchesHaveKey(branches: seq<Branch>, entries: seq<Entry>, published: PublishedTags,
                                           kind: Kind, f: string)
    ensures HasKey(AllBranchActions(branches, entries, published), kind, f) <==>
            SomeBranchHas(branches, entries, published, kind, f)
  {
    hide HasKey, BranchActions, BranchHas, SomeBranchHas;
    if branches == [] {
      NoBranchHas(entries, published, kind, f);
    } else {
      var front, last := branches[..|branches| - 1], branches[|branches| - 1];
      BranchesHaveKey(front, entries, published, kind, f);
      HasKeyJoin(AllBranchActions(front, entries, published), BranchActions(last, entries, published), kind, f);
      BranchHasKey(last, entries, published, kind, f);
      LastBranchHas(front, last, entries, published, kind, f);
      assert branches == front + [last];
    }
  }

  lemma LastBranchHas(front: seq<Branch>, last: Branch, entries: seq<Entry>, published: PublishedTags, kind: Kind,
                      f: string)
    ensures SomeBranchHas(front + [last], entries, published, kind, f) <==>
            SomeBranchHas(front, entries, published, kind, f) || BranchHas(last, entries, published, kind, f)
  {
    var all := front + [last];
    assert all[|front|] == last;
    assert forall i :: 0 <= i < |front| ==> all[i] == front[i];
  }

  lemma NoEntryHas(branches: seq<Branch>, published: PublishedTags, newest: string, kind: Kind, f: string)
    ensures !HasKey(EntryActions([], branches, published, newest), kind, f) && !Carries([], f)
  {
  }

  lemma {:induction false} EntriesHaveKey(entries: seq<Entry>, branches: seq<Branch>, published: PublishedTags,
                                          newest: string, kind: Kind, f: string)
    ensures HasKey(EntryActions(entries, branches, published, newest), kind, f) <==>
            Carries(entries, f) && !IsPublished(published, f) && KindOf(FirstBuild(f, branches, newest)) == kind
  {
    hide HasKey, Carries, IsPublished;
    if entries == [] {
      NoEntryHas(branches, published, newest, kind, f);
    } else {
      var front, last := entries[..|entries| - 1], entries[|entries| - 1].family;
      EntriesHaveKey(front, branches, published, newest, kind, f);
      var one := if IsPublished(published, last) then [] else [FirstBuild(last, branches, newest)];
      HasKeyJoin(EntryActions(front, branches, published, newest), one, kind, f);
      OneHasKey(FirstBuild(last, branches, newest), kind, f);
      LastCarries(front, entries[|entries| - 1], f);
      assert entries == front + [entries[|entries| - 1]];
    }
  }

  lemma LastCarries(front: seq<Entry>, last: Entry, f: string)
    ensures Carries(front + [last], f) <==> Carries(front, f) || last.family == f
  {
    var all := front + [last];
    assert all[|front|] == last;
    assert forall i :: 0 <= i < |front| ==> all[i] == front[i];
  }

  /** When a kind of action is in the plan for a family. */
  predicate ShouldPlan(entries: seq<Entry>, published: PublishedTags, boots: seq<Boot>, kind: Kind, f: string) {
    var branches := AllBranches(boots);
    || SomeBootHas(boots, entries, kind, f)
    || SomeBranchHas(branches, entries, published, kind, f)
    || (Carries(entries, f) && !IsPublished(published, f)
        && KindOf(FirstBuild(f, branches, NewestPublished(entries, published))) == kind)
  }

  /** The plan holds each (type, family) once, and exactly those whose rule fires. */
  lemma PlanIsExact(channel: string, matrix: seq<Entry>, published: PublishedTags, boots: seq<Boot>, kind: Kind,
                    f: string)
    ensures DistinctKeys(PlanOf(channel, matrix, published, boots))
    ensures HasKey(PlanOf(channel, matrix, published, boots), kind, f) <==>
            ShouldPlan(EntriesOf(channel, matrix), published, boots, kind, f)
  {
    var entries := EntriesOf(channel, matrix);
    var branches, newest := AllBranches(boots), NewestPublished(entries, published);
    var a := AllBootActions(boots, entries);
    var b := AllBranchActions(branches, entries, published);
    var c := EntryActions(entries, branches, published, newest);
    PlanKeysAreDistinct(a + b + c);
    PlanHolds(a + b + c);
    HoldsSameKeys(Fold([], a + b + c), a + b + c, kind, f);
    HasKeyJoin(a + b, c, kind, f);
    HasKeyJoin(a, b, kind, f);
    BootsHaveKey(boots, entries, kind, f);
    BranchesHaveKey(branches, entries, published, kind, f);
    EntriesHaveKey(entries, branches, published, newest, kind, f);
  }

  // ----- first builds -----

  predicate NoneLater(entries: seq<Entry>, newest: string) {
    forall i :: 0 <= i < |entries| ==> !Later(entries[i].family, newest)
  }

  lemma NoneLaterStep(front: seq<Entry>, last: Entry, newest: string, next: string)
    requires NoneLater(front, newest) && !Later(last.family, next)
    requires next == newest || Later(next, newest)
    ensures NoneLater(front + [last], next)
  {
    forall i | 0 <= i < |front|
      ensures !Later(front[i].family, next)
    {
      NotLater(front[i].family, newest, next);
    }
  }

  lemma {:induction false} NewestIsCarried(entries: seq<Entry>)
    ensures entries != [] ==> Carries(entries, NewestOf(entries))
  {
    if entries != [] {
      var front, last := entries[..|entries| - 1], entries[|entries| - 1];
      assert entries == front + [last];
      NewestIsCarried(front);
      LastCarries(front, last, NewestOf(entries));
    }
  }

  lemma OnlyOne(last: Entry)
    ensures NoneLater([last], last.family)
  {
    NotLater(last.family, last.family, last.family);
  }

  lemma {:induction false} NewestIsGreatest(entries: seq<Entry>)
    ensures NoneLater(entries, NewestOf(entries))
  {
    if entries != [] {
      var front, last := entries[..|entries| - 1], entries[|entries| - 1];
      assert entries == front + [last];
      if front == [] {
        assert entries == [last];
        OnlyOne(last);
      } else {
        NewestIsGreatest(front);
        OnlyOne(last);
        NoneLaterStep(front, last, NewestOf(front), NewestOf(entries));
      }
    }
  }

  /** Later is a strict weak order. */
  lemma NotLater(a: string, b: string, c: string)
    ensures !Later(a, a)
    ensures !Later(a, b) && Later(c, b) ==> !Later(a, c)
  {
    var ka, kb, kc := KeyOf(a), KeyOf(b), KeyOf(c);
    PkgVersion.ListLessTotal(ka, ka);
    PkgVersion.ListLessTotal(kb, kc);
    PkgVersion.ListLessTotal(ka, kb);
    if PkgVersion.ListLess(kb, kc) && PkgVersion.ListLess(kc, ka) {
      PkgVersion.ListLessTransitive(kb, kc, ka);
    }
  }

  lemma {:induction false} FirstNameIs(branches: seq<Branch>, family: string, stableOnly: bool)
    requires forall i :: 0 <= i < |branches| ==> branches[i].name != ""
    ensures FirstName(branches, family, stableOnly) != "" <==>
            if stableOnly then ReportedStable(branches, family) else Reported(branches, family)
    decreases |branches|
  {
    if branches != [] {
      FirstNameIs(branches[1..], family, stableOnly);
      assert branches == [branches[0]] + branches[1..];
      assert forall i :: 1 <= i < |branches| ==> branches[i] == branches[1..][i - 1];
    }
  }

  /** A first build is possible: a branch of the family was reported and some non-beta family is published. */
  predicate CanBuild(entries: seq<Entry>, published: PublishedTags, branches: seq<Branch>, f: string) {
    Reported(branches, f) && NewestPublished(entries, published) != ""
  }

  lemma BranchForIs(branches: seq<Branch>, f: string)
    requires forall i :: 0 <= i < |branches| ==> branches[i].name != ""
    ensures BranchFor(branches, f) != "" <==> Reported(branches, f)
  {
    FirstNameIs(branches, f, true);
    FirstNameIs(branches, f, false);
  }

  lemma FirstBuildKind(branches: seq<Branch>, f: string, newest: string)
    requires forall i :: 0 <= i < |branches| ==> branches[i].name != ""
    ensures KindOf(FirstBuild(f, branches, newest))
            == if Reported(branches, f) && newest != "" then PublishNewKind else WarnKind
  {
    BranchForIs(branches, f);
  }

  lemma OnlyEntriesBuild(boots: seq<Boot>, branches: seq<Branch>, entries: seq<Entry>, published: PublishedTags,
                         kind: Kind, f: string)
    requires kind == PublishNewKind || kind == WarnKind
    ensures !SomeBootHas(boots, entries, kind, f) && !SomeBranchHas(branches, entries, published, kind, f)
  {
  }

  lemma ShouldBuildOrWarn(entries: seq<Entry>, published: PublishedTags, boots: seq<Boot>, f: string)
    requires forall i :: 0 <= i < |AllBranches(boots)| ==> AllBranches(boots)[i].name != ""
    ensures var unpublished := Carries(entries, f) && !IsPublished(published, f);
            var builds := CanBuild(entries, published, AllBranches(boots), f);
            && (ShouldPlan(entries, published, boots, PublishNewKind, f) <==> unpublished && builds)
            && (ShouldPlan(entries, published, boots, WarnKind, f) <==> unpublished && !builds)
  {
    OnlyEntriesBuild(boots, AllBranches(boots), entries, published, PublishNewKind, f);
    OnlyEntriesBuild(boots, AllBranches(boots), entries, published, WarnKind, f);
    FirstBuildKind(AllBranches(boots), f, NewestPublished(entries, published));
  }

  /**
   Every unpublished entry's family gets exactly one of a warning and a first build, the build exactly when one is
   possible; a published family gets neither.
   */
  lemma FirstBuildOrWarning(channel: string, matrix: seq<Entry>, published: PublishedTags, boots: seq<Boot>, f: string)
    requires forall i :: 0 <= i < |AllBranches(boots)| ==> AllBranches(boots)[i].name != ""
    ensures var entries := EntriesOf(channel, matrix);
            var plan := PlanOf(channel, matrix, published, boots);
            var unpublished := Carries(entries, f) && !IsPublished(published, f);
            var builds := CanBuild(entries, published, AllBranches(boots), f);
            && (HasKey(plan, PublishNewKind, f) <==> unpublished && builds)
            && (HasKey(plan, WarnKind, f) <==> unpublished && !builds)
  {
    PlanKeys(channel, matrix, published, boots, PublishNewKind, f);
    PlanKeys(channel, matrix, published, boots, WarnKind, f);
    ShouldBuildOrWarn(EntriesOf(channel, matrix), published, boots, f);
  }

  lemma PlanKeys(channel: string, matrix: seq<Entry>, published: PublishedTags, boots: seq<Boot>, kind: Kind, f: string)
    ensures HasKey(PlanOf(channel, matrix, published, boots), kind, f) <==>
            ShouldPlan(EntriesOf(channel, matrix), published, boots, kind, f)
  {
    PlanIsExact(channel, matrix, published, boots, kind, f);
  }

  /** Every first build among the actions is the one for its family. */
  predicate AllFirstBuilds(actions: seq<Action>, branches: seq<Branch>, newest: string) {
    forall i :: 0 <= i < |actions| && actions[i].PublishNew? ==>
      actions[i] == FirstBuild(actions[i].family, branches, newest)
  }

  lemma {:induction false} EntryBuilds(entries: seq<Entry>, branches: seq<Branch>, published: PublishedTags,
                                       newest: string)
    ensures AllFirstBuilds(EntryActions(entries, branches, published, newest), branches, newest)
  {
    if entries != [] {
      EntryBuilds(entries[..|entries| - 1], branches, published, newest);
    }
  }

  lemma NoBuildsThere(actions: seq<Action>, branches: seq<Branch>, newest: string)
    requires forall f :: !HasKey(actions, PublishNewKind, f)
    ensures AllFirstBuilds(actions, branches, newest)
  {
    forall i | 0 <= i < |actions| && actions[i].PublishNew?
      ensures false
    {
      assert HasKey(actions, PublishNewKind, actions[i].family);
    }
  }

  lemma EmittedBuilds(entries: seq<Entry>, published: PublishedTags, boots: seq<Boot>)
    ensures AllFirstBuilds(Emitted(entries, published, boots), AllBranches(boots), NewestPublished(entries, published))
  {
    hide AllBootActions, AllBranchActions, HasKey, NewestPublished, AllBranches;
    var branches, newest := AllBranches(boots), NewestPublished(entries, published);
    var a := AllBootActions(boots, entries);
    var b := AllBranchActions(branches, entries, published);
    forall f
      ensures !HasKey(a, PublishNewKind, f) && !HasKey(b, PublishNewKind, f)
    {
      BootsHaveKey(boots, entries, PublishNewKind, f);
      BranchesHaveKey(branches, entries, published, PublishNewKind, f);
    }
    NoBuildsThere(a, branches, newest);
    NoBuildsThere(b, branches, newest);
    EntryBuilds(entries, branches, published, newest);
  }

  lemma HeldBuilds(table: seq<Action>, actions: seq<Action>, branches: seq<Branch>, newest: string, i: nat)
    requires Holds(table, actions) && AllFirstBuilds(actions, branches, newest) && i < |table| && table[i].PublishNew?
    ensures table[i] == FirstBuild(table[i].family, branches, newest)
  {
    assert ChosenFrom(table[i], actions);
  }

  predicate Names(branches: seq<Branch>, family: string, name: string, stableOnly: bool) {
    exists i :: 0 <= i < |branches| && branches[i].family == family && branches[i].name == name
                && (stableOnly ==> branches[i].stable)
  }

  lemma {:induction false} FirstNameNames(branches: seq<Branch>, family: string, stableOnly: bool)
    requires FirstName(branches, family, stableOnly) != ""
    ensures Names(branches, family, FirstName(branches, family, stableOnly), stableOnly)
    decreases |branches|
  {
    if !(branches[0].family == family && (stableOnly ==> branches[0].stable)) {
      FirstNameNames(branches[1..], family, stableOnly);
      assert branches == [branches[0]] + branches[1..];
      var i :| 0 <= i < |branches[1..]| && branches[1..][i].family == family
               && branches[1..][i].name == FirstName(branches, family, stableOnly)
               && (stableOnly ==> branches[1..][i].stable);
      assert branches[i + 1] == branches[1..][i];
    }
  }

  /**
   What a planned first build says: a reported branch of its family, a stable one if any was reported, and as the
   image to start from the greatest published non-beta family.
   */
  lemma FirstBuildSays(channel: string, matrix: seq<Entry>, published: PublishedTags, boots: seq<Boot>, i: nat)
    requires forall j :: 0 <= j < |AllBranches(boots)| ==> AllBranches(boots)[j].name != ""
    requires i < |PlanOf(channel, matrix, published, boots)| && PlanOf(channel, matrix, published, boots)[i].PublishNew?
    ensures var a, branches := PlanOf(channel, matrix, published, boots)[i], AllBranches(boots);
            var images := PublishedStable(EntriesOf(channel, matrix), published);
            && Names(branches, a.family, a.branch, ReportedStable(branches, a.family))
            && Carries(images, a.from) && NoneLater(images, a.from)
  {
    var entries, branches := EntriesOf(channel, matrix), AllBranches(boots);
    var a := PlanOf(channel, matrix, published, boots)[i];
    EmittedBuilds(entries, published, boots);
    PlanHolds(Emitted(entries, published, boots));
    HeldBuilds(PlanOf(channel, matrix, published, boots), Emitted(entries, published, boots), branches,
               NewestPublished(entries, published), i);
    NewestIsGreatest(PublishedStable(entries, published));
    NewestIsCarried(PublishedStable(entries, published));
    FirstBuildNames(branches, a.family, NewestPublished(entries, published));
  }

  lemma FirstBuildNames(branches: seq<Branch>, family: string, newest: string)
    requires forall j :: 0 <= j < |branches| ==> branches[j].name != ""
    requires FirstBuild(family, branches, newest).PublishNew?
    ensures Names(branches, family, BranchFor(branches, family), ReportedStable(branches, family)) && newest != ""
  {
    FirstNameIs(branches, family, true);
    if FirstName(branches, family, true) != "" {
      FirstNameNames(branches, family, true);
    } else {
      FirstNameNames(branches, family, false);
    }
  }
}
