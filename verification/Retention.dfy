/**
 Retention of built packages (scripts/build-repo-portable.py, `_retain_newest`): the newest `keep` distinct
 (name, version) pairs, and the claim that pruning after every build keeps what pruning the whole history would.
 */
module Retention {
  import opened PkgVersion
  import opened Ranking

  /** A package file; `id` stands for the file itself, and name, version and mtime are what is read from it. */
  datatype Package = Package(id: nat, name: string, version: string, mtime: int)

  // ----- the order: version key, then mtime, then name -----

  function Codes(s: string): (c: seq<nat>)
    ensures |c| == |s|
    ensures forall i :: 0 <= i < |s| ==> c[i] == s[i] as nat
  {
    seq(|s|, i requires 0 <= i < |s| => s[i] as nat)
  }

  /** Python's string order. */
  predicate TextLess(a: string, b: string) {
    ListLess(Codes(a), Codes(b))
  }

  predicate Outranked(p: Package, q: Package) {
    || KeyLess(SortKey(p.version), SortKey(q.version))
    || (SortKey(p.version) == SortKey(q.version)
        && (p.mtime < q.mtime || (p.mtime == q.mtime && TextLess(p.name, q.name))))
  }

  const RANKS: (Package, Package) -> bool := (p: Package, q: Package) => Outranked(p, q)

  predicate SameRank(p: Package, q: Package) {
    SortKey(p.version) == SortKey(q.version) && p.mtime == q.mtime && p.name == q.name
  }

  predicate SameNv(p: Package, q: Package) {
    p.name == q.name && p.version == q.version
  }

  lemma OutrankedIsStrict(a: Package, b: Package, c: Package)
    ensures !Outranked(a, a)
    ensures Outranked(a, b) && Outranked(b, c) ==> Outranked(a, c)
  {
    var ka, kb, kc := SortKey(a.version), SortKey(b.version), SortKey(c.version);
    KeyLessTotal(ka, ka);
    ListLessTotal(Codes(a.name), Codes(a.name));
    if KeyLess(ka, kb) && KeyLess(kb, kc) {
      KeyLessTransitive(ka, kb, kc);
    }
    if TextLess(a.name, b.name) && TextLess(b.name, c.name) {
      ListLessTransitive(Codes(a.name), Codes(b.name), Codes(c.name));
    }
  }

  lemma RanksAreStrict()
    ensures Strict(RANKS)
  {
    forall a, b, c
      ensures !RANKS(a, a)
      ensures RANKS(a, b) && RANKS(b, c) ==> RANKS(a, c)
    {
      OutrankedIsStrict(a, b, c);
    }
  }

  lemma RanksAreTotal(a: Package, b: Package)
    ensures SameRank(a, b) || RANKS(a, b) || RANKS(b, a)
  {
    KeyLessTotal(SortKey(a.version), SortKey(b.version));
    ListLessTotal(Codes(a.name), Codes(b.name));
    if Codes(a.name) == Codes(b.name) {
      assert forall i :: 0 <= i < |a.name| ==> Codes(a.name)[i] == Codes(b.name)[i];
      assert a.name == b.name;
    }
  }

  lemma SameRankRanks(a: Package, b: Package, c: Package)
    requires SameRank(a, b)
    ensures RANKS(a, c) == RANKS(b, c)
  {
  }

  lemma RanksAreWeak()
    ensures Weak(RANKS)
  {
    hide Outranked, SameRank;
    RanksAreStrict();
    forall a, b, c | RANKS(a, c)
      ensures RANKS(a, b) || RANKS(b, c)
    {
      RanksAreTotal(a, b);
      if SameRank(a, b) {
        SameRankRanks(a, b, c);
      }
    }
  }

  /** Different (name, version) pairs never tie. Distinct versions with distinct sort keys suffice for that. */
  predicate NoTies(ps: seq<Package>) {
    forall p, q :: p in ps && q in ps && SameRank(p, q) ==> SameNv(p, q)
  }

  lemma DistinctKeysNeverTie(ps: seq<Package>)
    requires forall p, q :: p in ps && q in ps && SortKey(p.version) == SortKey(q.version) ==> p.version == q.version
    ensures NoTies(ps)
  {
  }

  // ----- one package per (name, version) -----

  /** The position of p's pair among the entries, or their number. */
  function EntryOf(entries: seq<Package>, p: Package): (i: nat)
    ensures i <= |entries| && (i < |entries| ==> SameNv(entries[i], p))
    ensures forall j :: 0 <= j < i ==> !SameNv(entries[j], p)
  {
    if entries == [] || SameNv(entries[0], p) then 0 else 1 + EntryOf(entries[1..], p)
  }

  /** The dictionary keeps its insertion order; only a newer file replaces an entry. */
  function AddEntry(entries: seq<Package>, p: Package): seq<Package> {
    var i := EntryOf(entries, p);
    if i == |entries| then entries + [p]
    else if p.mtime > entries[i].mtime then entries[i := p]
    else entries
  }

  function Entries(ps: seq<Package>): seq<Package> {
    if ps == [] then [] else AddEntry(Entries(ps[..|ps| - 1]), ps[|ps| - 1])
  }

  function Ordered(ps: seq<Package>): seq<Package> {
    SortDescending(Entries(ps), RANKS)
  }

  function Retained(ps: seq<Package>, keep: nat): seq<Package> {
    Take(Ordered(ps), keep)
  }

  method RetainNewest(pkgPaths: seq<Package>, keep: nat) returns (kept: seq<Package>)
    ensures kept == Retained(pkgPaths, keep)
  {
    var byNv: seq<Package> := [];
    for i := 0 to |pkgPaths|
      invariant byNv == Entries(pkgPaths[..i])
    {
      var p := pkgPaths[i];
      assert pkgPaths[..i + 1][..i] == pkgPaths[..i];
      var at := EntryOf(byNv, p);
      if at == |byNv| {
        byNv := byNv + [p];
      } else if p.mtime > byNv[at].mtime {
        byNv := byNv[at := p];
      }
    }
    assert pkgPaths[..|pkgPaths|] == pkgPaths;
    var ordered := SortDescending(byNv, RANKS);
    kept := Take(ordered, keep);
  }

  predicate DistinctNv(s: seq<Package>) {
    forall i, j :: 0 <= i < j < |s| ==> !SameNv(s[i], s[j])
  }

  predicate Within(es: seq<Package>, ps: seq<Package>) {
    forall i :: 0 <= i < |es| ==> es[i] in ps
  }

  ghost predicate SameMembers(a: seq<Package>, b: seq<Package>) {
    forall x :: x in a <==> x in b
  }

  /** Every package has an entry of its pair at least as new. */
  predicate Covers(es: seq<Package>, ps: seq<Package>) {
    forall i :: 0 <= i < |ps| ==> HasEntry(es, ps[i])
  }

  predicate HasEntry(es: seq<Package>, p: Package) {
    exists i :: 0 <= i < |es| && SameNv(es[i], p) && p.mtime <= es[i].mtime
  }

  lemma AddEntryDistinct(entries: seq<Package>, p: Package, ps: seq<Package>)
    requires DistinctNv(entries) && Within(entries, ps)
    ensures DistinctNv(AddEntry(entries, p)) && Within(AddEntry(entries, p), ps + [p])
  {
  }

  lemma {:induction false} EntriesAreDistinct(ps: seq<Package>)
    ensures DistinctNv(Entries(ps)) && Within(Entries(ps), ps)
  {
    if ps != [] {
      var front, p := ps[..|ps| - 1], ps[|ps| - 1];
      EntriesAreDistinct(front);
      AddEntryDistinct(Entries(front), p, front);
      assert ps == front + [p];
    }
  }

  lemma {:induction false} EntriesAreNewest(ps: seq<Package>)
    ensures Covers(Entries(ps), ps)
  {
    if ps != [] {
      var front, last := ps[..|ps| - 1], ps[|ps| - 1];
      EntriesAreNewest(front);
      forall i | 0 <= i < |ps|
        ensures HasEntry(Entries(ps), ps[i])
      {
        if i < |front| {
          assert HasEntry(Entries(front), front[i]);
          AddKeeps(Entries(front), last, front[i]);
        } else {
          AddHas(Entries(front), last);
        }
      }
    }
  }

  lemma AddKeeps(entries: seq<Package>, p: Package, x: Package)
    requires HasEntry(entries, x)
    ensures HasEntry(AddEntry(entries, p), x)
  {
    var r := AddEntry(entries, p);
    var j :| 0 <= j < |entries| && SameNv(entries[j], x) && x.mtime <= entries[j].mtime;
    assert SameNv(r[j], x) && x.mtime <= r[j].mtime;
  }

  lemma AddHas(entries: seq<Package>, p: Package)
    ensures HasEntry(AddEntry(entries, p), p)
  {
    var i, r := EntryOf(entries, p), AddEntry(entries, p);
    assert SameNv(r[i], p) && p.mtime <= r[i].mtime;
  }

  /** p is comparable with every entry of another pair. */
  predicate TotalWith(es: seq<Package>, p: Package, less: (Package, Package) -> bool) {
    forall i :: 0 <= i < |es| && !SameNv(es[i], p) ==> less(es[i], p) || less(p, es[i])
  }

  lemma NoTiesIsTotal(ps: seq<Package>, es: seq<Package>, p: Package)
    requires NoTies(ps) && Within(es, ps) && p in ps
    ensures TotalWith(es, p, RANKS)
  {
    forall i | 0 <= i < |es| && !SameNv(es[i], p)
      ensures RANKS(es[i], p) || RANKS(p, es[i])
    {
      RanksAreTotal(es[i], p);
    }
  }

  lemma EntriesAreTotal(ps: seq<Package>, es: seq<Package>)
    requires NoTies(ps) && DistinctNv(es) && Within(es, ps)
    ensures Total(es, RANKS)
  {
    forall i, j | 0 <= i < j < |es|
      ensures RANKS(es[i], es[j]) || RANKS(es[j], es[i])
    {
      RanksAreTotal(es[i], es[j]);
    }
  }

  lemma OrderedDescends(ps: seq<Package>)
    requires NoTies(ps)
    ensures Strict(RANKS) && Descending(Ordered(ps), RANKS)
    ensures SameMembers(Ordered(ps), Entries(ps))
  {
    RanksAreStrict();
    EntriesAreDistinct(ps);
    EntriesAreTotal(ps, Entries(ps));
    SortIsDescending(Entries(ps), RANKS);
    SortMembers(Entries(ps), RANKS);
  }

  /** Ties or not, the order falls and holds the entries. */
  lemma OrderedFalls(ps: seq<Package>)
    ensures Weak(RANKS) && Falling(Ordered(ps), RANKS)
    ensures SameMembers(Ordered(ps), Entries(ps))
  {
    RanksAreWeak();
    SortFalls(Entries(ps), RANKS);
    SortMembers(Entries(ps), RANKS);
  }

  lemma PlaceDistinct(p: Package, s: seq<Package>)
    requires DistinctNv(s) && forall i :: 0 <= i < |s| ==> !SameNv(s[i], p)
    ensures DistinctNv(Place(p, s, RANKS))
  {
  }

  lemma {:induction false} SortDistinct(s: seq<Package>)
    requires DistinctNv(s)
    ensures DistinctNv(SortDescending(s, RANKS))
  {
    if s != [] {
      var rest := s[1..];
      var sorted := SortDescending(rest, RANKS);
      assert forall i :: 0 <= i < |rest| ==> rest[i] == s[i + 1];
      SortDistinct(rest);
      SortMembers(rest, RANKS);
      forall i | 0 <= i < |sorted|
        ensures !SameNv(sorted[i], s[0])
      {
        assert sorted[i] in rest;
      }
      PlaceDistinct(s[0], sorted);
    }
  }

  lemma MembersWithin(es: seq<Package>, os: seq<Package>, ps: seq<Package>)
    requires SameMembers(os, es) && Within(es, ps)
    ensures Within(os, ps)
  {
    forall i | 0 <= i < |os|
      ensures os[i] in ps
    {
      assert os[i] in es;
    }
  }

  lemma MembersCover(es: seq<Package>, os: seq<Package>, ps: seq<Package>)
    requires SameMembers(os, es) && Covers(es, ps)
    ensures Covers(os, ps)
  {
    forall i | 0 <= i < |ps|
      ensures HasEntry(os, ps[i])
    {
      assert HasEntry(es, ps[i]);
      var j :| 0 <= j < |es| && SameNv(es[j], ps[i]) && ps[i].mtime <= es[j].mtime;
      assert es[j] in os;
    }
  }

  lemma OrderedMembers(ps: seq<Package>)
    ensures DistinctNv(Ordered(ps)) && Within(Ordered(ps), ps) && Covers(Ordered(ps), ps)
  {
    OrderedFalls(ps);
    EntriesAreDistinct(ps);
    EntriesAreNewest(ps);
    SortDistinct(Entries(ps));
    MembersWithin(Entries(ps), Ordered(ps), ps);
    MembersCover(Entries(ps), Ordered(ps), ps);
  }

  /** e is the newest file of its pair. */
  predicate IsNewest(e: Package, ps: seq<Package>) {
    e in ps && forall i :: 0 <= i < |ps| && SameNv(ps[i], e) ==> ps[i].mtime <= e.mtime
  }

  /** p's pair is kept, or `keep` packages are and all of them rank above p. */
  predicate KeptOrPruned(kept: seq<Package>, keep: nat, p: Package, less: (Package, Package) -> bool) {
    || HasEntry(kept, p)
    || (|kept| == keep && forall i :: 0 <= i < keep ==> less(p, kept[i]))
  }

  /**
   What is kept: the newest file of each kept pair, newest pair first; and a pair is dropped only when `keep` others
   are kept and all of them rank above every file of it.
   */
  lemma RetainedIsNewest(ps: seq<Package>, keep: nat)
    requires NoTies(ps)
    ensures Descending(Retained(ps, keep), RANKS) && DistinctNv(Retained(ps, keep))
    ensures forall i :: 0 <= i < |Retained(ps, keep)| ==> IsNewest(Retained(ps, keep)[i], ps)
    ensures forall i :: 0 <= i < |ps| ==> KeptOrPruned(Retained(ps, keep), keep, ps[i], RANKS)
  {
    OrderedDescends(ps);
    OrderedMembers(ps);
    CutIsNewest(Ordered(ps), ps, keep);
    forall i | 0 <= i < |ps|
      ensures KeptOrPruned(Retained(ps, keep), keep, ps[i], RANKS)
    {
      CutKeepsOrPrunes(Ordered(ps), keep, ps[i]);
    }
  }

  lemma CutIsNewest(os: seq<Package>, ps: seq<Package>, keep: nat)
    requires Descending(os, RANKS) && DistinctNv(os) && Within(os, ps) && Covers(os, ps)
    ensures Descending(Take(os, keep), RANKS) && DistinctNv(Take(os, keep))
    ensures forall i :: 0 <= i < |Take(os, keep)| ==> IsNewest(Take(os, keep)[i], ps)
  {
    TakeDescends(os, keep, RANKS);
    TakeDistinct(os, keep);
    forall i | 0 <= i < |Take(os, keep)|
      ensures IsNewest(Take(os, keep)[i], ps)
    {
      CoveringIsNewest(os, ps, i);
    }
  }

  lemma TakeDistinct(s: seq<Package>, k: nat)
    requires DistinctNv(s)
    ensures DistinctNv(Take(s, k))
  {
  }

  lemma OnePerPair(os: seq<Package>, i: nat, j: nat)
    requires DistinctNv(os) && i < |os| && j < |os| && SameNv(os[i], os[j])
    ensures i == j
  {
  }

  lemma CoveringIsNewest(os: seq<Package>, ps: seq<Package>, i: nat)
    requires DistinctNv(os) && Within(os, ps) && Covers(os, ps) && i < |os|
    ensures IsNewest(os[i], ps)
  {
    forall j | 0 <= j < |ps| && SameNv(ps[j], os[i])
      ensures ps[j].mtime <= os[i].mtime
    {
      EntryIsNewest(os, i, ps[j]);
    }
  }

  lemma EntryIsNewest(os: seq<Package>, i: nat, p: Package)
    requires DistinctNv(os) && i < |os| && HasEntry(os, p) && SameNv(p, os[i])
    ensures p.mtime <= os[i].mtime
  {
    var k :| 0 <= k < |os| && SameNv(os[k], p) && p.mtime <= os[k].mtime;
    OnePerPair(os, i, k);
  }

  lemma CutKeepsOrPrunes(os: seq<Package>, keep: nat, p: Package)
    requires Strict(RANKS) && Descending(os, RANKS) && HasEntry(os, p)
    ensures KeptOrPruned(Take(os, keep), keep, p, RANKS)
  {
    var i :| 0 <= i < |os| && SameNv(os[i], p) && p.mtime <= os[i].mtime;
    var kept := Take(os, keep);
    if i < |kept| {
      assert kept[i] == os[i];
    } else {
      forall j | 0 <= j < keep
        ensures RANKS(p, kept[j])
      {
        HeldBelow(p, os[i], os[j]);
      }
    }
  }

  /** An older file of a pair ranks no higher than the pair's entry. */
  lemma HeldBelow(p: Package, held: Package, above: Package)
    requires SameNv(p, held) && p.mtime <= held.mtime && RANKS(held, above)
    ensures RANKS(p, above)
  {
    if p.mtime < held.mtime {
      assert RANKS(p, held);
      OutrankedIsStrict(p, held, above);
    }
  }

  // ----- adding one build to an ordered list -----

  function AddOrdered(kept: seq<Package>, p: Package): seq<Package> {
    var i := EntryOf(kept, p);
    if i == |kept| then Place(p, kept, RANKS)
    else if p.mtime > kept[i].mtime then Place(p, Without(kept, i), RANKS)
    else kept
  }

  /** p is newer than whatever is held for its pair. */
  predicate Supersedes(entries: seq<Package>, p: Package) {
    forall i :: 0 <= i < |entries| && SameNv(entries[i], p) ==> entries[i].mtime < p.mtime
  }

  predicate HasAfter(entries: seq<Package>, p: Package, x: Package) {
    if Supersedes(entries, p) then x == p || (x in entries && !SameNv(x, p)) else x in entries
  }

  lemma SupersedesAt(entries: seq<Package>, p: Package)
    requires DistinctNv(entries)
    ensures var i := EntryOf(entries, p);
            Supersedes(entries, p) <==> i == |entries| || entries[i].mtime < p.mtime
  {
  }

  lemma WithoutMembers(entries: seq<Package>, i: nat, x: Package)
    requires DistinctNv(entries) && i < |entries|
    ensures x in Without(entries, i) <==> x in entries && !SameNv(x, entries[i])
  {
    var rest := Without(entries, i);
    if x in rest {
      var j :| 0 <= j < |rest| && rest[j] == x;
      assert x == entries[if j < i then j else j + 1];
    }
    if x in entries && !SameNv(x, entries[i]) {
      var j :| 0 <= j < |entries| && entries[j] == x;
      assert x == rest[if j < i then j else j - 1];
    }
  }

  lemma AddEntryMembers(entries: seq<Package>, p: Package, x: Package)
    requires DistinctNv(entries)
    ensures x in AddEntry(entries, p) <==> HasAfter(entries, p, x)
  {
    SupersedesAt(entries, p);
    var i := EntryOf(entries, p);
    if i < |entries| {
      WithoutMembers(entries, i, x);
      assert entries[i := p] == entries[..i] + [p] + entries[i + 1..];
    }
  }

  lemma AddOrderedMembers(kept: seq<Package>, p: Package, x: Package)
    requires DistinctNv(kept)
    ensures x in AddOrdered(kept, p) <==> HasAfter(kept, p, x)
  {
    SupersedesAt(kept, p);
    var i := EntryOf(kept, p);
    if i == |kept| {
      PlaceMembers(p, kept, RANKS);
    } else {
      WithoutMembers(kept, i, x);
      PlaceMembers(p, Without(kept, i), RANKS);
    }
  }

  lemma WithoutDescends(s: seq<Package>, i: nat, less: (Package, Package) -> bool)
    requires Descending(s, less) && i < |s|
    ensures Descending(Without(s, i), less)
  {
    var r := Without(s, i);
    forall j, k | 0 <= j < k < |r|
      ensures less(r[k], r[j])
    {
      assert r[j] == s[if j < i then j else j + 1] && r[k] == s[if k < i then k else k + 1];
    }
  }

  lemma AddOrderedDescends(kept: seq<Package>, p: Package)
    requires Strict(RANKS) && Descending(kept, RANKS) && DistinctNv(kept) && TotalWith(kept, p, RANKS)
    ensures Descending(AddOrdered(kept, p), RANKS)
  {
    var i := EntryOf(kept, p);
    if i < |kept| {
      WithoutDescends(kept, i, RANKS);
      WithoutIsComparable(kept, i, p, RANKS);
      PlaceDescending(p, Without(kept, i), RANKS);
    } else {
      PlaceDescending(p, kept, RANKS);
    }
  }

  lemma WithoutIsComparable(kept: seq<Package>, i: nat, p: Package, less: (Package, Package) -> bool)
    requires DistinctNv(kept) && i < |kept| && SameNv(kept[i], p) && TotalWith(kept, p, less)
    ensures Comparable(p, Without(kept, i), less)
  {
    var r := Without(kept, i);
    forall j | 0 <= j < |r|
      ensures less(p, r[j]) || less(r[j], p)
    {
      assert r[j] == kept[if j < i then j else j + 1];
    }
  }

  lemma SameAfter(a: seq<Package>, b: seq<Package>, p: Package, x: Package)
    requires SameMembers(a, b)
    ensures HasAfter(a, p, x) <==> HasAfter(b, p, x)
  {
    if Supersedes(a, p) || Supersedes(b, p) {
      assert forall i :: 0 <= i < |a| ==> a[i] in b;
      assert forall i :: 0 <= i < |b| ==> b[i] in a;
    }
  }

  /** One more build: sorting everything again is placing the new one. */
  lemma OrderedAfter(ps: seq<Package>, p: Package)
    requires NoTies(ps + [p])
    ensures Ordered(ps + [p]) == AddOrdered(Ordered(ps), p)
  {
    var all, os := ps + [p], Ordered(ps);
    assert all[..|all| - 1] == ps;
    assert NoTies(ps);
    OrderedDescends(all);
    OrderedDescends(ps);
    OrderedMembers(ps);
    EntriesAreDistinct(ps);
    NoTiesIsTotal(all, os, p);
    AddOrderedDescends(os, p);
    forall x
      ensures x in Ordered(all) <==> x in AddOrdered(os, p)
    {
      AddEntryMembers(Entries(ps), p, x);
      AddOrderedMembers(os, p, x);
      SameAfter(os, Entries(ps), p, x);
    }
    DescendingIsUnique(Ordered(all), AddOrdered(os, p), RANKS);
  }

  lemma {:induction false} EntryTake(s: seq<Package>, p: Package, k: nat)
    requires k <= |s|
    ensures EntryOf(s[..k], p) == if EntryOf(s, p) <= k then EntryOf(s, p) else k
    decreases |s|
  {
    if s != [] && k > 0 && !SameNv(s[0], p) {
      EntryTake(s[1..], p, k - 1);
      assert s[..k][1..] == s[1..][..k - 1];
    }
  }

  /** Adding and then cutting needs only what the cut before had kept. */
  lemma AddTake(s: seq<Package>, p: Package, k: nat)
    requires Strict(RANKS) && Descending(s, RANKS)
    ensures Take(AddOrdered(s, p), k) == Take(AddOrdered(Take(s, k), p), k)
  {
    hide Place, EntryOf;
    if k < |s| {
      var i := EntryOf(s, p);
      EntryTake(s, p, k);
      if i == |s| {
        PlaceTake(p, s, k, RANKS);
      } else if i < k {
        MovedTake(s, p, k);
      } else if p.mtime > s[i].mtime {
        PlaceTake(p, Without(s, i), k, RANKS);
        assert Without(s, i)[..k] == s[..k];
      } else {
        PrunedStaysOut(s, p, k);
      }
    } else {
      assert Take(s, k) == s;
    }
  }

  lemma MovedTake(s: seq<Package>, p: Package, k: nat)
    requires Strict(RANKS) && Descending(s, RANKS) && EntryOf(s, p) < k < |s| && EntryOf(s[..k], p) == EntryOf(s, p)
    ensures Take(AddOrdered(s, p), k) == Take(AddOrdered(s[..k], p), k)
  {
    var i := EntryOf(s, p);
    assert s[..k][i] == s[i];
    if p.mtime > s[i].mtime {
      assert RANKS(s[i], p);
      MoveTake(p, s, i, k, RANKS);
      var r := Place(p, Without(s[..k], i), RANKS);
      assert Take(r, k) == r;
    } else {
      assert s[..k][..k] == s[..k];
    }
  }

  /** A pruned pair that comes back no newer than before is pruned again. */
  lemma PrunedStaysOut(s: seq<Package>, p: Package, k: nat)
    requires Strict(RANKS) && Descending(s, RANKS) && k <= EntryOf(s, p) < |s| && EntryOf(s[..k], p) == k
    requires p.mtime <= s[EntryOf(s, p)].mtime
    ensures Take(AddOrdered(s[..k], p), k) == s[..k]
  {
    var i := EntryOf(s, p);
    forall j | 0 <= j < k
      ensures RANKS(p, s[..k][j])
    {
      assert RANKS(s[i], s[j]);
      HeldBelow(p, s[i], s[j]);
    }
    PlaceBelow(p, s[..k], RANKS);
  }

  // ----- pruning after every build -----

  /** A directory listing of what was kept: one file per pair, in whatever order the names sort. */
  ghost predicate Lists(files: seq<Package>, kept: seq<Package>) {
    DistinctNv(files) && SameMembers(files, kept)
  }

  lemma {:induction false} DistinctEntries(files: seq<Package>)
    requires DistinctNv(files)
    ensures Entries(files) == files
  {
    if files != [] {
      var front := files[..|files| - 1];
      DistinctEntries(front);
      assert files == front + [files[|files| - 1]];
    }
  }

  lemma TakeDescends(s: seq<Package>, k: nat, less: (Package, Package) -> bool)
    requires Descending(s, less)
    ensures Descending(Take(s, k), less)
  {
  }

  lemma TakeWithin(s: seq<Package>, k: nat, ps: seq<Package>)
    requires Within(s, ps)
    ensures Within(Take(s, k), ps)
  {
  }

  lemma NoTiesWithin(es: seq<Package>, ps: seq<Package>)
    requires NoTies(ps) && Within(es, ps)
    ensures NoTies(es)
  {
  }

  lemma ListingOrders(files: seq<Package>, ps: seq<Package>, keep: nat)
    requires NoTies(ps) && Lists(files, Retained(ps, keep))
    ensures Ordered(files) == Retained(ps, keep) && Within(files, ps)
  {
    OrderedDescends(ps);
    OrderedMembers(ps);
    TakeDescends(Ordered(ps), keep, RANKS);
    TakeWithin(Ordered(ps), keep, ps);
    MembersWithin(Retained(ps, keep), files, ps);
    NoTiesWithin(files, ps);
    OrderedDescends(files);
    DistinctEntries(files);
    DescendingIsUnique(Ordered(files), Retained(ps, keep), RANKS);
  }

  /** One nightly run: folding the new build into the pruned directory keeps what the whole history would. */
  lemma FoldIsFull(files: seq<Package>, ps: seq<Package>, p: Package, keep: nat)
    requires NoTies(ps + [p]) && Lists(files, Retained(ps, keep))
    ensures Retained(files + [p], keep) == Retained(ps + [p], keep)
  {
    NoTiesWithin(ps, ps + [p]);
    ListingOrders(files, ps, keep);
    NoTiesWithin(files + [p], ps + [p]);
    OrderedAfter(files, p);
    OrderedAfter(ps, p);
    OrderedDescends(ps);
    AddTake(Ordered(ps), p, keep);
  }

  /** A run: the directory starts empty, and after each build lists what was kept of the listing and the build. */
  ghost predicate IsRun(listings: seq<seq<Package>>, builds: seq<Package>, keep: nat) {
    && |listings| == |builds| + 1 && listings[0] == []
    && forall i :: 0 <= i < |builds| ==> Lists(listings[i + 1], Retained(listings[i] + [builds[i]], keep))
  }

  lemma RunStep(listings: seq<seq<Package>>, builds: seq<Package>, keep: nat, i: nat)
    requires IsRun(listings, builds, keep) && i < |builds|
    ensures Lists(listings[i + 1], Retained(listings[i] + [builds[i]], keep))
  {
  }

  lemma PrefixNeverTies(builds: seq<Package>, n: nat)
    requires NoTies(builds) && n <= |builds|
    ensures NoTies(builds[..n])
  {
  }

  lemma EmptyRun(listing: seq<Package>, keep: nat)
    requires listing == []
    ensures Lists(listing, Retained([], keep))
  {
  }

  /** After any run the directory holds exactly what pruning the full history keeps. */
  lemma {:induction false} IncrementalIsFull(listings: seq<seq<Package>>, builds: seq<Package>, keep: nat, n: nat)
    requires NoTies(builds) && IsRun(listings, builds, keep) && n <= |builds|
    ensures Lists(listings[n], Retained(builds[..n], keep))
    decreases n
  {
    hide Retained, Lists, NoTies;
    if n == 0 {
      EmptyRun(listings[0], keep);
      assert builds[..0] == [];
    } else {
      IncrementalIsFull(listings, builds, keep, n - 1);
      PrefixNeverTies(builds, n);
      var ps, p := builds[..n - 1], builds[n - 1];
      assert builds[..n] == ps + [p];
      RunStep(listings, builds, keep, n - 1);
      FoldIsFull(listings[n - 1], ps, p, keep);
    }
  }
}
