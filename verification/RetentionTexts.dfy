/**
 Retention of packages whose versions are release tags (scripts/build-repo-portable.py, `_retain_newest`): the order is
 the order of the releases, then the age of the files, then their names; such versions never tie.
 */
module RetentionTexts {
  import opened PkgTexts
  import opened PkgVersion
  import opened ReleaseTags
  import opened ReleaseTexts
  import opened Retention

  /** The texts agree before i, and a has the smaller character there. */
  predicate SmallerAt(a: string, b: string, i: nat) {
    i < |a| && i < |b| && a[..i] == b[..i] && a[i] < b[i]
  }

  /** Dictionary order: a proper beginning, or the smaller character where the texts first differ. */
  ghost predicate TextBefore(a: string, b: string) {
    a < b || exists i: nat :: SmallerAt(a, b, i)
  }

  lemma SameCodes(a: string, b: string)
    ensures Codes(a) == Codes(b) <==> a == b
  {
    if Codes(a) == Codes(b) {
      forall i | 0 <= i < |a|
        ensures a[i] == b[i]
      {
        assert Codes(a)[i] == Codes(b)[i];
      }
    }
  }

  lemma CodesOfPrefix(a: string, i: nat)
    requires i <= |a|
    ensures Codes(a)[..i] == Codes(a[..i])
  {
  }

  lemma SmallerCodes(a: string, b: string, i: nat)
    ensures DiffersAt(Codes(a), Codes(b), i) <==> SmallerAt(a, b, i)
  {
    if i <= |a| && i <= |b| {
      CodesOfPrefix(a, i);
      CodesOfPrefix(b, i);
      SameCodes(a[..i], b[..i]);
    }
  }

  lemma TextLessIs(a: string, b: string)
    ensures TextLess(a, b) <==> TextBefore(a, b)
  {
    hide DiffersAt, SmallerAt;
    var x, y := Codes(a), Codes(b);
    ListLessIs(x, y);
    forall i: nat
      ensures DiffersAt(x, y, i) <==> SmallerAt(a, b, i)
    {
      SmallerCodes(a, b, i);
    }
    if |a| <= |b| {
      CodesOfPrefix(b, |a|);
      SameCodes(a, b[..|a|]);
    }
  }

  predicate HasTag(p: Package, t: Tag) {
    IsTag(t) && p.version == PkgVersionOf(t)
  }

  /** Which of two packages is retained first: the later release, then the newer file, then the greater name. */
  lemma TagsRank(p: Package, t: Tag, q: Package, u: Tag)
    requires HasTag(p, t) && HasTag(q, u)
    ensures RANKS(p, q) <==>
              || Before(t, u)
              || (t == u && (p.mtime < q.mtime || (p.mtime == q.mtime && TextBefore(p.name, q.name))))
    ensures SortKey(p.version) == SortKey(q.version) <==> t == u
  {
    hide SortKey, KeyLess, PkgVersionOf, TextLess, TextBefore;
    KeyOfTag(t);
    KeyOfTag(u);
    KeysAgree(t, u);
    BeforeIs(t, u);
    TextLessIs(p.name, q.name);
    KeyLessTotal(KeyOf(t), KeyOf(u));
  }

  lemma TaggedNeverTie(ps: seq<Package>, tagOf: Package -> Tag)
    requires forall p :: p in ps ==> HasTag(p, tagOf(p))
    ensures NoTies(ps)
  {
    hide HasTag, SortKey;
    forall p, q | p in ps && q in ps && SameRank(p, q)
      ensures SameNv(p, q)
    {
      TagsRank(p, tagOf(p), q, tagOf(q));
      SameTag(p, q, tagOf(p));
    }
  }

  lemma SameTag(p: Package, q: Package, t: Tag)
    requires HasTag(p, t)
    ensures HasTag(q, t) ==> p.version == q.version
  {
  }

  /** The releases are in order, newest first; those of one release may follow one another. */
  ghost predicate NewestFirst(kept: seq<Package>, tagOf: Package -> Tag) {
    forall i, j :: 0 <= i < j < |kept| ==> !Before(tagOf(kept[i]), tagOf(kept[j]))
  }

  /** No package of the list is of an earlier release than p. */
  ghost predicate NoneEarlier(kept: seq<Package>, tagOf: Package -> Tag, p: Package) {
    forall i :: 0 <= i < |kept| ==> !Before(tagOf(kept[i]), tagOf(p))
  }

  lemma NotEarlier(p: Package, q: Package, tagOf: Package -> Tag)
    requires HasTag(p, tagOf(p)) && HasTag(q, tagOf(q)) && RANKS(p, q)
    ensures !Before(tagOf(q), tagOf(p))
  {
    hide HasTag, Before, RANKS;
    TagsRank(p, tagOf(p), q, tagOf(q));
    OneWay(tagOf(p), tagOf(q));
  }

  lemma OneWay(t: Tag, u: Tag)
    ensures Before(t, u) || t == u ==> !Before(u, t)
  {
  }

  /**
   Of packages with release tags the newest releases stay, the newest file of each, newest release first; a package
   goes only for a newer file of its pair, or when `keep` stay and none of them is of an earlier release.
   */
  lemma NewestReleasesStay(ps: seq<Package>, keep: nat, tagOf: Package -> Tag)
    requires forall p :: p in ps ==> HasTag(p, tagOf(p))
    ensures var kept := Retained(ps, keep);
            && |kept| <= keep && NewestFirst(kept, tagOf) && (forall i :: 0 <= i < |kept| ==> IsNewest(kept[i], ps))
            && (forall p :: p in ps && !HasEntry(kept, p) ==> |kept| == keep && NoneEarlier(kept, tagOf, p))
  {
    hide HasTag, Before, Retained, HasEntry, NoTies, RANKS;
    var kept := Retained(ps, keep);
    TaggedNeverTie(ps, tagOf);
    RetainedIsNewest(ps, keep);
    KeptAtMost(ps, keep);
    forall i, j | 0 <= i < j < |kept|
      ensures !Before(tagOf(kept[i]), tagOf(kept[j]))
    {
      NotEarlier(kept[j], kept[i], tagOf);
    }
    forall p | p in ps && !HasEntry(kept, p)
      ensures |kept| == keep && NoneEarlier(kept, tagOf, p)
    {
      var k :| 0 <= k < |ps| && ps[k] == p;
      assert KeptOrPruned(kept, keep, ps[k], RANKS);
      forall i | 0 <= i < |kept|
        ensures !Before(tagOf(kept[i]), tagOf(p))
      {
        NotEarlier(p, kept[i], tagOf);
      }
    }
  }

  lemma KeptAtMost(ps: seq<Package>, keep: nat)
    ensures |Retained(ps, keep)| <= keep
  {
  }
}
