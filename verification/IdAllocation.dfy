/**
 Query ids: the wraparound search of `Decider.register` (go/pfb_dns_gateway/decider.go), and why it
 ends. Ids are 32-bit and 0 belongs to READY.
 */
module IdAllocation {
  import opened FrameCodec

  /** The id reached after k increments of a uint32 counter. */
  function Advance(n: U32, k: nat): U32 {
    (n + k) % TWO_32
  }

  predicate FreeAt(n: U32, busy: set<U32>, k: nat) {
    Advance(n, k) != 0 && Advance(n, k) !in busy
  }

  function Passed(n: U32, k: nat): set<U32> {
    if k == 0 then {} else Passed(n, k - 1) + {Advance(n, k)}
  }

  lemma {:induction false} PassedMembers(n: U32, k: nat, id: U32)
    ensures id in Passed(n, k) <==> exists j :: 1 <= j <= k && Advance(n, j) == id
  {
    if k > 0 {
      PassedMembers(n, k - 1, id);
    }
  }

  lemma AdvanceStep(n: U32, k: nat)
    ensures (Advance(n, k) + 1) % TWO_32 == Advance(n, k + 1)
  {
  }

  lemma AdvanceIsInjective(n: U32, j: nat, k: nat)
    requires j < k < j + TWO_32
    ensures Advance(n, j) != Advance(n, k)
  {
    var a, b := (n + j) / TWO_32, (n + k) / TWO_32;
    assert n + j == a * TWO_32 + Advance(n, j);
    assert n + k == b * TWO_32 + Advance(n, k);
  }

  /** The counter does not come back to an id within one turn. */
  lemma {:induction false} PassedCount(n: U32, k: nat)
    requires k <= TWO_32
    ensures |Passed(n, k)| == k
  {
    if k > 0 {
      PassedCount(n, k - 1);
      PassedMembers(n, k - 1, Advance(n, k));
      if j :| 1 <= j <= k - 1 && Advance(n, j) == Advance(n, k) {
        AdvanceIsInjective(n, j, k);
      }
    }
  }

  /** Pigeonhole: among |busy| + 2 ids in a row one is neither 0 nor taken. */
  lemma Pigeonhole(n: U32, busy: set<U32>, k: nat)
    requires |busy| + 2 <= TWO_32
    requires forall j :: 1 <= j <= k ==> !FreeAt(n, busy, j)
    ensures k <= |busy| + 1
  {
    if k > |busy| + 1 {
      var m := |busy| + 2;
      PassedCount(n, m);
      forall id | id in Passed(n, m)
        ensures id in busy + {0}
      {
        PassedMembers(n, m, id);
        var j :| 1 <= j <= m && Advance(n, j) == id;
        assert !FreeAt(n, busy, j);
      }
      SubsetSize(Passed(n, m), busy + {0});
      assert false;
    }
  }

  lemma {:induction false} SubsetSize<T>(a: set<T>, b: set<T>)
    requires a <= b
    ensures |a| <= |b|
  {
    if a != {} {
      var x :| x in a;
      SubsetSize(a - {x}, b - {x});
    }
  }

  /** The number of increments up to the first free id, searching from the k-th on. */
  function Distance(n: U32, busy: set<U32>, k: nat): (d: nat)
    requires |busy| + 2 <= TWO_32
    requires 1 <= k
    requires forall j :: 1 <= j < k ==> !FreeAt(n, busy, j)
    ensures FreeAt(n, busy, d) && 1 <= d <= |busy| + 2
    ensures forall j :: 1 <= j < d ==> !FreeAt(n, busy, j)
    decreases |busy| + 3 - k
  {
    Pigeonhole(n, busy, k - 1);
    if FreeAt(n, busy, k) then k else
      Pigeonhole(n, busy, k);
      Distance(n, busy, k + 1)
  }

  /** The first id after n, in counter order, that is neither 0 nor taken. */
  function NextFree(n: U32, busy: set<U32>): (id: U32)
    requires |busy| + 2 <= TWO_32
    ensures id != 0 && id !in busy
  {
    Advance(n, Distance(n, busy, 1))
  }

  /** There is only one first free id, so finding one is finding it. */
  lemma FirstIsNext(n: U32, busy: set<U32>, k: nat)
    requires |busy| + 2 <= TWO_32
    requires 1 <= k && FreeAt(n, busy, k)
    requires forall j :: 1 <= j < k ==> !FreeAt(n, busy, j)
    ensures NextFree(n, busy) == Advance(n, k) == (n + k) % 0x1_0000_0000
    ensures k <= |busy| + 2
  {
    var d := Distance(n, busy, 1);
    assert !(d < k) && !(k < d);
  }
}
