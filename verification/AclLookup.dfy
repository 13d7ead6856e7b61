/**
 The client's side of the access-control list (go/pfb_dns_gateway/acl.go): the rule map, its index by prefix
 length, and the lookup. Addresses are numbers; their text forms are not part of this model.
 */
module AclLookup {
  import opened Common
  import opened Powers

  datatype Action = Forward | Drop | Refuse

  datatype Addr = Addr(v4: bool, value: nat)

  datatype Prefix = Prefix(v4: bool, value: nat, len: nat)

  function Width(v4: bool): nat {
    if v4 then 32 else 128
  }

  function Masked(v4: bool, value: nat, len: nat): nat
    requires len <= Width(v4)
  {
    value / Pow2(Width(v4) - len) * Pow2(Width(v4) - len)
  }

  /** What parseNetblock returns: a length within the family's width and no host bits. */
  predicate IsMasked(p: Prefix) {
    p.len <= Width(p.v4) && p.value == Masked(p.v4, p.value, p.len)
  }

  predicate AllMasked(rows: map<Prefix, Action>) {
    forall p <- rows :: IsMasked(p)
  }

  /** The address agrees with the prefix in its first len bits. */
  predicate Covers(p: Prefix, a: Addr) {
    && p.v4 == a.v4 && p.len <= Width(p.v4)
    && a.value / Pow2(Width(p.v4) - p.len) == p.value / Pow2(Width(p.v4) - p.len)
  }

  /** netip.Addr.Prefix: the masked prefix of that length; nothing when the family has fewer bits. */
  function PrefixOf(a: Addr, len: nat): Option<Prefix> {
    if len <= Width(a.v4) then Some(Prefix(a.v4, Masked(a.v4, a.value, len), len)) else None
  }

  lemma MaskedDivides(x: nat, d: nat)
    requires d > 0
    ensures x / d * d / d == x / d
  {
    DivisionIsUnique(x / d * d, d, x / d, 0);
  }

  /** Looking the masked client up under a length finds exactly the prefix of that length that covers it. */
  lemma PrefixOfCovers(p: Prefix, a: Addr)
    requires IsMasked(p)
    ensures PrefixOf(a, p.len) == Some(p) <==> Covers(p, a)
  {
    if p.v4 == a.v4 {
      var d := Pow2(Width(p.v4) - p.len);
      MaskedDivides(a.value, d);
      assert Masked(a.v4, a.value, p.len) == a.value / d * d;
      assert p.value == p.value / d * d;
    }
  }

  /** The most specific row that names the client. */
  ghost predicate IsBest(rows: map<Prefix, Action>, a: Addr, p: Prefix) {
    p in rows && Covers(p, a) && forall q <- rows :: Covers(q, a) ==> q.len <= p.len
  }

  ghost predicate Named(rows: map<Prefix, Action>, a: Addr) {
    exists p :: p in rows && Covers(p, a)
  }

  lemma BestIsUnique(rows: map<Prefix, Action>, a: Addr, p: Prefix, q: Prefix)
    requires AllMasked(rows) && IsBest(rows, a, p) && IsBest(rows, a, q)
    ensures p == q
  {
    PrefixOfCovers(p, a);
    PrefixOfCovers(q, a);
  }

  lemma {:induction false} BestExists(rows: map<Prefix, Action>, a: Addr) returns (p: Prefix)
    requires Named(rows, a)
    ensures IsBest(rows, a, p)
  {
    p :| p in rows && Covers(p, a);
    p := Improve(rows, a, p);
  }

  lemma {:induction false} Improve(rows: map<Prefix, Action>, a: Addr, p: Prefix) returns (best: Prefix)
    requires p in rows && Covers(p, a)
    ensures IsBest(rows, a, best)
    decreases Width(a.v4) - p.len
  {
    if q :| q in rows && Covers(q, a) && q.len > p.len {
      best := Improve(rows, a, q);
    } else {
      best := p;
    }
  }

  /** The plain scan: the action of the most specific row, Refuse when no row names the client. */
  ghost function Scan(rows: map<Prefix, Action>, a: Addr): Action {
    if Named(rows, a) then
      BestExists'(rows, a);
      var p :| IsBest(rows, a, p);
      rows[p]
    else Refuse
  }

  lemma BestExists'(rows: map<Prefix, Action>, a: Addr)
    requires Named(rows, a)
    ensures exists p :: IsBest(rows, a, p)
  {
    var p := BestExists(rows, a);
  }

  // ----- Unbound's localhost defaults -----

  const LOCALHOST4 := Prefix(true, 127 * 0x100_0000, 8)
  const LOCALHOST6 := Prefix(false, 1, 128)

  /** A default row is inserted only where the config lists no row for exactly that prefix. */
  function WithDefaults(rows: map<Prefix, Action>): (all: map<Prefix, Action>)
    ensures all.Keys == rows.Keys + {LOCALHOST4, LOCALHOST6}
    ensures forall p <- rows :: all[p] == rows[p]
    ensures forall p <- all :: p !in rows ==> all[p] == Forward
  {
    map[LOCALHOST4 := Forward, LOCALHOST6 := Forward] + rows
  }

  lemma DefaultsAreMasked(rows: map<Prefix, Action>)
    requires AllMasked(rows)
    ensures AllMasked(WithDefaults(rows))
  {
    var d := Pow2(24);
    assert d == 0x100_0000 by {
      Pow2Add(12, 12);
      assert Pow2(12) == 4096 by {
        Pow2Add(6, 6);
        assert Pow2(6) == 64;
      }
    }
    DivisionIsUnique(127 * 0x100_0000, d, 127, 0);
    assert Pow2(0) == 1;
  }

  // ----- the index -----

  datatype Rules = Rules(entries: nat, byPrefix: map<Prefix, Action>, bits4: seq<nat>, bits6: seq<nat>)

  /** Exactly the lengths present in a family, longest first. */
  ghost predicate IsIndex(bits: seq<nat>, rows: map<Prefix, Action>, v4: bool) {
    && (forall i, j :: 0 <= i < j < |bits| ==> bits[i] > bits[j])
    && (forall b :: b in bits <==> exists p :: p in rows && p.v4 == v4 && p.len == b)
  }

  ghost predicate Indexed(r: Rules) {
    AllMasked(r.byPrefix) && IsIndex(r.bits4, r.byPrefix, true) && IsIndex(r.bits6, r.byPrefix, false)
  }

  ghost predicate LengthPresent(rows: map<Prefix, Action>, seen: set<Prefix>, v4: bool, b: nat) {
    exists p :: p in rows && p in seen && p.v4 == v4 && p.len == b
  }

  /** The array holds, for one family, which lengths the rows seen so far have. */
  ghost predicate Marks(has: seq<bool>, rows: map<Prefix, Action>, seen: set<Prefix>, v4: bool) {
    |has| == 129 && forall b :: 0 <= b < 129 ==> (has[b] <==> LengthPresent(rows, seen, v4, b))
  }

  lemma NoMarks(has: seq<bool>, rows: map<Prefix, Action>, v4: bool)
    requires |has| == 129 && forall b :: 0 <= b < 129 ==> !has[b]
    ensures Marks(has, rows, {}, v4)
  {
  }

  lemma MarkAdded(has: seq<bool>, rows: map<Prefix, Action>, seen: set<Prefix>, v4: bool, p: Prefix)
    requires Marks(has, rows, seen, v4) && p in rows && p.len <= 128
    ensures Marks(if p.v4 == v4 then has[p.len := true] else has, rows, seen + {p}, v4)
  {
    forall b | 0 <= b < 129
      ensures LengthPresent(rows, seen + {p}, v4, b) <==>
              LengthPresent(rows, seen, v4, b) || (p.v4 == v4 && p.len == b)
    {
      LengthAdded(rows, seen, p, v4, b);
    }
  }

  lemma LengthAdded(rows: map<Prefix, Action>, seen: set<Prefix>, p: Prefix, v4: bool, b: nat)
    requires p in rows
    ensures LengthPresent(rows, seen + {p}, v4, b) <==> LengthPresent(rows, seen, v4, b) || (p.v4 == v4 && p.len == b)
  {
    if p.v4 == v4 && p.len == b {
      assert p in seen + {p};
    }
    if LengthPresent(rows, seen, v4, b) {
      var x :| x in rows && x in seen && x.v4 == v4 && x.len == b;
      assert x in seen + {p};
    }
  }

  lemma LengthFits(rows: map<Prefix, Action>, p: Prefix)
    requires AllMasked(rows) && p in rows
    ensures p.len <= 128
  {
    assert IsMasked(p);
  }

  method MarkLengths(rows: map<Prefix, Action>) returns (has4: array<bool>, has6: array<bool>)
    requires AllMasked(rows)
    ensures fresh(has4) && fresh(has6) && has4.Length == has6.Length == 129
    ensures Marks(has4[..], rows, rows.Keys, true) && Marks(has6[..], rows, rows.Keys, false)
  {
    hide Marks, IsMasked, AllMasked;
    has4 := new bool[129](_ => false);
    has6 := new bool[129](_ => false);
    var left := rows.Keys;
    ghost var seen: set<Prefix> := {};
    NoMarks(has4[..], rows, true);
    NoMarks(has6[..], rows, false);
    while left != {}
      invariant left + seen == rows.Keys
      invariant Marks(has4[..], rows, seen, true) && Marks(has6[..], rows, seen, false)
      decreases |left|
    {
      var p :| p in left;
      assert p in rows;
      LengthFits(rows, p);
      ghost var was4, was6 := has4[..], has6[..];
      MarkAdded(was4, rows, seen, true, p);
      MarkAdded(was6, rows, seen, false, p);
      if p.v4 {
        has4[p.len] := true;
      } else {
        has6[p.len] := true;
      }
      assert has4[..] == if p.v4 then was4[p.len := true] else was4;
      assert has6[..] == if p.v4 then was6 else was6[p.len := true];
      left, seen := left - {p}, seen + {p};
    }
    assert seen == rows.Keys;
  }

  /** The marked lengths from 128 down to 0. */
  method Collect(has4: array<bool>, has6: array<bool>) returns (bits4: seq<nat>, bits6: seq<nat>)
    requires has4.Length == has6.Length == 129
    ensures forall i, j :: 0 <= i < j < |bits4| ==> bits4[i] > bits4[j]
    ensures forall i, j :: 0 <= i < j < |bits6| ==> bits6[i] > bits6[j]
    ensures forall k: nat :: k in bits4 <==> k < 129 && has4[k]
    ensures forall k: nat :: k in bits6 <==> k < 129 && has6[k]
  {
    bits4, bits6 := [], [];
    var b := 129;
    while b > 0
      invariant 0 <= b <= 129
      invariant forall i :: 0 <= i < |bits4| ==> bits4[i] >= b
      invariant forall i :: 0 <= i < |bits6| ==> bits6[i] >= b
      invariant forall i, j :: 0 <= i < j < |bits4| ==> bits4[i] > bits4[j]
      invariant forall i, j :: 0 <= i < j < |bits6| ==> bits6[i] > bits6[j]
      invariant forall k: nat :: k in bits4 <==> b <= k < 129 && has4[k]
      invariant forall k: nat :: k in bits6 <==> b <= k < 129 && has6[k]
    {
      b := b - 1;
      if has4[b] {
        bits4 := bits4 + [b];
      }
      if has6[b] {
        bits6 := bits6 + [b];
      }
    }
  }

  method BuildIndex(rows: map<Prefix, Action>) returns (bits4: seq<nat>, bits6: seq<nat>)
    requires AllMasked(rows)
    ensures IsIndex(bits4, rows, true) && IsIndex(bits6, rows, false)
  {
    var has4, has6 := MarkLengths(rows);
    bits4, bits6 := Collect(has4, has6);
    IndexFromMarks(bits4, has4[..], rows, true);
    IndexFromMarks(bits6, has6[..], rows, false);
  }

  method AddDefaults(rows: map<Prefix, Action>) returns (all: map<Prefix, Action>)
    ensures all == WithDefaults(rows)
  {
    all := rows;
    var defaults := [LOCALHOST4, LOCALHOST6];
    for i := 0 to 2
      invariant all.Keys == rows.Keys + (set p | p in defaults[..i])
      invariant forall p <- all :: all[p] == if p in rows then rows[p] else Forward
    {
      if defaults[i] !in rows {
        all := all[defaults[i] := Forward];
      }
    }
    assert defaults[..2] == defaults && defaults[0] == LOCALHOST4 && defaults[1] == LOCALHOST6;
    assert all.Keys == WithDefaults(rows).Keys;
    assert forall p <- all :: all[p] == WithDefaults(rows)[p];
  }

  method NewRules(rows: map<Prefix, Action>) returns (rules: Rules)
    requires AllMasked(rows)
    ensures rules.entries == |rows| && rules.byPrefix == WithDefaults(rows)
    ensures Indexed(rules)
  {
    var all := AddDefaults(rows);
    DefaultsAreMasked(rows);
    var bits4, bits6 := BuildIndex(all);
    rules := Rules(|rows|, all, bits4, bits6);
  }

  lemma IndexFromMarks(bits: seq<nat>, has: seq<bool>, rows: map<Prefix, Action>, v4: bool)
    requires AllMasked(rows) && |has| == 129
    requires forall i, j :: 0 <= i < j < |bits| ==> bits[i] > bits[j]
    requires forall k: nat :: k in bits <==> k < 129 && has[k]
    requires forall b :: 0 <= b < 129 ==> (has[b] <==> LengthPresent(rows, rows.Keys, v4, b))
    ensures IsIndex(bits, rows, v4)
  {
    forall b: nat
      ensures b in bits <==> exists p :: p in rows && p.v4 == v4 && p.len == b
    {
      if p :| p in rows && p.v4 == v4 && p.len == b {
        assert IsMasked(p);
        assert LengthPresent(rows, rows.Keys, v4, b);
      }
    }
  }

  /** The first hit over the lengths present, longest first, is the most specific row: the index refines the scan. */
  method Lookup(r: Rules, client: Addr) returns (action: Action)
    requires Indexed(r)
    ensures action == Scan(r.byPrefix, client)
  {
    var bits := if client.v4 then r.bits4 else r.bits6;
    for i := 0 to |bits|
      invariant forall p <- r.byPrefix :: Covers(p, client) ==> p.len !in bits[..i]
    {
      var p := PrefixOf(client, bits[i]);
      if p.Some? && p.value in r.byPrefix {
        HitIsBest(r, client, bits, i, p.value);
        return r.byPrefix[p.value];
      }
      MissedLength(r, client, bits[i]);
    }
    assert bits[..|bits|] == bits;
    forall p | p in r.byPrefix
      ensures !Covers(p, client)
    {
      assert p.v4 == client.v4 ==> p.len in bits;
    }
    return Refuse;
  }

  lemma MissedLength(r: Rules, client: Addr, b: nat)
    requires Indexed(r)
    requires PrefixOf(client, b).None? || PrefixOf(client, b).value !in r.byPrefix
    ensures forall p <- r.byPrefix :: Covers(p, client) ==> p.len != b
  {
    forall p | p in r.byPrefix && Covers(p, client)
      ensures p.len != b
    {
      PrefixOfCovers(p, client);
    }
  }

  lemma EarlierIsInPrefix(bits: seq<nat>, i: nat, j: nat)
    requires i <= |bits| && j < |bits|
    ensures j < i ==> bits[j] in bits[..i]
  {
    if j < i {
      assert bits[..i][j] == bits[j];
    }
  }

  lemma HitIsBest(r: Rules, client: Addr, bits: seq<nat>, i: nat, p: Prefix)
    requires Indexed(r) && bits == (if client.v4 then r.bits4 else r.bits6) && i < |bits|
    requires PrefixOf(client, bits[i]) == Some(p) && p in r.byPrefix
    requires forall q <- r.byPrefix :: Covers(q, client) ==> q.len !in bits[..i]
    ensures r.byPrefix[p] == Scan(r.byPrefix, client)
  {
    PrefixOfCovers(p, client);
    forall q | q in r.byPrefix && Covers(q, client)
      ensures q.len <= p.len
    {
      assert q.len in bits;
      var j :| 0 <= j < |bits| && bits[j] == q.len;
      EarlierIsInPrefix(bits, i, j);
    }
    assert IsBest(r.byPrefix, client, p);
    var best :| IsBest(r.byPrefix, client, best) && r.byPrefix[best] == Scan(r.byPrefix, client);
    BestIsUnique(r.byPrefix, client, p, best);
  }

  // ----- ACL.Lookup -----

  /** netip.Addr.Unmap: an IPv4-mapped IPv6 address is its IPv4 address. */
  function Unmap(a: Addr): Addr {
    if !a.v4 && a.value / 0x1_0000_0000 == 0xffff then Addr(true, a.value % 0x1_0000_0000) else a
  }

  function Mapped(a: Addr): Addr
    requires a.v4 && a.value < 0x1_0000_0000
  {
    Addr(false, 0xffff * 0x1_0000_0000 + a.value)
  }

  /** Exactly the mapped addresses change, and such a client gets the action of its IPv4 address under all rules. */
  lemma MappedClientIsItsV4Address(a: Addr, rows: map<Prefix, Action>)
    ensures Unmap(a) == a || (Unmap(a).v4 && a == Addr(false, 0xffff_0000_0000 + Unmap(a).value))
    ensures a.v4 && a.value < 0x1_0000_0000 ==> Unmap(Addr(false, 0xffff_0000_0000 + a.value)) == a
    ensures a.v4 && a.value < 0x1_0000_0000 ==> Scan(rows, Unmap(Mapped(a))) == Scan(rows, a)
  {
    if a.v4 && a.value < 0x1_0000_0000 {
      DivisionIsUnique(Mapped(a).value, 0x1_0000_0000, 0xffff, a.value);
    }
  }

  /** A wider deny or refuse reaches neither 127.0.0.0/8 nor ::1: the default row is more specific. */
  lemma LocalhostIsServed(rows: map<Prefix, Action>, a: Addr, local: Prefix)
    requires AllMasked(rows) && (local == LOCALHOST4 || local == LOCALHOST6) && Covers(local, a)
    requires local !in rows && forall p <- rows :: Covers(p, a) ==> p.len < local.len
    ensures Scan(WithDefaults(rows), a) == Forward
  {
    var all := WithDefaults(rows);
    DefaultsAreMasked(rows);
    assert IsBest(all, a, local);
    var best :| IsBest(all, a, best) && all[best] == Scan(all, a);
    BestIsUnique(all, a, local, best);
  }
}
