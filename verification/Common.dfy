/** Small shared vocabulary: optional values and octets. */
module Common {

  datatype Option<+T> = None | Some(value: T)

  /** One octet, kept as a number so that length and id arithmetic stays in `int`. */
  type Byte = x: int | 0 <= x < 256

  type Bytes = seq<Byte>

  /** The elements that satisfy p, in order. */
  function Filter<T>(s: seq<T>, p: T -> bool): (r: seq<T>)
    ensures |r| <= |s|
  {
    if s == [] then []
    else if p(s[0]) then [s[0]] + Filter(s[1..], p)
    else Filter(s[1..], p)
  }

  lemma {:induction false} FilterMembers<T(!new)>(s: seq<T>, p: T -> bool)
    ensures forall x :: x in Filter(s, p) <==> x in s && p(x)
  {
    if s != [] {
      FilterMembers(s[1..], p);
      assert s == [s[0]] + s[1..];
    }
  }

  lemma {:induction false} FilterJoin<T(!new)>(a: seq<T>, b: seq<T>, p: T -> bool)
    ensures Filter(a + b, p) == Filter(a, p) + Filter(b, p)
    decreases |a|
  {
    if a == [] {
      assert a + b == b;
    } else {
      assert a + b == [a[0]] + (a[1..] + b);
      FilterCons(a[0], a[1..] + b, p);
      FilterJoin(a[1..], b, p);
      assert [a[0]] + (Filter(a[1..], p) + Filter(b, p)) == [a[0]] + Filter(a[1..], p) + Filter(b, p);
    }
  }

  lemma {:induction false} FilterAll<T(!new)>(s: seq<T>, p: T -> bool)
    ensures (forall i :: 0 <= i < |s| ==> p(s[i])) ==> Filter(s, p) == s
    ensures (forall i :: 0 <= i < |s| ==> !p(s[i])) ==> Filter(s, p) == []
    decreases |s|
  {
    if s != [] {
      FilterAll(s[1..], p);
    }
  }

  lemma FilterCons<T(!new)>(first: T, rest: seq<T>, p: T -> bool)
    ensures Filter([first] + rest, p) == if p(first) then [first] + Filter(rest, p) else Filter(rest, p)
  {
    assert ([first] + rest)[1..] == rest;
  }
}
