/** Text helpers shared by the Go and the Python side. */
module Text {

  /** The first position of one of the characters, or the length. */
  function Find(s: string, chars: string): (i: nat)
    ensures i <= |s|
    ensures i < |s| ==> s[i] in chars
    ensures forall j :: 0 <= j < i ==> s[j] !in chars
  {
    if s == "" || s[0] in chars then 0 else 1 + Find(s[1..], chars)
  }

  lemma {:induction false} FindIs(a: string, rest: string, chars: string)
    requires forall i :: 0 <= i < |a| ==> a[i] !in chars
    requires rest == "" || rest[0] in chars
    ensures Find(a + rest, chars) == |a|
    decreases |a|
  {
    if a == "" {
      assert a + rest == rest;
    } else {
      assert (a + rest)[1..] == a[1..] + rest;
      FindIs(a[1..], rest, chars);
    }
  }

  lemma Associate(a: string, b: string, c: string)
    ensures (a + b) + c == a + (b + c)
  {
  }

  /** Python's white space, in ASCII. */
  predicate IsSpace(c: char) {
    c == ' ' || ('\t' <= c <= '\r') || ('\U{1c}' <= c <= '\U{1f}')
  }

  lemma SpacesAre(c: char)
    ensures IsSpace(c) <==> c as nat in {9, 10, 11, 12, 13, 28, 29, 30, 31, 32}
  {
    assert ' ' as nat == 32 && '\t' as nat == 9 && '\r' as nat == 13;
  }

  function StripLeft(s: string): string {
    if s != "" && IsSpace(s[0]) then StripLeft(s[1..]) else s
  }

  function StripRight(s: string): string {
    if s != "" && IsSpace(s[|s| - 1]) then StripRight(s[..|s| - 1]) else s
  }

  function Strip(s: string): string {
    StripRight(StripLeft(s))
  }
}
