/**
 What the text of a reference means (scripts/build-pkg-portable.py, `expand` and `_expand_ref`): where its bracket
 closes, and what a plain variable, an unknown one and one with a modifier chain come to.
 */
module MakefileTexts {
  import opened MakefileExpand

  // ----- brackets -----

  /** How many more brackets of a kind the text opens than it closes. */
  function Net(t: string, open: char, close: char): int {
    if t == "" then 0
    else (if t[0] == open then 1 else if t[0] == close then -1 else 0) + Net(t[1..], open, close)
  }

  /** Nothing closed in the text was opened before it. */
  predicate NeverBelow(t: string, open: char, close: char) {
    forall k :: 0 <= k <= |t| ==> Net(t[..k], open, close) >= 0
  }

  lemma NetHead(t: string, k: nat, open: char, close: char)
    requires 0 < k <= |t|
    ensures Net(t[..k], open, close) ==
              (if t[0] == open then 1 else if t[0] == close then -1 else 0) + Net(t[1..][..k - 1], open, close)
  {
    assert t[..k][1..] == t[1..][..k - 1];
  }

  /** Never down to the level of the bracket before the text. */
  predicate StaysOpen(t: string, level: int, open: char, close: char) {
    forall k :: 0 <= k <= |t| ==> level + Net(t[..k], open, close) > 0
  }

  lemma StaysOpenTail(t: string, level: int, open: char, close: char)
    requires t != "" && StaysOpen(t, level, open, close)
    ensures var next := level + if t[0] == open then 1 else if t[0] == close then -1 else 0;
            next > 0 && StaysOpen(t[1..], next, open, close)
  {
    NetHead(t, 1, open, close);
    assert t[1..][..0] == "";
    forall k | 0 <= k <= |t[1..]|
      ensures Net(t[..k + 1], open, close) ==
                (if t[0] == open then 1 else if t[0] == close then -1 else 0) + Net(t[1..][..k], open, close)
    {
      NetHead(t, k + 1, open, close);
    }
  }

  lemma CloseAtOne(c: char, t: string, brace: bool, level: nat)
    requires level > 0
    ensures var open, close := if brace then '{' else '(', if brace then '}' else ')';
            var next := level + if c == open then 1 else if c == close then -1 else 0;
            next > 0 ==> CloseAt([c] + t, brace, level) == 1 + CloseAt(t, brace, next)
  {
    assert ([c] + t)[1..] == t;
  }

  lemma {:induction false} CloseAtSkips(t: string, rest: string, brace: bool, level: nat, open: char, close: char)
    requires open == (if brace then '{' else '(') && close == if brace then '}' else ')'
    requires level > 0 && StaysOpen(t, level, open, close)
    ensures level + Net(t, open, close) > 0
    ensures CloseAt(t + rest, brace, level) == |t| + CloseAt(rest, brace, level + Net(t, open, close))
    decreases |t|
  {
    hide CloseAt;
    assert t[..|t|] == t;
    if t == "" {
      assert t + rest == rest;
    } else {
      var next := level + if t[0] == open then 1 else if t[0] == close then -1 else 0;
      StaysOpenTail(t, level, open, close);
      CloseAtOne(t[0], t[1..] + rest, brace, level);
      assert t + rest == [t[0]] + (t[1..] + rest);
      CloseAtSkips(t[1..], rest, brace, next, open, close);
    }
  }

  /** A reference ends at the first bracket of its kind that closes more than was opened, or never. */
  lemma ReferenceEnds(t: string, rest: string, brace: bool)
    ensures var open, close := if brace then '{' else '(', if brace then '}' else ')';
            && (NeverBelow(t, open, close) && Net(t, open, close) == 0 ==>
                  CloseAt(t + ([close] + rest), brace, 1) == |t|)
            && (NeverBelow(t, open, close) ==> CloseAt(t, brace, 1) == |t|)
  {
    var open, close := if brace then '{' else '(', if brace then '}' else ')';
    if NeverBelow(t, open, close) {
      assert StaysOpen(t, 1, open, close);
      CloseAtSkips(t, [close] + rest, brace, 1, open, close);
      CloseAtSkips(t, "", brace, 1, open, close);
      assert t + "" == t;
    }
  }

  // ----- references in a text -----

  lemma {:induction false} PlainFirst(env: map<string, string>, mods: Modifiers, plain: string, rest: string, fuel: nat)
    requires fuel > 0 && '$' !in plain
    ensures Scan(env, mods, plain + rest, fuel) == plain + Scan(env, mods, rest, fuel)
    decreases |plain|
  {
    if plain == "" {
      assert plain + rest == rest;
    } else {
      assert (plain + rest)[0] == plain[0] && (plain + rest)[1..] == plain[1..] + rest;
      PlainFirst(env, mods, plain[1..], rest, fuel);
    }
  }

  /** Text without a dollar stays, a reference is replaced, and the rest is expanded on its own. */
  lemma ReferenceExpands(env: map<string, string>, mods: Modifiers, plain: string, brace: bool, t: string, rest: string,
                         fuel: nat)
    requires fuel > 0 && '$' !in plain
    requires var open, close := if brace then '{' else '(', if brace then '}' else ')';
             NeverBelow(t, open, close) && Net(t, open, close) == 0
    ensures var open, close := if brace then '{' else '(', if brace then '}' else ')';
            Expand(env, mods, plain + (['$', open] + (t + ([close] + rest))), fuel)
            == plain + (ExpandRef(env, mods, t, fuel) + Expand(env, mods, rest, fuel))
  {
    hide Scan, ExpandRef, CloseAt;
    var open, close := if brace then '{' else '(', if brace then '}' else ')';
    var s := ['$', open] + (t + ([close] + rest));
    ReferenceEnds(t, rest, brace);
    PlainFirst(env, mods, plain, s, fuel);
    assert s[2..] == t + ([close] + rest) && s[1] == open;
    ScanOpen(env, mods, s, |t|, fuel);
    assert s[2..2 + |t|] == t && s[3 + |t|..] == rest;
  }

  // ----- what a reference comes to -----

  /** A name as a Makefile writes it, without references and modifiers. */
  predicate PlainName(name: string) {
    '$' !in name && ':' !in name
  }

  lemma NameStays(env: map<string, string>, mods: Modifiers, s: string, fuel: nat)
    requires '$' !in s
    ensures Expand(env, mods, s, fuel) == s
  {
    if fuel > 0 {
      NoDollarIsUnchanged(env, mods, s, fuel);
    }
  }

  /** The variable's value one level deeper; nothing for an unknown one. */
  lemma PlainReference(env: map<string, string>, mods: Modifiers, name: string, fuel: nat)
    requires fuel > 0 && PlainName(name)
    ensures ExpandRef(env, mods, name, fuel) ==
              if name in env then Expand(env, mods, env[name], fuel - 1) else ""
  {
    hide Expand;
    NameStays(env, mods, name, fuel - 1);
  }

  /** Everything behind the first colon is the modifier chain, applied to the value, or to nothing. */
  lemma ModifiedReference(env: map<string, string>, mods: Modifiers, name: string, chain: string, fuel: nat)
    requires fuel > 0 && PlainName(name) && '$' !in chain
    ensures ExpandRef(env, mods, name + (":" + chain), fuel) ==
              mods(if name in env then Expand(env, mods, env[name], fuel - 1) else "", chain)
  {
    hide Expand, ColonAt;
    var inner := name + (":" + chain);
    NameStays(env, mods, inner, fuel - 1);
    assert inner[|name|] == ':';
    ColonIs(name, chain);
    assert inner[..|name|] == name && inner[|name| + 1..] == chain;
  }

  lemma {:induction false} ColonIs(name: string, chain: string)
    requires ':' !in name
    ensures ':' in name + (":" + chain) && ColonAt(name + (":" + chain)) == |name|
    decreases |name|
  {
    var s := name + (":" + chain);
    assert s[|name|] == ':';
    if name != "" {
      assert s[0] == name[0] && s[1..] == name[1..] + (":" + chain);
      ColonIs(name[1..], chain);
    }
  }

  /** Forty levels below the first nothing is expanded any more; forty levels down it still is. */
  lemma DepthForty(env: map<string, string>, mods: Modifiers, s: string)
    ensures Expand(env, mods, s, FUEL - 41) == s
    ensures Expand(env, mods, s, FUEL - 40) == Scan(env, mods, s, 1)
  {
  }
}
