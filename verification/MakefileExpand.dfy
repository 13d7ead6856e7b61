/**
 The Makefile reference expander (scripts/build-pkg-portable.py, class Makefile): assignments, lookup and the
 depth-limited expansion of ${...} and $(...). The `:modifier` chains are a parameter.
 */
module MakefileExpand {
  import opened Common
  import opened Text

  /** Levels of expansion left at depth 0: the expander gives up below depth 40. */
  const FUEL: nat := 41

  type Modifiers = (string, string) -> string

  // ----- the text the scanner works on -----

  predicate Opens(s: string) {
    |s| >= 2 && s[0] == '$' && (s[1] == '{' || s[1] == '(')
  }

  function OpenChar(brace: bool): char {
    if brace then '{' else '('
  }

  function CloseChar(brace: bool): char {
    if brace then '}' else ')'
  }

  function Level(c: char, brace: bool, level: nat): nat {
    if c == OpenChar(brace) then level + 1
    else if c == CloseChar(brace) && level > 0 then level - 1
    else level
  }

  /** Where the bracket opened just before t closes, counting only brackets of its own kind; |t| when it never does. */
  function CloseAt(t: string, brace: bool, level: nat): (j: nat)
    ensures j <= |t|
  {
    if t == "" || Level(t[0], brace, level) == 0 then 0
    else 1 + CloseAt(t[1..], brace, Level(t[0], brace, level))
  }

  // ----- expansion of text -----

  function Base(name: string): string {
    if ':' in name then name[..ColonAt(name)] else name
  }

  function ColonAt(s: string): (i: nat)
    requires ':' in s
    ensures i < |s| && s[i] == ':'
  {
    if s[0] == ':' then 0 else 1 + ColonAt(s[1..])
  }

  /** A reference with its name already expanded and its value looked up. */
  function Applied(mods: Modifiers, name: string, value: string): string {
    if ':' in name then mods(value, name[ColonAt(name) + 1..]) else value
  }

  /** An unknown name is empty; without a modifier chain nothing is applied to it. */
  function Missing(mods: Modifiers, name: string): string {
    Applied(mods, name, "")
  }

  function Expand(env: map<string, string>, mods: Modifiers, s: string, fuel: nat): string
    decreases fuel, 2, 0
  {
    if fuel == 0 then s else Scan(env, mods, s, fuel)
  }

  function Scan(env: map<string, string>, mods: Modifiers, s: string, fuel: nat): string
    requires fuel > 0
    decreases fuel, 1, |s|
  {
    if s == "" then ""
    else if Opens(s) then
      var j := CloseAt(s[2..], s[1] == '{', 1);
      ExpandRef(env, mods, s[2..2 + j], fuel) + Scan(env, mods, if 2 + j < |s| then s[3 + j..] else "", fuel)
    else [s[0]] + Scan(env, mods, s[1..], fuel)
  }

  function ExpandRef(env: map<string, string>, mods: Modifiers, inner: string, fuel: nat): string
    requires fuel > 0
    decreases fuel, 0, 0
  {
    var name := Expand(env, mods, inner, fuel - 1);
    if Base(name) in env then Applied(mods, name, Expand(env, mods, env[Base(name)], fuel - 1))
    else Missing(mods, name)
  }

  lemma {:induction false} NoDollarIsUnchanged(env: map<string, string>, mods: Modifiers, s: string, fuel: nat)
    requires fuel > 0 && '$' !in s
    ensures Scan(env, mods, s, fuel) == s
    decreases |s|
  {
    if s != "" {
      NoDollarIsUnchanged(env, mods, s[1..], fuel);
    }
  }

  function From(s: string, i: nat): string {
    if i <= |s| then s[i..] else ""
  }

  lemma ReferenceSlices(s: string, i: nat, j: nat)
    requires i + 2 <= j <= |s|
    ensures s[i..][2..] == s[i + 2..] && s[i..][2..j - i] == s[i + 2..j]
    ensures From(s, j + 1) == if j < |s| then s[i..][j - i + 1..] else ""
  {
  }

  lemma ScanOpen(env: map<string, string>, mods: Modifiers, t: string, j: nat, fuel: nat)
    requires fuel > 0 && Opens(t) && j == CloseAt(t[2..], t[1] == '{', 1)
    ensures Scan(env, mods, t, fuel) ==
            ExpandRef(env, mods, t[2..2 + j], fuel) + Scan(env, mods, if 2 + j < |t| then t[3 + j..] else "", fuel)
  {
  }

  /** The scan at a reference that ends at j. */
  lemma AtReference(env: map<string, string>, mods: Modifiers, s: string, i: nat, j: nat, fuel: nat)
    requires fuel > 0 && Opens(From(s, i)) && j == i + 2 + CloseAt(s[i + 2..], s[i + 1] == '{', 1)
    ensures Scan(env, mods, From(s, i), fuel)
            == ExpandRef(env, mods, s[i + 2..j], fuel) + Scan(env, mods, From(s, j + 1), fuel)
  {
    hide Scan, CloseAt, ExpandRef;
    ReferenceSlices(s, i, j);
    ScanOpen(env, mods, s[i..], j - i - 2, fuel);
  }

  /** The scan at any other character. */
  lemma AtCharacter(env: map<string, string>, mods: Modifiers, s: string, i: nat, fuel: nat)
    requires fuel > 0 && i < |s| && !Opens(From(s, i))
    ensures Scan(env, mods, From(s, i), fuel) == [s[i]] + Scan(env, mods, From(s, i + 1), fuel)
  {
    assert s[i..][1..] == s[i + 1..];
  }

  lemma LastTurn(env: map<string, string>, mods: Modifiers, s: string, i: nat, fuel: nat, text: string)
    requires fuel > 0 && i >= |s|
    ensures text + Scan(env, mods, From(s, i), fuel) == text
  {
    assert From(s, i) == "";
  }

  // ----- the evaluator -----

  datatype Op = SetOp | SetIfUnset | AppendOp

  lemma MergeUpdate(a: map<string, string>, b: map<string, string>, k: string, v: string)
    ensures a + b[k := v] == (a + b)[k := v]
  {
  }

  function FindIn(env: map<string, string>, name: string): Option<string> {
    if name in env then Some(env[name]) else None
  }

  /** Finds the end of a reference: the matching bracket of its own kind, or the end of the text. */
  /** The scan for the end of a reference looks at one character. */
  lemma CloseAtHead(s: string, j: nat, brace: bool, depth: nat)
    requires j < |s| && depth > 0
    ensures var d := Level(s[j], brace, depth);
            CloseAt(s[j..], brace, depth) == if d == 0 then 0 else 1 + CloseAt(s[j + 1..], brace, d)
  {
    assert s[j..][1..] == s[j + 1..];
  }

  method FindClose(s: string, i: nat) returns (j: nat)
    requires Opens(From(s, i))
    ensures j == i + 2 + CloseAt(s[i + 2..], s[i + 1] == '{', 1)
  {
    hide CloseAt;
    ghost var brace := s[i + 1] == '{';
    var close := if s[i + 1] == '{' then '}' else ')';
    var depth := 1;
    j := i + 2;
    while j < |s| && depth > 0
      invariant i + 2 <= j <= |s| && depth >= 0
      invariant depth > 0 ==> j + CloseAt(s[j..], brace, depth) == i + 2 + CloseAt(s[i + 2..], brace, 1)
      invariant depth == 0 ==> j == i + 2 + CloseAt(s[i + 2..], brace, 1)
      decreases |s| - j, depth
    {
      CloseAtHead(s, j, brace, depth);
      if s[j] == s[i + 1] {
        depth := depth + 1;
      } else if s[j] == close {
        depth := depth - 1;
      }
      if depth > 0 {
        j := j + 1;
      }
    }
  }

  method ExpandText(env: map<string, string>, mods: Modifiers, s: string, depth: nat) returns (text: string)
    requires depth <= FUEL
    ensures text == Expand(env, mods, s, FUEL - depth)
    decreases FUEL - depth, 3
  {
    if depth > 40 || '$' !in s {
      if depth <= 40 {
        NoDollarIsUnchanged(env, mods, s, FUEL - depth);
      }
      return s;
    }
    text := ScanText(env, mods, s, depth);
  }

  method ScanText(env: map<string, string>, mods: Modifiers, s: string, depth: nat) returns (text: string)
    requires depth < FUEL
    ensures text == Scan(env, mods, s, FUEL - depth)
    decreases FUEL - depth, 2
  {
    text := "";
    var i := 0;
    ghost var fuel := FUEL - depth;
    assert From(s, 0) == s;
    while i < |s|
      invariant text + Scan(env, mods, From(s, i), fuel) == Scan(env, mods, s, fuel)
    {
      var value, next := Turn(env, mods, s, i, depth);
      Associate(text, value, Scan(env, mods, From(s, next), fuel));
      text, i := text + value, next;
    }
    LastTurn(env, mods, s, i, fuel, text);
  }

  /** One turn of the scan: a whole reference, or one character. */
  method Turn(env: map<string, string>, mods: Modifiers, s: string, i: nat, depth: nat)
    returns (value: string, next: nat)
    requires depth < FUEL && i < |s|
    ensures i < next
    ensures value + Scan(env, mods, From(s, next), FUEL - depth) == Scan(env, mods, From(s, i), FUEL - depth)
    decreases FUEL - depth, 1
  {
    hide Scan, CloseAt, ExpandRef;
    if Opens(From(s, i)) {
      var j := FindClose(s, i);
      value := ExpandRefText(env, mods, s[i + 2..j], depth);
      next := j + 1;
      AtReference(env, mods, s, i, j, FUEL - depth);
    } else {
      value, next := [s[i]], i + 1;
      AtCharacter(env, mods, s, i, FUEL - depth);
    }
  }

  method ExpandRefText(env: map<string, string>, mods: Modifiers, inner: string, depth: nat) returns (text: string)
    requires depth < FUEL
    ensures text == ExpandRef(env, mods, inner, FUEL - depth)
    decreases FUEL - depth, 0
  {
    var name := ExpandText(env, mods, inner, depth + 1);
    if ':' in name {
      var colon := ColonAt(name);
      var val := FindIn(env, name[..colon]);
      var value := "";
      if val.Some? {
        value := ExpandText(env, mods, val.value, depth + 1);
      }
      return mods(value, name[colon + 1..]);
    }
    var val := FindIn(env, name);
    if val.None? {
      return "";
    }
    text := ExpandText(env, mods, val.value, depth + 1);
  }

  class Makefile {
    const mods: Modifiers
    const vars: map<string, string>   // the seeded framework variables
    var raw: map<string, string>      // the last value written, unexpanded

    constructor (seed: map<string, string>, mods: Modifiers)
      ensures vars == seed && raw == map[] && this.mods == mods
    {
      vars, raw, this.mods := seed, map[], mods;
    }

    /** What a lookup sees: assignments before seeds. */
    function Env(): map<string, string>
      reads this
    {
      vars + raw
    }

    /** `?=` sets only a name that is neither assigned nor seeded; `+=` appends to what a lookup sees. */
    method Assign(name: string, op: Op, val: string)
      modifies this`raw
      ensures op == SetOp ==> Env() == old(Env())[name := val]
      ensures op == SetIfUnset ==> Env() == if name in old(Env()) then old(Env()) else old(Env())[name := val]
      ensures op == AppendOp ==>
                var before := if name in old(Env()) then old(Env())[name] else "";
                Env() == old(Env())[name := Strip(before + " " + val)]
    {
      MergeUpdate(vars, raw, name, val);
      match op
      case SetOp => raw := raw[name := val];
      case SetIfUnset =>
        if name !in raw && name !in vars {
          raw := raw[name := val];
        }
      case AppendOp =>
        var before := if name in raw then raw[name] else if name in vars then vars[name] else "";
        MergeUpdate(vars, raw, name, Strip(before + " " + val));
        raw := raw[name := Strip(before + " " + val)];
    }

    method LookUp(name: string) returns (value: Option<string>)
      ensures value == if name in Env() then Some(Env()[name]) else None
    {
      if name in raw {
        return Some(raw[name]);
      }
      if name in vars {
        return Some(vars[name]);
      }
      return None;
    }

    method Get(name: string, default: string) returns (text: string)
      ensures text == if name in Env() then Expand(Env(), mods, Env()[name], 41) else default
    {
      var val := LookUp(name);
      if val.None? {
        return default;
      }
      text := ExpandText(Env(), mods, val.value, 0);
    }
  }
}
