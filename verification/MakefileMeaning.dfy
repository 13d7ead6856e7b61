/**
 What Makefile expansion means (scripts/build-pkg-portable.py, `expand`): text is a tree of literals and nested
 references, and expanding the text is evaluating the tree, down to the depth limit.
 */
module MakefileMeaning {
  import opened MakefileExpand
  import opened Powers

  /** Dangling is a reference that is never closed; it runs to the end of its text. */
  datatype Node = Lit(c: char) | Ref(brace: bool, inner: seq<Node>) | Dangling(brace: bool, inner: seq<Node>)

  function PrintNode(n: Node): string {
    match n
    case Lit(c) => [c]
    case Ref(b, inner) => "$" + [OpenChar(b)] + Print(inner) + [CloseChar(b)]
    case Dangling(b, inner) => "$" + [OpenChar(b)] + Print(inner)
  }

  function Print(nodes: seq<Node>): string {
    if nodes == [] then "" else PrintNode(nodes[0]) + Print(nodes[1..])
  }

  /** Brackets of this kind never close the one opened before t; all those opened in t are closed in it. */
  predicate Stays(t: string, brace: bool, level: nat) {
    if t == "" then level == 1
    else Level(t[0], brace, level) > 0 && Stays(t[1..], brace, Level(t[0], brace, level))
  }

  predicate NeverCloses(t: string, brace: bool, level: nat) {
    t == "" || (Level(t[0], brace, level) > 0 && NeverCloses(t[1..], brace, Level(t[0], brace, level)))
  }

  /** The text reads back as this tree: no literal starts a reference, and every reference closes where it should. */
  predicate WellFormed(nodes: seq<Node>) {
    nodes == [] ||
    (WellFormed(nodes[1..]) &&
     match nodes[0]
     case Lit(c) => !Opens([c] + Print(nodes[1..]))
     case Ref(b, inner) => Stays(Print(inner), b, 1) && WellFormed(inner)
     case Dangling(b, inner) => nodes[1..] == [] && NeverCloses(Print(inner), b, 1) && WellFormed(inner))
  }

  // ----- evaluation -----

  type Env = map<string, seq<Node>>

  function Raw(env: Env): map<string, string> {
    map name | name in env :: Print(env[name])
  }

  /** At most fuel levels deep; what lies deeper stays as it is written. */
  function Eval(env: Env, mods: Modifiers, nodes: seq<Node>, fuel: nat): string
    decreases fuel, 1, nodes
  {
    if fuel == 0 then Print(nodes)
    else if nodes == [] then ""
    else EvalNode(env, mods, nodes[0], fuel) + Eval(env, mods, nodes[1..], fuel)
  }

  function EvalNode(env: Env, mods: Modifiers, n: Node, fuel: nat): string
    requires fuel > 0
    decreases fuel, 1, n
  {
    match n
    case Lit(c) => [c]
    case Ref(_, inner) => EvalRef(env, mods, inner, fuel)
    case Dangling(_, inner) => EvalRef(env, mods, inner, fuel)
  }

  function EvalRef(env: Env, mods: Modifiers, inner: seq<Node>, fuel: nat): string
    requires fuel > 0
    decreases fuel, 0, 0
  {
    var name := Eval(env, mods, inner, fuel - 1);
    if Base(name) in env then Applied(mods, name, Eval(env, mods, env[Base(name)], fuel - 1))
    else Missing(mods, name)
  }

  // ----- the scanner finds the tree's brackets -----

  lemma {:induction false} ClosesAfter(t: string, brace: bool, level: nat, rest: string)
    requires Stays(t, brace, level)
    ensures CloseAt(t + [CloseChar(brace)] + rest, brace, level) == |t|
    decreases |t|
  {
    var s := t + [CloseChar(brace)] + rest;
    if t != "" {
      assert s[1..] == t[1..] + [CloseChar(brace)] + rest;
      ClosesAfter(t[1..], brace, Level(t[0], brace, level), rest);
    }
  }

  lemma {:induction false} NeverClosed(t: string, brace: bool, level: nat)
    requires NeverCloses(t, brace, level)
    ensures CloseAt(t, brace, level) == |t|
    decreases |t|
  {
    if t != "" {
      NeverClosed(t[1..], brace, Level(t[0], brace, level));
    }
  }

  lemma ScanRef(env: map<string, string>, mods: Modifiers, brace: bool, inner: string, rest: string, fuel: nat)
    requires fuel > 0 && Stays(inner, brace, 1)
    ensures Scan(env, mods, "$" + [OpenChar(brace)] + inner + [CloseChar(brace)] + rest, fuel) ==
            ExpandRef(env, mods, inner, fuel) + Scan(env, mods, rest, fuel)
  {
    var t := "$" + [OpenChar(brace)] + inner + [CloseChar(brace)] + rest;
    var j := |inner|;
    assert t[2..] == inner + [CloseChar(brace)] + rest;
    ClosesAfter(inner, brace, 1, rest);
    ScanOpen(env, mods, t, j, fuel);
    assert t[2..2 + j] == inner && t[3 + j..] == rest;
  }

  lemma ScanDangling(env: map<string, string>, mods: Modifiers, brace: bool, inner: string, fuel: nat)
    requires fuel > 0 && NeverCloses(inner, brace, 1)
    ensures Scan(env, mods, "$" + [OpenChar(brace)] + inner, fuel) == ExpandRef(env, mods, inner, fuel)
  {
    var t := "$" + [OpenChar(brace)] + inner;
    var j := |inner|;
    assert t[2..] == inner;
    NeverClosed(inner, brace, 1);
    ScanOpen(env, mods, t, j, fuel);
    assert t[2..2 + j] == inner;
    Nothing(env, mods, ExpandRef(env, mods, inner, fuel), fuel);
  }

  lemma Nothing(env: map<string, string>, mods: Modifiers, text: string, fuel: nat)
    requires fuel > 0
    ensures text + Scan(env, mods, "", fuel) == text
  {
  }

  lemma ScanLit(env: map<string, string>, mods: Modifiers, c: char, rest: string, fuel: nat)
    requires fuel > 0 && !Opens([c] + rest)
    ensures Scan(env, mods, [c] + rest, fuel) == [c] + Scan(env, mods, rest, fuel)
  {
    assert ([c] + rest)[1..] == rest;
  }

  ghost predicate WellFormedEnv(env: Env) {
    forall name <- env :: WellFormed(env[name])
  }

  /** Expanding the printed text of a tree is evaluating the tree, at every depth and for every environment of trees. */
  lemma {:induction false} ExpandIsEval(env: Env, mods: Modifiers, nodes: seq<Node>, fuel: nat)
    requires WellFormedEnv(env) && WellFormed(nodes)
    ensures Expand(Raw(env), mods, Print(nodes), fuel) == Eval(env, mods, nodes, fuel)
    decreases fuel, 1, nodes
  {
    if fuel > 0 && nodes != [] {
      var rest := nodes[1..];
      ExpandIsEval(env, mods, rest, fuel);
      match nodes[0]
      case Lit(c) => ScanLit(Raw(env), mods, c, Print(rest), fuel);
      case Ref(b, inner) =>
        RefIsEval(env, mods, inner, fuel);
        ScanRef(Raw(env), mods, b, Print(inner), Print(rest), fuel);
      case Dangling(b, inner) =>
        RefIsEval(env, mods, inner, fuel);
        ScanDangling(Raw(env), mods, b, Print(inner), fuel);
        DanglingIsLast(env, mods, nodes, fuel);
    }
  }

  lemma DanglingIsLast(env: Env, mods: Modifiers, nodes: seq<Node>, fuel: nat)
    requires fuel > 0 && nodes != [] && nodes[1..] == []
    ensures Print(nodes) == PrintNode(nodes[0])
    ensures Eval(env, mods, nodes, fuel) == EvalNode(env, mods, nodes[0], fuel)
  {
  }

  lemma {:induction false} RefIsEval(env: Env, mods: Modifiers, inner: seq<Node>, fuel: nat)
    requires fuel > 0 && WellFormedEnv(env) && WellFormed(inner)
    ensures ExpandRef(Raw(env), mods, Print(inner), fuel) == EvalRef(env, mods, inner, fuel)
    decreases fuel, 0
  {
    ExpandIsEval(env, mods, inner, fuel - 1);
    var name := Eval(env, mods, inner, fuel - 1);
    if Base(name) in env {
      ExpandIsEval(env, mods, env[Base(name)], fuel - 1);
    }
  }

  // ----- every text is the printed text of a tree -----

  function Parse(s: string): seq<Node>
    decreases |s|
  {
    if s == "" then []
    else if Opens(s) then
      var b, j := s[1] == '{', CloseAt(s[2..], s[1] == '{', 1);
      if 2 + j < |s| then [Ref(b, Parse(s[2..2 + j]))] + Parse(s[3 + j..])
      else [Dangling(b, Parse(s[2..]))]
    else [Lit(s[0])] + Parse(s[1..])
  }

  lemma {:induction false} CloseAtStays(t: string, brace: bool, level: nat)
    requires level > 0
    ensures var j := CloseAt(t, brace, level);
            && (j < |t| ==> t[j] == CloseChar(brace) && Stays(t[..j], brace, level))
            && (j == |t| ==> NeverCloses(t, brace, level))
    decreases |t|
  {
    if t != "" && Level(t[0], brace, level) > 0 {
      var j := CloseAt(t[1..], brace, Level(t[0], brace, level));
      CloseAtStays(t[1..], brace, Level(t[0], brace, level));
      assert t[..1 + j][1..] == t[1..][..j];
    }
  }

  /** Parsing loses nothing and gives a well-formed tree. */
  lemma {:induction false} ParsePrints(s: string)
    ensures Print(Parse(s)) == s && WellFormed(Parse(s))
    decreases |s|
  {
    hide CloseAt, Print, WellFormed;
    if s == "" {
      ParsedNothing();
    } else if Opens(s) {
      var b, j := s[1] == '{', CloseAt(s[2..], s[1] == '{', 1);
      CloseAtStays(s[2..], b, 1);
      if 2 + j < |s| {
        ParsePrints(s[2..2 + j]);
        ParsePrints(s[3 + j..]);
        ParsedRef(s, b, j);
      } else {
        ParsePrints(s[2..]);
        ParsedDangling(s, b);
      }
    } else {
      ParsePrints(s[1..]);
      ParsedLit(s);
    }
  }

  lemma OneNode(n: Node)
    ensures Print([n]) == PrintNode(n)
  {
    assert [n][1..] == [];
  }

  lemma ConsRef(b: bool, inner: seq<Node>, rest: seq<Node>)
    requires Stays(Print(inner), b, 1) && WellFormed(inner) && WellFormed(rest)
    ensures WellFormed([Ref(b, inner)] + rest)
    ensures Print([Ref(b, inner)] + rest) == "$" + [OpenChar(b)] + Print(inner) + [CloseChar(b)] + Print(rest)
  {
    assert ([Ref(b, inner)] + rest)[1..] == rest;
  }

  lemma SplitRef(s: string, b: bool, j: nat)
    requires Opens(s) && b == (s[1] == '{') && 2 + j < |s| && s[2 + j] == CloseChar(b)
    ensures s == "$" + [OpenChar(b)] + s[2..2 + j] + [CloseChar(b)] + s[3 + j..]
    ensures s[2..][..j] == s[2..2 + j]
  {
  }

  lemma ParsedRef(s: string, b: bool, j: nat)
    requires Opens(s) && b == (s[1] == '{') && 2 + j < |s| && s[2 + j] == CloseChar(b)
    requires j == CloseAt(s[2..], b, 1) && Stays(s[2..][..j], b, 1)
    requires Print(Parse(s[2..2 + j])) == s[2..2 + j] && WellFormed(Parse(s[2..2 + j]))
    requires Print(Parse(s[3 + j..])) == s[3 + j..] && WellFormed(Parse(s[3 + j..]))
    ensures Print(Parse(s)) == s && WellFormed(Parse(s))
  {
    SplitRef(s, b, j);
    ConsRef(b, Parse(s[2..2 + j]), Parse(s[3 + j..]));
  }

  lemma ParsedNothing()
    ensures Print(Parse("")) == "" && WellFormed(Parse(""))
  {
  }

  lemma ParsedDangling(s: string, b: bool)
    requires Opens(s) && b == (s[1] == '{') && CloseAt(s[2..], b, 1) == |s| - 2 && NeverCloses(s[2..], b, 1)
    requires Print(Parse(s[2..])) == s[2..] && WellFormed(Parse(s[2..]))
    ensures Print(Parse(s)) == s && WellFormed(Parse(s))
  {
    hide CloseAt;
    assert s == "$" + [OpenChar(b)] + s[2..];
    OneNode(Dangling(b, Parse(s[2..])));
  }

  lemma ParsedLit(s: string)
    requires s != "" && !Opens(s) && Print(Parse(s[1..])) == s[1..] && WellFormed(Parse(s[1..]))
    ensures Print(Parse(s)) == s && WellFormed(Parse(s))
  {
    assert Parse(s)[1..] == Parse(s[1..]);
    assert [s[0]] + s[1..] == s;
  }

  function ParseEnv(raw: map<string, string>): Env {
    map name | name in raw :: Parse(raw[name])
  }

  /** So every text, unterminated references included, expands to the value of its tree, in every environment. */
  lemma EveryTextHasMeaning(raw: map<string, string>, mods: Modifiers, s: string, fuel: nat)
    ensures Expand(raw, mods, s, fuel) == Eval(ParseEnv(raw), mods, Parse(s), fuel)
  {
    var env := ParseEnv(raw);
    forall name | name in raw
      ensures WellFormed(env[name]) && Print(env[name]) == raw[name]
    {
      ParsePrints(raw[name]);
    }
    assert Raw(env) == raw;
    ParsePrints(s);
    ExpandIsEval(env, mods, Parse(s), fuel);
  }

  // ----- the limit -----

  /** Evaluation with this much fuel never reaches the limit with a reference left. */
  predicate Settled(env: Env, mods: Modifiers, nodes: seq<Node>, fuel: nat)
    decreases fuel, 1, nodes
  {
    nodes == [] || (Settled(env, mods, nodes[1..], fuel) && SettledNode(env, mods, nodes[0], fuel))
  }

  predicate SettledNode(env: Env, mods: Modifiers, n: Node, fuel: nat)
    decreases fuel, 1, n
  {
    n.Lit? || (fuel > 0 && SettledRef(env, mods, n.inner, fuel))
  }

  predicate SettledRef(env: Env, mods: Modifiers, inner: seq<Node>, fuel: nat)
    requires fuel > 0
    decreases fuel, 0, 0
  {
    && Settled(env, mods, inner, fuel - 1)
    && var name := Base(Eval(env, mods, inner, fuel - 1));
       (name in env ==> Settled(env, mods, env[name], fuel - 1))
  }

  /** More fuel changes nothing once evaluation is settled: its value is the unlimited meaning. */
  lemma {:induction false} SettledIsUnlimited(env: Env, mods: Modifiers, nodes: seq<Node>, fuel: nat, more: nat)
    requires Settled(env, mods, nodes, fuel) && fuel <= more
    ensures Settled(env, mods, nodes, more) && Eval(env, mods, nodes, more) == Eval(env, mods, nodes, fuel)
    decreases fuel, 1, nodes
  {
    if nodes != [] {
      SettledIsUnlimited(env, mods, nodes[1..], fuel, more);
      if nodes[0].Lit? {
      } else {
        SettledRefIsUnlimited(env, mods, nodes[0].inner, fuel, more);
      }
      if fuel == 0 {
        LitsEvaluate(env, mods, nodes, more);
      }
    }
  }

  lemma {:induction false} LitsEvaluate(env: Env, mods: Modifiers, nodes: seq<Node>, fuel: nat)
    requires Settled(env, mods, nodes, 0)
    ensures Eval(env, mods, nodes, fuel) == Print(nodes)
    decreases |nodes|
  {
    if nodes != [] {
      LitsEvaluate(env, mods, nodes[1..], fuel);
    }
  }

  lemma {:induction false} SettledRefIsUnlimited(env: Env, mods: Modifiers, inner: seq<Node>, fuel: nat, more: nat)
    requires 0 < fuel <= more && SettledRef(env, mods, inner, fuel)
    ensures SettledRef(env, mods, inner, more) && EvalRef(env, mods, inner, more) == EvalRef(env, mods, inner, fuel)
    decreases fuel, 0
  {
    SettledIsUnlimited(env, mods, inner, fuel - 1, more - 1);
    var name := Base(Eval(env, mods, inner, fuel - 1));
    if name in env {
      SettledIsUnlimited(env, mods, env[name], fuel - 1, more - 1);
    }
  }

  // ----- acyclic environments -----

  /** How deep references nest inside references. */
  function Nesting(nodes: seq<Node>): nat {
    if nodes == [] then 0
    else
      var here := if nodes[0].Lit? then 0 else 1 + Nesting(nodes[0].inner);
      var rest := Nesting(nodes[1..]);
      if here > rest then here else rest
  }

  /** Whatever a reference in these nodes may resolve to, computed names included, ranks below r. */
  ghost predicate RefersBelow(env: Env, mods: Modifiers, rank: map<string, nat>, nodes: seq<Node>, r: nat) {
    nodes == [] ||
    (RefersBelow(env, mods, rank, nodes[1..], r) &&
     (nodes[0].Lit? ||
      (RefersBelow(env, mods, rank, nodes[0].inner, r) &&
       forall k: nat :: ResolvesBelow(env, rank, Eval(env, mods, nodes[0].inner, k), r))))
  }

  predicate ResolvesBelow(env: Env, rank: map<string, nat>, name: string, r: nat) {
    Base(name) in env ==> Base(name) in rank && rank[Base(name)] < r
  }

  ghost predicate Acyclic(env: Env, mods: Modifiers, rank: map<string, nat>, m: nat) {
    forall x :: x in env ==> x in rank && Nesting(env[x]) <= m && RefersBelow(env, mods, rank, env[x], rank[x])
  }

  /** An acyclic environment settles: one level for each nesting, and m levels for each rank. */
  lemma {:induction false} AcyclicSettles(env: Env, mods: Modifiers, rank: map<string, nat>, m: nat, nodes: seq<Node>,
                                           r: nat)
    requires Acyclic(env, mods, rank, m) && RefersBelow(env, mods, rank, nodes, r)
    ensures Settled(env, mods, nodes, Nesting(nodes) + r * m)
    decreases r, nodes, 0
  {
    hide Eval, Base, SettledRef, ResolvesBelow, Acyclic;
    if nodes != [] {
      var fuel := Nesting(nodes) + r * m;
      AcyclicSettles(env, mods, rank, m, nodes[1..], r);
      SettledIsUnlimited(env, mods, nodes[1..], Nesting(nodes[1..]) + r * m, fuel);
      if !nodes[0].Lit? {
        AcyclicRefSettles(env, mods, rank, m, nodes[0].inner, r, fuel - 1);
      }
    }
  }

  lemma {:induction false} AcyclicRefSettles(env: Env, mods: Modifiers, rank: map<string, nat>, m: nat,
                                             inner: seq<Node>, r: nat, fuel: nat)
    requires Acyclic(env, mods, rank, m) && RefersBelow(env, mods, rank, inner, r)
    requires forall k: nat :: ResolvesBelow(env, rank, Eval(env, mods, inner, k), r)
    requires fuel >= Nesting(inner) + r * m
    ensures SettledRef(env, mods, inner, fuel + 1)
    decreases r, inner, 1
  {
    hide Eval, Base, Settled, RefersBelow, Nesting;
    AcyclicSettles(env, mods, rank, m, inner, r);
    SettledIsUnlimited(env, mods, inner, Nesting(inner) + r * m, fuel);
    assert ResolvesBelow(env, rank, Eval(env, mods, inner, fuel), r);
    var x := Base(Eval(env, mods, inner, fuel));
    if x in env {
      AcyclicSettles(env, mods, rank, m, env[x], rank[x]);
      RankFits(m, rank[x], r, Nesting(env[x]));
      SettledIsUnlimited(env, mods, env[x], Nesting(env[x]) + rank[x] * m, fuel);
    }
  }

  lemma RankFits(m: nat, q: nat, r: nat, n: nat)
    requires q < r && n <= m
    ensures n + q * m <= r * m
  {
    MulOrder(q + 1, r, m);
    assert (q + 1) * m == q * m + m;
  }

  /** An acyclic variable within the depth limit gets its unlimited meaning: no larger limit would change it. */
  lemma AcyclicMeaning(env: Env, mods: Modifiers, rank: map<string, nat>, m: nat, name: string, more: nat)
    requires WellFormedEnv(env) && Acyclic(env, mods, rank, m) && name in env
    requires Nesting(env[name]) + rank[name] * m <= FUEL <= more
    ensures Expand(Raw(env), mods, Raw(env)[name], FUEL) == Eval(env, mods, env[name], more)
  {
    AcyclicSettles(env, mods, rank, m, env[name], rank[name]);
    var fuel := Nesting(env[name]) + rank[name] * m;
    SettledIsUnlimited(env, mods, env[name], fuel, FUEL);
    SettledIsUnlimited(env, mods, env[name], FUEL, more);
    ExpandIsEval(env, mods, env[name], FUEL);
  }

  lemma {:induction false} PlainNameStays(name: string, brace: bool, level: nat)
    requires level > 0 && OpenChar(brace) !in name && CloseChar(brace) !in name
    ensures CloseAt(name + [CloseChar(brace)], brace, level) == if level == 1 then |name| else |name| + 1
    decreases |name|
  {
    var t := name + [CloseChar(brace)];
    if name != "" {
      assert t[0] == name[0] && t[1..] == name[1..] + [CloseChar(brace)];
      PlainNameStays(name[1..], brace, level);
    }
  }

  lemma ScanReference(env: map<string, string>, mods: Modifiers, name: string, brace: bool, fuel: nat)
    requires fuel > 0 && OpenChar(brace) !in name && CloseChar(brace) !in name
    ensures Scan(env, mods, "$" + [OpenChar(brace)] + name + [CloseChar(brace)], fuel)
            == ExpandRef(env, mods, name, fuel)
  {
    var t := "$" + [OpenChar(brace)] + name + [CloseChar(brace)];
    PlainNameStays(name, brace, 1);
    assert t[2..] == name + [CloseChar(brace)];
    ScanOpen(env, mods, t, |name|, fuel);
    assert t[2..2 + |name|] == name && t[3 + |name|..] == "";
    Nothing(env, mods, ExpandRef(env, mods, name, fuel), fuel);
  }

  /** A variable that refers to itself comes out as its own reference at every depth, whatever else is defined. */
  lemma {:induction false} SelfReferenceStays(env: map<string, string>, mods: Modifiers, name: string, brace: bool,
                                              fuel: nat)
    requires '$' !in name && ':' !in name && OpenChar(brace) !in name && CloseChar(brace) !in name
    requires name in env && env[name] == "$" + [OpenChar(brace)] + name + [CloseChar(brace)]
    ensures Expand(env, mods, env[name], fuel) == env[name]
  {
    if fuel > 0 {
      ScanReference(env, mods, name, brace, fuel);
      if fuel > 1 {
        NoDollarIsUnchanged(env, mods, name, fuel - 1);
      }
      SelfReferenceStays(env, mods, name, brace, fuel - 1);
    }
  }
}
