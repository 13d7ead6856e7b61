/**
 What the text of a config line says (go/pfb_dns_gateway/acl.go, `parseACLLine`, and aclconf.go): for every row, every
 implicit row and every include directive as an admin may space, quote and comment it, the item the reader gets.
 */
module AclLines {
  import opened Common
  import opened AclLookup
  import opened AclText
  import opened Text

  // ----- blanks and words -----

  predicate BlankOf(s: string, chars: string) {
    forall i :: 0 <= i < |s| ==> s[i] in chars
  }

  /** What a line's fields are made of: no blank, no carriage return and no comment sign. */
  predicate IsField(s: string) {
    s != "" && forall i :: 0 <= i < |s| ==> s[i] !in " \t\r#"
  }

  lemma {:induction false} TrimIs(blank: string, rest: string, chars: string)
    requires BlankOf(blank, chars) && (rest == "" || rest[0] !in chars)
    ensures TrimLeft(blank + rest, chars) == rest
    decreases |blank|
  {
    if blank == "" {
      assert blank + rest == rest;
    } else {
      assert (blank + rest)[1..] == blank[1..] + rest;
      TrimIs(blank[1..], rest, chars);
    }
  }

  lemma FieldsBlank(blank: string)
    requires BlankOf(blank, " \t\r")
    ensures Fields(blank, " \t\r") == []
  {
    TrimIs(blank, "", " \t\r");
    assert blank + "" == blank;
  }

  lemma FieldFirst(blank: string, word: string, rest: string)
    requires BlankOf(blank, " \t\r") && IsField(word) && (rest == "" || rest[0] in " \t\r")
    ensures Fields(blank + (word + rest), " \t\r") == [word] + Fields(rest, " \t\r")
  {
    var t := word + rest;
    assert t[0] == word[0] && word[0] !in " \t\r#";
    TrimIs(blank, t, " \t\r");
    FieldEnds(word, rest);
    assert t[..|word|] == word && t[|word|..] == rest;
  }

  lemma FieldEnds(word: string, rest: string)
    requires IsField(word) && (rest == "" || rest[0] in " \t\r")
    ensures Find(word + rest, " \t\r") == |word|
  {
    forall i | 0 <= i < |word|
      ensures word[i] !in " \t\r"
    {
      assert word[i] !in " \t\r#";
    }
    FindIs(word, rest, " \t\r");
  }

  predicate NoComment(s: string) {
    forall i :: 0 <= i < |s| ==> s[i] != '#'
  }

  lemma WordsOf(x: Lexer, body: string, comment: string)
    requires NoComment(body) && (comment == "" || comment[0] == '#') && x.utf8(body)
    ensures Words(x, body + comment) == Some(Fields(body, " \t\r"))
  {
    FindIs(body, comment, "#");
    assert (body + comment)[..|body|] == body;
  }

  // ----- access-control rows -----

  /** The words of a row, with or without a blank behind the keyword, and whatever follows the netblock. */
  lemma RowFields(lead: string, key: string, gap: string, netblock: string, rest: string)
    requires BlankOf(lead, " \t\r") && BlankOf(gap, " \t\r") && IsField(netblock) && IsField(key)
    requires rest == "" || rest[0] in " \t\r"
    ensures Fields(lead + (key + (gap + (netblock + rest))), " \t\r")
            == (if gap == "" then [key + netblock] else [key, netblock]) + Fields(rest, " \t\r")
  {
    hide Fields, IsField;
    if gap == "" {
      assert key + (gap + (netblock + rest)) == (key + netblock) + rest;
      FieldsJoin(key, netblock);
      FieldFirst(lead, key + netblock, rest);
    } else {
      assert gap[0] in " \t\r" && (gap + (netblock + rest))[0] == gap[0];
      FieldFirst(lead, key, gap + (netblock + rest));
      FieldFirst(gap, netblock, rest);
      TwoFirst(key, netblock, Fields(rest, " \t\r"));
    }
  }

  lemma FieldsJoin(a: string, b: string)
    requires IsField(a) && IsField(b)
    ensures IsField(a + b)
  {
  }

  lemma TwoFirst(a: string, b: string, rest: seq<string>)
    ensures [a] + ([b] + rest) == [a, b] + rest && |[a] + ([b] + rest)| >= 2
  {
  }

  /** Either way the head is the keyword, the netblock and the remaining words. */
  lemma HeadOf(key: string, netblock: string, glued: bool, tail: seq<string>)
    requires key in ACL_KEYS && IsField(netblock)
    ensures RuleHead((if glued then [key + ":" + netblock] else [key + ":", netblock]) + tail)
            == Some(Head(key, netblock, tail))
  {
    hide Find;
    var rest := if glued then netblock else "";
    var first := key + ":" + rest;
    KeyHasNoColon(key);
    FindIs(key, ":" + rest, ":");
    assert first == key + (":" + rest);
    assert first[..|key|] == key && first[|key| + 1..] == rest;
    if glued {
      assert ([first] + tail)[1..] == tail;
    } else {
      assert key + ":" == first;
      assert ([first, netblock] + tail)[2..] == tail;
    }
  }

  lemma KeyHasNoColon(key: string)
    requires key in ACL_KEYS
    ensures forall i :: 0 <= i < |key| ==> key[i] !in ":"
  {
  }

  lemma KeyIsField(key: string)
    requires key in ACL_KEYS
    ensures IsField(key + ":")
  {
    hide IsField;
    var suffix := KeySuffix(key);
    StemIsField();
    SuffixIsField(suffix);
    FieldsJoin("access-control", suffix + ":");
    assert key + ":" == "access-control" + (suffix + ":");
  }

  lemma KeySuffix(key: string) returns (suffix: string)
    requires key in ACL_KEYS
    ensures suffix in {"", "-view", "-tag", "-tag-action", "-tag-data"} && key == "access-control" + suffix
  {
    suffix := if key == "access-control" then "" else key[14..];
    assert "access-control-view"[14..] == "-view" && "access-control-tag"[14..] == "-tag";
    assert "access-control-tag-action"[14..] == "-tag-action" && "access-control-tag-data"[14..] == "-tag-data";
  }

  lemma StemIsField()
    ensures IsField("access-control")
  {
  }

  lemma SuffixIsField(suffix: string)
    requires suffix in {"", "-view", "-tag", "-tag-action", "-tag-data"}
    ensures IsField(suffix + ":")
  {
  }

  /** What an action word says. */
  predicate Says(word: string, action: Action) {
    match action
    case Drop => word == "deny"
    case Refuse => word == "refuse"
    case Forward =>
      word in {"allow", "allow_snoop", "allow_setrd", "allow_cookie", "deny_non_local", "refuse_non_local"}
  }

  lemma ActionSays(word: string, action: Action)
    ensures ActionOf(word) == Some(action) <==> Says(word, action)
  {
    assert "deny"[0] != "refuse"[0] && "deny"[0] != "allow"[0] && "refuse"[0] != "allow"[0];
    assert |"deny"| == 4 && |"refuse"| == 6 && |"deny_non_local"| == 14 && |"refuse_non_local"| == 16;
  }

  /** The body of a line with a keyword, a netblock and the words behind it. */
  function Body(lead: string, key: string, gap: string, netblock: string, rest: string): string {
    lead + (key + ":" + (gap + (netblock + rest)))
  }

  lemma KeyShape(key: string)
    requires key in ACL_KEYS
    ensures key != "" && key[0] == 'a' && (key != "access-control" ==> "access-control-" <= key)
  {
  }

  lemma KeywordFirst(lead: string, key: string, tail: string, comment: string)
    requires BlankOf(lead, " \t") && key in ACL_KEYS
    ensures var s := key + ":" + tail + comment;
            && TrimLeft(lead + (key + ":" + tail) + comment, " \t") == s
            && ("access-control:" <= s <==> key == "access-control")
            && (key != "access-control" ==> "access-control-" <= s)
  {
    hide TrimLeft;
    var s := key + ":" + tail + comment;
    KeyShape(key);
    assert lead + (key + ":" + tail) + comment == lead + s;
    assert s[0] == key[0];
    TrimIs(lead, s, " \t");
    if key == "access-control" {
      assert s[..15] == "access-control:";
    } else {
      assert s[14] == key[14] == "access-control-"[14];
      assert s[..15] == key[..15];
    }
  }

  lemma BodyWords(x: Lexer, lead: string, key: string, gap: string, netblock: string, rest: string, comment: string)
    requires BlankOf(lead, " \t\r") && BlankOf(gap, " \t\r") && key in ACL_KEYS && IsField(netblock)
    requires (rest == "" || rest[0] in " \t\r") && NoComment(rest) && (comment == "" || comment[0] == '#')
    requires x.utf8(Body(lead, key, gap, netblock, rest))
    ensures Words(x, Body(lead, key, gap, netblock, rest) + comment).Some?
    ensures RuleHead(Words(x, Body(lead, key, gap, netblock, rest) + comment).value)
            == Some(Head(key, netblock, Fields(rest, " \t\r")))
  {
    hide Fields, RuleHead;
    var body := Body(lead, key, gap, netblock, rest);
    KeyIsField(key);
    BodyHasNoComment(lead, key, gap, netblock, rest);
    WordsOf(x, body, comment);
    RowFields(lead, key + ":", gap, netblock, rest);
    HeadOf(key, netblock, gap == "", Fields(rest, " \t\r"));
  }

  lemma BodyHasNoComment(lead: string, key: string, gap: string, netblock: string, rest: string)
    requires BlankOf(lead, " \t\r") && BlankOf(gap, " \t\r") && IsField(key + ":") && IsField(netblock)
    requires NoComment(rest)
    ensures NoComment(Body(lead, key, gap, netblock, rest))
  {
    FieldHasNoComment(key + ":");
    FieldHasNoComment(netblock);
    BlankHasNoComment(lead);
    BlankHasNoComment(gap);
    NoneInBoth(netblock, rest);
    NoneInBoth(gap, netblock + rest);
    NoneInBoth(key + ":", gap + (netblock + rest));
    NoneInBoth(lead, key + ":" + (gap + (netblock + rest)));
  }

  lemma FieldHasNoComment(s: string)
    requires IsField(s)
    ensures NoComment(s)
  {
    forall i | 0 <= i < |s|
      ensures s[i] != '#'
    {
      assert s[i] !in " \t\r#";
    }
  }

  lemma BlankHasNoComment(s: string)
    requires BlankOf(s, " \t\r")
    ensures NoComment(s)
  {
    forall i | 0 <= i < |s|
      ensures s[i] != '#'
    {
      assert s[i] in " \t\r";
    }
  }

  lemma NoneInBoth(a: string, b: string)
    requires NoComment(a) && NoComment(b)
    ensures NoComment(a + b)
  {
  }

  /** Quotes of either kind around a word are dropped, and nothing else is. */
  lemma QuotesAreDropped(s: string)
    ensures Unquote("\"" + s + "\"") == s && Unquote("'" + s + "'") == s
    ensures |s| < 2 || s[0] != s[|s| - 1] || s[0] !in "\"'" ==> Unquote(s) == s
  {
    var a, b := "\"" + s + "\"", "'" + s + "'";
    assert a[1..|a| - 1] == s && b[1..|b| - 1] == s;
  }

  /**
   A row of the config: the keyword, a netblock glued to it or set off, one action word, blanks around and a comment
   behind. It lists the netblock's prefix with what the word says, and nothing when the word or the netblock is unknown.
   */
  lemma RowSays(x: Lexer, lead: string, gap: string, netblock: string, gap2: string, word: string, end: string,
                comment: string, action: Action)
    requires BlankOf(lead, " \t") && BlankOf(gap, " \t\r") && BlankOf(gap2, " \t\r") && gap2 != ""
    requires BlankOf(end, " \t\r")
    requires IsField(netblock) && IsField(word) && (comment == "" || comment[0] == '#')
    requires x.utf8(Body(lead, "access-control", gap, netblock, gap2 + (word + end)))
    ensures var item := Classify(x, Body(lead, "access-control", gap, netblock, gap2 + (word + end)) + comment);
            var p := ParseNetblock(x, Unquote(netblock));
            && (p.Some? && Says(Unquote(word), action) ==> item == Listed(Row(p.value, action)))
            && (p.None? || (forall a :: !Says(Unquote(word), a)) ==> item == Nothing)
  {
    hide Fields, RuleHead, Words, TrimLeft, ActionOf, ParseNetblock, Says, Unquote;
    var rest := gap2 + (word + end);
    var line := Body(lead, "access-control", gap, netblock, rest) + comment;
    assert BlankOf(lead, " \t\r");
    RestHasNoComment(gap2, word, end);
    KeywordFirst(lead, "access-control", gap + (netblock + rest), comment);
    BodyWords(x, lead, "access-control", gap, netblock, rest, comment);
    FieldFirst(gap2, word, end);
    FieldsBlank(end);
    ActionSays(Unquote(word), action);
    forall a
      ensures ActionOf(Unquote(word)) == Some(a) <==> Says(Unquote(word), a)
    {
      ActionSays(Unquote(word), a);
    }
    OneField(word);
  }

  lemma OneField(word: string)
    ensures [word] + [] == [word]
  {
  }

  lemma RestHasNoComment(gap: string, word: string, end: string)
    requires BlankOf(gap, " \t\r") && IsField(word) && BlankOf(end, " \t\r")
    ensures NoComment(gap + (word + end))
  {
    BlankHasNoComment(gap);
    FieldHasNoComment(word);
    BlankHasNoComment(end);
    NoneInBoth(word, end);
    NoneInBoth(gap, word + end);
  }

  /** A second word behind the action makes the line no row. */
  lemma RowHasOneAction(x: Lexer, lead: string, gap: string, netblock: string, gap2: string, word: string, gap3: string,
                        more: string, end: string)
    requires BlankOf(lead, " \t") && BlankOf(gap, " \t\r") && BlankOf(gap2, " \t\r") && gap2 != ""
    requires BlankOf(gap3, " \t\r") && gap3 != "" && NoComment(end) && (end == "" || end[0] in " \t\r")
    requires IsField(netblock) && IsField(word) && IsField(more)
    requires x.utf8(Body(lead, "access-control", gap, netblock, gap2 + (word + (gap3 + (more + end)))))
    ensures Classify(x, Body(lead, "access-control", gap, netblock, gap2 + (word + (gap3 + (more + end))))) == Nothing
  {
    hide Fields, RuleHead, Words, TrimLeft, ActionOf, ParseNetblock, Unquote;
    var rest := gap2 + (word + (gap3 + (more + end)));
    var body := Body(lead, "access-control", gap, netblock, rest);
    assert BlankOf(lead, " \t\r") && body + "" == body;
    FieldHasNoComment(word);
    FieldHasNoComment(more);
    BlankHasNoComment(gap2);
    BlankHasNoComment(gap3);
    NoneInBoth(more, end);
    NoneInBoth(gap3, more + end);
    NoneInBoth(word, gap3 + (more + end));
    NoneInBoth(gap2, word + (gap3 + (more + end)));
    KeywordFirst(lead, "access-control", gap + (netblock + rest), "");
    BodyWords(x, lead, "access-control", gap, netblock, rest, "");
    FieldFirst(gap2, word, gap3 + (more + end));
    FieldFirst(gap3, more, end);
    TwoFirst(word, more, Fields(end, " \t\r"));
  }

  /** Views, tags and their actions and data imply an allow for their netblock, whatever words follow it. */
  lemma ImplicitRowSays(x: Lexer, lead: string, kind: string, gap: string, netblock: string, rest: string,
                        comment: string)
    requires kind in {"view", "tag", "tag-action", "tag-data"}
    requires BlankOf(lead, " \t") && BlankOf(gap, " \t\r") && IsField(netblock)
    requires (rest == "" || rest[0] in " \t\r") && NoComment(rest) && (comment == "" || comment[0] == '#')
    requires x.utf8(Body("", "access-control-" + kind, gap, netblock, rest))
    ensures Classify(x, Body(lead, "access-control-" + kind, gap, netblock, rest) + comment)
            == match ParseNetblock(x, Unquote(netblock)) case Some(p) => Implied(p) case None => Nothing
  {
    hide Fields, RuleHead, Words, TrimLeft, ParseNetblock, Unquote;
    var key := "access-control-" + kind;
    ImplicitKey(kind);
    KeywordFirst(lead, key, gap + (netblock + rest), comment);
    BodyWords(x, "", key, gap, netblock, rest, comment);
    assert Body("", key, gap, netblock, rest) + comment == key + ":" + (gap + (netblock + rest)) + comment;
  }

  lemma ImplicitKey(kind: string)
    requires kind in {"view", "tag", "tag-action", "tag-data"}
    ensures "access-control-" + kind in ACL_KEYS && "access-control-" + kind != "access-control"
  {
    assert "access-control-" + "view" == "access-control-view";
    assert "access-control-" + "tag" == "access-control-tag";
    assert "access-control-" + "tag-action" == "access-control-tag-action";
    assert "access-control-" + "tag-data" == "access-control-tag-data";
    assert |"access-control-" + kind| > |"access-control"|;
  }

  // ----- include directives -----

  /** A bare include target ends at the first blank; a comment sign is part of it. */
  predicate IsBare(s: string) {
    s != "" && forall i :: 0 <= i < |s| ==> s[i] !in " \t\r"
  }

  predicate HasAny(s: string, chars: string) {
    exists i :: 0 <= i < |s| && s[i] in chars
  }

  lemma FindAny(s: string, chars: string)
    ensures Find(s, chars) < |s| <==> HasAny(s, chars)
  {
  }

  predicate NegatedAt(s: string, r: string, i: nat)
    requires i < |s| == |r|
  {
    r[i] == if i > 0 && s[i - 1] == '[' && s[i] == '!' then '^' else s[i]
  }

  /** The exclamation mark behind a bracket becomes a circumflex, and nothing else changes. */
  predicate IsNegated(s: string, r: string) {
    |r| == |s| && forall i :: 0 <= i < |s| ==> NegatedAt(s, r, i)
  }

  lemma {:induction false} NegationIs(s: string)
    ensures IsNegated(s, NegateGlob(s))
    decreases |s|
  {
    hide IsNegated;
    if |s| < 2 {
      NegatedShort(s);
    } else {
      NegatedFirst(s);
      if s[..2] == "[!" {
        NegationIs(s[2..]);
        NegatedTwo(s, NegateGlob(s[2..]));
      } else {
        NegationIs(s[1..]);
        NegatedOne(s, NegateGlob(s[1..]));
      }
    }
  }

  lemma NegatedShort(s: string)
    requires |s| < 2
    ensures IsNegated(s, s)
  {
  }

  lemma NegatedTwo(s: string, tail: string)
    requires |s| >= 2 && s[0] == '[' && s[1] == '!' && IsNegated(s[2..], tail)
    ensures IsNegated(s, "[^" + tail)
  {
    forall i | 0 <= i < |s|
      ensures NegatedAt(s, "[^" + tail, i)
    {
      if i >= 2 {
        assert NegatedAt(s[2..], tail, i - 2);
      }
    }
  }

  lemma NegatedOne(s: string, tail: string)
    requires |s| >= 2 && !(s[0] == '[' && s[1] == '!') && IsNegated(s[1..], tail)
    ensures IsNegated(s, s[..1] + tail)
  {
    forall i | 0 <= i < |s|
      ensures NegatedAt(s, s[..1] + tail, i)
    {
      if i >= 1 {
        assert NegatedAt(s[1..], tail, i - 1);
      }
    }
  }

  lemma NegatedFirst(s: string)
    requires |s| >= 2
    ensures s[..2] == "[!" <==> s[0] == '[' && s[1] == '!'
  {
    assert s[..2] == [s[0], s[1]];
  }

  /** What an include names: braces and tildes are refused, wildcards make a glob. */
  lemma TargetSays(target: string)
    ensures TargetOf(target) ==
              if target == "" || HasAny(target, "{~") then Bad
              else if HasAny(target, "*?[") then Glob(NegateGlob(target))
              else Path(target)
  {
    hide Find, HasAny;
    FindAny(target, "{~");
    FindAny(target, "*?[");
  }

  /** include: and include-toplevel: with a quoted or a bare target, blanks before it and anything behind it. */
  lemma IncludeSays(x: Lexer, lead: string, toplevel: bool, gap: string, quoted: bool, target: string, rest: string)
    requires BlankOf(lead, " \t") && BlankOf(gap, " \t")
    requires quoted ==> forall i :: 0 <= i < |target| ==> target[i] != '"'
    requires !quoted ==> IsBare(target) && target[0] != '"' && (rest == "" || rest[0] in " \t\r")
    ensures var key := if toplevel then "include-toplevel:" else "include:";
            var text := if quoted then "\"" + target + "\"" else target;
            Classify(x, lead + (key + (gap + (text + rest)))) == Include(TargetOf(target))
  {
    hide TargetOf, IncludeTarget, TrimLeft;
    var key := if toplevel then "include-toplevel:" else "include:";
    var text := if quoted then "\"" + target + "\"" else target;
    DirectiveFirst(lead, key, gap + (text + rest));
    DirectiveTarget(key, gap, quoted, target, text, rest);
  }

  /** A directive that names nothing, or opens a quote without closing it, is bad. */
  lemma BadInclude(x: Lexer, lead: string, toplevel: bool, gap: string, open: string)
    requires BlankOf(lead, " \t") && BlankOf(gap, " \t") && forall i :: 0 <= i < |open| ==> open[i] != '"'
    ensures var key := if toplevel then "include-toplevel:" else "include:";
            && Classify(x, lead + (key + gap)) == Include(Bad)
            && Classify(x, lead + (key + (gap + ("\"" + open)))) == Include(Bad)
  {
    hide TargetOf, IncludeTarget, TrimLeft, Find;
    var key := if toplevel then "include-toplevel:" else "include:";
    DirectiveFirst(lead, key, gap);
    DirectiveColon(key, gap);
    TrimIs(gap, "", " \t");
    assert gap + "" == gap;
    NoTarget(key + gap, |key|);
    var text := "\"" + open;
    DirectiveFirst(lead, key, gap + text);
    DirectiveColon(key, gap + text);
    TrimIs(gap, text, " \t");
    ColonTarget(key + (gap + text), |key|, text);
    assert text[1..] == open && open + "" == open;
    FindIs(open, "", "\"");
  }

  lemma NoTarget(directive: string, n: nat)
    requires 0 < n <= |directive| && Find(directive, ":") == n - 1 && TrimLeft(directive[n..], " \t") == ""
    ensures IncludeTarget(directive) == Bad
  {
    hide TrimLeft, Find, TargetOf;
    EmptyTarget();
  }

  lemma EmptyTarget()
    ensures TargetOf("") == Bad
  {
  }

  lemma DirectiveTarget(key: string, gap: string, quoted: bool, target: string, text: string, rest: string)
    requires (key == "include:" || key == "include-toplevel:") && BlankOf(gap, " \t")
    requires quoted ==> forall i :: 0 <= i < |target| ==> target[i] != '"'
    requires !quoted ==> IsBare(target) && target[0] != '"' && (rest == "" || rest[0] in " \t\r")
    requires text == if quoted then "\"" + target + "\"" else target
    ensures IncludeTarget(key + (gap + (text + rest))) == TargetOf(target)
  {
    hide TargetOf, Find, TrimLeft, IsBare, IncludeTarget;
    DirectiveColon(key, gap + (text + rest));
    TextFirst(gap, quoted, target, text, rest);
    ColonTarget(key + (gap + (text + rest)), |key|, text + rest);
    if quoted {
      QuotedTarget(target, rest);
      assert text + rest == "\"" + (target + ("\"" + rest));
    } else {
      BareEnds(target, rest);
    }
  }

  lemma ColonTarget(directive: string, n: nat, rest: string)
    requires 0 < n <= |directive| && Find(directive, ":") == n - 1
    requires TrimLeft(directive[n..], " \t") == rest && rest != ""
    ensures rest[0] == '"' ==>
              var end := Find(rest[1..], "\"");
              IncludeTarget(directive) == if end == |rest| - 1 then Bad else TargetOf(rest[1..1 + end])
    ensures rest[0] != '"' ==> IncludeTarget(directive) == TargetOf(rest[..Find(rest, " \t\r")])
  {
    hide TargetOf, Find, TrimLeft;
  }

  lemma BareEnds(target: string, rest: string)
    requires IsBare(target) && (rest == "" || rest[0] in " \t\r")
    ensures Find(target + rest, " \t\r") == |target| && (target + rest)[..|target|] == target
  {
    FindIs(target, rest, " \t\r");
  }

  lemma TextFirst(gap: string, quoted: bool, target: string, text: string, rest: string)
    requires BlankOf(gap, " \t") && (!quoted ==> IsBare(target))
    requires text == if quoted then "\"" + target + "\"" else target
    ensures TrimLeft(gap + (text + rest), " \t") == text + rest && text + rest != ""
    ensures (text + rest)[0] == if quoted then '"' else target[0]
  {
    assert !quoted ==> target[0] !in " \t\r";
    TrimIs(gap, text + rest, " \t");
  }

  lemma QuotedTarget(target: string, rest: string)
    requires forall i :: 0 <= i < |target| ==> target[i] != '"'
    ensures var s := "\"" + (target + ("\"" + rest));
            && Find(s[1..], "\"") == |target| && |target| < |s| - 1 && s[1..1 + |target|] == target
  {
    var s := "\"" + (target + ("\"" + rest));
    assert s[1..] == target + ("\"" + rest);
    FindIs(target, "\"" + rest, "\"");
  }

  lemma DirectiveFirst(lead: string, key: string, tail: string)
    requires BlankOf(lead, " \t") && (key == "include:" || key == "include-toplevel:")
    ensures TrimLeft(lead + (key + tail), " \t") == key + tail && key <= key + tail
    ensures !("access-control:" <= key + tail) && !("access-control-" <= key + tail)
  {
    assert (key + tail)[0] == 'i';
    TrimIs(lead, key + tail, " \t");
  }

  lemma DirectiveColon(key: string, tail: string)
    requires key == "include:" || key == "include-toplevel:"
    ensures Find(key + tail, ":") == |key| - 1 && (key + tail)[|key|..] == tail
  {
    var name := key[..|key| - 1];
    assert key + tail == name + (":" + tail);
    FindIs(name, ":" + tail, ":");
  }
}
