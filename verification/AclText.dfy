/**
 One line of an Unbound config as the gateway reads it (go/pfb_dns_gateway/acl.go and aclconf.go): keywords,
 rows and include directives. A line is a sequence of one-byte characters. Reading IP text and testing UTF-8
 validity are parameters.
 */
module AclText {
  import opened Common
  import opened AclLookup
  import opened Powers
  import opened Text

  /** What netip.ParsePrefix reads: an address, host bits included, and a length within its family. */
  datatype AddrBits = AddrBits(addr: Addr, len: nat)

  type Cidr = c: AddrBits | c.len <= Width(c.addr.v4) witness AddrBits(Addr(true, 0), 0)

  /** What netip.ParseAddr reads. */
  datatype Host = Host(addr: Addr, zoned: bool)

  /** The readings of text that are not modelled. */
  datatype Lexer = Lexer(cidr: string -> Option<Cidr>, host: string -> Option<Host>, utf8: string -> bool)

  // ----- strings -----

  function TrimLeft(s: string, chars: string): string {
    if s != "" && s[0] in chars then TrimLeft(s[1..], chars) else s
  }

  /** strings.FieldsFunc: the non-empty runs between separators. */
  function Fields(s: string, separators: string): seq<string>
    decreases |s|
  {
    var t := TrimLeft(s, separators);
    TrimShortens(s, separators);
    if t == "" then [] else
      var i := Find(t, separators);
      [t[..i]] + Fields(t[i..], separators)
  }

  lemma {:induction false} TrimShortens(s: string, chars: string)
    ensures |TrimLeft(s, chars)| <= |s|
    ensures TrimLeft(s, chars) != "" ==> TrimLeft(s, chars)[0] !in chars
  {
    if s != "" && s[0] in chars {
      TrimShortens(s[1..], chars);
    }
  }

  /** strings.ReplaceAll(s, "[!", "[^"): glob(3) negates with '!', filepath.Match with '^'. */
  function NegateGlob(s: string): string {
    if |s| < 2 then s
    else if s[..2] == "[!" then "[^" + NegateGlob(s[2..])
    else s[..1] + NegateGlob(s[1..])
  }

  function Unquote(s: string): string {
    if |s| >= 2 && (s[0] == '"' || s[0] == '\'') && s[|s| - 1] == s[0] then s[1..|s| - 1] else s
  }

  // ----- rows -----

  lemma MaskedIsMasked(v4: bool, value: nat, len: nat)
    requires len <= Width(v4)
    ensures Masked(v4, Masked(v4, value, len), len) == Masked(v4, value, len)
  {
    MaskedDivides(value, Pow2(Width(v4) - len));
  }

  lemma HostIsMasked(v4: bool, value: nat)
    ensures Masked(v4, value, Width(v4)) == value
  {
    assert Pow2(0) == 1;
  }

  /** parseNetblock: host bits are masked, a bare address is a host prefix, and a zone is rejected. */
  function ParseNetblock(x: Lexer, s: string): (p: Option<Prefix>)
    ensures p.Some? ==> IsMasked(p.value)
  {
    if Find(s, "/") < |s| then
      match x.cidr(s)
      case None => None
      case Some(c) =>
        MaskedIsMasked(c.addr.v4, c.addr.value, c.len);
        Some(Prefix(c.addr.v4, Masked(c.addr.v4, c.addr.value, c.len), c.len))
    else
      match x.host(s)
      case None => None
      case Some(h) =>
        HostIsMasked(h.addr.v4, h.addr.value);
        if h.zoned then None else Some(Prefix(h.addr.v4, h.addr.value, Width(h.addr.v4)))
  }

  /**
   A netblock text with a length names exactly the addresses that agree with the written one in that length; one
   without names the written address alone. There is no third form, and a bare address with a zone is refused.
   */
  lemma NetblockCovers(x: Lexer, s: string, a: Addr)
    ensures '/' in s ==> (ParseNetblock(x, s).Some? <==> x.cidr(s).Some?)
    ensures '/' !in s ==> (ParseNetblock(x, s).Some? <==> x.host(s).Some? && !x.host(s).value.zoned)
    ensures ParseNetblock(x, s).Some? ==>
              var p := ParseNetblock(x, s).value;
              if '/' in s then
                var c := x.cidr(s).value;
                && p.len == c.len
                && (Covers(p, a) <==> a.v4 == c.addr.v4 && a.value / Pow2(Width(a.v4) - c.len)
                                                           == c.addr.value / Pow2(Width(a.v4) - c.len))
              else
                Covers(p, a) <==> a == x.host(s).value.addr
  {
    assert Find(s, "/") < |s| <==> '/' in s;
    if '/' in s && x.cidr(s).Some? {
      var c := x.cidr(s).value;
      MaskedDivides(c.addr.value, Pow2(Width(c.addr.v4) - c.len));
    } else {
      assert Pow2(0) == 1;
    }
  }

  const ACL_KEYS := {
    "access-control", "access-control-view", "access-control-tag", "access-control-tag-action",
    "access-control-tag-data"
  }

  /** Only deny and refuse act; any other known action forwards. */
  function ActionOf(word: string): Option<Action> {
    if word == "deny" then Some(Drop)
    else if word == "refuse" then Some(Refuse)
    else if word in {"allow", "allow_snoop", "allow_setrd", "allow_cookie", "deny_non_local", "refuse_non_local"}
    then Some(Forward)
    else None
  }

  function Words(x: Lexer, line: string): Option<seq<string>> {
    var body := line[..Find(line, "#")];
    if x.utf8(body) then Some(Fields(body, " \t\r")) else None
  }

  datatype Head = Head(key: string, netblock: string, tail: seq<string>)

  /** The keyword ends at its first colon; a netblock may be glued to it or be the next word. */
  function RuleHead(words: seq<string>): Option<Head> {
    if words == [] then None
    else
      var colon := Find(words[0], ":");
      if colon == |words[0]| || words[0][..colon] !in ACL_KEYS then None
      else
        var key, glued := words[0][..colon], words[0][colon + 1..];
        if glued != "" then Some(Head(key, glued, words[1..]))
        else if |words| < 2 then None
        else Some(Head(key, words[1], words[2..]))
  }

  datatype Row = Row(prefix: Prefix, action: Action)

  function ParseAclLine(x: Lexer, line: string): Option<Row> {
    match Words(x, line)
    case None => None
    case Some(words) =>
      match RuleHead(words)
      case None => None
      case Some(h) =>
        if h.key != "access-control" || |h.tail| != 1 then None
        else
          match ActionOf(Unquote(h.tail[0]))
          case None => None
          case Some(action) =>
            match ParseNetblock(x, Unquote(h.netblock))
            case None => None
            case Some(p) => Some(Row(p, action))
  }

  function ParseImplicitRow(x: Lexer, line: string): Option<Prefix> {
    match Words(x, line)
    case None => None
    case Some(words) =>
      match RuleHead(words)
      case None => None
      case Some(h) => if h.key == "access-control" then None else ParseNetblock(x, Unquote(h.netblock))
  }

  // ----- include directives -----

  datatype Target = Bad | Path(path: string) | Glob(pattern: string)

  function IncludeTarget(directive: string): Target {
    var colon := Find(directive, ":");
    if colon == |directive| then Bad
    else
      var rest := TrimLeft(directive[colon + 1..], " \t");
      if rest != "" && rest[0] == '"' then
        var end := Find(rest[1..], "\"");
        if end == |rest| - 1 then Bad else TargetOf(rest[1..1 + end])
      else TargetOf(rest[..Find(rest, " \t\r")])
  }

  function TargetOf(target: string): Target {
    if target == "" then Bad
    else if Find(target, "{~") < |target| then Bad
    else if Find(target, "*?[") == |target| then Path(target)
    else Glob(NegateGlob(target))
  }

  // ----- one line -----

  datatype Item = Listed(row: Row) | Implied(prefix: Prefix) | Include(target: Target) | Nothing

  /** What a line asks for. Keywords start the line, after blanks and tabs. */
  function Classify(x: Lexer, raw: string): Item {
    var line := TrimLeft(raw, " \t");
    if "access-control:" <= line then
      match ParseAclLine(x, raw)
      case Some(row) => Listed(row)
      case None => Nothing
    else if "access-control-" <= line then
      match ParseImplicitRow(x, line)
      case Some(p) => Implied(p)
      case None => Nothing
    else if "include:" <= line || "include-toplevel:" <= line then Include(IncludeTarget(line))
    else Nothing
  }

  /** A row denies or refuses only when its line says deny or refuse, bare or in quotes. */
  lemma OnlyDenyAndRefuseAct(x: Lexer, raw: string)
    requires Classify(x, raw).Listed? && Classify(x, raw).row.action != Forward
    ensures Words(x, raw).Some? && RuleHead(Words(x, raw).value).Some?
    ensures var h := RuleHead(Words(x, raw).value).value;
            && h.key == "access-control" && |h.tail| == 1
            && Unquote(h.tail[0]) == if Classify(x, raw).row.action == Drop then "deny" else "refuse"
  {
    hide ParseNetblock, Words, RuleHead, ParseImplicitRow, IncludeTarget;
  }

  lemma RowsAreMasked(x: Lexer, raw: string)
    ensures Classify(x, raw).Listed? ==> IsMasked(Classify(x, raw).row.prefix)
    ensures Classify(x, raw).Implied? ==> IsMasked(Classify(x, raw).prefix)
  {
  }
}
