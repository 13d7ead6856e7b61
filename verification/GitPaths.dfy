/**
 Real paths out of git's C-quoted output (scripts/_git_paths.py), and git's quoting itself as the partner.
 A character stands for one byte.
 */
module GitPaths {
  import opened Common
  import opened Text

  predicate IsBytes(s: string) {
    forall i :: 0 <= i < |s| ==> s[i] as int < 256
  }

  // ----- decoding -----

  /** The named escapes: a letter, quote or backslash after the backslash, and the byte it names. */
  function Named(c: char): Option<char> {
    match c
    case 'a' => Some(7 as char)
    case 'b' => Some(8 as char)
    case 'f' => Some(12 as char)
    case 'n' => Some(10 as char)
    case 'r' => Some(13 as char)
    case 't' => Some(9 as char)
    case 'v' => Some(11 as char)
    case '"' => Some('"')
    case '\\' => Some('\\')
    case _ => None
  }

  predicate IsOctal(c: char) {
    '0' <= c <= '7'
  }

  /** How many octal digits, at most three, start the text. */
  function OctalRun(s: string, most: nat): (n: nat)
    ensures n <= |s| && n <= most
    ensures forall i :: 0 <= i < n ==> IsOctal(s[i])
    ensures n < most && n < |s| ==> !IsOctal(s[n])
  {
    if most == 0 || s == "" || !IsOctal(s[0]) then 0 else 1 + OctalRun(s[1..], most - 1)
  }

  function OctalValue(digits: string): nat
    requires forall i :: 0 <= i < |digits| ==> IsOctal(digits[i])
  {
    if digits == "" then 0
    else
      var last := digits[|digits| - 1];
      assert IsOctal(last);
      OctalValue(digits[..|digits| - 1]) * 8 + (last as int - 48)
  }

  /** The escaped text between the quotes, decoded byte by byte; total on forged input too. */
  function Decode(raw: string): string
    decreases |raw|
  {
    if raw == "" then ""
    else if raw[0] != '\\' || |raw| == 1 then [raw[0]] + Decode(raw[1..])
    else if Named(raw[1]).Some? then [Named(raw[1]).value] + Decode(raw[2..])
    else if IsOctal(raw[1]) then
      var n := OctalRun(raw[1..], 3);
      [(OctalValue(raw[1..1 + n]) % 256) as char] + Decode(raw[1 + n..])
    else [raw[1]] + Decode(raw[2..])
  }

  predicate IsQuoted(field: string) {
    |field| >= 2 && field[0] == '"' && field[|field| - 1] == '"'
  }

  function Unquoted(field: string): string {
    if IsQuoted(field) then Decode(field[1..|field| - 1]) else field
  }

  method UnquoteGitPath(field: string) returns (path: string)
    ensures path == Unquoted(field)
  {
    if !IsQuoted(field) {
      return field;
    }
    var raw := field[1..|field| - 1];
    path := "";
    var i := 0;
    assert raw[0..] == raw;
    while i < |raw|
      invariant 0 <= i <= |raw|
      invariant path + Decode(raw[i..]) == Decode(raw)
    {
      var piece, next := DecodeOne(raw, i);
      Associate(path, piece, Decode(raw[next..]));
      path, i := path + piece, next;
    }
    assert raw[i..] == "";
  }

  /** One turn of the loop: a plain byte or one escape. */
  method DecodeOne(raw: string, i: nat) returns (piece: string, next: nat)
    requires i < |raw|
    ensures i < next <= |raw| && piece + Decode(raw[next..]) == Decode(raw[i..])
  {
    hide Named, IsOctal, OctalValue, OctalRun;
    var rest := raw[i..];
    if raw[i] != '\\' || i + 1 >= |raw| {
      assert rest[1..] == raw[i + 1..];
      return [raw[i]], i + 1;
    }
    assert rest[2..] == raw[i + 2..];
    if Named(raw[i + 1]).Some? {
      return [Named(raw[i + 1]).value], i + 2;
    }
    if !IsOctal(raw[i + 1]) {
      return [raw[i + 1]], i + 2;
    }
    var end := i + 1;
    assert rest[1..] == raw[i + 1..];
    while end < |raw| && end < i + 4 && IsOctal(raw[end])
      invariant i + 1 <= end <= |raw| && end <= i + 4
      invariant forall k :: i + 1 <= k < end ==> IsOctal(raw[k])
    {
      end := end + 1;
    }
    RunIs(raw[i + 1..], end - i - 1, 3);
    PartsOfRest(raw, i, end);
    piece, next := [(OctalValue(raw[i + 1..end]) % 256) as char], end;
  }

  lemma PartsOfRest(raw: string, i: nat, end: nat)
    requires i < end <= |raw|
    ensures raw[i..][1..end - i] == raw[i + 1..end] && raw[i..][end - i..] == raw[end..]
  {
  }

  lemma {:induction false} RunIs(s: string, n: nat, most: nat)
    requires n <= most && n <= |s| && (forall k :: 0 <= k < n ==> IsOctal(s[k]))
    requires n == |s| || n == most || !IsOctal(s[n])
    ensures OctalRun(s, most) == n
    decreases n
  {
    if n > 0 {
      RunIs(s[1..], n - 1, most - 1);
    }
  }

  // ----- the name field of a diff header -----

  function StripTabs(s: string): string {
    if s != "" && s[|s| - 1] == '\t' then StripTabs(s[..|s| - 1]) else s
  }

  function DiffHeaderName(field: string): string {
    if field != "" && field[0] == '"' then Unquoted(StripTabs(field)) else field[..Find(field, "\t")]
  }

  // ----- git's side -----

  function NameOf(c: char): Option<char> {
    if c == 7 as char then Some('a')
    else if c == 8 as char then Some('b')
    else if c == 9 as char then Some('t')
    else if c == 10 as char then Some('n')
    else if c == 11 as char then Some('v')
    else if c == 12 as char then Some('f')
    else if c == 13 as char then Some('r')
    else if c == '"' then Some('"')
    else if c == '\\' then Some('\\')
    else None
  }

  predicate MustQuote(c: char) {
    NameOf(c).Some? || c < ' ' || c as int >= 127
  }

  function Octal3(c: char): string
    requires c as int < 256
  {
    var n := c as int;
    [Digit(n / 64), Digit(n / 8 % 8), Digit(n % 8)]
  }

  function Digit(d: nat): char
    requires d < 8
  {
    ('0' as int + d) as char
  }

  function QuoteChar(c: char): string
    requires c as int < 256
  {
    if NameOf(c).Some? then ['\\', NameOf(c).value]
    else if MustQuote(c) then "\\" + Octal3(c)
    else [c]
  }

  function QuoteText(s: string): string
    requires IsBytes(s)
  {
    if s == "" then "" else QuoteChar(s[0]) + QuoteText(s[1..])
  }

  predicate NeedsQuotes(s: string) {
    exists i :: 0 <= i < |s| && MustQuote(s[i])
  }

  /** The field git prints for a name: quoted when any byte needs it, and followed by a tab when it holds a space. */
  function PrintName(name: string): string
    requires IsBytes(name)
  {
    (if NeedsQuotes(name) then "\"" + QuoteText(name) + "\"" else name)
    + (if ' ' in name then "\t" else "")
  }

  // ----- the round trip -----

  lemma OctalIsValue(n: nat)
    requires n < 256
    ensures var d := [Digit(n / 64), Digit(n / 8 % 8), Digit(n % 8)];
            (forall i :: 0 <= i < |d| ==> IsOctal(d[i])) && OctalValue(d) == n
  {
    var a, b, c := Digit(n / 64), Digit(n / 8 % 8), Digit(n % 8);
    assert n / 8 == n / 64 * 8 + n / 8 % 8;
    assert IsOctal(a) && IsOctal(b) && IsOctal(c);
    assert [a][..0] == [] && OctalValue([a]) == n / 64;
    assert [a, b][..1] == [a] && OctalValue([a, b]) == n / 8;
    assert [a, b, c][..2] == [a, b];
  }

  lemma DecodeOctal(c: char, rest: string)
    requires c as int < 256
    ensures Decode("\\" + Octal3(c) + rest) == [c] + Decode(rest)
  {
    var d := Octal3(c);
    var s := "\\" + d + rest;
    OctalIsValue(c as int);
    assert s[1..] == d + rest;
    assert forall k :: 0 <= k < 3 ==> (d + rest)[k] == d[k];
    RunIs(d + rest, 3, 3);
    assert s[1..4] == d && s[4..] == rest;
    assert s[1] == d[0] && IsOctal(s[1]) && Named(s[1]).None?;
  }

  lemma DecodeNamed(name: char, c: char, rest: string)
    requires Named(name) == Some(c)
    ensures Decode(['\\', name] + rest) == [c] + Decode(rest)
  {
    var s := ['\\', name] + rest;
    assert s[2..] == rest;
  }

  lemma DecodePlain(c: char, rest: string)
    requires c != '\\'
    ensures Decode([c] + rest) == [c] + Decode(rest)
  {
    assert ([c] + rest)[1..] == rest;
  }

  lemma DecodeQuoted(c: char, rest: string)
    requires c as int < 256
    ensures Decode(QuoteChar(c) + rest) == [c] + Decode(rest)
  {
    if NameOf(c).Some? {
      DecodeNamed(NameOf(c).value, c, rest);
      assert QuoteChar(c) == ['\\', NameOf(c).value];
    } else if MustQuote(c) {
      DecodeOctal(c, rest);
      assert QuoteChar(c) == "\\" + Octal3(c);
    } else {
      DecodePlain(c, rest);
      assert QuoteChar(c) == [c];
    }
  }

  lemma {:induction false} DecodeInvertsQuote(s: string)
    requires IsBytes(s)
    ensures Decode(QuoteText(s)) == s
    decreases |s|
  {
    if s != "" {
      DecodeInvertsQuote(s[1..]);
      DecodeQuoted(s[0], QuoteText(s[1..]));
    }
  }

  // ----- input git does not print -----

  lemma {:induction false} OctalValueIs(digits: string)
    requires 1 <= |digits| <= 3 && forall i :: 0 <= i < |digits| ==> '0' <= digits[i] <= '7'
    ensures OctalValue(digits) ==
              (if |digits| == 1 then digits[0] as int - 48
               else if |digits| == 2 then (digits[0] as int - 48) * 8 + (digits[1] as int - 48)
               else (digits[0] as int - 48) * 64 + (digits[1] as int - 48) * 8 + (digits[2] as int - 48))
  {
    var n := |digits| - 1;
    if n > 0 {
      OctalValueIs(digits[..n]);
    } else {
      assert digits[..0] == "";
    }
  }

  /** At most three octal digits, no further one behind them unless there are three. */
  predicate IsRun(digits: string, rest: string) {
    && 1 <= |digits| <= 3 && (forall i :: 0 <= i < |digits| ==> '0' <= digits[i] <= '7')
    && (|digits| == 3 || rest == "" || !('0' <= rest[0] <= '7'))
  }

  lemma OctalFirst(c: char)
    requires '0' <= c <= '7'
    ensures IsOctal(c) && Named(c).None?
  {
  }

  lemma DecodeAnyOctal(s: string, n: nat)
    requires |s| > 1 && s[0] == '\\' && IsOctal(s[1]) && Named(s[1]).None?
    requires OctalRun(s[1..], 3) == n
    ensures 1 + n <= |s| && Decode(s) == [(OctalValue(s[1..1 + n]) % 256) as char] + Decode(s[1 + n..])
  {
    hide OctalRun, OctalValue, IsOctal, Named;
  }

  lemma DecodesRun(digits: string, rest: string)
    requires IsRun(digits, rest)
    ensures Decode(['\\'] + (digits + rest)) == [(OctalValue(digits) % 256) as char] + Decode(rest)
  {
    hide OctalRun, OctalValue, Decode, Named;
    var s := ['\\'] + (digits + rest);
    RunIs(digits + rest, |digits|, 3);
    OctalFirst(digits[0]);
    assert s[1] == digits[0] && s[1..] == digits + rest;
    assert s[1..1 + |digits|] == digits && s[1 + |digits|..] == rest;
    DecodeAnyOctal(s, |digits|);
  }

  /**
   The decoder is total: an unknown escape stands for its character, one to three octal digits for their value modulo
   256 and no more of them, and a backslash at the end for itself.
   */
  lemma DecodesAnything(c: char, digits: string, rest: string)
    ensures c !in "abfnrtv\"\\01234567" ==> Decode(['\\', c] + rest) == [c] + Decode(rest)
    ensures IsRun(digits, rest) ==>
              Decode(['\\'] + (digits + rest)) == [(OctalValue(digits) % 256) as char] + Decode(rest)
    ensures Decode(['\\']) == ['\\']
    ensures forall k :: 0 <= k < 9 ==> Decode(['\\', "abtnvfr\"\\"[k]] + rest) == [ESCAPED[k] as char] + Decode(rest)
  {
    forall k | 0 <= k < 9
      ensures Decode(['\\', "abtnvfr\"\\"[k]] + rest) == [ESCAPED[k] as char] + Decode(rest)
    {
      NamedEscape(k, rest);
    }
    if c !in "abfnrtv\"\\01234567" {
      UnknownEscape(c, rest);
    }
    if IsRun(digits, rest) {
      DecodesRun(digits, rest);
    }
  }

  /** Bell to carriage return, the quote and the backslash. */
  const ESCAPED: seq<nat> := [7, 8, 9, 10, 11, 12, 13, 34, 92]

  lemma NamedEscape(k: nat, rest: string)
    requires k < 9
    ensures Decode(['\\', "abtnvfr\"\\"[k]] + rest) == [ESCAPED[k] as char] + Decode(rest)
  {
    NameOfEscape(k);
    var c := "abtnvfr\"\\"[k];
    var s := ['\\', c] + rest;
    assert s[2..] == rest && s[1] == c;
  }

  lemma NameOfEscape(k: nat)
    requires k < 9
    ensures Named("abtnvfr\"\\"[k]) == Some(ESCAPED[k] as char)
  {
    assert '"' as nat == 34 && '\\' as nat == 92;
  }

  lemma UnknownEscape(c: char, rest: string)
    requires c !in "abfnrtv\"\\01234567"
    ensures Decode(['\\', c] + rest) == [c] + Decode(rest)
  {
    var s := ['\\', c] + rest;
    assert s[2..] == rest && s[1] == c;
    assert Named(c).None? && !IsOctal(c);
  }

  lemma QuotedHeader(name: string, tab: string)
    requires IsBytes(name) && (tab == "" || tab == "\t")
    ensures DiffHeaderName("\"" + QuoteText(name) + "\"" + tab) == name
  {
    var quoted := "\"" + QuoteText(name) + "\"";
    assert (quoted + "\t")[..|quoted|] == quoted;
    assert StripTabs(quoted) == quoted;
    assert StripTabs(quoted + tab) == quoted;
    assert quoted[1..|quoted| - 1] == QuoteText(name);
    DecodeInvertsQuote(name);
  }

  lemma PlainHeader(name: string, tab: string)
    requires !NeedsQuotes(name) && (tab == "" || tab == "\t")
    ensures DiffHeaderName(name + tab) == name
  {
    assert MustQuote('\t') && MustQuote('"');
    assert name != "" ==> !MustQuote(name[0]);
    FindIs(name, tab, "\t");
    assert (name + tab)[..|name|] == name;
  }

  /** Whatever bytes a path is made of, the decoder returns the very name git printed. */
  lemma HeaderNameInvertsPrint(name: string)
    requires IsBytes(name)
    ensures DiffHeaderName(PrintName(name)) == name
  {
    var tab := if ' ' in name then "\t" else "";
    if NeedsQuotes(name) {
      QuotedHeader(name, tab);
    } else {
      PlainHeader(name, tab);
    }
  }
}
