/** Printing and parsing dotenv (pkg/bundle, pkg/schema/secretmap).
    Limits count UTF-8 bytes. */
module Dotenv {
  import opened Orders

  const MAX_PAYLOAD_BYTES := 16 * 1024 * 1024
  const MAX_ENTRIES := 4096
  const MAX_KEY_BYTES := 1024

  /** Text is a sequence of Unicode characters. */
  type SecretMap = map<string, string>

  function Bytes(c: char): nat {
    if c as int < 0x80 then 1 else if c as int < 0x800 then 2 else if c as int < 0x10000 then 3 else 4
  }

  function Size(s: string): nat {
    if s == "" then 0 else Bytes(s[0]) + Size(s[1..])
  }

  // ----- cutting and trimming

  function TrimLeft(s: string, cut: set<char>): string {
    if s != "" && s[0] in cut then TrimLeft(s[1..], cut) else s
  }

  function TrimRight(s: string, cut: set<char>): string {
    if s != "" && s[|s| - 1] in cut then TrimRight(s[..|s| - 1], cut) else s
  }

  /** The white space of Unicode. */
  const SPACES: set<char> := {
    '\t', '\n', '\U{0B}', '\U{0C}', '\r', ' ', '\U{85}', '\U{A0}', '\U{1680}', '\U{2000}', '\U{2001}', '\U{2002}',
    '\U{2003}', '\U{2004}', '\U{2005}', '\U{2006}', '\U{2007}', '\U{2008}', '\U{2009}', '\U{200A}', '\U{2028}',
    '\U{2029}', '\U{202F}', '\U{205F}', '\U{3000}'}

  const BLANKS: set<char> := {' ', '\t'}

  function TrimSpace(s: string): string {
    TrimRight(TrimLeft(s, SPACES), SPACES)
  }

  /** The position of the first `c`, or the length. */
  function IndexOf(s: string, c: char): (i: nat)
    ensures i <= |s| && (i < |s| ==> s[i] == c) && c !in s[..i]
  {
    if s == "" || s[0] == c then 0
    else
      var i := 1 + IndexOf(s[1..], c);
      assert s[..i] == [s[0]] + s[1..][..i - 1];
      i
  }

  function Before(s: string, c: char): string {
    s[..IndexOf(s, c)]
  }

  /** What follows the first `c`, or nothing. */
  function Rest(s: string, c: char): string {
    var i := IndexOf(s, c);
    if i < |s| then s[i + 1..] else ""
  }

  // ----- names and values

  predicate IsLetter(c: char) {
    'A' <= c <= 'Z' || 'a' <= c <= 'z' || c == '_'
  }

  predicate IsEnvName(key: string) {
    key != "" && IsLetter(key[0]) && forall c :: c in key ==> IsLetter(c) || '0' <= c <= '9'
  }

  predicate ValidKey(key: string) {
    Size(key) <= MAX_KEY_BYTES && IsEnvName(key)
  }

  /** The bytes of all keys and values. */
  ghost function Total(m: SecretMap): nat {
    if m == map[] then 0
    else
      var k :| k in m;
      Size(k) + Size(m[k]) + Total(m - {k})
  }

  lemma {:induction false} TotalWithout(m: SecretMap, k: string)
    requires k in m
    ensures Total(m) == Size(k) + Size(m[k]) + Total(m - {k})
    decreases m
  {
    var j :| j in m && Total(m) == Size(j) + Size(m[j]) + Total(m - {j});
    if j != k {
      TotalWithout(m - {j}, k);
      TotalWithout(m - {k}, j);
      assert m - {j} - {k} == m - {k} - {j};
    }
  }

  /** What SecretMap.Validate refuses: too many entries, unusable keys, or too much payload. */
  ghost predicate ValidMap(m: SecretMap) {
    && |m| <= MAX_ENTRIES && Total(m) <= MAX_PAYLOAD_BYTES
    && forall k :: k in m ==> 0 < |k| && Size(k) <= MAX_KEY_BYTES
  }

  method ValidateMap(m: SecretMap) returns (ok: bool)
    ensures ok <==> ValidMap(m)
  {
    if |m| > MAX_ENTRIES {
      return false;
    }
    var total, todo := 0, m;
    while todo != map[]
      invariant todo.Keys <= m.Keys && forall k :: k in todo ==> todo[k] == m[k]
      invariant total <= MAX_PAYLOAD_BYTES && Total(m) == total + Total(todo)
      invariant forall k :: k in m && k !in todo ==> 0 < |k| && Size(k) <= MAX_KEY_BYTES
      decreases todo
    {
      var key :| key in todo;
      TotalWithout(todo, key);
      if |key| == 0 || Size(key) > MAX_KEY_BYTES {
        return false;
      }
      if Size(key) > MAX_PAYLOAD_BYTES - total {
        return false;
      }
      total := total + Size(key);
      if Size(m[key]) > MAX_PAYLOAD_BYTES - total {
        return false;
      }
      total := total + Size(m[key]);
      todo := todo - {key};
    }
    ok := true;
  }

  // ----- parsing

  function Unescape(c: char): Option<char> {
    match c
    case 'n' => Some('\n')
    case 'r' => Some('\r')
    case 't' => Some('\t')
    case '\\' => Some('\\')
    case '\"' => Some('\"')
    case '$' => Some('$')
    case _ => None
  }

  datatype Quoted = Quoted(value: string, rest: string) | BadQuoted

  function Behind(done: string, q: Quoted): Quoted {
    if q.Quoted? then Quoted(done + q.value, q.rest) else q
  }

  /** The value of quoted text up to its closing quote, and what follows the quote. */
  function Unquote(text: string, quote: char): Quoted {
    if text == "" then BadQuoted
    else if text[0] == quote then Quoted("", text[1..])
    else if quote == '\"' && text[0] == '\\' then
      if |text| == 1 || Unescape(text[1]).None? then BadQuoted
      else Behind([Unescape(text[1]).value], Unquote(text[2..], quote))
    else Behind([text[0]], Unquote(text[1..], quote))
  }

  lemma BehindTwice(a: string, b: string, q: Quoted)
    ensures Behind(a, Behind(b, q)) == Behind(a + b, q)
  {
    if q.Quoted? {
      assert a + (b + q.value) == (a + b) + q.value;
    }
  }

  method ParseQuoted(text: string) returns (q: Quoted)
    requires text != ""
    ensures q == Unquote(text[1..], text[0])
  {
    var quote := text[0];
    var value := "";
    var i := 1;
    ghost var all := Unquote(text[1..], quote);
    while i < |text|
      invariant 1 <= i <= |text|
      invariant all == Behind(value, Unquote(text[i..], quote))
    {
      var b := text[i];
      ghost var rest := text[i..];
      assert rest[1..] == text[i + 1..];
      if b == quote {
        return Quoted(value, text[i + 1..]);
      }
      if quote == '\"' && b == '\\' {
        i := i + 1;
        if i == |text| {
          return BadQuoted;
        }
        assert rest[2..] == text[i + 1..] && rest[1] == text[i];
        var c := Unescape(text[i]);
        if c == None {
          return BadQuoted;
        }
        b := c.value;
      }
      BehindTwice(value, [b], Unquote(text[i + 1..], quote));
      value := value + [b];
      i := i + 1;
    }
    q := BadQuoted;
  }

  /** The start of a comment in an unquoted value: a '#' first, or behind a blank. */
  predicate CommentAt(s: string, i: nat) {
    i < |s| && s[i] == '#' && (i == 0 || s[i - 1] in BLANKS)
  }

  function UncommentFrom(s: string, i: nat): (r: string)
    requires i <= |s|
    decreases |s| - i
  {
    if i == |s| || CommentAt(s, i) then s[..i] else UncommentFrom(s, i + 1)
  }

  method Uncomment(s: string) returns (r: string)
    ensures r == UncommentFrom(s, 0)
  {
    for i := 0 to |s|
      invariant UncommentFrom(s, 0) == UncommentFrom(s, i)
    {
      if s[i] == '#' && (i == 0 || s[i - 1] == ' ' || s[i - 1] == '\t') {
        return s[..i];
      }
    }
    r := s;
    assert s[..|s|] == s;
  }

  /** What the next statement of dotenv text is. */
  datatype Statement =
    | End
    | Comment(rest: string)
    | Assign(key: string, value: string, rest: string)
    | Bad

  const NEWLINES: set<char> := {' ', '\t', '\r', '\n'}

  function DropExport(s: string): string {
    if "export " <= s || "export\t" <= s then TrimLeft(s[6..], BLANKS) else s
  }

  /** The value behind an equals sign, and the text that follows its line. */
  function ValueOf(key: string, text: string): Statement {
    if text != "" && (text[0] == '\'' || text[0] == '\"') then
      var q := Unquote(text[1..], text[0]);
      if q.BadQuoted? then Bad
      else
        var tail := TrimSpace(Before(q.rest, '\n'));
        if tail != "" && tail[0] != '#' then Bad else Assign(key, q.value, Rest(q.rest, '\n'))
    else Assign(key, TrimSpace(UncommentFrom(Before(text, '\n'), 0)), Rest(text, '\n'))
  }

  function Assignment(s: string): Statement {
    var equals := IndexOf(Before(s, '\n'), '=');
    if equals == |Before(s, '\n')| then Bad
    else
      var key := TrimSpace(s[..equals]);
      if !ValidKey(key) then Bad else ValueOf(key, TrimLeft(s[equals + 1..], BLANKS))
  }

  function NextStatement(text: string): Statement {
    var rest := TrimLeft(text, NEWLINES);
    if rest == "" then End
    else if rest[0] == '#' then Comment(Rest(rest, '\n'))
    else Assignment(DropExport(rest))
  }

  lemma {:induction false} TrimLeftSize(s: string, cut: set<char>)
    ensures |TrimLeft(s, cut)| <= |s|
  {
    if s != "" {
      TrimLeftSize(s[1..], cut);
    }
  }

  lemma {:induction false} UnquoteSize(text: string, quote: char)
    ensures Unquote(text, quote).Quoted? ==> |Unquote(text, quote).rest| < |text|
  {
    if text != "" {
      UnquoteSize(text[1..], quote);
      if |text| > 1 {
        UnquoteSize(text[2..], quote);
      }
    }
  }

  lemma ValueSize(key: string, text: string)
    ensures ValueOf(key, text).Assign? ==> |ValueOf(key, text).rest| <= |text|
  {
    if text != "" {
      UnquoteSize(text[1..], text[0]);
    }
  }

  lemma AssignmentSize(s: string)
    ensures Assignment(s).Assign? ==> |Assignment(s).rest| < |s|
  {
    var equals := IndexOf(Before(s, '\n'), '=');
    if equals < |Before(s, '\n')| {
      TrimLeftSize(s[equals + 1..], BLANKS);
      ValueSize(TrimSpace(s[..equals]), TrimLeft(s[equals + 1..], BLANKS));
    }
  }

  lemma StatementSize(text: string)
    ensures var n := NextStatement(text); n.Comment? || n.Assign? ==> |n.rest| < |text|
  {
    var rest := TrimLeft(text, NEWLINES);
    TrimLeftSize(text, NEWLINES);
    if |rest| >= 6 {
      TrimLeftSize(rest[6..], BLANKS);
    }
    AssignmentSize(DropExport(rest));
  }

  /** The assignments of dotenv text, added to those found before; nothing when the text is malformed. */
  function Parse(text: string, found: SecretMap): Option<SecretMap>
    decreases |text|
  {
    StatementSize(text);
    match NextStatement(text)
    case End => Some(found)
    case Bad => None
    case Comment(rest) => Parse(rest, found)
    case Assign(key, value, rest) =>
      if key in found || |found| + 1 > MAX_ENTRIES then None else Parse(rest, found[key := value])
  }

  const BOM := '\U{FEFF}'

  predicate Readable(data: string) {
    Size(data) <= MAX_PAYLOAD_BYTES && '\0' !in data
  }

  function WithoutMark(data: string): string {
    if data != "" && data[0] == BOM then data[1..] else data
  }

  ghost function Imported(data: string): Option<SecretMap> {
    if !Readable(data) then None
    else
      var m := Parse(WithoutMark(data), map[]);
      if m.Some? && ValidMap(m.value) then m else None
  }

  method ParseValue(key: string, text: string) returns (n: Statement)
    ensures n == ValueOf(key, text)
  {
    if text != "" && (text[0] == '\'' || text[0] == '\"') {
      var q := ParseQuoted(text);
      if q.BadQuoted? {
        return Bad;
      }
      var tail := TrimSpace(Before(q.rest, '\n'));
      if tail != "" && tail[0] != '#' {
        return Bad;
      }
      n := Assign(key, q.value, Rest(q.rest, '\n'));
    } else {
      var value := Uncomment(Before(text, '\n'));
      n := Assign(key, TrimSpace(value), Rest(text, '\n'));
    }
  }

  /** Parses the assignment at the start of trimmed text. */
  method ParseAssignment(rest: string) returns (n: Statement)
    ensures n == Assignment(DropExport(rest))
  {
    var s := rest;
    if "export " <= s || "export\t" <= s {
      s := TrimLeft(s[6..], BLANKS);
    }
    var line := Before(s, '\n');
    var equals := IndexOf(line, '=');
    if equals == |line| {
      return Bad;
    }
    var key := TrimSpace(s[..equals]);
    if !ValidKey(key) {
      return Bad;
    }
    n := ParseValue(key, TrimLeft(s[equals + 1..], BLANKS));
  }

  lemma {:induction false} TrimTwice(s: string, cut: set<char>)
    ensures var t := TrimLeft(s, cut); TrimLeft(t, cut) == t && (t != "" ==> t[0] !in cut)
  {
    if s != "" && s[0] in cut {
      TrimTwice(s[1..], cut);
    }
  }

  lemma TrimmedStatement(text: string)
    ensures NextStatement(TrimLeft(text, NEWLINES)) == NextStatement(text)
    ensures forall m :: Parse(TrimLeft(text, NEWLINES), m) == Parse(text, m)
  {
    TrimTwice(text, NEWLINES);
  }

  /** Parses dotenv text. */
  method ImportDotenv(data: string) returns (r: Option<SecretMap>)
    ensures r == Imported(data)
  {
    if Size(data) > MAX_PAYLOAD_BYTES || '\0' in data {
      return None;
    }
    var secrets: SecretMap := map[];
    var rest := WithoutMark(data);
    ghost var all := Parse(rest, secrets);
    while true
      invariant all == Parse(rest, secrets)
      decreases |rest|
    {
      TrimmedStatement(rest);
      TrimTwice(rest, NEWLINES);
      TrimLeftSize(rest, NEWLINES);
      rest := TrimLeft(rest, NEWLINES);
      if rest == "" {
        break;
      }
      StatementSize(rest);
      if rest[0] == '#' {
        rest := Rest(rest, '\n');
        continue;
      }
      var n := ParseAssignment(rest);
      if n.Bad? || n.key in secrets {
        return None;
      }
      secrets := secrets[n.key := n.value];
      if |secrets| > MAX_ENTRIES {
        return None;
      }
      rest := n.rest;
    }
    var ok := ValidateMap(secrets);
    r := if ok then Some(secrets) else None;
  }

  // ----- printing

  function ReplaceAll(s: string, c: char, text: string): string {
    if s == "" then "" else (if s[0] == c then text else [s[0]]) + ReplaceAll(s[1..], c, text)
  }

  function EscapeChar(c: char): string {
    match c
    case '\\' => "\\\\"
    case '\"' => "\\\""
    case '\n' => "\\n"
    case '\r' => "\\r"
    case _ => [c]
  }

  /** What the exporter writes for each character; it escapes tabs and dollar signs too. */
  function ExportChar(c: char): string {
    match c
    case '\t' => "\\t"
    case '$' => "\\$"
    case _ => EscapeChar(c)
  }

  /** A character is written as itself, unless that would end the value or the line, or as an escape that stands for it. */
  ghost predicate Escapes(esc: char -> string) {
    forall c {:trigger esc(c)} ::
      || (esc(c) == [c] && c != '\"' && c != '\\' && c != '\n' && c != '\r')
      || (|esc(c)| == 2 && esc(c)[0] == '\\' && Unescape(esc(c)[1]) == Some(c))
  }

  lemma BothEscape()
    ensures Escapes(EscapeChar) && Escapes(ExportChar)
  {
  }

  function Escape(esc: char -> string, v: string): string {
    if v == "" then "" else esc(v[0]) + Escape(esc, v[1..])
  }

  lemma Assoc(a: string, b: string, c: string)
    ensures (a + b) + c == a + (b + c)
  {
  }

  lemma {:induction false} ReplaceAppend(a: string, b: string, c: char, text: string)
    ensures ReplaceAll(a + b, c, text) == ReplaceAll(a, c, text) + ReplaceAll(b, c, text)
  {
    if a == "" {
      assert a + b == b;
    } else {
      ReplaceAppend(a[1..], b, c, text);
      assert (a + b)[1..] == a[1..] + b && (a + b)[0] == a[0];
      Assoc(if a[0] == c then text else [a[0]], ReplaceAll(a[1..], c, text), ReplaceAll(b, c, text));
    }
  }

  lemma ReplaceOne(x: char, c: char, text: string)
    ensures ReplaceAll([x], c, text) == if x == c then text else [x]
  {
    var one := [x];
    assert one[1..] == "" && ReplaceAll(one[1..], c, text) == "";
  }

  lemma ReplaceTwo(x: char, y: char, c: char, text: string)
    requires x != c && y != c
    ensures ReplaceAll([x, y], c, text) == [x, y]
  {
    ReplaceOne(x, c, text);
    ReplaceOne(y, c, text);
    ReplaceAppend([x], [y], c, text);
    assert [x, y] == [x] + [y];
  }

  /** Backslashes first, then quotes, then the two line breaks. */
  function Chain(v: string): string {
    ReplaceAll(ReplaceAll(ReplaceAll(ReplaceAll(v, '\\', "\\\\"), '\"', "\\\""), '\n', "\\n"), '\r', "\\r")
  }

  lemma ChainOne(c: char)
    ensures Chain([c]) == EscapeChar(c)
  {
    ReplaceOne(c, '\\', "\\\\");
    ReplaceOne(c, '\"', "\\\"");
    ReplaceOne(c, '\n', "\\n");
    ReplaceOne(c, '\r', "\\r");
    ReplaceTwo('\\', '\\', '\"', "\\\"");
    ReplaceTwo('\\', '\\', '\n', "\\n");
    ReplaceTwo('\\', '\\', '\r', "\\r");
    ReplaceTwo('\\', '\"', '\n', "\\n");
    ReplaceTwo('\\', '\"', '\r', "\\r");
    ReplaceTwo('\\', 'n', '\r', "\\r");
  }

  lemma ChainAppend(a: string, b: string)
    ensures Chain(a + b) == Chain(a) + Chain(b)
  {
    ReplaceAppend(a, b, '\\', "\\\\");
    var a1, b1 := ReplaceAll(a, '\\', "\\\\"), ReplaceAll(b, '\\', "\\\\");
    ReplaceAppend(a1, b1, '\"', "\\\"");
    var a2, b2 := ReplaceAll(a1, '\"', "\\\""), ReplaceAll(b1, '\"', "\\\"");
    ReplaceAppend(a2, b2, '\n', "\\n");
    ReplaceAppend(ReplaceAll(a2, '\n', "\\n"), ReplaceAll(b2, '\n', "\\n"), '\r', "\\r");
  }

  /** The four replacements one after the other escape each character on its own. */
  lemma {:induction false} ChainIsEscape(v: string)
    ensures Chain(v) == Escape(EscapeChar, v)
  {
    if v != "" {
      ChainIsEscape(v[1..]);
      ChainOne(v[0]);
      ChainAppend([v[0]], v[1..]);
      assert v == [v[0]] + v[1..];
    }
  }

  function Line(esc: char -> string, key: string, value: string): string {
    key + "=\"" + Escape(esc, value) + "\"\n"
  }

  function Lines(esc: char -> string, keys: seq<string>, m: SecretMap): string
    requires forall k :: k in keys ==> k in m
  {
    if keys == [] then "" else Line(esc, keys[0], m[keys[0]]) + Lines(esc, keys[1..], m)
  }

  lemma {:induction false} KeyListExists(S: set<string>)
    ensures exists s: seq<string> :: SortedBy(Less, s) && Elements(s) == S
  {
    LessIsStrictTotal();
    if S == {} {
      assert SortedBy(Less, []) && Elements<string>([]) == S;
    } else {
      var k :| k in S;
      KeyListExists(S - {k});
      var rest: seq<string> :| SortedBy(Less, rest) && Elements(rest) == S - {k};
      assert k !in rest by { assert forall x :: x in rest <==> x in Elements(rest); }
      InsertSorted(Less, k, rest);
      InsertElements(Less, k, rest);
      assert Elements(Insert(Less, k, rest)) == S by {
        assert forall x :: x in rest <==> x in Elements(rest);
      }
    }
  }

  /** The keys in order. */
  ghost function KeyList(m: SecretMap): (s: seq<string>)
    ensures SortedBy(Less, s) && Elements(s) == m.Keys && forall k :: k in s <==> k in m
  {
    KeyListExists(m.Keys);
    var s: seq<string> :| SortedBy(Less, s) && Elements(s) == m.Keys;
    assert forall k :: k in s <==> k in Elements(s);
    s
  }

  ghost function PrintedWith(esc: char -> string, m: SecretMap): string {
    Lines(esc, KeyList(m), m)
  }

  ghost function Printed(m: SecretMap): string {
    PrintedWith(EscapeChar, m)
  }

  predicate HasBreak(key: string) {
    exists c :: c in key && (c == '\n' || c == '\r')
  }

  lemma LinesNext(esc: char -> string, keys: seq<string>, m: SecretMap, i: nat)
    requires (forall k :: k in keys ==> k in m) && i < |keys|
    ensures Lines(esc, keys[i..], m) == Line(esc, keys[i], m[keys[i]]) + Lines(esc, keys[i + 1..], m)
  {
    assert keys[i..][1..] == keys[i + 1..] && keys[i..][0] == keys[i];
  }

  lemma PrintedFurther(esc: char -> string, out: string, keys: seq<string>, m: SecretMap, i: nat, all: string)
    requires (forall k :: k in keys ==> k in m) && i < |keys| && out + Lines(esc, keys[i..], m) == all
    ensures (out + Line(esc, keys[i], m[keys[i]])) + Lines(esc, keys[i + 1..], m) == all
  {
    LinesNext(esc, keys, m, i);
    var line, rest := Line(esc, keys[i], m[keys[i]]), Lines(esc, keys[i + 1..], m);
    assert out + (line + rest) == (out + line) + rest;
  }

  method PrintLine(key: string, value: string) returns (line: string)
    ensures line == Line(EscapeChar, key, value)
  {
    var val := ReplaceAll(value, '\\', "\\\\");
    val := ReplaceAll(val, '\"', "\\\"");
    val := ReplaceAll(val, '\n', "\\n");
    val := ReplaceAll(val, '\r', "\\r");
    ChainIsEscape(value);
    line := key + "=\"" + val + "\"\n";
  }

  /** Prints secrets in the order of their keys. */
  method ToDotEnv(m: SecretMap) returns (r: Option<string>)
    ensures r.Some? ==> r.value == Printed(m)
    ensures r.None? <==> exists k :: k in m && HasBreak(k)
  {
    LessIsStrictTotal();
    var keys := SortedListing(Less, m.Keys);
    assert forall k :: k in keys <==> k in Elements(keys);
    SortedUnique(Less, keys, KeyList(m));
    ghost var all := Printed(m);
    var out := "";
    assert keys[0..] == keys && "" + all == all;
    for i := 0 to |keys|
      invariant out + Lines(EscapeChar, keys[i..], m) == all
      invariant forall j :: 0 <= j < i ==> !HasBreak(keys[j])
    {
      var key := keys[i];
      if HasBreak(key) {
        return None;
      }
      var line := PrintLine(key, m[key]);
      PrintedFurther(EscapeChar, out, keys, m, i, all);
      out := out + line;
    }
    assert keys[|keys|..] == [] && out + "" == out;
    r := Some(out);
  }

  // ----- parsing undoes printing

  /** What a printed map must fit for parsing: names and sizes that the parser accepts. */
  ghost predicate Fits(esc: char -> string, m: SecretMap) {
    && |m| <= MAX_ENTRIES && (forall k :: k in m ==> ValidKey(k)) && (forall k :: k in m ==> '\0' !in m[k])
    && Size(PrintedWith(esc, m)) <= MAX_PAYLOAD_BYTES
  }

  lemma UnquoteChar(esc: char -> string, c: char, rest: string)
    requires Escapes(esc)
    ensures Unquote(esc(c) + rest, '\"') == Behind([c], Unquote(rest, '\"'))
  {
    var text := esc(c) + rest;
    if esc(c) == [c] {
      assert text[1..] == rest;
    } else {
      assert text[2..] == rest && text[0] == '\\' && Unescape(text[1]) == Some(c);
    }
  }

  /** A quoted value reads back, up to the quote that closes it. */
  lemma {:induction false} UnquoteEscape(esc: char -> string, v: string, more: string)
    requires Escapes(esc)
    ensures Unquote(Escape(esc, v) + ("\"" + more), '\"') == Quoted(v, more)
  {
    var closing := "\"" + more;
    if v == "" {
      assert Escape(esc, v) + closing == closing && closing[1..] == more;
    } else {
      UnquoteEscape(esc, v[1..], more);
      UnquoteChar(esc, v[0], Escape(esc, v[1..]) + closing);
      Assoc(esc(v[0]), Escape(esc, v[1..]), closing);
      assert [v[0]] + v[1..] == v;
    }
  }

  lemma {:induction false} EscapeIsOneLine(esc: char -> string, v: string)
    requires Escapes(esc)
    ensures forall c :: c in Escape(esc, v) ==> c != '\n' && c != '\r' && (c == '\0' ==> c in v)
  {
    if v != "" {
      EscapeIsOneLine(esc, v[1..]);
    }
  }

  lemma {:induction false} IndexOfIn(a: string, c: char, b: string)
    requires c !in a
    ensures IndexOf(a + [c] + b, c) == |a|
  {
    if a != "" {
      IndexOfIn(a[1..], c, b);
      assert (a + [c] + b)[1..] == a[1..] + [c] + b;
    }
  }

  lemma TrimSpaceNone(s: string)
    requires s == "" || (s[0] !in SPACES && s[|s| - 1] !in SPACES)
    ensures TrimSpace(s) == s
  {
  }

  lemma NameHasNoSpace(key: string)
    requires IsEnvName(key)
    ensures forall c :: c in key ==>
              c !in SPACES && c != '=' && c != '#' && c != '\n' && c != '\r' && c != '\0' && c != BOM
  {
  }

  /** A printed line is one assignment. */
  lemma LineIsAssignment(esc: char -> string, key: string, value: string, more: string)
    requires Escapes(esc)
    requires ValidKey(key)
    ensures NextStatement(Line(esc, key, value) + more) == Assign(key, value, more)
  {
    var text := Line(esc, key, value) + more;
    var quoted := "\"" + Escape(esc, value) + "\"";
    NameHasNoSpace(key);
    EscapeIsOneLine(esc, value);
    assert text[0] == key[0] && key[0] in key;
    assert text == (key + "=" + quoted) + ['\n'] + more;
    IndexOfIn(key + "=" + quoted, '\n', more);
    var line := Before(text, '\n');
    assert line == key + ['='] + quoted;
    IndexOfIn(key, '=', quoted);
    assert text[..|key|] == key;
    NotExport(key, text);
    TrimSpaceNone(key);
    QuotedValue(esc, key, value, more, text);
  }

  lemma NotExport(key: string, text: string)
    requires IsEnvName(key) && key + "=" <= text
    ensures DropExport(text) == text
  {
    assert (key + "=")[|key|] == '=' && text[|key|] == '=';
    assert forall i :: 0 <= i < |key| ==> text[i] == key[i] && key[i] in key;
  }

  lemma QuotedValue(esc: char -> string, key: string, value: string, more: string, text: string)
    requires Escapes(esc)
    requires text == Line(esc, key, value) + more
    ensures ValueOf(key, TrimLeft(text[|key| + 1..], BLANKS)) == Assign(key, value, more)
  {
    var behind := text[|key| + 1..];
    assert behind[0] == '\"';
    assert behind[1..] == Escape(esc, value) + ("\"" + ("\n" + more));
    UnquoteEscape(esc, value, "\n" + more);
    assert ("\n" + more)[1..] == more;
    assert IndexOf("\n" + more, '\n') == 0;
  }

  lemma ParseNext(text: string, key: string, value: string, rest: string, found: SecretMap)
    requires NextStatement(text) == Assign(key, value, rest) && key !in found && |found| < MAX_ENTRIES
    ensures Parse(text, found) == Parse(rest, found[key := value])
  {
  }

  function Restrict(m: SecretMap, keys: seq<string>): SecretMap {
    map k | k in keys && k in m :: m[k]
  }

  lemma RestrictNext(m: SecretMap, keys: seq<string>, found: SecretMap)
    requires keys != [] && keys[0] in m
    ensures found[keys[0] := m[keys[0]]] + Restrict(m, keys[1..]) == found + Restrict(m, keys)
  {
    assert forall k :: k in keys <==> k == keys[0] || k in keys[1..];
  }

  lemma {:induction false} ParseLines(esc: char -> string, keys: seq<string>, m: SecretMap, tail: string,
                                      found: SecretMap)
    requires Escapes(esc)
    requires (forall k :: k in keys ==> k in m && ValidKey(k) && k !in found) && NoDup(keys)
    requires |found| + |keys| <= MAX_ENTRIES
    ensures Parse(Lines(esc, keys, m) + tail, found) == Parse(tail, found + Restrict(m, keys))
  {
    if keys == [] {
      assert Lines(esc, keys, m) + tail == tail;
      assert found + Restrict(m, keys) == found;
    } else {
      var key, rest := keys[0], Lines(esc, keys[1..], m) + tail;
      Assoc(Line(esc, key, m[key]), Lines(esc, keys[1..], m), tail);
      LineIsAssignment(esc, key, m[key], rest);
      ParseNext(Line(esc, key, m[key]) + rest, key, m[key], rest, found);
      assert forall k :: k in keys[1..] ==> k in keys && k != key;
      assert found[key := m[key]].Keys == found.Keys + {key};
      ParseLines(esc, keys[1..], m, tail, found[key := m[key]]);
      RestrictNext(m, keys, found);
    }
  }

  lemma {:induction false} SizeAppend(a: string, b: string)
    ensures Size(a + b) == Size(a) + Size(b)
  {
    if a == "" {
      assert a + b == b;
    } else {
      SizeAppend(a[1..], b);
      assert (a + b)[1..] == a[1..] + b;
    }
  }

  lemma {:induction false} EscapeSize(esc: char -> string, v: string)
    requires Escapes(esc)
    ensures Size(Escape(esc, v)) >= Size(v)
  {
    if v != "" {
      EscapeSize(esc, v[1..]);
      SizeAppend(esc(v[0]), Escape(esc, v[1..]));
      var one := [v[0]];
      assert one[1..] == "" && Size(one) == Bytes(v[0]);
      assert esc(v[0])[1..] == "" || Bytes(v[0]) == 1;
    }
  }

  lemma LineSize(esc: char -> string, key: string, value: string)
    requires Escapes(esc)
    ensures Size(Line(esc, key, value)) >= Size(key) + Size(value)
  {
    SizeAppend(key + "=\"" + Escape(esc, value), "\"\n");
    SizeAppend(key + "=\"", Escape(esc, value));
    SizeAppend(key, "=\"");
    EscapeSize(esc, value);
  }

  lemma RestrictWithout(keys: seq<string>, m: SecretMap)
    requires keys != [] && NoDup(keys) && forall k :: k in keys ==> k in m
    ensures Total(Restrict(m, keys)) == Size(keys[0]) + Size(m[keys[0]]) + Total(Restrict(m, keys[1..]))
  {
    var key, all := keys[0], Restrict(m, keys);
    assert forall k :: k in keys <==> k == key || k in keys[1..];
    assert key !in keys[1..];
    assert all - {key} == Restrict(m, keys[1..]);
    TotalWithout(all, key);
  }

  lemma {:induction false} LinesSize(esc: char -> string, keys: seq<string>, m: SecretMap)
    requires Escapes(esc)
    requires NoDup(keys) && forall k :: k in keys ==> k in m
    ensures Total(Restrict(m, keys)) <= Size(Lines(esc, keys, m))
  {
    if keys == [] {
      assert Restrict(m, keys) == map[];
    } else {
      var key := keys[0];
      LinesSize(esc, keys[1..], m);
      LineSize(esc, key, m[key]);
      SizeAppend(Line(esc, key, m[key]), Lines(esc, keys[1..], m));
      RestrictWithout(keys, m);
    }
  }

  lemma {:induction false} EscapeKeepsNul(esc: char -> string, v: string)
    requires Escapes(esc)
    ensures '\0' in v ==> '\0' in Escape(esc, v)
  {
    if v != "" {
      EscapeKeepsNul(esc, v[1..]);
    }
  }

  lemma InEither(c: char, a: string, b: string)
    ensures c in a + b <==> c in a || c in b
  {
  }

  lemma LineNul(esc: char -> string, key: string, value: string)
    requires Escapes(esc)
    requires ValidKey(key)
    ensures '\0' in Line(esc, key, value) <==> '\0' in value
  {
    NameHasNoSpace(key);
    EscapeIsOneLine(esc, value);
    EscapeKeepsNul(esc, value);
    InEither('\0', key, "=\"");
    InEither('\0', key + "=\"", Escape(esc, value));
    InEither('\0', key + "=\"" + Escape(esc, value), "\"\n");
  }

  /** A printed map holds a NUL only where a value does. */
  lemma {:induction false} LinesNul(esc: char -> string, keys: seq<string>, m: SecretMap)
    requires Escapes(esc)
    requires forall k :: k in keys ==> k in m && ValidKey(k)
    ensures '\0' in Lines(esc, keys, m) <==> exists k :: k in keys && '\0' in m[k]
  {
    if keys != [] {
      var key := keys[0];
      assert forall k :: k in keys <==> k == key || k in keys[1..];
      LinesNul(esc, keys[1..], m);
      assert ValidKey(key);
      LineNul(esc, key, m[key]);
      InEither('\0', Line(esc, key, m[key]), Lines(esc, keys[1..], m));
    }
  }

  lemma {:induction false} ParseNames(text: string, found: SecretMap)
    ensures Parse(text, found).Some? ==> forall k :: k in Parse(text, found).value ==> k in found || ValidKey(k)
    decreases |text|
  {
    StatementSize(text);
    var n := NextStatement(text);
    match n
    case Comment(rest) => ParseNames(rest, found);
    case Assign(key, value, rest) =>
      AssignedName(text);
      if key !in found && |found| + 1 <= MAX_ENTRIES {
        ParseNames(rest, found[key := value]);
      }
    case _ =>
  }

  lemma AssignedName(text: string)
    ensures NextStatement(text).Assign? ==> ValidKey(NextStatement(text).key)
  {
  }

  lemma KeyListCounts(m: SecretMap)
    ensures NoDup(KeyList(m)) && |KeyList(m)| == |m| && Restrict(m, KeyList(m)) == m
  {
    var keys := KeyList(m);
    LessIsStrictTotal();
    forall i, j | 0 <= i < j < |keys| ensures keys[i] != keys[j] {
      assert Less(keys[i], keys[j]);
    }
    Distinct(keys);
    assert Restrict(m, keys) == m;
  }

  lemma {:induction false} Distinct(s: seq<string>)
    requires NoDup(s)
    ensures |Elements(s)| == |s|
  {
    if s != [] {
      var n := |s| - 1;
      Distinct(s[..n]);
      assert Elements(s) == Elements(s[..n]) + {s[n]};
    }
  }

  lemma PrintedStarts(esc: char -> string, m: SecretMap, tail: string)
    requires Escapes(esc)
    requires (forall k :: k in m ==> ValidKey(k)) && (tail == "" || tail[0] != BOM)
    ensures WithoutMark(PrintedWith(esc, m) + tail) == PrintedWith(esc, m) + tail
  {
    var keys := KeyList(m);
    if keys != [] {
      assert keys[0] in keys && keys[0] in m;
      NameHasNoSpace(keys[0]);
      assert Line(esc, keys[0], m[keys[0]])[0] == keys[0][0] && keys[0][0] in keys[0];
    } else {
      assert PrintedWith(esc, m) + tail == tail;
    }
  }

  lemma BlankTail(tail: string, m: SecretMap)
    requires tail == "" || tail == "\n"
    ensures Parse(tail, m) == Some(m) && Size(tail) == |tail|
  {
    if tail == "\n" {
      assert tail[1..] == "";
    }
  }

  lemma PrintedParses(esc: char -> string, m: SecretMap, tail: string)
    requires Escapes(esc)
    requires |m| <= MAX_ENTRIES && forall k :: k in m ==> ValidKey(k)
    ensures Parse(PrintedWith(esc, m) + tail, map[]) == Parse(tail, m)
  {
    KeyListCounts(m);
    ParseLines(esc, KeyList(m), m, tail, map[]);
    assert map[] + m == m;
  }

  lemma FittingIsValid(esc: char -> string, m: SecretMap)
    requires Escapes(esc)
    requires Fits(esc, m)
    ensures ValidMap(m) && '\0' !in PrintedWith(esc, m)
  {
    KeyListCounts(m);
    LinesNul(esc, KeyList(m), m);
    LinesSize(esc, KeyList(m), m);
  }

  /** Printed text reads back, with or without the blank line that a pull writes after it. */
  lemma PrintedReadsBack(esc: char -> string, m: SecretMap, tail: string)
    requires Escapes(esc)
    requires (tail == "" || tail == "\n") && Fits(esc, m) && Size(PrintedWith(esc, m)) + |tail| <= MAX_PAYLOAD_BYTES
    ensures Imported(PrintedWith(esc, m) + tail) == Some(m)
  {
    PrintedStarts(esc, m, tail);
    PrintedParses(esc, m, tail);
    BlankTail(tail, m);
    SizeAppend(PrintedWith(esc, m), tail);
    FittingIsValid(esc, m);
  }

  /** What is printed, perhaps with a line break behind it: the break takes a byte
      of the bound, and changes nothing else. */
  lemma TailReadsBack(esc: char -> string, m: SecretMap, tail: string)
    requires Escapes(esc) && (tail == "" || tail == "\n")
    ensures Imported(PrintedWith(esc, m) + tail) == Some(m) <==>
              Fits(esc, m) && Size(PrintedWith(esc, m)) + |tail| <= MAX_PAYLOAD_BYTES
  {
    var data := PrintedWith(esc, m) + tail;
    SizeAppend(PrintedWith(esc, m), tail);
    assert Size(tail) == |tail|;
    if Fits(esc, m) && Size(data) <= MAX_PAYLOAD_BYTES {
      PrintedReadsBack(esc, m, tail);
    }
    if Imported(data) == Some(m) {
      ParseNames(WithoutMark(data), map[]);
      LinesNul(esc, KeyList(m), m);
      assert forall c :: c in PrintedWith(esc, m) ==> c in data;
    }
  }

  /** What is printed reads back as the same map exactly when every name is a variable name of bounded length, no value
      holds a NUL, the entries are not too many and the printed text is not too long. */
  lemma RoundTripExactly(esc: char -> string, m: SecretMap)
    requires Escapes(esc)
    ensures Imported(PrintedWith(esc, m)) == Some(m) <==> Fits(esc, m)
  {
    TailReadsBack(esc, m, "");
    assert PrintedWith(esc, m) + "" == PrintedWith(esc, m);
  }

  // ----- what hand-written text means

  lemma {:induction false} IndexOfBehind(a: string, c: char, b: string)
    requires c !in a
    ensures IndexOf(a + b, c) == |a| + IndexOf(b, c)
  {
    if a == "" {
      assert a + b == b;
    } else {
      IndexOfBehind(a[1..], c, b);
      assert (a + b)[1..] == a[1..] + b;
    }
  }

  /** A line is cut at its first equals sign. */
  lemma NamedLine(key: string, behind: string)
    requires ValidKey(key)
    ensures Assignment(key + "=" + behind) == ValueOf(key, TrimLeft(behind, BLANKS))
  {
    var text := key + "=" + behind;
    NameHasNoSpace(key);
    IndexOfBehind(key + "=", '\n', behind);
    assert Before(text, '\n') == key + ['='] + Before(behind, '\n');
    IndexOfIn(key, '=', Before(behind, '\n'));
    assert text[..|key|] == key && text[|key| + 1..] == behind;
    TrimSpaceNone(key);
  }

  lemma BareLine(key: string, behind: string)
    requires ValidKey(key)
    ensures NextStatement(key + "=" + behind) == ValueOf(key, TrimLeft(behind, BLANKS))
  {
    var text := key + "=" + behind;
    NameHasNoSpace(key);
    assert text[0] == key[0] && key[0] in key;
    NotExport(key, text);
    NamedLine(key, behind);
  }

  /** An assignment may stand behind the word export. */
  lemma ExportedLine(key: string, behind: string, blank: char)
    requires ValidKey(key) && (blank == ' ' || blank == '\t')
    ensures NextStatement("export" + ([blank] + (key + "=" + behind))) == ValueOf(key, TrimLeft(behind, BLANKS))
  {
    var text := key + "=" + behind;
    NameHasNoSpace(key);
    NamedLine(key, behind);
    WordExport(text, blank, key[0]);
  }

  lemma WordExport(text: string, blank: char, first: char)
    requires (blank == ' ' || blank == '\t') && text != "" && text[0] == first && first !in SPACES
    ensures NextStatement("export" + ([blank] + text)) == Assignment(text)
  {
    var exported := "export" + ([blank] + text);
    assert exported[0] == 'e' && exported[6..] == [blank] + text && ([blank] + text)[1..] == text;
    assert exported[..7] == "export" + [blank];
    assert DropExport(exported) == TrimLeft([blank] + text, BLANKS) == text;
  }

  /** Blank lines and blanks in front of a statement say nothing. */
  lemma BlankFirst(text: string, blank: char, found: SecretMap)
    requires blank in NEWLINES
    ensures Parse([blank] + text, found) == Parse(text, found)
  {
    assert ([blank] + text)[1..] == text;
    TrimmedStatement([blank] + text);
    TrimmedStatement(text);
  }

  lemma {:induction false} NoCommentIn(v: string, tail: string, i: nat)
    requires i <= |v| && forall k :: i <= k < |v| ==> !CommentAt(v, k)
    requires tail == "" || (|tail| > 1 && tail[0] in BLANKS && tail[1] == '#')
    ensures UncommentFrom(v + tail, i) == v + if tail == "" then "" else [tail[0]]
    decreases |v| - i
  {
    var s := v + tail;
    if i < |v| {
      assert s[i] == v[i] && (i > 0 ==> s[i - 1] == v[i - 1]) && !CommentAt(v, i);
      assert !CommentAt(s, i);
      NoCommentIn(v, tail, i + 1);
    } else if tail != "" {
      assert s[i] == tail[0] && s[i + 1] == tail[1];
      assert !CommentAt(s, i) && CommentAt(s, i + 1);
      assert UncommentFrom(s, i) == UncommentFrom(s, i + 1) == s[..i + 1];
      assert s[..i + 1] == v + [tail[0]];
    } else {
      assert s == v;
    }
  }

  /** An unquoted value is literal: the rest of its line without outer white space, up to a '#' behind a blank. */
  lemma UnquotedValue(key: string, v: string, tail: string, more: string)
    requires v != "" && v[0] !in SPACES && v[|v| - 1] !in SPACES && v[0] != '\'' && v[0] != '\"'
    requires '\n' !in v && forall k :: 0 <= k < |v| ==> !CommentAt(v, k)
    requires tail == "" || (|tail| > 1 && tail[0] in BLANKS && tail[1] == '#' && '\n' !in tail)
    ensures ValueOf(key, TrimLeft(v + tail + "\n" + more, BLANKS)) == Assign(key, v, more)
  {
    var text := v + tail + "\n" + more;
    assert text[0] == v[0];
    assert text == (v + tail) + ['\n'] + more;
    IndexOfIn(v + tail, '\n', more);
    assert Before(text, '\n') == v + tail && Rest(text, '\n') == more;
    NoCommentIn(v, tail, 0);
    TrimSpaceNone(v);
    if tail != "" {
      var u := v + [tail[0]];
      assert u[0] == v[0] && u[|u| - 1] == tail[0] && u[..|u| - 1] == v;
      assert TrimLeft(u, SPACES) == u;
      assert TrimRight(u, SPACES) == TrimRight(v, SPACES);
    }
  }

  lemma {:induction false} UnquoteLiteral(v: string, more: string)
    requires '\'' !in v
    ensures Unquote(v + "'" + more, '\'') == Quoted(v, more)
  {
    var text := v + "'" + more;
    if v == "" {
      assert text[1..] == more;
    } else {
      assert text[1..] == v[1..] + "'" + more;
      UnquoteLiteral(v[1..], more);
      assert [v[0]] + v[1..] == v;
    }
  }

  /** Between single quotes everything is literal, line breaks and backslashes too. */
  lemma SingleQuotedValue(key: string, v: string, more: string)
    requires '\'' !in v
    ensures ValueOf(key, TrimLeft("'" + v + "'\n" + more, BLANKS)) == Assign(key, v, more)
  {
    var text := "'" + v + "'\n" + more;
    assert text[0] == '\'' && text[1..] == v + "'" + ("\n" + more);
    UnquoteLiteral(v, "\n" + more);
    assert IndexOf("\n" + more, '\n') == 0 && ("\n" + more)[1..] == more;
  }

  /** Comment lines say nothing, and a variable assigned twice makes the text invalid. */
  lemma CommentsAndDuplicates(comment: string, more: string, text: string, key: string, value: string, rest: string,
                              found: SecretMap)
    requires '\n' !in comment
    ensures Parse("#" + comment + "\n" + more, found) == Parse(more, found)
    ensures NextStatement(text) == Assign(key, value, rest) && key in found ==> Parse(text, found) == None
    ensures NextStatement(text) == Assign(key, value, rest) && key !in found && |found| < MAX_ENTRIES ==>
              Parse(text, found) == Parse(rest, found[key := value])
  {
    var line := "#" + comment + "\n" + more;
    assert line == ("#" + comment) + ['\n'] + more;
    IndexOfIn("#" + comment, '\n', more);
    assert line[0] == '#' && Rest(line, '\n') == more;
  }

  // ----- the exporter

  ghost predicate Exportable(m: SecretMap) {
    && ValidMap(m) && (forall k :: k in m ==> IsEnvName(k) && '\0' !in m[k])
    && Size(PrintedWith(ExportChar, m)) <= MAX_PAYLOAD_BYTES
  }

  /** Checks the names and values, in whatever order the map is walked. */
  method CheckNames(m: SecretMap) returns (ok: bool)
    ensures ok <==> forall k :: k in m ==> IsEnvName(k) && '\0' !in m[k]
  {
    var todo := m.Keys;
    while todo != {}
      invariant todo <= m.Keys && forall k :: k in m && k !in todo ==> IsEnvName(k) && '\0' !in m[k]
      decreases todo
    {
      var key :| key in todo;
      if !IsEnvName(key) || '\0' in m[key] {
        return false;
      }
      todo := todo - {key};
    }
    ok := true;
  }

  lemma OutGrows(out: string, keys: seq<string>, m: SecretMap, i: nat, all: string)
    requires (forall k :: k in keys ==> k in m) && i < |keys| && out + Lines(ExportChar, keys[i..], m) == all
    ensures var more := out + Line(ExportChar, keys[i], m[keys[i]]);
            more + Lines(ExportChar, keys[i + 1..], m) == all && Size(more) <= Size(all)
  {
    PrintedFurther(ExportChar, out, keys, m, i, all);
    var more := out + Line(ExportChar, keys[i], m[keys[i]]);
    SizeAppend(more, Lines(ExportChar, keys[i + 1..], m));
  }

  /** Prints entry by entry, and gives up when the text is too long. */
  method PrintBounded(m: SecretMap) returns (r: Option<string>)
    ensures r.Some? <==> Size(PrintedWith(ExportChar, m)) <= MAX_PAYLOAD_BYTES
    ensures r.Some? ==> r.value == PrintedWith(ExportChar, m)
  {
    LessIsStrictTotal();
    var keys := SortedListing(Less, m.Keys);
    assert forall k :: k in keys <==> k in Elements(keys);
    SortedUnique(Less, keys, KeyList(m));
    ghost var all := PrintedWith(ExportChar, m);
    var out := "";
    assert keys[0..] == keys && "" + all == all;
    for i := 0 to |keys|
      invariant out + Lines(ExportChar, keys[i..], m) == all && Size(out) <= MAX_PAYLOAD_BYTES
    {
      OutGrows(out, keys, m, i, all);
      out := out + Line(ExportChar, keys[i], m[keys[i]]);
      if Size(out) > MAX_PAYLOAD_BYTES {
        return None;
      }
    }
    assert keys[|keys|..] == [] && out + "" == out;
    r := Some(out);
  }

  /** Prints a map that can be parsed again, or nothing. */
  method ExportDotenv(m: SecretMap) returns (r: Option<string>)
    ensures r.Some? <==> Exportable(m)
    ensures r.Some? ==> r.value == PrintedWith(ExportChar, m)
  {
    var valid := ValidateMap(m);
    if !valid {
      return None;
    }
    var named := CheckNames(m);
    if !named {
      return None;
    }
    r := PrintBounded(m);
  }

  /** Whatever the exporter prints reads back as the same map. */
  lemma ExportReadsBack(m: SecretMap)
    requires Exportable(m)
    ensures Imported(PrintedWith(ExportChar, m)) == Some(m)
  {
    BothEscape();
    RoundTripExactly(ExportChar, m);
  }
}
