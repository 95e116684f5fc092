/**
 JSON texts after RFC 8259: string escaping as the serialiser does it (section 7) and a
 recursive-descent reader for values (sections 2 to 7). The reader returns what is left of its
 input, so that a text can be read inside a longer one.
 */
module Json {
  import opened Text

  datatype Value =
    | Null
    | Bool(b: bool)
    | Number(text: string)
    | Str(s: string)
    | Arr(items: seq<Value>)
    | Obj(members: seq<(string, Value)>)

  datatype Parsed<T> = Fail | Got(value: T, rest: string)

  // ---------------------------------------------------------------------------
  // Writing strings
  // ---------------------------------------------------------------------------

  const HEX := "0123456789abcdef"

  /** One character inside a JSON string, escaped as the serialiser escapes it. */
  function EscapeChar(c: char): (r: string)
    ensures r != ""
  {
    if c == '"' then "\\\""
    else if c == '\\' then "\\\\"
    else if c == 8 as char then "\\b"
    else if c == 12 as char then "\\f"
    else if c == '\n' then "\\n"
    else if c == '\r' then "\\r"
    else if c == '\t' then "\\t"
    else if c < ' ' then ['\\', 'u', '0', '0', HEX[c as int / 16], HEX[c as int % 16]]
    else [c]
  }

  function Escape(s: string): string {
    if s == "" then "" else Escape(s[..|s| - 1]) + EscapeChar(s[|s| - 1])
  }

  function Quote(s: string): string { "\"" + Escape(s) + "\"" }

  lemma {:induction false} EscapeConcat(a: string, b: string)
    ensures Escape(a + b) == Escape(a) + Escape(b)
    decreases |b|
  {
    hide EscapeChar;
    if b == "" {
      assert a + b == a;
    } else {
      EscapeConcat(a, b[..|b| - 1]);
      assert (a + b)[..|a + b| - 1] == a + b[..|b| - 1];
    }
  }

  /** Escaping a growing text only appends. */
  lemma EscapeMonotone(p: string, s: string)
    requires p <= s
    ensures Escape(p) <= Escape(s)
  {
    EscapeConcat(p, s[|p|..]);
    assert p + s[|p|..] == s;
  }

  // ---------------------------------------------------------------------------
  // Reading strings
  // ---------------------------------------------------------------------------

  predicate IsHex(c: char) { '0' <= c <= '9' || 'a' <= c <= 'f' || 'A' <= c <= 'F' }

  function HexDigit(c: char): (n: nat)
    requires IsHex(c)
    ensures n < 16
  {
    if '0' <= c <= '9' then c as int - '0' as int
    else if 'a' <= c <= 'f' then c as int - 'a' as int + 10
    else c as int - 'A' as int + 10
  }

  /** The four hexadecimal digits of a `\u` escape starting at position `k`. */
  function HexCode(s: string, k: nat): (r: int)
    ensures -1 <= r < 0x10000
    ensures r >= 0 ==> k + 4 <= |s|
  {
    if k + 4 <= |s| && IsHex(s[k]) && IsHex(s[k + 1]) && IsHex(s[k + 2]) && IsHex(s[k + 3]) then
      ((HexDigit(s[k]) * 16 + HexDigit(s[k + 1])) * 16 + HexDigit(s[k + 2])) * 16 + HexDigit(s[k + 3])
    else -1
  }

  /** The escape sequence at the front of `s`: the character it stands for and its length. */
  function ReadEscape(s: string): (r: (char, nat))
    requires |s| > 0 && s[0] == '\\'
    ensures r.1 <= |s|
  {
    if |s| < 2 then ('?', 0)
    else match s[1]
      case '"' => ('"', 2)
      case '\\' => ('\\', 2)
      case '/' => ('/', 2)
      case 'b' => (8 as char, 2)
      case 'f' => (12 as char, 2)
      case 'n' => ('\n', 2)
      case 'r' => ('\r', 2)
      case 't' => ('\t', 2)
      case 'u' => ReadUnicode(s)
      case _ => ('?', 0)
  }

  function ReadUnicode(s: string): (r: (char, nat))
    requires |s| >= 2
    ensures r.1 <= |s|
  {
    var hi := HexCode(s, 2);
    if hi < 0 || 0xDC00 <= hi < 0xE000 then ('?', 0)
    else if hi < 0xD800 || 0xE000 <= hi then (hi as char, 6)
    else if |s| < 8 || s[6] != '\\' || s[7] != 'u' then ('?', 0)
    else
      var lo := HexCode(s, 8);
      if 0xDC00 <= lo < 0xE000 then ((0x10000 + (hi - 0xD800) * 0x400 + (lo - 0xDC00)) as char, 12)
      else ('?', 0)
  }

  /** The rest of a string literal, up to and including its closing quote. */
  function ReadBody(s: string): (p: Parsed<string>)
    ensures p.Got? ==> |p.rest| < |s|
    decreases |s|
  {
    if s == "" || s[0] < ' ' then Fail
    else if s[0] == '"' then Got("", s[1..])
    else if s[0] == '\\' then
      var (c, n) := ReadEscape(s);
      if n == 0 then Fail else Prepend(c, ReadBody(s[n..]))
    else Prepend(s[0], ReadBody(s[1..]))
  }

  function Prepend(c: char, p: Parsed<string>): Parsed<string> {
    if p.Fail? then Fail else Got([c] + p.value, p.rest)
  }

  // ---------------------------------------------------------------------------
  // Reading values
  // ---------------------------------------------------------------------------

  predicate IsBlank(c: char) { c == ' ' || c == '\t' || c == '\n' || c == '\r' }

  function Skip(s: string): (r: string)
    ensures |r| <= |s|
    ensures r != "" ==> !IsBlank(r[0])
  {
    if s != "" && IsBlank(s[0]) then Skip(s[1..]) else s
  }

  /** Length of the run of digits at position `k`. */
  function Digits(s: string, k: nat): (n: nat)
    requires k <= |s|
    ensures k + n <= |s|
    decreases |s| - k
  {
    if k < |s| && IsDigit(s[k]) then 1 + Digits(s, k + 1) else 0
  }

  /** End of the integer part of a number starting at `k`, or 0 if there is none. */
  function IntegerEnd(s: string, k: nat): (e: nat)
    requires k <= |s|
    ensures e <= |s| && (e != 0 ==> e > k)
  {
    if Digits(s, k) == 0 then 0 else if s[k] == '0' then k + 1 else k + Digits(s, k)
  }

  function FractionEnd(s: string, k: nat): (e: nat)
    requires k <= |s|
    ensures e <= |s| && (e != 0 ==> e >= k)
  {
    if k < |s| && s[k] == '.' then (if Digits(s, k + 1) == 0 then 0 else k + 1 + Digits(s, k + 1)) else k
  }

  function ExponentEnd(s: string, k: nat): (e: nat)
    requires k <= |s|
    ensures e <= |s| && (e != 0 ==> e >= k)
  {
    if k < |s| && (s[k] == 'e' || s[k] == 'E') then
      var j := if k + 1 < |s| && (s[k + 1] == '+' || s[k + 1] == '-') then k + 2 else k + 1;
      if Digits(s, j) == 0 then 0 else j + Digits(s, j)
    else k
  }

  /** Length of the number at the front of `s`, or 0. */
  function NumberLength(s: string): (e: nat)
    ensures e <= |s|
  {
    var i := IntegerEnd(s, if s != "" && s[0] == '-' then 1 else 0);
    if i == 0 then 0
    else
      var f := FractionEnd(s, i);
      if f == 0 then 0 else ExponentEnd(s, f)
  }

  function ReadAtom(s: string): (p: Parsed<Value>)
    ensures p.Got? ==> |p.rest| < |s|
  {
    if "true" <= s then Got(Bool(true), s[4..])
    else if "false" <= s then Got(Bool(false), s[5..])
    else if "null" <= s then Got(Null, s[4..])
    else if NumberLength(s) == 0 then Fail
    else Got(Number(s[..NumberLength(s)]), s[NumberLength(s)..])
  }

  function ReadValue(s: string): (p: Parsed<Value>)
    ensures p.Got? ==> |p.rest| < |s|
    decreases |s|, 2
  {
    var t := Skip(s);
    if t == "" then Fail
    else if t[0] == '"' then
      var p := ReadBody(t[1..]);
      if p.Fail? then Fail else Got(Str(p.value), p.rest)
    else if t[0] == '[' then
      var u := Skip(t[1..]);
      if u != "" && u[0] == ']' then Got(Arr([]), u[1..])
      else
        var p := ReadItems(t[1..]);
        if p.Fail? then Fail else Got(Arr(p.value), p.rest)
    else if t[0] == '{' then
      var u := Skip(t[1..]);
      if u != "" && u[0] == '}' then Got(Obj([]), u[1..])
      else
        var p := ReadMembers(t[1..]);
        if p.Fail? then Fail else Got(Obj(p.value), p.rest)
    else ReadAtom(t)
  }

  /** Array items up to and including the closing bracket. */
  function ReadItems(s: string): (p: Parsed<seq<Value>>)
    ensures p.Got? ==> |p.rest| < |s|
    decreases |s|, 3
  {
    var v := ReadValue(s);
    if v.Fail? then Fail
    else
      var t := Skip(v.rest);
      if t == "" then Fail
      else if t[0] == ']' then Got([v.value], t[1..])
      else if t[0] == ',' then
        var p := ReadItems(t[1..]);
        if p.Fail? then Fail else Got([v.value] + p.value, p.rest)
      else Fail
  }

  /** A name, a colon and a value. */
  function ReadMember(s: string): (p: Parsed<(string, Value)>)
    ensures p.Got? ==> |p.rest| < |s|
    decreases |s|, 3
  {
    var t := Skip(s);
    if t == "" || t[0] != '"' then Fail
    else
      var k := ReadBody(t[1..]);
      if k.Fail? then Fail
      else
        var u := Skip(k.rest);
        if u == "" || u[0] != ':' then Fail
        else
          var v := ReadValue(u[1..]);
          if v.Fail? then Fail else Got((k.value, v.value), v.rest)
  }

  /** Object members up to and including the closing brace. */
  function ReadMembers(s: string): (p: Parsed<seq<(string, Value)>>)
    ensures p.Got? ==> |p.rest| < |s|
    decreases |s|, 4
  {
    var m := ReadMember(s);
    if m.Fail? then Fail
    else
      var t := Skip(m.rest);
      if t == "" then Fail
      else if t[0] == '}' then Got([m.value], t[1..])
      else if t[0] == ',' then
        var p := ReadMembers(t[1..]);
        if p.Fail? then Fail else Got([m.value] + p.value, p.rest)
      else Fail
  }

  /** `s` is the text of the one value `v`, blanks around it allowed. */
  predicate Denotes(s: string, v: Value) {
    var p := ReadValue(s);
    p.Got? && p.value == v && Skip(p.rest) == ""
  }

  function NamesOf(members: seq<(string, Value)>): set<string> {
    if members == [] then {} else {members[0].0} + NamesOf(members[1..])
  }

  /** Names of the members of the object that `s` denotes; none if it denotes no object. */
  function MemberNames(s: string): set<string> {
    var p := ReadValue(s);
    if p.Got? && Skip(p.rest) == "" && p.value.Obj? then NamesOf(p.value.members) else {}
  }
}
