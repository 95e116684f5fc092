/**
 Laws of the JSON reader: it inverts string escaping, and a text it accepts reads the same in
 front of any continuation that does not lengthen a number.
 */
module JsonLaws {
  import opened Json
  import opened Text

  // ---------------------------------------------------------------------------
  // Reading inside a longer text
  // ---------------------------------------------------------------------------

  /** `t` cannot continue a number. */
  predicate Stops(t: string) {
    t == "" || !(IsDigit(t[0]) || t[0] == '.' || t[0] == 'e' || t[0] == 'E')
  }

  lemma DropConcat(s: string, t: string, n: nat)
    requires n <= |s|
    ensures (s + t)[n..] == s[n..] + t
  {}

  lemma {:induction false} SkipExtends(s: string, t: string)
    requires Skip(s) != ""
    ensures Skip(s + t) == Skip(s) + t
    decreases |s|
  {
    if IsBlank(s[0]) {
      SkipExtends(s[1..], t);
      DropConcat(s, t, 1);
    }
  }

  lemma {:induction false} DigitsExtend(s: string, t: string, k: nat)
    requires k <= |s|
    requires k + Digits(s, k) < |s| || t == "" || !IsDigit(t[0])
    ensures Digits(s + t, k) == Digits(s, k)
    decreases |s| - k
  {
    if k < |s| && IsDigit(s[k]) {
      DigitsExtend(s, t, k + 1);
    }
  }

  lemma IntegerExtends(s: string, t: string, k: nat)
    requires k <= |s| && IntegerEnd(s, k) != 0
    requires IntegerEnd(s, k) < |s| || Stops(t)
    ensures IntegerEnd(s + t, k) == IntegerEnd(s, k)
  {
    if s[k] != '0' {
      DigitsExtend(s, t, k);
    }
  }

  lemma FractionExtends(s: string, t: string, k: nat)
    requires k <= |s| && FractionEnd(s, k) != 0
    requires FractionEnd(s, k) < |s| || Stops(t)
    ensures FractionEnd(s + t, k) == FractionEnd(s, k)
  {
    if k < |s| && s[k] == '.' {
      DigitsExtend(s, t, k + 1);
    }
  }

  lemma ExponentExtends(s: string, t: string, k: nat)
    requires k <= |s| && ExponentEnd(s, k) != 0
    requires ExponentEnd(s, k) < |s| || Stops(t)
    ensures ExponentEnd(s + t, k) == ExponentEnd(s, k)
  {
    if k < |s| && (s[k] == 'e' || s[k] == 'E') {
      var j := if k + 1 < |s| && (s[k + 1] == '+' || s[k + 1] == '-') then k + 2 else k + 1;
      DigitsExtend(s, t, j);
    }
  }

  lemma NumberExtends(s: string, t: string)
    requires NumberLength(s) != 0
    requires NumberLength(s) < |s| || Stops(t)
    ensures NumberLength(s + t) == NumberLength(s)
  {
    var k := if s != "" && s[0] == '-' then 1 else 0;
    var i := IntegerEnd(s, k);
    var f := FractionEnd(s, i);
    IntegerExtends(s, t, k);
    FractionExtends(s, t, i);
    ExponentExtends(s, t, f);
  }

  lemma NumberStart(s: string)
    requires NumberLength(s) != 0
    ensures s[0] == '-' || IsDigit(s[0])
  {}

  lemma AtomExtends(s: string, t: string)
    requires ReadAtom(s).Got?
    requires ReadAtom(s).rest != "" || Stops(t)
    ensures ReadAtom(s + t) == Got(ReadAtom(s).value, ReadAtom(s).rest + t)
  {
    hide NumberLength;
    if "true" <= s || "false" <= s || "null" <= s {
      assert (s + t)[0] == s[0];
    } else {
      var n := NumberLength(s);
      NumberStart(s);
      NumberExtends(s, t);
      assert (s + t)[..n] == s[..n];
    }
  }

  lemma EscapeExtends(s: string, t: string)
    requires |s| > 0 && s[0] == '\\' && ReadEscape(s).1 != 0
    ensures ReadEscape(s + t) == ReadEscape(s)
  {}

  lemma {:induction false} BodyExtends(s: string, t: string)
    requires ReadBody(s).Got?
    ensures ReadBody(s + t) == Got(ReadBody(s).value, ReadBody(s).rest + t)
    decreases |s|
  {
    hide ReadEscape;
    if s[0] == '"' {
      DropConcat(s, t, 1);
    } else if s[0] == '\\' {
      EscapeExtends(s, t);
      var n := ReadEscape(s).1;
      BodyExtends(s[n..], t);
      DropConcat(s, t, n);
    } else {
      BodyExtends(s[1..], t);
      DropConcat(s, t, 1);
    }
  }

  /** What a value reader returns, continued by `t`. */
  function More<T>(p: Parsed<T>, t: string): Parsed<T> {
    if p.Fail? then Fail else Got(p.value, p.rest + t)
  }

  lemma {:induction false} OpenNotEmpty(s: string)
    ensures ReadItems(s).Got? || ReadMembers(s).Got? ==> Skip(s) != ""
  {
    assert ReadItems(s).Got? ==> ReadValue(s).Got?;
    assert ReadMembers(s).Got? ==> ReadMember(s).Got?;
  }

  lemma {:induction false} ValueExtends(s: string, t: string)
    requires ReadValue(s).Got?
    requires ReadValue(s).rest != "" || Stops(t)
    ensures ReadValue(s + t) == More(ReadValue(s), t)
    decreases |s|, 2
  {
    hide ReadAtom, ReadBody, ReadItems, ReadMembers;
    var u := Skip(s);
    SkipExtends(s, t);
    if u[0] == '"' {
      BodyExtends(u[1..], t);
      DropConcat(u, t, 1);
    } else if u[0] == '[' {
      DropConcat(u, t, 1);
      OpenNotEmpty(u[1..]);
      BracketExtends(u[1..], t);
      if !(Skip(u[1..]) != "" && Skip(u[1..])[0] == ']') {
        ItemsExtend(u[1..], t);
      }
    } else if u[0] == '{' {
      DropConcat(u, t, 1);
      OpenNotEmpty(u[1..]);
      BracketExtends(u[1..], t);
      if !(Skip(u[1..]) != "" && Skip(u[1..])[0] == '}') {
        MembersExtend(u[1..], t);
      }
    } else {
      AtomExtends(u, t);
    }
  }

  lemma BracketExtends(s: string, t: string)
    requires Skip(s) != ""
    ensures Skip(s + t) == Skip(s) + t && Skip(s + t)[1..] == Skip(s)[1..] + t
  {
    SkipExtends(s, t);
    DropConcat(Skip(s), t, 1);
  }

  lemma {:induction false} ItemsExtend(s: string, t: string)
    requires ReadItems(s).Got?
    ensures ReadItems(s + t) == More(ReadItems(s), t)
    decreases |s|, 3
  {
    hide ReadValue;
    ValueExtends(s, t);
    var r := ReadValue(s).rest;
    BracketExtends(r, t);
    if Skip(r)[0] == ',' {
      ItemsExtend(Skip(r)[1..], t);
    }
  }

  lemma {:induction false} MemberExtends(s: string, t: string)
    requires ReadMember(s).Got?
    requires ReadMember(s).rest != "" || Stops(t)
    ensures ReadMember(s + t) == More(ReadMember(s), t)
    decreases |s|, 3
  {
    hide ReadValue, ReadBody;
    var u := Skip(s);
    BracketExtends(s, t);
    BodyExtends(u[1..], t);
    var r := ReadBody(u[1..]).rest;
    BracketExtends(r, t);
    ValueExtends(Skip(r)[1..], t);
  }

  lemma {:induction false} MembersExtend(s: string, t: string)
    requires ReadMembers(s).Got?
    ensures ReadMembers(s + t) == More(ReadMembers(s), t)
    decreases |s|, 4
  {
    hide ReadMember;
    MemberExtends(s, t);
    var r := ReadMember(s).rest;
    BracketExtends(r, t);
    if Skip(r)[0] == '}' {
    } else {
      MembersExtend(Skip(r)[1..], t);
    }
  }

  // ---------------------------------------------------------------------------
  // Reading back an escaped string
  // ---------------------------------------------------------------------------

  lemma HexRoundTrip(n: nat)
    requires n < 16
    ensures IsHex(HEX[n]) && HexDigit(HEX[n]) == n
  {}

  lemma EscapedControl(c: char, u: string)
    requires c < ' ' && |EscapeChar(c)| == 6
    ensures ReadEscape(EscapeChar(c) + u) == (c, 6)
  {
    var e := EscapeChar(c);
    var n := c as int;
    HexRoundTrip(n / 16);
    HexRoundTrip(n % 16);
    assert e == ['\\', 'u', '0', '0', HEX[n / 16], HEX[n % 16]];
    assert HexCode(e + u, 2) == n;
  }

  lemma EscapedChar(c: char, u: string)
    ensures ReadBody(EscapeChar(c) + u) == Prepend(c, ReadBody(u))
  {
    var e := EscapeChar(c);
    DropConcat(e, u, |e|);
    if c == e[0] {
    } else if |e| == 2 {
      assert ReadEscape(e + u) == (c, 2);
    } else {
      EscapedControl(c, u);
    }
  }

  /** Reading an escaped string up to its closing quote gives the string back. */
  lemma {:induction false} StringRoundTrip(x: string, t: string)
    ensures ReadBody(Escape(x) + "\"" + t) == Got(x, t)
    decreases |x|
  {
    hide EscapeChar;
    if x == "" {
      assert Escape(x) + "\"" + t == "\"" + t;
    } else {
      var y := x[1..];
      StringRoundTrip(y, t);
      EscapeConcat([x[0]], y);
      assert Escape([x[0]]) == EscapeChar(x[0]) by { assert [x[0]][..0] == ""; }
      assert [x[0]] + y == x;
      hide ReadBody, Escape;
      EscapedChar(x[0], Escape(y) + "\"" + t);
      assert Escape(x) + "\"" + t == EscapeChar(x[0]) + (Escape(y) + "\"" + t);
    }
  }
}
