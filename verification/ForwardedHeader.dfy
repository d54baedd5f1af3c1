/**
 Parsing the `for` hops out of a `Forwarded` header (sections 4 and 6 of RFC
 7239) and printing them back. Address parsing is a parameter: it maps a text to
 its version and canonical text, or to nothing.
 */
module ForwardedHeader {
  import opened Basics
  import opened Text
  import opened QuotedSplit

  // ----- characters -----

  predicate IsAlpha(c: char) {
    'a' <= c <= 'z' || 'A' <= c <= 'Z'
  }

  predicate IsDigit(c: char) {
    '0' <= c <= '9'
  }

  predicate IsTokenChar(c: char) {
    IsAlpha(c) || IsDigit(c) || c in {'!', '#', '$', '%', '&', '\'', '*', '+', '-', '.', '^', '_', '`', '|', '~'}
  }

  /** The printable characters of ASCII but for the delimiters (section 5.6.2 of RFC 9110). */
  lemma TokenCharIff(c: char)
    ensures IsTokenChar(c) <==> 0x21 <= c as int <= 0x7E && c !in "\"(),/:;<=>?@[\\]{}"
  {
  }

  predicate IsToken(s: string) {
    s != "" && All(s, IsTokenChar)
  }

  predicate IsQuotedChar(c: char, escaped: bool) {
    var n := c as int;
    if escaped then n == 0x09 || n == 0x20 || 0x21 <= n <= 0x7E || 0x80 <= n <= 0xFF
    else n == 0x09 || n == 0x20 || n == 0x21 || 0x23 <= n <= 0x5B || 0x5D <= n <= 0x7E || 0x80 <= n <= 0xFF
  }

  /** `str.lower()` where it can yield a token character: ASCII letters and the Kelvin sign. */
  function Lower(c: char): char {
    if 'A' <= c <= 'Z' then (c as int + 32) as char else if c == '\U{212A}' then 'k' else c
  }

  function LowerAll(s: string): (r: string)
    ensures |r| == |s| && forall i :: 0 <= i < |s| ==> r[i] == Lower(s[i])
  {
    seq(|s|, i requires 0 <= i < |s| => Lower(s[i]))
  }

  // ----- quoting -----

  function Escape(v: string): string {
    if v == "" then ""
    else (if v[0] == '"' || v[0] == '\\' then ['\\', v[0]] else [v[0]]) + Escape(v[1..])
  }

  function Quoted(v: string): string {
    "\"" + Escape(v) + "\""
  }

  function Prepend(c: char, r: Result<string>): Result<string> {
    if r.Ok? then Ok([c] + r.value) else Err
  }

  function UnquoteBody(s: string, escaped: bool): Result<string> {
    if s == "" then if escaped then Err else Ok("")
    else if escaped then if IsQuotedChar(s[0], true) then Prepend(s[0], UnquoteBody(s[1..], false)) else Err
    else if s[0] == '\\' then UnquoteBody(s[1..], true)
    else if s[0] == '"' || !IsQuotedChar(s[0], false) then Err
    else Prepend(s[0], UnquoteBody(s[1..], false))
  }

  function Unquote(raw: string): Result<string> {
    var v := Strip(raw);
    if |v| < 2 || v[0] != '"' || v[|v| - 1] != '"' then Err else UnquoteBody(v[1..|v| - 1], false)
  }

  predicate Quotable(c: char) {
    IsQuotedChar(c, true)
  }

  lemma {:induction false} UnquoteEscape(v: string)
    requires All(v, Quotable)
    ensures UnquoteBody(Escape(v), false) == Ok(v)
  {
    if v != "" {
      UnquoteEscape(v[1..]);
      var e := Escape(v);
      if v[0] == '"' || v[0] == '\\' {
        assert e[1..][1..] == Escape(v[1..]);
      } else {
        assert e[1..] == Escape(v[1..]);
      }
      assert [v[0]] + v[1..] == v;
    }
  }

  /** Quoting then unquoting is the identity on the characters a quoted string may hold. */
  lemma UnquoteQuoted(v: string)
    requires All(v, Quotable)
    ensures Unquote(Quoted(v)) == Ok(v)
  {
    UnquoteEscape(v);
    var s := Quoted(v);
    StrippedStays(s);
    assert s[1..|s| - 1] == Escape(v);
  }

  /** And unquoting yields no other values. */
  lemma {:induction false} UnquoteYieldsQuotable(s: string, escaped: bool)
    requires UnquoteBody(s, escaped).Ok?
    ensures All(UnquoteBody(s, escaped).value, Quotable)
  {
    if s != "" {
      if escaped {
        UnquoteYieldsQuotable(s[1..], false);
      } else if s[0] == '\\' {
        UnquoteYieldsQuotable(s[1..], true);
      } else {
        UnquoteYieldsQuotable(s[1..], false);
      }
    }
  }

  method UnquoteForwarded(raw: string) returns (r: Result<string>)
    ensures r == Unquote(raw)
  {
    var v := Strip(raw);
    if |v| < 2 || v[0] != '"' || v[|v| - 1] != '"' {
      return Err;
    }
    var body := v[1..|v| - 1];
    var unescaped, escaped := "", false;
    assert body[0..] == body;
    PrependAllNothing(UnquoteBody(body, false));
    for i := 0 to |body|
      invariant UnquoteBody(body, false) == PrependAll(unescaped, UnquoteBody(body[i..], escaped))
    {
      var c := body[i];
      assert body[i..][1..] == body[i + 1..];
      if escaped {
        if !IsQuotedChar(c, true) {
          return Err;
        }
        PrependAllAppend(unescaped, c, UnquoteBody(body[i + 1..], false));
        unescaped := unescaped + [c];
        escaped := false;
      } else if c == '\\' {
        escaped := true;
      } else if c == '"' || !IsQuotedChar(c, false) {
        return Err;
      } else {
        PrependAllAppend(unescaped, c, UnquoteBody(body[i + 1..], false));
        unescaped := unescaped + [c];
      }
    }
    assert body[|body|..] == "";
    if escaped {
      return Err;
    }
    assert unescaped + "" == unescaped;
    r := Ok(unescaped);
  }

  function PrependAll(s: string, r: Result<string>): Result<string> {
    if r.Ok? then Ok(s + r.value) else Err
  }

  lemma PrependAllNothing(r: Result<string>)
    ensures PrependAll("", r) == r
  {
    if r.Ok? { assert "" + r.value == r.value; }
  }

  lemma PrependAllAppend(s: string, c: char, r: Result<string>)
    ensures PrependAll(s, Prepend(c, r)) == PrependAll(s + [c], r)
  {
    if r.Ok? { assert s + ([c] + r.value) == s + [c] + r.value; }
  }

  // ----- parameters -----

  datatype Pair = Pair(name: string, value: string, quoted: bool)

  /** The first position of `c`, or the length when it does not occur. */
  function Find(s: string, c: char): (i: nat)
    ensures i <= |s| && (i < |s| ==> s[i] == c) && c !in s[..i]
  {
    if s == "" || s[0] == c then 0 else
      var i := Find(s[1..], c) + 1;
      assert s[..i] == [s[0]] + s[1..][..i - 1];
      i
  }

  function ParsePair(parameter: string): Result<Pair> {
    var i := Find(parameter, '=');
    if i == |parameter| then Err
    else
      var name, raw := parameter[..i], parameter[i + 1..];
      if name != Strip(name) || raw != Strip(raw) || !IsToken(LowerAll(name)) || raw == "" then Err
      else if raw[0] == '"' then
        var v := Unquote(raw);
        if v.Ok? then Ok(Pair(LowerAll(name), v.value, true)) else Err
      else if IsToken(raw) then Ok(Pair(LowerAll(name), raw, false))
      else Err
  }

  /** The value as it appears after the equals sign. */
  function Raw(p: Pair): string {
    if p.quoted then Quoted(p.value) else p.value
  }

  function PrintPair(p: Pair): string {
    p.name + "=" + Raw(p)
  }

  /** A parameter as the parser returns it. */
  predicate ValidPair(p: Pair) {
    && IsToken(p.name) && LowerAll(p.name) == p.name
    && if p.quoted then All(p.value, Quotable) else IsToken(p.value)
  }

  lemma TokenStripped(s: string)
    requires IsToken(s)
    ensures Strip(s) == s && s[0] != '"' && '=' !in s
  {
    StrippedStays(s);
  }

  lemma {:induction false} FindAt(s: string, c: char, t: string)
    requires c !in s
    ensures Find(s + [c] + t, c) == |s|
  {
    var whole := s + [c] + t;
    if s != "" {
      assert whole[1..] == s[1..] + [c] + t && whole[0] == s[0];
      FindAt(s[1..], c, t);
    }
  }

  /** A printed parameter parses back to itself. */
  lemma ParsePrintedPair(p: Pair)
    requires ValidPair(p)
    ensures ParsePair(PrintPair(p)) == Ok(p)
  {
    var raw := Raw(p);
    TokenStripped(p.name);
    FindAt(p.name, '=', raw);
    var s := PrintPair(p);
    assert s == p.name + ['='] + raw;
    assert s[..|p.name|] == p.name && s[|p.name| + 1..] == raw;
    if p.quoted {
      UnquoteQuoted(p.value);
      StrippedStays(raw);
    } else {
      TokenStripped(p.value);
    }
  }

  // ----- nodes -----

  datatype Ip = Ip(version: int, text: string)

  type IpParser = string -> Option<Ip>

  /** The last position of `c`, or the length when it does not occur. */
  function FindLast(s: string, c: char): (i: nat)
    ensures i <= |s| && (i < |s| ==> s[i] == c)
    ensures i == |s| ==> c !in s
  {
    if s == "" then 0
    else if s[|s| - 1] == c then |s| - 1
    else
      var i := FindLast(s[..|s| - 1], c);
      if i == |s| - 1 then |s| else i
  }

  lemma {:induction false} FindLastAt(s: string, c: char, t: string)
    requires c !in t
    ensures FindLast(s + [c] + t, c) == |s|
  {
    var whole := s + [c] + t;
    if t != "" {
      assert whole[..|whole| - 1] == s + [c] + t[..|t| - 1];
      FindLastAt(s, c, t[..|t| - 1]);
    }
  }

  function Decimal(s: string): nat
    requires All(s, IsDigit)
  {
    if s == "" then 0 else 10 * Decimal(s[..|s| - 1]) + (s[|s| - 1] as int - '0' as int)
  }

  function Tens(n: nat): nat {
    if n == 0 then 1 else 10 * Tens(n - 1)
  }

  lemma {:induction false} DecimalConcat(s: string, t: string)
    requires All(s, IsDigit) && All(t, IsDigit)
    ensures All(s + t, IsDigit) && Decimal(s + t) == Decimal(s) * Tens(|t|) + Decimal(t)
  {
    if t == "" {
      assert s + t == s;
    } else {
      var init := t[..|t| - 1];
      DecimalConcat(s, init);
      assert (s + t)[..|s + t| - 1] == s + init;
      assert Decimal(s) * Tens(|t|) == 10 * (Decimal(s) * Tens(|init|));
    }
  }

  predicate ValidPort(port: string) {
    1 <= |port| <= 5 && All(port, IsDigit) && Decimal(port) <= 65535
  }

  function AddressOf(ip: IpParser, candidate: string, version: int): Result<string> {
    var a := ip(candidate);
    if a.Some? && a.value.version == version then Ok(a.value.text) else Err
  }

  function ParseBracketed(ip: IpParser, value: string): Result<string>
    requires value != "" && value[0] == '['
  {
    var closing := Find(value, ']');
    if closing == |value| then Err
    else
      var candidate, suffix := value[1..closing], value[closing + 1..];
      if '%' in candidate || (suffix != "" && !(suffix[0] == ':' && ValidPort(suffix[1..]))) then Err
      else AddressOf(ip, candidate, 6)
  }

  function ParsePorted(ip: IpParser, value: string): Result<string> {
    var colon := FindLast(value, ':');
    if colon == |value| || ':' in value[..colon] || !ValidPort(value[colon + 1..]) then Err
    else AddressOf(ip, value[..colon], 4)
  }

  function ParseNode(ip: IpParser, value: string, quoted: bool): Result<string> {
    if LowerAll(value) == "unknown" || (value != "" && value[0] == '_') then Err
    else if value != "" && value[0] == '[' then if quoted then ParseBracketed(ip, value) else Err
    else if ip(value).Some? then AddressOf(ip, value, 4)
    else if quoted then ParsePorted(ip, value)
    else Err
  }

  // ----- elements and chains -----

  /** Parameters left to right: a repeated name is an error, and `for` names the hop. */
  function ParseParams(ip: IpParser, params: seq<string>, seen: set<string>, found: Option<string>)
    : Result<Option<string>>
  {
    if params == [] then Ok(found)
    else
      var p := ParsePair(params[0]);
      if p.Err? || p.value.name in seen then Err
      else if p.value.name == "for" then
        var hop := ParseNode(ip, p.value.value, p.value.quoted);
        if hop.Err? then Err else ParseParams(ip, params[1..], seen + {p.value.name}, Some(hop.value))
      else ParseParams(ip, params[1..], seen + {p.value.name}, found)
  }

  function ForParam(ip: IpParser, params: seq<string>): Result<Option<string>> {
    ParseParams(ip, params, {}, None)
  }

  /** An element without a `for` parameter is an error. */
  function Required(hop: Result<Option<string>>): Result<string> {
    if hop.Err? || hop.value.None? then Err else Ok(hop.value.value)
  }

  function ParseElement(ip: IpParser, element: string): Result<string> {
    var params := Split(element, ';');
    if params.Err? then Err else Required(ForParam(ip, params.value))
  }

  /** Hops already collected, then those of the rest. */
  function Collected(hops: seq<string>, rest: Result<seq<string>>): Result<seq<string>> {
    if rest.Err? then Err else Ok(hops + rest.value)
  }

  function ParseElements(ip: IpParser, elements: seq<string>): Result<seq<string>> {
    if elements == [] then Ok([])
    else
      var hop := ParseElement(ip, elements[0]);
      if hop.Err? then Err else Collected([hop.value], ParseElements(ip, elements[1..]))
  }

  function ParseChain(ip: IpParser, forwarded: string): Result<seq<string>> {
    var elements := Split(forwarded, ',');
    if elements.Err? then Err else ParseElements(ip, elements.value)
  }

  method ParseForwardedElement(ip: IpParser, element: string) returns (r: Result<string>)
    ensures r == ParseElement(ip, element)
  {
    var params := SplitForwarded(element, ';');
    if params.Err? {
      return Err;
    }
    var found: Option<string> := None;
    var seen: set<string> := {};
    var ps := params.value;
    assert ps[0..] == ps;
    for i := 0 to |ps|
      invariant ParseParams(ip, ps, {}, None) == ParseParams(ip, ps[i..], seen, found)
    {
      assert ps[i..][1..] == ps[i + 1..];
      var p := ParsePair(ps[i]);
      if p.Err? || p.value.name in seen {
        return Err;
      }
      seen := seen + {p.value.name};
      if p.value.name == "for" {
        var hop := ParseNode(ip, p.value.value, p.value.quoted);
        if hop.Err? {
          return Err;
        }
        found := Some(hop.value);
      }
    }
    assert ps[|ps|..] == [];
    if found.None? {
      return Err;
    }
    r := Ok(found.value);
  }

  method ParseForwardedForChain(ip: IpParser, forwarded: string) returns (r: Result<seq<string>>)
    ensures r == ParseChain(ip, forwarded)
  {
    var elements := SplitForwarded(forwarded, ',');
    if elements.Err? {
      return Err;
    }
    var es, hops := elements.value, [];
    assert es[0..] == es;
    CollectedNothing(ParseElements(ip, es));
    for i := 0 to |es|
      invariant ParseElements(ip, es) == Collected(hops, ParseElements(ip, es[i..]))
    {
      assert es[i..][1..] == es[i + 1..];
      var hop := ParseForwardedElement(ip, es[i]);
      if hop.Err? {
        return Err;
      }
      CollectedAppend(hops, hop.value, ParseElements(ip, es[i + 1..]));
      hops := hops + [hop.value];
    }
    assert es[|es|..] == [] && hops + [] == hops;
    r := Ok(hops);
  }

  lemma CollectedAppend(hops: seq<string>, hop: string, rest: Result<seq<string>>)
    ensures Collected(hops, Collected([hop], rest)) == Collected(hops + [hop], rest)
  {
    if rest.Ok? { assert hops + ([hop] + rest.value) == hops + [hop] + rest.value; }
  }

  lemma CollectedNothing(rest: Result<seq<string>>)
    ensures Collected([], rest) == rest
  {
    if rest.Ok? { assert [] + rest.value == rest.value; }
  }
}
