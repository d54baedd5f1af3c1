/**
 What the `Forwarded` parser accepts, and as what: each level of the parser
 against the grammar it reads (sections 4 and 6 of RFC 7239), both ways.
 */
module ForwardedMeaning {
  import opened Basics
  import opened Text
  import opened QuotedSplit
  import opened ForwardedHeader

  // ----- quoted strings -----

  /** `s` spells `v`: each character as it is, or behind a backslash. */
  predicate Spells(s: string, v: string) {
    if s == "" then v == ""
    else if s[0] == '\\' then |s| > 1 && v != "" && Quotable(s[1]) && v[0] == s[1] && Spells(s[2..], v[1..])
    else s[0] != '"' && IsQuotedChar(s[0], false) && v != "" && v[0] == s[0] && Spells(s[1..], v[1..])
  }

  lemma PrependIs(c: char, r: Result<string>, v: string)
    ensures Prepend(c, r) == Ok(v) <==> v != "" && v[0] == c && r == Ok(v[1..])
  {
    if v != "" { assert [v[0]] + v[1..] == v; }
    if r.Ok? { assert ([c] + r.value)[1..] == r.value; }
  }

  lemma {:induction false} UnquoteIff(s: string, v: string)
    ensures UnquoteBody(s, false) == Ok(v) <==> Spells(s, v)
    decreases |s|
  {
    if s != "" {
      if s[0] != '\\' {
        PrependIs(s[0], UnquoteBody(s[1..], false), v);
        if v != "" { UnquoteIff(s[1..], v[1..]); }
      } else if |s| > 1 {
        assert s[1..][1..] == s[2..];
        PrependIs(s[1], UnquoteBody(s[2..], false), v);
        if v != "" { UnquoteIff(s[2..], v[1..]); }
      }
    }
  }

  /** A quoted string that spells the value. */
  predicate QuotedText(raw: string, v: string) {
    |raw| >= 2 && raw[0] == '"' && raw[|raw| - 1] == '"' && Spells(raw[1..|raw| - 1], v)
  }

  // ----- parameters -----

  /** The text after the equals sign stands for the value: a quoted string or a token. */
  predicate ValueText(raw: string, p: Pair) {
    if p.quoted then QuotedText(raw, p.value) else raw == p.value && IsToken(raw)
  }

  /** The text is this parameter: its name in any case, an equals sign and its value, with no space between. */
  ghost predicate PairText(text: string, p: Pair) {
    exists name, raw :: text == name + "=" + raw && NameText(name, p) && ValueText(raw, p)
  }

  predicate NameText(name: string, p: Pair) {
    LowerAll(name) == p.name && IsToken(p.name)
  }

  lemma NameIsPlain(name: string, p: Pair)
    requires NameText(name, p)
    ensures name != "" && '=' !in name && Strip(name) == name
  {
    assert forall i :: 0 <= i < |name| ==> p.name[i] == Lower(name[i]) && IsTokenChar(p.name[i]);
    assert Stripped(name);
    StrippedStays(name);
  }

  lemma ValueIsStripped(raw: string, p: Pair)
    requires ValueText(raw, p)
    ensures raw != "" && Strip(raw) == raw && (raw[0] == '"' <==> p.quoted)
  {
    if !p.quoted { assert IsTokenChar(raw[0]) && IsTokenChar(raw[|raw| - 1]); }
    StrippedStays(raw);
  }

  /** Cutting at the first equals sign. */
  lemma CutAtEquals(name: string, raw: string)
    requires '=' !in name
    ensures var text := name + "=" + raw;
            Find(text, '=') == |name| && text[..|name|] == name && text[|name| + 1..] == raw
  {
    assert name + "=" + raw == name + ['='] + raw;
    FindAt(name, '=', raw);
  }

  lemma UnquoteIs(raw: string, v: string)
    requires Strip(raw) == raw
    ensures Unquote(raw) == Ok(v) <==> QuotedText(raw, v)
  {
    if |raw| >= 2 { UnquoteIff(raw[1..|raw| - 1], v); }
  }

  lemma PairIsParsed(name: string, raw: string, p: Pair)
    requires NameText(name, p) && ValueText(raw, p)
    ensures ParsePair(name + "=" + raw) == Ok(p)
  {
    NameIsPlain(name, p);
    ValueIsStripped(raw, p);
    CutAtEquals(name, raw);
    if p.quoted { UnquoteIs(raw, p.value); }
  }

  /** A parameter is parsed as exactly what its text says. */
  lemma ParsePairIff(text: string, p: Pair)
    ensures ParsePair(text) == Ok(p) <==> PairText(text, p)
  {
    if ParsePair(text) == Ok(p) {
      var i := Find(text, '=');
      var name, raw := text[..i], text[i + 1..];
      assert text == name + "=" + raw;
      if p.quoted { UnquoteIs(raw, p.value); }
      assert NameText(name, p) && ValueText(raw, p);
    }
    if name, raw :| text == name + "=" + raw && NameText(name, p) && ValueText(raw, p) {
      PairIsParsed(name, raw, p);
    }
  }

  /** A name in any case is read as its lower case. */
  lemma NameInAnyCase(name: string, p: Pair)
    requires ValidPair(p) && LowerAll(name) == p.name
    ensures ParsePair(name + "=" + Raw(p)) == Ok(p)
  {
    if p.quoted {
      UnquoteEscape(p.value);
      UnquoteIff(Escape(p.value), p.value);
      assert Quoted(p.value)[1..|Quoted(p.value)| - 1] == Escape(p.value);
    }
    PairIsParsed(name, Raw(p), p);
  }

  function Upper(c: char): char {
    if 'a' <= c <= 'z' then (c as int - 32) as char else c
  }

  /** So is a name with any of its letters written in upper case. */
  lemma UpperCaseName(name: string, p: Pair)
    requires ValidPair(p) && |name| == |p.name|
    requires forall i :: 0 <= i < |name| ==> name[i] == p.name[i] || name[i] == Upper(p.name[i])
    ensures ParsePair(name + "=" + Raw(p)) == Ok(p)
  {
    forall i | 0 <= i < |name| ensures LowerAll(name)[i] == p.name[i] {
      assert LowerAll(p.name)[i] == p.name[i];
    }
    NameInAnyCase(name, p);
  }

  // ----- nodes -----

  predicate Starts(s: string, c: char) {
    s != "" && s[0] == c
  }

  predicate Hidden(value: string) {
    LowerAll(value) == "unknown" || Starts(value, '_')
  }

  predicate PortSuffix(suffix: string) {
    suffix == "" || (suffix[0] == ':' && ValidPort(suffix[1..]))
  }

  /** An IPv6 address in brackets, with no scope and perhaps with a port. */
  ghost predicate Bracketed(ip: IpParser, value: string, text: string) {
    exists host, suffix :: value == "[" + host + "]" + suffix && BracketParts(ip, host, suffix, text)
  }

  predicate BracketParts(ip: IpParser, host: string, suffix: string, text: string) {
    ']' !in host && '%' !in host && PortSuffix(suffix) && ip(host) == Some(Ip(6, text))
  }

  /** An IPv4 address with a port. */
  ghost predicate Ported(ip: IpParser, value: string, text: string) {
    exists host, port :: value == host + ":" + port && PortedParts(ip, host, port, text)
  }

  predicate PortedParts(ip: IpParser, host: string, port: string, text: string) {
    ':' !in host && ValidPort(port) && ip(host) == Some(Ip(4, text))
  }

  /** The node is this address: bare IPv4, or in quotes a bracketed IPv6 or an IPv4 with a port. */
  ghost predicate NodeIs(ip: IpParser, value: string, quoted: bool, text: string) {
    && !Hidden(value)
    && if Starts(value, '[') then quoted && Bracketed(ip, value, text)
       else if ip(value).Some? then ip(value) == Some(Ip(4, text))
       else quoted && Ported(ip, value, text)
  }

  lemma BracketedIsParsed(ip: IpParser, host: string, suffix: string, text: string)
    requires BracketParts(ip, host, suffix, text)
    ensures ParseBracketed(ip, "[" + host + "]" + suffix) == Ok(text)
  {
    var value := "[" + host + "]" + suffix;
    assert value == ("[" + host) + [']'] + suffix && ']' !in "[" + host;
    FindAt("[" + host, ']', suffix);
    assert value[1..|host| + 1] == host && value[|host| + 2..] == suffix;
  }

  lemma ParsedIsBracketed(ip: IpParser, value: string, text: string)
    requires Starts(value, '[') && ParseBracketed(ip, value) == Ok(text)
    ensures Bracketed(ip, value, text)
  {
    var closing := Find(value, ']');
    var host, suffix := value[1..closing], value[closing + 1..];
    assert value == "[" + host + "]" + suffix;
    assert forall i :: 0 <= i < |host| ==> host[i] == value[..closing][i + 1];
    assert BracketParts(ip, host, suffix, text);
  }

  lemma BracketedIff(ip: IpParser, value: string, text: string)
    requires Starts(value, '[')
    ensures ParseBracketed(ip, value) == Ok(text) <==> Bracketed(ip, value, text)
  {
    if ParseBracketed(ip, value) == Ok(text) { ParsedIsBracketed(ip, value, text); }
    if Bracketed(ip, value, text) {
      var host, suffix :| value == "[" + host + "]" + suffix && BracketParts(ip, host, suffix, text);
      BracketedIsParsed(ip, host, suffix, text);
    }
  }

  lemma PortedIsParsed(ip: IpParser, host: string, port: string, text: string)
    requires PortedParts(ip, host, port, text)
    ensures ParsePorted(ip, host + ":" + port) == Ok(text)
  {
    var value := host + ":" + port;
    assert value == host + [':'] + port && ':' !in port;
    FindLastAt(host, ':', port);
    assert value[..|host|] == host && value[|host| + 1..] == port;
  }

  lemma PortedIff(ip: IpParser, value: string, text: string)
    ensures ParsePorted(ip, value) == Ok(text) <==> Ported(ip, value, text)
  {
    if ParsePorted(ip, value) == Ok(text) {
      var colon := FindLast(value, ':');
      var host, port := value[..colon], value[colon + 1..];
      assert value == host + ":" + port && PortedParts(ip, host, port, text);
    }
    if Ported(ip, value, text) {
      var host, port :| value == host + ":" + port && PortedParts(ip, host, port, text);
      PortedIsParsed(ip, host, port, text);
    }
  }

  /** A node is parsed to an address exactly when it is that address; everything else is an error. */
  lemma ParseNodeIff(ip: IpParser, value: string, quoted: bool, text: string)
    ensures ParseNode(ip, value, quoted) == Ok(text) <==> NodeIs(ip, value, quoted, text)
  {
    if !Hidden(value) {
      if Starts(value, '[') {
        BracketedIff(ip, value, text);
      } else if ip(value).None? {
        PortedIff(ip, value, text);
      }
    }
  }

  // ----- elements and chains -----

  /** The texts are these parameters, one by one. */
  ghost predicate PairTexts(texts: seq<string>, ps: seq<Pair>) {
    |texts| == |ps| && forall i :: 0 <= i < |texts| ==> PairText(texts[i], ps[i])
  }

  predicate DistinctNames(ps: seq<Pair>) {
    forall i, j :: 0 <= i < j < |ps| ==> ps[i].name != ps[j].name
  }

  /** The parameters that parse, in order. */
  function Parsed(texts: seq<string>): Result<seq<Pair>> {
    if texts == [] then Ok([])
    else
      var p, rest := ParsePair(texts[0]), Parsed(texts[1..]);
      if p.Err? || rest.Err? then Err else Ok([p.value] + rest.value)
  }

  lemma PairTextsFirst(texts: seq<string>, ps: seq<Pair>)
    requires texts != [] && ps != []
    ensures PairTexts(texts, ps) <==> PairText(texts[0], ps[0]) && PairTexts(texts[1..], ps[1..])
  {
    if PairText(texts[0], ps[0]) && PairTexts(texts[1..], ps[1..]) {
      forall i | 0 <= i < |texts| ensures PairText(texts[i], ps[i]) {
        if i > 0 { assert PairText(texts[1..][i - 1], ps[1..][i - 1]); }
      }
    }
  }

  lemma {:induction false} ParsedIff(texts: seq<string>, ps: seq<Pair>)
    ensures Parsed(texts) == Ok(ps) <==> PairTexts(texts, ps)
  {
    if texts != [] && ps != [] {
      ParsePairIff(texts[0], ps[0]);
      ParsedIff(texts[1..], ps[1..]);
      PairTextsFirst(texts, ps);
      assert [ps[0]] + ps[1..] == ps;
      if Parsed(texts) == Ok(ps) { assert Parsed(texts[1..]).value == ps[1..]; }
    }
  }

  ghost predicate ForIs(ip: IpParser, ps: seq<Pair>, hop: string) {
    exists i :: 0 <= i < |ps| && ps[i].name == "for" && NodeIs(ip, ps[i].value, ps[i].quoted, hop)
  }

  predicate HasFor(ps: seq<Pair>) {
    exists i :: 0 <= i < |ps| && ps[i].name == "for"
  }

  predicate Fresh(ps: seq<Pair>, seen: set<string>) {
    forall i :: 0 <= i < |ps| ==> ps[i].name !in seen
  }

  /** The loop over parameters: what is left is new and distinct, and its `for`, if it has one, is the address. */
  ghost predicate Accepts(ip: IpParser, ps: seq<Pair>, seen: set<string>, found: Option<string>, hop: Option<string>) {
    DistinctNames(ps) && Fresh(ps, seen) && if HasFor(ps) then hop.Some? && ForIs(ip, ps, hop.value) else hop == found
  }

  lemma FreshFirst(p: Pair, rest: seq<Pair>, seen: set<string>)
    ensures DistinctNames([p] + rest) && Fresh([p] + rest, seen) <==>
            p.name !in seen && DistinctNames(rest) && Fresh(rest, seen + {p.name})
  {
    var ps := [p] + rest;
    assert ps[0] == p && forall i :: 0 < i < |ps| ==> ps[i] == rest[i - 1];
    if DistinctNames(ps) && Fresh(ps, seen) {
      forall i | 0 <= i < |rest| ensures rest[i].name !in seen + {p.name} { assert ps[i + 1] == rest[i]; }
      forall i, j | 0 <= i < j < |rest| ensures rest[i].name != rest[j].name {
        assert ps[i + 1] == rest[i] && ps[j + 1] == rest[j];
      }
    }
  }

  lemma ForFirst(ip: IpParser, p: Pair, rest: seq<Pair>, hop: string)
    ensures HasFor([p] + rest) <==> p.name == "for" || HasFor(rest)
    ensures ForIs(ip, [p] + rest, hop) <==>
            (p.name == "for" && NodeIs(ip, p.value, p.quoted, hop)) || ForIs(ip, rest, hop)
  {
    var ps := [p] + rest;
    assert ps[0] == p && forall i :: 0 < i < |ps| ==> ps[i] == rest[i - 1];
    if i :| 0 <= i < |rest| && rest[i].name == "for" { assert ps[i + 1].name == "for"; }
    if i :| 0 <= i < |rest| && rest[i].name == "for" && NodeIs(ip, rest[i].value, rest[i].quoted, hop) {
      assert ps[i + 1] == rest[i];
    }
  }

  lemma AcceptsOther(ip: IpParser, p: Pair, rest: seq<Pair>, seen: set<string>, found: Option<string>,
                     hop: Option<string>)
    requires p.name != "for"
    ensures Accepts(ip, [p] + rest, seen, found, hop) <==>
            p.name !in seen && Accepts(ip, rest, seen + {p.name}, found, hop)
  {
    FreshFirst(p, rest, seen);
    ForFirst(ip, p, rest, if hop.Some? then hop.value else "");
  }

  lemma AcceptsFor(ip: IpParser, p: Pair, rest: seq<Pair>, seen: set<string>, found: Option<string>, node: string,
                   hop: Option<string>)
    requires p.name == "for" && ParseNode(ip, p.value, p.quoted) == Ok(node)
    ensures Accepts(ip, [p] + rest, seen, found, hop) <==>
            p.name !in seen && Accepts(ip, rest, seen + {p.name}, Some(node), hop)
  {
    FreshFirst(p, rest, seen);
    ForFirst(ip, p, rest, if hop.Some? then hop.value else "");
    if hop.Some? { ParseNodeIff(ip, p.value, p.quoted, hop.value); }
    if Fresh(rest, seen + {p.name}) { NoForInFresh(ip, rest, seen + {p.name}, if hop.Some? then hop.value else ""); }
  }

  lemma NoForInFresh(ip: IpParser, rest: seq<Pair>, seen: set<string>, hop: string)
    requires Fresh(rest, seen) && "for" in seen
    ensures !HasFor(rest) && !ForIs(ip, rest, hop)
  {
  }

  lemma RejectsBadFor(ip: IpParser, p: Pair, rest: seq<Pair>, seen: set<string>, found: Option<string>,
                      hop: Option<string>)
    requires p.name == "for" && ParseNode(ip, p.value, p.quoted).Err?
    ensures !Accepts(ip, [p] + rest, seen, found, hop)
  {
    FreshFirst(p, rest, seen);
    ForFirst(ip, p, rest, if hop.Some? then hop.value else "");
    if hop.Some? { ParseNodeIff(ip, p.value, p.quoted, hop.value); }
    if Fresh(rest, seen + {p.name}) { NoForInFresh(ip, rest, seen + {p.name}, if hop.Some? then hop.value else ""); }
  }

  lemma {:induction false} ParamsIff(ip: IpParser, texts: seq<string>, seen: set<string>, found: Option<string>,
                                     hop: Option<string>)
    ensures ParseParams(ip, texts, seen, found) == Ok(hop) <==>
            Parsed(texts).Ok? && Accepts(ip, Parsed(texts).value, seen, found, hop)
    decreases texts
  {
    if texts != [] && ParsePair(texts[0]).Ok? {
      var p := ParsePair(texts[0]).value;
      var rest := if Parsed(texts[1..]).Ok? then Parsed(texts[1..]).value else [];
      if p.name != "for" {
        ParamsIff(ip, texts[1..], seen + {p.name}, found, hop);
        AcceptsOther(ip, p, rest, seen, found, hop);
      } else if ParseNode(ip, p.value, p.quoted).Ok? {
        var node := ParseNode(ip, p.value, p.quoted).value;
        ParamsIff(ip, texts[1..], seen + {p.name}, Some(node), hop);
        AcceptsFor(ip, p, rest, seen, found, node, hop);
      } else {
        RejectsBadFor(ip, p, rest, seen, found, hop);
      }
    }
  }

  /** The element is a list of parameters, none of them twice, whose `for` is the address. */
  ghost predicate ElementIs(ip: IpParser, element: string, hop: string) {
    var texts := Split(element, ';');
    texts.Ok? && TextsAre(ip, texts.value, hop)
  }

  ghost predicate TextsAre(ip: IpParser, texts: seq<string>, hop: string) {
    exists ps :: Stands(ip, texts, ps, hop)
  }

  ghost predicate Stands(ip: IpParser, texts: seq<string>, ps: seq<Pair>, hop: string) {
    PairTexts(texts, ps) && DistinctNames(ps) && ForIs(ip, ps, hop)
  }

  lemma TextsIff(ip: IpParser, texts: seq<string>, hop: string)
    ensures ForParam(ip, texts) == Ok(Some(hop)) <==> TextsAre(ip, texts, hop)
  {
    ParamsIff(ip, texts, {}, None, Some(hop));
    var parsed := Parsed(texts);
    if parsed.Ok? {
      ParsedIff(texts, parsed.value);
      if ForIs(ip, parsed.value, hop) { assert HasFor(parsed.value); }
      if DistinctNames(parsed.value) && ForIs(ip, parsed.value, hop) { assert Stands(ip, texts, parsed.value, hop); }
    }
    if TextsAre(ip, texts, hop) {
      var ps :| Stands(ip, texts, ps, hop);
      ParsedIff(texts, ps);
    }
  }

  lemma ParsedTexts(ip: IpParser, element: string, hop: string) returns (texts: seq<string>)
    requires ParseElement(ip, element) == Ok(hop)
    ensures Split(element, ';') == Ok(texts) && ForParam(ip, texts) == Ok(Some(hop))
  {
    texts := Split(element, ';').value;
    RequiredIs(ForParam(ip, texts), hop);
  }

  lemma RequiredIs(r: Result<Option<string>>, hop: string)
    ensures Required(r) == Ok(hop) <==> r == Ok(Some(hop))
  {
  }

  lemma ElementParses(ip: IpParser, element: string, texts: seq<string>, hop: string)
    requires Split(element, ';') == Ok(texts) && TextsAre(ip, texts, hop)
    ensures ParseElement(ip, element) == Ok(hop)
  {
    TextsIff(ip, texts, hop);
  }

  /** An element is parsed to exactly the address its `for` parameter is. */
  lemma ParseElementIff(ip: IpParser, element: string, hop: string)
    ensures ParseElement(ip, element) == Ok(hop) <==> ElementIs(ip, element, hop)
  {
    if ParseElement(ip, element) == Ok(hop) {
      var texts := ParsedTexts(ip, element, hop);
      TextsIff(ip, texts, hop);
    }
    if ElementIs(ip, element, hop) { ElementParses(ip, element, Split(element, ';').value, hop); }
  }

  /** A parameter that comes twice, whatever the case of its names, makes the element an error. */
  lemma RepeatedIsRejected(ip: IpParser, element: string, texts: seq<string>, i: int, j: int, p: Pair, q: Pair)
    requires Split(element, ';') == Ok(texts) && 0 <= i < j < |texts|
    requires PairText(texts[i], p) && PairText(texts[j], q) && p.name == q.name
    ensures ParseElement(ip, element) == Err
  {
    if ParseElement(ip, element).Ok? {
      ParseElementIff(ip, element, ParseElement(ip, element).value);
      var ps :| Stands(ip, texts, ps, ParseElement(ip, element).value);
      ParsePairIff(texts[i], p);
      ParsePairIff(texts[j], q);
      ParsePairIff(texts[i], ps[i]);
      ParsePairIff(texts[j], ps[j]);
    }
  }

  ghost predicate ElementsAre(ip: IpParser, elements: seq<string>, hops: seq<string>) {
    |elements| == |hops| && forall i :: 0 <= i < |elements| ==> ElementIs(ip, elements[i], hops[i])
  }

  lemma ElementsFirst(ip: IpParser, elements: seq<string>, hops: seq<string>)
    requires elements != [] && hops != []
    ensures ElementsAre(ip, elements, hops) <==>
            ElementIs(ip, elements[0], hops[0]) && ElementsAre(ip, elements[1..], hops[1..])
  {
    if ElementIs(ip, elements[0], hops[0]) && ElementsAre(ip, elements[1..], hops[1..]) {
      forall i | 0 <= i < |elements| ensures ElementIs(ip, elements[i], hops[i]) {
        if i > 0 { assert ElementIs(ip, elements[1..][i - 1], hops[1..][i - 1]); }
      }
    }
  }

  lemma {:induction false} ParseElementsIff(ip: IpParser, elements: seq<string>, hops: seq<string>)
    ensures ParseElements(ip, elements) == Ok(hops) <==> ElementsAre(ip, elements, hops)
  {
    if elements != [] && hops != [] {
      ParseElementIff(ip, elements[0], hops[0]);
      ParseElementsIff(ip, elements[1..], hops[1..]);
      ElementsFirst(ip, elements, hops);
      assert [hops[0]] + hops[1..] == hops;
      if ParseElements(ip, elements) == Ok(hops) { assert ParseElements(ip, elements[1..]).value == hops[1..]; }
    }
  }

  /** A chain is parsed to exactly the addresses its elements are, in order; anything else is an error. */
  lemma ParseChainIff(ip: IpParser, forwarded: string, hops: seq<string>)
    ensures ParseChain(ip, forwarded) == Ok(hops) <==>
            Split(forwarded, ',').Ok? && ElementsAre(ip, Split(forwarded, ',').value, hops)
  {
    if Split(forwarded, ',').Ok? { ParseElementsIff(ip, Split(forwarded, ',').value, hops); }
  }
}
