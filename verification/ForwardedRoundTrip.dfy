/**
 Printing a `Forwarded` chain and parsing it again: every parameter, with any
 quotable value, comes back, so the parser sees exactly the printed hops.
 */
module ForwardedRoundTrip {
  import opened Basics
  import opened Text
  import opened QuotedSplit
  import opened ForwardedHeader

  function PrintPairs(ps: seq<Pair>): (r: seq<string>)
    ensures |r| == |ps| && forall i :: 0 <= i < |ps| ==> r[i] == PrintPair(ps[i])
  {
    seq(|ps|, i requires 0 <= i < |ps| => PrintPair(ps[i]))
  }

  function PrintElement(ps: seq<Pair>): string {
    Join(PrintPairs(ps), ";")
  }

  /** Elements separated by a comma and a space. */
  function PrintChain(es: seq<seq<Pair>>): string {
    Join(Spaced(es), ",")
  }

  function Spaced(es: seq<seq<Pair>>): (r: seq<string>)
    ensures |r| == |es|
    ensures forall i :: 0 <= i < |es| ==> r[i] == (if i == 0 then "" else " ") + PrintElement(es[i])
  {
    seq(|es|, i requires 0 <= i < |es| => (if i == 0 then "" else " ") + PrintElement(es[i]))
  }

  /** One or more valid parameters with distinct names. */
  predicate ValidElement(ps: seq<Pair>) {
    && |ps| > 0
    && (forall i :: 0 <= i < |ps| ==> ValidPair(ps[i]))
    && (forall i, j :: 0 <= i < j < |ps| ==> ps[i].name != ps[j].name)
  }

  predicate Delimiter(d: char) {
    d == ',' || d == ';'
  }

  // ----- printed text has no stray delimiter and closed quotes -----

  lemma {:induction false} NoCutConcat(s: string, t: string, d: char, q: Quote)
    requires NoCut(s, d, q) && NoCut(t, d, ScanAll(q, s))
    ensures NoCut(s + t, d, q)
  {
    if s == "" {
      assert s + t == t;
    } else {
      assert (s + t)[1..] == s[1..] + t;
      NoCutConcat(s[1..], t, d, Scan(q, s[0]));
    }
  }

  lemma WholeConcat(s: string, t: string, d: char)
    requires WholePiece(s, d, Outside) && WholePiece(t, d, Outside)
    ensures WholePiece(s + t, d, Outside)
  {
    NoCutConcat(s, t, d, Outside);
    ScanConcat(Outside, s, t);
  }

  lemma {:induction false} PlainWhole(s: string, d: char)
    requires forall i :: 0 <= i < |s| ==> s[i] != '"' && s[i] != d
    ensures WholePiece(s, d, Outside)
  {
    if s != "" { PlainWhole(s[1..], d); }
  }

  lemma {:induction false} EscapeStaysInside(v: string, d: char)
    requires Delimiter(d)
    ensures NoCut(Escape(v), d, Inside) && ScanAll(Inside, Escape(v)) == Inside
  {
    if v != "" {
      EscapeStaysInside(v[1..], d);
      var e := Escape(v);
      if v[0] == '"' || v[0] == '\\' {
        assert e[1..][1..] == Escape(v[1..]);
      } else {
        assert e[1..] == Escape(v[1..]);
      }
    }
  }

  lemma QuotedWhole(v: string, d: char)
    requires Delimiter(d)
    ensures WholePiece(Quoted(v), d, Outside)
  {
    var tail := Escape(v) + "\"";
    EscapeStaysInside(v, d);
    ScanConcat(Inside, Escape(v), "\"");
    NoCutConcat(Escape(v), "\"", d, Inside);
    assert Quoted(v) == "\"" + tail && Quoted(v)[1..] == tail;
    assert "\""[1..] == "";
  }

  lemma TokenWhole(s: string, d: char)
    requires IsToken(s) && Delimiter(d)
    ensures WholePiece(s, d, Outside)
  {
    PlainWhole(s, d);
  }

  lemma PairWhole(p: Pair, d: char)
    requires ValidPair(p) && Delimiter(d)
    ensures WholePiece(PrintPair(p), d, Outside)
  {
    TokenWhole(p.name, d);
    PlainWhole("=", d);
    WholeConcat(p.name, "=", d);
    if p.quoted {
      QuotedWhole(p.value, d);
      WholeConcat(p.name + "=", Quoted(p.value), d);
    } else {
      TokenWhole(p.value, d);
      WholeConcat(p.name + "=", p.value, d);
    }
  }

  /** Text between two non-space ends needs no stripping. */
  lemma EndsStripped(s: string, middle: string, t: string)
    requires s != "" && t != "" && !IsSpace(s[0]) && !IsSpace(t[|t| - 1])
    ensures Stripped(s + middle + t) && Strip(s + middle + t) == s + middle + t
  {
    var u := s + middle + t;
    assert u[0] == s[0] && u[|u| - 1] == t[|t| - 1];
    StrippedStays(u);
  }

  lemma PairEnds(p: Pair)
    requires ValidPair(p)
    ensures p.name != "" && !IsSpace(p.name[0])
    ensures Raw(p) != "" && !IsSpace(Raw(p)[|Raw(p)| - 1])
  {
    TokenEnds(p.name);
    if !p.quoted { TokenEnds(p.value); }
  }

  lemma PairStripped(p: Pair)
    requires ValidPair(p)
    ensures PrintPair(p) != "" && Stripped(PrintPair(p)) && Strip(PrintPair(p)) == PrintPair(p)
  {
    PairEnds(p);
    EndsStripped(p.name, "=", Raw(p));
  }

  lemma TokenEnds(s: string)
    requires IsToken(s)
    ensures !IsSpace(s[0]) && !IsSpace(s[|s| - 1])
  {
    assert IsTokenChar(s[0]) && IsTokenChar(s[|s| - 1]);
  }

  /** A printed element splits at semicolons into its printed parameters. */
  lemma SplitPrintedElement(ps: seq<Pair>)
    requires ValidElement(ps)
    ensures Split(PrintElement(ps), ';') == Ok(PrintPairs(ps))
  {
    var parts := PrintPairs(ps);
    forall i | 0 <= i < |parts|
      ensures WholePiece(parts[i], ';', Outside) && Strip(parts[i]) == parts[i] && parts[i] != ""
    {
      PairWhole(ps[i], ';');
      PairStripped(ps[i]);
    }
    assert [';'] == ";";
    SplitOfJoin(parts, ';');
    assert StripAll(parts) == parts;
  }

  /** Joining whole, stripped, non-empty texts by a semicolon keeps all three for the comma. */
  lemma {:induction false} JoinWhole(parts: seq<string>)
    requires |parts| > 0
    requires forall i :: 0 <= i < |parts| ==> WholePiece(parts[i], ',', Outside) && parts[i] != "" && Stripped(parts[i])
    ensures WholePiece(Join(parts, ";"), ',', Outside)
    ensures Join(parts, ";") != "" && Stripped(Join(parts, ";"))
  {
    if |parts| > 1 {
      var rest := Join(parts[1..], ";");
      JoinWhole(parts[1..]);
      PlainWhole(";", ',');
      WholeConcat(parts[0], ";", ',');
      WholeConcat(parts[0] + ";", rest, ',');
      var s := parts[0] + ";" + rest;
      assert s[0] == parts[0][0] && s[|s| - 1] == rest[|rest| - 1];
    }
  }

  lemma ElementWhole(ps: seq<Pair>)
    requires ValidElement(ps)
    ensures WholePiece(PrintElement(ps), ',', Outside)
    ensures PrintElement(ps) != "" && Stripped(PrintElement(ps))
  {
    var parts := PrintPairs(ps);
    forall i | 0 <= i < |parts|
      ensures WholePiece(parts[i], ',', Outside) && parts[i] != "" && Stripped(parts[i])
    {
      PairWhole(ps[i], ',');
      PairStripped(ps[i]);
    }
    JoinWhole(parts);
  }

  lemma SpacedWhole(ps: seq<Pair>, prefix: string)
    requires ValidElement(ps) && (prefix == "" || prefix == " ")
    ensures WholePiece(prefix + PrintElement(ps), ',', Outside)
    ensures Strip(prefix + PrintElement(ps)) == PrintElement(ps) && PrintElement(ps) != ""
  {
    var e := PrintElement(ps);
    ElementWhole(ps);
    PlainWhole(prefix, ',');
    WholeConcat(prefix, e, ',');
    StrippedStays(e);
    if prefix == " " {
      assert (prefix + e)[1..] == e;
    } else {
      assert prefix + e == e;
    }
  }

  function PrintElements(es: seq<seq<Pair>>): (r: seq<string>)
    ensures |r| == |es| && forall i :: 0 <= i < |es| ==> r[i] == PrintElement(es[i])
  {
    seq(|es|, i requires 0 <= i < |es| => PrintElement(es[i]))
  }

  /** A printed chain splits at commas into its printed elements. */
  lemma SplitPrintedChain(es: seq<seq<Pair>>)
    requires |es| > 0 && forall i :: 0 <= i < |es| ==> ValidElement(es[i])
    ensures Split(PrintChain(es), ',') == Ok(PrintElements(es))
  {
    var parts := Spaced(es);
    forall i | 0 <= i < |parts|
      ensures WholePiece(parts[i], ',', Outside) && Strip(parts[i]) == PrintElement(es[i]) && Strip(parts[i]) != ""
    {
      SpacedWhole(es[i], if i == 0 then "" else " ");
    }
    assert [','] == ",";
    SplitOfJoin(parts, ',');
    assert StripAll(parts) == PrintElements(es);
  }

  // ----- what the printed parameters mean -----

  /** The hop a list of parameters names: the node of its `for` parameter. */
  function ForHop(ip: IpParser, ps: seq<Pair>, found: Option<string>): Result<Option<string>> {
    if ps == [] then Ok(found)
    else if ps[0].name == "for" then
      var hop := ParseNode(ip, ps[0].value, ps[0].quoted);
      if hop.Err? then Err else ForHop(ip, ps[1..], Some(hop.value))
    else ForHop(ip, ps[1..], found)
  }

  function ElementHop(ip: IpParser, ps: seq<Pair>): Result<string> {
    var hop := ForHop(ip, ps, None);
    if hop.Err? || hop.value.None? then Err else Ok(hop.value.value)
  }

  function ChainHops(ip: IpParser, es: seq<seq<Pair>>): Result<seq<string>> {
    if es == [] then Ok([])
    else
      var hop := ElementHop(ip, es[0]);
      if hop.Err? then Err else Collected([hop.value], ChainHops(ip, es[1..]))
  }

  lemma RestOfElement(ps: seq<Pair>, seen: set<string>)
    requires ValidElement(ps) && forall i :: 0 <= i < |ps| ==> ps[i].name !in seen
    ensures ps[1..] == [] || ValidElement(ps[1..])
    ensures forall i :: 0 <= i < |ps[1..]| ==> ps[1..][i].name !in seen + {ps[0].name}
    ensures PrintPairs(ps)[1..] == PrintPairs(ps[1..])
  {
  }

  lemma {:induction false} ParamsOfPrinted(ip: IpParser, ps: seq<Pair>, seen: set<string>, found: Option<string>)
    requires ps == [] || ValidElement(ps)
    requires forall i :: 0 <= i < |ps| ==> ps[i].name !in seen
    ensures ParseParams(ip, PrintPairs(ps), seen, found) == ForHop(ip, ps, found)
    decreases ps
  {
    if ps != [] {
      ParsePrintedPair(ps[0]);
      RestOfElement(ps, seen);
      var found' := if ps[0].name == "for" then
                      var hop := ParseNode(ip, ps[0].value, ps[0].quoted);
                      if hop.Err? then None else Some(hop.value)
                    else found;
      ParamsOfPrinted(ip, ps[1..], seen + {ps[0].name}, found');
    }
  }

  lemma ElementOfPrinted(ip: IpParser, ps: seq<Pair>)
    requires ValidElement(ps)
    ensures ParseElement(ip, PrintElement(ps)) == ElementHop(ip, ps)
  {
    SplitPrintedElement(ps);
    ParamsOfPrinted(ip, ps, {}, None);
  }

  lemma {:induction false} ElementsOfPrinted(ip: IpParser, es: seq<seq<Pair>>)
    requires forall i :: 0 <= i < |es| ==> ValidElement(es[i])
    ensures ParseElements(ip, PrintElements(es)) == ChainHops(ip, es)
  {
    if es != [] {
      ElementOfPrinted(ip, es[0]);
      assert PrintElements(es)[1..] == PrintElements(es[1..]);
      ElementsOfPrinted(ip, es[1..]);
    }
  }

  /** Parsing a printed chain yields exactly the hops its `for` parameters name, errors included. */
  lemma ParsePrintedChain(ip: IpParser, es: seq<seq<Pair>>)
    requires |es| > 0 && forall i :: 0 <= i < |es| ==> ValidElement(es[i])
    ensures ParseChain(ip, PrintChain(es)) == ChainHops(ip, es)
  {
    SplitPrintedChain(es);
    ElementsOfPrinted(ip, es);
  }

  // ----- chains of addresses -----

  predicate IsV4Char(c: char) {
    IsDigit(c) || c == '.'
  }

  predicate IsV6Char(c: char) {
    IsDigit(c) || 'a' <= c <= 'f' || c == ':' || c == '.'
  }

  /** The text the address parser gives back for itself, in the alphabet of its version. */
  predicate Canonical(ip: IpParser, hop: string) {
    && hop != ""
    && ((ip(hop) == Some(Ip(4, hop)) && All(hop, IsV4Char)) || (ip(hop) == Some(Ip(6, hop)) && All(hop, IsV6Char)))
  }

  /** A hop as a proxy writes it, with the port it saw if it says so. */
  datatype Node = Node(hop: string, port: Option<string>)

  function NodeText(ip: IpParser, n: Node): string {
    (if IsV6(ip, n) then "[" + n.hop + "]" else n.hop) + (if n.port.Some? then ":" + n.port.value else "")
  }

  predicate IsV6(ip: IpParser, n: Node) {
    ip(n.hop).Some? && ip(n.hop).value.version == 6
  }

  /** No address parser takes an IPv4 address with a port for an address. */
  predicate ValidNode(ip: IpParser, n: Node) {
    && Canonical(ip, n.hop)
    && (n.port.Some? ==> ValidPort(n.port.value) && (!IsV6(ip, n) ==> ip(NodeText(ip, n)).None?))
  }

  /** Plain IPv4 addresses print bare; brackets and ports need quotes. */
  function NodeElement(ip: IpParser, n: Node): seq<Pair> {
    [Pair("for", NodeText(ip, n), IsV6(ip, n) || n.port.Some?)]
  }

  function NodeElements(ip: IpParser, nodes: seq<Node>): (es: seq<seq<Pair>>)
    ensures |es| == |nodes| && forall i :: 0 <= i < |nodes| ==> es[i] == NodeElement(ip, nodes[i])
  {
    seq(|nodes|, i requires 0 <= i < |nodes| => NodeElement(ip, nodes[i]))
  }

  function Hops(nodes: seq<Node>): (hops: seq<string>)
    ensures |hops| == |nodes| && forall i :: 0 <= i < |nodes| ==> hops[i] == nodes[i].hop
  {
    seq(|nodes|, i requires 0 <= i < |nodes| => nodes[i].hop)
  }

  lemma NotUnknown(s: string)
    requires s != "" && (IsDigit(s[0]) || s[0] == '.' || s[0] == '[')
    ensures LowerAll(s) != "unknown"
  {
    assert LowerAll(s)[0] == Lower(s[0]);
  }

  /** A bracketed address parses to itself, and its port, if any, changes nothing. */
  lemma BracketedParses(ip: IpParser, n: Node)
    requires ValidNode(ip, n) && IsV6(ip, n)
    ensures ParseNode(ip, NodeText(ip, n), true) == Ok(n.hop)
  {
    var suffix := if n.port.Some? then ":" + n.port.value else "";
    var s := NodeText(ip, n);
    assert s == ("[" + n.hop) + [']'] + suffix;
    NotUnknown(s);
    assert ']' !in "[" + n.hop && '%' !in n.hop;
    FindAt("[" + n.hop, ']', suffix);
    assert s[1..|n.hop| + 1] == n.hop && s[|n.hop| + 2..] == suffix;
    if n.port.Some? { assert suffix[1..] == n.port.value; }
  }

  /** An IPv4 address with a port parses to the address. */
  lemma PortedParses(ip: IpParser, n: Node)
    requires ValidNode(ip, n) && !IsV6(ip, n) && n.port.Some?
    ensures ParseNode(ip, NodeText(ip, n), true) == Ok(n.hop)
  {
    var s, port := NodeText(ip, n), n.port.value;
    assert s == n.hop + [':'] + port;
    assert IsV4Char(n.hop[0]) && s[0] == n.hop[0];
    NotUnknown(s);
    assert ':' !in port && ':' !in n.hop;
    FindLastAt(n.hop, ':', port);
    assert s[..|n.hop|] == n.hop && s[|n.hop| + 1..] == port;
  }

  lemma BareParses(ip: IpParser, n: Node)
    requires ValidNode(ip, n) && !IsV6(ip, n) && n.port.None?
    ensures NodeText(ip, n) == n.hop && IsToken(n.hop) && ParseNode(ip, n.hop, false) == Ok(n.hop)
  {
    assert IsV4Char(n.hop[0]);
    NotUnknown(n.hop);
  }

  lemma NodeQuotable(ip: IpParser, n: Node)
    requires ValidNode(ip, n)
    ensures All(NodeText(ip, n), Quotable)
  {
    assert All(n.hop, Quotable);
    if n.port.Some? { assert All(n.port.value, Quotable); }
  }

  lemma NodeElementParses(ip: IpParser, n: Node)
    requires ValidNode(ip, n)
    ensures ValidElement(NodeElement(ip, n)) && ElementHop(ip, NodeElement(ip, n)) == Ok(n.hop)
  {
    var p := NodeElement(ip, n)[0];
    assert IsToken("for") && LowerAll("for") == "for";
    assert NodeElement(ip, n)[1..] == [];
    NodeQuotable(ip, n);
    if IsV6(ip, n) {
      BracketedParses(ip, n);
    } else if n.port.Some? {
      PortedParses(ip, n);
    } else {
      BareParses(ip, n);
    }
    assert ForHop(ip, [p], None) == ForHop(ip, [], Some(n.hop));
  }

  lemma {:induction false} ChainHopsOfNodes(ip: IpParser, nodes: seq<Node>)
    requires forall i :: 0 <= i < |nodes| ==> ValidNode(ip, nodes[i])
    ensures ChainHops(ip, NodeElements(ip, nodes)) == Ok(Hops(nodes))
  {
    if nodes != [] {
      var es := NodeElements(ip, nodes);
      assert es[0] == NodeElement(ip, nodes[0]) && es[1..] == NodeElements(ip, nodes[1..]);
      assert ElementHop(ip, es[0]) == Ok(nodes[0].hop) by { NodeElementParses(ip, nodes[0]); }
      ChainHopsOfNodes(ip, nodes[1..]);
      assert [nodes[0].hop] + Hops(nodes[1..]) == Hops(nodes);
    }
  }

  /** Printing hops, with or without ports, and parsing the header gives the hops back. */
  lemma HopsRoundTrip(ip: IpParser, nodes: seq<Node>)
    requires |nodes| > 0 && forall i :: 0 <= i < |nodes| ==> ValidNode(ip, nodes[i])
    ensures ParseChain(ip, PrintChain(NodeElements(ip, nodes))) == Ok(Hops(nodes))
  {
    var es := NodeElements(ip, nodes);
    forall i | 0 <= i < |es| ensures ValidElement(es[i]) { NodeElementParses(ip, nodes[i]); }
    ParsePrintedChain(ip, es);
    ChainHopsOfNodes(ip, nodes);
  }
}
