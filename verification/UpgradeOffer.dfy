/**
 Upgrade offers in request headers (sections 5.3 and 7.8 of RFC 9110): finding
 them, and removing a declined one together with its hop-by-hop headers.
 Header names are already lower case.
 */
module UpgradeOffer {
  import opened Basics
  import opened Text

  type Bytes = string

  datatype Header = Header(name: Bytes, value: Bytes)

  /** The characters `bytes.strip()` removes. */
  predicate IsByteSpace(c: char) {
    c == ' ' || 0x09 <= c as int <= 0x0D
  }

  function TrimLeft(s: Bytes): Bytes {
    if s != "" && IsByteSpace(s[0]) then TrimLeft(s[1..]) else s
  }

  function TrimRight(s: Bytes): Bytes {
    if s != "" && IsByteSpace(s[|s| - 1]) then TrimRight(s[..|s| - 1]) else s
  }

  function Trim(s: Bytes): Bytes {
    TrimRight(TrimLeft(s))
  }

  function LowerByte(c: char): char {
    if 'A' <= c <= 'Z' then (c as int + 32) as char else c
  }

  function LowerBytes(s: Bytes): (r: Bytes)
    ensures |r| == |s|
  {
    seq(|s|, i requires 0 <= i < |s| => LowerByte(s[i]))
  }

  /** The trimmed members of a comma-separated list, empty ones included. */
  function Members(value: Bytes): (r: seq<Bytes>)
    ensures |r| == |SplitOn(value, ',')|
    ensures forall i :: 0 <= i < |r| ==> r[i] == Trim(SplitOn(value, ',')[i])
  {
    var parts := SplitOn(value, ',');
    seq(|parts|, i requires 0 <= i < |parts| => Trim(parts[i]))
  }

  function LowerMembers(members: seq<Bytes>): (r: seq<Bytes>)
    ensures |r| == |members| && forall i :: 0 <= i < |r| ==> r[i] == LowerBytes(members[i])
  {
    seq(|members|, i requires 0 <= i < |members| => LowerBytes(members[i]))
  }

  function NonEmpty(members: seq<Bytes>): seq<Bytes> {
    if members == [] then []
    else (if members[0] == "" then [] else [members[0]]) + NonEmpty(members[1..])
  }

  /** The members of every field with this name, combined in order. */
  function Combined(headers: seq<Header>, name: Bytes): seq<Bytes> {
    if headers == [] then []
    else (if headers[0].name == name then Members(headers[0].value) else []) + Combined(headers[1..], name)
  }

  /** The protocol the request offers to switch to, preferring WebSocket. */
  function Offer(headers: seq<Header>): Option<Bytes> {
    var connection := LowerMembers(Combined(headers, "connection"));
    var upgrade := NonEmpty(LowerMembers(Combined(headers, "upgrade")));
    if "upgrade" !in connection || upgrade == [] then None
    else if "websocket" in upgrade then Some("websocket")
    else Some(upgrade[0])
  }

  predicate Ignorable(headers: seq<Header>) {
    Offer(headers).Some? && Offer(headers).value != "websocket"
  }

  // ----- removing a declined offer -----

  predicate IsHopByHop(name: Bytes) {
    name == "upgrade" || name == "http2-settings"
  }

  predicate Kept(member: Bytes) {
    member != "" && !IsHopByHop(LowerBytes(member))
  }

  function KeepMembers(members: seq<Bytes>): (r: seq<Bytes>)
    ensures forall m :: m in r ==> m in members && Kept(m)
  {
    if members == [] then []
    else (if Kept(members[0]) then [members[0]] else []) + KeepMembers(members[1..])
  }

  /** What one header becomes: itself, a shorter connection list, or nothing. */
  function Sanitize(h: Header): seq<Header> {
    if IsHopByHop(h.name) then []
    else if h.name == "connection" then
      var kept := KeepMembers(Members(h.value));
      if kept == [] then [] else [Header(h.name, Join(kept, ", "))]
    else [h]
  }

  function WithoutUpgrade(headers: seq<Header>): seq<Header> {
    if headers == [] then [] else Sanitize(headers[0]) + WithoutUpgrade(headers[1..])
  }

  method WithoutUpgradeHeaders(headers: seq<Header>) returns (sanitized: seq<Header>)
    ensures sanitized == WithoutUpgrade(headers)
  {
    sanitized := [];
    WithoutUpgradeSplit(headers, 0);
    for i := 0 to |headers|
      invariant sanitized == WithoutUpgrade(headers[..i])
    {
      var h := headers[i];
      WithoutUpgradeSplit(headers, i);
      var kept: seq<Header> := [];
      if IsHopByHop(h.name) {
      } else if h.name == "connection" {
        var members := KeepMembers(Members(h.value));
        if members != [] {
          kept := [Header(h.name, Join(members, ", "))];
        }
      } else {
        kept := [h];
      }
      sanitized := sanitized + kept;
    }
    assert headers[..|headers|] == headers;
  }

  lemma {:induction false} WithoutUpgradeConcat(g: seq<Header>, h: seq<Header>)
    ensures WithoutUpgrade(g + h) == WithoutUpgrade(g) + WithoutUpgrade(h)
  {
    if g == [] {
      assert g + h == h;
    } else {
      assert (g + h)[1..] == g[1..] + h;
      WithoutUpgradeConcat(g[1..], h);
      var x, y, z := Sanitize(g[0]), WithoutUpgrade(g[1..]), WithoutUpgrade(h);
      assert x + (y + z) == (x + y) + z;
    }
  }

  lemma WithoutUpgradeSplit(headers: seq<Header>, i: int)
    requires 0 <= i <= |headers|
    ensures i < |headers| ==> WithoutUpgrade(headers[..i + 1]) == WithoutUpgrade(headers[..i]) + Sanitize(headers[i])
  {
    if i < |headers| {
      assert headers[..i + 1] == headers[..i] + [headers[i]];
      WithoutUpgradeConcat(headers[..i], [headers[i]]);
      assert [headers[i]][1..] == [];
      assert WithoutUpgrade([headers[i]]) == Sanitize(headers[i]) + [];
    }
  }

  // ----- members survive being joined and split again -----

  /** A list member as splitting and trimming leaves it, and not empty. */
  predicate IsMember(m: Bytes) {
    m != "" && ',' !in m && !IsByteSpace(m[0]) && !IsByteSpace(m[|m| - 1])
  }

  lemma {:induction false} TrimLeftFacts(s: Bytes)
    ensures TrimLeft(s) == "" || !IsByteSpace(TrimLeft(s)[0])
    ensures forall c :: c in TrimLeft(s) ==> c in s
  {
    if s != "" && IsByteSpace(s[0]) { TrimLeftFacts(s[1..]); }
  }

  lemma {:induction false} TrimRightFacts(s: Bytes)
    ensures TrimRight(s) == "" || (!IsByteSpace(TrimRight(s)[|TrimRight(s)| - 1]) && TrimRight(s)[0] == s[0])
    ensures forall c :: c in TrimRight(s) ==> c in s
  {
    if s != "" && IsByteSpace(s[|s| - 1]) { TrimRightFacts(s[..|s| - 1]); }
  }

  lemma {:induction false} PiecesWithoutDelimiter(s: Bytes, d: char, i: int)
    requires 0 <= i < |SplitOn(s, d)|
    ensures d !in SplitOn(s, d)[i]
  {
    if s != "" {
      if s[0] == d {
        if i > 0 { PiecesWithoutDelimiter(s[1..], d, i - 1); }
      } else {
        PiecesWithoutDelimiter(s[1..], d, i);
      }
    }
  }

  lemma MembersAreMembers(value: Bytes, m: Bytes)
    requires m in Members(value) && m != ""
    ensures IsMember(m)
  {
    var i :| 0 <= i < |Members(value)| && Members(value)[i] == m;
    var piece := SplitOn(value, ',')[i];
    PiecesWithoutDelimiter(value, ',', i);
    TrimLeftFacts(piece);
    TrimRightFacts(TrimLeft(piece));
  }

  lemma TrimMember(m: Bytes, prefix: Bytes)
    requires IsMember(m) && (prefix == "" || prefix == " ")
    ensures Trim(prefix + m) == m
  {
    assert TrimLeft(m) == m && TrimRight(m) == m;
    if prefix == " " {
      assert (prefix + m)[0] == ' ' && (prefix + m)[1..] == m;
    } else {
      assert prefix + m == m;
    }
  }

  lemma Regroup(a: Bytes, b: Bytes, c: Bytes)
    ensures (a + b) + c == a + (b + c)
  {
  }

  lemma JoinedOpens(members: seq<Bytes>, prefix: Bytes)
    requires |members| > 1
    ensures prefix + Join(members, ", ") == (prefix + members[0]) + [','] + (" " + Join(members[1..], ", "))
  {
    var first, rest := members[0], Join(members[1..], ", ");
    assert ", " == [','] + " ";
    Regroup(prefix, first + ", ", rest);
    Regroup(prefix, first, ", ");
    Regroup(prefix + first, [','], " ");
    Regroup((prefix + first) + [','], " ", rest);
  }

  lemma NoCommaIn(m: Bytes, prefix: Bytes)
    requires IsMember(m) && (prefix == "" || prefix == " ")
    ensures ',' !in prefix + m
  {
  }

  lemma MembersOfLast(m: Bytes, prefix: Bytes)
    requires IsMember(m) && (prefix == "" || prefix == " ")
    ensures Members(prefix + m) == [m]
  {
    NoCommaIn(m, prefix);
    TrimMember(m, prefix);
    SplitOnJoined(prefix + m, ',', "");
  }

  lemma MembersOfFirst(m: Bytes, prefix: Bytes, tail: Bytes)
    requires IsMember(m) && (prefix == "" || prefix == " ")
    ensures Members((prefix + m) + [','] + tail) == [m] + Members(tail)
  {
    NoCommaIn(m, prefix);
    TrimMember(m, prefix);
    SplitOnJoined(prefix + m, ',', tail);
    MembersOfSplit((prefix + m) + [','] + tail, prefix + m, tail);
  }

  lemma {:induction false} MembersOfJoined(members: seq<Bytes>, prefix: Bytes)
    requires |members| > 0 && forall m :: m in members ==> IsMember(m)
    requires prefix == "" || prefix == " "
    ensures Members(prefix + Join(members, ", ")) == members
    decreases |members|
  {
    assert members[0] in members;
    if |members| == 1 {
      MembersOfLast(members[0], prefix);
      assert members == [members[0]];
    } else {
      JoinedOpens(members, prefix);
      assert forall m :: m in members[1..] ==> m in members;
      MembersOfJoined(members[1..], " ");
      MembersOfFirst(members[0], prefix, " " + Join(members[1..], ", "));
      assert [members[0]] + members[1..] == members;
    }
  }

  lemma MembersOfSplit(value: Bytes, first: Bytes, rest: Bytes)
    requires SplitOn(value, ',') == [first] + SplitOn(rest, ',')
    ensures Members(value) == [Trim(first)] + Members(rest)
  {
  }

  lemma {:induction false} KeepIsStable(members: seq<Bytes>)
    requires forall m :: m in members ==> Kept(m)
    ensures KeepMembers(members) == members
  {
    if members != [] {
      assert members[0] in members && forall m :: m in members[1..] ==> m in members;
      KeepIsStable(members[1..]);
      assert [members[0]] + members[1..] == members;
    }
  }

  /** What a connection header keeps is what its rewritten value lists. */
  lemma KeptSurvive(value: Bytes)
    requires KeepMembers(Members(value)) != []
    ensures Members(Join(KeepMembers(Members(value)), ", ")) == KeepMembers(Members(value))
  {
    var kept := KeepMembers(Members(value));
    forall m | m in kept ensures IsMember(m) { MembersAreMembers(value, m); }
    MembersOfJoined(kept, "");
    assert "" + Join(kept, ", ") == Join(kept, ", ");
  }

  // ----- what sanitizing does -----

  lemma {:induction false} CombinedConcat(g: seq<Header>, h: seq<Header>, name: Bytes)
    ensures Combined(g + h, name) == Combined(g, name) + Combined(h, name)
  {
    if g == [] {
      assert g + h == h;
    } else {
      assert (g + h)[1..] == g[1..] + h;
      CombinedConcat(g[1..], h, name);
      var x, y, z := if g[0].name == name then Members(g[0].value) else [], Combined(g[1..], name), Combined(h, name);
      assert x + (y + z) == (x + y) + z;
    }
  }

  lemma CombinedOfOne(h: Header, name: Bytes)
    ensures Combined([h], name) == if h.name == name then Members(h.value) else []
  {
    assert [h][1..] == [];
  }

  lemma {:induction false} KeepConcat(x: seq<Bytes>, y: seq<Bytes>)
    ensures KeepMembers(x + y) == KeepMembers(x) + KeepMembers(y)
  {
    if x == [] {
      assert x + y == y;
    } else {
      assert (x + y)[1..] == x[1..] + y;
      KeepConcat(x[1..], y);
      var a, b, c := if Kept(x[0]) then [x[0]] else [], KeepMembers(x[1..]), KeepMembers(y);
      assert a + (b + c) == (a + b) + c;
    }
  }

  lemma SanitizeConnection(h: Header)
    ensures Combined(Sanitize(h), "connection") == if h.name == "connection" then KeepMembers(Members(h.value)) else []
    ensures Combined(Sanitize(h), "upgrade") == []
  {
    if h.name == "connection" && KeepMembers(Members(h.value)) != [] {
      KeptSurvive(h.value);
      CombinedOfOne(Sanitize(h)[0], "connection");
      CombinedOfOne(Sanitize(h)[0], "upgrade");
    } else if Sanitize(h) == [h] {
      CombinedOfOne(h, "connection");
      CombinedOfOne(h, "upgrade");
    }
  }

  /** The connection options left are the original ones in order, without the offer's own. */
  lemma {:induction false} ConnectionOptionsKept(headers: seq<Header>)
    ensures Combined(WithoutUpgrade(headers), "connection") == KeepMembers(Combined(headers, "connection"))
    ensures Combined(WithoutUpgrade(headers), "upgrade") == []
  {
    if headers != [] {
      var h, rest := headers[0], headers[1..];
      ConnectionOptionsKept(rest);
      SanitizeConnection(h);
      CombinedConcat(Sanitize(h), WithoutUpgrade(rest), "connection");
      CombinedConcat(Sanitize(h), WithoutUpgrade(rest), "upgrade");
      KeepConcat(if h.name == "connection" then Members(h.value) else [], Combined(rest, "connection"));
    }
  }

  /** No offer is left. */
  lemma SanitizedOffersNothing(headers: seq<Header>)
    ensures Offer(WithoutUpgrade(headers)) == None
  {
    ConnectionOptionsKept(headers);
  }

  /** The offer's own headers go, and so do their names from the connection lists; every other option stays. */
  lemma {:induction false} KeptExactly(members: seq<Bytes>, m: Bytes)
    ensures m in KeepMembers(members) <==>
            m in members && m != "" && LowerBytes(m) != "upgrade" && LowerBytes(m) != "http2-settings"
  {
    if members != [] { KeptExactly(members[1..], m); }
  }

  lemma {:induction false} OwnHeadersGo(headers: seq<Header>, h: Header)
    requires h in WithoutUpgrade(headers)
    ensures h.name != "upgrade" && h.name != "http2-settings"
    ensures h.name == "connection" ==> forall m :: m in Members(h.value) ==> Kept(m)
    ensures h.name != "connection" ==> h in headers
  {
    if h in Sanitize(headers[0]) {
      if h.name == "connection" {
        KeptSurvive(headers[0].value);
      }
    } else {
      OwnHeadersGo(headers[1..], h);
    }
  }

  lemma {:induction false} OtherHeaderStays(headers: seq<Header>, h: Header)
    requires h in headers && h.name != "upgrade" && h.name != "http2-settings" && h.name != "connection"
    ensures h in WithoutUpgrade(headers)
  {
    if h != headers[0] { OtherHeaderStays(headers[1..], h); }
  }

  /** The headers that are neither the offer's own nor connection lists. */
  function Others(headers: seq<Header>): seq<Header> {
    if headers == [] then []
    else (if IsHopByHop(headers[0].name) || headers[0].name == "connection" then [] else [headers[0]]) + Others(headers[1..])
  }

  lemma {:induction false} OthersConcat(g: seq<Header>, h: seq<Header>)
    ensures Others(g + h) == Others(g) + Others(h)
  {
    if g == [] {
      assert g + h == h;
    } else {
      assert (g + h)[1..] == g[1..] + h;
      OthersConcat(g[1..], h);
      var x := if IsHopByHop(g[0].name) || g[0].name == "connection" then [] else [g[0]];
      assert x + (Others(g[1..]) + Others(h)) == (x + Others(g[1..])) + Others(h);
    }
  }

  /** Every other header is kept as it was, in order. */
  lemma {:induction false} OtherHeadersKept(headers: seq<Header>)
    ensures Others(WithoutUpgrade(headers)) == Others(headers)
  {
    if headers != [] {
      OtherHeadersKept(headers[1..]);
      OthersConcat(Sanitize(headers[0]), WithoutUpgrade(headers[1..]));
      if Sanitize(headers[0]) != [] { assert Sanitize(headers[0])[1..] == []; }
    }
  }

  lemma SanitizeTwice(h: Header)
    ensures WithoutUpgrade(Sanitize(h)) == Sanitize(h)
  {
    if Sanitize(h) != [] {
      var s := Sanitize(h)[0];
      assert Sanitize(h) == [s] && [s][1..] == [];
      assert WithoutUpgrade([s]) == Sanitize(s) + [];
      if h.name == "connection" {
        KeptSurvive(h.value);
        KeepIsStable(KeepMembers(Members(h.value)));
      }
    }
  }

  /** Sanitizing is idempotent. */
  lemma {:induction false} SanitizingIsIdempotent(headers: seq<Header>)
    ensures WithoutUpgrade(WithoutUpgrade(headers)) == WithoutUpgrade(headers)
  {
    if headers != [] {
      SanitizingIsIdempotent(headers[1..]);
      SanitizeTwice(headers[0]);
      WithoutUpgradeConcat(Sanitize(headers[0]), WithoutUpgrade(headers[1..]));
    }
  }

  lemma LowerConcat(x: seq<Bytes>, y: seq<Bytes>)
    ensures LowerMembers(x + y) == LowerMembers(x) + LowerMembers(y)
  {
  }

  lemma {:induction false} NonEmptyConcat(x: seq<Bytes>, y: seq<Bytes>)
    ensures NonEmpty(x + y) == NonEmpty(x) + NonEmpty(y)
  {
    if x == [] {
      assert x + y == y;
    } else {
      assert (x + y)[1..] == x[1..] + y;
      NonEmptyConcat(x[1..], y);
      var a := if x[0] == "" then [] else [x[0]];
      assert a + (NonEmpty(x[1..]) + NonEmpty(y)) == (a + NonEmpty(x[1..])) + NonEmpty(y);
    }
  }

  lemma CombinedStep(headers: seq<Header>, i: int, name: Bytes)
    requires 0 <= i < |headers|
    ensures Combined(headers[..i + 1], name) ==
            Combined(headers[..i], name) + if headers[i].name == name then Members(headers[i].value) else []
  {
    assert headers[..i + 1] == headers[..i] + [headers[i]];
    CombinedConcat(headers[..i], [headers[i]], name);
    CombinedOfOne(headers[i], name);
  }

  /** One field with two members says what two fields with one member each say. */
  lemma CombinedFields(name: Bytes, a: Bytes, b: Bytes, key: Bytes)
    ensures Combined([Header(name, a + "," + b)], key) == Combined([Header(name, a), Header(name, b)], key)
  {
    SplitOnConcat(a, ',', b);
    assert Members(a + "," + b) == Members(a) + Members(b);
    CombinedOfOne(Header(name, a + "," + b), key);
    CombinedOfOne(Header(name, b), key);
    assert [Header(name, a), Header(name, b)][1..] == [Header(name, b)];
  }

  /** Whether a sender repeats a field or writes one comma-separated list never changes the offer. */
  lemma RepeatedFieldsCombine(g: seq<Header>, name: Bytes, a: Bytes, b: Bytes, h: seq<Header>)
    ensures Offer(g + [Header(name, a), Header(name, b)] + h) == Offer(g + [Header(name, a + "," + b)] + h)
  {
    var two, one := [Header(name, a), Header(name, b)], [Header(name, a + "," + b)];
    forall key ensures Combined(g + two + h, key) == Combined(g + one + h, key) {
      CombinedFields(name, a, b, key);
      CombinedConcat(g, two, key);
      CombinedConcat(g + two, h, key);
      CombinedConcat(g, one, key);
      CombinedConcat(g + one, h, key);
    }
  }

  function ConnectionTokens(headers: seq<Header>): seq<Bytes> {
    LowerMembers(Combined(headers, "connection"))
  }

  function UpgradeTokens(headers: seq<Header>): seq<Bytes> {
    NonEmpty(LowerMembers(Combined(headers, "upgrade")))
  }

  lemma ConnectionStep(headers: seq<Header>, i: int)
    requires 0 <= i < |headers|
    ensures ConnectionTokens(headers[..i + 1]) == ConnectionTokens(headers[..i]) +
            if headers[i].name == "connection" then LowerMembers(Members(headers[i].value)) else []
  {
    CombinedStep(headers, i, "connection");
    LowerConcat(Combined(headers[..i], "connection"), Members(headers[i].value));
  }

  lemma UpgradeStep(headers: seq<Header>, i: int)
    requires 0 <= i < |headers|
    ensures UpgradeTokens(headers[..i + 1]) == UpgradeTokens(headers[..i]) +
            if headers[i].name == "upgrade" then NonEmpty(LowerMembers(Members(headers[i].value))) else []
  {
    CombinedStep(headers, i, "upgrade");
    LowerConcat(Combined(headers[..i], "upgrade"), Members(headers[i].value));
    NonEmptyConcat(LowerMembers(Combined(headers[..i], "upgrade")), LowerMembers(Members(headers[i].value)));
    var before := Combined(headers[..i], "upgrade");
    assert before + [] == before;
  }

  // ----- which protocol is offered -----

  /** Some field of this name lists the token, in any case. */
  ghost predicate Lists(headers: seq<Header>, name: Bytes, token: Bytes) {
    exists i, j :: At(headers, name, i, j) && LowerBytes(Members(headers[i].value)[j]) == token
  }

  /** Member `j` of field `i`, which has this name. */
  predicate At(headers: seq<Header>, name: Bytes, i: int, j: int) {
    0 <= i < |headers| && headers[i].name == name && 0 <= j < |Members(headers[i].value)|
  }

  /** The first member of the fields of this name that is not empty. */
  ghost predicate FirstAt(headers: seq<Header>, name: Bytes, i: int, j: int) {
    && At(headers, name, i, j) && Members(headers[i].value)[j] != ""
    && forall k, l :: At(headers, name, k, l) && (k < i || (k == i && l < j)) ==> Members(headers[k].value)[l] == ""
  }

  lemma AtRest(headers: seq<Header>, name: Bytes, i: int, j: int)
    requires headers != []
    ensures At(headers[1..], name, i, j) <==> At(headers, name, i + 1, j) && i >= 0
  {
  }

  /** The combined members are those of the fields. */
  lemma {:induction false} CombinedLists(headers: seq<Header>, name: Bytes, token: Bytes)
    ensures token in LowerMembers(Combined(headers, name)) <==> Lists(headers, name, token)
  {
    if headers != [] {
      var first := if headers[0].name == name then Members(headers[0].value) else [];
      var rest := Combined(headers[1..], name);
      LowerConcat(first, rest);
      CombinedLists(headers[1..], name, token);
      if token in LowerMembers(first) {
        var j :| 0 <= j < |LowerMembers(first)| && LowerMembers(first)[j] == token;
        assert At(headers, name, 0, j);
      }
      if i, j :| At(headers[1..], name, i, j) && LowerBytes(Members(headers[1..][i].value)[j]) == token {
        AtRest(headers, name, i, j);
      }
      if i, j :| At(headers, name, i, j) && LowerBytes(Members(headers[i].value)[j]) == token {
        if i == 0 {
          assert LowerMembers(first)[j] == token;
        } else {
          AtRest(headers, name, i - 1, j);
        }
      }
    }
  }

  lemma {:induction false} NonEmptyHas(members: seq<Bytes>, m: Bytes)
    ensures m in NonEmpty(members) <==> m != "" && m in members
  {
    if members != [] { NonEmptyHas(members[1..], m); }
  }

  lemma {:induction false} NonEmptyFirst(members: seq<Bytes>, j: int)
    requires 0 <= j < |members| && members[j] != "" && forall l :: 0 <= l < j ==> members[l] == ""
    ensures NonEmpty(members) != [] && NonEmpty(members)[0] == members[j]
  {
    if j > 0 { NonEmptyFirst(members[1..], j - 1); }
  }

  lemma {:induction false} NoneNonEmpty(members: seq<Bytes>)
    requires forall l :: 0 <= l < |members| ==> members[l] == ""
    ensures NonEmpty(members) == []
  {
    if members != [] { NoneNonEmpty(members[1..]); }
  }

  lemma FirstRest(headers: seq<Header>, name: Bytes, i: int, j: int)
    requires headers != [] && FirstAt(headers, name, i + 1, j) && i >= 0
    ensures FirstAt(headers[1..], name, i, j)
  {
    AtRest(headers, name, i, j);
    forall k, l | At(headers[1..], name, k, l) && (k < i || (k == i && l < j))
      ensures Members(headers[1..][k].value)[l] == ""
    {
      AtRest(headers, name, k, l);
    }
  }

  lemma {:induction false} FirstCombined(headers: seq<Header>, name: Bytes, i: int, j: int)
    requires FirstAt(headers, name, i, j)
    ensures var all := NonEmpty(LowerMembers(Combined(headers, name)));
            all != [] && all[0] == LowerBytes(Members(headers[i].value)[j])
  {
    var first := if headers[0].name == name then Members(headers[0].value) else [];
    var rest := Combined(headers[1..], name);
    LowerConcat(first, rest);
    NonEmptyConcat(LowerMembers(first), LowerMembers(rest));
    if i == 0 {
      assert forall l :: 0 <= l < j ==> At(headers, name, 0, l);
      NonEmptyFirst(LowerMembers(first), j);
    } else {
      assert forall l :: 0 <= l < |first| ==> At(headers, name, 0, l);
      NoneNonEmpty(LowerMembers(first));
      FirstRest(headers, name, i - 1, j);
      FirstCombined(headers[1..], name, i - 1, j);
    }
  }

  lemma {:induction false} FirstExists(headers: seq<Header>, name: Bytes) returns (i: int, j: int)
    requires NonEmpty(LowerMembers(Combined(headers, name))) != []
    ensures FirstAt(headers, name, i, j)
  {
    assert headers != [];
    var first := if headers[0].name == name then Members(headers[0].value) else [];
    var rest := Combined(headers[1..], name);
    LowerConcat(first, rest);
    NonEmptyConcat(LowerMembers(first), LowerMembers(rest));
    if forall l :: 0 <= l < |first| ==> first[l] == "" {
      NoneNonEmpty(LowerMembers(first));
      i, j := FirstExists(headers[1..], name);
      AtRest(headers, name, i, j);
      forall k, l | At(headers, name, k, l) && (k < i + 1 || (k == i + 1 && l < j))
        ensures Members(headers[k].value)[l] == ""
      {
        if k > 0 { AtRest(headers, name, k - 1, l); }
      }
      i := i + 1;
    } else {
      j := FirstNonEmpty(first);
      i := 0;
    }
  }

  lemma {:induction false} FirstNonEmpty(members: seq<Bytes>) returns (j: int)
    requires exists l :: 0 <= l < |members| && members[l] != ""
    ensures 0 <= j < |members| && members[j] != "" && forall l :: 0 <= l < j ==> members[l] == ""
  {
    if members[0] != "" {
      j := 0;
    } else {
      var l :| 0 <= l < |members| && members[l] != "";
      assert members[1..][l - 1] == members[l];
      j := FirstNonEmpty(members[1..]);
      j := j + 1;
    }
  }

  function UpperByte(c: char): char {
    if 'a' <= c <= 'z' then (c as int - 32) as char else c
  }

  /** A token with any of its letters in upper case is lowered to it. */
  lemma LowerInAnyCase(m: Bytes, token: Bytes)
    requires |m| == |token| && forall i :: 0 <= i < |m| ==> m[i] == token[i] || m[i] == UpperByte(token[i])
    requires forall i :: 0 <= i < |token| ==> !('A' <= token[i] <= 'Z')
    ensures LowerBytes(m) == token
  {
  }

  /** A WebSocket handshake is recognised wherever it stands among the offered protocols. */
  lemma WebSocketIsPreferred(headers: seq<Header>)
    requires Lists(headers, "connection", "upgrade") && Lists(headers, "upgrade", "websocket")
    ensures Offer(headers) == Some("websocket")
  {
    CombinedLists(headers, "connection", "upgrade");
    CombinedLists(headers, "upgrade", "websocket");
    NonEmptyHas(LowerMembers(Combined(headers, "upgrade")), "websocket");
  }

  /** Without one the client's first protocol is it. */
  lemma FirstIsOffered(headers: seq<Header>, i: int, j: int)
    requires Lists(headers, "connection", "upgrade") && !Lists(headers, "upgrade", "websocket")
    requires FirstAt(headers, "upgrade", i, j)
    ensures Offer(headers) == Some(LowerBytes(Members(headers[i].value)[j]))
  {
    CombinedLists(headers, "connection", "upgrade");
    CombinedLists(headers, "upgrade", "websocket");
    NonEmptyHas(LowerMembers(Combined(headers, "upgrade")), "websocket");
    FirstCombined(headers, "upgrade", i, j);
  }

  /** And nothing is offered exactly when the connection has no upgrade option or no protocol is named. */
  lemma NoOfferIff(headers: seq<Header>)
    ensures Offer(headers).None? <==>
            !Lists(headers, "connection", "upgrade") || !exists i, j :: FirstAt(headers, "upgrade", i, j)
  {
    CombinedLists(headers, "connection", "upgrade");
    if NonEmpty(LowerMembers(Combined(headers, "upgrade"))) != [] {
      var i, j := FirstExists(headers, "upgrade");
    }
    if i, j :| FirstAt(headers, "upgrade", i, j) { FirstCombined(headers, "upgrade", i, j); }
  }

  method CombinedUpgradeOffer(headers: seq<Header>) returns (offer: Option<Bytes>)
    ensures offer == Offer(headers)
    ensures Lists(headers, "connection", "upgrade") && Lists(headers, "upgrade", "websocket") ==>
              offer == Some("websocket")
    ensures offer.None? <==>
            !Lists(headers, "connection", "upgrade") || !exists i, j :: FirstAt(headers, "upgrade", i, j)
  {
    NoOfferIff(headers);
    if Lists(headers, "connection", "upgrade") && Lists(headers, "upgrade", "websocket") {
      WebSocketIsPreferred(headers);
    }
    var connection, upgrade := [], [];
    for i := 0 to |headers|
      invariant connection == ConnectionTokens(headers[..i])
      invariant upgrade == UpgradeTokens(headers[..i])
    {
      ConnectionStep(headers, i);
      UpgradeStep(headers, i);
      var members := LowerMembers(Members(headers[i].value));
      if headers[i].name == "connection" {
        connection := connection + members;
      } else if headers[i].name == "upgrade" {
        upgrade := upgrade + NonEmpty(members);
      }
    }
    assert headers[..|headers|] == headers;
    if "upgrade" !in connection || upgrade == [] {
      return None;
    }
    offer := if "websocket" in upgrade then Some("websocket") else Some(upgrade[0]);
  }
}
