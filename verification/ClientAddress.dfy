/**
 Resolving the client address from proxy headers: the hop loop, the
 priority-order reading of the headers and the all-headers-agree reading.
 */
module ClientAddress {
  import opened Basics
  import opened Text
  import opened ForwardedHeader
  import opened QuotedSplit

  // ----- the hop loop -----

  /** Walk left from the socket while the address reached so far is trusted. */
  function ResolveHops(trusted: string -> bool, socket: string, hops: seq<string>): string
    decreases |hops|
  {
    if hops == [] || !trusted(socket) then socket
    else ResolveHops(trusted, hops[|hops| - 1], hops[..|hops| - 1])
  }

  /** The entry the walk stops at: everything right of it is trusted, and it is untrusted or leftmost. */
  ghost predicate RightmostUntrusted(trusted: string -> bool, chain: seq<string>, k: int) {
    && 0 <= k < |chain|
    && (forall j :: k < j < |chain| ==> trusted(chain[j]))
    && (k == 0 || !trusted(chain[k]))
  }

  lemma {:induction false} ResolvedEntry(trusted: string -> bool, socket: string, hops: seq<string>) returns (k: int)
    ensures RightmostUntrusted(trusted, hops + [socket], k)
    ensures ResolveHops(trusted, socket, hops) == (hops + [socket])[k]
    decreases |hops|
  {
    k := |hops|;
    if hops != [] && trusted(socket) {
      var last, rest := hops[|hops| - 1], hops[..|hops| - 1];
      k := ResolvedEntry(trusted, last, rest);
      assert rest + [last] == hops;
    }
  }

  lemma RightmostUnique(trusted: string -> bool, chain: seq<string>, j: int, k: int)
    requires RightmostUntrusted(trusted, chain, j) && RightmostUntrusted(trusted, chain, k)
    ensures j == k
  {
  }

  /** With an untrusted entry in the tail, the walk over the whole chain stops where the walk over the tail does. */
  lemma EntryInTail(trusted: string -> bool, left: seq<string>, tail: seq<string>, i: int, j: int)
    requires 0 <= i < |tail| && !trusted(tail[i]) && RightmostUntrusted(trusted, left + tail, j)
    ensures RightmostUntrusted(trusted, tail, j - |left|) && (left + tail)[j] == tail[j - |left|]
  {
    assert (left + tail)[|left| + i] == tail[i];
    forall m | j - |left| < m < |tail| ensures trusted(tail[m]) {
      assert (left + tail)[|left| + m] == tail[m];
    }
  }

  method ResolveClientIpFromHops(trusted: string -> bool, socket: string, hops: seq<string>) returns (resolved: string)
    ensures resolved == ResolveHops(trusted, socket, hops)
    ensures forall k :: RightmostUntrusted(trusted, hops + [socket], k) ==> resolved == (hops + [socket])[k]
  {
    resolved := socket;
    var i := |hops|;
    assert hops[..i] == hops;
    while i > 0 && trusted(resolved)
      invariant 0 <= i <= |hops|
      invariant ResolveHops(trusted, socket, hops) == ResolveHops(trusted, resolved, hops[..i])
    {
      assert hops[..i][..i - 1] == hops[..i - 1];
      resolved, i := hops[i - 1], i - 1;
    }
    var k := ResolvedEntry(trusted, socket, hops);
    forall j | RightmostUntrusted(trusted, hops + [socket], j) ensures j == k {
      RightmostUnique(trusted, hops + [socket], j, k);
    }
  }

  /** Entries left of an untrusted one never matter, whatever a client put there. */
  lemma LeftOfUntrustedIrrelevant(trusted: string -> bool, socket: string, left: seq<string>, other: seq<string>,
                                  right: seq<string>, i: int)
    requires 0 <= i < |right + [socket]| && !trusted((right + [socket])[i])
    ensures ResolveHops(trusted, socket, left + right) == ResolveHops(trusted, socket, other + right)
  {
    var tail := right + [socket];
    var j := ResolvedEntry(trusted, socket, left + right);
    var k := ResolvedEntry(trusted, socket, other + right);
    assert left + right + [socket] == left + tail && other + right + [socket] == other + tail;
    EntryInTail(trusted, left, tail, i, j);
    EntryInTail(trusted, other, tail, i, k);
    RightmostUnique(trusted, tail, j - |left|, k - |other|);
  }

  // ----- headers -----

  datatype Name = XForwardedFor | XRealIp | TrueClientIp | CfConnectingIp | Forwarded

  const SINGLES := [XRealIp, TrueClientIp, CfConnectingIp]

  /** Priority order. */
  const ORDER := [XForwardedFor, XRealIp, TrueClientIp, CfConnectingIp, Forwarded]

  /** What a request carries and how it is judged: a list of values for each name. */
  datatype Request = Request(
    headers: map<Name, seq<string>>,
    allowed: set<Name>,
    socket: string,
    trusted: string -> bool,
    ip: IpParser)

  function Values(q: Request, name: Name): seq<string> {
    if name in q.headers then q.headers[name] else []
  }

  predicate Blank(s: string) {
    Strip(s) == ""
  }

  predicate HasNonBlank(q: Request, name: Name) {
    exists v :: v in Values(q, name) && !Blank(v)
  }

  predicate Repeated(q: Request, name: Name) {
    name in q.allowed && |Values(q, name)| > 1
  }

  function ResolveXff(q: Request, value: string): Result<string> {
    var hops := StripAll(SplitOn(value, ','));
    if exists hop :: hop in hops && q.ip(hop).None? then Err else Ok(ResolveHops(q.trusted, q.socket, hops))
  }

  function ResolveForwarded(q: Request, value: string): Result<string> {
    var hops := ParseChain(q.ip, value);
    if hops.Err? then Err else Ok(ResolveHops(q.trusted, q.socket, hops.value))
  }

  function ResolveSingle(q: Request, value: string): Result<string> {
    if q.ip(Strip(value)).None? then Err else Ok(Strip(value))
  }

  /** What one header resolves to, taken by itself. */
  function ResolveHeader(q: Request, name: Name): Result<string> {
    match name
    case XForwardedFor => ResolveXff(q, Join(Values(q, name), ","))
    case Forwarded => ResolveForwarded(q, Join(Values(q, name), ","))
    case _ => if Values(q, name) == [] then Err else ResolveSingle(q, Values(q, name)[0])
  }

  datatype Reading = Absent | Bad | Resolved(address: string)

  function ToReading(r: Result<string>): Reading {
    if r.Ok? then Resolved(r.value) else Bad
  }

  /** The consensus reading skips headers that carry nothing but blanks. */
  function ConsensusReading(q: Request, name: Name): Reading {
    if name in q.allowed && HasNonBlank(q, name) then ToReading(ResolveHeader(q, name)) else Absent
  }

  /** The value the priority reading tests for emptiness. */
  function Presented(q: Request, name: Name): string {
    match name
    case XForwardedFor => Join(Values(q, name), ",")
    case Forwarded => Join(Values(q, name), ",")
    case _ => if Values(q, name) == [] then "" else Values(q, name)[0]
  }

  function PriorityReading(q: Request, name: Name): Reading {
    if name in q.allowed && Presented(q, name) != "" then ToReading(ResolveHeader(q, name)) else Absent
  }

  /** The first reading that is not absent. */
  function FirstReading(readings: seq<Reading>): Reading {
    if readings == [] then Absent
    else if readings[0].Absent? then FirstReading(readings[1..])
    else readings[0]
  }

  function ReadAll(q: Request, names: seq<Name>, read: (Request, Name) -> Reading): (r: seq<Reading>)
    ensures |r| == |names| && forall i :: 0 <= i < |r| ==> r[i] == read(q, names[i])
  {
    seq(|names|, i requires 0 <= i < |names| => read(q, names[i]))
  }

  function ToOption(r: Reading): Option<string> {
    if r.Resolved? then Some(r.address) else None
  }

  function Priority(q: Request): Option<string> {
    if exists name :: name in SINGLES && Repeated(q, name) then None
    else ToOption(FirstReading(ReadAll(q, ORDER, PriorityReading)))
  }

  /** Every header that says something resolves, and to the same address. */
  predicate Unanimous(q: Request, readings: seq<Reading>) {
    && Bad !in readings
    && forall r :: r in readings && r.Resolved? ==>
         FirstReading(readings).Resolved? && q.ip(r.address) == q.ip(FirstReading(readings).address)
  }

  function Consensus(q: Request): Option<string> {
    if exists name :: name in SINGLES && Repeated(q, name) && HasNonBlank(q, name) then None
    else
      var readings := ReadAll(q, ORDER, ConsensusReading);
      if Unanimous(q, readings) then ToOption(FirstReading(readings)) else None
  }

  // ----- which address a header names -----

  /** The entries of an X-Forwarded-For or Forwarded header, if each of them is an address. */
  function Chain(q: Request, name: Name): Result<seq<string>> {
    var value := Join(Values(q, name), ",");
    if name == Forwarded then ParseChain(q.ip, value)
    else
      var hops := StripAll(SplitOn(value, ','));
      if forall hop :: hop in hops ==> q.ip(hop).Some? then Ok(hops) else Err
  }

  /**
   A chain names the rightmost entry that is not trusted, counting the peer as
   the last entry, or its leftmost one if all are; a single-valued header names
   the address it holds.
   */
  ghost predicate Says(q: Request, name: Name, address: string) {
    if name in SINGLES then
      Values(q, name) != [] && address == Strip(Values(q, name)[0]) && q.ip(address).Some?
    else
      Chain(q, name).Ok? && Entry(q, Chain(q, name).value + [q.socket], address)
  }

  ghost predicate Entry(q: Request, chain: seq<string>, address: string) {
    exists k :: RightmostUntrusted(q.trusted, chain, k) && address == chain[k]
  }

  lemma HopsEntry(q: Request, hops: seq<string>, address: string)
    ensures ResolveHops(q.trusted, q.socket, hops) == address <==> Entry(q, hops + [q.socket], address)
  {
    var k := ResolvedEntry(q.trusted, q.socket, hops);
    if j :| RightmostUntrusted(q.trusted, hops + [q.socket], j) && address == (hops + [q.socket])[j] {
      RightmostUnique(q.trusted, hops + [q.socket], j, k);
    }
  }

  /** A header resolves to exactly the address it names. */
  lemma HeaderResolves(q: Request, name: Name, address: string)
    ensures ResolveHeader(q, name) == Ok(address) <==> Says(q, name, address)
  {
    if name !in SINGLES && Chain(q, name).Ok? {
      HopsEntry(q, Chain(q, name).value, address);
    }
  }

  /** The priority reading has come to this header: it is the first allowed one with a value. */
  predicate FirstPresented(q: Request, i: int) {
    && 0 <= i < |ORDER| && ORDER[i] in q.allowed && Presented(q, ORDER[i]) != ""
    && forall j :: 0 <= j < i && ORDER[j] in q.allowed ==> Presented(q, ORDER[j]) == ""
  }

  /** No single-valued header is repeated, and the first header with a value names the address. */
  ghost predicate PriorityAnswer(q: Request, address: string) {
    && (forall name :: name in SINGLES ==> !Repeated(q, name))
    && exists i :: FirstPresented(q, i) && Says(q, ORDER[i], address)
  }

  predicate Speaks(q: Request, name: Name) {
    name in q.allowed && HasNonBlank(q, name)
  }

  predicate FirstSpeaking(q: Request, i: int) {
    0 <= i < |ORDER| && Speaks(q, ORDER[i]) && forall j :: 0 <= j < i ==> !Speaks(q, ORDER[j])
  }

  /** The header names the same address, perhaps in another spelling. */
  ghost predicate Agrees(q: Request, name: Name, address: string) {
    exists b :: Says(q, name, b) && q.ip(b) == q.ip(address)
  }

  /** No single-valued header that says something is repeated, and every header that says something names the address. */
  ghost predicate ConsensusAnswer(q: Request, address: string) {
    && (forall name :: name in SINGLES ==> !(Repeated(q, name) && HasNonBlank(q, name)))
    && (exists i :: FirstSpeaking(q, i) && Says(q, ORDER[i], address))
    && forall i :: 0 <= i < |ORDER| && Speaks(q, ORDER[i]) ==> Agrees(q, ORDER[i], address)
  }

  lemma FirstIsRead(q: Request, readings: seq<Reading>, address: string)
    requires readings == ReadAll(q, ORDER, PriorityReading)
    ensures FirstReading(readings) == Resolved(address) <==>
            exists i :: FirstPresented(q, i) && Says(q, ORDER[i], address)
  {
    if FirstReading(readings) == Resolved(address) {
      var i := FirstReadingFound(readings);
      assert readings[i] == PriorityReading(q, ORDER[i]);
      assert forall j :: 0 <= j < i && ORDER[j] in q.allowed ==> readings[j].Absent?;
      HeaderResolves(q, ORDER[i], address);
      assert FirstPresented(q, i);
    }
    if i :| FirstPresented(q, i) && Says(q, ORDER[i], address) {
      HeaderResolves(q, ORDER[i], address);
      FirstReadingAt(readings, i);
    }
  }

  /** The priority order answers exactly with what the first header with a value names. */
  lemma PriorityIsAnswer(q: Request, address: string)
    ensures Priority(q) == Some(address) <==> PriorityAnswer(q, address)
  {
    FirstIsRead(q, ReadAll(q, ORDER, PriorityReading), address);
  }

  lemma FirstSpeaker(q: Request, readings: seq<Reading>, address: string)
    requires readings == ReadAll(q, ORDER, ConsensusReading)
    ensures FirstReading(readings) == Resolved(address) <==>
            exists i :: FirstSpeaking(q, i) && Says(q, ORDER[i], address)
  {
    if FirstReading(readings) == Resolved(address) {
      var i := FirstReadingFound(readings);
      assert readings[i] == ConsensusReading(q, ORDER[i]);
      assert forall j :: 0 <= j < i ==> readings[j].Absent?;
      HeaderResolves(q, ORDER[i], address);
      assert FirstSpeaking(q, i);
    }
    if i :| FirstSpeaking(q, i) && Says(q, ORDER[i], address) {
      HeaderResolves(q, ORDER[i], address);
      FirstReadingAt(readings, i);
    }
  }

  lemma AgreesIffRead(q: Request, name: Name, address: string)
    requires Speaks(q, name)
    ensures Agrees(q, name, address) <==>
            ConsensusReading(q, name).Resolved? && q.ip(ConsensusReading(q, name).address) == q.ip(address)
  {
    if ConsensusReading(q, name).Resolved? { HeaderResolves(q, name, ConsensusReading(q, name).address); }
    if b :| Says(q, name, b) && q.ip(b) == q.ip(address) { HeaderResolves(q, name, b); }
  }

  lemma AllAgree(q: Request, readings: seq<Reading>, address: string)
    requires readings == ReadAll(q, ORDER, ConsensusReading) && FirstReading(readings) == Resolved(address)
    ensures Unanimous(q, readings) <==>
            forall i :: 0 <= i < |ORDER| && Speaks(q, ORDER[i]) ==> Agrees(q, ORDER[i], address)
  {
    forall i | 0 <= i < |ORDER| && Speaks(q, ORDER[i])
      ensures Agrees(q, ORDER[i], address) <==> readings[i].Resolved? && q.ip(readings[i].address) == q.ip(address)
    {
      AgreesIffRead(q, ORDER[i], address);
    }
    assert forall i :: 0 <= i < |ORDER| ==> (Speaks(q, ORDER[i]) <==> !readings[i].Absent?);
    assert forall i :: 0 <= i < |readings| ==> readings[i] in readings;
  }

  /** The consensus answers exactly with what all headers that say something name. */
  lemma ConsensusIsAnswer(q: Request, address: string)
    ensures Consensus(q) == Some(address) <==> ConsensusAnswer(q, address)
  {
    var readings := ReadAll(q, ORDER, ConsensusReading);
    FirstSpeaker(q, readings, address);
    if FirstReading(readings) == Resolved(address) { AllAgree(q, readings, address); }
  }

  // ----- forged entries -----

  /** The two requests differ in this header only. */
  ghost predicate DifferOnlyIn(q: Request, q': Request, name: Name) {
    && q'.allowed == q.allowed && q'.socket == q.socket && q'.trusted == q.trusted && q'.ip == q.ip
    && forall other :: other != name ==> Values(q', other) == Values(q, other)
  }

  /** Both chains end in `right`, and in it or as the peer there is an untrusted entry. */
  predicate SharedTail(q: Request, q': Request, name: Name, left: seq<string>, forged: seq<string>, right: seq<string>,
                       i: int) {
    && Chain(q, name) == Ok(left + right) && Chain(q', name) == Ok(forged + right)
    && 0 <= i < |right + [q.socket]| && !q.trusted((right + [q.socket])[i])
  }

  lemma ChainResolves(q: Request, name: Name)
    requires name !in SINGLES && Chain(q, name).Ok?
    ensures ResolveHeader(q, name) == Ok(ResolveHops(q.trusted, q.socket, Chain(q, name).value))
  {
  }

  lemma ReadingsOfOthers(q: Request, q': Request, name: Name, other: Name)
    requires DifferOnlyIn(q, q', name) && other != name
    ensures PriorityReading(q, other) == PriorityReading(q', other)
    ensures ConsensusReading(q, other) == ConsensusReading(q', other)
  {
    assert Values(q', other) == Values(q, other);
    assert ResolveHeader(q, other) == ResolveHeader(q', other);
  }

  lemma ReadingsOfForged(q: Request, q': Request, name: Name, left: seq<string>, forged: seq<string>,
                         right: seq<string>, i: int)
    requires name !in SINGLES && DifferOnlyIn(q, q', name) && SharedTail(q, q', name, left, forged, right, i)
    requires HasNonBlank(q, name) && HasNonBlank(q', name)
    ensures PriorityReading(q, name) == PriorityReading(q', name)
    ensures ConsensusReading(q, name) == ConsensusReading(q', name)
  {
    ChainResolves(q, name);
    ChainResolves(q', name);
    LeftOfUntrustedIrrelevant(q.trusted, q.socket, left, forged, right, i);
    if name in q.allowed {
      NonBlankIsPresented(q, name);
      NonBlankIsPresented(q', name);
    }
  }

  /** Resolvable X-Forwarded-For chains are never blank. */
  lemma ChainIsNotBlank(q: Request)
    requires q.ip("").None? && Chain(q, XForwardedFor).Ok?
    ensures HasNonBlank(q, XForwardedFor)
  {
    ChainResolves(q, XForwardedFor);
    if !HasNonBlank(q, XForwardedFor) { BlankXffIsBad(q); }
  }

  lemma SameReadings(q: Request, q': Request, read: (Request, Name) -> Reading)
    requires forall name :: read(q, name) == read(q', name)
    ensures ReadAll(q, ORDER, read) == ReadAll(q', ORDER, read)
  {
  }

  lemma SameAnswers(q: Request, q': Request, name: Name)
    requires name !in SINGLES && DifferOnlyIn(q, q', name)
    requires forall other :: PriorityReading(q, other) == PriorityReading(q', other)
    requires forall other :: ConsensusReading(q, other) == ConsensusReading(q', other)
    ensures Priority(q) == Priority(q') && Consensus(q) == Consensus(q')
  {
    SameReadings(q, q', PriorityReading);
    SameReadings(q, q', ConsensusReading);
    assert forall other :: other in SINGLES ==> Values(q', other) == Values(q, other);
  }

  /**
   What stands left of an untrusted entry of a chain, where anybody can have
   written it, changes neither answer.
   */
  lemma ForgedEntriesIrrelevant(q: Request, q': Request, name: Name, left: seq<string>, forged: seq<string>,
                                right: seq<string>, i: int)
    requires q.ip("").None? && name !in SINGLES
    requires DifferOnlyIn(q, q', name) && SharedTail(q, q', name, left, forged, right, i)
    requires name == Forwarded ==> HasNonBlank(q, name) && HasNonBlank(q', name)
    ensures Priority(q) == Priority(q') && Consensus(q) == Consensus(q')
  {
    if name == XForwardedFor {
      ChainIsNotBlank(q);
      ChainIsNotBlank(q');
    }
    ReadingsOfForged(q, q', name, left, forged, right, i);
    forall other | other != name
      ensures PriorityReading(q, other) == PriorityReading(q', other)
      ensures ConsensusReading(q, other) == ConsensusReading(q', other)
    {
      ReadingsOfOthers(q, q', name, other);
    }
    SameAnswers(q, q', name);
  }

  // ----- when the two readings agree -----

  lemma {:induction false} BlankStaysBlank(s: string)
    requires forall i :: 0 <= i < |s| ==> IsSpace(s[i])
    ensures Blank(s)
  {
    if s != "" { BlankStaysBlank(s[1..]); }
  }

  lemma {:induction false} BlankIsSpaces(s: string)
    requires Blank(s)
    ensures forall i :: 0 <= i < |s| ==> IsSpace(s[i])
  {
    StripLeftEnd(s);
    if s != "" {
      if !IsSpace(s[0]) {
        StripRightKeepsFirst(s);
      } else {
        BlankIsSpaces(s[1..]);
      }
    }
  }

  lemma {:induction false} StripRightKeepsFirst(s: string)
    requires s != "" && !IsSpace(s[0])
    ensures StripRight(s) != ""
  {
    if IsSpace(s[|s| - 1]) { StripRightKeepsFirst(s[..|s| - 1]); }
  }

  predicate SpaceOrComma(c: char) {
    IsSpace(c) || c == ','
  }

  lemma {:induction false} JoinOfBlanks(values: seq<string>)
    requires forall v :: v in values ==> Blank(v)
    ensures All(Join(values, ","), SpaceOrComma)
  {
    if values != [] {
      assert values[0] in values;
      BlankIsSpaces(values[0]);
      if |values| > 1 {
        assert forall v :: v in values[1..] ==> v in values;
        JoinOfBlanks(values[1..]);
      }
    }
  }

  lemma {:induction false} FirstPieceBlank(s: string)
    requires All(s, SpaceOrComma)
    ensures forall i :: 0 <= i < |SplitOn(s, ',')[0]| ==> IsSpace(SplitOn(s, ',')[0][i])
  {
    if s != "" && s[0] != ',' {
      FirstPieceBlank(s[1..]);
    }
  }

  /** A header presented but blank cannot be resolved. */
  lemma BlankXffIsBad(q: Request)
    requires q.ip("").None? && !HasNonBlank(q, XForwardedFor)
    ensures ResolveHeader(q, XForwardedFor).Err?
  {
    var s := Join(Values(q, XForwardedFor), ",");
    JoinOfBlanks(Values(q, XForwardedFor));
    FirstPieceBlank(s);
    BlankStaysBlank(SplitOn(s, ',')[0]);
    assert StripAll(SplitOn(s, ','))[0] == "";
  }

  lemma BlankSingleIsBad(q: Request, name: Name)
    requires q.ip("").None? && name in SINGLES && !HasNonBlank(q, name)
    ensures ResolveHeader(q, name).Err?
  {
    if Values(q, name) != [] { assert Values(q, name)[0] in Values(q, name); }
  }

  lemma {:induction false} JoinNonEmpty(values: seq<string>, v: string)
    requires v in values && v != ""
    ensures Join(values, ",") != ""
  {
    if |values| > 1 && values[0] != v { JoinNonEmpty(values[1..], v); }
  }

  /** A header that carries something is presented, unless it is a repeated singleton. */
  lemma NonBlankIsPresented(q: Request, name: Name)
    requires HasNonBlank(q, name) && name in q.allowed && (name in SINGLES ==> !Repeated(q, name))
    ensures Presented(q, name) != ""
  {
    var v :| v in Values(q, name) && !Blank(v);
    if name in SINGLES {
      assert Values(q, name) == [v];
    } else {
      JoinNonEmpty(Values(q, name), v);
    }
  }

  /** The header is there, so the priority reading stops at it, but it holds nothing but blanks. */
  predicate BlankButPresented(q: Request, name: Name) {
    name in q.allowed && Presented(q, name) != "" && !HasNonBlank(q, name)
  }

  /** Nothing in the request makes the two readings look at different headers. */
  predicate Unambiguous(q: Request) {
    && (forall name :: name in SINGLES ==> !Repeated(q, name))
    && (forall i :: 0 <= i < |ORDER| && BlankButPresented(q, ORDER[i]) ==>
          exists j :: 0 <= j < i && ORDER[j] in q.allowed && HasNonBlank(q, ORDER[j]))
  }

  lemma ReadingsRelate(q: Request, name: Name)
    requires q.ip("").None? && name in ORDER && (name in SINGLES ==> !Repeated(q, name))
    ensures !BlankButPresented(q, name) ==> PriorityReading(q, name) == ConsensusReading(q, name)
    ensures BlankButPresented(q, name) ==> ConsensusReading(q, name) == Absent
    ensures BlankButPresented(q, name) && name != Forwarded ==> PriorityReading(q, name) == Bad
  {
    if name in q.allowed && HasNonBlank(q, name) { NonBlankIsPresented(q, name); }
    if BlankButPresented(q, name) {
      if name == XForwardedFor { BlankXffIsBad(q); } else if name != Forwarded { BlankSingleIsBad(q, name); }
    }
  }

  lemma {:induction false} FirstReadingAt(readings: seq<Reading>, m: int)
    requires 0 <= m < |readings| && !readings[m].Absent? && forall i :: 0 <= i < m ==> readings[i].Absent?
    ensures FirstReading(readings) == readings[m]
  {
    if m > 0 { FirstReadingAt(readings[1..], m - 1); }
  }

  lemma {:induction false} FirstReadingFound(readings: seq<Reading>) returns (m: int)
    requires !FirstReading(readings).Absent?
    ensures 0 <= m < |readings| && FirstReading(readings) == readings[m]
    ensures forall i :: 0 <= i < m ==> readings[i].Absent?
  {
    if readings[0].Absent? {
      m := FirstReadingFound(readings[1..]);
      m := m + 1;
    } else {
      m := 0;
    }
  }

  /** Before the first header that says something, the consensus finds only absent or blank ones. */
  lemma NothingBefore(q: Request, i: int)
    requires 0 <= i < |ORDER| && ConsensusReading(q, ORDER[i]).Absent?
    ensures !(ORDER[i] in q.allowed && HasNonBlank(q, ORDER[i]))
  {
  }

  lemma PriorityStopsAt(q: Request, k: int)
    requires q.ip("").None? && forall name :: name in SINGLES ==> !Repeated(q, name)
    requires 0 <= k < |ORDER| && !PriorityReading(q, ORDER[k]).Absent?
    requires forall i :: 0 <= i < k ==> ConsensusReading(q, ORDER[i]).Absent? && !BlankButPresented(q, ORDER[i])
    ensures FirstReading(ReadAll(q, ORDER, PriorityReading)) == PriorityReading(q, ORDER[k])
  {
    var readings := ReadAll(q, ORDER, PriorityReading);
    forall i | 0 <= i < k ensures readings[i].Absent? { ReadingsRelate(q, ORDER[i]); }
    FirstReadingAt(readings, k);
  }

  /** With nothing but blanks up to here the priority reading fails, and the request is ambiguous. */
  lemma StopsAtBlank(q: Request, n: int)
    requires q.ip("").None? && forall name :: name in SINGLES ==> !Repeated(q, name)
    requires 0 <= n < |ORDER| - 1 && BlankButPresented(q, ORDER[n])
    requires forall i :: 0 <= i < n ==> ConsensusReading(q, ORDER[i]).Absent?
    ensures FirstReading(ReadAll(q, ORDER, PriorityReading)) == Bad && !Unambiguous(q)
  {
    var k := FirstBlank(q, n);
    forall i | 0 <= i < k ensures !(ORDER[i] in q.allowed && HasNonBlank(q, ORDER[i])) { NothingBefore(q, i); }
    ReadingsRelate(q, ORDER[k]);
    PriorityStopsAt(q, k);
  }

  lemma StopsAtResolved(q: Request, m: int)
    requires q.ip("").None? && forall name :: name in SINGLES ==> !Repeated(q, name)
    requires 0 <= m < |ORDER| && ConsensusReading(q, ORDER[m]).Resolved?
    requires forall i :: 0 <= i < m ==> ConsensusReading(q, ORDER[i]).Absent? && !BlankButPresented(q, ORDER[i])
    ensures FirstReading(ReadAll(q, ORDER, PriorityReading)) == ConsensusReading(q, ORDER[m]) && Unambiguous(q)
  {
    assert forall i :: 0 <= i < |ORDER| && BlankButPresented(q, ORDER[i]) ==> m < i;
    ReadingsRelate(q, ORDER[m]);
    PriorityStopsAt(q, m);
  }

  lemma AgreeFromFirst(q: Request, m: int)
    requires q.ip("").None? && forall name :: name in SINGLES ==> !Repeated(q, name)
    requires 0 <= m < |ORDER| && ConsensusReading(q, ORDER[m]).Resolved?
    requires forall i :: 0 <= i < m ==> ConsensusReading(q, ORDER[i]).Absent?
    ensures FirstReading(ReadAll(q, ORDER, PriorityReading)) == ConsensusReading(q, ORDER[m]) <==> Unambiguous(q)
  {
    if n :| 0 <= n < m && BlankButPresented(q, ORDER[n]) {
      StopsAtBlank(q, n);
    } else {
      StopsAtResolved(q, m);
    }
  }

  lemma {:induction false} FirstBlank(q: Request, n: int) returns (k: int)
    requires 0 <= n < |ORDER| && BlankButPresented(q, ORDER[n])
    ensures 0 <= k <= n && BlankButPresented(q, ORDER[k])
    ensures forall i :: 0 <= i < k ==> !BlankButPresented(q, ORDER[i])
  {
    k := n;
    if j :| 0 <= j < n && BlankButPresented(q, ORDER[j]) {
      k := FirstBlank(q, j);
    }
  }

  /**
   A consensus result is the priority-order result exactly when no singleton
   header is repeated and no blank header stands before the first real one.
   */
  lemma ConsensusMeetsPriority(q: Request, address: string)
    requires q.ip("").None? && Consensus(q) == Some(address)
    ensures Priority(q) == Some(address) <==> Unambiguous(q)
  {
    var readings := ReadAll(q, ORDER, ConsensusReading);
    var m := FirstReadingFound(readings);
    if forall name :: name in SINGLES ==> !Repeated(q, name) {
      AgreeFromFirst(q, m);
    }
  }

  /** In particular always when no supplied value is blank. */
  lemma NoBlanksMeansAgreement(q: Request, address: string)
    requires q.ip("").None? && Consensus(q) == Some(address)
    requires forall name, v :: name in q.allowed && v in Values(q, name) ==> !Blank(v)
    ensures Priority(q) == Some(address)
  {
    forall name | name in q.allowed && Values(q, name) != [] ensures HasNonBlank(q, name) {
      assert Values(q, name)[0] in Values(q, name);
    }
    ConsensusMeetsPriority(q, address);
  }

  /** It fails for a blank header in front of a good one. */
  lemma BlankHeaderHidesAgreement(q: Request, address: string)
    requires q.ip("").None? && Consensus(q) == Some(address)
    requires XForwardedFor in q.allowed && Values(q, XForwardedFor) == [" "]
    ensures Priority(q) == None
  {
    assert Blank(" ");
    assert BlankButPresented(q, ORDER[0]);
    ReadingsRelate(q, ORDER[0]);
    FirstReadingAt(ReadAll(q, ORDER, PriorityReading), 0);
  }

  /** A single-valued header repeated with blanks alone is lost on the priority reading too. */
  lemma RepeatedBlankHidesAgreement(q: Request, address: string, name: Name)
    requires q.ip("").None? && Consensus(q) == Some(address)
    requires name in SINGLES && Repeated(q, name)
    ensures Priority(q) == None && !HasNonBlank(q, name)
  {
  }

  /** A request whose one address is in X-Real-IP, beside other headers. */
  function WithRealIp(base: Request, address: string, others: map<Name, seq<string>>): Request {
    base.(headers := others[XRealIp := [address]],
          allowed := {XForwardedFor, XRealIp, TrueClientIp, CfConnectingIp, Forwarded})
  }

  /** A text the address parser accepts, and with it not the empty one. */
  predicate IsAddress(base: Request, address: string) {
    base.ip("").None? && base.ip(address).Some? && Stripped(address)
  }

  lemma RealIpResolves(base: Request, address: string, others: map<Name, seq<string>>)
    requires IsAddress(base, address)
    ensures ConsensusReading(WithRealIp(base, address, others), XRealIp) == Resolved(address)
  {
    var q := WithRealIp(base, address, others);
    StrippedStays(address);
    assert Values(q, XRealIp) == [address] && address in Values(q, XRealIp);
  }

  lemma NothingElsewhere(base: Request, address: string, others: map<Name, seq<string>>, name: Name)
    requires name != XRealIp && forall v :: name in others && v in others[name] ==> Blank(v)
    ensures !HasNonBlank(WithRealIp(base, address, others), name)
    ensures ConsensusReading(WithRealIp(base, address, others), name) == Absent
  {
  }

  /** When all other headers are blank, that address is the consensus. */
  lemma LoneAddress(base: Request, address: string, others: map<Name, seq<string>>)
    requires IsAddress(base, address)
    requires forall name :: name in others ==> forall v :: v in others[name] ==> Blank(v)
    ensures Consensus(WithRealIp(base, address, others)) == Some(address)
  {
    var q := WithRealIp(base, address, others);
    var readings := ReadAll(q, ORDER, ConsensusReading);
    RealIpResolves(base, address, others);
    forall i | 0 <= i < |ORDER| && i != 1 ensures readings[i].Absent? && !HasNonBlank(q, ORDER[i]) {
      NothingElsewhere(base, address, others, ORDER[i]);
    }
    forall name | name in SINGLES && name != XRealIp ensures !HasNonBlank(q, name) {
      NothingElsewhere(base, address, others, name);
    }
    FirstReadingAt(readings, 1);
  }

  /**
   Both happen, whatever parses the addresses: a blank X-Forwarded-For, and a
   True-Client-IP repeated with blanks, each beside a good header.
   */
  lemma DisagreementsHappen(base: Request, address: string)
    requires IsAddress(base, address)
    ensures var q := WithRealIp(base, address, map[XForwardedFor := [" "]]);
            Consensus(q) == Some(address) && Priority(q) == None
    ensures var q := WithRealIp(base, address, map[TrueClientIp := [" ", " "]]);
            Consensus(q) == Some(address) && Priority(q) == None
  {
    assert Blank(" ");
    var blank := map[XForwardedFor := [" "]];
    LoneAddress(base, address, blank);
    BlankHeaderHidesAgreement(WithRealIp(base, address, blank), address);
    var repeated := map[TrueClientIp := [" ", " "]];
    LoneAddress(base, address, repeated);
    RepeatedBlankHidesAgreement(WithRealIp(base, address, repeated), address, TrueClientIp);
  }

  // ----- the resolvers as they run -----

  function Addresses(readings: seq<Reading>): seq<string> {
    if readings == [] then []
    else AddressOf(readings[0]) + Addresses(readings[1..])
  }

  function AddressOf(r: Reading): seq<string> {
    if r.Resolved? then [r.address] else []
  }

  lemma {:induction false} AddressesAppend(readings: seq<Reading>, r: Reading)
    ensures Addresses(readings + [r]) == Addresses(readings) + AddressOf(r)
  {
    if readings == [] {
      assert readings + [r] == [r] && [r][1..] == [];
    } else {
      var rest := readings[1..];
      assert (readings + [r])[1..] == rest + [r];
      AddressesAppend(rest, r);
      var first, middle, last := AddressOf(readings[0]), Addresses(rest), AddressOf(r);
      assert first + (middle + last) == (first + middle) + last;
    }
  }

  lemma {:induction false} AddressesMeaning(readings: seq<Reading>)
    requires Bad !in readings
    ensures Addresses(readings) == [] ==> FirstReading(readings).Absent?
    ensures Addresses(readings) != [] ==> FirstReading(readings) == Resolved(Addresses(readings)[0])
    ensures forall a :: a in Addresses(readings) <==> Resolved(a) in readings
  {
    if readings != [] {
      AddressesMeaning(readings[1..]);
      assert forall r :: r in readings <==> r == readings[0] || r in readings[1..];
    }
  }

  /** None of the first `k` headers is bad, and these are their addresses. */
  predicate Collected(q: Request, k: nat, resolved: seq<string>)
    requires k <= |ORDER|
  {
    var readings := ReadAll(q, ORDER[..k], ConsensusReading);
    Bad !in readings && resolved == Addresses(readings)
  }

  /** Reads one more header: its address is collected, or the whole resolution fails. */
  method CollectHeader(q: Request, k: nat, resolved: seq<string>) returns (ok: bool, more: seq<string>)
    requires k < |ORDER| && Collected(q, k, resolved)
    ensures ok <==> Bad !in ReadAll(q, ORDER[..k + 1], ConsensusReading)
    ensures ok ==> Collected(q, k + 1, more)
    ensures !ok ==> Bad in ReadAll(q, ORDER, ConsensusReading)
  {
    var name := ORDER[k];
    var r := ConsensusReading(q, name);
    assert ORDER[..k + 1] == ORDER[..k] + [name];
    assert ReadAll(q, ORDER[..k + 1], ConsensusReading) == ReadAll(q, ORDER[..k], ConsensusReading) + [r];
    AddressesAppend(ReadAll(q, ORDER[..k], ConsensusReading), r);
    assert ReadAll(q, ORDER, ConsensusReading)[k] == r;
    ok, more := !r.Bad?, resolved + AddressOf(r);
  }

  method CollectHeaders(q: Request) returns (ok: bool, resolved: seq<string>)
    ensures ok <==> Bad !in ReadAll(q, ORDER, ConsensusReading)
    ensures ok ==> resolved == Addresses(ReadAll(q, ORDER, ConsensusReading))
  {
    ok, resolved := CollectHeader(q, 0, []);
    if !ok {
      return;
    }
    for i := 0 to |SINGLES|
      invariant ok && Collected(q, i + 1, resolved)
    {
      ok, resolved := CollectHeader(q, i + 1, resolved);
      if !ok {
        return;
      }
    }
    ok, resolved := CollectHeader(q, 4, resolved);
    assert ORDER[..5] == ORDER;
  }

  method RepeatedSingleton(q: Request) returns (found: bool)
    ensures found <==> exists name :: name in SINGLES && Repeated(q, name) && HasNonBlank(q, name)
  {
    for i := 0 to |SINGLES|
      invariant forall name :: name in SINGLES[..i] ==> !(Repeated(q, name) && HasNonBlank(q, name))
    {
      assert SINGLES[..i + 1] == SINGLES[..i] + [SINGLES[i]];
      if Repeated(q, SINGLES[i]) && HasNonBlank(q, SINGLES[i]) {
        return true;
      }
    }
    assert SINGLES[..|SINGLES|] == SINGLES;
    found := false;
  }

  method ResolveProxyHeaderConsensus(q: Request) returns (r: Option<string>)
    ensures r == Consensus(q)
    ensures forall address :: r == Some(address) <==> ConsensusAnswer(q, address)
  {
    forall address ensures Consensus(q) == Some(address) <==> ConsensusAnswer(q, address) {
      ConsensusIsAnswer(q, address);
    }
    var repeated := RepeatedSingleton(q);
    if repeated {
      return None;
    }
    var ok, resolved := CollectHeaders(q);
    ghost var readings := ReadAll(q, ORDER, ConsensusReading);
    if !ok {
      return None;
    }
    AddressesMeaning(readings);
    if resolved == [] {
      return None;
    }
    UnanimousIff(q, readings);
    r := if exists a :: a in resolved[1..] && q.ip(a) != q.ip(resolved[0]) then None else Some(resolved[0]);
  }

  lemma UnanimousIff(q: Request, readings: seq<Reading>)
    requires Bad !in readings && Addresses(readings) != []
    ensures Unanimous(q, readings) <==>
            forall a :: a in Addresses(readings)[1..] ==> q.ip(a) == q.ip(Addresses(readings)[0])
  {
    AddressesMeaning(readings);
    var all := Addresses(readings);
    assert forall a :: a in all <==> a == all[0] || a in all[1..];
    forall r | r in readings && r.Resolved? ensures r.address in all {}
  }

  method ResolvePriority(q: Request) returns (r: Option<string>)
    ensures r == Priority(q)
    ensures forall address :: r == Some(address) <==> PriorityAnswer(q, address)
  {
    forall address ensures Priority(q) == Some(address) <==> PriorityAnswer(q, address) {
      PriorityIsAnswer(q, address);
    }
    for i := 0 to |SINGLES|
      invariant forall name :: name in SINGLES[..i] ==> !Repeated(q, name)
    {
      assert SINGLES[..i + 1] == SINGLES[..i] + [SINGLES[i]];
      if Repeated(q, SINGLES[i]) {
        return None;
      }
    }
    assert SINGLES[..|SINGLES|] == SINGLES;
    ghost var readings := ReadAll(q, ORDER, PriorityReading);
    var x := PriorityReading(q, ORDER[0]);
    if !x.Absent? {
      FirstReadingAt(readings, 0);
      return ToOption(x);
    }
    for i := 0 to |SINGLES|
      invariant forall j :: 0 <= j < i + 1 ==> readings[j].Absent?
    {
      var s := PriorityReading(q, SINGLES[i]);
      assert SINGLES[i] == ORDER[i + 1];
      if !s.Absent? {
        FirstReadingAt(readings, i + 1);
        return ToOption(s);
      }
    }
    var f := PriorityReading(q, ORDER[4]);
    if !f.Absent? {
      FirstReadingAt(readings, 4);
      return ToOption(f);
    }
    NoReading(readings);
    r := None;
  }

  /** Only a trusted peer's headers are looked at; any other peer is itself the client. */
  method ResolveConnectionClientIp(q: Request, socket: Option<string>, trustHeaders: bool, consensus: bool)
    returns (r: Option<string>)
    ensures !(trustHeaders && socket.Some? && socket.value != "" && q.trusted(socket.value)) ==> r == socket
    ensures trustHeaders && socket.Some? && socket.value != "" && q.trusted(socket.value) ==>
              var seen := q.(socket := socket.value);
              forall address :: r == Some(address) <==>
                                if consensus then ConsensusAnswer(seen, address) else PriorityAnswer(seen, address)
  {
    if trustHeaders && socket.Some? && socket.value != "" && q.trusted(socket.value) {
      if consensus {
        r := ResolveProxyHeaderConsensus(q.(socket := socket.value));
      } else {
        r := ResolvePriority(q.(socket := socket.value));
      }
    } else {
      r := socket;
    }
  }

  lemma {:induction false} NoReading(readings: seq<Reading>)
    requires forall j :: 0 <= j < |readings| ==> readings[j].Absent?
    ensures FirstReading(readings).Absent?
  {
    if readings != [] { NoReading(readings[1..]); }
  }
}
