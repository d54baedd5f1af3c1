/**
 Splitting a `Forwarded` value at delimiters outside quoted strings (sections 4
 and 6 of RFC 7239).
 */
module QuotedSplit {
  import opened Basics
  import opened Text

  // ----- the quote automaton -----

  datatype Quote = Outside | Inside | Escaped

  function Scan(q: Quote, c: char): Quote {
    match q
    case Outside => if c == '"' then Inside else Outside
    case Inside => if c == '\\' then Escaped else if c == '"' then Outside else Inside
    case Escaped => Inside
  }

  function ScanAll(q: Quote, s: string): Quote
    decreases s
  {
    if s == "" then q else ScanAll(Scan(q, s[0]), s[1..])
  }

  /** Every quoted string opened in `s` is closed in it. */
  predicate Balanced(s: string) {
    ScanAll(Outside, s) == Outside
  }

  lemma {:induction false} ScanConcat(q: Quote, s: string, t: string)
    ensures ScanAll(q, s + t) == ScanAll(ScanAll(q, s), t)
    decreases s
  {
    if s == "" {
      assert s + t == t;
    } else {
      assert (s + t)[1..] == s[1..] + t;
      ScanConcat(Scan(q, s[0]), s[1..], t);
    }
  }

  lemma ScanLast(q: Quote, s: string)
    requires s != ""
    ensures ScanAll(q, s) == Scan(ScanAll(q, s[..|s| - 1]), s[|s| - 1])
  {
    var last := [s[|s| - 1]];
    assert s == s[..|s| - 1] + last;
    ScanConcat(q, s[..|s| - 1], last);
    assert last[1..] == "";
  }

  lemma {:induction false} StripLeftBalanced(s: string)
    requires Balanced(s)
    ensures Balanced(StripLeft(s))
  {
    if s != "" && IsSpace(s[0]) { StripLeftBalanced(s[1..]); }
  }

  lemma {:induction false} StripRightBalanced(s: string)
    requires Balanced(s)
    ensures Balanced(StripRight(s))
  {
    if s != "" && IsSpace(s[|s| - 1]) {
      ScanLast(Outside, s);
      StripRightBalanced(s[..|s| - 1]);
    }
  }

  lemma StripBalanced(s: string)
    requires Balanced(s)
    ensures Balanced(Strip(s))
  {
    StripLeftBalanced(s);
    StripRightBalanced(StripLeft(s));
  }

  // ----- splitting -----

  /** The pieces between delimiters outside quotes, before stripping; never empty as a list. */
  function Pieces(s: string, d: char, q: Quote): (r: seq<string>)
    ensures |r| > 0
  {
    if s == "" then [""]
    else if s[0] == d && q.Outside? then [""] + Pieces(s[1..], d, Outside)
    else
      var rest := Pieces(s[1..], d, Scan(q, s[0]));
      [[s[0]] + rest[0]] + rest[1..]
  }

  function StripAll(parts: seq<string>): (r: seq<string>)
    ensures |r| == |parts| && forall i :: 0 <= i < |r| ==> r[i] == Strip(parts[i])
  {
    seq(|parts|, i requires 0 <= i < |parts| => Strip(parts[i]))
  }

  /** The parts, stripped; an unclosed quote or an empty part is an error. */
  function Split(s: string, d: char): Result<seq<string>> {
    if !Balanced(s) then Err
    else
      var parts := StripAll(Pieces(s, d, Outside));
      if "" in parts then Err else Ok(parts)
  }

  /** The delimiter occurs in `s` only inside quotes, when scanning starts in `q`. */
  predicate NoCut(s: string, d: char, q: Quote) {
    s == "" || (!(s[0] == d && q.Outside?) && NoCut(s[1..], d, Scan(q, s[0])))
  }

  /** Pieces put back together give the original. */
  lemma {:induction false} PiecesJoin(s: string, d: char, q: Quote)
    ensures Join(Pieces(s, d, q), [d]) == s
  {
    if s != "" {
      if s[0] == d && q.Outside? {
        PiecesJoin(s[1..], d, Outside);
        var rest := Pieces(s[1..], d, Outside);
        assert ([""] + rest)[1..] == rest;
      } else {
        PiecesJoin(s[1..], d, Scan(q, s[0]));
        var rest := Pieces(s[1..], d, Scan(q, s[0]));
        assert ([[s[0]] + rest[0]] + rest[1..])[1..] == rest[1..];
      }
    }
  }

  ghost predicate WholePiece(p: string, d: char, q: Quote) {
    ScanAll(q, p) == Outside && NoCut(p, d, q)
  }

  /** Of a closed value, every piece is balanced and has no delimiter outside quotes. */
  lemma {:induction false} PiecesWhole(s: string, d: char, q: Quote, i: int)
    requires ScanAll(q, s) == Outside && d != '"' && 0 <= i < |Pieces(s, d, q)|
    ensures WholePiece(Pieces(s, d, q)[i], d, if i == 0 then q else Outside)
  {
    if s != "" {
      if s[0] == d && q.Outside? {
        if i > 0 { PiecesWhole(s[1..], d, Outside, i - 1); }
      } else {
        var rest := Pieces(s[1..], d, Scan(q, s[0]));
        PiecesWhole(s[1..], d, Scan(q, s[0]), i);
        if i == 0 {
          assert ([s[0]] + rest[0])[1..] == rest[0];
        }
      }
    }
  }

  /** Every part of a split is balanced, so splitting it again never cuts inside a quoted string. */
  lemma PartsBalanced(s: string, d: char, i: int)
    requires d != '"' && Split(s, d).Ok? && 0 <= i < |Split(s, d).value|
    ensures Balanced(Split(s, d).value[i])
  {
    PiecesWhole(s, d, Outside, i);
    StripBalanced(Pieces(s, d, Outside)[i]);
  }

  /** So the second split can fail only for an empty piece, never for its quotes. */
  lemma SecondSplitFailsOnlyOnEmpty(s: string, d: char, i: int, d2: char)
    requires d != '"' && Split(s, d).Ok? && 0 <= i < |Split(s, d).value|
    ensures var part := Split(s, d).value[i];
            Split(part, d2).Err? <==> "" in StripAll(Pieces(part, d2, Outside))
  {
    PartsBalanced(s, d, i);
  }

  lemma {:induction false} PiecesOfOne(s: string, d: char, q: Quote)
    requires NoCut(s, d, q)
    ensures Pieces(s, d, q) == [s]
  {
    if s != "" {
      PiecesOfOne(s[1..], d, Scan(q, s[0]));
      assert [s[0]] + s[1..] == s;
    }
  }

  lemma {:induction false} PiecesOfJoined(s: string, d: char, q: Quote, t: string)
    requires WholePiece(s, d, q)
    ensures Pieces(s + [d] + t, d, q) == [s] + Pieces(t, d, Outside)
  {
    var whole := s + [d] + t;
    if s == "" {
      assert whole[1..] == t;
    } else {
      assert whole[1..] == s[1..] + [d] + t && whole[0] == s[0];
      PiecesOfJoined(s[1..], d, Scan(q, s[0]), t);
      assert [s[0]] + s[1..] == s;
      assert ([s[1..]] + Pieces(t, d, Outside))[1..] == Pieces(t, d, Outside);
    }
  }

  lemma BalancedAround(first: string, d: char, rest: string)
    requires WholePiece(first, d, Outside) && Balanced(rest) && d != '"'
    ensures Balanced(first + [d] + rest)
  {
    ScanConcat(Outside, first, [d] + rest);
    assert first + [d] + rest == first + ([d] + rest);
    assert ([d] + rest)[1..] == rest;
  }

  lemma {:induction false} PiecesOfJoin(parts: seq<string>, d: char)
    requires |parts| > 0 && forall i :: 0 <= i < |parts| ==> WholePiece(parts[i], d, Outside)
    ensures Pieces(Join(parts, [d]), d, Outside) == parts
    ensures d != '"' ==> Balanced(Join(parts, [d]))
  {
    if |parts| == 1 {
      PiecesOfOne(parts[0], d, Outside);
    } else {
      var rest := Join(parts[1..], [d]);
      PiecesOfJoin(parts[1..], d);
      PiecesOfJoined(parts[0], d, Outside, rest);
      assert [parts[0]] + parts[1..] == parts;
      if d != '"' { BalancedAround(parts[0], d, rest); }
    }
  }

  /** Splitting what was joined gives the parts back, stripped. */
  lemma SplitOfJoin(parts: seq<string>, d: char)
    requires |parts| > 0 && d != '"'
    requires forall i :: 0 <= i < |parts| ==> WholePiece(parts[i], d, Outside) && Strip(parts[i]) != ""
    ensures Split(Join(parts, [d]), d) == Ok(StripAll(parts))
  {
    PiecesOfJoin(parts, d);
  }

  // ----- the splitter as it runs -----

  /** What is left to produce: the piece being read, then the pieces after it. */
  function Extend(read: string, rest: seq<string>): seq<string>
    requires |rest| > 0
  {
    [read + rest[0]] + rest[1..]
  }

  lemma ExtendStart(value: string, d: char)
    ensures value[0..] == value
    ensures [] + Extend(value[0..0], Pieces(value[0..], d, Outside)) == Pieces(value, d, Outside)
  {
    assert value[0..] == value;
    var rest := Pieces(value, d, Outside);
    assert value[0..0] + rest[0] == rest[0];
  }

  lemma ExtendStep(value: string, d: char, start: int, i: int, q: Quote)
    requires 0 <= start <= i < |value|
    ensures Extend(value[start..i], Pieces(value[i..], d, q)) ==
            if value[i] == d && q.Outside?
            then [value[start..i]] + Extend(value[i + 1..i + 1], Pieces(value[i + 1..], d, Outside))
            else Extend(value[start..i + 1], Pieces(value[i + 1..], d, Scan(q, value[i])))
  {
    assert value[i..][1..] == value[i + 1..];
    if value[i] == d && q.Outside? {
      var rest := Pieces(value[i + 1..], d, Outside);
      assert value[start..i] + "" == value[start..i];
      assert value[i + 1..i + 1] + rest[0] == rest[0];
      assert ([""] + rest)[1..] == rest;
    } else {
      var rest := Pieces(value[i + 1..], d, Scan(q, value[i]));
      assert value[start..i] + ([value[i]] + rest[0]) == value[start..i + 1] + rest[0];
      assert ([[value[i]] + rest[0]] + rest[1..])[1..] == rest[1..];
    }
  }

  /** The first `i` characters are read: `raw` is cut off, and a piece starts at `start`. */
  ghost predicate Splitting(value: string, d: char, start: int, i: int, q: Quote, raw: seq<string>) {
    && 0 <= start <= i <= |value|
    && ScanAll(Outside, value) == ScanAll(q, value[i..])
    && Pieces(value, d, Outside) == raw + Extend(value[start..i], Pieces(value[i..], d, q))
  }

  lemma SplittingCut(value: string, d: char, start: int, i: int, raw: seq<string>)
    requires Splitting(value, d, start, i, Outside, raw) && i < |value| && value[i] == d && d != '"'
    ensures Splitting(value, d, i + 1, i + 1, Outside, raw + [value[start..i]])
    ensures |raw| < |Pieces(value, d, Outside)| && Pieces(value, d, Outside)[|raw|] == value[start..i]
  {
    ExtendStep(value, d, start, i, Outside);
    assert value[i..][1..] == value[i + 1..];
  }

  lemma SplittingStep(value: string, d: char, start: int, i: int, q: Quote, raw: seq<string>)
    requires Splitting(value, d, start, i, q, raw) && i < |value| && !(value[i] == d && q.Outside?)
    ensures Splitting(value, d, start, i + 1, Scan(q, value[i]), raw)
  {
    ExtendStep(value, d, start, i, q);
    assert value[i..][1..] == value[i + 1..];
  }

  lemma SplittingDone(value: string, d: char, start: int, q: Quote, raw: seq<string>)
    requires Splitting(value, d, start, |value|, q, raw)
    ensures ScanAll(Outside, value) == q && Pieces(value, d, Outside) == raw + [value[start..]]
  {
    assert value[|value|..] == "" && value[start..|value|] == value[start..];
    assert value[start..] + "" == value[start..];
  }

  method SplitForwarded(value: string, d: char) returns (r: Result<seq<string>>)
    requires d != '"'
    ensures r == Split(value, d)
  {
    var parts: seq<string> := [];
    var start, inQuotes, escaped := 0, false, false;
    ghost var raw := [];
    ExtendStart(value, d);
    for i := 0 to |value|
      invariant escaped ==> inQuotes
      invariant Splitting(value, d, start, i, if escaped then Escaped else if inQuotes then Inside else Outside, raw)
      invariant parts == StripAll(raw) && "" !in parts
    {
      var c := value[i];
      if c == d && !inQuotes {
        SplittingCut(value, d, start, i, raw);
        var part := Strip(value[start..i]);
        if part == "" {
          PieceIsEmpty(Pieces(value, d, Outside), |raw|);
          return Err;
        }
        StripAllAppend(raw, value[start..i]);
        parts, raw, start := parts + [part], raw + [value[start..i]], i + 1;
      } else {
        SplittingStep(value, d, start, i, if escaped then Escaped else if inQuotes then Inside else Outside, raw);
        if escaped {
          escaped := false;
        } else if inQuotes && c == '\\' {
          escaped := true;
        } else if c == '"' {
          inQuotes := !inQuotes;
        }
      }
    }
    SplittingDone(value, d, start, if escaped then Escaped else if inQuotes then Inside else Outside, raw);
    if inQuotes || escaped {
      return Err;
    }
    var part := Strip(value[start..]);
    if part == "" {
      PieceIsEmpty(Pieces(value, d, Outside), |raw|);
      return Err;
    }
    StripAllAppend(raw, value[start..]);
    r := Ok(parts + [part]);
  }

  lemma StripAllAppend(raw: seq<string>, piece: string)
    ensures StripAll(raw + [piece]) == StripAll(raw) + [Strip(piece)]
  {
  }

  lemma PieceIsEmpty(pieces: seq<string>, i: int)
    requires 0 <= i < |pieces| && Strip(pieces[i]) == ""
    ensures "" in StripAll(pieces)
  {
    assert StripAll(pieces)[i] == "";
  }
}
