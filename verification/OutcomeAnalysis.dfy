/**
 The (fallthrough, retry) analysis of handler bodies, and the executions it
 stands for. Conditions, matched exceptions and iteration counts are free, and
 an exception may strike before any statement or at the end of a block.
 */
module OutcomeAnalysis {

  datatype Stmt =
    | Simple
    | Break
    | Continue
    | Return
    | Raise
    | If(body: seq<Stmt>, orelse: seq<Stmt>)
    | Match(cases: seq<Case>)
    | With(body: seq<Stmt>, swallows: bool)
    | Try(body: seq<Stmt>, handlers: seq<Handler>, orelse: seq<Stmt>, finalbody: seq<Stmt>)
    | Loop(body: seq<Stmt>, orelse: seq<Stmt>)

  datatype Case = Case(body: seq<Stmt>, wildcard: bool)

  datatype Handler = Handler(body: seq<Stmt>)

  datatype Outcome = Normal | Breaks | Continues | Returns | Raises

  // ----- executions -----

  /** Some execution of the block ends in `o`. */
  ghost predicate ExecBlock(b: seq<Stmt>, o: Outcome)
    decreases b, 0
  {
    || o == Raises
    || (b == [] && o == Normal)
    || (b != [] && o != Normal && Exec(b[0], o))
    || (b != [] && Exec(b[0], Normal) && ExecBlock(b[1..], o))
  }

  /** Some execution of the statement ends in `o`. */
  ghost predicate Exec(s: Stmt, o: Outcome)
    decreases s, 3
  {
    o == Raises ||
    match s
    case Simple => o == Normal
    case Break => o == Breaks
    case Continue => o == Continues
    case Return => o == Returns
    case Raise => false
    case If(body, orelse) => ExecBlock(body, o) || ExecBlock(orelse, o)
    case Match(cases) => (o == Normal && !Exhaustive(cases)) || exists c :: c in cases && ExecBlock(c.body, o)
    case With(body, swallows) => ExecBlock(body, o) || (swallows && ExecBlock(body, Raises) && o == Normal)
    case Try(_, _, _, finalbody) =>
      if finalbody == [] then ExecTry(s, o)
      else (ExecBlock(finalbody, Normal) && ExecTry(s, o)) || (o != Normal && ExecBlock(finalbody, o))
    case Loop(_, _) => exists n: nat :: ExecLoop(s, n, o)
  }

  predicate Exhaustive(cases: seq<Case>) {
    exists c :: c in cases && c.wildcard
  }

  /** The try statement up to its finally block: body, then else or a handler. */
  ghost predicate ExecTry(s: Stmt, o: Outcome)
    requires s.Try?
    decreases s, 2
  {
    || o == Raises
    || (o != Normal && ExecBlock(s.body, o))
    || (ExecBlock(s.body, Normal) && ExecBlock(s.orelse, o))
    || (ExecBlock(s.body, Raises) && exists h :: h in s.handlers && ExecBlock(h.body, o))
  }

  /** The loop ends in `o` after at most `n` more iterations; its own breaks and continues stay inside. */
  ghost predicate ExecLoop(s: Stmt, n: nat, o: Outcome)
    requires s.Loop?
    decreases s, 1, n
  {
    || o == Raises
    || ExecBlock(s.orelse, o)
    || (n > 0 && o == Normal && ExecBlock(s.body, Breaks))
    || (n > 0 && o == Returns && ExecBlock(s.body, Returns))
    || (n > 0 && (ExecBlock(s.body, Normal) || ExecBlock(s.body, Continues)) && ExecLoop(s, n - 1, o))
  }

  // ----- the analysis -----

  datatype Bits = Bits(falls: bool, retries: bool)

  function BlockBits(b: seq<Stmt>): Bits
    decreases b, 0
  {
    if b == [] then Bits(true, false)
    else
      var first := StmtBits(b[0]);
      if !first.falls then first
      else
        var rest := BlockBits(b[1..]);
        Bits(rest.falls, first.retries || rest.retries)
  }

  function StmtBits(s: Stmt): Bits
    decreases s, 1
  {
    match s
    case Break => Bits(false, true)
    case Continue => Bits(false, true)
    case Raise => Bits(false, false)
    case Return => Bits(false, false)
    case If(body, orelse) =>
      var b, other := BlockBits(body), BlockBits(orelse);
      Bits(b.falls || other.falls, b.retries || other.retries)
    case Match(cases) =>
      Bits(!Exhaustive(cases) || exists c :: c in cases && BlockBits(c.body).falls,
           exists c :: c in cases && BlockBits(c.body).retries)
    case With(body, _) => BlockBits(body)
    case Try(body, handlers, orelse, finalbody) =>
      var b, other := BlockBits(body), BlockBits(orelse);
      var falls := (b.falls && other.falls) || exists h :: h in handlers && BlockBits(h.body).falls;
      var retries := b.retries || (b.falls && other.retries) || exists h :: h in handlers && BlockBits(h.body).retries;
      if finalbody == [] then Bits(falls, retries)
      else
        var f := BlockBits(finalbody);
        Bits(falls && f.falls, f.retries || (f.falls && retries))
    case _ => Bits(true, false)
  }

  // ----- what is possible, exactly -----

  datatype Possible = Possible(normal: bool, breaks: bool, continues: bool)

  function BlockPossible(b: seq<Stmt>): Possible
    decreases b, 0
  {
    if b == [] then Possible(true, false, false)
    else
      var first := StmtPossible(b[0]);
      if !first.normal then first
      else
        var rest := BlockPossible(b[1..]);
        Possible(rest.normal, first.breaks || rest.breaks, first.continues || rest.continues)
  }

  function StmtPossible(s: Stmt): Possible
    decreases s, 1
  {
    match s
    case Break => Possible(false, true, false)
    case Continue => Possible(false, false, true)
    case Raise => Possible(false, false, false)
    case Return => Possible(false, false, false)
    case Simple => Possible(true, false, false)
    case If(body, orelse) =>
      var b, other := BlockPossible(body), BlockPossible(orelse);
      Possible(b.normal || other.normal, b.breaks || other.breaks, b.continues || other.continues)
    case Match(cases) =>
      Possible(!Exhaustive(cases) || exists c :: c in cases && BlockPossible(c.body).normal,
               exists c :: c in cases && BlockPossible(c.body).breaks,
               exists c :: c in cases && BlockPossible(c.body).continues)
    case With(body, swallows) =>
      var b := BlockPossible(body);
      Possible(b.normal || swallows, b.breaks, b.continues)
    case Try(body, handlers, orelse, finalbody) =>
      var b, other := BlockPossible(body), BlockPossible(orelse);
      var normal := (b.normal && other.normal) || exists h :: h in handlers && BlockPossible(h.body).normal;
      var breaks := b.breaks || (b.normal && other.breaks) || exists h :: h in handlers && BlockPossible(h.body).breaks;
      var continues := b.continues || (b.normal && other.continues) ||
                       exists h :: h in handlers && BlockPossible(h.body).continues;
      if finalbody == [] then Possible(normal, breaks, continues)
      else
        var f := BlockPossible(finalbody);
        Possible(normal && f.normal, f.breaks || (f.normal && breaks), f.continues || (f.normal && continues))
    case Loop(body, orelse) =>
      var b, other := BlockPossible(body), BlockPossible(orelse);
      Possible(other.normal || b.breaks, other.breaks, other.continues)
  }

  predicate Allows(p: Possible, o: Outcome) {
    match o
    case Normal => p.normal
    case Breaks => p.breaks
    case Continues => p.continues
    case _ => true
  }

  predicate Tracked(o: Outcome) {
    o == Normal || o == Breaks || o == Continues
  }

  lemma {:induction false} BlockPossibleExact(b: seq<Stmt>, o: Outcome)
    requires Tracked(o)
    ensures Allows(BlockPossible(b), o) <==> ExecBlock(b, o)
    decreases b, 0
  {
    if b != [] {
      StmtPossibleExact(b[0], o);
      StmtPossibleExact(b[0], Normal);
      BlockPossibleExact(b[1..], o);
    }
  }

  lemma {:induction false} LoopPossibleExact(s: Stmt, n: nat, o: Outcome)
    requires Tracked(o) && s.Loop?
    requires BlockPossible(s.body).breaks <==> ExecBlock(s.body, Breaks)
    requires Allows(BlockPossible(s.orelse), o) <==> ExecBlock(s.orelse, o)
    ensures ExecLoop(s, n, o) ==> Allows(StmtPossible(s), o)
    decreases n
  {
    if n > 0 { LoopPossibleExact(s, n - 1, o); }
  }

  lemma {:induction false} TryPossibleExact(s: Stmt, o: Outcome)
    requires Tracked(o) && s.Try?
    ensures Allows(StmtPossible(s.(finalbody := [])), o) <==> ExecTry(s, o)
    decreases s, 0
  {
    BlockPossibleExact(s.body, o);
    BlockPossibleExact(s.body, Normal);
    BlockPossibleExact(s.orelse, o);
    forall h | h in s.handlers ensures Allows(BlockPossible(h.body), o) <==> ExecBlock(h.body, o) {
      BlockPossibleExact(h.body, o);
    }
  }

  /** The computed possibilities are exactly the outcomes executions can have. */
  lemma {:induction false} StmtPossibleExact(s: Stmt, o: Outcome)
    requires Tracked(o)
    ensures Allows(StmtPossible(s), o) <==> Exec(s, o)
    decreases s, 1
  {
    match s
    case If(body, orelse) =>
      BlockPossibleExact(body, o);
      BlockPossibleExact(orelse, o);
    case Match(cases) =>
      forall c | c in cases ensures Allows(BlockPossible(c.body), o) <==> ExecBlock(c.body, o) {
        BlockPossibleExact(c.body, o);
      }
    case With(body, _) => BlockPossibleExact(body, o);
    case Try(_, _, _, finalbody) =>
      TryPossibleExact(s, o);
      BlockPossibleExact(finalbody, o);
      BlockPossibleExact(finalbody, Normal);
    case Loop(body, orelse) =>
      BlockPossibleExact(orelse, o);
      BlockPossibleExact(body, Breaks);
      forall n: nat ensures ExecLoop(s, n, o) ==> Allows(StmtPossible(s), o) { LoopPossibleExact(s, n, o); }
      if Allows(StmtPossible(s), o) { assert ExecLoop(s, 1, o); }
    case _ =>
  }

  // ----- when the analysis is sound, and when it is exact -----

  /** A with-block that swallows exceptions falls through anyway, and no nested loop's else can break or continue. */
  predicate Guarded(s: Stmt)
    decreases s, 1
  {
    match s
    case If(body, orelse) => GuardedBlock(body) && GuardedBlock(orelse)
    case Match(cases) => forall c :: c in cases ==> GuardedBlock(c.body)
    case With(body, swallows) => (!swallows || BlockBits(body).falls) && GuardedBlock(body)
    case Try(body, handlers, orelse, finalbody) =>
      && GuardedBlock(body) && GuardedBlock(orelse) && GuardedBlock(finalbody)
      && forall h :: h in handlers ==> GuardedBlock(h.body)
    case Loop(_, orelse) => !BlockPossible(orelse).breaks && !BlockPossible(orelse).continues
    case _ => true
  }

  predicate GuardedBlock(b: seq<Stmt>)
    decreases b, 0
  {
    b == [] || (Guarded(b[0]) && GuardedBlock(b[1..]))
  }

  /** Every possible way to fall through or retry is covered by a bit. */
  predicate Covers(bits: Bits, p: Possible) {
    (p.normal ==> bits.falls) && (p.breaks || p.continues ==> bits.retries)
  }

  lemma {:induction false} GuardedBlockCovered(b: seq<Stmt>)
    requires GuardedBlock(b)
    ensures Covers(BlockBits(b), BlockPossible(b))
    decreases b, 0
  {
    if b != [] {
      GuardedCovered(b[0]);
      GuardedBlockCovered(b[1..]);
    }
  }

  lemma {:induction false} GuardedCovered(s: Stmt)
    requires Guarded(s)
    ensures Covers(StmtBits(s), StmtPossible(s))
    decreases s, 1
  {
    match s
    case If(body, orelse) =>
      GuardedBlockCovered(body);
      GuardedBlockCovered(orelse);
    case Match(cases) =>
      forall c | c in cases ensures Covers(BlockBits(c.body), BlockPossible(c.body)) { GuardedBlockCovered(c.body); }
    case With(body, _) => GuardedBlockCovered(body);
    case Try(body, handlers, orelse, finalbody) =>
      GuardedBlockCovered(body);
      GuardedBlockCovered(orelse);
      GuardedBlockCovered(finalbody);
      forall h | h in handlers ensures Covers(BlockBits(h.body), BlockPossible(h.body)) { GuardedBlockCovered(h.body); }
    case _ =>
  }

  /** Some execution of the block goes round the enclosing loop again, or may do so. */
  ghost predicate CanRetry(b: seq<Stmt>) {
    ExecBlock(b, Normal) || ExecBlock(b, Breaks) || ExecBlock(b, Continues)
  }

  predicate HandlerRetriesLoop(h: Handler) {
    BlockBits(h.body).falls || BlockBits(h.body).retries
  }

  /** An execution that ends normally is announced by the fallthrough bit, a break or continue by the retry bit. */
  ghost predicate Sound(b: seq<Stmt>) {
    && (ExecBlock(b, Normal) ==> BlockBits(b).falls)
    && (ExecBlock(b, Breaks) || ExecBlock(b, Continues) ==> BlockBits(b).retries)
  }

  /** The analysis is sound on every guarded block. */
  lemma AnalysisSound(b: seq<Stmt>)
    requires GuardedBlock(b)
    ensures Sound(b)
  {
    GuardedBlockCovered(b);
    SoundIffCovered(b);
  }

  /** Soundness on one block is decidable, by comparing the bits with what is possible. */
  lemma SoundIffCovered(b: seq<Stmt>)
    ensures Covers(BlockBits(b), BlockPossible(b)) <==> Sound(b)
  {
    BlockPossibleExact(b, Normal);
    BlockPossibleExact(b, Breaks);
    BlockPossibleExact(b, Continues);
  }

  /** The statement is analysed soundly whatever guarded code follows it. */
  ghost predicate SoundBefore(s: Stmt) {
    forall rest :: GuardedBlock(rest) ==> Sound([s] + rest)
  }

  lemma GuardedIsSoundBefore(s: Stmt)
    requires Guarded(s)
    ensures SoundBefore(s)
  {
    forall rest | GuardedBlock(rest) ensures Sound([s] + rest) {
      assert ([s] + rest)[1..] == rest;
      AnalysisSound([s] + rest);
    }
  }

  /** Any loop whose else can break or continue hides it when nothing after the loop falls through. */
  lemma UnguardedLoopIsMissed(s: Stmt)
    requires s.Loop? && !Guarded(s)
    ensures !Sound([s] + [Raise])
  {
    var b := [s] + [Raise];
    assert b[1..] == [Raise] && [Raise][1..] == [];
    SoundIffCovered(b);
  }

  /** Any with-block that swallows exceptions falls through unannounced unless its body is seen to. */
  lemma UnguardedWithIsMissed(s: Stmt)
    requires s.With? && s.swallows && !BlockBits(s.body).falls
    ensures !Sound([s] + [])
  {
    var b := [s] + [];
    assert b[1..] == [];
    SoundIffCovered(b);
  }

  /** Over guarded blocks, a with-block or loop is analysed soundly before every guarded rest exactly when guarded. */
  lemma SoundBeforeIffGuarded(s: Stmt)
    requires s.Loop? || (s.With? && GuardedBlock(s.body))
    ensures SoundBefore(s) <==> Guarded(s)
  {
    if Guarded(s) {
      GuardedIsSoundBefore(s);
    } else if s.Loop? {
      UnguardedLoopIsMissed(s);
      assert GuardedBlock([Raise]);
    } else {
      UnguardedWithIsMissed(s);
      assert GuardedBlock([]);
    }
  }

  /** The statement, and every statement the analysis looks at inside it, is analysed soundly in place. */
  ghost predicate SoundThroughout(s: Stmt)
    decreases s, 1
  {
    && SoundBefore(s)
    && match s
       case If(body, orelse) => BlockSoundThroughout(body) && BlockSoundThroughout(orelse)
       case Match(cases) => forall c :: c in cases ==> BlockSoundThroughout(c.body)
       case With(body, _) => BlockSoundThroughout(body)
       case Try(body, handlers, orelse, finalbody) =>
         && BlockSoundThroughout(body) && BlockSoundThroughout(orelse) && BlockSoundThroughout(finalbody)
         && forall h :: h in handlers ==> BlockSoundThroughout(h.body)
       case _ => true
  }

  ghost predicate BlockSoundThroughout(b: seq<Stmt>)
    decreases b, 0
  {
    b == [] || (SoundThroughout(b[0]) && BlockSoundThroughout(b[1..]))
  }

  lemma {:induction false} BlockGuardedIff(b: seq<Stmt>)
    ensures BlockSoundThroughout(b) <==> GuardedBlock(b)
    decreases b, 0
  {
    if b != [] {
      GuardedIff(b[0]);
      BlockGuardedIff(b[1..]);
    }
  }

  /** For every statement tree, the guards are exactly soundness at each statement the analysis looks at. */
  lemma {:induction false} GuardedIff(s: Stmt)
    ensures SoundThroughout(s) <==> Guarded(s)
    decreases s, 1
  {
    if Guarded(s) { GuardedIsSoundBefore(s); }
    match s
    case If(body, orelse) =>
      BlockGuardedIff(body);
      BlockGuardedIff(orelse);
    case Match(cases) =>
      forall c | c in cases ensures BlockSoundThroughout(c.body) <==> GuardedBlock(c.body) { BlockGuardedIff(c.body); }
    case With(body, _) =>
      BlockGuardedIff(body);
      if GuardedBlock(body) { SoundBeforeIffGuarded(s); }
    case Try(body, handlers, orelse, finalbody) =>
      BlockGuardedIff(body);
      BlockGuardedIff(orelse);
      BlockGuardedIff(finalbody);
      forall h | h in handlers ensures BlockSoundThroughout(h.body) <==> GuardedBlock(h.body) { BlockGuardedIff(h.body); }
    case Loop(_, _) => SoundBeforeIffGuarded(s);
    case _ =>
  }

  /** Guarded, and every nested loop that has an else block can still complete. */
  predicate Tame(s: Stmt)
    decreases s, 1
  {
    match s
    case If(body, orelse) => TameBlock(body) && TameBlock(orelse)
    case Match(cases) => forall c :: c in cases ==> TameBlock(c.body)
    case With(body, swallows) => !swallows && TameBlock(body)
    case Try(body, handlers, orelse, finalbody) =>
      && TameBlock(body) && TameBlock(orelse) && TameBlock(finalbody)
      && forall h :: h in handlers ==> TameBlock(h.body)
    case Loop(_, _) => StmtPossible(s) == Possible(true, false, false)
    case _ => true
  }

  predicate TameBlock(b: seq<Stmt>)
    decreases b, 0
  {
    b == [] || (Tame(b[0]) && TameBlock(b[1..]))
  }

  predicate Agrees(bits: Bits, p: Possible) {
    bits == Bits(p.normal, p.breaks || p.continues)
  }

  lemma {:induction false} TameBlockAgrees(b: seq<Stmt>)
    requires TameBlock(b)
    ensures Agrees(BlockBits(b), BlockPossible(b))
    decreases b, 0
  {
    if b != [] {
      TameAgrees(b[0]);
      TameBlockAgrees(b[1..]);
    }
  }

  lemma {:induction false} TameAgrees(s: Stmt)
    requires Tame(s)
    ensures Agrees(StmtBits(s), StmtPossible(s))
    decreases s, 1
  {
    match s
    case If(body, orelse) =>
      TameBlockAgrees(body);
      TameBlockAgrees(orelse);
    case Match(cases) =>
      forall c | c in cases ensures Agrees(BlockBits(c.body), BlockPossible(c.body)) { TameBlockAgrees(c.body); }
    case With(body, _) => TameBlockAgrees(body);
    case Try(body, handlers, orelse, finalbody) =>
      TameBlockAgrees(body);
      TameBlockAgrees(orelse);
      TameBlockAgrees(finalbody);
      forall h | h in handlers ensures Agrees(BlockBits(h.body), BlockPossible(h.body)) { TameBlockAgrees(h.body); }
    case _ =>
  }

  /** On tame handlers the verdict is exact: it flags the handler just when some execution can retry. */
  lemma HandlerVerdictExact(h: Handler)
    requires TameBlock(h.body)
    ensures HandlerRetriesLoop(h) <==> CanRetry(h.body)
  {
    TameBlockAgrees(h.body);
    BlockPossibleExact(h.body, Normal);
    BlockPossibleExact(h.body, Breaks);
    BlockPossibleExact(h.body, Continues);
  }

  /** A loop whose else block breaks the enclosing loop is missed. */
  lemma LoopElseBreakIsMissed()
    ensures var b := [Loop([Simple], [Break]), Raise];
            ExecBlock(b, Breaks) && BlockBits(b) == Bits(false, false)
  {
    var loop := Loop([Simple], [Break]);
    var b := [loop, Raise];
    BlockPossibleExact([Break], Breaks);
    assert BlockPossible([Break]) == StmtPossible(Break);
    assert ExecLoop(loop, 0, Breaks);
    assert Exec(b[0], Breaks);
    assert b[1..] == [Raise];
    assert BlockBits([Raise]) == Bits(false, false);
  }

  /** A with-block that swallows the exception it raises falls through unannounced. */
  lemma SwallowingWithIsMissed()
    ensures var b := [With([Raise], true)];
            ExecBlock(b, Normal) && BlockBits(b) == Bits(false, false)
  {
    var b := [With([Raise], true)];
    assert b[1..] == [];
    assert ExecBlock([], Normal) && Exec(b[0], Normal);
    assert BlockBits([Raise]) == Bits(false, false);
  }

  // ----- the analysis as it runs: two flags updated in loops -----

  method SequenceOutcome(b: seq<Stmt>) returns (falls: bool, retries: bool)
    ensures Bits(falls, retries) == BlockBits(b)
    decreases b, 0
  {
    falls, retries := true, false;
    var i := 0;
    while i < |b| && falls
      invariant i <= |b|
      invariant BlockBits(b) == if falls then Bits(BlockBits(b[i..]).falls, retries || BlockBits(b[i..]).retries)
                                else Bits(false, retries)
      decreases |b| - i
    {
      var f, r := StatementOutcome(b[i]);
      assert b[i..][1..] == b[i + 1..];
      falls, retries, i := f, retries || r, i + 1;
    }
    assert b[|b|..] == [];
  }

  method CasesOutcome(cases: seq<Case>) returns (falls: bool, retries: bool)
    ensures falls <==> exists c :: c in cases && BlockBits(c.body).falls
    ensures retries <==> exists c :: c in cases && BlockBits(c.body).retries
    decreases cases, 0
  {
    falls, retries := false, false;
    for i := 0 to |cases|
      invariant falls <==> exists c :: c in cases[..i] && BlockBits(c.body).falls
      invariant retries <==> exists c :: c in cases[..i] && BlockBits(c.body).retries
    {
      var f, r := SequenceOutcome(cases[i].body);
      assert forall c :: c in cases[..i + 1] <==> c in cases[..i] || c == cases[i];
      falls, retries := falls || f, retries || r;
    }
    assert cases[..|cases|] == cases;
  }

  method HandlersOutcome(handlers: seq<Handler>, falls0: bool, retries0: bool) returns (falls: bool, retries: bool)
    ensures falls <==> falls0 || exists h :: h in handlers && BlockBits(h.body).falls
    ensures retries <==> retries0 || exists h :: h in handlers && BlockBits(h.body).retries
    decreases handlers, 0
  {
    falls, retries := falls0, retries0;
    for i := 0 to |handlers|
      invariant falls <==> falls0 || exists h :: h in handlers[..i] && BlockBits(h.body).falls
      invariant retries <==> retries0 || exists h :: h in handlers[..i] && BlockBits(h.body).retries
    {
      var f, r := SequenceOutcome(handlers[i].body);
      assert forall h :: h in handlers[..i + 1] <==> h in handlers[..i] || h == handlers[i];
      falls, retries := falls || f, retries || r;
    }
    assert handlers[..|handlers|] == handlers;
  }

  method StatementOutcome(s: Stmt) returns (falls: bool, retries: bool)
    ensures Bits(falls, retries) == StmtBits(s)
    decreases s, 1
  {
    match s
    case Break => return false, true;
    case Continue => return false, true;
    case Raise => return false, false;
    case Return => return false, false;
    case If(body, orelse) =>
      var f, r := SequenceOutcome(body);
      var f', r' := SequenceOutcome(orelse);
      return f || f', r || r';
    case Match(cases) =>
      var f, r := CasesOutcome(cases);
      return !Exhaustive(cases) || f, r;
    case With(body, _) =>
      falls, retries := SequenceOutcome(body);
    case Try(body, handlers, orelse, finalbody) =>
      var f, r := SequenceOutcome(body);
      var f', r' := SequenceOutcome(orelse);
      falls, retries := HandlersOutcome(handlers, f && f', r || (f && r'));
      if finalbody != [] {
        var ff, fr := SequenceOutcome(finalbody);
        falls, retries := falls && ff, fr || (ff && retries);
      }
    case _ => return true, false;
  }
}
