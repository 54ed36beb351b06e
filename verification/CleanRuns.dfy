/** Pipelines that nothing disturbs: over a storage that holds a file, only a failed read or a cancel keeps a run from
    delivering all of it. */
module CleanRuns {
  import opened Common
  import opened P = Pipeline
  import opened R = ReconstructedFile

  /** A read of the storage that fails, or a cancel. */
  predicate Disturbs(step: Step) { step.FetchError? || step.Cancel? }

  ghost predicate Undisturbed(trace: seq<(Step, State)>) {
    forall i {:trigger trace[i]} :: 0 <= i < |trace| ==> !Disturbs(trace[i].0)
  }

  /** Nothing has gone wrong so far. */
  ghost predicate Calm(cfg: Config, s: State) {
    && P.Inv(cfg, s) && Sourced(cfg, s) && |s.mem.frames| == WINDOW
    && !s.cancelled && !s.failed && !s.readerDone
  }

  ghost predicate Held(cfg: Config, parts: seq<seq<Bytes>>) { Workable(cfg) && HoldsParts(cfg, parts) }

  // ---------------------------------------------------------------- nothing goes wrong

  /** What was read of the current term unpacks to its chunks. */
  lemma PartialUnpacks(cfg: Config, parts: seq<seq<Bytes>>, i: nat, ps: seq<Packed>)
    requires Held(cfg, parts) && i < |cfg.terms| && cfg.terms[i].bytes > 0
    requires FromTerm(cfg, i, ps) && |ps| <= cfg.terms[i].chunks
    ensures |parts[i]| == cfg.terms[i].chunks && Unpacks(cfg, ps, parts[i][..|ps|])
  {
    assert HoldsTerm(cfg, i, parts[i]);
    var cs := parts[i][..|ps|];
    forall k | 0 <= k < |ps| ensures cfg.decode(ps[k]) == Some(cs[k]) {
      assert cs[k] == parts[i][k];
      assert cfg.frame(i, k) == Some(ps[k]);
    }
  }

  lemma UnpackedSize(cfg: Config, ps: seq<Packed>, cs: seq<Bytes>)
    requires DecodesToSize(cfg.decode) && Unpacks(cfg, ps, cs)
    ensures Sizes(ps) == |Flatten(cs)|
  {
    forall i | 0 <= i < |cs| ensures cfg.decode(ps[i]) == Some(cs[i]) {}
    OutputSizes(cfg.decode, ps, cs);
    assert ps[..|cs|] == ps;
  }

  /** The chunks read of a term never exceed the size it declares, and make it up once all are read. */
  lemma TermAddsUp(cfg: Config, parts: seq<seq<Bytes>>, i: nat, ps: seq<Packed>)
    requires Held(cfg, parts) && i < |cfg.terms| && cfg.terms[i].bytes > 0
    requires FromTerm(cfg, i, ps) && |ps| <= cfg.terms[i].chunks
    ensures Sizes(ps) <= cfg.terms[i].bytes && (|ps| == cfg.terms[i].chunks ==> Sizes(ps) == cfg.terms[i].bytes)
  {
    PartialUnpacks(cfg, parts, i, ps);
    assert HoldsTerm(cfg, i, parts[i]);
    UnpackedSize(cfg, ps, parts[i][..|ps|]);
    FlattenMonotone(parts[i][..|ps|], parts[i]);
    if |ps| == cfg.terms[i].chunks { assert parts[i][..|ps|] == parts[i]; }
  }

  /** The chunk the reader waits for decodes. */
  lemma ArrivalDecodes(cfg: Config, parts: seq<seq<Bytes>>, s: State)
    requires Held(cfg, parts) && Calm(cfg, s) && s.board.waiting.Some? && s.board.waiting.value in s.board.ready
    ensures P.InRange(s, s.board.waiting) && Arriving(s).Some?
  {
    assert Content(cfg, s);
    var cs := FetchedUnpacks(cfg, s, parts);
    var f := s.board.waiting.value;
    assert s.mem.frames[f].data == cfg.decode(s.mem.frames[f].packed);
    assert s.mem.frames[f].packed == Fetched(s)[s.taken - 1];
  }

  lemma SizeIsRight(cfg: Config, parts: seq<seq<Bytes>>, s: State)
    requires Held(cfg, parts) && Calm(cfg, s) && TermRead(cfg, s.fetcher)
    ensures Sizes(s.partial) == cfg.terms[s.fetcher.term].bytes
  {
    TermAddsUp(cfg, parts, s.fetcher.term, s.partial);
  }

  /** What a step that is no error does to the flags. */
  lemma FlagsKept(cfg: Config, s: State, step: Step, t: State)
    requires Next(cfg, s, step, t) && !s.cancelled && !s.failed && !s.readerDone && !Disturbs(step)
    requires !step.WrongSize? && !step.ChunkFailed?
    ensures !t.cancelled && !t.failed && !t.readerDone && |t.mem.frames| == |s.mem.frames|
  {
    match step {
      case SkipTerm => case Acquire => case AcquireCancelled => case ReadInto => case Deliver(_) => case SendOn =>
      case EndTerm => case CloseOrdered => case CloseJobs =>
      case StartJob => case FinishJob(_) => case Announce(_) => case ExitWorker =>
      case TakeNext => case Serve => case Discard => case ArrivedCancelled => case ReaderCancelled =>
      case ReleaseServed => case Stop =>
    }
  }

  lemma CalmStep(cfg: Config, parts: seq<seq<Bytes>>, s: State, step: Step, t: State)
    requires Held(cfg, parts) && Calm(cfg, s) && Next(cfg, s, step, t) && !Disturbs(step)
    ensures Calm(cfg, t)
  {
    InvStep(cfg, s, step, t);
    SourcedStep(cfg, s, step, t);
    if step.WrongSize? { SizeIsRight(cfg, parts, s); }
    if step.ChunkFailed? { ArrivalDecodes(cfg, parts, s); }
    FlagsKept(cfg, s, step, t);
  }

  // ---------------------------------------------------------------- it goes on

  ghost predicate GoesOn(cfg: Config, s: State) { exists step, t :: Next(cfg, s, step, t) && !Disturbs(step) }

  lemma CanGo(cfg: Config, s: State, step: Step, t: State)
    requires Next(cfg, s, step, t) && !Disturbs(step)
    ensures GoesOn(cfg, s)
  {
  }

  lemma WorkersGo(cfg: Config, s: State)
    requires WorkersCanStep(cfg, s)
    ensures GoesOn(cfg, s)
  {
    var step, t :| Next(cfg, s, step, t) && WorkerStep(cfg, s, step, t);
    assert !Disturbs(step);
  }

  /** While the reader waits for a chunk, it can be served or is on its way. */
  lemma WaitingGoesOn(cfg: Config, parts: seq<seq<Bytes>>, s: State)
    requires Held(cfg, parts) && Calm(cfg, s) && s.board.waiting.Some?
    ensures GoesOn(cfg, s)
  {
    var b, f := s.board, s.board.waiting.value;
    if f in b.ready {
      ArrivalDecodes(cfg, parts, s);
      DiscardGoes(cfg, s);
    } else {
      assert Pending(b, f) == Awaited(b, f);
      if b.unsent == Some(f) {
        SendGoesOn(cfg, s);
      } else {
        WorkersGoOn(cfg, s);
        WorkersGo(cfg, s);
      }
    }
  }

  lemma DiscardGoes(cfg: Config, s: State)
    requires P.InRange(s, s.board.waiting) && s.board.waiting.value in s.board.ready && !s.readerDone &&
      Arriving(s).Some?
    ensures GoesOn(cfg, s)
  {
    CanGo(cfg, s, P.Discard,
      s.(board := Apply(s.board, Drain), mem := PutBufs(s.mem, s.board.waiting.value),
         output := s.output + [Arriving(s).value]));
  }

  lemma SendGoesOn(cfg: Config, s: State)
    requires s.board.unsent.Some? && s.fetcher.Sending?
    ensures GoesOn(cfg, s)
  {
    CanGo(cfg, s, SendOn,
      s.(board := Apply(s.board, SendJob), fetcher := Needs(s.fetcher.term, s.fetcher.chunk + 1)));
  }

  lemma TakeGoesOn(cfg: Config, s: State)
    requires s.board.waiting.None? && s.board.ordered != [] && !s.readerDone
    ensures GoesOn(cfg, s)
  {
    CanGo(cfg, s, TakeNext, s.(board := Apply(s.board, P.Take), taken := s.taken + 1));
  }

  /** A fetcher that wants a slot gets one, or the reader can give one back. */
  lemma SlotGoesOn(cfg: Config, s: State)
    requires Calm(cfg, s) && s.board.waiting.None? && s.board.ordered == [] && WantsFrame(cfg, s.fetcher)
    ensures GoesOn(cfg, s)
  {
    if s.board.free != [] {
      AcquireGoes(cfg, s);
    } else {
      assert Places(s.board, 0) == Tally(0 < |s.mem.frames|);
      ReleaseGoes(cfg, s);
    }
  }

  lemma AcquireGoes(cfg: Config, s: State)
    requires WantsFrame(cfg, s.fetcher) && s.board.free != [] && s.board.held.None? && s.board.unsent.None?
    ensures GoesOn(cfg, s)
  {
    var at := s.fetcher;
    CanGo(cfg, s, Acquire,
      s.(board := Apply(s.board, ToFetcher), fetcher := Holding(at.term, if at.Needs? then at.chunk else 0)));
  }

  lemma ReleaseGoes(cfg: Config, s: State)
    requires P.InRange(s, s.board.cur) && !s.stopped
    ensures GoesOn(cfg, s)
  {
    CanGo(cfg, s, ReleaseServed, s.(board := Apply(s.board, Release), mem := PutBufs(s.mem, s.board.cur.value)));
  }

  lemma ReadGoesOn(cfg: Config, parts: seq<seq<Bytes>>, s: State)
    requires Held(cfg, parts) && Calm(cfg, s) && s.fetcher.Holding?
    ensures GoesOn(cfg, s)
  {
    var at := s.fetcher;
    assert HoldsTerm(cfg, at.term, parts[at.term]);
    assert Flatten<Byte>([]) == [];
    CanGo(cfg, s, ReadInto, s.(mem := GetIn(s.mem, s.board.held.value), fetcher := Filling(at.term, at.chunk)));
  }

  lemma DeliverGoesOn(cfg: Config, parts: seq<seq<Bytes>>, s: State)
    requires Held(cfg, parts) && Calm(cfg, s) && s.fetcher.Filling?
    ensures GoesOn(cfg, s)
  {
    var at, f := s.fetcher, s.board.held.value;
    assert HoldsTerm(cfg, at.term, parts[at.term]);
    assert parts[at.term][at.chunk] == parts[at.term][at.chunk];
    var p := cfg.frame(at.term, at.chunk).value;
    var ps := s.partial + [p];
    forall k | 0 <= k < |ps| ensures cfg.frame(at.term, k) == Some(ps[k]) {
      if k < |s.partial| { assert ps[k] == s.partial[k]; }
    }
    TermAddsUp(cfg, parts, at.term, ps);
    SizesSnoc(s.partial, p);
    CanGo(cfg, s, Deliver(p),
      s.(board := Apply(s.board, Push), mem := SetPacked(s.mem, f, p), fetcher := Sending(at.term, at.chunk),
         partial := ps));
  }

  lemma TermGoesOn(cfg: Config, parts: seq<seq<Bytes>>, s: State)
    requires Held(cfg, parts) && Calm(cfg, s) && TermRead(cfg, s.fetcher)
    ensures GoesOn(cfg, s)
  {
    SizeIsRight(cfg, parts, s);
    CanGo(cfg, s, EndTerm, s.(fetcher := AtTerm(s.fetcher.term + 1), done := s.done + [s.partial], partial := []));
  }

  lemma NextTermGoesOn(cfg: Config, s: State)
    requires s.fetcher.AtTerm? && s.fetcher.term <= |cfg.terms| && !WantsFrame(cfg, s.fetcher)
    ensures GoesOn(cfg, s)
  {
    if s.fetcher.term < |cfg.terms| {
      CanGo(cfg, s, SkipTerm, s.(fetcher := AtTerm(s.fetcher.term + 1), done := s.done + [[]]));
    } else {
      CanGo(cfg, s, CloseOrdered, s.(fetcher := Closing, orderedClosed := true));
    }
  }

  /** Unless the reader has everything, some thread can step without anything going wrong. */
  lemma CalmGoesOn(cfg: Config, parts: seq<seq<Bytes>>, s: State)
    requires Held(cfg, parts) && Calm(cfg, s) && !Drained(s)
    ensures GoesOn(cfg, s)
  {
    var b, at := s.board, s.fetcher;
    if b.waiting.Some? {
      WaitingGoesOn(cfg, parts, s);
    } else if b.ordered != [] {
      TakeGoesOn(cfg, s);
    } else if WantsFrame(cfg, at) {
      SlotGoesOn(cfg, s);
    } else if at.Holding? {
      ReadGoesOn(cfg, parts, s);
    } else if at.Filling? {
      DeliverGoesOn(cfg, parts, s);
    } else if at.Sending? {
      SendGoesOn(cfg, s);
    } else if at.Needs? {
      TermGoesOn(cfg, parts, s);
    } else {
      NextTermGoesOn(cfg, s);
    }
  }

  // ---------------------------------------------------------------- and ends

  /** The chunks of all terms from i on. */
  function ChunksFrom(cfg: Config, i: nat): nat
    decreases |cfg.terms| - i
  {
    if i >= |cfg.terms| then 0 else cfg.terms[i].chunks + ChunksFrom(cfg, i + 1)
  }

  /** No more is fetched than the terms name. */
  lemma {:induction false} FetchedFew(cfg: Config, done: seq<seq<Packed>>, n: nat)
    requires n <= |done| <= |cfg.terms| && forall j {:trigger done[j]} :: 0 <= j < |done| ==> WholeTerm(cfg, j, done[j])
    ensures |Flatten(done[..n])| + ChunksFrom(cfg, n) <= ChunksFrom(cfg, 0)
  {
    if n > 0 {
      FetchedFew(cfg, done, n - 1);
      assert done[..n] == done[..n - 1] + [done[n - 1]];
      FlattenSnoc(done[..n - 1], done[n - 1]);
      assert WholeTerm(cfg, n - 1, done[n - 1]);
    }
  }

  lemma TakenFew(cfg: Config, s: State)
    requires Calm(cfg, s)
    ensures s.taken <= ChunksFrom(cfg, 0)
  {
    assert Content(cfg, s);
    FetchedFew(cfg, s.done, |s.done|);
    assert s.done[..|s.done|] == s.done;
  }

  /** What the reader has left to do. */
  function ReaderLeft(cfg: Config, s: State): int {
    4 * (ChunksFrom(cfg, 0) - s.taken) + 2 * Tally(s.board.waiting.Some?) + Tally(s.board.cur.Some?)
  }

  function Left(cfg: Config, s: State): int { StepsLeft(cfg, s) + ReaderLeft(cfg, s) }

  lemma LeftPositive(cfg: Config, s: State)
    requires Calm(cfg, s)
    ensures Left(cfg, s) >= 0
  {
    StepsLeftPositive(cfg, s);
    TakenFew(cfg, s);
  }

  lemma OthersLeave(cfg: Config, s: State, step: Step, t: State)
    requires Next(cfg, s, step, t) && (FetcherStep(cfg, s, step, t) || WorkerStep(cfg, s, step, t))
    ensures ReaderLeft(cfg, t) == ReaderLeft(cfg, s)
  {
    match step {
      case SkipTerm => case Acquire => case AcquireCancelled => case FetchError => case ReadInto => case Deliver(_) =>
      case SendOn => case EndTerm => case WrongSize => case CloseOrdered => case CloseJobs =>
      case StartJob => case FinishJob(_) => case Announce(_) => case ExitWorker =>
      case _ =>
    }
  }

  lemma ReaderDescends(cfg: Config, s: State, step: Step, t: State)
    requires Next(cfg, s, step, t) && ByReader(step) && !s.cancelled && !s.readerDone && !t.readerDone &&
      !Disturbs(step)
    ensures ReaderLeft(cfg, t) < ReaderLeft(cfg, s)
  {
    assert !FetcherStep(cfg, s, step, t) && !WorkerStep(cfg, s, step, t);
    ReaderKinds(cfg, s, step, t);
    ReaderMoveDescends(cfg, s, step, t);
  }

  /** What the reader does when nothing goes wrong. */
  lemma ReaderKinds(cfg: Config, s: State, step: Step, t: State)
    requires CanTouch(s, step) && ReaderStep(cfg, s, step, t) && !s.cancelled && !t.readerDone && !Disturbs(step)
    ensures step.TakeNext? || step.Serve? || step.Discard? || step.ReleaseServed?
    ensures t.taken == s.taken + Tally(step.TakeNext?)
  {
  }

  lemma ReaderMoveDescends(cfg: Config, s: State, step: Step, t: State)
    requires CanMove(s.board, MoveOf(step)) && t.board == Apply(s.board, MoveOf(step))
    requires step.TakeNext? || step.Serve? || step.Discard? || step.ReleaseServed?
    requires t.taken == s.taken + Tally(step.TakeNext?)
    ensures ReaderLeft(cfg, t) < ReaderLeft(cfg, s)
  {
  }

  /** Every step uses up one of finitely many. */
  lemma CalmDescends(cfg: Config, parts: seq<seq<Bytes>>, s: State, step: Step, t: State)
    requires Held(cfg, parts) && Calm(cfg, s) && Next(cfg, s, step, t) && !Disturbs(step)
    ensures Calm(cfg, t) && Left(cfg, t) < Left(cfg, s)
  {
    CalmStep(cfg, parts, s, step, t);
    if ByReader(step) {
      ReaderKeepsSteps(cfg, s, step, t);
      ReaderDescends(cfg, s, step, t);
    } else {
      OthersStep(cfg, s, step, t);
      Descends(cfg, s, step, t);
      OthersLeave(cfg, s, step, t);
    }
  }

  lemma InitCalm(cfg: Config)
    requires cfg.workers > 0
    ensures Calm(cfg, Init(WINDOW))
  {
    InitInv(cfg, WINDOW);
    assert Fetched(Init(WINDOW)) == [];
  }

  ghost function CalmSteps(cfg: Config): (State, Step, State) -> bool {
    (s: State, step: Step, t: State) => Next(cfg, s, step, t) && !Disturbs(step)
  }

  lemma CalmRun(cfg: Config, first: State, trace: seq<(Step, State)>)
    requires Run(Steps(cfg), first, trace) && Undisturbed(trace)
    ensures Run(CalmSteps(cfg), first, trace)
  {
    forall i | 0 <= i < |trace| ensures CalmSteps(cfg)(Before(first, trace, i), trace[i].0, trace[i].1) {
      assert Steps(cfg)(Before(first, trace, i), trace[i].0, trace[i].1);
    }
  }

  /** Nothing goes wrong in a run that nothing disturbs, under every interleaving, and it takes boundedly many steps. */
  lemma UndisturbedRuns(cfg: Config, parts: seq<seq<Bytes>>, first: State, trace: seq<(Step, State)>, i: nat)
    requires Held(cfg, parts) && Calm(cfg, first) && Run(Steps(cfg), first, trace) && Undisturbed(trace) && i <= |trace|
    ensures var s := Before(first, trace, i); Calm(cfg, s) && i + Left(cfg, s) <= Left(cfg, first)
  {
    var good := (s: State) => Calm(cfg, s);
    var left := (s: State) => Left(cfg, s);
    var all := (step: Step) => true;
    forall s, step, t | good(s) && CalmSteps(cfg)(s, step, t) ensures good(t) && left(t) + 1 <= left(s) {
      CalmDescends(cfg, parts, s, step, t);
    }
    CalmRun(cfg, first, trace);
    CountBound(CalmSteps(cfg), good, left, all, first, trace, i);
    CountAll(all, trace, i);
  }

  /** So no such run is longer than what there is to do; until the reader has everything it can go on; and once the
      reader gets no more it has the whole file. */
  lemma UndisturbedDelivers(cfg: Config, parts: seq<seq<Bytes>>, trace: seq<(Step, State)>)
    requires Held(cfg, parts) && Run(Steps(cfg), Init(WINDOW), trace) && Undisturbed(trace)
    ensures |trace| <= Left(cfg, Init(WINDOW))
    ensures var s := Before(Init(WINDOW), trace, |trace|);
      (Drained(s) || GoesOn(cfg, s)) && (Over(s) ==> Drained(s) && s.output == Flatten(parts))
  {
    var s := Before(Init(WINDOW), trace, |trace|);
    InitCalm(cfg);
    UndisturbedRuns(cfg, parts, Init(WINDOW), trace, |trace|);
    LeftPositive(cfg, s);
    if !Drained(s) { CalmGoesOn(cfg, parts, s); }
    if Over(s) {
      assert EndsIn(Stream(s.output, true), s);
      StreamRight(cfg, Stream(s.output, true), parts);
    }
  }

  /** There is such a run that delivers all, whatever was done before. */
  lemma {:induction false} CleanRun(cfg: Config, parts: seq<seq<Bytes>>, before: seq<(Step, State)>)
    returns (trace: seq<(Step, State)>)
    requires Held(cfg, parts) && Run(Steps(cfg), Init(WINDOW), before) && Undisturbed(before)
    ensures before <= trace && Run(Steps(cfg), Init(WINDOW), trace) && Undisturbed(trace)
    ensures Drained(Before(Init(WINDOW), trace, |trace|))
    decreases Left(cfg, Init(WINDOW)) - |before|
  {
    var s := Before(Init(WINDOW), before, |before|);
    UndisturbedDelivers(cfg, parts, before);
    if Drained(s) {
      trace := before;
    } else {
      var step, t :| Next(cfg, s, step, t) && !Disturbs(step);
      RunSnoc(cfg, before, step, t);
      UndisturbedDelivers(cfg, parts, before + [(step, t)]);
      trace := CleanRun(cfg, parts, before + [(step, t)]);
    }
  }

  /** Over a storage that holds a file, some run delivers all of it. */
  lemma CleanStream(cfg: Config, parts: seq<seq<Bytes>>) returns (st: Stream)
    requires Held(cfg, parts)
    ensures Delivers(cfg, st) && st.clean && st.chunks == Flatten(parts)
  {
    var trace := CleanRun(cfg, parts, []);
    UndisturbedDelivers(cfg, parts, trace);
    var s := Before(Init(WINDOW), trace, |trace|);
    st := Stream(s.output, true);
    assert EndsIn(st, s);
  }

  /** A stream that does not end cleanly comes of a run with a failed read or a cancel. */
  lemma UncleanIsDisturbed(cfg: Config, parts: seq<seq<Bytes>>, trace: seq<(Step, State)>, st: Stream) returns (i: nat)
    requires Held(cfg, parts) && Run(Steps(cfg), Init(WINDOW), trace) && !st.clean
    requires EndsIn(st, Before(Init(WINDOW), trace, |trace|))
    ensures i < |trace| && Disturbs(trace[i].0)
  {
    if Undisturbed(trace) { UndisturbedDelivers(cfg, parts, trace); }
    i :| 0 <= i < |trace| && Disturbs(trace[i].0);
  }

  lemma RunSnoc(cfg: Config, trace: seq<(Step, State)>, step: Step, t: State)
    requires Run(Steps(cfg), Init(WINDOW), trace) && Undisturbed(trace)
    requires Next(cfg, Before(Init(WINDOW), trace, |trace|), step, t) && !Disturbs(step)
    ensures Run(Steps(cfg), Init(WINDOW), trace + [(step, t)]) && Undisturbed(trace + [(step, t)])
  {
    var longer := trace + [(step, t)];
    forall i | 0 <= i < |longer|
      ensures Steps(cfg)(Before(Init(WINDOW), longer, i), longer[i].0, longer[i].1) && !Disturbs(longer[i].0)
    {
      if i < |trace| { assert trace[i] == longer[i]; }
      if i > 0 { assert longer[i - 1] == trace[i - 1]; }
    }
  }
}
