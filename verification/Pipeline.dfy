/** The decode pipeline: one fetcher, several workers and a reader share a window of frames over three channels. */
module Pipeline {
  import opened Common

  const WINDOW: nat := 32

  // ---------------------------------------------------------------- where frames are

  /** Frames are named by index. The free, jobs and ordered channels; frames being decoded, decoded and not yet
      signalled, and signalled; the one the fetcher fills and the one it has queued for the reader but not yet for a
      worker; the one the reader serves and the one it waits for; and those abandoned, idle or with a decode still to
      come. */
  datatype Board = Board(
    free: seq<nat>, jobs: seq<nat>, ordered: seq<nat>, decoding: set<nat>, decoded: set<nat>, ready: set<nat>,
    held: Option<nat>, unsent: Option<nat>, cur: Option<nat>, waiting: Option<nat>, lost: set<nat>, lostBusy: set<nat>)

  function Tally(b: bool): nat { if b then 1 else 0 }

  /** In how many places frame f is: free, with the fetcher, in the ordered queue, with the reader or abandoned. */
  function Places(b: Board, f: nat): nat {
    multiset(b.free)[f] + Tally(b.held == Some(f)) + multiset(b.ordered)[f] + Tally(b.cur == Some(f))
      + Tally(b.waiting == Some(f))
    + Tally(f in b.lost) + Tally(f in b.lostBusy)
  }

  /** How many times the decoding of frame f is pending: unsent, queued, with a worker or signalled. */
  function Pending(b: Board, f: nat): nat {
    Tally(b.unsent == Some(f)) + multiset(b.jobs)[f] + Tally(f in b.decoding) + Tally(f in b.decoded)
      + Tally(f in b.ready)
  }

  /** How many times frame f is to be awaited. */
  function Awaited(b: Board, f: nat): nat {
    multiset(b.ordered)[f] + Tally(b.waiting == Some(f)) + Tally(f in b.lostBusy)
  }

  /** Each of n frames is in exactly one place, and its decoding is pending exactly when it is to be awaited. */
  ghost predicate Placed(b: Board, n: nat) {
    && (forall f: nat {:trigger Places(b, f)} :: Places(b, f) == Tally(f < n))
    && (forall f: nat {:trigger Pending(b, f)} :: Pending(b, f) == Awaited(b, f))
  }

  datatype Move =
    | ToFetcher | Abort | Push | SendJob | TakeJob | Decode(f: nat) | Signal(f: nat) | Take | Accept | Drain | Abandon
      | GiveUp | Release | Stay

  /** The frame that may move. */
  predicate CanMove(b: Board, m: Move) {
    match m
    case ToFetcher => b.held.None? && b.unsent.None? && b.free != []
    case Abort => b.held.Some?
    case Push => b.held.Some? && b.unsent.None?
    case SendJob => b.unsent.Some?
    case TakeJob => b.jobs != []
    case Decode(f) => f in b.decoding
    case Signal(f) => f in b.decoded
    case Take => b.waiting.None? && b.ordered != []
    case Accept => b.waiting.Some? && b.waiting.value in b.ready && b.cur.None?
    case Drain => b.waiting.Some? && b.waiting.value in b.ready
    case Abandon => b.waiting.Some? && b.waiting.value in b.ready
    case GiveUp => true
    case Release => b.cur.Some?
    case Stay => true
  }

  function Apply(b: Board, m: Move): Board
    requires CanMove(b, m)
  {
    match m
    case ToFetcher => b.(held := Some(b.free[0]), free := b.free[1..])
    case Abort => b.(held := None, lost := b.lost + {b.held.value})
    case Push => b.(held := None, unsent := b.held, ordered := b.ordered + [b.held.value])
    case SendJob => b.(unsent := None, jobs := b.jobs + [b.unsent.value])
    case TakeJob => b.(jobs := b.jobs[1..], decoding := b.decoding + {b.jobs[0]})
    case Decode(f) => b.(decoding := b.decoding - {f}, decoded := b.decoded + {f})
    case Signal(f) => b.(decoded := b.decoded - {f}, ready := b.ready + {f})
    case Take => b.(waiting := Some(b.ordered[0]), ordered := b.ordered[1..])
    case Accept => b.(cur := b.waiting, waiting := None, ready := b.ready - {b.waiting.value})
    case Drain => b.(waiting := None, ready := b.ready - {b.waiting.value}, free := b.free + [b.waiting.value])
    case Abandon => b.(waiting := None, ready := b.ready - {b.waiting.value}, lost := b.lost + {b.waiting.value})
    case GiveUp => if b.waiting.Some? then b.(waiting := None, lostBusy := b.lostBusy + {b.waiting.value}) else b
    case Release => b.(cur := None, free := b.free + [b.cur.value])
    case Stay => b
  }

  lemma HeadOf(q: seq<nat>)
    requires q != []
    ensures multiset(q) == multiset{q[0]} + multiset(q[1..])
  {
    assert q == [q[0]] + q[1..];
  }

  /** Every move keeps every frame in exactly one place. */
  lemma MovePlaced(b: Board, m: Move, n: nat)
    requires Placed(b, n) && CanMove(b, m)
    ensures Placed(Apply(b, m), n)
  {
    forall f: nat ensures Places(Apply(b, m), f) == Tally(f < n) && Pending(Apply(b, m), f) == Awaited(Apply(b, m), f) {
      assert Places(b, f) == Tally(f < n) && Pending(b, f) == Awaited(b, f);
      if m.ToFetcher? || m.TakeJob? || m.Take? {
        HeadMoves(b, m, f);
      } else if m.Abort? || m.Push? || m.SendJob? || m.Decode? || m.Signal? || m.Stay? {
        FetcherSide(b, m, f);
      } else {
        ReaderSide(b, m, f);
      }
    }
  }

  /** A frame is in as many places after the move as before, and awaited as often as pending. */
  ghost predicate Balanced(b: Board, c: Board, f: nat) {
    Places(c, f) == Places(b, f) && (Pending(b, f) == Awaited(b, f) ==> Pending(c, f) == Awaited(c, f))
  }

  lemma HeadMoves(b: Board, m: Move, f: nat)
    requires CanMove(b, m) && (m.ToFetcher? || m.TakeJob? || m.Take?) && Places(b, f) <= 1 &&
      Pending(b, f) == Awaited(b, f)
    ensures Balanced(b, Apply(b, m), f)
  {
    if m.ToFetcher? { HeadOf(b.free); }
    if m.TakeJob? { HeadOf(b.jobs); }
    if m.Take? { HeadOf(b.ordered); }
  }

  lemma FetcherSide(b: Board, m: Move, f: nat)
    requires CanMove(b, m) && (m.Abort? || m.Push? || m.SendJob? || m.Decode? || m.Signal? || m.Stay?)
    requires Places(b, f) <= 1 && Pending(b, f) == Awaited(b, f)
    ensures Balanced(b, Apply(b, m), f)
  {
  }

  lemma ReaderSide(b: Board, m: Move, f: nat)
    requires CanMove(b, m) && (m.Accept? || m.Drain? || m.Abandon? || m.GiveUp? || m.Release?)
    requires Places(b, f) <= 1 && Pending(b, f) == Awaited(b, f)
    ensures Balanced(b, Apply(b, m), f)
  {
  }

  lemma {:induction false} ShortQueue(q: seq<nat>, f: nat, n: nat)
    requires f < n && f !in q && forall g: nat :: multiset(q)[g] <= Tally(g < n)
    ensures |q| < n
  {
    var all := Below(n);
    assert multiset(q) + multiset{f} <= all;
    var rest := all - (multiset(q) + multiset{f});
    assert all == (multiset(q) + multiset{f}) + rest;
  }

  /** The numbers below n, once each. */
  function Below(n: nat): (m: multiset<nat>)
    ensures |m| == n && forall f: nat :: m[f] == Tally(f < n)
  {
    if n == 0 then multiset{} else Below(n - 1) + multiset{n - 1}
  }

  /** No send ever blocks: whenever a thread is about to send, the channel has room. */
  lemma SendsNeverBlock(b: Board, n: nat)
    requires Placed(b, n)
    ensures b.held.Some? ==> |b.ordered| < n
    ensures b.unsent.Some? ==> |b.jobs| < n
    ensures b.cur.Some? || b.waiting.Some? ==> |b.free| < n
    ensures forall f: nat :: f in b.decoded ==> f !in b.ready
  {
    forall f: nat ensures multiset(b.ordered)[f] <= Tally(f < n) && multiset(b.free)[f] <= Tally(f < n) &&
      multiset(b.jobs)[f] <= Tally(f < n)
      ensures b.held == Some(f) ==> f < n && f !in b.ordered
      ensures b.unsent == Some(f) ==> f < n && f !in b.jobs
      ensures b.cur == Some(f) || b.waiting == Some(f) ==> f < n && f !in b.free
      ensures f in b.decoded ==> f !in b.ready
    {
      assert Places(b, f) == Tally(f < n) && Pending(b, f) == Awaited(b, f);
    }
    if b.held.Some? { ShortQueue(b.ordered, b.held.value, n); }
    if b.unsent.Some? { ShortQueue(b.jobs, b.unsent.value, n); }
    if b.cur.Some? { ShortQueue(b.free, b.cur.value, n); }
    if b.waiting.Some? { ShortQueue(b.free, b.waiting.value, n); }
  }

  // ---------------------------------------------------------------- buffers

  /** A packed chunk as read from storage; size is the unpacked size its header declares. */
  datatype Packed = Packed(size: nat, compressed: bool, body: Bytes)

  /** A window slot and the pooled buffers it holds. No data after decoding means the chunk did not decode. */
  datatype Frame = Frame(inBuf: Option<nat>, outBuf: Option<nat>, packed: Packed, data: Option<Bytes>)

  const EMPTY_FRAME := Frame(None, None, Packed(0, false, []), None)

  /** The frames, how many buffers the pool has issued and which came back. */
  datatype Memory = Memory(frames: seq<Frame>, issued: nat, returned: multiset<nat>)

  function Holds(fr: Frame, id: nat): nat { Tally(fr.inBuf == Some(id)) + Tally(fr.outBuf == Some(id)) }

  function HeldCount(frames: seq<Frame>, id: nat): nat {
    if frames == [] then 0 else Holds(frames[0], id) + HeldCount(frames[1..], id)
  }

  /** Every issued buffer is held by exactly one frame or was returned exactly once. */
  ghost predicate Accounted(m: Memory) {
    forall id: nat {:trigger HeldCount(m.frames, id)} ::
      HeldCount(m.frames, id) + m.returned[id] == Tally(id < m.issued)
  }

  lemma {:induction false} HeldUpdate(frames: seq<Frame>, f: nat, fr: Frame, id: nat)
    requires f < |frames|
    ensures HeldCount(frames[f := fr], id) == HeldCount(frames, id) - Holds(frames[f], id) + Holds(fr, id)
  {
    if f > 0 {
      HeldUpdate(frames[1..], f - 1, fr, id);
      assert frames[f := fr][1..] == frames[1..][f - 1 := fr];
    }
  }

  function GetIn(m: Memory, f: nat): Memory
    requires f < |m.frames|
  {
    m.(frames := m.frames[f := m.frames[f].(inBuf := Some(m.issued))], issued := m.issued + 1)
  }

  function SetPacked(m: Memory, f: nat, p: Packed): Memory
    requires f < |m.frames|
  {
    m.(frames := m.frames[f := m.frames[f].(packed := p)])
  }

  /** Decoding an uncompressed chunk keeps the packed buffer, which the data aliases; otherwise it is swapped for a new
      one. */
  function DecodeFrame(m: Memory, decode: Packed -> Option<Bytes>, f: nat): Memory
    requires f < |m.frames| && m.frames[f].inBuf.Some?
  {
    var fr := m.frames[f].(data := decode(m.frames[f].packed));
    if fr.packed.compressed then
      Memory(m.frames[f := fr.(outBuf := Some(m.issued), inBuf := None)], m.issued + 1,
        m.returned + multiset{fr.inBuf.value})
    else m.(frames := m.frames[f := fr])
  }

  function Back(o: Option<nat>): multiset<nat> { if o.Some? then multiset{o.value} else multiset{} }

  function PutBufs(m: Memory, f: nat): Memory
    requires f < |m.frames|
  {
    var fr := m.frames[f];
    m.(frames := m.frames[f := fr.(inBuf := None, outBuf := None, data := None)],
      returned := m.returned + Back(fr.inBuf) + Back(fr.outBuf))
  }

  function PutAll(m: Memory, n: nat): (r: Memory)
    requires n <= |m.frames|
    ensures |r.frames| == |m.frames| && r.issued == m.issued
  {
    if n == 0 then m else PutBufs(PutAll(m, n - 1), n - 1)
  }

  predicate Empty(fr: Frame) { fr.inBuf.None? && fr.outBuf.None? }

  lemma GetInAccounted(m: Memory, f: nat)
    requires Accounted(m) && f < |m.frames| && m.frames[f].inBuf.None?
    ensures Accounted(GetIn(m, f))
  {
    forall id: nat ensures HeldCount(GetIn(m, f).frames, id) + m.returned[id] == Tally(id < m.issued + 1) {
      HeldUpdate(m.frames, f, m.frames[f].(inBuf := Some(m.issued)), id);
    }
  }

  lemma SetPackedAccounted(m: Memory, f: nat, p: Packed)
    requires Accounted(m) && f < |m.frames|
    ensures Accounted(SetPacked(m, f, p))
  {
    forall id: nat ensures HeldCount(SetPacked(m, f, p).frames, id) == HeldCount(m.frames, id) {
      HeldUpdate(m.frames, f, m.frames[f].(packed := p), id);
    }
  }

  lemma DecodeAccounted(m: Memory, decode: Packed -> Option<Bytes>, f: nat)
    requires Accounted(m) && f < |m.frames| && m.frames[f].inBuf.Some? && m.frames[f].outBuf.None?
    ensures Accounted(DecodeFrame(m, decode, f))
  {
    var r := DecodeFrame(m, decode, f);
    forall id: nat ensures HeldCount(r.frames, id) + r.returned[id] == Tally(id < r.issued) {
      HeldUpdate(m.frames, f, r.frames[f], id);
    }
  }

  lemma PutAccounted(m: Memory, f: nat)
    requires Accounted(m) && f < |m.frames|
    ensures Accounted(PutBufs(m, f))
  {
    var r := PutBufs(m, f);
    forall id: nat ensures HeldCount(r.frames, id) + r.returned[id] == Tally(id < r.issued) {
      HeldUpdate(m.frames, f, r.frames[f], id);
    }
  }

  lemma {:induction false} PutAllAccounted(m: Memory, n: nat)
    requires Accounted(m) && n <= |m.frames|
    ensures Accounted(PutAll(m, n))
  {
    if n > 0 {
      PutAllAccounted(m, n - 1);
      PutAccounted(PutAll(m, n - 1), n - 1);
    }
  }

  lemma {:induction false} PutAllEmpties(m: Memory, n: nat)
    requires n <= |m.frames|
    ensures forall f :: 0 <= f < n ==> Empty(PutAll(m, n).frames[f])
  {
    if n > 0 { PutAllEmpties(m, n - 1); }
  }

  /** With every frame empty, every issued buffer has been returned, exactly once. */
  lemma {:induction false} EmptyHoldNothing(frames: seq<Frame>, id: nat)
    requires forall f :: 0 <= f < |frames| ==> Empty(frames[f])
    ensures HeldCount(frames, id) == 0
  {
    if frames != [] { EmptyHoldNothing(frames[1..], id); }
  }

  /** Free frames and the one the fetcher has just taken hold no buffer; a frame being filled, unsent, queued for
      decoding or being decoded holds only its packed buffer. */
  ghost predicate Tidy(b: Board, m: Memory, filling: bool) {
    && (forall f :: f in b.free ==> f < |m.frames| && Empty(m.frames[f]))
    && (b.held.Some? ==>
      b.held.value < |m.frames| && m.frames[b.held.value].outBuf.None? &&
      (m.frames[b.held.value].inBuf.Some? <==> filling))
    && (b.unsent.Some? ==> PackedOnly(m, b.unsent.value))
    && (forall f :: f in b.jobs ==> PackedOnly(m, f))
    && (forall f :: f in b.decoding ==> PackedOnly(m, f))
  }

  predicate PackedOnly(m: Memory, f: nat) { f < |m.frames| && m.frames[f].outBuf.None? && m.frames[f].inBuf.Some? }

  // ---------------------------------------------------------------- the three kinds of thread

  /** A term to fetch: the bytes it declares and the chunks it names. */
  datatype Segment = Segment(bytes: nat, chunks: nat)

  /** What there is to deliver: the terms, the packed chunk the storage has at each place of each term, if it can be
      read, and what a packed chunk decodes to. */
  datatype Config = Config(
    terms: seq<Segment>, workers: nat, frame: (nat, nat) -> Option<Packed>, decode: Packed -> Option<Bytes>)

  /** Where the fetcher is: before a term, waiting for a slot, holding one, reading into it, between its two sends, past
      an error, between its two closes, done. */
  datatype Fetcher =
    | AtTerm(term: nat)
    | Needs(term: nat, chunk: nat)
    | Holding(term: nat, chunk: nat)
    | Filling(term: nat, chunk: nat)
    | Sending(term: nat, chunk: nat)
    | Broken
    | Closing
    | Stopped

  /** done and partial are the chunks fetched so far, by finished term and of the current one; taken counts the frames
      the reader took, output is the data it was given, and curAt the place in it of the chunk being served. */
  datatype State = State(
    board: Board, mem: Memory, fetcher: Fetcher, failed: bool, orderedClosed: bool, jobsClosed: bool, exited: nat,
    readerDone: bool, cancelled: bool, stopped: bool,
    done: seq<seq<Packed>>, partial: seq<Packed>, taken: nat, output: seq<Bytes>, curAt: nat)

  datatype Step =
    | SkipTerm | Acquire | AcquireCancelled | FetchError | ReadInto | Deliver(p: Packed) | SendOn | EndTerm | WrongSize
      | CloseOrdered | CloseJobs
    | StartJob | FinishJob(f: nat) | Announce(f: nat) | ExitWorker
    | TakeNext | Serve | Discard | ChunkFailed | ArrivedCancelled | ReaderCancelled | ReleaseServed | Cancel | Stop

  function MoveOf(step: Step): Move {
    match step
    case Acquire => ToFetcher
    case FetchError => Abort
    case Deliver(_) => Push
    case SendOn => SendJob
    case StartJob => TakeJob
    case FinishJob(f) => Decode(f)
    case Announce(f) => Signal(f)
    case TakeNext => Take
    case Serve => Accept
    case Discard => Drain
    case ChunkFailed => Abandon
    case ArrivedCancelled => Abandon
    case ReaderCancelled => GiveUp
    case ReleaseServed => Release
    case _ => Stay
  }

  function Sizes(ps: seq<Packed>): nat { if ps == [] then 0 else ps[0].size + Sizes(ps[1..]) }

  /** All chunks fetched so far, in file order. */
  function Fetched(s: State): seq<Packed> { Flatten(s.done) + s.partial }

  function Ids(n: nat): (r: seq<nat>)
    ensures |r| == n && forall f: nat :: multiset(r)[f] == Tally(f < n)
  {
    if n == 0 then [] else Ids(n - 1) + [n - 1]
  }

  function InitBoard(n: nat): Board { Board(Ids(n), [], [], {}, {}, {}, None, None, None, None, {}, {}) }

  function Init(n: nat): State {
    State(InitBoard(n), Memory(seq(n, _ => EMPTY_FRAME), 0, multiset{}), AtTerm(0), false, false, false, 0, false,
      false, false, [], [], 0, [], 0)
  }

  /** The fetcher needs a slot for its next chunk. */
  predicate WantsFrame(cfg: Config, at: Fetcher) {
    || (at.AtTerm? && at.term < |cfg.terms| && cfg.terms[at.term].bytes > 0)
    || (at.Needs? && at.term < |cfg.terms| && at.chunk < cfg.terms[at.term].chunks)
  }

  predicate TermRead(cfg: Config, at: Fetcher) {
    at.Needs? && at.term < |cfg.terms| && at.chunk >= cfg.terms[at.term].chunks
  }

  predicate InTerm(cfg: Config, at: Fetcher) {
    (at.Holding? || at.Filling?) && at.term < |cfg.terms| && at.chunk < cfg.terms[at.term].chunks
  }

  /** The frame whose buffers a step touches exists. */
  predicate CanTouch(s: State, step: Step) {
    match step
    case ReadInto => InRange(s, s.board.held)
    case Deliver(_) => InRange(s, s.board.held)
    case FinishJob(f) => PackedOnly(s.mem, f)
    case Serve => InRange(s, s.board.waiting)
    case Discard => InRange(s, s.board.waiting)
    case ChunkFailed => InRange(s, s.board.waiting)
    case ReleaseServed => InRange(s, s.board.cur)
    case _ => true
  }

  predicate InRange(s: State, f: Option<nat>) { f.Some? && f.value < |s.mem.frames| }

  function Touch(cfg: Config, s: State, step: Step): Memory
    requires CanTouch(s, step)
  {
    match step
    case ReadInto => GetIn(s.mem, s.board.held.value)
    case Deliver(p) => SetPacked(s.mem, s.board.held.value, p)
    case FinishJob(f) => DecodeFrame(s.mem, cfg.decode, f)
    case Discard => PutBufs(s.mem, s.board.waiting.value)
    case ReleaseServed => PutBufs(s.mem, s.board.cur.value)
    case Stop => PutAll(s.mem, |s.mem.frames|)
    case _ => s.mem
  }

  /** What a fetcher step does beside moving a frame and touching its buffers. */
  ghost predicate FetcherStep(cfg: Config, s: State, step: Step, t: State) {
    var at, u := s.fetcher, s.(board := t.board, mem := t.mem);
    match step
    case SkipTerm =>
      at.AtTerm? && at.term < |cfg.terms| && cfg.terms[at.term].bytes == 0 &&
        t == u.(fetcher := AtTerm(at.term + 1), done := s.done + [[]])
    case Acquire => WantsFrame(cfg, at) && t == u.(fetcher := Holding(at.term, if at.Needs? then at.chunk else 0))
    case AcquireCancelled => WantsFrame(cfg, at) && s.cancelled && t == u.(fetcher := Broken, failed := true)
    case FetchError => (at.Holding? || at.Filling?) && t == u.(fetcher := Broken, failed := true)
    case ReadInto => at.Holding? && InTerm(cfg, at) && t == u.(fetcher := Filling(at.term, at.chunk))
    case Deliver(p) =>
      && at.Filling? && InTerm(cfg, at) && cfg.frame(at.term, at.chunk) == Some(p)
      && Sizes(s.partial) + p.size <= cfg.terms[at.term].bytes
      && t == u.(fetcher := Sending(at.term, at.chunk), partial := s.partial + [p])
    case SendOn => at.Sending? && t == u.(fetcher := Needs(at.term, at.chunk + 1))
    case EndTerm =>
      TermRead(cfg, at) && Sizes(s.partial) == cfg.terms[at.term].bytes &&
        t == u.(fetcher := AtTerm(at.term + 1), done := s.done + [s.partial], partial := [])
    case WrongSize =>
      TermRead(cfg, at) && Sizes(s.partial) != cfg.terms[at.term].bytes && t == u.(fetcher := Broken, failed := true)
    case CloseOrdered => (at == AtTerm(|cfg.terms|) || at.Broken?) && t == u.(fetcher := Closing, orderedClosed := true)
    case CloseJobs => at.Closing? && t == u.(fetcher := Stopped, jobsClosed := true)
    case _ => false
  }

  function IdleWorkers(cfg: Config, s: State): int { cfg.workers - |s.board.decoding| - |s.board.decoded| - s.exited }

  ghost predicate WorkerStep(cfg: Config, s: State, step: Step, t: State) {
    var u := s.(board := t.board, mem := t.mem);
    match step
    case StartJob => IdleWorkers(cfg, s) > 0 && t == u
    case FinishJob(f) => t == u
    case Announce(f) => t == u
    case ExitWorker => s.jobsClosed && s.board.jobs == [] && IdleWorkers(cfg, s) > 0 && t == u.(exited := s.exited + 1)
    case _ => false
  }

  /** The data of the chunk the reader waits for. */
  function Arriving(s: State): Option<Bytes>
    requires InRange(s, s.board.waiting)
  {
    s.mem.frames[s.board.waiting.value].data
  }

  /** The reader: next and drain take frames and await them, release gives a slot back, stop cancels, joins and cleans
      up. */
  ghost predicate ReaderStep(cfg: Config, s: State, step: Step, t: State)
    requires CanTouch(s, step)
  {
    var u := s.(board := t.board, mem := t.mem);
    match step
    case TakeNext => !s.readerDone && t == u.(taken := s.taken + 1)
    case Serve =>
      !s.readerDone && Arriving(s).Some? && t == u.(output := s.output + [Arriving(s).value], curAt := |s.output|)
    case Discard => !s.readerDone && Arriving(s).Some? && t == u.(output := s.output + [Arriving(s).value])
    case ChunkFailed => !s.readerDone && Arriving(s).None? && t == u.(readerDone := true)
    case ArrivedCancelled => !s.readerDone && s.cancelled && t == u.(readerDone := true)
    case ReaderCancelled => s.cancelled && t == u.(readerDone := true)
    case ReleaseServed => !s.stopped && t == u
    case Cancel => t == u.(cancelled := true)
    case Stop =>
      s.cancelled && s.readerDone && s.fetcher.Stopped? && s.exited == cfg.workers && t == u.(stopped := true)
    case _ => false
  }

  ghost predicate Next(cfg: Config, s: State, step: Step, t: State) {
    && CanMove(s.board, MoveOf(step)) && t.board == Apply(s.board, MoveOf(step))
    && CanTouch(s, step) && t.mem == Touch(cfg, s, step)
    && (FetcherStep(cfg, s, step, t) || WorkerStep(cfg, s, step, t) || ReaderStep(cfg, s, step, t))
  }

  // ---------------------------------------------------------------- invariants

  /** The fetcher holds a frame exactly while filling one, and owes a job exactly between its two sends. */
  ghost predicate FetcherHands(s: State) {
    && (s.board.held.Some? <==> s.fetcher.Holding? || s.fetcher.Filling?)
    && (s.board.unsent.Some? <==> s.fetcher.Sending?)
  }

  /** Moves that touch no buffer. */
  lemma TidyMove(b: Board, m: Memory, move: Move, filling: bool)
    requires Placed(b, |m.frames|) && Tidy(b, m, filling) && CanMove(b, move)
    requires !move.Push? && !move.Decode? && !move.Drain? && !move.Release?
    ensures Tidy(Apply(b, move), m, filling && !move.ToFetcher?)
    ensures move.Abort? ==> Tidy(Apply(b, move), m, false)
  {
    match move
    case ToFetcher => TidyFetch(b, m, filling);
    case SendJob => TidySend(b, m, filling);
    case TakeJob => TidyTake(b, m, filling);
    case _ =>
  }

  lemma TidyFetch(b: Board, m: Memory, filling: bool)
    requires Tidy(b, m, filling) && CanMove(b, ToFetcher)
    ensures Tidy(Apply(b, ToFetcher), m, false)
  {
    assert b.free[0] in b.free;
    forall f | f in b.free[1..] ensures f in b.free {}
  }

  lemma TidySend(b: Board, m: Memory, filling: bool)
    requires Tidy(b, m, filling) && CanMove(b, SendJob)
    ensures Tidy(Apply(b, SendJob), m, filling)
  {
    forall f | f in b.jobs + [b.unsent.value] ensures PackedOnly(m, f) {}
  }

  lemma TidyTake(b: Board, m: Memory, filling: bool)
    requires Tidy(b, m, filling) && CanMove(b, TakeJob)
    ensures Tidy(Apply(b, TakeJob), m, filling)
  {
    assert b.jobs[0] in b.jobs;
    forall f | f in b.jobs[1..] ensures f in b.jobs {}
  }

  lemma TidyFill(b: Board, m: Memory)
    requires Placed(b, |m.frames|) && Tidy(b, m, false) && b.held.Some?
    ensures Tidy(b, GetIn(m, b.held.value), true)
  {
    Apart(b, |m.frames|, b.held.value);
  }

  lemma TidyPush(b: Board, m: Memory, p: Packed)
    requires Placed(b, |m.frames|) && Tidy(b, m, true) && CanMove(b, Push)
    ensures Tidy(Apply(b, Push), SetPacked(m, b.held.value, p), false)
  {
    Apart(b, |m.frames|, b.held.value);
  }

  lemma TidyDecode(b: Board, m: Memory, decode: Packed -> Option<Bytes>, f: nat, filling: bool)
    requires Placed(b, |m.frames|) && Tidy(b, m, filling) && f in b.decoding
    ensures Tidy(Apply(b, Decode(f)), DecodeFrame(m, decode, f), filling)
  {
    Apart(b, |m.frames|, f);
  }

  /** Emptying a frame that is neither free, with the fetcher, nor to be decoded. */
  lemma TidyElsewhere(b: Board, m: Memory, f: nat, filling: bool)
    requires Tidy(b, m, filling) && f < |m.frames| && f !in b.free && b.held != Some(f) && b.unsent != Some(f) &&
      f !in b.jobs && f !in b.decoding
    ensures Tidy(b, PutBufs(m, f), filling) && Empty(PutBufs(m, f).frames[f])
  {
    var n := PutBufs(m, f);
    forall g | g in b.jobs ensures PackedOnly(n, g) {}
    forall g | g in b.decoding ensures PackedOnly(n, g) {}
  }

  lemma TidyFree(b: Board, c: Board, m: Memory, f: nat, filling: bool)
    requires Tidy(b, m, filling) && f < |m.frames| && Empty(m.frames[f]) && c.free == b.free + [f]
    requires c.held == b.held && c.unsent == b.unsent && c.jobs == b.jobs && c.decoding == b.decoding
    ensures Tidy(c, m, filling)
  {
  }

  lemma TidyPut(b: Board, m: Memory, move: Move, filling: bool)
    requires Placed(b, |m.frames|) && Tidy(b, m, filling) && CanMove(b, move) && (move.Drain? || move.Release?)
    requires move.Drain? ==> b.waiting.value < |m.frames|
    requires move.Release? ==> b.cur.value < |m.frames|
    ensures Tidy(Apply(b, move), PutBufs(m, if move.Drain? then b.waiting.value else b.cur.value), filling)
  {
    var f := if move.Drain? then b.waiting.value else b.cur.value;
    Apart(b, |m.frames|, f);
    TidyElsewhere(b, m, f, filling);
    TidyFree(b, Apply(b, move), PutBufs(m, f), f, filling);
  }

  lemma StepPlaced(cfg: Config, s: State, step: Step, t: State)
    requires Next(cfg, s, step, t) && Placed(s.board, |s.mem.frames|)
    ensures Placed(t.board, |t.mem.frames|)
  {
    MovePlaced(s.board, MoveOf(step), |s.mem.frames|);
  }

  lemma FetcherHandsKept(cfg: Config, s: State, step: Step, t: State)
    requires FetcherStep(cfg, s, step, t) && FetcherHands(s) && CanMove(s.board, MoveOf(step)) &&
      t.board == Apply(s.board, MoveOf(step))
    ensures FetcherHands(t)
  {}

  lemma OtherHandsKept(cfg: Config, s: State, step: Step, t: State)
    requires CanTouch(s, step) && (WorkerStep(cfg, s, step, t) || ReaderStep(cfg, s, step, t))
    requires FetcherHands(s) && CanMove(s.board, MoveOf(step)) && t.board == Apply(s.board, MoveOf(step))
    ensures FetcherHands(t) && t.fetcher == s.fetcher
  {
    match step {
      case StartJob => case FinishJob(f) => case Announce(f) => case ExitWorker =>
      case TakeNext => case Serve => case Discard => case ChunkFailed => case ArrivedCancelled =>
        case ReaderCancelled =>
      case ReleaseServed => case Cancel => case Stop =>
      case _ =>
    }
  }

  lemma StepHands(cfg: Config, s: State, step: Step, t: State)
    requires Next(cfg, s, step, t) && FetcherHands(s)
    ensures FetcherHands(t)
  {
    if FetcherStep(cfg, s, step, t) { FetcherHandsKept(cfg, s, step, t); } else { OtherHandsKept(cfg, s, step, t); }
  }

  lemma StepAccounted(cfg: Config, s: State, step: Step)
    requires CanTouch(s, step) && Accounted(s.mem) && Tidy(s.board, s.mem, s.fetcher.Filling?) &&
      (step.ReadInto? ==> !s.fetcher.Filling?)
    ensures Accounted(Touch(cfg, s, step))
  {
    match step {
      case ReadInto => GetInAccounted(s.mem, s.board.held.value);
      case Deliver(p) => SetPackedAccounted(s.mem, s.board.held.value, p);
      case FinishJob(f) => DecodeAccounted(s.mem, cfg.decode, f);
      case Discard => PutAccounted(s.mem, s.board.waiting.value);
      case ReleaseServed => PutAccounted(s.mem, s.board.cur.value);
      case Stop => PutAllAccounted(s.mem, |s.mem.frames|);
      case _ =>
    }
  }

  /** A frame in one place is nowhere else. */
  lemma Apart(b: Board, n: nat, f: nat)
    requires Placed(b, n)
    ensures b.held == Some(f) || b.cur == Some(f) ==>
      f !in b.free && f !in b.ordered && f !in b.jobs && f !in b.decoding && f !in b.decoded && f !in b.ready &&
        b.waiting != Some(f) && b.unsent != Some(f)
    ensures f in b.decoding || b.waiting == Some(f) ==>
      f !in b.free && b.held != Some(f) && b.cur != Some(f) && f !in b.lost &&
        (f in b.decoding ==> b.unsent != Some(f) && f !in b.jobs && f !in b.decoded && f !in b.ready)
    ensures f in b.ready ==> f !in b.decoding && f !in b.jobs && b.unsent != Some(f) && f !in b.decoded
    ensures b.waiting == Some(f) ==> f !in b.ordered
    ensures b.held == Some(f) ==> b.cur != Some(f)
  {
    assert Places(b, f) == Tally(f < n) && Pending(b, f) == Awaited(b, f);
  }

  /** Each busy worker decodes one frame; workers leave only once no job can come. */
  ghost predicate Staffed(cfg: Config, s: State) {
    && |s.board.decoding| + |s.board.decoded| + s.exited <= cfg.workers && cfg.workers > 0
    && (s.exited > 0 ==> s.jobsClosed && s.board.jobs == [])
    && (s.jobsClosed <==> s.fetcher.Stopped?)
  }

  lemma FetcherMoveLeaves(b: Board, step: Step)
    requires CanMove(b, MoveOf(step)) &&
      (step.Acquire? || step.FetchError? || step.Deliver? || step.SendOn? || MoveOf(step).Stay?)
    ensures var c := Apply(b, MoveOf(step));
      c.decoding == b.decoding && c.decoded == b.decoded && (!step.SendOn? ==> c.jobs == b.jobs)
  {}

  lemma FetcherRuns(cfg: Config, s: State, step: Step, t: State)
    requires FetcherStep(cfg, s, step, t)
    ensures !s.fetcher.Stopped? && (t.fetcher.Stopped? <==> step.CloseJobs?) && t.exited == s.exited &&
      t.jobsClosed == (s.jobsClosed || step.CloseJobs?)
    ensures step.Acquire? || step.FetchError? || step.Deliver? || step.SendOn? || MoveOf(step).Stay?
  {
    FetcherMoves(cfg, s, step, t);
    match step {
      case SkipTerm => case Acquire => case AcquireCancelled => case FetchError => case ReadInto => case Deliver(_) =>
      case SendOn => case EndTerm => case WrongSize => case CloseOrdered => case CloseJobs =>
      case _ =>
    }
  }

  lemma FetcherMoves(cfg: Config, s: State, step: Step, t: State)
    requires FetcherStep(cfg, s, step, t)
    ensures step.Acquire? || step.FetchError? || step.Deliver? || step.SendOn? || MoveOf(step).Stay?
  {
  }

  lemma FetcherStaffed(cfg: Config, s: State, step: Step, t: State)
    requires Staffed(cfg, s) && FetcherStep(cfg, s, step, t) && CanMove(s.board, MoveOf(step)) &&
      t.board == Apply(s.board, MoveOf(step))
    ensures Staffed(cfg, t)
  {
    FetcherRuns(cfg, s, step, t);
    FetcherMoveLeaves(s.board, step);
  }

  lemma WorkerStaffed(cfg: Config, s: State, step: Step, t: State)
    requires Staffed(cfg, s) && WorkerStep(cfg, s, step, t) && CanMove(s.board, MoveOf(step)) &&
      t.board == Apply(s.board, MoveOf(step))
    ensures Staffed(cfg, t)
  {}

  lemma ReaderStaffed(cfg: Config, s: State, step: Step, t: State)
    requires Staffed(cfg, s) && CanTouch(s, step) && ReaderStep(cfg, s, step, t) && CanMove(s.board, MoveOf(step)) &&
      t.board == Apply(s.board, MoveOf(step))
    ensures Staffed(cfg, t)
  {}

  lemma FetcherTidy(cfg: Config, s: State, step: Step, t: State)
    requires Placed(s.board, |s.mem.frames|) && Tidy(s.board, s.mem, s.fetcher.Filling?) && FetcherHands(s) &&
      FetcherStep(cfg, s, step, t)
    requires CanMove(s.board, MoveOf(step)) && t.board == Apply(s.board, MoveOf(step)) && CanTouch(s, step) &&
      t.mem == Touch(cfg, s, step)
    ensures Tidy(t.board, t.mem, t.fetcher.Filling?)
  {
    var b, m, filling := s.board, s.mem, s.fetcher.Filling?;
    match step {
      case ReadInto => TidyFill(b, m);
      case Deliver(p) => TidyPush(b, m, p);
      case Acquire => TidyMove(b, m, ToFetcher, filling);
      case FetchError => TidyMove(b, m, Abort, filling);
      case SendOn => TidyMove(b, m, SendJob, filling);
      case _ =>
    }
  }

  lemma OtherTidy(cfg: Config, s: State, step: Step, t: State)
    requires Placed(s.board, |s.mem.frames|) && Tidy(s.board, s.mem, s.fetcher.Filling?) && FetcherHands(s) &&
      Staffed(cfg, s)
    requires CanTouch(s, step) && (WorkerStep(cfg, s, step, t) || ReaderStep(cfg, s, step, t))
    requires CanMove(s.board, MoveOf(step)) && t.board == Apply(s.board, MoveOf(step)) && t.mem == Touch(cfg, s, step)
    ensures Tidy(t.board, t.mem, s.fetcher.Filling?)
  {
    var b, m, filling := s.board, s.mem, s.fetcher.Filling?;
    match step {
      case FinishJob(f) => TidyDecode(b, m, cfg.decode, f, filling);
      case Discard => TidyPut(b, m, Drain, filling);
      case ReleaseServed => TidyPut(b, m, Release, filling);
      case Stop => StopTidy(b, m);
      case _ => TidyMove(b, m, MoveOf(step), filling);
    }
  }

  lemma StopTidy(b: Board, m: Memory)
    requires Tidy(b, m, false) && b.held.None? && b.unsent.None? && b.jobs == [] && |b.decoding| == 0
    ensures Tidy(b, PutAll(m, |m.frames|), false)
  {
    PutAllEmpties(m, |m.frames|);
  }

  /** The chunks of each finished term add up to the size it declares. */
  ghost predicate Finished(terms: seq<Segment>, done: seq<seq<Packed>>) {
    |done| <= |terms| && forall j :: 0 <= j < |done| ==> Sizes(done[j]) == terms[j].bytes
  }

  lemma FinishOne(terms: seq<Segment>, done: seq<seq<Packed>>, ps: seq<Packed>)
    requires Finished(terms, done) && |done| < |terms| && Sizes(ps) == terms[|done|].bytes
    ensures Finished(terms, done + [ps])
  {}

  /** What the fetcher has read: finished terms have exactly their declared size, the current one no more, and a clean
      end means every term is finished. */
  ghost predicate Progress(cfg: Config, s: State) {
    && Finished(cfg.terms, s.done)
    && (s.fetcher.AtTerm? ==> |s.done| == s.fetcher.term <= |cfg.terms| && s.partial == [])
    && (InsideTerm(s.fetcher) ==> |s.done| == s.fetcher.term < |cfg.terms|)
    && (s.partial != [] ==> |s.done| < |cfg.terms| && Sizes(s.partial) <= cfg.terms[|s.done|].bytes)
    && (s.fetcher.Filling? || s.fetcher.Sending? ==> s.fetcher.chunk < cfg.terms[s.fetcher.term].chunks)
    && (s.fetcher.Broken? ==> s.failed)
    && (s.orderedClosed <==> s.fetcher.Closing? || s.fetcher.Stopped?)
    && (s.orderedClosed && !s.failed ==> |s.done| == |cfg.terms| && s.partial == [])
    && (s.failed ==> s.fetcher.Broken? || s.orderedClosed)
  }

  predicate InsideTerm(at: Fetcher) { at.Needs? || at.Holding? || at.Filling? || at.Sending? }

  lemma {:induction false} SizesSnoc(ps: seq<Packed>, p: Packed)
    ensures Sizes(ps + [p]) == Sizes(ps) + p.size
  {
    if ps == [] {
      assert ps + [p] == [p] && [p][1..] == [];
    } else {
      assert (ps + [p])[1..] == ps[1..] + [p];
      SizesSnoc(ps[1..], p);
    }
  }

  lemma FetcherProgress(cfg: Config, s: State, step: Step, t: State)
    requires Progress(cfg, s) && FetcherStep(cfg, s, step, t)
    ensures Progress(cfg, t)
  {
    match step {
      case Deliver(p) => SizesSnoc(s.partial, p);
      case SkipTerm => FinishOne(cfg.terms, s.done, []);
      case Acquire => assert Sizes([]) == 0;
      case EndTerm => FinishOne(cfg.terms, s.done, s.partial);
      case WrongSize => assert t.done == s.done;
      case SendOn => assert t.done == s.done;
      case ReadInto => assert t.done == s.done;
      case AcquireCancelled => assert t.done == s.done;
      case FetchError => assert t.done == s.done;
      case CloseOrdered => assert t.done == s.done;
      case CloseJobs => assert t.done == s.done;
      case _ =>
    }
  }

  lemma OtherProgress(cfg: Config, s: State, step: Step, t: State)
    requires Progress(cfg, s) && CanTouch(s, step) && (WorkerStep(cfg, s, step, t) || ReaderStep(cfg, s, step, t))
    ensures Progress(cfg, t)
  {}

  // ---------------------------------------------------------------- in file order

  /** The ordered queue holds the fetched chunks not yet taken, in order, and the reader waits for the last one
      taken. */
  ghost predicate InOrder(b: Board, m: Memory, fetched: seq<Packed>, taken: nat) {
    && taken + |b.ordered| == |fetched|
    && (forall k :: 0 <= k < |b.ordered| ==>
      b.ordered[k] < |m.frames| && m.frames[b.ordered[k]].packed == fetched[taken + k])
    && (b.waiting.Some? ==>
      0 < taken && b.waiting.value < |m.frames| && m.frames[b.waiting.value].packed == fetched[taken - 1])
  }

  /** A frame announced, or about to be, holds what its chunk decodes to. */
  ghost predicate Announced(decode: Packed -> Option<Bytes>, b: Board, m: Memory) {
    forall f :: f in b.decoded || f in b.ready ==> f < |m.frames| && m.frames[f].data == decode(m.frames[f].packed)
  }

  /** The data delivered is the decoded chunks in file order, and the served frame still holds its share. */
  ghost predicate Delivered(decode: Packed -> Option<Bytes>, b: Board, m: Memory, fetched: seq<Packed>, taken: nat,
                            output: seq<Bytes>, curAt: nat, over: bool) {
    && |output| <= taken <= |fetched| && (b.waiting.Some? ==> |output| == taken - 1) &&
      (b.waiting.None? && !over ==> |output| == taken)
    && (forall i :: 0 <= i < |output| ==> decode(fetched[i]) == Some(output[i]))
    && (b.cur.Some? ==>
      curAt < |output| && b.cur.value < |m.frames| && m.frames[b.cur.value].data == Some(output[curAt]))
  }

  ghost predicate Content(cfg: Config, s: State) {
    && InOrder(s.board, s.mem, Fetched(s), s.taken) && Announced(cfg.decode, s.board, s.mem)
    && Delivered(cfg.decode, s.board, s.mem, Fetched(s), s.taken, s.output, s.curAt, s.readerDone)
  }

  lemma FetchedStep(cfg: Config, s: State, step: Step, t: State)
    requires Next(cfg, s, step, t) && Progress(cfg, s)
    ensures Fetched(t) == Fetched(s) + if step.Deliver? then [step.p] else []
  {
    if FetcherStep(cfg, s, step, t) {
      FetcherFetched(cfg, s, step, t);
    } else {
      OtherFetched(cfg, s, step, t);
    }
  }

  lemma OtherFetched(cfg: Config, s: State, step: Step, t: State)
    requires CanTouch(s, step) && (WorkerStep(cfg, s, step, t) || ReaderStep(cfg, s, step, t))
    ensures !step.Deliver? && Fetched(t) == Fetched(s)
  {
  }

  lemma FetcherFetched(cfg: Config, s: State, step: Step, t: State)
    requires FetcherStep(cfg, s, step, t) && Progress(cfg, s)
    ensures Fetched(t) == Fetched(s) + if step.Deliver? then [step.p] else []
  {
    if step.SkipTerm? { FlattenSnoc(s.done, []); }
    if step.EndTerm? { FlattenSnoc(s.done, s.partial); }
  }

  /** A frame that is neither queued, awaited, announced nor served may change. */
  lemma ContentFrame(cfg: Config, b: Board, m: Memory, m': Memory, f: nat, fetched: seq<Packed>, taken: nat,
                     output: seq<Bytes>, curAt: nat, over: bool)
    requires InOrder(b, m, fetched, taken) && Announced(cfg.decode, b, m) &&
      Delivered(cfg.decode, b, m, fetched, taken, output, curAt, over)
    requires f < |m.frames| == |m'.frames| && forall g :: 0 <= g < |m.frames| && g != f ==> m'.frames[g] == m.frames[g]
    requires m'.frames[f].packed == m.frames[f].packed || (f !in b.ordered && b.waiting != Some(f))
    requires f !in b.decoded && f !in b.ready && b.cur != Some(f)
    ensures InOrder(b, m', fetched, taken) && Announced(cfg.decode, b, m') &&
      Delivered(cfg.decode, b, m', fetched, taken, output, curAt, over)
  {}

  lemma PushContent(cfg: Config, s: State, p: Packed, t: State)
    requires Next(cfg, s, Deliver(p), t) && Content(cfg, s) && Placed(s.board, |s.mem.frames|) &&
      Fetched(t) == Fetched(s) + [p]
    ensures Content(cfg, t)
  {
    var f := s.board.held.value;
    Apart(s.board, |s.mem.frames|, f);
    ContentFrame(cfg, s.board, s.mem, t.mem, f, Fetched(s), s.taken, s.output, s.curAt, s.readerDone);
  }

  lemma DecodeContent(cfg: Config, s: State, f: nat, t: State)
    requires Next(cfg, s, FinishJob(f), t) && Content(cfg, s) && Placed(s.board, |s.mem.frames|) &&
      Fetched(t) == Fetched(s)
    ensures Content(cfg, t)
  {
    Apart(s.board, |s.mem.frames|, f);
    ContentFrame(cfg, s.board, s.mem, t.mem, f, Fetched(s), s.taken, s.output, s.curAt, s.readerDone);
  }

  /** The chunk that arrives is the next one. */
  lemma ServeContent(cfg: Config, s: State, t: State)
    requires Next(cfg, s, Serve, t) && Content(cfg, s) && Placed(s.board, |s.mem.frames|) && Fetched(t) == Fetched(s)
    ensures Content(cfg, t)
  {
    Apart(s.board, |s.mem.frames|, s.board.waiting.value);
  }

  lemma DiscardContent(cfg: Config, s: State, t: State)
    requires Next(cfg, s, Discard, t) && Content(cfg, s) && Placed(s.board, |s.mem.frames|) && Fetched(t) == Fetched(s)
    ensures Content(cfg, t)
  {
    Apart(s.board, |s.mem.frames|, s.board.waiting.value);
  }

  lemma ReleaseContent(cfg: Config, s: State, t: State)
    requires Next(cfg, s, ReleaseServed, t) && Content(cfg, s) && Placed(s.board, |s.mem.frames|) &&
      Fetched(t) == Fetched(s)
    ensures Content(cfg, t)
  {
    Apart(s.board, |s.mem.frames|, s.board.cur.value);
  }

  lemma FillContent(cfg: Config, s: State, t: State)
    requires Next(cfg, s, ReadInto, t) && Content(cfg, s) && Fetched(t) == Fetched(s)
    ensures Content(cfg, t)
  {}

  predicate Quiet(step: Step) {
    !step.Deliver? && !step.FinishJob? && !step.Serve? && !step.Discard? && !step.ReleaseServed? && !step.ReadInto? &&
      !step.Stop?
  }

  lemma QuietLocal(cfg: Config, s: State, step: Step, t: State)
    requires Next(cfg, s, step, t) && Quiet(step)
    ensures t.mem == s.mem && t.output == s.output && t.curAt == s.curAt && t.taken == s.taken + Tally(step.TakeNext?)
    ensures step.TakeNext? ==> !s.readerDone
    ensures t.readerDone == (s.readerDone || MoveOf(step).Abandon? || MoveOf(step).GiveUp?)
  {
    match step {
      case SkipTerm => case Acquire => case AcquireCancelled => case FetchError => case SendOn => case EndTerm =>
        case WrongSize =>
      case CloseOrdered => case CloseJobs => case StartJob => case Announce(f) => case ExitWorker =>
      case TakeNext => case ChunkFailed => case ArrivedCancelled => case ReaderCancelled => case Cancel =>
      case _ =>
    }
  }

  /** Steps that move no content. */
  lemma QuietContent(cfg: Config, s: State, step: Step, t: State)
    requires Next(cfg, s, step, t) && Content(cfg, s) && Fetched(t) == Fetched(s) && Quiet(step)
    ensures Content(cfg, t)
  {
    QuietLocal(cfg, s, step, t);
    var move := MoveOf(step);
    assert !move.Push? && !move.Decode? && !move.Accept? && !move.Drain? && !move.Release? &&
      (move.Take? <==> step.TakeNext?);
    QuietMove(cfg, s.board, s.mem, move, Fetched(s), s.taken, s.output, s.curAt, s.readerDone);
  }

  /** Moves that change neither frames nor output. */
  lemma QuietMove(cfg: Config, b: Board, m: Memory, move: Move, fetched: seq<Packed>, taken: nat, output: seq<Bytes>,
                  curAt: nat, over: bool)
    requires CanMove(b, move) && !move.Push? && !move.Decode? && !move.Accept? && !move.Drain? && !move.Release?
    requires InOrder(b, m, fetched, taken) && Announced(cfg.decode, b, m) &&
      Delivered(cfg.decode, b, m, fetched, taken, output, curAt, over)
    requires move.Take? ==> !over
    ensures var b', n := Apply(b, move), taken + Tally(move.Take?);
      && InOrder(b', m, fetched, n) && Announced(cfg.decode, b', m)
      && Delivered(cfg.decode, b', m, fetched, n, output, curAt, over || move.Abandon? || move.GiveUp?)
  {}

  lemma LoudContent(cfg: Config, s: State, step: Step, t: State)
    requires Next(cfg, s, step, t) && Content(cfg, s) && Placed(s.board, |s.mem.frames|) && !Quiet(step) && !step.Stop?
    requires Fetched(t) == Fetched(s) + if step.Deliver? then [step.p] else []
    ensures Content(cfg, t)
  {
    match step {
      case Deliver(p) => PushContent(cfg, s, p, t);
      case FinishJob(f) => DecodeContent(cfg, s, f, t);
      case Serve => ServeContent(cfg, s, t);
      case Discard => DiscardContent(cfg, s, t);
      case ReleaseServed => ReleaseContent(cfg, s, t);
      case ReadInto => FillContent(cfg, s, t);
    }
  }

  lemma StepContent(cfg: Config, s: State, step: Step, t: State)
    requires Next(cfg, s, step, t) && Content(cfg, s) && Placed(s.board, |s.mem.frames|) && Progress(cfg, s) &&
      !step.Stop?
    ensures Content(cfg, t)
  {
    FetchedStep(cfg, s, step, t);
    if Quiet(step) { QuietContent(cfg, s, step, t); } else { LoudContent(cfg, s, step, t); }
  }

  // ---------------------------------------------------------------- every run

  /** The chunks handed to the reader are the decoded chunks of the file, in order. */
  ghost predicate OutputRight(cfg: Config, s: State) {
    |s.output| <= |Fetched(s)| && forall i :: 0 <= i < |s.output| ==> cfg.decode(Fetched(s)[i]) == Some(s.output[i])
  }

  /** A slot is given up only after an error or a cancelled read. */
  ghost predicate Kept(s: State) { !s.failed && !s.readerDone ==> s.board.lost == {} && s.board.lostBusy == {} }

  /** After stop nothing runs and no frame holds a buffer. */
  ghost predicate AtRest(cfg: Config, s: State) {
    s.stopped ==> s.readerDone && s.fetcher.Stopped? && s.exited == cfg.workers && forall f ::
      0 <= f < |s.mem.frames| ==> Empty(s.mem.frames[f])
  }

  ghost predicate Inv(cfg: Config, s: State) {
    && Placed(s.board, |s.mem.frames|) && Accounted(s.mem) && Tidy(s.board, s.mem, s.fetcher.Filling?) &&
      FetcherHands(s)
    && Staffed(cfg, s) && Progress(cfg, s) && (!s.stopped ==> Content(cfg, s)) && OutputRight(cfg, s) && Kept(s) &&
      AtRest(cfg, s)
  }

  lemma StepStaffed(cfg: Config, s: State, step: Step, t: State)
    requires Next(cfg, s, step, t) && Staffed(cfg, s)
    ensures Staffed(cfg, t)
  {
    if FetcherStep(cfg, s, step, t) {
      FetcherStaffed(cfg, s, step, t);
    } else if WorkerStep(cfg, s, step, t) {
      WorkerStaffed(cfg, s, step, t);
    } else {
      ReaderStaffed(cfg, s, step, t);
    }
  }

  lemma StepProgress(cfg: Config, s: State, step: Step, t: State)
    requires Next(cfg, s, step, t) && Progress(cfg, s)
    ensures Progress(cfg, t)
  {
    if FetcherStep(cfg, s, step, t) { FetcherProgress(cfg, s, step, t); } else { OtherProgress(cfg, s, step, t); }
  }

  lemma StepTidy(cfg: Config, s: State, step: Step, t: State)
    requires Next(cfg, s, step, t) && Placed(s.board, |s.mem.frames|) && Tidy(s.board, s.mem, s.fetcher.Filling?) &&
      FetcherHands(s) && Staffed(cfg, s)
    ensures Tidy(t.board, t.mem, t.fetcher.Filling?)
  {
    if FetcherStep(cfg, s, step, t) {
      FetcherTidy(cfg, s, step, t);
    } else {
      OtherTidy(cfg, s, step, t);
      OtherHandsKept(cfg, s, step, t);
    }
  }

  lemma FetcherFlags(cfg: Config, s: State, step: Step, t: State)
    requires FetcherStep(cfg, s, step, t)
    ensures (s.failed ==> t.failed) && t.readerDone == s.readerDone && (step.FetchError? ==> t.failed)
    ensures t.stopped == s.stopped && t.output == s.output
  {
    match step {
      case FetchError =>
      case SkipTerm =>
      case EndTerm =>
      case _ =>
    }
  }

  lemma OtherFlags(cfg: Config, s: State, step: Step, t: State)
    requires CanTouch(s, step) && (WorkerStep(cfg, s, step, t) || ReaderStep(cfg, s, step, t))
    ensures t.failed == s.failed && (s.readerDone ==> t.readerDone && t.output == s.output) && !step.FetchError?
    ensures step.ChunkFailed? || step.ArrivedCancelled? || step.ReaderCancelled? ==> t.readerDone
    ensures t.stopped == (s.stopped || step.Stop?)
  {}

  lemma StepKept(cfg: Config, s: State, step: Step, t: State)
    requires Next(cfg, s, step, t) && Kept(s)
    ensures Kept(t)
  {
    if FetcherStep(cfg, s, step, t) { FetcherFlags(cfg, s, step, t); } else { OtherFlags(cfg, s, step, t); }
    if !step.FetchError? && !step.ChunkFailed? && !step.ArrivedCancelled? &&
      !step.ReaderCancelled? { LosesNothing(s.board, MoveOf(step)); }
  }

  lemma LosesNothing(b: Board, m: Move)
    requires CanMove(b, m) && !m.Abort? && !m.Abandon? && !m.GiveUp?
    ensures Apply(b, m).lost == b.lost && Apply(b, m).lostBusy == b.lostBusy
  {}

  /** Once stopped, only flags change. */
  lemma RestStep(cfg: Config, s: State, step: Step, t: State)
    requires Next(cfg, s, step, t) && AtRest(cfg, s) && Staffed(cfg, s) && s.stopped
    ensures Fetched(t) == Fetched(s) && t.output == s.output && AtRest(cfg, t) && t.stopped
  {
    assert |s.board.decoding| == 0;
    if step.Stop? { PutAllEmpties(s.mem, |s.mem.frames|); }
  }

  lemma StopStep(cfg: Config, s: State, t: State)
    requires Next(cfg, s, Stop, t)
    ensures AtRest(cfg, t) && Fetched(t) == Fetched(s) && t.output == s.output && t.stopped
  {
    PutAllEmpties(s.mem, |s.mem.frames|);
  }

  lemma StepEnd(cfg: Config, s: State, step: Step, t: State)
    requires Next(cfg, s, step, t) && Inv(cfg, s)
    ensures (!t.stopped ==> Content(cfg, t)) && OutputRight(cfg, t) && AtRest(cfg, t)
  {
    if s.stopped {
      RestStep(cfg, s, step, t);
    } else if step.Stop? {
      StopStep(cfg, s, t);
    } else {
      if FetcherStep(cfg, s, step, t) { FetcherFlags(cfg, s, step, t); } else { OtherFlags(cfg, s, step, t); }
      StepContent(cfg, s, step, t);
    }
  }

  lemma InvStep(cfg: Config, s: State, step: Step, t: State)
    requires Inv(cfg, s) && Next(cfg, s, step, t)
    ensures Inv(cfg, t) && |t.mem.frames| == |s.mem.frames|
  {
    StepPlaced(cfg, s, step, t);
    assert step.ReadInto? ==> !s.fetcher.Filling?;
    StepAccounted(cfg, s, step);
    StepTidy(cfg, s, step, t);
    StepHands(cfg, s, step, t);
    StepStaffed(cfg, s, step, t);
    StepProgress(cfg, s, step, t);
    StepKept(cfg, s, step, t);
    StepEnd(cfg, s, step, t);
  }

  lemma InitInv(cfg: Config, n: nat)
    requires cfg.workers > 0
    ensures Inv(cfg, Init(n))
  {
    var s := Init(n);
    forall f: nat ensures Places(s.board, f) == Tally(f < n) && Pending(s.board, f) == Awaited(s.board, f) {}
    forall id: nat ensures HeldCount(s.mem.frames, id) == 0 { EmptyHoldNothing(s.mem.frames, id); }
    forall f | f in s.board.free ensures f < n { assert multiset(s.board.free)[f] > 0; }
  }

  /** The step relation as a value. */
  ghost function Steps(cfg: Config): (State, Step, State) -> bool { (s, step, t) => Next(cfg, s, step, t) }

  /** Every state of every run, under every interleaving, satisfies the invariant. */
  lemma RunsKeepInv(cfg: Config, first: State, trace: seq<(Step, State)>, i: nat)
    requires Inv(cfg, first) && Run(Steps(cfg), first, trace) && i <= |trace|
    ensures Inv(cfg, Before(first, trace, i)) && |Before(first, trace, i).mem.frames| == |first.mem.frames|
  {
    var good := (s: State) => Inv(cfg, s) && |s.mem.frames| == |first.mem.frames|;
    forall s, step, t | good(s) && Steps(cfg)(s, step, t) ensures good(t) {
      InvStep(cfg, s, step, t);
    }
    RunKeeps(Steps(cfg), good, first, trace, i);
  }

  /** What the pipeline promises of a state: each frame in exactly one place, no send blocked, chunks delivered in file
      order, no buffer returned twice, and none outstanding after stop. */
  ghost predicate Safe(cfg: Config, s: State) {
    && (forall f: nat {:trigger Places(s.board, f)} :: Places(s.board, f) == Tally(f < 32))
    && (s.board.held.Some? ==> |s.board.ordered| < 32) && (s.board.unsent.Some? ==> |s.board.jobs| < 32)
    && (s.board.cur.Some? || s.board.waiting.Some? ==> |s.board.free| < 32) && s.board.decoded !! s.board.ready
    && OutputRight(cfg, s)
    && (forall id: nat :: s.mem.returned[id] <= Tally(id < s.mem.issued))
    && (s.stopped ==> forall id: nat :: s.mem.returned[id] == Tally(id < s.mem.issued))
  }

  lemma InvSafe(cfg: Config, s: State)
    requires Inv(cfg, s) && |s.mem.frames| == WINDOW
    ensures Safe(cfg, s)
  {
    SendsNeverBlock(s.board, WINDOW);
    forall id: nat ensures s.mem.returned[id] <= Tally(id < s.mem.issued) &&
      (s.stopped ==> s.mem.returned[id] == Tally(id < s.mem.issued)) {
      assert HeldCount(s.mem.frames, id) + s.mem.returned[id] == Tally(id < s.mem.issued);
      if s.stopped { EmptyHoldNothing(s.mem.frames, id); }
    }
  }

  /** The main result: every state of every run of the pipeline, under every interleaving of its threads, is safe. */
  lemma RunsAreSafe(cfg: Config, trace: seq<(Step, State)>, i: nat)
    requires cfg.workers > 0 && Run(Steps(cfg), Init(WINDOW), trace) && i <= |trace|
    ensures Safe(cfg, Before(Init(WINDOW), trace, i))
  {
    InitInv(cfg, WINDOW);
    RunsKeepInv(cfg, Init(WINDOW), trace, i);
    InvSafe(cfg, Before(Init(WINDOW), trace, i));
  }

  // ---------------------------------------------------------------- from storage

  /** These are the packed chunks the storage has for a term, up to the given one. */
  ghost predicate FromTerm(cfg: Config, term: nat, ps: seq<Packed>) {
    forall k {:trigger ps[k]} :: 0 <= k < |ps| ==> cfg.frame(term, k) == Some(ps[k])
  }

  /** A finished term was read whole; one that declares no bytes is not read. */
  ghost predicate WholeTerm(cfg: Config, term: nat, ps: seq<Packed>)
    requires term < |cfg.terms|
  {
    FromTerm(cfg, term, ps) && |ps| == if cfg.terms[term].bytes == 0 then 0 else cfg.terms[term].chunks
  }

  /** How many chunks of the current term the fetcher has read. */
  ghost predicate Reached(cfg: Config, at: Fetcher, n: nat) {
    match at
    case AtTerm(_) => n == 0
    case Needs(i, k) => n == k && i < |cfg.terms| && k <= cfg.terms[i].chunks && cfg.terms[i].bytes > 0
    case Holding(i, k) => n == k && i < |cfg.terms| && (k == 0 || k < cfg.terms[i].chunks) && cfg.terms[i].bytes > 0
    case Filling(i, k) => n == k && i < |cfg.terms| && k <= cfg.terms[i].chunks && cfg.terms[i].bytes > 0
    case Sending(i, k) => n == k + 1 && i < |cfg.terms| && k < cfg.terms[i].chunks && cfg.terms[i].bytes > 0
    case _ => true
  }

  /** Everything fetched is what the storage has, term after term, chunk after chunk. */
  ghost predicate Sourced(cfg: Config, s: State) {
    && |s.done| <= |cfg.terms| && (forall j {:trigger s.done[j]} :: 0 <= j < |s.done| ==> WholeTerm(cfg, j, s.done[j]))
    && FromTerm(cfg, |s.done|, s.partial) && Reached(cfg, s.fetcher, |s.partial|)
    && (s.partial != [] ==>
      |s.done| < |cfg.terms| && cfg.terms[|s.done|].bytes > 0 && |s.partial| <= cfg.terms[|s.done|].chunks)
  }

  lemma TermDone(cfg: Config, done: seq<seq<Packed>>, ps: seq<Packed>)
    requires |done| < |cfg.terms| && (forall j {:trigger done[j]} :: 0 <= j < |done| ==> WholeTerm(cfg, j, done[j]))
    requires WholeTerm(cfg, |done|, ps)
    ensures forall j {:trigger (done + [ps])[j]} :: 0 <= j < |done + [ps]| ==> WholeTerm(cfg, j, (done + [ps])[j])
  {
  }

  lemma DeliverSourced(cfg: Config, s: State, p: Packed, t: State)
    requires Sourced(cfg, s) && Progress(cfg, s) && FetcherStep(cfg, s, Deliver(p), t)
    ensures Sourced(cfg, t)
  {
    forall k | 0 <= k < |t.partial| ensures cfg.frame(|t.done|, k) == Some(t.partial[k]) {
      if k < |s.partial| { assert t.partial[k] == s.partial[k]; }
    }
  }

  lemma TermSourced(cfg: Config, s: State, step: Step, t: State)
    requires Sourced(cfg, s) && Progress(cfg, s) && FetcherStep(cfg, s, step, t) && (step.SkipTerm? || step.EndTerm?)
    ensures Sourced(cfg, t)
  {
    TermDone(cfg, s.done, if step.SkipTerm? then [] else s.partial);
  }

  lemma FetcherSourced(cfg: Config, s: State, step: Step, t: State)
    requires Sourced(cfg, s) && Progress(cfg, s) && FetcherStep(cfg, s, step, t)
    ensures Sourced(cfg, t)
  {
    match step {
      case SkipTerm => TermSourced(cfg, s, step, t);
      case EndTerm => TermSourced(cfg, s, step, t);
      case Deliver(p) => DeliverSourced(cfg, s, p, t);
      case _ => PlainSourced(cfg, s, step, t);
    }
  }

  lemma PlainSourced(cfg: Config, s: State, step: Step, t: State)
    requires Sourced(cfg, s) && FetcherStep(cfg, s, step, t) && !step.SkipTerm? && !step.EndTerm? && !step.Deliver?
    ensures Sourced(cfg, t)
  {
    NothingRead(cfg, s, step, t);
    assert FromTerm(cfg, |t.done|, t.partial);
  }

  lemma NothingRead(cfg: Config, s: State, step: Step, t: State)
    requires FetcherStep(cfg, s, step, t) && !step.SkipTerm? && !step.EndTerm? && !step.Deliver?
    requires Reached(cfg, s.fetcher, |s.partial|)
    ensures t.done == s.done && t.partial == s.partial && Reached(cfg, t.fetcher, |t.partial|)
  {
    if step.Acquire? || step.ReadInto? || step.SendOn? {
      HandsReached(cfg, s, step, t);
    } else {
      EndReached(cfg, s, step, t);
    }
  }

  lemma HandsReached(cfg: Config, s: State, step: Step, t: State)
    requires FetcherStep(cfg, s, step, t) && (step.Acquire? || step.ReadInto? || step.SendOn?)
    requires Reached(cfg, s.fetcher, |s.partial|)
    ensures t.done == s.done && t.partial == s.partial && Reached(cfg, t.fetcher, |t.partial|)
  {
  }

  lemma EndReached(cfg: Config, s: State, step: Step, t: State)
    requires FetcherStep(cfg, s, step, t) && !step.SkipTerm? && !step.EndTerm? && !step.Deliver?
    requires !step.Acquire? && !step.ReadInto? && !step.SendOn?
    ensures t.done == s.done && t.partial == s.partial && Reached(cfg, t.fetcher, |t.partial|)
  {
  }

  lemma OtherSourced(cfg: Config, s: State, step: Step, t: State)
    requires Sourced(cfg, s) && CanTouch(s, step) && (WorkerStep(cfg, s, step, t) || ReaderStep(cfg, s, step, t))
    ensures Sourced(cfg, t)
  {}

  lemma SourcedStep(cfg: Config, s: State, step: Step, t: State)
    requires Sourced(cfg, s) && Progress(cfg, s) && Next(cfg, s, step, t)
    ensures Sourced(cfg, t)
  {
    if FetcherStep(cfg, s, step, t) { FetcherSourced(cfg, s, step, t); } else { OtherSourced(cfg, s, step, t); }
  }

  /** In every state of every run, what was fetched is what the storage has. */
  lemma RunsKeepSourced(cfg: Config, trace: seq<(Step, State)>, i: nat)
    requires cfg.workers > 0 && Run(Steps(cfg), Init(WINDOW), trace) && i <= |trace|
    ensures Inv(cfg, Before(Init(WINDOW), trace, i)) && Sourced(cfg, Before(Init(WINDOW), trace, i))
  {
    InitInv(cfg, WINDOW);
    var good := (s: State) => Inv(cfg, s) && Sourced(cfg, s);
    forall s, step, t | good(s) && Steps(cfg)(s, step, t) ensures good(t) {
      InvStep(cfg, s, step, t);
      SourcedStep(cfg, s, step, t);
    }
    RunKeeps(Steps(cfg), good, Init(WINDOW), trace, i);
  }

  /** When the ordered channel is closed without an error, every term was read and adds up to its declared size; a
      reader that has emptied the channel was given every chunk of every term. */
  lemma CleanEnd(cfg: Config, s: State)
    requires Inv(cfg, s) && s.orderedClosed && !s.failed
    ensures |s.done| == |cfg.terms| && Finished(cfg.terms, s.done) && Fetched(s) == Flatten(s.done)
    ensures !s.readerDone && s.board.ordered == [] && s.board.waiting.None? ==> |s.output| == |Fetched(s)|
  {}

  // ---------------------------------------------------------------- no deadlock, and stop returns

  ghost predicate OthersCanStep(cfg: Config, s: State) {
    exists step, t :: Next(cfg, s, step, t) && (FetcherStep(cfg, s, step, t) || WorkerStep(cfg, s, step, t))
  }

  ghost predicate WorkersCanStep(cfg: Config, s: State) {
    exists step, t :: Next(cfg, s, step, t) && WorkerStep(cfg, s, step, t)
  }

  lemma WorkerCan(cfg: Config, s: State, step: Step, t: State)
    requires CanMove(s.board, MoveOf(step)) && CanTouch(s, step)
    requires t.board == Apply(s.board, MoveOf(step)) && t.mem == Touch(cfg, s, step) && WorkerStep(cfg, s, step, t)
    ensures WorkersCanStep(cfg, s)
  {
    assert Next(cfg, s, step, t);
  }

  lemma FetcherCan(cfg: Config, s: State, step: Step, t: State)
    requires CanMove(s.board, MoveOf(step)) && CanTouch(s, step)
    requires t.board == Apply(s.board, MoveOf(step)) && t.mem == Touch(cfg, s, step)
    requires FetcherStep(cfg, s, step, t) || WorkerStep(cfg, s, step, t)
    ensures OthersCanStep(cfg, s)
  {
    assert Next(cfg, s, step, t);
  }

  /** The fetcher can always go on, except past its end or while it waits for a slot and none is free. */
  lemma FetcherGoesOn(cfg: Config, s: State)
    requires FetcherHands(s) && Progress(cfg, s) && !s.fetcher.Stopped?
    requires WantsFrame(cfg, s.fetcher) ==> s.board.free != [] || s.cancelled
    ensures OthersCanStep(cfg, s)
  {
    var at := s.fetcher;
    if WantsFrame(cfg, at) {
      AcquireGoesOn(cfg, s);
    } else if at.Holding? || at.Filling? || at.Sending? {
      HandsGoOn(cfg, s);
    } else if at.Needs? {
      TermGoesOn(cfg, s);
    } else {
      EndGoesOn(cfg, s);
    }
  }

  lemma TermGoesOn(cfg: Config, s: State)
    requires TermRead(cfg, s.fetcher)
    ensures OthersCanStep(cfg, s)
  {
    if Sizes(s.partial) == cfg.terms[s.fetcher.term].bytes {
      FetcherCan(cfg, s, EndTerm,
        s.(fetcher := AtTerm(s.fetcher.term + 1), done := s.done + [s.partial], partial := []));
    } else {
      FetcherCan(cfg, s, WrongSize, s.(fetcher := Broken, failed := true));
    }
  }

  lemma EndGoesOn(cfg: Config, s: State)
    requires s.fetcher.AtTerm? || s.fetcher.Broken? || s.fetcher.Closing?
    requires s.fetcher.AtTerm? ==> s.fetcher.term <= |cfg.terms| && !WantsFrame(cfg, s.fetcher)
    ensures OthersCanStep(cfg, s)
  {
    if s.fetcher.Closing? {
      FetcherCan(cfg, s, CloseJobs, s.(fetcher := Stopped, jobsClosed := true));
    } else if s.fetcher.AtTerm? && s.fetcher.term < |cfg.terms| {
      FetcherCan(cfg, s, SkipTerm, s.(fetcher := AtTerm(s.fetcher.term + 1), done := s.done + [[]]));
    } else {
      FetcherCan(cfg, s, CloseOrdered, s.(fetcher := Closing, orderedClosed := true));
    }
  }

  lemma HandsGoOn(cfg: Config, s: State)
    requires FetcherHands(s) && (s.fetcher.Holding? || s.fetcher.Filling? || s.fetcher.Sending?)
    ensures OthersCanStep(cfg, s)
  {
    if s.fetcher.Sending? {
      FetcherCan(cfg, s, SendOn,
        s.(board := Apply(s.board, SendJob), fetcher := Needs(s.fetcher.term, s.fetcher.chunk + 1)));
    } else {
      FetcherCan(cfg, s, FetchError, s.(board := Apply(s.board, Abort), fetcher := Broken, failed := true));
    }
  }

  lemma AcquireGoesOn(cfg: Config, s: State)
    requires FetcherHands(s) && WantsFrame(cfg, s.fetcher) && (s.board.free != [] || s.cancelled)
    ensures OthersCanStep(cfg, s)
  {
    var at := s.fetcher;
    if s.board.free != [] {
      FetcherCan(cfg, s, Acquire,
        s.(board := Apply(s.board, ToFetcher), fetcher := Holding(at.term, if at.Needs? then at.chunk else 0)));
    } else {
      FetcherCan(cfg, s, AcquireCancelled, s.(fetcher := Broken, failed := true));
    }
  }

  lemma AnnounceGoesOn(cfg: Config, s: State, f: nat)
    requires f in s.board.decoded
    ensures WorkersCanStep(cfg, s)
  {
    WorkerCan(cfg, s, Announce(f), s.(board := Apply(s.board, Signal(f))));
  }

  lemma DecodeGoesOn(cfg: Config, s: State, f: nat)
    requires f in s.board.decoding && PackedOnly(s.mem, f)
    ensures WorkersCanStep(cfg, s)
  {
    WorkerCan(cfg, s, FinishJob(f), s.(board := Apply(s.board, Decode(f)), mem := DecodeFrame(s.mem, cfg.decode, f)));
  }

  /** While a frame is queued or being decoded, a worker can go on. */
  lemma WorkersGoOn(cfg: Config, s: State)
    requires Tidy(s.board, s.mem, s.fetcher.Filling?) && Staffed(cfg, s) &&
      (s.board.jobs != [] || s.board.decoding != {} || s.board.decoded != {})
    ensures WorkersCanStep(cfg, s)
  {
    var b := s.board;
    if f :| f in b.decoded {
      AnnounceGoesOn(cfg, s, f);
    } else if f :| f in b.decoding {
      DecodeGoesOn(cfg, s, f);
    } else {
      assert b.decoded == {} && b.decoding == {};
      WorkerCan(cfg, s, StartJob, s.(board := Apply(b, TakeJob)));
    }
  }

  /** No deadlock: whenever the reader waits, for a frame or for its chunk to be decoded, the fetcher or a worker can
      step. */
  lemma NeverStuck(cfg: Config, s: State)
    requires Inv(cfg, s) && |s.mem.frames| >= 2 && !s.readerDone
    requires (s.board.waiting.None? && s.board.ordered == [] && !s.orderedClosed) ||
      (s.board.waiting.Some? && s.board.waiting.value !in s.board.ready)
    ensures OthersCanStep(cfg, s)
  {
    var b := s.board;
    if b.waiting.Some? {
      var f := b.waiting.value;
      assert Pending(b, f) == Awaited(b, f);
      if b.unsent == Some(f) { FetcherGoesOn(cfg, s); } else { WorkersGoOn(cfg, s); }
    } else {
      var f := if b.cur == Some(0) then 1 else 0;
      assert Places(b, f) == Tally(f < |s.mem.frames|);
      FetcherGoesOn(cfg, s);
    }
  }

  /** Stop returns: after a cancel, the fetcher or a worker can step until all of them have ended. */
  lemma StopIsReached(cfg: Config, s: State)
    requires Inv(cfg, s) && s.cancelled
    ensures (s.fetcher.Stopped? && s.exited == cfg.workers) || OthersCanStep(cfg, s)
  {
    if !s.fetcher.Stopped? {
      FetcherGoesOn(cfg, s);
    } else if s.board.jobs != [] || s.board.decoding != {} || s.board.decoded != {} {
      WorkersGoOn(cfg, s);
    } else if s.exited != cfg.workers {
      FetcherCan(cfg, s, ExitWorker, s.(exited := s.exited + 1));
    }
  }

  /** Fetcher steps left from term i on, with the worker steps they lead to. */
  function RestOf(cfg: Config, i: nat): nat
    decreases |cfg.terms| - i
  {
    if i >= |cfg.terms| then 3 else 3 + 8 * cfg.terms[i].chunks + RestOf(cfg, i + 1)
  }

  function FetchLeft(cfg: Config, at: Fetcher): int {
    match at
    case AtTerm(i) => RestOf(cfg, i)
    case Needs(i, k) => RestOf(cfg, i + 1) + 8 * ChunksLeft(cfg, i, k) + 2
    case Holding(i, k) => RestOf(cfg, i + 1) + 8 * ChunksLeft(cfg, i, k) + 1
    case Filling(i, k) => RestOf(cfg, i + 1) + 8 * ChunksLeft(cfg, i, k)
    case Sending(i, k) => RestOf(cfg, i + 1) + 8 * ChunksLeft(cfg, i, k) - 1
    case Broken => 2
    case Closing => 1
    case Stopped => 0
  }

  function ChunksLeft(cfg: Config, i: nat, k: nat): nat {
    if i < |cfg.terms| && k < cfg.terms[i].chunks then cfg.terms[i].chunks - k else 0
  }

  function JobsLeft(cfg: Config, s: State): int {
    3 * |s.board.jobs| + 2 * |s.board.decoding| + |s.board.decoded| + cfg.workers - s.exited
  }

  lemma RestPositive(cfg: Config, i: nat)
    ensures RestOf(cfg, i) >= 3
  {}

  /** How the fetcher's place changes. */
  predicate Hop(cfg: Config, at: Fetcher, step: Step, to: Fetcher) {
    || ((step.SkipTerm? || step.EndTerm?) && (at.AtTerm? || at.Needs?) && at.term < |cfg.terms| &&
      to == AtTerm(at.term + 1))
    || (step.Acquire? && (at.AtTerm? || at.Needs?) && at.term < |cfg.terms| &&
      to == Holding(at.term, if at.Needs? then at.chunk else 0))
    || (step.ReadInto? && at.Holding? && to == Filling(at.term, at.chunk))
    || (step.Deliver? && at.Filling? && to == Sending(at.term, at.chunk))
    || (step.SendOn? && at.Sending? && ChunksLeft(cfg, at.term, at.chunk) > 0 && to == Needs(at.term, at.chunk + 1))
    || (!step.SendOn? && (at.AtTerm? || at.Needs? || at.Holding? || at.Filling?) && to == Broken)
    || (!step.SendOn? && (at.AtTerm? || at.Broken?) && to == Closing)
    || (!step.SendOn? && at.Closing? && to == Stopped)
  }

  lemma HopDescends(cfg: Config, at: Fetcher, step: Step, to: Fetcher)
    requires Hop(cfg, at, step, to)
    ensures 0 <= FetchLeft(cfg, to) && FetchLeft(cfg, to) + 3 * Tally(step.SendOn?) < FetchLeft(cfg, at)
  {
    if at.AtTerm? { RestPositive(cfg, at.term); }
    if at.AtTerm? || InsideTerm(at) { RestPositive(cfg, at.term + 1); }
  }

  lemma FetcherHops(cfg: Config, s: State, step: Step, t: State)
    requires FetcherStep(cfg, s, step, t) && Progress(cfg, s)
    ensures Hop(cfg, s.fetcher, step, t.fetcher)
  {
    match step {
      case Acquire =>
      case SendOn => assert s.fetcher.chunk < cfg.terms[s.fetcher.term].chunks;
      case EndTerm =>
      case _ =>
    }
  }

  function StepsLeft(cfg: Config, s: State): int { FetchLeft(cfg, s.fetcher) + JobsLeft(cfg, s) }

  lemma FetchLeftPositive(cfg: Config, at: Fetcher)
    requires at.Sending? ==> ChunksLeft(cfg, at.term, at.chunk) > 0
    ensures FetchLeft(cfg, at) >= 0
  {
    if at.AtTerm? { RestPositive(cfg, at.term); }
    if InsideTerm(at) { RestPositive(cfg, at.term + 1); }
  }

  lemma StepsLeftPositive(cfg: Config, s: State)
    requires Inv(cfg, s)
    ensures StepsLeft(cfg, s) >= 0
  {
    FetchLeftPositive(cfg, s.fetcher);
  }

  /** Every step of the fetcher or a worker uses up one of finitely many. */
  lemma Descends(cfg: Config, s: State, step: Step, t: State)
    requires Inv(cfg, s) && Next(cfg, s, step, t) && (FetcherStep(cfg, s, step, t) || WorkerStep(cfg, s, step, t))
    ensures 0 <= StepsLeft(cfg, t) < StepsLeft(cfg, s)
  {
    if FetcherStep(cfg, s, step, t) {
      FetcherHops(cfg, s, step, t);
      HopDescends(cfg, s.fetcher, step, t.fetcher);
      FetcherRuns(cfg, s, step, t);
      FetcherMoveLeaves(s.board, step);
    } else {
      WorkerDescends(cfg, s, step, t);
    }
    InvStep(cfg, s, step, t);
    StepsLeftPositive(cfg, t);
  }

  lemma WorkerDescends(cfg: Config, s: State, step: Step, t: State)
    requires WorkerStep(cfg, s, step, t) && CanMove(s.board, MoveOf(step)) && t.board == Apply(s.board, MoveOf(step))
    ensures t.fetcher == s.fetcher && JobsLeft(cfg, t) < JobsLeft(cfg, s)
  {}

  predicate ByReader(step: Step) {
    || step.TakeNext? || step.Serve? || step.Discard? || step.ChunkFailed? || step.ArrivedCancelled? ||
      step.ReaderCancelled?
    || step.ReleaseServed? || step.Cancel? || step.Stop?
  }

  lemma ReaderMoveLeaves(b: Board, step: Step)
    requires CanMove(b, MoveOf(step)) && ByReader(step)
    ensures var c := Apply(b, MoveOf(step)); c.decoding == b.decoding && c.decoded == b.decoded && c.jobs == b.jobs
  {}

  lemma ReaderLocal(cfg: Config, s: State, step: Step, t: State)
    requires CanTouch(s, step) && ReaderStep(cfg, s, step, t)
    ensures t.fetcher == s.fetcher && t.exited == s.exited && (s.cancelled ==> t.cancelled)
  {}

  /** What the reader does takes nothing away from what the others have left to do, and adds nothing. */
  lemma ReaderKeepsSteps(cfg: Config, s: State, step: Step, t: State)
    requires Next(cfg, s, step, t) && ByReader(step)
    ensures StepsLeft(cfg, t) == StepsLeft(cfg, s) && (s.cancelled ==> t.cancelled)
  {
    assert !FetcherStep(cfg, s, step, t) && !WorkerStep(cfg, s, step, t);
    ReaderMoveLeaves(s.board, step);
    ReaderLocal(cfg, s, step, t);
  }

  lemma OthersStep(cfg: Config, s: State, step: Step, t: State)
    requires Next(cfg, s, step, t) && !ByReader(step)
    ensures (FetcherStep(cfg, s, step, t) || WorkerStep(cfg, s, step, t)) && (s.cancelled ==> t.cancelled)
  {
    match step {
      case SkipTerm => case Acquire => case AcquireCancelled => case FetchError => case ReadInto => case Deliver(_) =>
        case SendOn =>
      case EndTerm => case WrongSize => case CloseOrdered => case CloseJobs => case StartJob => case FinishJob(_) =>
      case Announce(_) => case ExitWorker =>
    }
  }

  /** The steps of the fetcher and the workers in a run. */
  function Worked(trace: seq<(Step, State)>): nat { CountSteps((step: Step) => !ByReader(step), trace, |trace|) }

  lemma WorkedStep(cfg: Config, s: State, step: Step, t: State)
    requires Inv(cfg, s) && Next(cfg, s, step, t)
    ensures Tally(!ByReader(step)) + StepsLeft(cfg, t) <= StepsLeft(cfg, s) && (s.cancelled ==> t.cancelled)
  {
    if ByReader(step) {
      ReaderKeepsSteps(cfg, s, step, t);
    } else {
      OthersStep(cfg, s, step, t);
      Descends(cfg, s, step, t);
    }
  }

  /** Stop ends: in every run from a cancelled state, whatever the reader does meanwhile, the fetcher and the workers
      take at most as many steps as were left, and where they can take no more, all of them have ended. */
  lemma StopEnds(cfg: Config, first: State, trace: seq<(Step, State)>)
    requires Inv(cfg, first) && first.cancelled && Run(Steps(cfg), first, trace)
    ensures Worked(trace) <= StepsLeft(cfg, first)
    ensures var s := Before(first, trace, |trace|);
      OthersCanStep(cfg, s) || (s.fetcher.Stopped? && s.exited == cfg.workers)
  {
    var good := (s: State) => Inv(cfg, s) && s.cancelled;
    var counts := (step: Step) => !ByReader(step);
    forall s, step, t | good(s) && Steps(cfg)(s, step, t)
      ensures good(t) && StepsLeft(cfg, t) + (if counts(step) then 1 else 0) <= StepsLeft(cfg, s)
    {
      InvStep(cfg, s, step, t);
      WorkedStep(cfg, s, step, t);
    }
    CountBound(Steps(cfg), good, (s: State) => StepsLeft(cfg, s), counts, first, trace, |trace|);
    var last := Before(first, trace, |trace|);
    StepsLeftPositive(cfg, last);
    StopIsReached(cfg, last);
  }
}
