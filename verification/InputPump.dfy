/**
 The hand-off from the blocking RTCM source to the modem loop. The reader and the
 consumer share a bounded queue and a generation counter behind one lock; what
 each does under the lock, and each operation on the queue, is one step.
 */
module InputPump {
  import opened Bytes
  import opened Wrappers
  import opened BaseService
  import T = Transport
  import Rtcm
  import Seqs
  import Uplink
  import A = Application

  const CAPACITY: nat := 64

  datatype Item = Marker(generation: nat) | Chunk(raw: bytes, at: int, generation: nat) | Finish

  /** Where the reader is between two of its steps. */
  datatype Reader =
    | Resting
    | Starting(g: nat)
    | Marking(g: nat)
    | Reading
    | Sampled(raw: bytes, at: int, g: nat)
    | Overflowed(raw: bytes, at: int)
    | Discarding(raw: bytes, at: int, g: nat)
    | MarkerNext(raw: bytes, at: int, g: nat)
    | ItemNext(raw: bytes, at: int, g: nat)
    | Ending
    | Ended
    | Crashed  // `put_nowait` met a full queue where the source does not expect one

  /** The consumer's service: parser and scheduler. */
  datatype Service = Service(parser: Rtcm.Parser, base: Base)

  /**
   `sampled` says whether the consumer has read the generation for the first time.
   `sent` is every chunk handed over, in order; `fed` are the chunks ingested
   since the last reset, when `mark` frames had been ingested.
   */
  datatype Pump = Pump(
    queue: seq<Item>, generation: nat, reader: Reader, taken: Option<Item>, sampled: bool, active: nat,
    service: Service, sent: seq<Item>, fed: seq<bytes>, mark: nat)

  datatype Action =
    | Connect
    | Discard
    | PutMarker
    | Read(raw: bytes, at: int)
    | PutNow
    | Bump
    | Disconnect
    | End
    | Sample
    | Get
    | Guard(i: T.TickIn, now: int, w: T.Write)

  // ---- the consumer's turn under the lock -------------------------------------------

  function ResetService(v: Service): Service { Service(Rtcm.Reset(v.parser), ResetSource(v.base)) }

  function IngestChunk(v: Service, raw: bytes, at: int): Service {
    Service(Rtcm.Fed(v.parser, raw), Ingest(v.base, Rtcm.ScanAll(v.parser.buffer + raw).frames, at))
  }

  /** Everything before the service's step: follow the generation, then take the chunk if it is current. */
  function Entered(v: Service, active: nat, generation: nat, item: Option<Item>): Service {
    var u := if generation != active then ResetService(v) else v;
    if item.Some? && item.value.Chunk? && item.value.generation == generation
    then IngestChunk(u, item.value.raw, item.value.at) else u
  }

  function Current(item: Option<Item>, generation: nat): seq<bytes> {
    if item.Some? && item.value.Chunk? && item.value.generation == generation then [item.value.raw] else []
  }

  // ---- one step ---------------------------------------------------------------------

  function Append(x: Pump, item: Item, reader: Reader): Pump {
    x.(queue := x.queue + [item], reader := reader, sent := if item.Chunk? then x.sent + [item] else x.sent)
  }

  function Step(x: Pump, a: Action, reconnect: int): Pump
    requires Enabled(x, a)
  {
    match a
    case Connect => x.(generation := x.generation + 1, reader := Starting(x.generation + 1))
    case Discard =>
      if x.queue != [] then x.(queue := x.queue[1..])
      else if x.reader.Starting? then x.(reader := Marking(x.reader.g))
      else x.(reader := MarkerNext(x.reader.raw, x.reader.at, x.reader.g))
    case PutMarker => Append(x, Marker(x.reader.g), Reading)
    case Read(raw, at) => x.(reader := Sampled(raw, at, x.generation))
    case PutNow =>
      (match x.reader
       case Sampled(raw, at, g) =>
         if |x.queue| < CAPACITY then Append(x, Chunk(raw, at, g), Reading) else x.(reader := Overflowed(raw, at))
       case MarkerNext(raw, at, g) =>
         if |x.queue| < CAPACITY then Append(x, Marker(g), ItemNext(raw, at, g)) else x.(reader := Crashed)
       case ItemNext(raw, at, g) =>
         if |x.queue| < CAPACITY then Append(x, Chunk(raw, at, g), Reading) else x.(reader := Crashed)
       case _ => Append(x, Finish, Ended))
    case Bump => x.(generation := x.generation + 1,
                    reader := Discarding(x.reader.raw, x.reader.at, x.generation + 1))
    case Disconnect => x.(reader := Resting)
    case End => x.(reader := Ending)
    case Sample => x.(active := x.generation, sampled := true)
    case Get => x.(queue := x.queue[1..], taken := Some(x.queue[0]))
    case Guard(i, now, w) =>
      var v := Entered(x.service, x.active, x.generation, x.taken);
      var switched := x.generation != x.active;
      x.(service := v.(base := BaseService.Step(v.base, i, now, w, reconnect)),
         active := x.generation, taken := None,
         fed := (if switched then [] else x.fed) + Current(x.taken, x.generation),
         mark := if switched then |x.service.base.ingested| else x.mark)
  }

  predicate Enabled(x: Pump, a: Action) {
    match a
    case Connect => x.reader.Resting?
    case Discard => x.reader.Starting? || x.reader.Discarding?
    case PutMarker => x.reader.Marking? && |x.queue| < CAPACITY
    case Read(_, _) => x.reader.Reading?
    case PutNow =>
      x.reader.Sampled? || x.reader.MarkerNext? || x.reader.ItemNext? || (x.reader.Ending? && |x.queue| < CAPACITY)
    case Bump => x.reader.Overflowed?
    case Disconnect => x.reader.Reading?
    case End => x.reader.Resting?
    case Sample => !x.sampled
    case Get => x.sampled && x.taken.None? && x.queue != []
    case Guard(_, _, _) => x.sampled && !x.service.base.crashed
  }

  // ---- the invariant -------------------------------------------------------------------

  /** The chunks of one generation, in order. */
  function Tagged(items: seq<Item>, g: nat): seq<bytes> {
    if items == [] then [] else Current(Some(items[0]), g) + Tagged(items[1..], g)
  }

  ghost predicate NoneAbove(items: seq<Item>, g: nat) {
    forall k :: 0 <= k < |items| && !items[k].Finish? ==> items[k].generation <= g
  }

  /** What each place in the reader's code says about generation and queue. */
  ghost predicate ReaderInv(x: Pump) {
    match x.reader
    case Starting(g) => g == x.generation && Tagged(x.sent, g) == []
    case Marking(g) => g == x.generation
    case Sampled(_, _, g) => g == x.generation
    case Discarding(_, _, g) => g == x.generation && Tagged(x.sent, g) == []
    case MarkerNext(_, _, g) => g == x.generation && |x.queue| == 0
    case ItemNext(_, _, g) => g == x.generation && |x.queue| <= 1
    case Crashed => false
    case _ => true
  }

  /**
   The chunks of the current generation are ingested, in the consumer's hand, or
   queued: none lost, none out of order.
   */
  ghost predicate Contiguous(x: Pump) {
    var fed := if x.active == x.generation then x.fed else [];
    fed + (Current(x.taken, x.generation) + Tagged(x.queue, x.generation)) == Tagged(x.sent, x.generation)
  }

  ghost predicate HandOff(x: Pump) {
    && |x.queue| <= CAPACITY && x.active <= x.generation
    && NoneAbove(x.queue, x.generation) && NoneAbove(x.sent, x.generation)
    && (x.taken.Some? ==> NoneAbove([x.taken.value], x.generation))
    && ReaderInv(x) && Contiguous(x) && (!x.sampled ==> x.taken.None? && x.fed == [])
    && x.fed <= Tagged(x.sent, x.active)
  }

  lemma {:induction false} TaggedConcat(a: seq<Item>, b: seq<Item>, g: nat)
    ensures Tagged(a + b, g) == Tagged(a, g) + Tagged(b, g)
    decreases |a|
  {
    if |a| == 0 {
      assert a + b == b;
    } else {
      assert (a + b)[0] == a[0] && (a + b)[1..] == a[1..] + b;
      TaggedConcat(a[1..], b, g);
      Seqs.Assoc(Current(Some(a[0]), g), Tagged(a[1..], g), Tagged(b, g));
    }
  }

  lemma TaggedAppend(a: seq<Item>, x: Item, g: nat)
    ensures Tagged(a + [x], g) == Tagged(a, g) + Current(Some(x), g)
  {
    TaggedConcat(a, [x], g);
    assert |[x][1..]| == 0;
    Seqs.Units(Current(Some(x), g));
  }

  lemma {:induction false} TaggedNone(items: seq<Item>, above: nat, g: nat)
    requires NoneAbove(items, above) && above < g
    ensures |Tagged(items, g)| == 0
    decreases |items|
  {
    if items != [] { TaggedNone(items[1..], above, g); }
  }

  /** A new generation starts with nothing to its name. */
  lemma BumpHandOff(x: Pump, reader: Reader)
    requires HandOff(x)
    requires reader == Starting(x.generation + 1) || (reader.Discarding? && reader.g == x.generation + 1)
    ensures HandOff(x.(generation := x.generation + 1, reader := reader))
  {
    hide Tagged;
    var g := x.generation + 1;
    TaggedNone(x.queue, x.generation, g);
    TaggedNone(x.sent, x.generation, g);
    if x.taken.Some? {
      var t := [x.taken.value];
      assert t[0] == x.taken.value;
    }
    var none: seq<bytes> := [];
    assert Current(x.taken, g) == none && none + (none + none) == none;
  }

  lemma DiscardHandOff(x: Pump)
    requires HandOff(x) && (x.reader.Starting? || x.reader.Discarding?) && x.queue != []
    ensures HandOff(x.(queue := x.queue[1..]))
  {
    var fed := if x.active == x.generation then x.fed else [];
    var q := Tagged(x.queue, x.generation);
    assert |fed + (Current(x.taken, x.generation) + q)| == |fed| + |Current(x.taken, x.generation)| + |q|;
    assert |Tagged(x.queue[1..], x.generation)| == 0;
  }

  lemma Regroup(fed: seq<bytes>, hand: seq<bytes>, queued: seq<bytes>, more: seq<bytes>)
    ensures fed + (hand + (queued + more)) == (fed + (hand + queued)) + more
  {}

  lemma AppendHandOff(x: Pump, item: Item, reader: Reader)
    requires HandOff(x) && |x.queue| < CAPACITY && (item.Finish? || item.generation == x.generation)
    requires reader.Reading? || reader.Ended? || (reader.ItemNext? && reader.g == x.generation && |x.queue| == 0)
    ensures HandOff(Append(x, item, reader))
  {
    hide Tagged;
    var g := x.generation;
    TaggedAppend(x.queue, item, g);
    TaggedAppend(x.sent, item, g);
    TaggedAppend(x.sent, item, x.active);
    Seqs.Units(Tagged(x.sent, g));
    Seqs.Units(Tagged(x.queue, g));
    Regroup(if x.active == g then x.fed else [], Current(x.taken, g), Tagged(x.queue, g), Current(Some(item), g));
  }

  lemma GetHandOff(x: Pump)
    requires HandOff(x) && x.sampled && x.taken.None? && x.queue != []
    ensures HandOff(x.(queue := x.queue[1..], taken := Some(x.queue[0])))
  {
    var g := x.generation;
    Seqs.Units(Tagged(x.queue, g));
  }

  /** Whatever generation the reader has reached, nothing of it has been ingested yet. */
  lemma SampleHandOff(x: Pump)
    requires HandOff(x) && !x.sampled
    ensures HandOff(x.(active := x.generation, sampled := true))
  {
    hide Tagged;
    var none: seq<bytes> := [];
    assert x.fed == none && none <= Tagged(x.sent, x.generation);
  }

  /** The consumer's turn moves what it holds to what is ingested, after a reset if the generation moved. */
  lemma GuardHandOff(x: Pump, service: Service, mark: nat)
    requires HandOff(x) && x.sampled
    ensures HandOff(x.(service := service, mark := mark, active := x.generation, taken := None,
      fed := (if x.generation != x.active then [] else x.fed) + Current(x.taken, x.generation)))
  {
    hide Tagged;
    var g := x.generation;
    var fed: seq<bytes> := if x.generation != x.active then [] else x.fed;
    var none: seq<bytes> := [];
    Seqs.Assoc(fed, Current(x.taken, g), Tagged(x.queue, g));
    Seqs.Units(Tagged(x.queue, g));
    assert Current(None, g) == none;
  }

  lemma PutNowHandOff(x: Pump, reconnect: int)
    requires HandOff(x) && Enabled(x, PutNow)
    ensures HandOff(Step(x, PutNow, reconnect))
  {
    hide Tagged, Append, Contiguous;
    if |x.queue| < CAPACITY {
      match x.reader {
        case Sampled(raw, at, g) => AppendHandOff(x, Chunk(raw, at, g), Reading);
        case MarkerNext(raw, at, g) => AppendHandOff(x, Marker(g), ItemNext(raw, at, g));
        case ItemNext(raw, at, g) => AppendHandOff(x, Chunk(raw, at, g), Reading);
        case _ => AppendHandOff(x, Finish, Ended);
      }
    } else {
      SameHandOff(x, Overflowed(x.reader.raw, x.reader.at));
    }
  }

  lemma SameHandOff(x: Pump, reader: Reader)
    requires HandOff(x) && ReaderInv(x.(reader := reader))
    ensures HandOff(x.(reader := reader))
  {
    hide Tagged;
  }

  lemma DiscardAny(x: Pump, reconnect: int)
    requires HandOff(x) && Enabled(x, Discard)
    ensures HandOff(Step(x, Discard, reconnect))
  {
    ReaderHolds(x);
    hide HandOff, Tagged;
    if x.queue != [] { DiscardHandOff(x); } else { SameHandOff(x, Step(x, Discard, reconnect).reader); }
  }

  lemma GuardAny(x: Pump, a: Action, reconnect: int)
    requires HandOff(x) && Enabled(x, a) && a.Guard?
    ensures HandOff(Step(x, a, reconnect))
  {
    hide HandOff, BaseService.Step, Entered, Tagged, Current;
    var y := Step(x, a, reconnect);
    GuardHandOff(x, y.service, y.mark);
  }

  lemma StepHandOff(x: Pump, a: Action, reconnect: int)
    requires HandOff(x) && Enabled(x, a)
    ensures HandOff(Step(x, a, reconnect))
  {
    if a.PutNow? {
      PutNowHandOff(x, reconnect);
    } else if a.Discard? {
      DiscardAny(x, reconnect);
    } else if a.Guard? {
      GuardAny(x, a, reconnect);
    } else {
      OtherHandOff(x, a, reconnect);
    }
  }

  lemma OtherHandOff(x: Pump, a: Action, reconnect: int)
    requires HandOff(x) && Enabled(x, a) && !a.PutNow? && !a.Discard? && !a.Guard?
    ensures HandOff(Step(x, a, reconnect))
  {
    ReaderHolds(x);
    hide HandOff, BaseService.Step, Entered, Tagged, Current;
    match a
    case Connect => BumpHandOff(x, Starting(x.generation + 1));
    case PutMarker => AppendHandOff(x, Marker(x.reader.g), Reading);
    case Read(raw, at) => SameHandOff(x, Sampled(raw, at, x.generation));
    case Bump => BumpHandOff(x, Discarding(x.reader.raw, x.reader.at, x.generation + 1));
    case Disconnect => SameHandOff(x, Resting);
    case End => SameHandOff(x, Ending);
    case Sample => SampleHandOff(x);
    case Get => GetHandOff(x);
    case _ =>
  }

  lemma ReaderHolds(x: Pump)
    requires HandOff(x)
    ensures ReaderInv(x)
  {
    hide Tagged, Contiguous;
  }

  // ---- where the service's contents come from --------------------------------------------

  function Flat(chunks: seq<bytes>): bytes
    decreases |chunks|
  {
    if chunks == [] then [] else Flat(chunks[..|chunks| - 1]) + chunks[|chunks| - 1]
  }

  lemma FlatAppend(chunks: seq<bytes>, c: bytes)
    ensures Flat(chunks + [c]) == Flat(chunks) + c
  {
    assert (chunks + [c])[..|chunks|] == chunks;
  }

  /** Queued frames, and the message whose fragments wait, were ingested since the mark. */
  ghost predicate Since(b: Base, mark: nat) {
    && mark <= |b.ingested|
    && (forall a <- b.queue :: a.number >= mark)
    && (b.fragments != [] ==> b.messages != [] && b.messages[|b.messages| - 1].number >= mark)
  }

  /** The parser holds what is left of the bytes fed, and the frames ingested since the mark are those found in them. */
  ghost predicate Fits(v: Service, fed: seq<bytes>, mark: nat) {
    && v.parser.buffer == Rtcm.ScanAll(Flat(fed)).rest
    && mark <= |v.base.ingested| && v.base.ingested[mark..] == Rtcm.ScanAll(Flat(fed)).frames
  }

  ghost predicate Sourced(v: Service, fed: seq<bytes>, mark: nat) {
    Fits(v, fed, mark) && Since(v.base, mark) && Uplink.Numbered(v.base.ingested, v.base.messages, v.base.queue)
  }

  lemma ResetSourced(v: Service)
    requires Uplink.Numbered(v.base.ingested, v.base.messages, v.base.queue)
    ensures Sourced(ResetService(v), [], |v.base.ingested|)
  {
    hide Rtcm.Look;
    assert v.base.ingested[|v.base.ingested|..] == [];
  }

  lemma {:induction false} IngestSince(b: Base, raws: seq<bytes>, now: int, mark: nat)
    requires Since(b, mark)
    ensures Since(Ingest(b, raws, now), mark)
    decreases |raws|
  {
    if raws != [] { IngestSince(IngestOne(b, raws[0], now), raws[1..], now, mark); }
  }

  lemma ChunkSourced(v: Service, fed: seq<bytes>, mark: nat, raw: bytes, at: int)
    requires Sourced(v, fed, mark)
    ensures Sourced(IngestChunk(v, raw, at), fed + [raw], mark)
  {
    hide Rtcm.ScanAll, Uplink.Numbered, Since;
    var frames := Rtcm.ScanAll(v.parser.buffer + raw).frames;
    FlatAppend(fed, raw);
    Rtcm.ScanConcat(Flat(fed), raw);
    IngestKeeps(v.base, frames, at);
    IngestSince(v.base, frames, at, mark);
    Uplink.IngestNumbered(v.base, frames, at);
    assert (v.base.ingested + frames)[mark..] == v.base.ingested[mark..] + frames;
  }

  /** Anything newly written is of the newest message, which was ingested since the mark. */
  ghost predicate Writes(before: seq<Try>, after: seq<Try>, messages: seq<Message>, mark: nat) {
    before <= after
    && (|before| < |after| ==> messages != [] && messages[|messages| - 1].number >= mark)
    && (forall k :: |before| <= k < |after| ==> after[k].message == |messages| - 1)
  }

  /** A step of the scheduler ingests nothing and writes only pieces of messages since the mark. */
  lemma StepSince(b: Base, i: T.TickIn, now: int, w: T.Write, reconnect: int, mark: nat)
    requires Since(b, mark)
    ensures var c := BaseService.Step(b, i, now, w, reconnect);
      && Since(c, mark) && c.ingested == b.ingested
      && Writes(b.tried, c.tried, c.messages, mark)
  {
    hide Prepare, Refill, T.SendAir, A.Encode, NextIndex, Since;
    var c := Prepare(b, i, now, reconnect);
    PrepareSince(b, i, now, reconnect, mark);
    if c.host.connected {
      RefillSince(c, mark);
      TrySendSince(Refill(c), now, w, reconnect, mark);
    }
  }

  lemma PrepareSince(b: Base, i: T.TickIn, now: int, reconnect: int, mark: nat)
    requires Since(b, mark)
    ensures var c := Prepare(b, i, now, reconnect); Since(c, mark) && c.ingested == b.ingested && c.tried == b.tried
  {
    hide T.Tick, Consume;
    var t := T.Tick(b.host, i.(idle := Idle(b)), reconnect).0;
    ConsumeKeeps(b.(host := T.TakeOutcomes(t)), t.outcomes);
    DropStaleAtMost(b.queue, now);
  }

  lemma RefillSince(b: Base, mark: nat)
    requires Since(b, mark)
    ensures var c := Refill(b); Since(c, mark) && c.ingested == b.ingested && c.tried == b.tried
  {
    hide Rtcm.Valid;
  }

  lemma TrySendSince(b: Base, now: int, w: T.Write, reconnect: int, mark: nat)
    requires Since(b, mark)
    ensures var c := TrySend(b, now, w, reconnect);
      && Since(c, mark) && c.ingested == b.ingested
      && Writes(b.tried, c.tried, c.messages, mark)
  {
    hide T.SendAir, A.Encode, NextIndex;
  }

  /** Frame `raw` was found in the bytes fed. */
  predicate FoundIn(fed: seq<bytes>, raw: bytes) { raw in Rtcm.ScanAll(Flat(fed)).frames }

  lemma Provenance(v: Service, fed: seq<bytes>, mark: nat)
    requires Sourced(v, fed, mark)
    ensures forall a <- v.base.queue :: FoundIn(fed, a.raw)
    ensures forall m <- v.base.messages :: m.number >= mark ==> FoundIn(fed, m.raw)
  {
    hide Rtcm.ScanAll;
    var frames := Rtcm.ScanAll(Flat(fed)).frames;
    forall a <- v.base.queue
      ensures FoundIn(fed, a.raw)
    {
      assert a.raw == v.base.ingested[mark..][a.number - mark];
    }
    forall m <- v.base.messages | m.number >= mark
      ensures FoundIn(fed, m.raw)
    {
      assert m.raw == v.base.ingested[mark..][m.number - mark];
    }
  }

  lemma EnteredSourced(x: Pump)
    requires Sourced(x.service, x.fed, x.mark)
    ensures var v := Entered(x.service, x.active, x.generation, x.taken);
      Sourced(v, (if x.generation != x.active then [] else x.fed) + Current(x.taken, x.generation),
              if x.generation != x.active then |x.service.base.ingested| else x.mark)
  {
    hide Sourced, IngestChunk;
    SourcedNumbered(x.service, x.fed, x.mark);
    ResetSourced(x.service);
    var switched := x.generation != x.active;
    var u := if switched then ResetService(x.service) else x.service;
    var fed: seq<bytes> := if switched then [] else x.fed;
    var mark := if switched then |x.service.base.ingested| else x.mark;
    Seqs.Units(fed);
    if x.taken.Some? && x.taken.value.Chunk? && x.taken.value.generation == x.generation {
      ChunkSourced(u, fed, mark, x.taken.value.raw, x.taken.value.at);
    }
  }

  lemma SourcedNumbered(v: Service, fed: seq<bytes>, mark: nat)
    requires Sourced(v, fed, mark)
    ensures Uplink.Numbered(v.base.ingested, v.base.messages, v.base.queue)
  {}

  lemma GuardSourced(x: Pump, i: T.TickIn, now: int, w: T.Write, reconnect: int)
    requires Sourced(x.service, x.fed, x.mark) && Enabled(x, Guard(i, now, w))
    ensures var y := Step(x, Guard(i, now, w), reconnect); Sourced(y.service, y.fed, y.mark)
  {
    hide BaseService.Step, Entered, Uplink.Numbered, Since;
    EnteredSourced(x);
    var y := Step(x, Guard(i, now, w), reconnect);
    var v := Entered(x.service, x.active, x.generation, x.taken);
    StepSince(v.base, i, now, w, reconnect, y.mark);
    Uplink.StepNumbered(v.base, i, now, w, reconnect);
  }

  // ---- every interleaving ----------------------------------------------------------------

  ghost predicate PumpInv(x: Pump) { HandOff(x) && Sourced(x.service, x.fed, x.mark) }

  function Begin(base: Base): Pump {
    Pump([], 0, Resting, None, false, 0, Service(Rtcm.FRESH, base), [], [], 0)
  }

  lemma BeginPump(session: u32)
    ensures PumpInv(Begin(BaseService.Begin(session)))
  {
    hide Rtcm.Look;
  }

  lemma StepPump(x: Pump, a: Action, reconnect: int)
    requires PumpInv(x) && Enabled(x, a)
    ensures PumpInv(Step(x, a, reconnect))
  {
    hide HandOff, Sourced, Entered, BaseService.Step;
    StepHandOff(x, a, reconnect);
    if a.Guard? { GuardSourced(x, a.i, a.now, a.w, reconnect); }
  }

  ghost predicate IsRun(states: seq<Pump>, actions: seq<Action>, reconnect: int) {
    && |states| == |actions| + 1
    && forall k :: 0 <= k < |actions| ==>
         Enabled(states[k], actions[k]) && states[k + 1] == Step(states[k], actions[k], reconnect)
  }

  lemma {:induction false} RunPump(session: u32, states: seq<Pump>, actions: seq<Action>, reconnect: int, k: nat)
    requires IsRun(states, actions, reconnect) && states[0] == Begin(BaseService.Begin(session)) && k < |states|
    ensures PumpInv(states[k])
  {
    hide PumpInv, Step, Enabled;
    if k == 0 {
      BeginPump(session);
    } else {
      RunPump(session, states, actions, reconnect, k - 1);
      StepPump(states[k - 1], actions[k - 1], reconnect);
    }
  }

  /**
   Generation safety, over every interleaving: the two puts after a discard never
   find the queue full; what is ingested is a contiguous prefix of what was handed
   over in that generation; and parser buffer, queued frames and the waiting
   message come from those bytes alone.
   */
  lemma GenerationSafety(session: u32, states: seq<Pump>, actions: seq<Action>, reconnect: int, k: nat)
    requires IsRun(states, actions, reconnect) && states[0] == Begin(BaseService.Begin(session)) && k < |states|
    ensures var x := states[k];
      && !x.reader.Crashed? && |x.queue| <= CAPACITY
      && x.fed <= Tagged(x.sent, x.active)
      && x.service.parser.buffer == Rtcm.ScanAll(Flat(x.fed)).rest
      && (forall a <- x.service.base.queue :: FoundIn(x.fed, a.raw))
      && (x.service.base.fragments != [] ==>
            && x.service.base.messages != []
            && FoundIn(x.fed, x.service.base.messages[|x.service.base.messages| - 1].raw))
  {
    hide IsRun, Tagged, FoundIn, Uplink.Numbered, Rtcm.ScanAll, Contiguous;
    RunPump(session, states, actions, reconnect, k);
    var x := states[k];
    Provenance(x.service, x.fed, x.mark);
    if x.service.base.fragments != [] {
      assert x.service.base.messages[|x.service.base.messages| - 1] in x.service.base.messages;
    }
  }

  /**
   A fragment is written only in a turn that holds the lock in its own generation:
   it is a piece of a frame found in the bytes of the generation that is current.
   */
  lemma WrittenIsCurrent(
      session: u32, states: seq<Pump>, actions: seq<Action>, reconnect: int, k: nat, t: nat)
    requires IsRun(states, actions, reconnect) && states[0] == Begin(BaseService.Begin(session)) && k < |actions|
    requires |states[k].service.base.tried| <= t < |states[k + 1].service.base.tried|
    ensures var y := states[k + 1];
      var b := y.service.base;
      && y.active == y.generation == states[k].generation
      && b.tried[t].message < |b.messages| && FoundIn(y.fed, b.messages[b.tried[t].message].raw)
      && y.fed <= Tagged(y.sent, y.generation)
  {
    hide Tagged, FoundIn, Uplink.Numbered, Rtcm.ScanAll, Contiguous, BaseService.Step, Entered, HandOff, Since;
    RunPump(session, states, actions, reconnect, k);
    RunPump(session, states, actions, reconnect, k + 1);
    assert actions[k].Guard?;
    FedPrefix(states[k + 1]);
    GuardWrites(states[k], actions[k].i, actions[k].now, actions[k].w, reconnect, t);
  }

  lemma GuardWrites(x: Pump, i: T.TickIn, now: int, w: T.Write, reconnect: int, t: nat)
    requires Sourced(x.service, x.fed, x.mark) && Enabled(x, Guard(i, now, w))
    requires |x.service.base.tried| <= t < |Step(x, Guard(i, now, w), reconnect).service.base.tried|
    ensures var y := Step(x, Guard(i, now, w), reconnect);
      var b := y.service.base;
      b.tried[t].message < |b.messages| && FoundIn(y.fed, b.messages[b.tried[t].message].raw)
  {
    hide FoundIn, Sourced, Uplink.Numbered, Rtcm.ScanAll, BaseService.Step, Entered;
    var y := Step(x, Guard(i, now, w), reconnect);
    GuardSourced(x, i, now, w, reconnect);
    Provenance(y.service, y.fed, y.mark);
    EnteredSourced(x);
    var v := Entered(x.service, x.active, x.generation, x.taken);
    EnteredTried(x.service, x.active, x.generation, x.taken);
    SourcedSince(v, y.fed, y.mark);
    StepSince(v.base, i, now, w, reconnect, y.mark);
    var messages := y.service.base.messages;
    assert messages[|messages| - 1] in messages;
  }

  lemma SourcedSince(v: Service, fed: seq<bytes>, mark: nat)
    requires Sourced(v, fed, mark)
    ensures Since(v.base, mark)
  {}

  lemma FedPrefix(x: Pump)
    requires HandOff(x)
    ensures x.fed <= Tagged(x.sent, x.active)
  {
    hide Tagged;
  }

  lemma EnteredTried(v: Service, active: nat, generation: nat, item: Option<Item>)
    ensures Entered(v, active, generation, item).base.tried == v.base.tried
  {
    hide Rtcm.ScanAll;
    var u := if generation != active then ResetService(v) else v;
    if item.Some? && item.value.Chunk? {
      IngestKeeps(u.base, Rtcm.ScanAll(u.parser.buffer + item.value.raw).frames, item.value.at);
    }
  }

  // ---- everything that was read is handed over --------------------------------------------------

  /** The octets of the chunks. */
  function Contents(items: seq<Item>): seq<bytes>
    decreases |items|
  {
    if items == [] then []
    else Contents(items[..|items| - 1])
         + (if items[|items| - 1].Chunk? then [items[|items| - 1].raw] else [])
  }

  /** What the reader has read and not yet handed over. */
  function InHand(r: Reader): seq<bytes> {
    match r
    case Sampled(raw, _, _) => [raw]
    case Overflowed(raw, _) => [raw]
    case Discarding(raw, _, _) => [raw]
    case MarkerNext(raw, _, _) => [raw]
    case ItemNext(raw, _, _) => [raw]
    case _ => []
  }

  function Reads(actions: seq<Action>): seq<bytes>
    decreases |actions|
  {
    if actions == [] then []
    else Reads(actions[..|actions| - 1])
         + (if actions[|actions| - 1].Read? then [actions[|actions| - 1].raw] else [])
  }

  /** Putting without waiting: where there is room the chunk joins the queue, and else a new generation must begin. */
  lemma PutsExactly(x: Pump, reconnect: int)
    requires x.reader.Sampled?
    ensures var y := Step(x, PutNow, reconnect);
      && y.generation == x.generation
      && (if |x.queue| < 64
          then y.queue == x.queue + [Chunk(x.reader.raw, x.reader.at, x.reader.g)] && y.reader == Reading
          else y.queue == x.queue && y.reader == Overflowed(x.reader.raw, x.reader.at))
  {}

  lemma ContentsMore(items: seq<Item>, i: Item)
    ensures Contents(items + [i]) == Contents(items) + if i.Chunk? then [i.raw] else []
  {
    assert (items + [i])[..|items|] == items;
  }

  lemma StepHands(x: Pump, a: Action, reconnect: int)
    requires PumpInv(x) && Enabled(x, a)
    ensures var y := Step(x, a, reconnect);
      Contents(y.sent) + InHand(y.reader)
      == (Contents(x.sent) + InHand(x.reader)) + if a.Read? then [a.raw] else []
  {
    hide Contents, HandOff, Sourced, PumpInv, Entered, BaseService.Step, Current;
    StepPump(x, a, reconnect);
    NoCrash(Step(x, a, reconnect));
    if a.PutNow? {
      PutHands(x, reconnect);
    } else if a.PutMarker? {
      ContentsMore(x.sent, Marker(x.reader.g));
    }
    Seqs.Units(Contents(x.sent));
    Seqs.Units(Contents(x.sent) + InHand(x.reader));
  }

  lemma PutHands(x: Pump, reconnect: int)
    requires Enabled(x, PutNow) && !Step(x, PutNow, reconnect).reader.Crashed?
    ensures var y := Step(x, PutNow, reconnect);
      Contents(y.sent) + InHand(y.reader) == Contents(x.sent) + InHand(x.reader)
  {
    hide Contents;
    match x.reader
    case Sampled(raw, at, g) => ContentsMore(x.sent, Chunk(raw, at, g));
    case ItemNext(raw, at, g) => ContentsMore(x.sent, Chunk(raw, at, g));
    case _ =>
  }

  lemma NoCrash(x: Pump)
    requires PumpInv(x)
    ensures !x.reader.Crashed?
  {
    hide Contiguous, Sourced;
  }

  /**
   Over every interleaving, whatever overflows and restarts there are: every chunk that
   was read is handed over, once and in order, but for the one still in the reader's hand.
   */
  lemma {:induction false} AllHandedOver(session: u32, states: seq<Pump>, actions: seq<Action>, reconnect: int, k: nat)
    requires IsRun(states, actions, reconnect) && states[0] == Begin(BaseService.Begin(session)) && k < |states|
    ensures Contents(states[k].sent) + InHand(states[k].reader) == Reads(actions[..k])
  {
    hide PumpInv, Step, Enabled, Contents, InHand;
    if k == 0 {
      NoneSent(session);
    } else {
      AllHandedOver(session, states, actions, reconnect, k - 1);
      RunPump(session, states, actions, reconnect, k - 1);
      StepHands(states[k - 1], actions[k - 1], reconnect);
      assert actions[..k][..k - 1] == actions[..k - 1] && actions[..k][k - 1] == actions[k - 1];
    }
  }

  lemma NoneSent(session: u32)
    ensures var x := Begin(BaseService.Begin(session)); Contents(x.sent) + InHand(x.reader) == []
  {}

  // ---- the consumer's loop body, on the objects ------------------------------------------------

  class BaseLoop {
    const parser: Rtcm.RtcmStreamParser
    const station: BaseStation
    var activeGeneration: nat

    constructor (parser: Rtcm.RtcmStreamParser, station: BaseStation, generation: nat)
      ensures this.parser == parser && this.station == station && activeGeneration == generation
    {
      this.parser, this.station, activeGeneration := parser, station, generation;
    }

    ghost function State(): Service
      reads this, parser, station, station.transport
    {
      Service(parser.State(), station.State())
    }

    /** What the loop does with one item (or none) while it holds the generation lock. */
    method Turn(item: Option<Item>, generation: nat, i: T.TickIn, now: int, w: T.Write)
      modifies this, parser, station, station.transport
      ensures activeGeneration == generation
      ensures var v := Entered(old(State()), old(activeGeneration), generation, item);
        State() == v.(base := BaseService.Step(v.base, i, now, w, station.transport.reconnect))
    {
      hide BaseService.Step, Rtcm.ScanAll, Ingest;
      if generation != activeGeneration {
        activeGeneration := generation;
        parser.ResetStream();
        station.Reset();
      }
      if item.Some? && item.value.Chunk? && item.value.generation == generation {
        var frames := parser.Feed(item.value.raw);
        station.IngestFrames(frames, item.value.at);
      }
      station.StepOnce(i, now, w);
    }
  }
}
