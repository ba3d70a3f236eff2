/** The host's side of the USB link: handshake, one request at a time, three-valued send outcomes. */
module Transport {
  import opened Bytes
  import opened Wrappers
  import opened Envelope
  import opened UsbProtocol
  import opened OrderedDict
  import Seqs

  const MAX_LATE: nat := 32
  const LATE_TTL_MS: int := 30_000
  const RESPONSE_MS: int := 3_000
  const QUIET_MS: int := 1_000
  const E_WRONG_SESSION: u16 := 4

  /** `True`, `False` and `None` in the source. */
  datatype Outcome = Completed | Failed | Uncertain

  datatype Request = Request(typ: byte, started: int)

  /**
   Times are milliseconds on the host's clock; `connected` says whether the
   serial object exists; `wire` is every frame handed to it so far, whole or in part.
   */
  datatype Host = Host(
    connected: bool, session: u32, sequence: u32, bootId: Option<u32>, handshake: bool, radioReady: bool,
    pending: Dict<u32, Request>, received: seq<bytes>, outcomes: seq<(u32, Outcome)>,
    tombs: Dict<u32, int>, nextAttempt: int, lastDiagnostics: int, lastRx: int, wire: seq<Frame>)

  /** One write, with the random value a fresh session would draw: does the write succeed, and when. */
  datatype Write = Write(draw: u32, ok: bool, now: int)

  datatype Opening = Opening(found: bool, delimiter: bool, w: Write)

  datatype Sent = Accepted(sequence: u32) | NotSent | TooLarge | MustRotate

  // ---- losing and starting a session -----------------------------------------

  /** Every outstanding send, in order, with one outcome. */
  function Settle(pending: Dict<u32, Request>, order: seq<u32>, o: Outcome): seq<(u32, Outcome)> {
    if order == [] then []
    else (if order[0] in pending.vals && pending.vals[order[0]].typ == RADIO_SEND then [(order[0], o)] else [])
         + Settle(pending, order[1..], o)
  }

  function Disconnect(h: Host, now: int, reconnect: int): Host {
    h.(outcomes := h.outcomes + Settle(h.pending, h.pending.order, Uncertain),
       connected := false, pending := Dict([], map[]), received := [], tombs := Dict([], map[]),
       handshake := false, radioReady := false, nextAttempt := now + reconnect)
  }

  function BeginFresh(h: Host, draw: u32): Host {
    h.(session := if draw != h.session then draw else if h.session == U32_MAX then 1 else Inc32(h.session),
       sequence := 0, tombs := Dict([], map[]), handshake := false, radioReady := false, lastRx := 0)
  }

  /** A request whose write fails was not accepted, and takes the connection down with it. */
  function Issue(h: Host, typ: byte, payload: bytes, w: Write, reconnect: int): (Host, Sent) {
    if h.sequence == U32_MAX then (h, MustRotate)
    else
      var s := h.sequence + 1;
      var t := h.(sequence := s);
      if |payload| > MAX_USB_PAYLOAD then (t, TooLarge)
      else if !h.connected then (t, NotSent)
      else
        var u := t.(wire := t.wire + [Sealed(typ, h.session, s, payload)]);
        if !w.ok then (Disconnect(u, w.now, reconnect), NotSent)
        else (u.(pending := u.pending.Set(s, Request(typ, w.now))), Accepted(s))
  }

  /** Outstanding sends have failed, and a new session begins. */
  function Abandoned(h: Host, draw: u32): Host {
    var outcomes := h.outcomes + Settle(h.pending, h.pending.order, Failed);
    BeginFresh(h.(outcomes := outcomes, pending := Dict([], map[]), received := []), draw)
  }

  function Restart(h: Host, w: Write, reconnect: int): Host {
    Issue(Abandoned(h, w.draw), HELLO, [], w, reconnect).0
  }

  function OpenPort(h: Host, now: int, o: Opening, reconnect: int): Host {
    if h.connected || now < h.nextAttempt then h
    else if !o.found then Disconnect(h, now, reconnect)
    else
      var t := BeginFresh(h.(connected := true, pending := Dict([], map[])), o.w.draw);
      if !o.delimiter then Disconnect(t, o.w.now, reconnect)
      else Issue(t, HELLO, [], o.w, reconnect).0
  }

  predicate Ready(h: Host) { h.connected && h.handshake && h.radioReady && h.pending.order == [] }

  function SendAir(h: Host, payload: bytes, w: Write, reconnect: int): (Host, Sent) {
    if !Ready(h) then (h, NotSent)
    else if h.sequence == U32_MAX then (Restart(h, w, reconnect), NotSent)
    else Issue(h, RADIO_SEND, payload, w, reconnect)
  }

  // ---- what comes back -----------------------------------------------------------

  predicate Awaits(h: Host, s: u32, typ: byte) { s in h.pending.vals && h.pending.vals[s].typ == typ }

  function OnInfo(h: Host, f: Frame, w: Write, reconnect: int): Host {
    if !Awaits(h, f.second, HELLO) then h
    else if |f.payload| != 22 then Restart(h, w, reconnect)
    else h.(bootId := Some(Get32(f.payload, 6)), handshake := true, radioReady := f.payload[16] != 0,
            pending := h.pending.Del(f.second))
  }

  function OnTxResult(h: Host, f: Frame): Host {
    if f.second !in h.pending.vals && f.second in h.tombs.vals then h.(tombs := h.tombs.Del(f.second))
    else if !Awaits(h, f.second, RADIO_SEND) then h
    else h.(pending := h.pending.Del(f.second),
            outcomes := h.outcomes + [(f.second, if |f.payload| == 12 then Completed else Failed)])
  }

  function OnRadioRx(h: Host, f: Frame, now: int): Host {
    var t := h.(lastRx := now);
    match ParseRadioRx(f.payload)
    case Ok(p) => t.(received := t.received + [p])
    case Err(_) => t
  }

  function OnError(h: Host, f: Frame, w: Write, reconnect: int): Host {
    if f.second !in h.pending.vals then
      if f.second in h.tombs.vals && |f.payload| == 5 then h.(tombs := h.tombs.Del(f.second)) else h
    else if |f.payload| != 5 || f.payload[4] != h.pending.vals[f.second].typ then h
    else
      var typ := h.pending.vals[f.second].typ;
      var t := h.(pending := h.pending.Del(f.second),
                  outcomes := h.outcomes + if typ == RADIO_SEND then [(f.second, Failed)] else []);
      if typ == HELLO || (Get16(f.payload, 0) == E_WRONG_SESSION && typ in {GET_DIAGNOSTICS, RADIO_SEND})
      then Restart(t, w, reconnect) else t
  }

  /** One decoded frame. */
  function OnFrame(h: Host, f: Frame, w: Write, reconnect: int): Host {
    if f.first != h.session then h
    else if f.typ == INFO then OnInfo(h, f, w, reconnect)
    else if f.typ == RADIO_TX_RESULT then OnTxResult(h, f)
    else if f.typ == RADIO_RX then OnRadioRx(h, f, w.now)
    else if f.typ == DIAGNOSTICS then
      if Awaits(h, f.second, GET_DIAGNOSTICS) then h.(pending := h.pending.Del(f.second)) else h
    else if f.typ == ERROR then OnError(h, f, w, reconnect)
    else h
  }

  // ---- the clock -------------------------------------------------------------------

  function ExpireTombs(d: Dict<u32, int>, now: int): Dict<u32, int>
    decreases |d.order|
  {
    if d.order == [] || d.order[0] !in d.vals || now - d.vals[d.order[0]] <= LATE_TTL_MS then d
    else ExpireTombs(Dict(d.order[1..], d.vals - {d.order[0]}), now)
  }

  function TrimTombs(d: Dict<u32, int>): Dict<u32, int>
    decreases |d.order|
  {
    if |d.order| > MAX_LATE then TrimTombs(Dict(d.order[1..], d.vals - {d.order[0]})) else d
  }

  /** The scan over the requests outstanding at the start; a lost handshake restarts and ends it. */
  function Timeouts(h: Host, order: seq<u32>, now: int, w: Write, reconnect: int): Host
    decreases |order|
  {
    if order == [] then h
    else
      var s := order[0];
      if s !in h.pending.vals || now - h.pending.vals[s].started <= RESPONSE_MS
      then Timeouts(h, order[1..], now, w, reconnect)
      else
        var typ := h.pending.vals[s].typ;
        var t := h.(pending := h.pending.Del(s));
        if typ == RADIO_SEND then
          Timeouts(t.(tombs := TrimTombs(t.tombs.Set(s, now)), outcomes := t.outcomes + [(s, Uncertain)]),
                   order[1..], now, w, reconnect)
        else if typ == HELLO then Restart(t, w, reconnect)
        else Timeouts(t, order[1..], now, w, reconnect)
  }

  function Expire(h: Host, now: int, w: Write, reconnect: int): Host {
    Timeouts(h.(tombs := ExpireTombs(h.tombs, now)), h.pending.order, now, w, reconnect)
  }

  function Poll(h: Host, idle: bool, now: int, w: Write, reconnect: int): Host {
    if h.handshake && h.pending.order == [] && idle
       && now - h.lastRx >= QUIET_MS && now - h.lastDiagnostics >= QUIET_MS then
      if h.sequence == U32_MAX then Restart(h, w, reconnect)
      else Issue(h.(lastDiagnostics := now), GET_DIAGNOSTICS, [], w, reconnect).0
    else h
  }

  // ---- one call as a whole ------------------------------------------------------------

  /** Everything one `tick` reads: the open attempt, the read, and the writes each part may make. */
  datatype TickIn = TickIn(
    at: int, opening: Opening, readable: bool, frames: seq<(Frame, Write)>,
    now: int, timeout: Write, poll: Write, idle: bool)

  function OnFrames(h: Host, frames: seq<(Frame, Write)>, reconnect: int): Host
    decreases |frames|
  {
    if frames == [] then h
    else OnFrames(OnFrame(h, frames[0].0, frames[0].1, reconnect), frames[1..], reconnect)
  }

  function Tick(h: Host, i: TickIn, reconnect: int): (Host, seq<bytes>) {
    var a := OpenPort(h, i.at, i.opening, reconnect);
    if !a.connected then (a, [])
    else if !i.readable then (Disconnect(a, i.at, reconnect), [])
    else
      var b := OnFrames(a, i.frames, reconnect);
      var c := Expire(b, i.now, i.timeout, reconnect);
      var d := Poll(c, i.idle, i.now, i.poll, reconnect);
      (d.(received := []), d.received)
  }

  function TakeOutcomes(h: Host): Host { h.(outcomes := []) }

  function Start(session: u32): Host {
    Host(false, session, 0, None, false, false, Dict([], map[]), [], [], Dict([], map[]), 0, 0, 0, [])
  }

  // ---- the invariant -------------------------------------------------------------------

  /** The only request that can be outstanding is the last one issued. */
  ghost predicate OnePending(h: Host) {
    h.pending == Dict([], map[])
    || (h.pending.order == [h.sequence] && h.pending.vals.Keys == {h.sequence})
  }

  ghost predicate Inv(h: Host) {
    && OnePending(h)
    && (h.pending.order != [] ==> h.connected && h.sequence > 0)
    && (h.handshake ==> h.connected)
    && (h.connected ==> h.sequence > 0)
    && (h.radioReady ==> h.handshake)
    && (h.connected && !h.handshake ==> Awaits(h, h.sequence, HELLO))
    && (h.handshake && h.pending.order != [] ==>
          Awaits(h, h.sequence, RADIO_SEND) || Awaits(h, h.sequence, GET_DIAGNOSTICS))
    && h.tombs.Valid() && |h.tombs.order| <= MAX_LATE
    && (forall s <- h.tombs.order :: 0 < s <= h.sequence && s !in h.pending.vals)
    && (!h.connected ==> h.tombs.order == [])
    && h.session != 0
  }

  /** The outstanding send, if there is one. */
  function PendingSend(h: Host): seq<u32> { if Awaits(h, h.sequence, RADIO_SEND) then [h.sequence] else [] }

  function Sequences(o: seq<(u32, Outcome)>): seq<u32> {
    if o == [] then [] else [o[0].0] + Sequences(o[1..])
  }

  /** `t` settles what `h` had outstanding, at most once, and makes nothing else outstanding. */
  ghost predicate Settles(h: Host, t: Host) {
    && |h.outcomes| <= |t.outcomes| && t.outcomes[..|h.outcomes|] == h.outcomes
    && Sequences(t.outcomes[|h.outcomes|..]) + PendingSend(t) == PendingSend(h)
    && (PendingSend(t) != [] ==> t.session == h.session && t.sequence == h.sequence && t.connected && h.connected)
  }

  lemma SettleOne(h: Host, o: Outcome)
    requires OnePending(h)
    ensures Settle(h.pending, h.pending.order, o)
            == if Awaits(h, h.sequence, RADIO_SEND) then [(h.sequence, o)] else []
  {}

  lemma SequencesFew(s: u32, o: Outcome)
    ensures Sequences([]) == [] && Sequences([(s, o)]) == [s]
  {}

  /** Ending with nothing outstanding, having appended exactly what was. */
  lemma SettlesAll(h: Host, t: Host, o: Outcome)
    requires PendingSend(t) == []
    requires t.outcomes == h.outcomes + if Awaits(h, h.sequence, RADIO_SEND) then [(h.sequence, o)] else []
    ensures Settles(h, t)
  {
    SequencesFew(h.sequence, o);
    var d := if Awaits(h, h.sequence, RADIO_SEND) then [(h.sequence, o)] else [];
    assert t.outcomes[|h.outcomes|..] == d && t.outcomes[..|h.outcomes|] == h.outcomes;
  }

  /** The same request outstanding, nothing settled. */
  lemma SettlesNone(h: Host, t: Host)
    requires t.outcomes == h.outcomes && PendingSend(t) == PendingSend(h)
    requires PendingSend(t) != [] ==> t.session == h.session && t.sequence == h.sequence && t.connected && h.connected
    ensures Settles(h, t)
  {
    assert t.outcomes[|h.outcomes|..] == [];
    SequencesFew(0, Failed);
  }

  lemma SettlesSelf(h: Host)
    requires Inv(h)
    ensures Settles(h, h)
  {
    SettlesNone(h, h);
  }

  lemma DisconnectProps(h: Host, now: int, reconnect: int)
    requires OnePending(h) && h.session != 0
    ensures var t := Disconnect(h, now, reconnect); Inv(t) && !t.connected && Settles(h, t)
  {
    SettleOne(h, Uncertain);
    SettlesAll(h, Disconnect(h, now, reconnect), Uncertain);
  }

  lemma SetEmpty(s: u32, r: Request)
    ensures Dict([], map[]).Set(s, r) == Dict([s], map[s := r])
  {
    assert map[][s := r] == map[s := r];
  }

  /** Issuing with an empty window: either it is the one outstanding request, or the link is down. */
  lemma IssueProps(h: Host, typ: byte, payload: bytes, w: Write, reconnect: int)
    requires h.pending == Dict([], map[]) && h.session != 0 && h.connected
    requires h.tombs.Valid() && |h.tombs.order| <= MAX_LATE && forall s <- h.tombs.order :: 0 < s <= h.sequence
    requires h.radioReady ==> h.handshake
    requires h.sequence < U32_MAX && |payload| <= MAX_USB_PAYLOAD
    requires if h.handshake then typ in {RADIO_SEND, GET_DIAGNOSTICS} else typ == HELLO
    ensures var (t, r) := Issue(h, typ, payload, w, reconnect);
      && Inv(t) && t.outcomes == h.outcomes && t.session == h.session && t.sequence == h.sequence + 1
      && (if w.ok then r == Accepted(t.sequence) && Awaits(t, t.sequence, typ) && t.connected
          else r == NotSent && !t.connected && t.pending.order == [])
  {
    SetEmpty(h.sequence + 1, Request(typ, w.now));
    var t := h.(sequence := h.sequence + 1, wire := h.wire + [Sealed(typ, h.session, h.sequence + 1, payload)]);
    if !w.ok {
      SettleOne(t, Uncertain);
      DisconnectProps(t, w.now, reconnect);
      assert t.outcomes + [] == t.outcomes;
    }
  }

  /** Restarting fails the outstanding send, leaves its session, and awaits a new HELLO or is disconnected. */
  lemma RestartProps(h: Host, w: Write, reconnect: int)
    requires OnePending(h) && h.session != 0 && w.draw != 0 && h.connected
    ensures var t := Restart(h, w, reconnect);
      && Inv(t) && Settles(h, t) && PendingSend(t) == [] && t.session != h.session
      && t.session == BeginFresh(h, w.draw).session
      && (t.connected ==> Awaits(t, 1, HELLO) && t.sequence == 1)
  {
    SettleOne(h, Failed);
    var mid := Abandoned(h, w.draw);
    IssueProps(mid, HELLO, [], w, reconnect);
    SettlesAll(h, Restart(h, w, reconnect), Failed);
  }

  lemma {:induction false} OpenProps(h: Host, now: int, o: Opening, reconnect: int)
    requires Inv(h) && o.w.draw != 0
    ensures var t := OpenPort(h, now, o, reconnect); Inv(t) && Settles(h, t)
  {
    var t := OpenPort(h, now, o, reconnect);
    if h.connected || now < h.nextAttempt {
      SettlesNone(h, t);
    } else if !o.found {
      DisconnectProps(h, now, reconnect);
    } else {
      var mid := BeginFresh(h.(connected := true, pending := Dict([], map[])), o.w.draw);
      if !o.delimiter {
        DisconnectProps(mid, o.w.now, reconnect);
        assert mid.outcomes + [] == mid.outcomes;
      } else {
        IssueProps(mid, HELLO, [], o.w, reconnect);
      }
      SettlesNone(h, t);
    }
  }

  /**
   What `send_air` promises: an accepted sequence is the outstanding send;
   otherwise nothing is outstanding that was not.
   */
  lemma {:induction false} SendAirProps(h: Host, payload: bytes, w: Write, reconnect: int)
    requires Inv(h) && w.draw != 0 && |payload| <= MAX_USB_PAYLOAD
    ensures var (t, r) := SendAir(h, payload, w, reconnect);
      && Inv(t) && t.outcomes == h.outcomes
      && (r.Accepted? ==>
            && Ready(h) && r.sequence == h.sequence + 1 && t.session == h.session
            && PendingSend(h) == [] && PendingSend(t) == [r.sequence])
      && (!r.Accepted? ==> r == NotSent && PendingSend(t) == PendingSend(h) && Settles(h, t))
  {
    var (t, r) := SendAir(h, payload, w, reconnect);
    if !Ready(h) {
      SettlesNone(h, h);
    } else if h.sequence == U32_MAX {
      RestartProps(h, w, reconnect);
      SettleOne(h, Failed);
    } else {
      IssueProps(h, RADIO_SEND, payload, w, reconnect);
      if !w.ok { SettlesNone(h, t); }
    }
  }

  lemma DelOnly(h: Host, s: u32)
    requires OnePending(h) && s in h.pending.vals
    ensures s == h.sequence && h.pending.Del(s) == Dict([], map[])
  {
    assert h.pending.vals - {s} == map[];
    assert [s][1..] == [] && Without([s], s) == [];
  }

  /** Dropping a tombstone keeps the rest. */
  lemma TombGone(h: Host, s: u32)
    requires Inv(h) && s in h.tombs.vals
    ensures var t := h.(tombs := h.tombs.Del(s)); Inv(t) && Settles(h, t) && t.outcomes == h.outcomes
  {
    h.tombs.DelValid(s);
    WithoutSubset(h.tombs.order, s);
    SettlesNone(h, h.(tombs := h.tombs.Del(s)));
  }

  lemma OnInfoProps(h: Host, f: Frame, w: Write, reconnect: int)
    requires Inv(h) && w.draw != 0 && f.first == h.session
    ensures var t := OnInfo(h, f, w, reconnect);
      Inv(t) && Settles(h, t) && t.outcomes == h.outcomes
  {
    var t := OnInfo(h, f, w, reconnect);
    if Awaits(h, f.second, HELLO) {
      DelOnly(h, f.second);
      if |f.payload| != 22 {
        RestartProps(h, w, reconnect);
        RestartOutcomes(h, w, reconnect);
      } else {
        SettlesNone(h, t);
      }
    } else {
      SettlesNone(h, t);
    }
  }

  lemma OnTxResultProps(h: Host, f: Frame)
    requires Inv(h) && f.first == h.session
    ensures var t := OnTxResult(h, f);
      Inv(t) && Settles(h, t) && (t.outcomes != h.outcomes ==> PendingSend(h) == [f.second])
  {
    var t := OnTxResult(h, f);
    if f.second !in h.pending.vals && f.second in h.tombs.vals {
      TombGone(h, f.second);
    } else if Awaits(h, f.second, RADIO_SEND) {
      DelOnly(h, f.second);
      SettlesAll(h, t, if |f.payload| == 12 then Completed else Failed);
    } else {
      SettlesNone(h, t);
    }
  }

  /**
   Any frame at all keeps the invariant, settles at most the outstanding send,
   and only by its own sequence number.
   */
  lemma OnFrameProps(h: Host, f: Frame, w: Write, reconnect: int)
    requires Inv(h) && w.draw != 0
    ensures var t := OnFrame(h, f, w, reconnect);
      && Inv(t) && Settles(h, t)
      && (t.outcomes != h.outcomes ==> PendingSend(h) == [f.second] && f.first == h.session)
  {
    hide OnInfo, OnTxResult, OnError, OnRadioRx, Inv, Settles;
    var t := OnFrame(h, f, w, reconnect);
    if f.first == h.session && f.typ == INFO {
      OnInfoProps(h, f, w, reconnect);
    } else if f.first == h.session && f.typ == RADIO_TX_RESULT {
      OnTxResultProps(h, f);
    } else if f.first == h.session && f.typ == ERROR {
      OnErrorProps(h, f, w, reconnect);
    } else if f.first == h.session && f.typ == RADIO_RX {
      OnRadioRxProps(h, f, w.now);
    } else if f.first == h.session && f.typ == DIAGNOSTICS && Awaits(h, f.second, GET_DIAGNOSTICS) {
      OnDiagnosticsProps(h, f.second);
    } else {
      SettlesSelf(h);
    }
  }

  lemma OnRadioRxProps(h: Host, f: Frame, now: int)
    requires Inv(h)
    ensures var t := OnRadioRx(h, f, now); Inv(t) && Settles(h, t) && t.outcomes == h.outcomes
  {
    SettlesNone(h, OnRadioRx(h, f, now));
  }

  lemma OnDiagnosticsProps(h: Host, s: u32)
    requires Inv(h) && Awaits(h, s, GET_DIAGNOSTICS)
    ensures var t := h.(pending := h.pending.Del(s)); Inv(t) && Settles(h, t) && t.outcomes == h.outcomes
  {
    DelOnly(h, s);
    SettlesNone(h, h.(pending := h.pending.Del(s)));
  }

  lemma OnErrorProps(h: Host, f: Frame, w: Write, reconnect: int)
    requires Inv(h) && w.draw != 0 && f.first == h.session
    ensures var t := OnError(h, f, w, reconnect);
      && Inv(t) && Settles(h, t)
      && (t.outcomes != h.outcomes ==> PendingSend(h) == [f.second])
  {
    var t := OnError(h, f, w, reconnect);
    if f.second !in h.pending.vals {
      if f.second in h.tombs.vals { TombGone(h, f.second); }
      SettlesNone(h, t);
    } else if |f.payload| != 5 || f.payload[4] != h.pending.vals[f.second].typ {
      SettlesNone(h, t);
    } else {
      DelOnly(h, f.second);
      var typ := h.pending.vals[f.second].typ;
      var d := if typ == RADIO_SEND then [(f.second, Failed)] else [];
      var mid := h.(pending := h.pending.Del(f.second), outcomes := h.outcomes + d);
      if t != mid {
        RestartProps(mid, w, reconnect);
        SettleOne(mid, Failed);
        RestartOutcomes(mid, w, reconnect);
      }
      SettlesAll(h, t, Failed);
    }
  }

  lemma RestartOutcomes(h: Host, w: Write, reconnect: int)
    requires OnePending(h) && PendingSend(h) == [] && h.session != 0 && w.draw != 0 && h.connected
    ensures Restart(h, w, reconnect).outcomes == h.outcomes
  {
    SettleOne(h, Failed);
    var mid := Abandoned(h, w.draw);
    assert h.outcomes + [] == h.outcomes;
    IssueProps(mid, HELLO, [], w, reconnect);
  }

  lemma {:induction false} ExpireTombsProps(d: Dict<u32, int>, now: int)
    requires d.Valid()
    ensures var r := ExpireTombs(d, now);
      && r.Valid() && |r.order| <= |d.order| && (forall s <- r.order :: s in d.order)
      && (r.order != [] ==> now - r.vals[r.order[0]] <= LATE_TTL_MS)
    decreases |d.order|
  {
    if d.order != [] && now - d.vals[d.order[0]] > LATE_TTL_MS {
      d.DelValid(d.order[0]);
      d.DelFirst();
      ExpireTombsProps(d.Del(d.order[0]), now);
    }
  }

  lemma RememberProps(d: Dict<u32, int>, s: u32, now: int)
    requires d.Valid() && |d.order| <= MAX_LATE
    ensures var r := TrimTombs(d.Set(s, now));
      r.Valid() && |r.order| <= MAX_LATE && forall x <- r.order :: x in d.order || x == s
  {
    d.SetValid(s, now);
    var e := d.Set(s, now);
    if |e.order| > MAX_LATE {
      e.DelValid(e.order[0]);
      e.DelFirst();
      assert TrimTombs(e) == e.Del(e.order[0]);
    }
  }

  /** The scan over a single outstanding request. */
  lemma TimeoutsOne(h: Host, s: u32, now: int, w: Write, reconnect: int)
    requires s in h.pending.vals
    ensures Timeouts(h, [s], now, w, reconnect) ==
      if now - h.pending.vals[s].started <= RESPONSE_MS then h
      else
        var t := h.(pending := h.pending.Del(s));
        if h.pending.vals[s].typ == RADIO_SEND then
          t.(tombs := TrimTombs(t.tombs.Set(s, now)), outcomes := t.outcomes + [(s, Uncertain)])
        else if h.pending.vals[s].typ == HELLO then Restart(t, w, reconnect)
        else t
  {
    var rest := [s][1..];
    assert |rest| == 0;
    assert forall x :: Timeouts(x, rest, now, w, reconnect) == x;
  }

  lemma TimeoutProps(h: Host, now: int, w: Write, reconnect: int)
    requires Inv(h) && w.draw != 0
    ensures var t := Timeouts(h, h.pending.order, now, w, reconnect); Inv(t) && Settles(h, t)
  {
    var t := Timeouts(h, h.pending.order, now, w, reconnect);
    if h.pending.order == [] {
      SettlesNone(h, t);
    } else {
      var s := h.sequence;
      TimeoutsOne(h, s, now, w, reconnect);
      DelOnly(h, s);
      hide Timeouts;
      if now - h.pending.vals[s].started <= RESPONSE_MS {
        SettlesNone(h, t);
      } else if Awaits(h, s, RADIO_SEND) {
        RememberProps(h.tombs, s, now);
        SettlesAll(h, t, Uncertain);
      } else if Awaits(h, s, HELLO) {
        var mid := h.(pending := h.pending.Del(s));
        RestartProps(mid, w, reconnect);
        RestartOutcomes(mid, w, reconnect);
        SettlesNone(h, t);
      } else {
        SettlesNone(h, t);
      }
    }
  }

  lemma ExpireProps(h: Host, now: int, w: Write, reconnect: int)
    requires Inv(h) && w.draw != 0
    ensures var t := Expire(h, now, w, reconnect); Inv(t) && Settles(h, t)
  {
    ExpireTombsProps(h.tombs, now);
    TimeoutProps(h.(tombs := ExpireTombs(h.tombs, now)), now, w, reconnect);
  }

  /** The diagnostics poll never meets an exhausted sequence and never adds or settles a send. */
  lemma PollProps(h: Host, idle: bool, now: int, w: Write, reconnect: int)
    requires Inv(h) && w.draw != 0
    ensures var t := Poll(h, idle, now, w, reconnect); Inv(t) && Settles(h, t) && t.outcomes == h.outcomes
  {
    var t := Poll(h, idle, now, w, reconnect);
    if t == h {
      SettlesNone(h, t);
    } else if h.sequence == U32_MAX {
      RestartProps(h, w, reconnect);
      RestartOutcomes(h, w, reconnect);
    } else {
      IssueProps(h.(lastDiagnostics := now), GET_DIAGNOSTICS, [], w, reconnect);
      SettlesNone(h, t);
    }
  }

  lemma SettlesTwice(a: Host, b: Host, c: Host)
    requires Settles(a, b) && Settles(b, c)
    ensures Settles(a, c)
  {
    var d, e := b.outcomes[|a.outcomes|..], c.outcomes[|b.outcomes|..];
    assert c.outcomes[|a.outcomes|..] == d + e;
    SequencesConcat(d, e);
    assert c.outcomes[..|a.outcomes|] == c.outcomes[..|b.outcomes|][..|a.outcomes|];
    assert (Sequences(d) + Sequences(e)) + PendingSend(c) == Sequences(d) + (Sequences(e) + PendingSend(c));
  }

  lemma SequencesConcat(a: seq<(u32, Outcome)>, b: seq<(u32, Outcome)>)
    ensures Sequences(a + b) == Sequences(a) + Sequences(b)
  {
    if a == [] {
      assert a + b == b;
    } else {
      assert (a + b)[1..] == a[1..] + b;
    }
  }

  lemma {:induction false} OnFramesProps(h: Host, frames: seq<(Frame, Write)>, reconnect: int)
    requires Inv(h) && forall x <- frames :: x.1.draw != 0
    ensures var t := OnFrames(h, frames, reconnect); Inv(t) && Settles(h, t)
    decreases |frames|
  {
    hide Inv, Settles, OnFrame;
    if frames == [] {
      SettlesSelf(h);
    } else {
      var t := OnFrame(h, frames[0].0, frames[0].1, reconnect);
      OnFrameProps(h, frames[0].0, frames[0].1, reconnect);
      OnFramesProps(t, frames[1..], reconnect);
      SettlesTwice(h, t, OnFrames(t, frames[1..], reconnect));
    }
  }

  /** Every random draw is a legal session value. */
  predicate Drawn(i: TickIn) {
    i.opening.w.draw != 0 && i.timeout.draw != 0 && i.poll.draw != 0 && forall x <- i.frames :: x.1.draw != 0
  }

  /** One `tick`, whatever it reads: the invariant holds and at most the outstanding send is settled, once. */
  lemma TickProps(h: Host, i: TickIn, reconnect: int)
    requires Inv(h) && Drawn(i)
    ensures var (t, events) := Tick(h, i, reconnect); Inv(t) && Settles(h, t)
  {
    hide OpenPort, OnFrames, Expire, Poll, Disconnect, Settles;
    OpenProps(h, i.at, i.opening, reconnect);
    var a := OpenPort(h, i.at, i.opening, reconnect);
    if a.connected {
      if !i.readable {
        InvParts(a);
        DisconnectProps(a, i.at, reconnect);
        SettlesTwice(h, a, Disconnect(a, i.at, reconnect));
      } else {
        var b := OnFrames(a, i.frames, reconnect);
        OnFramesProps(a, i.frames, reconnect);
        SettlesTwice(h, a, b);
        var c := Expire(b, i.now, i.timeout, reconnect);
        ExpireProps(b, i.now, i.timeout, reconnect);
        SettlesTwice(h, b, c);
        var d := Poll(c, i.idle, i.now, i.poll, reconnect);
        PollProps(c, i.idle, i.now, i.poll, reconnect);
        SettlesTwice(h, c, d);
        SettlesNone(d, d.(received := []));
        SettlesTwice(h, d, d.(received := []));
      }
    }
  }

  lemma InvParts(h: Host)
    requires Inv(h)
    ensures OnePending(h) && h.session != 0
  {}

  // ---- whole runs ------------------------------------------------------------------------

  datatype Call = TickCall(i: TickIn) | SendCall(payload: bytes, w: Write) | TakeCall | CloseCall(now: int)

  /** The host, the sequences `send_air` has returned, and the outcomes taken so far; both in order. */
  datatype History = History(h: Host, returned: seq<u32>, taken: seq<(u32, Outcome)>)

  function Do(x: History, c: Call, reconnect: int): History {
    match c
    case TickCall(i) => x.(h := Tick(x.h, i, reconnect).0)
    case SendCall(p, w) =>
      var (t, r) := SendAir(x.h, p, w, reconnect);
      History(t, if r.Accepted? then x.returned + [r.sequence] else x.returned, x.taken)
    case TakeCall => History(TakeOutcomes(x.h), x.returned, x.taken + x.h.outcomes)
    case CloseCall(now) => x.(h := Disconnect(x.h, now, reconnect))
  }

  function DoAll(x: History, calls: seq<Call>, reconnect: int): History
    decreases |calls|
  {
    if calls == [] then x else DoAll(Do(x, calls[0], reconnect), calls[1..], reconnect)
  }

  /** Every returned sequence has exactly one outcome, in the order of sending, unless it is still outstanding. */
  ghost predicate ExactlyOnce(x: History) {
    x.returned == Sequences(x.taken + x.h.outcomes) + PendingSend(x.h)
  }

  predicate Legal(c: Call) {
    match c
    case TickCall(i) => Drawn(i)
    case SendCall(p, w) => w.draw != 0 && |p| <= MAX_USB_PAYLOAD
    case _ => true
  }

  lemma SettlesOnce(x: History, t: Host)
    requires ExactlyOnce(x) && Settles(x.h, t)
    ensures ExactlyOnce(x.(h := t))
  {
    hide PendingSend, Sequences;
    var d := t.outcomes[|x.h.outcomes|..];
    Seqs.Split(t.outcomes, |x.h.outcomes|);
    Seqs.Assoc(x.taken, x.h.outcomes, d);
    SequencesConcat(x.taken + x.h.outcomes, d);
    Seqs.Assoc(Sequences(x.taken + x.h.outcomes), Sequences(d), PendingSend(t));
  }

  lemma DoOnce(x: History, c: Call, reconnect: int)
    requires Inv(x.h) && ExactlyOnce(x) && Legal(c)
    ensures Inv(Do(x, c, reconnect).h) && ExactlyOnce(Do(x, c, reconnect))
  {
    hide Tick, SendAir, Disconnect, Settles;
    match c
    case TickCall(i) =>
      TickProps(x.h, i, reconnect);
      SettlesOnce(x, Tick(x.h, i, reconnect).0);
    case SendCall(p, w) =>
      SendAirProps(x.h, p, w, reconnect);
      var (t, r) := SendAir(x.h, p, w, reconnect);
      if r.Accepted? {
        var o := Sequences(x.taken + x.h.outcomes);
        assert o + [] == o;
      } else {
        SettlesOnce(x, t);
      }
    case TakeCall =>
      assert (x.taken + x.h.outcomes) + [] == x.taken + x.h.outcomes;
    case CloseCall(now) =>
      InvParts(x.h);
      DisconnectProps(x.h, now, reconnect);
      SettlesOnce(x, Disconnect(x.h, now, reconnect));
  }

  /** Over every sequence of calls, whatever the modem answers or fails to answer. */
  lemma {:induction false} RunOnce(x: History, calls: seq<Call>, reconnect: int)
    requires Inv(x.h) && ExactlyOnce(x) && forall c <- calls :: Legal(c)
    ensures var y := DoAll(x, calls, reconnect); Inv(y.h) && ExactlyOnce(y)
    decreases |calls|
  {
    hide Do, Inv, ExactlyOnce;
    if calls != [] {
      DoOnce(x, calls[0], reconnect);
      RunOnce(Do(x, calls[0], reconnect), calls[1..], reconnect);
    }
  }

  lemma RunOnceFromStart(session: u32, calls: seq<Call>, reconnect: int)
    requires session != 0 && forall c <- calls :: Legal(c)
    ensures var y := DoAll(History(Start(session), [], []), calls, reconnect); Inv(y.h) && ExactlyOnce(y)
  {
    var none: seq<(u32, Outcome)> := [];
    assert none + none == none;
    RunOnce(History(Start(session), [], []), calls, reconnect);
  }

  // ---- the object --------------------------------------------------------------------------

  /**
   The `_write` loop over a driver that takes what it likes: `counts` are the
   driver's answers. It succeeds exactly when everything is written; until then
   what is on the wire is a prefix.
   */
  method WriteAll(raw: bytes, counts: seq<nat>) returns (ok: bool, written: bytes)
    requires |counts| >= |raw|
    ensures ok ==> written == raw
    ensures !ok ==> written < raw
    ensures ok <==> forall k :: 0 <= k < |raw| && Taken(raw, counts, k) < |raw| ==> counts[k] > 0
    ensures !ok ==> exists k :: FailsAfter(raw, counts, k) && written == raw[..Taken(raw, counts, k)]
  {
    var offset, k := 0, 0;
    while offset < |raw|
      invariant k <= offset <= |raw| && offset == Taken(raw, counts, k)
      invariant forall j :: 0 <= j < k ==> counts[j] > 0
      decreases |raw| - offset
    {
      var n := if counts[k] <= |raw| - offset then counts[k] else |raw| - offset;
      if n == 0 {
        assert FailsAfter(raw, counts, k);
        return false, raw[..offset];
      }
      offset := offset + n;
      k := k + 1;
    }
    forall j | k <= j < |raw|
      ensures Taken(raw, counts, j) == |raw|
    {
      TakenAll(raw, counts, k, j);
    }
    return true, raw;
  }

  /** The driver takes something `k` times, not yet everything, and then nothing. */
  predicate FailsAfter(raw: bytes, counts: seq<nat>, k: nat)
    requires |counts| >= |raw|
  {
    k < |raw| && counts[k] == 0 && (forall j :: 0 <= j < k ==> counts[j] > 0) && Taken(raw, counts, k) < |raw|
  }

  /** Octets taken by the first `k` answers. */
  function Taken(raw: bytes, counts: seq<nat>, k: nat): (n: nat)
    requires k <= |counts|
    ensures n <= |raw|
  {
    if k == 0 then 0
    else
      var before := Taken(raw, counts, k - 1);
      before + if counts[k - 1] <= |raw| - before then counts[k - 1] else |raw| - before
  }

  lemma TakenAll(raw: bytes, counts: seq<nat>, k: nat, j: nat)
    requires k <= j <= |counts| && Taken(raw, counts, k) == |raw|
    ensures Taken(raw, counts, j) == |raw|
    decreases j
  {
    if k < j { TakenAll(raw, counts, k, j - 1); }
  }

  class ModemTransport {
    const reconnect: int
    var connected: bool
    var session: u32
    var sequence: u32
    var bootId: Option<u32>
    var handshakeComplete: bool
    var radioReady: bool
    var pending: Dict<u32, Request>
    var received: seq<bytes>
    var txOutcomes: seq<(u32, Outcome)>
    var timedOutRadio: Dict<u32, int>
    var nextAttempt: int
    var lastDiagnostics: int
    var lastRadioRx: int
    var wire: seq<Frame>

    constructor (session: u32, reconnect: int)
      ensures State() == Start(session) && this.reconnect == reconnect
    {
      this.reconnect := reconnect;
      connected, this.session, sequence, bootId := false, session, 0, None;
      handshakeComplete, radioReady := false, false;
      pending, received, txOutcomes, timedOutRadio := Dict([], map[]), [], [], Dict([], map[]);
      nextAttempt, lastDiagnostics, lastRadioRx, wire := 0, 0, 0, [];
    }

    function State(): Host
      reads this
    {
      Host(connected, session, sequence, bootId, handshakeComplete, radioReady, pending, received, txOutcomes,
           timedOutRadio, nextAttempt, lastDiagnostics, lastRadioRx, wire)
    }

    /** Report every outstanding send, in the order of the requests. */
    method Report(o: Outcome)
      modifies this`txOutcomes
      ensures State() == old(State()).(
        outcomes := old(State()).outcomes + Settle(old(State()).pending, old(State()).pending.order, o))
    {
      var i := 0;
      var order := pending.order;
      ghost var was := txOutcomes;
      assert order[0..] == order;
      Seqs.Units(was);
      ghost var done: seq<(u32, Outcome)> := [];
      Seqs.Units(Settle(pending, order, o));
      while i < |order|
        invariant i <= |order| && txOutcomes == was + done
        invariant done + Settle(pending, order[i..], o) == Settle(pending, order, o)
      {
        assert order[i..][1..] == order[i + 1..];
        ghost var rest := Settle(pending, order[i + 1..], o);
        if order[i] in pending.vals && pending.vals[order[i]].typ == RADIO_SEND {
          Seqs.Assoc(was, done, [(order[i], o)]);
          Seqs.Assoc(done, [(order[i], o)], rest);
          txOutcomes := txOutcomes + [(order[i], o)];
          done := done + [(order[i], o)];
        } else {
          Seqs.Units(rest);
        }
        i := i + 1;
      }
      var none := Settle(pending, order[i..], o);
      Seqs.Units(done);
    }

    method Drop(now: int)
      modifies this
      ensures State() == Disconnect(old(State()), now, reconnect)
    {
      hide Settle, State;
      Report(Uncertain);
      Clear(now);
    }

    method Clear(now: int)
      modifies this
      ensures State() == old(State()).(
        connected := false, pending := Dict([], map[]), received := [], tombs := Dict([], map[]),
        handshake := false, radioReady := false, nextAttempt := now + reconnect)
    {
      hide State;
      ClearRequests();
      ClearLink(now);
    }

    method ClearRequests()
      modifies this`pending, this`received, this`timedOutRadio
      ensures State() == old(State()).(pending := Dict([], map[]), received := [], tombs := Dict([], map[]))
    {
      pending, received, timedOutRadio := Dict([], map[]), [], Dict([], map[]);
    }

    method ClearLink(now: int)
      modifies this`connected, this`handshakeComplete, this`radioReady, this`nextAttempt
      ensures State() == old(State()).(
        connected := false, handshake := false, radioReady := false, nextAttempt := now + reconnect)
    {
      connected, handshakeComplete, radioReady := false, false, false;
      nextAttempt := now + reconnect;
    }

    method FreshSession(draw: u32)
      modifies this
      ensures State() == BeginFresh(old(State()), draw)
    {
      var previous := session;
      session := draw;
      if session == previous {
        session := if previous == U32_MAX then 1 else Inc32(previous);
      }
      ForgetSession();
    }

    method ForgetSession()
      modifies this`sequence, this`timedOutRadio, this`handshakeComplete, this`radioReady, this`lastRadioRx
      ensures State() == old(State()).(
        sequence := 0, tombs := Dict([], map[]), handshake := false, radioReady := false, lastRx := 0)
    {
      sequence, timedOutRadio := 0, Dict([], map[]);
      handshakeComplete, radioReady, lastRadioRx := false, false, 0;
    }

    method IssueRequest(typ: byte, payload: bytes, w: Write) returns (r: Sent)
      modifies this
      ensures (State(), r) == Issue(old(State()), typ, payload, w, reconnect)
    {
      if sequence == U32_MAX {
        return MustRotate;
      }
      sequence := sequence + 1;
      if |payload| > MAX_USB_PAYLOAD {
        return TooLarge;
      }
      if !connected {
        return NotSent;
      }
      wire := wire + [Sealed(typ, session, sequence, payload)];
      if !w.ok {
        Drop(w.now);
        return NotSent;
      }
      pending := pending.Set(sequence, Request(typ, w.now));
      return Accepted(sequence);
    }

    method RestartSession(w: Write)
      modifies this
      ensures State() == Restart(old(State()), w, reconnect)
    {
      hide Issue, Settle;
      Report(Failed);
      pending, received := Dict([], map[]), [];
      FreshSession(w.draw);
      var _ := IssueRequest(HELLO, [], w);
    }

    method TryOpen(now: int, o: Opening)
      modifies this
      ensures State() == OpenPort(old(State()), now, o, reconnect)
    {
      hide Issue, Disconnect;
      if connected || now < nextAttempt {
        return;
      }
      if !o.found {
        Drop(now);
        return;
      }
      connected := true;
      pending := Dict([], map[]);
      FreshSession(o.w.draw);
      if !o.delimiter {
        Drop(o.w.now);
        return;
      }
      var _ := IssueRequest(HELLO, [], o.w);
    }

    method Send(payload: bytes, w: Write) returns (r: Sent)
      modifies this
      ensures (State(), r) == SendAir(old(State()), payload, w, reconnect)
    {
      hide Issue, Restart;
      var ready := IsReady();
      if !ready {
        return NotSent;
      }
      if sequence == U32_MAX {
        RestartSession(w);
        return NotSent;
      }
      r := IssueRequest(RADIO_SEND, payload, w);
    }

    method IsReady() returns (r: bool)
      ensures r == Ready(State())
    {
      r := connected && handshakeComplete && radioReady && pending.order == [];
    }

    method Take() returns (outcomes: seq<(u32, Outcome)>)
      modifies this
      ensures outcomes == old(State()).outcomes && State() == TakeOutcomes(old(State()))
    {
      outcomes := txOutcomes;
      txOutcomes := [];
    }

    method Process(f: Frame, w: Write)
      modifies this
      ensures State() == OnFrame(old(State()), f, w, reconnect)
    {
      hide OnInfo, OnTxResult, OnRadioRx, OnError;
      if f.first != session {
        return;
      }
      if f.typ == INFO {
        ProcessInfo(f, w);
      } else if f.typ == RADIO_TX_RESULT {
        ProcessTxResult(f);
      } else if f.typ == RADIO_RX {
        ProcessRadioRx(f, w.now);
      } else if f.typ == DIAGNOSTICS {
        if f.second in pending.vals && pending.vals[f.second].typ == GET_DIAGNOSTICS {
          pending := pending.Del(f.second);
        }
      } else if f.typ == ERROR {
        ProcessError(f, w);
      }
    }

    method ProcessInfo(f: Frame, w: Write)
      modifies this
      ensures State() == OnInfo(old(State()), f, w, reconnect)
    {
      hide Restart;
      if !(f.second in pending.vals && pending.vals[f.second].typ == HELLO) {
        return;
      }
      if |f.payload| != 22 {
        RestartSession(w);
        return;
      }
      bootId, handshakeComplete, radioReady := Some(Get32(f.payload, 6)), true, f.payload[16] != 0;
      pending := pending.Del(f.second);
    }

    method ProcessTxResult(f: Frame)
      modifies this`pending, this`timedOutRadio, this`txOutcomes
      ensures State() == OnTxResult(old(State()), f)
    {
      if f.second !in pending.vals && f.second in timedOutRadio.vals {
        timedOutRadio := timedOutRadio.Del(f.second);
        return;
      }
      if !(f.second in pending.vals && pending.vals[f.second].typ == RADIO_SEND) {
        return;
      }
      pending := pending.Del(f.second);
      txOutcomes := txOutcomes + [(f.second, if |f.payload| == 12 then Completed else Failed)];
    }

    method ProcessRadioRx(f: Frame, now: int)
      modifies this`lastRadioRx, this`received
      ensures State() == OnRadioRx(old(State()), f, now)
    {
      lastRadioRx := now;
      match ParseRadioRx(f.payload)
      case Ok(p) => received := received + [p];
      case Err(_) =>
    }

    method ProcessError(f: Frame, w: Write)
      modifies this
      ensures State() == OnError(old(State()), f, w, reconnect)
    {
      hide Restart;
      if f.second !in pending.vals {
        if f.second in timedOutRadio.vals && |f.payload| == 5 {
          timedOutRadio := timedOutRadio.Del(f.second);
        }
        return;
      }
      if |f.payload| != 5 || f.payload[4] != pending.vals[f.second].typ {
        return;
      }
      var typ := pending.vals[f.second].typ;
      pending := pending.Del(f.second);
      Seqs.Units(txOutcomes);
      if typ == RADIO_SEND {
        txOutcomes := txOutcomes + [(f.second, Failed)];
      }
      if typ == HELLO || (Get16(f.payload, 0) == E_WRONG_SESSION && typ in {GET_DIAGNOSTICS, RADIO_SEND}) {
        RestartSession(w);
      }
    }

    method ForgetLate(now: int)
      modifies this`timedOutRadio
      ensures State() == old(State()).(tombs := ExpireTombs(old(timedOutRadio), now))
    {
      while timedOutRadio.order != [] && timedOutRadio.order[0] in timedOutRadio.vals
            && now - timedOutRadio.vals[timedOutRadio.order[0]] > LATE_TTL_MS
        invariant ExpireTombs(timedOutRadio, now) == ExpireTombs(old(timedOutRadio), now)
        decreases |timedOutRadio.order|
      {
        timedOutRadio := Dict(timedOutRadio.order[1..], timedOutRadio.vals - {timedOutRadio.order[0]});
      }
    }

    method RememberLate(s: u32, now: int)
      modifies this`timedOutRadio
      ensures State() == old(State()).(tombs := TrimTombs(old(timedOutRadio).Set(s, now)))
    {
      timedOutRadio := timedOutRadio.Set(s, now);
      while |timedOutRadio.order| > MAX_LATE
        invariant TrimTombs(timedOutRadio) == TrimTombs(old(timedOutRadio).Set(s, now))
        decreases |timedOutRadio.order|
      {
        timedOutRadio := Dict(timedOutRadio.order[1..], timedOutRadio.vals - {timedOutRadio.order[0]});
      }
    }

    /** The scan over a snapshot of the outstanding requests. */
    method CheckTimeouts(now: int, w: Write)
      modifies this
      ensures State() == Expire(old(State()), now, w, reconnect)
    {
      hide Restart, TrimTombs, ExpireTombs;
      ForgetLate(now);
      var order, i := pending.order, 0;
      ghost var goal := Timeouts(State(), order, now, w, reconnect);
      assert order[0..] == order;
      while i < |order|
        invariant i <= |order| && Timeouts(State(), order[i..], now, w, reconnect) == goal
      {
        assert order[i..][1..] == order[i + 1..];
        var s := order[i];
        if s in pending.vals && now - pending.vals[s].started > RESPONSE_MS {
          var typ := pending.vals[s].typ;
          pending := pending.Del(s);
          if typ == RADIO_SEND {
            RememberLate(s, now);
            txOutcomes := txOutcomes + [(s, Uncertain)];
          } else if typ == HELLO {
            RestartSession(w);
            return;
          }
        }
        i := i + 1;
      }
    }

    method PollDiagnostics(idle: bool, now: int, w: Write)
      modifies this
      ensures State() == Poll(old(State()), idle, now, w, reconnect)
    {
      hide Restart, Issue;
      if handshakeComplete && pending.order == [] && idle && now - lastRadioRx >= QUIET_MS
         && now - lastDiagnostics >= QUIET_MS {
        if sequence == U32_MAX {
          RestartSession(w);
        } else {
          lastDiagnostics := now;
          var _ := IssueRequest(GET_DIAGNOSTICS, [], w);
        }
      }
    }

    method TickOnce(i: TickIn) returns (events: seq<bytes>)
      modifies this
      ensures (State(), events) == Tick(old(State()), i, reconnect)
    {
      hide OpenPort, OnFrame, Expire, Poll, Disconnect;
      TryOpen(i.at, i.opening);
      if !connected {
        return [];
      }
      if !i.readable {
        Drop(i.at);
        return [];
      }
      ghost var goal := OnFrames(State(), i.frames, reconnect);
      var k := 0;
      assert i.frames[0..] == i.frames;
      while k < |i.frames|
        invariant k <= |i.frames| && OnFrames(State(), i.frames[k..], reconnect) == goal
      {
        assert i.frames[k..][1..] == i.frames[k + 1..];
        Process(i.frames[k].0, i.frames[k].1);
        k := k + 1;
      }
      CheckTimeouts(i.now, i.timeout);
      PollDiagnostics(i.idle, i.now, i.poll);
      events := received;
      received := [];
    }
  }
}
