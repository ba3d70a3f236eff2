/** What settles a request and when: an answer, three seconds of silence, or a new session. */
module Timing {
  import opened Bytes
  import opened Wrappers
  import opened Envelope
  import opened UsbProtocol
  import opened Transport
  import opened OrderedDict

  /** The host is as it was but for what it received, and remembers of late results. */
  predicate Undisturbed(h: Host, t: Host) {
    t == h.(received := t.received, tombs := t.tombs, lastRx := t.lastRx)
  }

  /** Connected, in the same session, and free of requests. */
  predicate Freed(h: Host, t: Host) {
    && t.pending.order == [] && t.session == h.session && t.sequence == h.sequence && t.connected == h.connected
    && t.handshake == h.handshake && t.radioReady == h.radioReady && t.wire == h.wire
  }

  /** A new session that starts over with HELLO, or, if even that cannot be written, a connection to be opened anew. */
  predicate StartsOver(h: Host, t: Host, w: Write, reconnect: int) {
    && t.session != h.session && !t.handshake && !t.radioReady
    && t.wire == (if h.connected then h.wire + [Sealed(HELLO, t.session, 1, [])] else h.wire)
    && (if h.connected && w.ok then t.connected && t.sequence == 1 && t.pending.order == [1] && Awaits(t, 1, HELLO)
        else t.pending.order == [])
    && (h.connected && !w.ok ==> !t.connected && t.nextAttempt == w.now + reconnect)
  }

  lemma RestartStartsOver(h: Host, w: Write, reconnect: int)
    ensures StartsOver(h, Restart(h, w, reconnect), w, reconnect)
  {
    hide Settle;
  }

  // ---- what an answer does ------------------------------------------------------------

  /** What the frame says of the outstanding send. */
  function Verdict(h: Host, f: Frame): Option<Outcome> {
    if f.first != h.session || f.second != h.sequence then None
    else if f.typ == 0x82 then Some(if |f.payload| == 12 then Completed else Failed)
    else if f.typ == 0xFF && |f.payload| == 5 && f.payload[4] == 0x02 then Some(Failed)
    else None
  }

  /** A send is settled by its result or its error, and by nothing else; only a wrong session ends the session. */
  lemma SendAnswered(h: Host, f: Frame, w: Write, reconnect: int)
    requires Inv(h) && Awaits(h, h.sequence, RADIO_SEND)
    ensures var t := OnFrame(h, f, w, reconnect);
      match Verdict(h, f)
      case Some(o) =>
        && t.outcomes == h.outcomes + [(h.sequence, o)]
        && (if f.typ == 0xFF && Get16(f.payload, 0) == 4 then StartsOver(h, t, w, reconnect) else Freed(h, t))
      case None => Undisturbed(h, t)
  {
    hide Restart, Dict.Set;
    DelOnly(h, h.sequence);
    var mid := h.(pending := h.pending.Del(h.sequence), outcomes := h.outcomes + [(h.sequence, Failed)]);
    RestartStartsOver(mid, w, reconnect);
    RestartAdds(mid, w, reconnect);
  }

  lemma RestartAdds(h: Host, w: Write, reconnect: int)
    requires h.pending == Dict([], map[])
    ensures Restart(h, w, reconnect).outcomes == h.outcomes
  {}

  /** A HELLO is answered by an INFO of 22 octets; a malformed one, or an error, starts over. */
  lemma HelloAnswered(h: Host, f: Frame, w: Write, reconnect: int)
    requires Inv(h) && Awaits(h, h.sequence, HELLO)
    ensures var t := OnFrame(h, f, w, reconnect);
      if f.first != h.session || f.second != h.sequence then Undisturbed(h, t)
      else if f.typ == 0x81 && |f.payload| == 22 then
        && t.pending.order == [] && t.session == h.session && t.connected && t.handshake
        && t.radioReady == (f.payload[16] != 0) && t.bootId == Some(Get32(f.payload, 6))
      else if f.typ == 0x81 || (f.typ == 0xFF && |f.payload| == 5 && f.payload[4] == 0x01) then
        StartsOver(h, t, w, reconnect)
      else Undisturbed(h, t)
  {
    hide Restart;
    DelOnly(h, h.sequence);
    RestartStartsOver(h, w, reconnect);
    RestartStartsOver(h.(pending := h.pending.Del(h.sequence), outcomes := h.outcomes + []), w, reconnect);
  }

  /** Diagnostics are answered by their frame or an error; only a wrong session ends the session. */
  lemma DiagnosticsAnswered(h: Host, f: Frame, w: Write, reconnect: int)
    requires Inv(h) && Awaits(h, h.sequence, GET_DIAGNOSTICS)
    ensures var t := OnFrame(h, f, w, reconnect);
      if f.first != h.session || f.second != h.sequence then Undisturbed(h, t)
      else if f.typ == 0x84 then Freed(h, t)
      else if f.typ == 0xFF && |f.payload| == 5 && f.payload[4] == 0x04 then
        if Get16(f.payload, 0) == 4 then StartsOver(h, t, w, reconnect) else Freed(h, t)
      else Undisturbed(h, t)
  {
    hide Restart;
    DelOnly(h, h.sequence);
    RestartStartsOver(h.(pending := h.pending.Del(h.sequence), outcomes := h.outcomes + []), w, reconnect);
  }

  // ---- what silence does ---------------------------------------------------------------

  /** How long the outstanding request has waited. */
  function Waited(h: Host, now: int): int
    requires h.sequence in h.pending.vals
  {
    now - h.pending.vals[h.sequence].started
  }

  lemma OnlyRequest(h: Host, now: int, w: Write, reconnect: int)
    requires Inv(h) && h.sequence in h.pending.vals
    ensures var g := h.(tombs := ExpireTombs(h.tombs, now));
      Expire(h, now, w, reconnect) == Timeouts(g, [h.sequence], now, w, reconnect)
      && g.pending.Del(h.sequence) == Dict([], map[])
  {
    DelOnly(h, h.sequence);
  }

  /** Three seconds are granted; after them a send is uncertain, a HELLO starts over, and diagnostics are forgotten. */
  lemma SilenceEnds(h: Host, now: int, w: Write, reconnect: int)
    requires Inv(h) && h.sequence in h.pending.vals
    ensures var t := Expire(h, now, w, reconnect);
      var typ := h.pending.vals[h.sequence].typ;
      if Waited(h, now) <= 3000 then Undisturbed(h, t)
      else if typ == HELLO then StartsOver(h, t, w, reconnect) && t.outcomes == h.outcomes
      else Freed(h, t) && t.outcomes == h.outcomes + if typ == RADIO_SEND then [(h.sequence, Uncertain)] else []
  {
    hide Restart, Expire, ExpireTombs, TrimTombs, Inv;
    OnlyRequest(h, now, w, reconnect);
    var g := h.(tombs := ExpireTombs(h.tombs, now));
    assert [h.sequence][1..] == [];
    var mid := g.(pending := Dict([], map[]));
    RestartStartsOver(mid, w, reconnect);
    RestartAdds(mid, w, reconnect);
  }

  /** With no request outstanding the clock does nothing. */
  lemma NothingToEnd(h: Host, now: int, w: Write, reconnect: int)
    requires h.pending.order == []
    ensures Undisturbed(h, Expire(h, now, w, reconnect))
  {
    hide ExpireTombs;
  }

  // ---- when the host speaks up -------------------------------------------------------------

  /** The diagnostics are due: nobody else needs the modem, and a second is over since packet and poll. */
  predicate Due(h: Host, idle: bool, now: int) {
    && h.handshake && h.pending.order == [] && idle
    && now - h.lastRx >= 1000 && now - h.lastDiagnostics >= 1000
  }

  /** Diagnostics are asked for exactly when they are due. A failed write costs the connection. */
  lemma PollsExactly(h: Host, idle: bool, now: int, w: Write, reconnect: int)
    requires Inv(h)
    ensures var t := Poll(h, idle, now, w, reconnect);
      if !Due(h, idle, now) then t == h
      else if h.sequence == 0xFFFF_FFFF then StartsOver(h, t, w, reconnect)
      else
        && t.wire == h.wire + [Sealed(GET_DIAGNOSTICS, h.session, h.sequence + 1, [])] && t.session == h.session
        && t.outcomes == h.outcomes
        && (if w.ok then t.connected && Awaits(t, t.sequence, GET_DIAGNOSTICS) && t.sequence == h.sequence + 1
                         && t.lastDiagnostics == now && t.received == h.received
            else !t.connected && t.nextAttempt == w.now + reconnect)
  {
    hide Restart;
    RestartStartsOver(h, w, reconnect);
  }

  /**
   A closed port is tried again exactly when its time has come. An attempt that
   succeeds begins a new session with HELLO; one that fails is repeated after the
   reconnect delay.
   */
  lemma Reopens(h: Host, now: int, o: Opening, reconnect: int)
    requires Inv(h)
    ensures var t := OpenPort(h, now, o, reconnect);
      if h.connected || now < h.nextAttempt then t == h
      else if o.found && o.delimiter then
        && t.session != h.session && t.wire == h.wire + [Sealed(HELLO, t.session, 1, [])]
        && !t.handshake && t.outcomes == h.outcomes
        && (if o.w.ok then t.connected && t.sequence == 1 && Awaits(t, 1, HELLO)
            else !t.connected && t.nextAttempt == o.w.now + reconnect)
      else
        && !t.connected && t.nextAttempt == (if o.found then o.w.now else now) + reconnect
        && t.wire == h.wire && t.outcomes == h.outcomes
  {}

  /** A tick that cannot read gives up the connection: the outstanding send is uncertain, what was received lost. */
  lemma UnreadableTick(h: Host, i: TickIn, reconnect: int)
    requires Inv(h) && h.connected && !i.readable
    ensures var (t, events) := Tick(h, i, reconnect);
      && events == [] && !t.connected && t.pending.order == [] && t.nextAttempt == i.at + reconnect
      && t.outcomes == h.outcomes + if Awaits(h, h.sequence, RADIO_SEND) then [(h.sequence, Uncertain)] else []
  {
    SettleOne(h, Uncertain);
  }

  /** A whole tick that reads nothing while a request is outstanding: three seconds are granted. */
  lemma SilentTick(h: Host, i: TickIn, reconnect: int)
    requires Inv(h) && h.connected && i.readable && i.frames == [] && h.sequence in h.pending.vals && !i.idle
    ensures var (t, events) := Tick(h, i, reconnect);
      var typ := h.pending.vals[h.sequence].typ;
      if Waited(h, i.now) <= 3000 then Undisturbed(h, t) && events == h.received
      else if typ == HELLO then StartsOver(h, t, i.timeout, reconnect) && t.outcomes == h.outcomes
      else
        && Freed(h, t) && events == h.received
        && t.outcomes == h.outcomes + if typ == RADIO_SEND then [(h.sequence, Uncertain)] else []
  {
    hide Expire, Inv, Restart;
    SilenceEnds(h, i.now, i.timeout, reconnect);
    if Waited(h, i.now) <= 3000 || h.pending.vals[h.sequence].typ != HELLO {
      SilenceHeard(h, i.now, i.timeout, reconnect);
    }
    assert OnFrames(h, i.frames, reconnect) == h;
  }

  lemma SilenceHeard(h: Host, now: int, w: Write, reconnect: int)
    requires Inv(h) && h.sequence in h.pending.vals
    requires Waited(h, now) <= 3000 || h.pending.vals[h.sequence].typ != HELLO
    ensures Expire(h, now, w, reconnect).received == h.received
  {
    hide Restart, Expire, ExpireTombs, TrimTombs, Inv;
    OnlyRequest(h, now, w, reconnect);
    assert [h.sequence][1..] == [];
  }
}
