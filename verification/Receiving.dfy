/** What a tick hands on: every packet it reads, unless the session or the connection ends. */
module Receiving {
  import opened Bytes
  import opened Wrappers
  import opened UsbProtocol
  import opened Transport
  import opened OrderedDict
  import Seqs

  /** The packet in a received-packet frame of the session: what follows sixteen octets. */
  function Packet(session: u32, f: Frame): (r: seq<bytes>)
    ensures |r| <= 1
  {
    if f.first == session && f.typ == 0x90 && |f.payload| >= 16 then [f.payload[16..]] else []
  }

  function Packets(session: u32, frames: seq<(Frame, Write)>): seq<bytes>
    decreases |frames|
  {
    if frames == [] then [] else Packet(session, frames[0].0) + Packets(session, frames[1..])
  }

  // ---- one frame --------------------------------------------------------------------

  /** A malformed INFO for the HELLO, an error for the HELLO, or the modem in another session. */
  predicate Upsets(h: Host, f: Frame) {
    f.first == h.session && f.second in h.pending.vals && (
      var typ := h.pending.vals[f.second].typ;
      || (f.typ == INFO && typ == HELLO && |f.payload| != 22)
      || (f.typ == ERROR && |f.payload| == 5 && f.payload[4] == typ
          && (typ == HELLO || (Get16(f.payload, 0) == 4 && typ in {GET_DIAGNOSTICS, RADIO_SEND}))))
  }

  lemma RestartClears(h: Host, w: Write, reconnect: int)
    ensures var t := Restart(h, w, reconnect);
      t.received == [] && t.session != h.session && (t.connected ==> h.connected)
  {
    hide Settle;
  }

  lemma IssueKeeps(h: Host, typ: byte, payload: bytes, w: Write, reconnect: int)
    ensures var t := Issue(h, typ, payload, w, reconnect).0;
      && t.session == h.session && t.received == (if t.connected || !h.connected then h.received else [])
      && (t.connected ==> h.connected)
  {
    hide Settle;
  }

  /** The session goes on with nothing received, or ends with all lost. */
  predicate Goes(h: Host, t: Host, upset: bool) {
    && (t.session != h.session <==> upset)
    && t.received == (if upset then [] else h.received) && (!upset ==> t.connected == h.connected)
  }

  lemma InfoGoes(h: Host, f: Frame, w: Write, reconnect: int)
    requires f.first == h.session && f.typ == INFO
    ensures Goes(h, OnInfo(h, f, w, reconnect), Upsets(h, f))
  {
    hide Restart;
    RestartClears(h, w, reconnect);
  }

  lemma ErrorGoes(h: Host, f: Frame, w: Write, reconnect: int)
    requires f.first == h.session && f.typ == ERROR
    ensures Goes(h, OnError(h, f, w, reconnect), Upsets(h, f))
  {
    hide Restart;
    if f.second in h.pending.vals {
      var typ := h.pending.vals[f.second].typ;
      var mid := h.(pending := h.pending.Del(f.second),
                    outcomes := h.outcomes + if typ == RADIO_SEND then [(f.second, Failed)] else []);
      RestartClears(mid, w, reconnect);
    }
  }

  /** A frame that upsets the host ends the session and loses what has been received; any other adds its packet. */
  lemma FrameAdds(h: Host, f: Frame, w: Write, reconnect: int)
    ensures var t := OnFrame(h, f, w, reconnect);
      && (t.session != h.session <==> Upsets(h, f))
      && t.received == (if Upsets(h, f) then [] else h.received + Packet(h.session, f))
      && (!Upsets(h, f) ==> t.connected == h.connected)
  {
    hide OnInfo, OnError;
    Seqs.Units(h.received);
    if f.first == h.session {
      if f.typ == INFO { InfoGoes(h, f, w, reconnect); }
      if f.typ == ERROR { ErrorGoes(h, f, w, reconnect); }
    }
  }

  // ---- a read of several frames ---------------------------------------------------------

  /** No frame of the read upsets the host. */
  predicate Steady(h: Host, frames: seq<(Frame, Write)>, reconnect: int)
    decreases |frames|
  {
    frames == [] || (
      && !Upsets(h, frames[0].0)
      && Steady(OnFrame(h, frames[0].0, frames[0].1, reconnect), frames[1..], reconnect))
  }

  /** Then every packet of the session is received, in order, behind what was there. */
  lemma {:induction false} FramesAdd(h: Host, frames: seq<(Frame, Write)>, reconnect: int)
    requires Steady(h, frames, reconnect)
    ensures var t := OnFrames(h, frames, reconnect);
      t.session == h.session && t.connected == h.connected && t.received == h.received + Packets(h.session, frames)
    decreases |frames|
  {
    hide OnFrame, Upsets, Packet;
    if frames == [] {
      Seqs.Units(h.received);
    } else {
      var (f, w) := frames[0];
      FrameAdds(h, f, w, reconnect);
      FramesAdd(OnFrame(h, f, w, reconnect), frames[1..], reconnect);
      Seqs.Assoc(h.received, Packet(h.session, f), Packets(h.session, frames[1..]));
    }
  }

  lemma {:induction false} FramesSplit(h: Host, frames: seq<(Frame, Write)>, k: nat, reconnect: int)
    requires k <= |frames|
    ensures OnFrames(h, frames, reconnect) == OnFrames(OnFrames(h, frames[..k], reconnect), frames[k..], reconnect)
    decreases k
  {
    hide OnFrame;
    if k == 0 {
      assert frames[..0] == [] && frames[0..] == frames;
    } else {
      var t := OnFrame(h, frames[0].0, frames[0].1, reconnect);
      FramesSplit(t, frames[1..], k - 1, reconnect);
      assert frames[..k][0] == frames[0] && frames[..k][1..] == frames[1..][..k - 1];
      assert frames[1..][k - 1..] == frames[k..];
    }
  }

  /** Otherwise, with frame `k` the last that upsets the host, exactly what came before it is lost. */
  lemma FramesLose(h: Host, frames: seq<(Frame, Write)>, k: nat, reconnect: int)
    requires k < |frames| && Upsets(OnFrames(h, frames[..k], reconnect), frames[k].0)
    requires Steady(OnFrames(h, frames[..k + 1], reconnect), frames[k + 1..], reconnect)
    ensures var t := OnFrames(h, frames, reconnect); t.received == Packets(t.session, frames[k + 1..])
  {
    hide OnFrame, Upsets, Packets;
    var (f, w) := frames[k];
    FramesSplit(h, frames, k + 1, reconnect);
    FramesSplit(h, frames[..k + 1], k, reconnect);
    assert frames[..k + 1][..k] == frames[..k] && frames[..k + 1][k..] == [frames[k]];
    var g := OnFrames(h, frames[..k], reconnect);
    OneFrame(g, [frames[k]], reconnect);
    FrameAdds(g, f, w, reconnect);
    var u := OnFrames(h, frames[..k + 1], reconnect);
    FramesAdd(u, frames[k + 1..], reconnect);
    Seqs.Units(Packets(u.session, frames[k + 1..]));
  }

  lemma OneFrame(h: Host, one: seq<(Frame, Write)>, reconnect: int)
    requires |one| == 1
    ensures OnFrames(h, one, reconnect) == OnFrame(h, one[0].0, one[0].1, reconnect)
  {
    hide OnFrame;
    assert |one[1..]| == 0;
  }

  // ---- the rest of the tick ----------------------------------------------------------------

  lemma {:induction false} TimeoutsKeep(h: Host, order: seq<u32>, now: int, w: Write, reconnect: int)
    ensures var t := Timeouts(h, order, now, w, reconnect);
      if t.session == h.session
      then t.received == h.received && t.connected == h.connected && t.handshake == h.handshake
      else t.received == [] && !t.handshake
    decreases |order|
  {
    hide Restart, TrimTombs;
    if order != [] {
      var s := order[0];
      if s !in h.pending.vals || now - h.pending.vals[s].started <= RESPONSE_MS {
        TimeoutsKeep(h, order[1..], now, w, reconnect);
      } else {
        var t := h.(pending := h.pending.Del(s));
        RestartClears(t, w, reconnect);
        RestartGreets(t, w, reconnect);
        var u := if h.pending.vals[s].typ == RADIO_SEND
                 then t.(tombs := TrimTombs(t.tombs.Set(s, now)), outcomes := t.outcomes + [(s, Uncertain)]) else t;
        TimeoutsKeep(u, order[1..], now, w, reconnect);
      }
    }
  }

  lemma RestartGreets(h: Host, w: Write, reconnect: int)
    ensures !Restart(h, w, reconnect).handshake
  {
    hide Settle;
  }

  lemma PollKeeps(h: Host, idle: bool, now: int, w: Write, reconnect: int)
    ensures var t := Poll(h, idle, now, w, reconnect);
      && (t.session == h.session && (t.connected || !h.connected) ==> t.received == h.received)
      && (t.session != h.session || (!t.connected && h.connected) ==> t.received == [])
      && (!h.handshake ==> t == h) && (t.connected ==> h.connected)
  {
    hide Restart, Issue;
    RestartClears(h, w, reconnect);
    IssueKeeps(h.(lastDiagnostics := now), GET_DIAGNOSTICS, [], w, reconnect);
  }

  lemma OpenClears(h: Host, now: int, o: Opening, reconnect: int)
    requires h.received == []
    ensures OpenPort(h, now, o, reconnect).received == []
  {
    hide Settle;
  }

  /**
   What a tick hands on. A tick that cannot read hands on nothing. One that reads hands
   on what its frames have added, unless its end, a HELLO timed out or a poll that
   fails or rotates, loses that too. So if no frame upsets the host, it hands on every
   packet of the session it has read, in order, exactly if it ends in that session
   and connected, and otherwise none of them.
   */
  lemma TickHands(h: Host, i: TickIn, reconnect: int)
    requires h.received == []
    ensures var (t, payloads) := Tick(h, i, reconnect);
      var a := OpenPort(h, i.at, i.opening, reconnect);
      && t.received == []
      && (!a.connected || !i.readable ==> payloads == [])
      && (a.connected && i.readable ==>
            var b := OnFrames(a, i.frames, reconnect);
            payloads == if t.session == b.session && t.connected == b.connected then b.received else [])
      && (a.connected && i.readable && Steady(a, i.frames, reconnect) ==>
            payloads == if t.session == a.session && t.connected then Packets(a.session, i.frames) else [])
  {
    hide OpenPort, OnFrames, Expire, Poll, Steady, Packets;
    OpenClears(h, i.at, i.opening, reconnect);
    var a := OpenPort(h, i.at, i.opening, reconnect);
    if a.connected && i.readable {
      var b := OnFrames(a, i.frames, reconnect);
      var c := Expire(b, i.now, i.timeout, reconnect);
      ExpireKeeps(b, i.now, i.timeout, reconnect);
      PollKeeps(c, i.idle, i.now, i.poll, reconnect);
      if Steady(a, i.frames, reconnect) {
        FramesAdd(a, i.frames, reconnect);
        Seqs.Units(Packets(a.session, i.frames));
      }
    }
  }

  lemma ExpireKeeps(h: Host, now: int, w: Write, reconnect: int)
    ensures var t := Expire(h, now, w, reconnect);
      if t.session == h.session
      then t.received == h.received && t.connected == h.connected && t.handshake == h.handshake
      else t.received == [] && !t.handshake
  {
    hide Timeouts, ExpireTombs;
    TimeoutsKeep(h.(tombs := ExpireTombs(h.tombs, now)), h.pending.order, now, w, reconnect);
  }
}
