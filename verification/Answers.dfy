/** What the modem answers to each command, case by case. */
module Answers {
  import opened Bytes
  import opened Wrappers
  import opened Envelope
  import opened UsbProtocol
  import opened Firmware
  import Cases = LinkCases
  import Ring

  /** The last thing queued for the host. */
  predicate Says(t: Fw, typ: byte, session: u32, seqn: u32, body: bytes) {
    Newest(t) == Some(Sealed(typ, session, seqn, body))
  }

  /** The five octets of an error: its code, a detail, and the type of the command it answers. */
  function Refused(code: u16, detail: u16, typ: byte): bytes {
    [(code / 256) as byte, (code % 256) as byte, (detail / 256) as byte, (detail % 256) as byte, typ]
  }

  predicate InSession(s: Fw, m: Frame) { s.active && s.session == m.first }

  /** The command is the one last answered, once more. */
  predicate Again(s: Fw, m: Frame) {
    && InSession(s, m) && m.second == s.lastSeq && !s.pending && (m.typ == HELLO ==> m.payload == [])
    && s.haveLast && s.lastReq == Some(m) && s.lastResp.Some?
  }

  /** Why a HELLO is refused. */
  function HelloRefusal(s: Fw, m: Frame): Option<u16> {
    if m.payload != [] then Some(2)
    else if !InSession(s, m) then None
    else if s.pending then Some(5)
    else if m.second < s.lastSeq then Some(6)
    else if m.second == s.lastSeq then Some(7)
    else None
  }

  /** Why a new request of the session is refused. */
  function RequestRefusal(s: Fw, m: Frame, e: Env): Option<u16> {
    if m.typ == RADIO_SEND then
      if |m.payload| == 0 || |m.payload| > 200 then Some(2)
      else if !s.ready then Some(3)
      else if s.rs == Transmitting then Some(5)
      else if !e.started then Some(8)
      else None
    else if m.typ == GET_STATUS || m.typ == GET_DIAGNOSTICS then if |m.payload| > 0 then Some(2) else None
    else Some(1)
  }

  function Refusal(s: Fw, m: Frame, e: Env): Option<u16> {
    if m.typ == HELLO then HelloRefusal(s, m)
    else if !InSession(s, m) then Some(4)
    else if m.second < s.lastSeq then Some(6)
    else if s.pending then Some(5)
    else if m.second == s.lastSeq then Some(7)
    else RequestRefusal(s, m, e)
  }

  lemma ErrorIs(code: u16, detail: u16, typ: byte)
    ensures ErrorBody(code, detail, typ) == Refused(code, detail, typ)
  {}

  lemma Replies(s: Fw, typ: byte, seqn: u32, body: bytes, cache: bool)
    requires Cases.Room(s)
    ensures Says(Reply(s, typ, seqn, body, cache), typ, s.session, seqn, body)
  {
    hide Ring.Put, Ring.Responses;
    Cases.Answered(s.queue, Sealed(typ, s.session, seqn, body));
  }

  lemma Refuses(s: Fw, session: u32, seqn: u32, code: u16, detail: u16, typ: byte, cache: bool)
    requires Cases.Room(s)
    ensures Says(Error(s, seqn, code, detail, typ, cache), ERROR, s.session, seqn, Refused(code, detail, typ))
    ensures Says(ErrorFor(s, session, seqn, code, typ), ERROR, session, seqn, Refused(code, 0, typ))
  {
    ErrorIs(code, detail, typ);
    ErrorIs(code, 0, typ);
    hide Ring.Put, Ring.Responses, Reply, ErrorBody, Refused;
    Replies(s, ERROR, seqn, ErrorBody(code, detail, typ), cache);
    Cases.Answered(s.queue, Sealed(ERROR, session, seqn, ErrorBody(code, 0, typ)));
  }

  lemma Repeats(s: Fw, m: Frame)
    requires Cases.Room(s)
    ensures if s.haveLast && s.lastReq == Some(m) && s.lastResp.Some? then Newest(Repeat(s, m)) == s.lastResp
            else Says(Repeat(s, m), ERROR, s.session, m.second, Refused(7, 0, m.typ))
  {
    hide Ring.Put, Ring.Responses, Error;
    Refuses(s, m.first, m.second, 7, 0, m.typ, false);
    if s.lastResp.Some? { Cases.Answered(s.queue, s.lastResp.value); }
  }

  /** What a willing modem answers at once. A send that starts is answered when it ends. */
  predicate Obliges(s: Fw, m: Frame, e: Env, t: Fw) {
    var c := s.c.(usbFrames := Inc32(s.c.usbFrames), usbAccepted := Inc32(s.c.usbAccepted));
    && t.lastSeq == m.second && t.active && t.session == m.first
    && if m.typ == HELLO then Says(t, INFO, m.first, m.second, InfoBody(s.boot, s.ready, e))
       else if m.typ == GET_STATUS then Says(t, LINK_STATUS, m.first, m.second, StatusBody(s.boot, s.rs, c, e))
       else if m.typ == GET_DIAGNOSTICS then
         Says(t, DIAGNOSTICS, m.first, m.second, DiagnosticsBody(c, |s.queue|))
       else t.queue == s.queue && t.rs == Transmitting && t.pending
  }

  /** The answer to any command: the one remembered, a refusal with its reason, or what was asked for. */
  predicate AnswersSo(s: Fw, m: Frame, e: Env, t: Fw) {
    if Again(s, m) then Newest(t) == s.lastResp
    else match Refusal(s, m, e)
      case Some(code) =>
        Says(t, ERROR, m.first, m.second, Refused(code, if code == 8 then e.status else 0, m.typ))
      case None => Obliges(s, m, e, t)
  }

  /** Every command is answered, and answered so. */
  lemma AnsweredExactly(s: Fw, m: Frame, e: Env)
    requires Cases.Room(s)
    ensures AnswersSo(s, m, e, Handle(s, m, e))
  {
    hide Hello, Filter, Newest, Error, ErrorFor, Refused, InfoBody, StatusBody, DiagnosticsBody, RequestRefusal;
    var u := s.(c := s.c.(usbFrames := Inc32(s.c.usbFrames)));
    if m.typ == HELLO { HelloAnswer(s, u, m, e); } else { OtherAnswer(s, u, m, e); }
  }

  lemma HelloAnswer(s: Fw, u: Fw, m: Frame, e: Env)
    requires Cases.Room(s) && m.typ == HELLO && u == s.(c := s.c.(usbFrames := Inc32(s.c.usbFrames)))
    ensures AnswersSo(s, m, e, Hello(u, m, e))
  {
    hide Newest, Error, ErrorFor, Refused, InfoBody, Repeat, Ring.Put, Ring.Responses, Reply, StatusBody,
         DiagnosticsBody;
    Refuses(u, m.first, m.second, 2, 0, m.typ, false);
    Refuses(u, m.first, m.second, 5, 0, m.typ, false);
    Refuses(u, m.first, m.second, 6, 0, m.typ, false);
    Repeats(u, m);
    WelcomeAnswer(u, m, e);
    WelcomeAnswer(ResetSession(u, m.first), m, e);
  }

  lemma WelcomeAnswer(s: Fw, m: Frame, e: Env)
    requires Cases.Room(s)
    ensures var t := Welcome(s, m, e);
      && Says(t, INFO, s.session, m.second, InfoBody(s.boot, s.ready, e))
      && t.lastSeq == m.second && t.active == s.active && t.session == s.session
  {
    hide Newest, InfoBody, Reply;
    var t := s.(lastReq := Some(m), lastSeq := m.second, c := s.c.(usbAccepted := Inc32(s.c.usbAccepted)));
    Replies(t, INFO, m.second, InfoBody(t.boot, t.ready, e), true);
    ReplyQuiet(t, INFO, m.second, InfoBody(t.boot, t.ready, e));
  }

  lemma ReplyQuiet(s: Fw, typ: byte, seqn: u32, body: bytes)
    ensures var t := Reply(s, typ, seqn, body, true);
      t.lastSeq == s.lastSeq && t.active == s.active && t.session == s.session
  {
    hide Ring.Put;
  }

  lemma OtherAnswer(s: Fw, u: Fw, m: Frame, e: Env)
    requires Cases.Room(s) && m.typ != HELLO && u == s.(c := s.c.(usbFrames := Inc32(s.c.usbFrames)))
    ensures AnswersSo(s, m, e, Filter(u, m, e))
  {
    hide Newest, Error, ErrorFor, Refused, Repeat, Execute, InfoBody, StatusBody, DiagnosticsBody, RequestRefusal;
    Refuses(u, m.first, m.second, 4, 0, m.typ, false);
    Refuses(u, m.first, m.second, 5, 0, m.typ, false);
    Refuses(u, m.first, m.second, 6, 0, m.typ, false);
    Repeats(u, m);
    if Accepts(u, m) { NewAnswer(s, u, m, e); }
  }

  lemma NewAnswer(s: Fw, u: Fw, m: Frame, e: Env)
    requires Cases.Room(s) && Accepts(u, m) && u == s.(c := s.c.(usbFrames := Inc32(s.c.usbFrames)))
    ensures AnswersSo(s, m, e, Execute(u, m, e))
  {
    hide Newest, Error, ErrorFor, Refused, InfoBody, StatusBody, DiagnosticsBody, Reply, SendRequest, Ring.Responses;
    var v := u.(lastReq := Some(m), lastSeq := m.second, haveLast := false);
    var ok := Credited(v);
    Refuses(v, m.first, m.second, 2, 0, m.typ, true);
    Refuses(v, m.first, m.second, 1, 0, m.typ, true);
    Replies(ok, LINK_STATUS, m.second, StatusBody(ok.boot, ok.rs, ok.c, e), true);
    ReplyQuiet(ok, LINK_STATUS, m.second, StatusBody(ok.boot, ok.rs, ok.c, e));
    Replies(ok, DIAGNOSTICS, m.second, DiagnosticsBody(ok.c, |ok.queue|), true);
    ReplyQuiet(ok, DIAGNOSTICS, m.second, DiagnosticsBody(ok.c, |ok.queue|));
    if m.typ == RADIO_SEND { SendAnswer(v, m, e); }
  }

  lemma SendAnswer(v: Fw, m: Frame, e: Env)
    requires Cases.Room(v) && m.typ == RADIO_SEND && !v.pending && v.active && v.session == m.first
    requires v.lastSeq == m.second
    ensures var t := SendRequest(v, m, e);
      match RequestRefusal(v, m, e)
      case Some(code) =>
        Says(t, ERROR, m.first, m.second, Refused(code, if code == 8 then e.status else 0, m.typ))
      case None =>
        && t.queue == v.queue && t.rs == Transmitting && t.pending
        && t.lastSeq == m.second && t.active && t.session == m.first
  {
    hide Newest, Error, Refused, RadioPacket, AirSequence, Ring.Responses;
    var w := Credited(v).(c := Credited(v).c.(sendAccepted := Inc32(Credited(v).c.sendAccepted)));
    Refuses(v, m.first, m.second, 2, 0, m.typ, true);
    Refuses(w, m.first, m.second, 3, 0, m.typ, true);
    Refuses(w, m.first, m.second, 5, 0, m.typ, true);
    if 0 < |m.payload| <= 200 && v.ready && v.rs != Transmitting && !e.started {
      var x := Launch(w, m.payload, m.second, e);
      var y := x.(c := x.c.(radio := Inc32(x.c.radio)), rs := Down, pending := false);
      Refuses(y, m.first, m.second, 8, e.status, m.typ, true);
      ListenSays(Error(y, m.second, 8, e.status, RADIO_SEND, true), e.listening);
    }
  }

  lemma ListenSays(s: Fw, ok: bool)
    ensures Newest(Listen(s, ok)) == Newest(s)
  {}
}
