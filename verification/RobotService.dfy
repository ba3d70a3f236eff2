/** The robot's loop: received payloads in, RTCM frames out to the TCP clients. */
module RobotService {
  import opened Bytes
  import opened Wrappers
  import opened EndToEnd
  import A = Application
  import R = Reassembler
  import Tcp = TcpOutput
  import Transport
  import Seqs

  /** What the sockets do around one publication: connections before and between, the time, and each client's answer. */
  datatype Sockets = Sockets(before: seq<nat>, between: seq<nat>, now: int, answers: map<nat, Tcp.Answer>)

  /** The payloads of one tick, one after another: the reassembler after them, and the frames completed. */
  function Take(s: R.State, payloads: seq<bytes>, now: int): (R.State, seq<bytes>)
    decreases |payloads|
  {
    if payloads == [] then (s, [])
    else
      var (t, out) := Receive(s, Heard(payloads[0], now));
      var (u, more) := Take(t, payloads[1..], now);
      (u, (if out.Some? then [out.value] else []) + more)
  }

  /** Publishing frames in order. */
  function PublishEach(o: Tcp.Output, frames: seq<bytes>, sockets: seq<Sockets>): Tcp.Output
    requires |frames| <= |sockets|
    decreases |frames|
  {
    if frames == [] then o
    else
      var s := sockets[0];
      PublishEach(Tcp.Publish(o, frames[0], s.before, s.between, s.now, s.answers), frames[1..], sockets[1..])
  }

  lemma TakeCount(s: R.State, payloads: seq<bytes>, now: int)
    ensures |Take(s, payloads, now).1| <= |payloads|
    decreases |payloads|
  {
    hide Receive;
    if payloads != [] { TakeCount(Receive(s, Heard(payloads[0], now)).0, payloads[1..], now); }
  }

  /** One turn of the loop: what remains to be taken, published and yielded after it. */
  lemma TakeTurn(s: R.State, payloads: seq<bytes>, now: int, k: nat, all: seq<bytes>, n: nat)
    requires k < |payloads| && n <= |all| && Take(s, payloads[k..], now).1 == all[n..]
    ensures var (t, out) := Receive(s, Heard(payloads[k], now));
      && Take(t, payloads[k + 1..], now).0 == Take(s, payloads[k..], now).0
      && (out.Some? ==> n < |all| && all[n] == out.value && Take(t, payloads[k + 1..], now).1 == all[n + 1..])
      && (out.None? ==> Take(t, payloads[k + 1..], now).1 == all[n..])
  {
    hide Receive;
    assert payloads[k..][1..] == payloads[k + 1..];
    var (t, out) := Receive(s, Heard(payloads[k], now));
    var rest := Take(t, payloads[k + 1..], now).1;
    if out.Some? { Shift(all, n, out.value, rest); } else { Seqs.Units(rest); }
  }

  lemma PublishTurn(o: Tcp.Output, all: seq<bytes>, sockets: seq<Sockets>, n: nat)
    requires n < |all| <= |sockets|
    ensures var s := sockets[n];
      PublishEach(o, all[n..], sockets[n..])
      == PublishEach(Tcp.Publish(o, all[n], s.before, s.between, s.now, s.answers), all[n + 1..], sockets[n + 1..])
  {
    hide Tcp.Publish;
    assert all[n..][1..] == all[n + 1..] && sockets[n..][1..] == sockets[n + 1..];
  }

  lemma TakeDone(s: R.State, now: int, o: Tcp.Output)
    ensures Take(s, [], now) == (s, []) && forall sockets :: PublishEach(o, [], sockets) == o
  {}

  class Robot {
    const transport: Transport.ModemTransport
    const reassembler: R.FragmentReassembler
    const output: Tcp.TcpRtcmOutput

    constructor (transport: Transport.ModemTransport, output: Tcp.TcpRtcmOutput)
      ensures this.transport == transport && this.output == output
      ensures fresh(reassembler) && R.Inv(reassembler.Now()) && reassembler.Now() == R.EMPTY
    {
      this.transport, this.output := transport, output;
      reassembler := new R.FragmentReassembler();
    }

    /** One payload: undecodable ones and other types are only counted. */
    method TakePayload(payload: bytes, now: int) returns (raw: Option<bytes>)
      requires R.Inv(reassembler.Now())
      modifies reassembler
      ensures R.Inv(reassembler.Now())
      ensures (reassembler.Now(), raw) == Receive(old(reassembler.Now()), Heard(payload, now))
    {
      hide R.Inv, R.Add, A.Decode;
      var decoded := A.Decode(payload);
      if decoded.Err? || decoded.value.typ != A.RTCM_FRAGMENT {
        return None;
      }
      var r := reassembler.AddFrame(decoded.value, now);
      return if r.Complete? then Some(r.raw) else None;
    }

    /** Read the modem, publish what completes, expire what is late, and push the queues on. */
    method StepOnce(i: Transport.TickIn, now: int, sockets: seq<Sockets>, last: Sockets) returns (published: seq<bytes>)
      requires R.Inv(reassembler.Now())
      requires |Transport.Tick(transport.State(), i, transport.reconnect).1| <= |sockets|
      modifies transport, reassembler, output
      ensures R.Inv(reassembler.Now())
      ensures var (t, payloads) := Transport.Tick(old(transport.State()), i, transport.reconnect);
        && transport.State() == t
        && var (s, frames) := Take(old(reassembler.Now()), payloads, now);
        && published == frames && reassembler.Now() == R.Expire(s, now)
        && |frames| <= |sockets|
        && output.State()
          == Tcp.Flush(PublishEach(old(output.State()), frames, sockets), last.before, last.now, last.answers)
    {
      hide Transport.Tick, R.Inv, R.Expire, Receive, Tcp.Publish, Tcp.Flush;
      var payloads := transport.TickOnce(i);
      published := TakeAll(payloads, now, sockets);
      R.ExpireProps(reassembler.Now(), now);
      var _ := reassembler.ExpireAt(now);
      output.FlushClients(last.before, last.now, last.answers);
    }

    method TakeAll(payloads: seq<bytes>, now: int, sockets: seq<Sockets>) returns (published: seq<bytes>)
      requires R.Inv(reassembler.Now()) && |payloads| <= |sockets|
      modifies reassembler, output
      ensures R.Inv(reassembler.Now())
      ensures (reassembler.Now(), published) == Take(old(reassembler.Now()), payloads, now)
      ensures |published| <= |sockets|
      ensures output.State() == PublishEach(old(output.State()), published, sockets)
    {
      hide R.Inv, Receive, Tcp.Publish, Take, PublishEach;
      ghost var o0 := output.State();
      ghost var all := Take(reassembler.Now(), payloads, now).1;
      ghost var end := Take(reassembler.Now(), payloads, now).0;
      TakeCount(reassembler.Now(), payloads, now);
      published := [];
      var k, n := 0, 0;
      assert payloads[0..] == payloads && sockets[0..] == sockets && all[0..] == all;
      while k < |payloads|
        invariant n <= k <= |payloads| && n <= |all| <= |sockets| && R.Inv(reassembler.Now())
        invariant published == all[..n]
        invariant Take(reassembler.Now(), payloads[k..], now).0 == end
        invariant Take(reassembler.Now(), payloads[k..], now).1 == all[n..]
        invariant PublishEach(output.State(), all[n..], sockets[n..]) == PublishEach(o0, all, sockets)
      {
        TakeTurn(reassembler.Now(), payloads, now, k, all, n);
        var raw := TakePayload(payloads[k], now);
        if raw.Some? {
          PublishTurn(output.State(), all, sockets, n);
          published := published + [raw.value];
          var s := sockets[n];
          var _ := output.PublishFrame(raw.value, s.before, s.between, s.now, s.answers);
          n := n + 1;
        }
        k := k + 1;
      }
      TakeDone(reassembler.Now(), now, output.State());
      var none: seq<bytes> := [];
      assert payloads[k..] == none && all[n..] == none;
      Finished(all, n);
    }
  }

  lemma Shift(all: seq<bytes>, n: nat, raw: bytes, rest: seq<bytes>)
    requires n <= |all| && all[n..] == [raw] + rest
    ensures n < |all| && all[n] == raw && all[n + 1..] == rest && all[n..][1..] == rest && all[n..][0] == raw
    ensures all[..n] + [raw] == all[..n + 1]
  {
    assert all[n..][0] == raw;
    assert all[n..][1..] == rest;
  }

  lemma Finished(all: seq<bytes>, n: nat)
    requires n <= |all|
    ensures |all[n..]| == 0 ==> all[..n] == all
  {}

  // ---- the loop as the events of the end-to-end account ------------------------------

  function Hears(payloads: seq<bytes>, now: int): (r: seq<Event>)
    ensures |r| == |payloads|
    ensures forall i :: 0 <= i < |r| ==> r[i] == Heard(payloads[i], now)
  {
    seq(|payloads|, i requires 0 <= i < |payloads| => Heard(payloads[i], now))
  }

  function Raws(published: seq<(nat, bytes)>): (r: seq<bytes>)
    ensures |r| == |published|
    ensures forall i :: 0 <= i < |r| ==> r[i] == published[i].1
  {
    seq(|published|, i requires 0 <= i < |published| => published[i].1)
  }

  lemma OneEvent(events: seq<Event>, e: Event)
    ensures After(events + [e]) == Receive(After(events), e).0
    ensures var out := Receive(After(events), e).1;
      Raws(Published(events + [e])) == Raws(Published(events)) + if out.Some? then [out.value] else []
  {
    hide Receive;
    assert (events + [e])[..|events|] == events;
  }

  /** The payloads of a tick are events of the end-to-end account, with the same state and the same output. */
  lemma {:induction false} TakeIsEvents(events: seq<Event>, payloads: seq<bytes>, now: int)
    ensures var (s, frames) := Take(After(events), payloads, now);
      && After(events + Hears(payloads, now)) == s
      && Raws(Published(events + Hears(payloads, now))) == Raws(Published(events)) + frames
    decreases |payloads|
  {
    hide Receive, After, Published, Raws;
    if payloads == [] {
      assert events + Hears(payloads, now) == events;
      Seqs.Units(Raws(Published(events)));
    } else {
      var e := Heard(payloads[0], now);
      OneEvent(events, e);
      TakeIsEvents(events + [e], payloads[1..], now);
      assert (events + [e]) + Hears(payloads[1..], now) == events + Hears(payloads, now);
      var out := Receive(After(events), e).1;
      var one := if out.Some? then [out.value] else [];
      Seqs.Assoc(Raws(Published(events)), one, Take(After(events + [e]), payloads[1..], now).1);
    }
  }

  /** So is the expiry at the end of the step, which publishes nothing. */
  lemma StepIsEvents(events: seq<Event>, payloads: seq<bytes>, now: int)
    ensures var (s, frames) := Take(After(events), payloads, now);
      var more := events + Hears(payloads, now) + [Expire(now)];
      && After(more) == R.Expire(s, now)
      && Raws(Published(more)) == Raws(Published(events)) + frames
  {
    hide After, Published, Take;
    TakeIsEvents(events, payloads, now);
    OneEvent(events + Hears(payloads, now), Expire(now));
    Seqs.Units(Raws(Published(events + Hears(payloads, now))));
  }
}
