/** The outer wire protocol: length-prefixed packets, decoded from a buffer that fills in pieces. */
module Framing {
  import opened Wrappers
  import opened LittleEndian
  import opened Sequences

  const MAX_PACKET_LEN := 65536
  const AUDIT_MAX_LEN := 0x10_0000

  type EventName = e: seq<byte> | |e| == 2 witness [0, 0]

  datatype Packet = Packet(dataType: byte, event: EventName, payload: seq<byte>) {
    function WireLen(): nat { 7 + |payload| }
  }

  datatype Error = LengthOverflow | InvalidLength(length: i32) | TooSmall(length: i32) | TooLarge(length: i32)

  /** The frame of a packet whose length fits the prefix. */
  function Frame(p: Packet): seq<byte>
    requires p.WireLen() <= MAX_I32
  {
    ToBytes(p.WireLen()) + [p.dataType] + p.event + p.payload
  }

  /** The sending end of a connection. */
  class Sender {
    var buf: seq<byte>

    constructor ()
      ensures buf == []
    {
      buf := [];
    }

    /** `encode`: the frame is appended, or, if its length does not fit the prefix, nothing is. */
    method Encode(p: Packet) returns (r: Result<(), Error>)
      modifies this
      ensures r == if p.WireLen() > MAX_I32 then Failure(LengthOverflow) else Success(())
      ensures buf == old(buf) + Stream(Sendable([p]))
    {
      assert [p][1..] == [] && Stream([]) == [];
      if p.WireLen() > MAX_I32 { return Failure(LengthOverflow); }
      buf := buf + ToBytes(p.WireLen());
      buf := buf + [p.dataType];
      buf := buf + p.event;
      buf := buf + p.payload;
      assert Sendable([p]) == [p];
      assert buf == old(buf) + Frame(p);
      assert Stream([p]) == Frame(p) + [];
      r := Success(());
    }

    /** Packets sent one after the other; those that cannot be encoded are left out. */
    method EncodeAll(ps: seq<Packet>)
      modifies this
      ensures buf == old(buf) + Stream(Sendable(ps))
    {
      for i := 0 to |ps|
        invariant buf == old(buf) + Stream(Sendable(ps[..i]))
      {
        SendableOneMore(ps, i);
        ConcatAssociates(old(buf), Stream(Sendable(ps[..i])), Stream(Sendable([ps[i]])));
        hide Stream, Sendable;
        var sent := Encode(ps[i]);
      }
      assert ps[..|ps|] == ps;
    }
  }

  /** The packets whose length fits the prefix. */
  function Sendable(ps: seq<Packet>): (r: seq<Packet>)
    ensures Encodable(r)
  {
    if ps == [] then []
    else if ps[0].WireLen() > MAX_I32 then Sendable(ps[1..])
    else [ps[0]] + Sendable(ps[1..])
  }

  ghost predicate Encodable(ps: seq<Packet>) {
    forall i :: 0 <= i < |ps| ==> ps[i].WireLen() <= MAX_I32
  }

  function Stream(ps: seq<Packet>): seq<byte>
    requires Encodable(ps)
  {
    if ps == [] then [] else Frame(ps[0]) + Stream(ps[1..])
  }

  lemma {:induction false} StreamConcat(a: seq<Packet>, b: seq<Packet>)
    requires Encodable(a) && Encodable(b)
    ensures Stream(a + b) == Stream(a) + Stream(b)
  {
    if a == [] {
      assert a + b == b;
    } else {
      StreamConcat(a[1..], b);
      assert (a + b)[1..] == a[1..] + b;
      ConcatAssociates(Frame(a[0]), Stream(a[1..]), Stream(b));
    }
  }

  lemma {:induction false} SendableConcat(a: seq<Packet>, b: seq<Packet>)
    ensures Sendable(a + b) == Sendable(a) + Sendable(b)
  {
    if a == [] {
      assert a + b == b;
    } else {
      SendableConcat(a[1..], b);
      assert (a + b)[1..] == a[1..] + b;
    }
  }

  lemma SendableOneMore(ps: seq<Packet>, i: nat)
    requires i < |ps|
    ensures Stream(Sendable(ps[..i + 1])) == Stream(Sendable(ps[..i])) + Stream(Sendable([ps[i]]))
  {
    assert ps[..i + 1] == ps[..i] + [ps[i]];
    SendableConcat(ps[..i], [ps[i]]);
    StreamConcat(Sendable(ps[..i]), Sendable([ps[i]]));
  }

  /** One attempt at the head of a buffer. */
  datatype Attempt = NeedMore | Bad(error: Error) | Got(packet: Packet, rest: seq<byte>)

  function PacketOf(data: seq<byte>): Packet
    requires |data| >= 7
  {
    Packet(data[4], data[5..7], data[7..])
  }

  function Attempted(buf: seq<byte>): (a: Attempt)
    ensures a.Got? ==> |a.rest| + 7 <= |buf|
  {
    if |buf| < 4 then NeedMore
    else
      var length := Entry(buf, 0);
      if length < 0 then Bad(InvalidLength(length))
      else if length < 7 then Bad(TooSmall(length))
      else if length > MAX_PACKET_LEN then Bad(TooLarge(length))
      else if |buf| < length then NeedMore
      else Got(PacketOf(buf[..length]), buf[length..])
  }

  /** A frame by its bytes: length, type, event and payload. */
  lemma FrameExactly(p: Packet)
    requires 7 + |p.payload| <= 0x7FFF_FFFF
    ensures |Frame(p)| == 7 + |p.payload| && NumberAt(Frame(p), 0) == 7 + |p.payload|
    ensures Frame(p)[4] == p.dataType && [Frame(p)[5], Frame(p)[6]] == p.event && Frame(p)[7..] == p.payload
  {
    var f := Frame(p);
    assert f[0..4] == ToBytes(p.WireLen());
    FromTo(p.WireLen());
    EntryIsNumber(f, 0);
    assert p.event == [p.event[0], p.event[1]];
  }

  /** What is read off the front of any buffer: nothing before the frame its length announces is there, and an
      error when the length is below seven or above 65536. */
  lemma AttemptExactly(buf: seq<byte>)
    ensures |buf| < 4 ==> Attempted(buf) == NeedMore
    ensures |buf| >= 4 ==>
              var n := NumberAt(buf, 0);
              && (n < 0 ==> Attempted(buf) == Bad(InvalidLength(n)))
              && (0 <= n < 7 ==> Attempted(buf) == Bad(TooSmall(n)))
              && (n > 65536 ==> Attempted(buf) == Bad(TooLarge(n)))
              && (7 <= n <= 65536 && |buf| < n ==> Attempted(buf) == NeedMore)
              && (7 <= n <= 65536 && |buf| >= n ==>
                    Attempted(buf) == Got(Packet(buf[4], [buf[5], buf[6]], buf[7..n]), buf[n..]))
  {
    if |buf| >= 4 {
      EntryIsNumber(buf, 0);
      var n := Entry(buf, 0);
      if 7 <= n <= |buf| {
        assert buf[..n][5..7] == [buf[5], buf[6]] && buf[..n][7..] == buf[7..n] && buf[..n][4] == buf[4];
      }
    }
  }

  /** The receiving end of a connection. */
  class Receiver {
    var buf: seq<byte>

    constructor ()
      ensures buf == []
    {
      buf := [];
    }

    /** `try_decode`: a packet comes off the front, or the buffer is untouched. */
    method TryDecode() returns (r: Result<Option<Packet>, Error>)
      modifies this
      ensures match Attempted(old(buf))
              case NeedMore => r == Success(None) && buf == old(buf)
              case Bad(e) => r == Failure(e) && buf == old(buf)
              case Got(p, rest) => r == Success(Some(p)) && buf == rest && |buf| + 7 <= |old(buf)|
    {
      if |buf| < 4 { return Success(None); }
      var lengthRaw := FromBytes(buf[0..4]);
      if lengthRaw < 0 { return Failure(InvalidLength(lengthRaw)); }
      var length: nat := lengthRaw;
      if length < 7 { return Failure(TooSmall(length)); }
      if length > MAX_PACKET_LEN { return Failure(TooLarge(length)); }
      if |buf| < length { return Success(None); }
      var data := buf[..length];
      buf := buf[length..];
      assert [data[5], data[6]] == data[5..7];
      r := Success(Some(Packet(data[4], [data[5], data[6]], data[7..])));
    }

    /** Bytes arrive and every complete packet is taken. */
    method Receive(chunk: seq<byte>) returns (packets: seq<Packet>, error: Option<Error>)
      modifies this
      ensures (packets, buf, error) == Drained(old(buf) + chunk)
    {
      buf := buf + chunk;
      packets := [];
      ghost var all := Drained(buf);
      assert [] + all.0 == all.0;
      while true
        invariant all == Prepend(packets, Drained(buf))
        decreases |buf|
      {
        var r := TryDecode();
        if r.Failure? {
          assert packets + [] == packets;
          return packets, Some(r.error);
        }
        if r.value.None? {
          assert packets + [] == packets;
          return packets, None;
        }
        PrependStep(packets, r.value.value, Drained(buf));
        packets := packets + [r.value.value];
      }
    }
  }

  /** What a drained buffer yields: its packets, what is left, and the error it ends in, if any. */
  type Drain = (seq<Packet>, seq<byte>, Option<Error>)

  function Drained(buf: seq<byte>): Drain
    decreases |buf|
  {
    match Attempted(buf)
    case NeedMore => ([], buf, None)
    case Bad(e) => ([], buf, Some(e))
    case Got(p, rest) => Prepend([p], Drained(rest))
  }

  function Prepend(front: seq<Packet>, d: Drain): Drain {
    (front + d.0, d.1, d.2)
  }

  lemma PrependStep(front: seq<Packet>, p: Packet, d: Drain)
    ensures Prepend(front, Prepend([p], d)) == Prepend(front + [p], d)
  {
    assert front + ([p] + d.0) == front + [p] + d.0;
  }

  // ---------------------------------------------------------------- fragmentation

  /** What more bytes do to an attempt: a packet or an error stays what it was. */
  lemma AttemptExtends(buf: seq<byte>, more: seq<byte>)
    ensures match Attempted(buf)
            case NeedMore => true
            case Bad(e) => Attempted(buf + more) == Bad(e)
            case Got(p, rest) => Attempted(buf + more) == Got(p, rest + more)
  {
    if |buf| >= 4 {
      assert (buf + more)[0..4] == buf[0..4];
      var length := Entry(buf, 0);
      if 7 <= length <= |buf| {
        assert (buf + more)[..length] == buf[..length];
        assert (buf + more)[length..] == buf[length..] + more;
      }
    }
  }

  /** Draining early loses nothing and changes nothing. */
  lemma {:induction false} DrainedInTwo(buf: seq<byte>, more: seq<byte>)
    ensures var (packets, rest, error) := Drained(buf);
            Drained(buf + more) == Prepend(packets, Drained(rest + more))
    decreases |buf|
  {
    AttemptExtends(buf, more);
    match Attempted(buf)
    case NeedMore =>
      var d := Drained(buf + more);
      assert [] + d.0 == d.0;
    case Bad(e) =>
      var d := Drained(buf + more);
      assert [] + d.0 == d.0;
    case Got(p, rest) =>
      DrainedInTwo(rest, more);
      var (packets, left, error) := Drained(rest);
      assert [p] + (packets + Drained(left + more).0) == [p] + packets + Drained(left + more).0;
  }

  function Joined(chunks: seq<seq<byte>>): seq<byte> {
    if chunks == [] then [] else chunks[0] + Joined(chunks[1..])
  }

  /** A connection that receives its bytes chunk by chunk. */
  function Session(buf: seq<byte>, chunks: seq<seq<byte>>): Drain
    decreases chunks
  {
    if chunks == [] then Drained(buf)
    else
      var (packets, rest, error) := Drained(buf + chunks[0]);
      Prepend(packets, Session(rest, chunks[1..]))
  }

  /** However the bytes of any stream, good or bad, are cut up on the way, the same packets come out
      in the same order, with the same rest and the same error. */
  lemma {:induction false} FragmentationIrrelevant(buf: seq<byte>, chunks: seq<seq<byte>>)
    ensures Session(buf, chunks) == Drained(buf + Joined(chunks))
    decreases chunks
  {
    if chunks == [] {
      assert buf + [] == buf;
    } else {
      var (packets, rest, error) := Drained(buf + chunks[0]);
      FragmentationIrrelevant(rest, chunks[1..]);
      DrainedInTwo(buf + chunks[0], Joined(chunks[1..]));
      ConcatAssociates(buf, chunks[0], Joined(chunks[1..]));
    }
  }

  // ---------------------------------------------------------------- round trip

  /** An encoded packet is decoded exactly when it is within the receiver's limit. */
  lemma DecodeFrame(p: Packet, more: seq<byte>)
    requires p.WireLen() <= MAX_I32
    ensures Attempted(Frame(p) + more) == if 7 + |p.payload| <= 65536 then Got(p, more)
            else Bad(TooLarge(p.WireLen()))
  {
    var buf, n := Frame(p) + more, p.WireLen();
    FromTo(n);
    assert buf[0..4] == ToBytes(n);
    assert buf[..n] == Frame(p) && buf[n..] == more;
    assert Frame(p)[5..7] == p.event && Frame(p)[7..] == p.payload;
  }

  /** The first packet longer than a limit. */
  function FirstLong(ps: seq<Packet>, limit: nat): (k: nat)
    ensures k <= |ps|
    ensures forall i :: 0 <= i < k ==> ps[i].WireLen() <= limit
    ensures k < |ps| ==> ps[k].WireLen() > limit
  {
    if ps == [] || ps[0].WireLen() > limit then 0 else FirstLong(ps[1..], limit) + 1
  }

  /** What the receiver makes of packets sent whole: all up to the first that is too long for it. */
  function Received(ps: seq<Packet>): Drain
    requires Encodable(ps)
  {
    var k := FirstLong(ps, MAX_PACKET_LEN);
    if k == |ps| then (ps, [], None) else (ps[..k], Stream(ps[k..]), Some(TooLarge(ps[k].WireLen())))
  }

  lemma ReceivedNext(ps: seq<Packet>)
    requires Encodable(ps) && ps != [] && ps[0].WireLen() <= MAX_PACKET_LEN
    ensures Received(ps) == Prepend([ps[0]], Received(ps[1..]))
  {
    hide Stream, Frame;
    CutTail(ps, FirstLong(ps[1..], MAX_PACKET_LEN));
  }

  lemma ReceivedNone(ps: seq<Packet>)
    requires Encodable(ps) && ps != [] && ps[0].WireLen() > MAX_PACKET_LEN
    ensures Received(ps) == ([], Stream(ps), Some(TooLarge(ps[0].WireLen())))
  {
    assert ps[0..] == ps && ps[..0] == [];
  }

  lemma {:induction false} DrainStream(ps: seq<Packet>)
    requires Encodable(ps)
    ensures Drained(Stream(ps)) == Received(ps)
  {
    if ps != [] {
      var rest := ps[1..];
      assert Stream(ps) == Frame(ps[0]) + Stream(rest);
      DecodeFrame(ps[0], Stream(rest));
      if ps[0].WireLen() <= MAX_PACKET_LEN {
        ReceivedNext(ps);
        DrainStream(rest);
      } else {
        ReceivedNone(ps);
      }
      hide Received, Frame, Stream, Attempted;
    }
  }

  /** Whatever is sent, in any pieces: every packet up to the first that exceeds the receiver's limit
      arrives as it was, in order, and nothing is left behind unless there is such a packet. */
  lemma RoundTrip(sent: seq<Packet>, chunks: seq<seq<byte>>)
    requires Joined(chunks) == Stream(Sendable(sent))
    ensures Session([], chunks) == Received(Sendable(sent))
  {
    FragmentationIrrelevant([], chunks);
    assert [] + Joined(chunks) == Joined(chunks);
    DrainStream(Sendable(sent));
  }

  /** All of it arrives if and only if no packet exceeds the limit of 65536. */
  lemma AllArriveExactly(sent: seq<Packet>, chunks: seq<seq<byte>>)
    requires Encodable(sent) && Joined(chunks) == Stream(sent)
    ensures Session([], chunks) == (sent, [], None) <==>
            forall i :: 0 <= i < |sent| ==> 7 + |sent[i].payload| <= 65536
  {
    hide Stream, Frame, Drained, Session;
    FragmentationIrrelevant([], chunks);
    assert [] + Joined(chunks) == Joined(chunks);
    DrainStream(sent);
    AllTaken(sent, MAX_PACKET_LEN);
  }

  // ---------------------------------------------------------------- the second parser

  /** One frame of the audit client's parser: it knows a larger limit and no errors. */
  function AuditAttempted(buf: seq<byte>): (a: Attempt)
    ensures a.Got? ==> |a.rest| < |buf|
  {
    if |buf| < 4 then NeedMore
    else
      var total := Entry(buf, 0);
      if total < 7 || total > AUDIT_MAX_LEN || |buf| < total then NeedMore
      else Got(PacketOf(buf[..total]), buf[total..])
  }

  function AuditDrained(buf: seq<byte>): (seq<Packet>, seq<byte>)
    decreases |buf|
  {
    match AuditAttempted(buf)
    case Got(p, rest) =>
      var (packets, left) := AuditDrained(rest);
      ([p] + packets, left)
    case _ => ([], buf)
  }

  /** `_parse`: frames are cut off the front of the buffer in a loop. */
  method AuditParse(start: seq<byte>) returns (packets: seq<Packet>, buf: seq<byte>)
    ensures (packets, buf) == AuditDrained(start)
  {
    packets, buf := [], start;
    assert [] + AuditDrained(start).0 == AuditDrained(start).0;
    while |buf| >= 4
      invariant AuditDrained(start) == (packets + AuditDrained(buf).0, AuditDrained(buf).1)
      decreases |buf|
    {
      var total := FromBytes(buf[..4]);
      assert buf[..4] == buf[0..4];
      if total < 7 || total > AUDIT_MAX_LEN || |buf| < total { break; }
      var packet := buf[..total];
      ghost var before := buf;
      buf := buf[total..];
      assert AuditDrained(before).0 == [PacketOf(packet)] + AuditDrained(buf).0;
      assert packets + ([PacketOf(packet)] + AuditDrained(buf).0) == packets + [PacketOf(packet)] + AuditDrained(buf).0;
      packets := packets + [PacketOf(packet)];
    }
    assert packets + [] == packets;
  }

  /** Read off the length fields: the first that is not within 7 to 65536 is within the audit client's
      limit all the same, and its frame is there in full. */
  predicate HasLongFrame(buf: seq<byte>)
    decreases |buf|
  {
    && |buf| >= 4
    && var length := Entry(buf, 0);
       && 7 <= length <= |buf| && length <= AUDIT_MAX_LEN
       && (length > MAX_PACKET_LEN || HasLongFrame(buf[length..]))
  }

  /** The parsers split a stream the same way if and only if no such frame comes up; the audit client
      never has fewer packets. */
  lemma {:induction false} ParsersAgreeExactly(buf: seq<byte>)
    ensures Drained(buf).0 <= AuditDrained(buf).0
    ensures AuditDrained(buf) == (Drained(buf).0, Drained(buf).1) <==> !HasLongFrame(buf)
    decreases |buf|
  {
    match Attempted(buf)
    case Got(p, rest) =>
      ParsersAgreeExactly(rest);
      SamePrefixed(p, Drained(rest).0, AuditDrained(rest).0);
    case Bad(_) =>
      if HasLongFrame(buf) {
        assert |AuditDrained(buf).0| > 0;
      }
    case NeedMore =>
  }

  lemma SamePrefixed(p: Packet, a: seq<Packet>, b: seq<Packet>)
    ensures [p] + a == [p] + b <==> a == b
  {
    assert ([p] + a)[1..] == a && ([p] + b)[1..] == b;
  }

  /** Every packet between the two limits is such a frame. */
  lemma ParsersDiffer(p: Packet)
    requires 65536 < 7 + |p.payload| <= 1048576
    ensures Drained(Frame(p)) == ([], Frame(p), Some(TooLarge(p.WireLen())))
    ensures AuditDrained(Frame(p)) == ([p], [])
  {
    AuditFrame(p, []);
    DecodeFrame(p, []);
    assert Frame(p) + [] == Frame(p);
    assert [p] + [] == [p];
  }

  /** The shortest of them. */
  lemma ShortestDifference()
    ensures var p := Packet(0, [0, 0], seq(65530, _ => 0));
            Drained(Frame(p)).0 == [] && AuditDrained(Frame(p)) == ([p], [])
  {
    ParsersDiffer(Packet(0, [0, 0], seq(65530, _ => 0)));
  }

  lemma AuditFrame(p: Packet, more: seq<byte>)
    requires p.WireLen() <= MAX_I32
    ensures AuditAttempted(Frame(p) + more) == if p.WireLen() <= AUDIT_MAX_LEN then Got(p, more) else NeedMore
  {
    var buf, n := Frame(p) + more, p.WireLen();
    FromTo(n);
    assert buf[0..4] == ToBytes(n);
    assert buf[..n] == Frame(p) && buf[n..] == more;
    assert Frame(p)[5..7] == p.event && Frame(p)[7..] == p.payload;
  }

  function AuditReceived(ps: seq<Packet>): (seq<Packet>, seq<byte>)
    requires Encodable(ps)
  {
    var k := FirstLong(ps, AUDIT_MAX_LEN);
    (ps[..k], Stream(ps[k..]))
  }

  lemma AuditReceivedNext(ps: seq<Packet>)
    requires Encodable(ps) && ps != []
    ensures AuditReceived(ps)
         == if ps[0].WireLen() <= AUDIT_MAX_LEN then ([ps[0]] + AuditReceived(ps[1..]).0, AuditReceived(ps[1..]).1)
            else ([], Stream(ps))
  {
    hide Stream, Frame;
    CutTail(ps, FirstLong(ps[1..], AUDIT_MAX_LEN));
  }

  /** The audit client reads everything a server can encode, up to the first packet beyond a mebibyte. */
  lemma {:induction false} AuditReadsPackets(ps: seq<Packet>)
    requires Encodable(ps)
    ensures AuditDrained(Stream(ps)) == AuditReceived(ps)
  {
    if ps != [] {
      var rest := ps[1..];
      assert Stream(ps) == Frame(ps[0]) + Stream(rest);
      AuditFrame(ps[0], Stream(rest));
      AuditReceivedNext(ps);
      AuditReadsPackets(rest);
      hide AuditReceived, Frame, Stream, AuditAttempted;
    }
  }

  /** So both parsers read everything sent by packets within the receiver's limit, and the audit client
      alone what is sent by packets up to a mebibyte. */
  lemma ParsersOnPackets(ps: seq<Packet>)
    requires Encodable(ps)
    ensures AuditDrained(Stream(ps)) == (ps, []) <==> forall i :: 0 <= i < |ps| ==> 7 + |ps[i].payload| <= 1048576
    ensures Drained(Stream(ps)) == (ps, [], None) <==> forall i :: 0 <= i < |ps| ==> 7 + |ps[i].payload| <= 65536
  {
    assert ps[|ps|..] == [] && Stream([]) == [];
    hide Stream, Frame, Drained, AuditDrained;
    AuditReadsPackets(ps);
    DrainStream(ps);
    AllTaken(ps, AUDIT_MAX_LEN);
    AllTaken(ps, MAX_PACKET_LEN);
  }

  lemma AllTaken(ps: seq<Packet>, limit: nat)
    ensures var k := FirstLong(ps, limit);
            && (ps[..k] == ps <==> k == |ps|)
            && (k == |ps| <==> forall i :: 0 <= i < |ps| ==> ps[i].WireLen() <= limit)
            && ps[..|ps|] == ps
  {
  }
}
