/** The screen bridge's wire format and what its reader makes of it, on values. */
module FrameSpec {
  import opened Options
  import opened Recs

  // ----- big-endian numbers -----

  function BE(bs: Text): nat {
    if bs == [] then 0 else BE(bs[..|bs| - 1]) * 256 + bs[|bs| - 1] as int
  }

  function Pow256(n: nat): (p: nat)
    ensures p > 0
  {
    if n == 0 then 1 else 256 * Pow256(n - 1)
  }

  function BEBytes(n: nat, v: nat): (bs: Text)
    requires v < Pow256(n)
    ensures |bs| == n
  {
    if n == 0 then [] else BEBytes(n - 1, v / 256) + [(v % 256) as byte]
  }

  lemma {:induction false} DecodeEncode(n: nat, v: nat)
    requires v < Pow256(n)
    ensures BE(BEBytes(n, v)) == v
  {
    if n > 0 {
      DecodeEncode(n - 1, v / 256);
      var front := BEBytes(n - 1, v / 256);
      assert (front + [(v % 256) as byte])[..n - 1] == front;
    }
  }

  lemma {:induction false} EncodeDecode(bs: Text)
    ensures BE(bs) < Pow256(|bs|) && BEBytes(|bs|, BE(bs)) == bs
  {
    if bs != [] {
      var front, last := bs[..|bs| - 1], bs[|bs| - 1];
      EncodeDecode(front);
      assert BE(bs) / 256 == BE(front) && BE(bs) % 256 == last as int;
      assert bs == front + [last];
    }
  }

  // ----- packets and messages -----

  const KEY_FLAG := 0x2000_0000_0000_0000
  const CONFIG_FLAG := 0x4000_0000_0000_0000
  const TWO64 := 0x1_0000_0000_0000_0000
  const TWO32 := 0x1_0000_0000

  datatype Raw = Packet(flags: nat, payload: Text)

  predicate Fits(p: Raw) {
    p.flags < TWO64 && |p.payload| < TWO32
  }

  type Packet = p: Raw | Fits(p) witness Raw.Packet(0, [])

  lemma Widths()
    ensures Pow256(4) == TWO32 && Pow256(8) == TWO64
  {
    assert Pow256(1) == 256 && Pow256(2) == 0x1_0000 && Pow256(3) == 0x100_0000 && Pow256(4) == TWO32;
    assert Pow256(5) == 256 * TWO32 && Pow256(6) == 0x1_0000 * TWO32 && Pow256(7) == 0x100_0000 * TWO32;
  }

  function Encode(p: Packet): Text {
    Widths();
    BEBytes(8, p.flags) + BEBytes(4, |p.payload|) + p.payload
  }

  function EncodeAll(ps: seq<Packet>): Text {
    if ps == [] then [] else Encode(ps[0]) + EncodeAll(ps[1..])
  }

  /** What browsers are sent: the stream's description, or an access unit tagged 0 for a
      delta frame, 1 for a key frame, 2 for a decoder configuration. */
  datatype Msg = Meta(codec: Text, width: nat, height: nat) | Unit(tag: byte, payload: Text)

  function MsgOf(flags: nat, payload: Text): Msg {
    if flags / CONFIG_FLAG % 2 == 1 then Unit(2, payload)
    else Unit(if flags / KEY_FLAG % 2 == 1 then 1 else 0, payload)
  }

  function MsgsOf(ps: seq<Packet>): seq<Msg> {
    if ps == [] then [] else [MsgOf(ps[0].flags, ps[0].payload)] + MsgsOf(ps[1..])
  }

  // ----- the connection -----

  /** The latest messages a late browser needs. */
  datatype Prime = Prime(meta: Option<Msg>, config: Option<Msg>, key: Option<Msg>)

  datatype Phase = Dummy | Name | Codec | Sizes(codec: Text) | Header | Payload(flags: nat, size: nat)

  datatype Conn = Conn(phase: Phase, buf: Text, prime: Prime, sent: seq<Msg>)

  /** How many bytes the next read asks for. */
  function Need(ph: Phase): nat {
    match ph
    case Dummy => 1
    case Name => 64
    case Codec => 4
    case Sizes(_) => 12
    case Header => 12
    case Payload(_, size) => size
  }

  function Here(m: Option<Msg>): seq<Msg> {
    if m.Some? then [m.value] else []
  }

  /** Everything remembered, in the order a browser needs it. */
  function Join(p: Prime): seq<Msg> {
    Here(p.meta) + Here(p.config) + Here(p.key)
  }

  function Remember(p: Prime, m: Msg): Prime {
    if m.Meta? then p.(meta := Some(m))
    else if m.tag == 2 then p.(config := Some(m))
    else if m.tag == 1 then p.(key := Some(m))
    else p
  }

  /** The reader's next step once its read has got its bytes. */
  function Resume(c: Conn, b: Text): Conn
    requires |b| == Need(c.phase)
  {
    match c.phase
    case Dummy => c.(phase := Name)
    case Name => c.(phase := Codec)
    case Codec => c.(phase := Sizes(b))
    case Sizes(codec) =>
      var prime := Remember(c.prime, Meta(codec, BE(b[4..8]), BE(b[8..12])));
      c.(phase := Header, prime := prime, sent := c.sent + Join(prime))
    case Header => c.(phase := Payload(BE(b[..8]), BE(b[8..12])))
    case Payload(flags, _) =>
      var m := MsgOf(flags, b);
      c.(phase := Header, prime := Remember(c.prime, m), sent := c.sent + [m])
  }

  predicate Ready(c: Conn) {
    |c.buf| >= Need(c.phase)
  }

  function Turn(c: Conn): Conn
    requires Ready(c)
  {
    var n := Need(c.phase);
    Resume(c, c.buf[..n]).(buf := c.buf[n..])
  }

  function Rank(c: Conn): nat {
    if c.phase.Payload? then 1 else 0
  }

  /** All the reads the buffered bytes can satisfy. */
  function Drain(c: Conn): (d: Conn)
    ensures !Ready(d)
    decreases |c.buf|, Rank(c)
  {
    if Ready(c) then Drain(Turn(c)) else c
  }

  function Arrive(c: Conn, chunk: Text): Conn {
    Drain(c.(buf := c.buf + chunk))
  }

  function ArriveAll(c: Conn, chunks: seq<Text>): Conn
    decreases |chunks|
  {
    if chunks == [] then c else ArriveAll(Arrive(c, chunks[0]), chunks[1..])
  }

  function Concat(chunks: seq<Text>): Text {
    if chunks == [] then [] else chunks[0] + Concat(chunks[1..])
  }

  // ----- chunking does not matter -----

  lemma TurnMore(c: Conn, more: Text)
    requires Ready(c)
    ensures Ready(c.(buf := c.buf + more))
    ensures Turn(c.(buf := c.buf + more)) == Turn(c).(buf := Turn(c).buf + more)
  {
    var n := Need(c.phase);
    assert (c.buf + more)[..n] == c.buf[..n];
    assert (c.buf + more)[n..] == c.buf[n..] + more;
  }

  lemma {:induction false} DrainMore(c: Conn, more: Text)
    ensures Drain(c.(buf := c.buf + more)) == Arrive(Drain(c), more)
    decreases |c.buf|, Rank(c)
  {
    if Ready(c) {
      TurnMore(c, more);
      DrainMore(Turn(c), more);
    }
  }

  /** However the byte stream is cut into chunks, the outcome is that of one chunk. */
  lemma {:induction false} ChunksDontMatter(c: Conn, chunks: seq<Text>)
    requires !Ready(c)
    ensures ArriveAll(c, chunks) == Arrive(c, Concat(chunks))
    decreases |chunks|
  {
    if chunks == [] {
      assert c.buf + [] == c.buf;
    } else {
      ChunksDontMatter(Arrive(c, chunks[0]), chunks[1..]);
      DrainMore(c.(buf := c.buf + chunks[0]), Concat(chunks[1..]));
      assert c.buf + chunks[0] + Concat(chunks[1..]) == c.buf + (chunks[0] + Concat(chunks[1..]));
    }
  }

  // ----- parsing undoes framing -----

  /** Too few bytes for one packet. */
  predicate Incomplete(rest: Text) {
    |rest| < 12 || |rest| < 12 + BE(rest[8..12])
  }

  lemma EncodeShape(p: Packet, tail: Text)
    ensures var bs := Encode(p) + tail;
            && |Encode(p)| == 12 + |p.payload|
            && bs[..8] == BEBytes(8, p.flags) && bs[8..12] == BEBytes(4, |p.payload|)
            && BE(bs[..8]) == p.flags && BE(bs[8..12]) == |p.payload|
            && bs[12..][..|p.payload|] == p.payload && bs[12..][|p.payload|..] == tail
  {
    Widths();
    DecodeEncode(8, p.flags);
    DecodeEncode(4, |p.payload|);
  }

  /** One whole packet at the front of the buffer is one message. */
  lemma OnePacket(c: Conn, p: Packet, tail: Text)
    requires c.phase == Header && c.buf == Encode(p) + tail
    ensures var m := MsgOf(p.flags, p.payload);
            Drain(c) == Drain(c.(buf := tail, prime := Remember(c.prime, m), sent := c.sent + [m]))
  {
    EncodeShape(p, tail);
    assert c.buf[..12][..8] == c.buf[..8] && c.buf[..12][8..12] == c.buf[8..12];
    var mid := Turn(c);
    assert mid == c.(phase := Payload(p.flags, |p.payload|), buf := c.buf[12..]);
    assert Drain(c) == Drain(mid);
    assert Ready(mid);
    var m := MsgOf(p.flags, p.payload);
    assert Turn(mid) == c.(buf := tail, prime := Remember(c.prime, m), sent := c.sent + [m]);
  }

  lemma RestSendsNothing(c: Conn)
    requires c.phase == Header && Incomplete(c.buf)
    ensures Drain(c).sent == c.sent && Drain(c).prime == c.prime
  {
    if |c.buf| >= 12 {
      assert c.buf[..12][8..12] == c.buf[8..12];
      assert !Ready(Turn(c));
    }
  }

  function RememberAll(p: Prime, ms: seq<Msg>): Prime
    decreases |ms|
  {
    if ms == [] then p else RememberAll(Remember(p, ms[0]), ms[1..])
  }

  /** From the packet loop, the messages sent are exactly those of the complete packets of
      the stream, in order; the incomplete rest sends nothing. */
  lemma {:induction false} ParseUndoesFraming(c: Conn, ps: seq<Packet>, rest: Text)
    requires c.phase == Header && c.buf == EncodeAll(ps) + rest && Incomplete(rest)
    ensures Drain(c).sent == c.sent + MsgsOf(ps)
    ensures Drain(c).prime == RememberAll(c.prime, MsgsOf(ps))
    decreases |ps|
  {
    if ps == [] {
      assert c.buf == rest;
      RestSendsNothing(c);
    } else {
      var m := MsgOf(ps[0].flags, ps[0].payload);
      var tail := EncodeAll(ps[1..]) + rest;
      assert c.buf == Encode(ps[0]) + tail;
      OnePacket(c, ps[0], tail);
      ParseUndoesFraming(c.(buf := tail, prime := Remember(c.prime, m), sent := c.sent + [m]), ps[1..], rest);
      MsgsHead(c.sent, c.prime, m, MsgsOf(ps[1..]));
    }
  }

  lemma MsgsHead(sent: seq<Msg>, p: Prime, m: Msg, ms: seq<Msg>)
    ensures sent + [m] + ms == sent + ([m] + ms)
    ensures RememberAll(p, [m] + ms) == RememberAll(Remember(p, m), ms)
  {
    assert ([m] + ms)[1..] == ms;
  }

  /** Every byte string is some packets followed by an incomplete one. */
  lemma {:induction false} Decompose(bytes: Text) returns (ps: seq<Packet>, rest: Text)
    ensures bytes == EncodeAll(ps) + rest && Incomplete(rest)
    decreases |bytes|
  {
    if Incomplete(bytes) {
      ps, rest := [], bytes;
    } else {
      var p, n := FirstPacket(bytes);
      ps, rest := Decompose(bytes[n..]);
      Prepend(p, ps, bytes[..n], bytes[n..], rest);
      ps := [p] + ps;
      assert bytes == bytes[..n] + bytes[n..];
    }
  }

  lemma FirstPacket(bytes: Text) returns (p: Packet, n: nat)
    requires !Incomplete(bytes)
    ensures 0 < n <= |bytes| && Encode(p) == bytes[..n]
  {
    var flags, size := bytes[..8], bytes[8..12];
    n := 12 + BE(size);
    var payload := bytes[12..n];
    assert bytes[..n] == flags + size + payload;
    p := FromWire(flags, size, payload);
  }

  lemma FromWire(flags: Text, size: Text, payload: Text) returns (p: Packet)
    requires |flags| == 8 && |size| == 4 && |payload| == BE(size)
    ensures p == Raw.Packet(BE(flags), payload) && Encode(p) == flags + size + payload
  {
    Widths();
    EncodeDecode(flags);
    EncodeDecode(size);
    p := Raw.Packet(BE(flags), payload);
  }

  lemma Prepend(p: Packet, ps: seq<Packet>, head: Text, tail: Text, rest: Text)
    requires Encode(p) == head && tail == EncodeAll(ps) + rest
    ensures head + tail == EncodeAll([p] + ps) + rest
  {
    assert ([p] + ps)[1..] == ps;
  }

  const PREAMBLE := 81

  /** The dummy byte, the device name, the codec and the sizes. */
  function Described(pre: Text): Msg
    requires |pre| == PREAMBLE
  {
    Meta(pre[65..69], BE(pre[73..77]), BE(pre[77..81]))
  }

  lemma Greeting(c: Conn, pre: Text, tail: Text)
    requires c.phase == Dummy && c.buf == pre + tail && |pre| == PREAMBLE
    ensures Drain(c) == Drain(c.(phase := Codec, buf := pre[65..] + tail))
  {
    var a := Turn(c);
    assert a.buf == pre[1..] + tail;
    var b := Turn(a);
    assert b.buf == pre[65..] + tail;
    assert Drain(c) == Drain(a) == Drain(b);
  }

  lemma Preamble(c: Conn, pre: Text, tail: Text)
    requires c.phase == Dummy && c.buf == pre + tail && |pre| == PREAMBLE
    ensures var prime := Remember(c.prime, Described(pre));
            Drain(c) == Drain(Conn(Header, tail, prime, c.sent + Join(prime)))
  {
    Greeting(c, pre, tail);
    var b := c.(phase := Codec, buf := pre[65..] + tail);
    var d := Turn(b);
    assert d.phase == Sizes(pre[65..69]) && d.buf == pre[69..] + tail;
    var sizes := d.buf[..12];
    assert sizes[4..8] == pre[73..77] && sizes[8..12] == pre[77..81];
    assert d.buf[12..] == tail;
    assert Drain(b) == Drain(d) == Drain(Turn(d));
  }

  /** A whole connection, cut into any chunks: the description, what was remembered, then
      one message for each complete packet, in order. */
  lemma WholeStream(c: Conn, chunks: seq<Text>, pre: Text, ps: seq<Packet>, rest: Text)
    requires c.phase == Dummy && c.buf == [] && |pre| == PREAMBLE && Incomplete(rest)
    requires Concat(chunks) == pre + (EncodeAll(ps) + rest)
    ensures var prime := Remember(c.prime, Described(pre));
            && ArriveAll(c, chunks).sent == c.sent + Join(prime) + MsgsOf(ps)
            && ArriveAll(c, chunks).prime == RememberAll(prime, MsgsOf(ps))
  {
    ChunksDontMatter(c, chunks);
    assert c.buf + Concat(chunks) == Concat(chunks);
    Preamble(c.(buf := Concat(chunks)), pre, EncodeAll(ps) + rest);
    var prime := Remember(c.prime, Described(pre));
    ParseUndoesFraming(Conn(Header, EncodeAll(ps) + rest, prime, c.sent + Join(prime)), ps, rest);
  }

  /** A later connection starts over: its stream is read from its first byte, whatever the one
      before left unread, and the first thing sent is its description with the configuration
      and key frame remembered. */
  lemma LaterStream(c: Conn, chunks: seq<Text>, pre: Text, ps: seq<Packet>, rest: Text)
    requires |pre| == PREAMBLE && Incomplete(rest) && Concat(chunks) == pre + (EncodeAll(ps) + rest)
    ensures var prime := Remember(c.prime, Described(pre));
            ArriveAll(Reconnect(c), chunks).sent ==
              c.sent + ([Described(pre)] + Here(c.prime.config) + Here(c.prime.key)) + MsgsOf(ps)
  {
    WholeStream(Reconnect(c), chunks, pre, ps, rest);
  }

  // ----- the same in bytes and numbers -----

  lemma {:induction false} HighByteFirst(b: byte, rest: Text)
    ensures BE([b] + rest) == b as int * Pow256(|rest|) + BE(rest)
  {
    if rest == [] {
      assert [b] + rest == [b] && [b][..0] == [];
    } else {
      var front := rest[..|rest| - 1];
      assert ([b] + rest)[..|rest|] == [b] + front;
      HighByteFirst(b, front);
    }
  }

  /** Four bytes, the highest first. */
  lemma Number32(a: byte, b: byte, c: byte, d: byte)
    ensures BE([a, b, c, d]) == a as int * 0x100_0000 + b as int * 0x1_0000 + c as int * 0x100 + d as int
  {
    assert [a][..0] == [] && [a, b][..1] == [a] && [a, b, c][..2] == [a, b] && [a, b, c, d][..3] == [a, b, c];
    assert BE([a]) == a as int;
    assert BE([a, b]) == a as int * 0x100 + b as int;
    assert BE([a, b, c]) == a as int * 0x1_0000 + b as int * 0x100 + c as int;
  }

  /** Bit 62 marks a decoder configuration, sent as 2; without it bit 61 marks a key frame,
      sent as 1; anything else is sent as 0. The other bits do not matter. */
  lemma TagOfBits(top: nat, c: nat, k: nat, low: nat, payload: Text)
    requires top < 2 && c < 2 && k < 2 && low < 0x2000_0000_0000_0000
    ensures MsgOf(top * 0x8000_0000_0000_0000 + c * 0x4000_0000_0000_0000 + k * 0x2000_0000_0000_0000 + low, payload)
            == Unit(if c == 1 then 2 else k as byte, payload)
  {
    var flags := top * 0x8000_0000_0000_0000 + c * 0x4000_0000_0000_0000 + k * 0x2000_0000_0000_0000 + low;
    assert flags / 0x4000_0000_0000_0000 == top * 2 + c;
    assert flags / 0x2000_0000_0000_0000 == top * 4 + c * 2 + k;
  }

  /** On the wire: bits 0x40 and 0x20 of a packet's first byte decide its tag. */
  lemma TagOfFirstByte(hdr: Text, payload: Text)
    requires |hdr| == 8
    ensures MsgOf(BE(hdr), payload) ==
            Unit(if hdr[0] / 0x40 % 2 == 1 then 2 else if hdr[0] / 0x20 % 2 == 1 then 1 else 0, payload)
  {
    var b := hdr[0];
    TopByte(hdr);
    Bits(b);
    var rest := BE(hdr[1..]);
    var low := (b % 0x20) as int * 0x100_0000_0000_0000 + rest;
    TagOfBits((b / 0x80) as nat, (b / 0x40 % 2) as nat, (b / 0x20 % 2) as nat, low, payload);
  }

  lemma TopByte(hdr: Text)
    requires |hdr| == 8
    ensures BE(hdr[1..]) < 0x100_0000_0000_0000
    ensures BE(hdr) == hdr[0] as int * 0x100_0000_0000_0000 + BE(hdr[1..])
  {
    assert hdr == [hdr[0]] + hdr[1..];
    HighByteFirst(hdr[0], hdr[1..]);
    EncodeDecode(hdr[1..]);
    Widths();
    assert Pow256(8) == 256 * Pow256(7);
  }

  lemma Bits(b: byte)
    ensures b as int == (b / 0x80) as int * 0x80 + (b / 0x40 % 2) as int * 0x40 + (b / 0x20 % 2) as int * 0x20 + (b % 0x20) as int
    ensures b / 0x80 < 2
  {
  }

  /** Eight bytes of flags, four of size, highest first, then the payload: one message. */
  lemma OneWirePacket(c: Conn, hdr: Text, payload: Text, tail: Text)
    requires c.phase == Header && |hdr| == 12 && c.buf == hdr + payload + tail
    requires |payload| == hdr[8] as int * 0x100_0000 + hdr[9] as int * 0x1_0000 + hdr[10] as int * 0x100 + hdr[11] as int
    ensures var m := Unit(if hdr[0] / 0x40 % 2 == 1 then 2 else if hdr[0] / 0x20 % 2 == 1 then 1 else 0, payload);
            Drain(c) == Drain(c.(buf := tail, prime := Remember(c.prime, m), sent := c.sent + [m]))
  {
    var flags, size := hdr[..8], hdr[8..12];
    assert size == [hdr[8], hdr[9], hdr[10], hdr[11]];
    Number32(hdr[8], hdr[9], hdr[10], hdr[11]);
    var p := FromWire(flags, size, payload);
    assert hdr == flags + size;
    OnePacket(c, p, tail);
    TagOfFirstByte(flags, payload);
  }

  /** The description sent first: bytes 65 to 68 name the codec, 73 to 76 are the width and
      77 to 80 the height. */
  lemma DescribedBytes(pre: Text)
    requires |pre| == 81
    ensures Described(pre) ==
            Meta(pre[65..69],
                 pre[73] as int * 0x100_0000 + pre[74] as int * 0x1_0000 + pre[75] as int * 0x100 + pre[76] as int,
                 pre[77] as int * 0x100_0000 + pre[78] as int * 0x1_0000 + pre[79] as int * 0x100 + pre[80] as int)
  {
    assert pre[73..77] == [pre[73], pre[74], pre[75], pre[76]];
    assert pre[77..81] == [pre[77], pre[78], pre[79], pre[80]];
    Number32(pre[73], pre[74], pre[75], pre[76]);
    Number32(pre[77], pre[78], pre[79], pre[80]);
  }

  // ----- late browsers -----

  /** The last message of a kind: 0 description, 1 key frame, 2 configuration. */
  function LatestOf(ms: seq<Msg>, kind: int): Option<Msg> {
    if ms == [] then None
    else
      var m := ms[|ms| - 1];
      if (kind == 0 && m.Meta?) || (kind > 0 && m.Unit? && m.tag as int == kind) then Some(m)
      else LatestOf(ms[..|ms| - 1], kind)
  }

  /** What is remembered is the latest of each kind ever sent. */
  ghost predicate UpToDate(c: Conn) {
    c.prime == Prime(LatestOf(c.sent, 0), LatestOf(c.sent, 2), LatestOf(c.sent, 1))
  }

  lemma LatestSnoc(ms: seq<Msg>, m: Msg, kind: int)
    ensures LatestOf(ms + [m], kind) ==
            if (kind == 0 && m.Meta?) || (kind > 0 && m.Unit? && m.tag as int == kind) then Some(m) else LatestOf(ms, kind)
  {
    assert (ms + [m])[..|ms|] == ms;
  }

  lemma {:induction false} LatestKind(ms: seq<Msg>, kind: int)
    requires LatestOf(ms, kind).Some?
    ensures var m := LatestOf(ms, kind).value;
            (kind == 0 && m.Meta?) || (kind > 0 && m.Unit? && m.tag as int == kind)
  {
    var m := ms[|ms| - 1];
    if !((kind == 0 && m.Meta?) || (kind > 0 && m.Unit? && m.tag as int == kind)) {
      LatestKind(ms[..|ms| - 1], kind);
    }
  }

  lemma SendUpToDate(c: Conn, m: Msg)
    requires UpToDate(c)
    ensures UpToDate(c.(prime := Remember(c.prime, m), sent := c.sent + [m]))
  {
    LatestSnoc(c.sent, m, 0);
    LatestSnoc(c.sent, m, 1);
    LatestSnoc(c.sent, m, 2);
  }

  /** Sending what is already remembered changes nothing about what is latest. */
  lemma ResendUpToDate(c: Conn, m: Option<Msg>, kind: int)
    requires UpToDate(c) && kind in {1, 2} && m == LatestOf(c.sent, kind)
    ensures UpToDate(c.(sent := c.sent + Here(m)))
  {
    if m.Some? {
      LatestKind(c.sent, kind);
      SendUpToDate(c, m.value);
      assert Remember(c.prime, m.value) == c.prime;
    } else {
      assert c.sent + Here(m) == c.sent;
    }
  }

  lemma ResumeUpToDate(c: Conn, b: Text)
    requires UpToDate(c) && |b| == Need(c.phase)
    ensures UpToDate(Resume(c, b))
  {
    match c.phase
    case Sizes(codec) =>
      var m := Meta(codec, BE(b[4..8]), BE(b[8..12]));
      var a := c.(prime := Remember(c.prime, m), sent := c.sent + [m]);
      SendUpToDate(c, m);
      ResendUpToDate(a, a.prime.config, 2);
      var d := a.(sent := a.sent + Here(a.prime.config));
      ResendUpToDate(d, d.prime.key, 1);
      assert d.sent + Here(d.prime.key) == c.sent + Join(a.prime);
    case Payload(flags, _) => SendUpToDate(c, MsgOf(flags, b));
    case _ =>
  }

  lemma {:induction false} DrainUpToDate(c: Conn)
    requires UpToDate(c)
    ensures UpToDate(Drain(c)) && c.sent <= Drain(c).sent
    decreases |c.buf|, Rank(c)
  {
    if Ready(c) {
      ResumeUpToDate(c, c.buf[..Need(c.phase)]);
      DrainUpToDate(Turn(c));
    }
  }

  /** A new upstream connection starts reading afresh and remembers what came before. */
  function Reconnect(c: Conn): Conn {
    c.(phase := Dummy, buf := [])
  }

  datatype Event = Chunk(bytes: Text) | Reconnects

  function After(es: seq<Event>): Conn {
    if es == [] then Conn(Dummy, [], Prime(None, None, None), [])
    else
      var c := After(es[..|es| - 1]);
      match es[|es| - 1]
      case Chunk(bytes) => Arrive(c, bytes)
      case Reconnects => Reconnect(c)
  }

  /** A browser joining at any time first receives the latest description, configuration
      and key frame sent so far, over all connections, as far as there are any. */
  lemma {:induction false} JoinIsLatest(es: seq<Event>)
    ensures UpToDate(After(es))
    ensures var c := After(es);
            Join(c.prime) == Here(LatestOf(c.sent, 0)) + Here(LatestOf(c.sent, 2)) + Here(LatestOf(c.sent, 1))
  {
    if es != [] {
      JoinIsLatest(es[..|es| - 1]);
      var c := After(es[..|es| - 1]);
      match es[|es| - 1]
      case Chunk(bytes) => DrainUpToDate(c.(buf := c.buf + bytes));
      case Reconnects =>
    }
  }
}

/** The reader and the packet loop as the program keeps them. */
module Bridges {
  import opened Options
  import opened Recs
  import opened FrameSpec

  datatype Outcome = Resolved(bytes: Text) | Rejected | Parked

  class Reader {
    var buf: Text
    /** The size of the parked read, if one is parked. */
    var waiter: Option<nat>
    var err: bool

    /** Every byte received, and how many of them reads have returned. */
    ghost var all: Text
    ghost var taken: nat

    ghost predicate Valid()
      reads this
    {
      && taken <= |all| && buf == all[taken..]
      && (waiter.Some? ==> |buf| < waiter.value && !err)
    }

    constructor ()
      ensures Valid() && all == [] && taken == 0 && waiter.None? && !err
    {
      buf, waiter, err, all, taken := [], None, false, [], 0;
    }

    /** Takes n bytes if they are there; otherwise fails after an error, else parks. */
    method Read(n: nat) returns (o: Outcome)
      requires Valid()
      modifies this
      ensures Valid() && all == old(all) && err == old(err)
      ensures |old(all)| - old(taken) >= n ==> o == Resolved(all[old(taken)..old(taken) + n]) && taken == old(taken) + n
      ensures |old(all)| - old(taken) < n ==> taken == old(taken) && o == if err then Rejected else Parked
      ensures o.Parked? ==> waiter == Some(n)
      ensures !o.Parked? && old(waiter).None? ==> waiter.None?
    {
      if |buf| >= n {
        o := Resolved(buf[..n]);
        buf := buf[n..];
        taken := taken + n;
        return o;
      }
      if err {
        return Rejected;
      }
      waiter := Some(n);
      return Parked;
    }

    /** Resumes the parked read, if any. */
    method Wake() returns (o: Option<Outcome>)
      requires taken <= |all| && buf == all[taken..]
      modifies this
      ensures Valid() && all == old(all) && err == old(err)
      ensures old(waiter).None? ==> o.None? && taken == old(taken) && waiter.None?
      ensures old(waiter).Some? ==>
                var n := old(waiter).value;
                && o.Some?
                && (|all| - old(taken) >= n ==>
                      o.value == Resolved(all[old(taken)..old(taken) + n]) && taken == old(taken) + n && waiter.None?)
                && (|all| - old(taken) < n ==>
                      taken == old(taken) && o.value == (if err then Rejected else Parked)
                      && waiter == if err then None else Some(n))
    {
      if waiter.None? {
        return None;
      }
      var n := waiter.value;
      waiter := None;
      var r := Read(n);
      o := Some(r);
    }

    method OnData(d: Text) returns (o: Option<Outcome>)
      requires Valid()
      modifies this
      ensures Valid() && all == old(all) + d && err == old(err)
      ensures old(waiter).None? ==> o.None? && taken == old(taken)
      ensures old(waiter).Some? ==>
                if |all| - old(taken) >= old(waiter).value
                then o == Some(Resolved(all[old(taken)..old(taken) + old(waiter).value])) && taken == old(taken) + old(waiter).value && waiter.None?
                else o == Some(Parked) && taken == old(taken) && waiter == old(waiter)
    {
      buf := buf + d;
      all := all + d;
      o := Wake();
    }

    /** A socket error or close: what is buffered can still be read. */
    method OnError() returns (o: Option<Outcome>)
      requires Valid()
      modifies this
      ensures Valid() && all == old(all) && err && taken == old(taken)
      ensures old(waiter).Some? ==> o == Some(Rejected)
      ensures waiter.None?
    {
      err := true;
      o := Wake();
    }
  }

  /** The packet loop over a reader: between events it is parked in one read. */
  class Bridge {
    var reader: Reader
    var phase: Phase
    var prime: Prime
    /** Everything broadcast so far. */
    var sent: seq<Msg>

    function State(): Conn
      reads this, reader
    {
      Conn(phase, reader.buf, prime, sent)
    }

    /** The loop waits in the read that its phase calls for. */
    ghost predicate Valid()
      reads this, reader
    {
      reader.Valid() && !reader.err && reader.waiter == Some(Need(phase))
    }

    constructor ()
      ensures Valid() && fresh(reader) && State() == After([])
    {
      var r := new Reader();
      var o := r.Read(1);
      reader, phase, prime, sent := r, Dummy, Prime(None, None, None), [];
    }

    /** What follows a read that returned b. */
    method OnRead(b: Text)
      requires |b| == Need(phase)
      modifies this`phase, this`prime, this`sent
      ensures State() == Resume(old(State()), b)
    {
      match phase
      case Dummy => phase := Name;
      case Name => phase := Codec;
      case Codec => phase := Sizes(b);
      case Sizes(codec) =>
        prime := prime.(meta := Some(Meta(codec, BE(b[4..8]), BE(b[8..12]))));
        sent := sent + [prime.meta.value];
        if prime.config.Some? {
          sent := sent + [prime.config.value];
        }
        if prime.key.Some? {
          sent := sent + [prime.key.value];
        }
        assert sent == old(sent) + Join(prime);
        phase := Header;
      case Header => phase := Payload(BE(b[..8]), BE(b[8..12]));
      case Payload(flags, _) =>
        var key := flags / KEY_FLAG % 2 == 1;
        var cfg := flags / CONFIG_FLAG % 2 == 1;
        if cfg {
          var msg := Unit(2, b);
          prime := prime.(config := Some(msg));
          sent := sent + [msg];
        } else {
          var msg := Unit(if key then 1 else 0, b);
          if key {
            prime := prime.(key := Some(msg));
          }
          sent := sent + [msg];
        }
        phase := Header;
    }

    /** What the connection is when the next read has returned b, before that is acted on. */
    ghost function Holding(b: Text): Conn
      reads this, reader
    {
      State().(buf := b + reader.buf)
    }

    /** From one read's bytes to the next read. */
    method GoOn(b: Text) returns (o: Outcome)
      requires reader.Valid() && !reader.err && reader.waiter.None? && |b| == Need(phase)
      modifies this`phase, this`prime, this`sent, reader
      ensures reader.Valid() && !reader.err
      ensures var c := FrameSpec.Turn(old(Holding(b)));
              if Ready(c) then o.Resolved? && reader.waiter.None? && |o.bytes| == Need(phase) && Holding(o.bytes) == c
              else o.Parked? && reader.waiter == Some(Need(phase)) && State() == c
    {
      ghost var c := FrameSpec.Turn(Holding(b));
      OnRead(b);
      assert State() == c;
      ghost var rest := reader.buf;
      assert |reader.all| - reader.taken == |rest|;
      o := reader.Read(Need(phase));
      assert o.Resolved? ==> o.bytes + reader.buf == rest;
    }

    /** A chunk from the socket resumes the parked read if it now has its bytes, and the
        loop goes on until a read parks again. */
    method OnChunk(d: Text)
      requires Valid()
      modifies this`phase, this`prime, this`sent, reader
      ensures Valid() && State() == Arrive(old(State()), d)
    {
      ghost var start := State().(buf := reader.buf + d);
      var o := Woken(d);
      while o.Resolved?
        invariant reader.Valid() && !reader.err && !o.Rejected?
        invariant o.Parked? ==> reader.waiter == Some(Need(phase)) && Drain(State()) == Drain(start)
        invariant o.Resolved? ==> reader.waiter.None? && |o.bytes| == Need(phase) && Drain(Holding(o.bytes)) == Drain(start)
        decreases if o.Resolved? then |o.bytes| + |reader.buf| else 0,
                  if o.Resolved? then Rank(State()) + 1 else 0
      {
        o := GoOn(o.bytes);
      }
    }

    method Woken(d: Text) returns (o: Outcome)
      requires Valid()
      modifies reader
      ensures reader.Valid() && !reader.err && !o.Rejected?
      ensures var c := old(State()).(buf := old(reader.buf) + d);
              if o.Resolved? then reader.waiter.None? && |o.bytes| == Need(phase) && Holding(o.bytes) == c
              else reader.waiter == Some(Need(phase)) && State() == c
    {
      ghost var t0, buf := reader.taken, reader.buf + d;
      assert buf == (reader.all + d)[t0..];
      var woken := reader.OnData(d);
      o := woken.value;
      assert o.Resolved? ==> o.bytes + reader.buf == buf;
    }

    /** The upstream connection ended: the parked read is rejected, and a new connection
        reads afresh. */
    method Reattach()
      requires Valid()
      modifies this, reader
      ensures Valid() && fresh(reader) && State() == Reconnect(old(State()))
    {
      var o := reader.OnError();
      assert o == Some(Rejected);
      var r := new Reader();
      var p := r.Read(1);
      reader, phase := r, Dummy;
    }

    /** What a browser that connects now is sent first. */
    method OnJoin() returns (ms: seq<Msg>)
      ensures ms == Join(prime)
    {
      ms := [];
      if prime.meta.Some? {
        ms := ms + [prime.meta.value];
      }
      if prime.config.Some? {
        ms := ms + [prime.config.value];
      }
      if prime.key.Some? {
        ms := ms + [prime.key.value];
      }
    }
  }
}
