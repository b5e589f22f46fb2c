/** The WebSocket client of the browser driver: framing of sections 5.2 to 5.4
    of RFC 6455 over a socket that delivers the stream in arbitrary pieces. */
module WebSocket {
  import opened Bytes
  import opened Wrappers

  // ----- big-endian lengths

  function FromBigEndian(b: seq<byte>): nat {
    if b == [] then 0 else 256 * FromBigEndian(b[..|b| - 1]) + b[|b| - 1] as nat
  }

  function ToBigEndian(n: nat, width: nat): (b: seq<byte>)
    ensures |b| == width
  {
    if width == 0 then [] else ToBigEndian(n / 256, width - 1) + [(n % 256) as byte]
  }

  function Pow256(k: nat): nat { if k == 0 then 1 else 256 * Pow256(k - 1) }

  lemma {:induction false} LengthSurvives(n: nat, width: nat)
    requires n < Pow256(width)
    ensures FromBigEndian(ToBigEndian(n, width)) == n
  {
    if width > 0 {
      LengthSurvives(n / 256, width - 1);
      assert ToBigEndian(n, width)[..width - 1] == ToBigEndian(n / 256, width - 1);
    }
  }

  lemma {:induction false} BytesSurvive(b: seq<byte>)
    ensures FromBigEndian(b) < Pow256(|b|) && ToBigEndian(FromBigEndian(b), |b|) == b
  {
    if b != [] {
      BytesSurvive(b[..|b| - 1]);
      assert b == b[..|b| - 1] + [b[|b| - 1]];
    }
  }

  lemma PowersOf256()
    ensures Pow256(0) == 1 && Pow256(2) == 65536 && Pow256(8) == 0x1_0000_0000_0000_0000
  {
    assert Pow256(4) == 0x1_0000_0000;
  }

  // ----- sequences

  lemma Assoc<T>(a: seq<T>, b: seq<T>, c: seq<T>)
    ensures (a + b) + c == a + (b + c)
  {
  }

  lemma SplitAt<T>(before: seq<T>, part: seq<T>, whole: seq<T>)
    requires part <= whole
    ensures (before + part) + whole[|part|..] == before + whole
  {
  }

  lemma TakeDrop<T>(part: seq<T>, whole: seq<T>)
    requires part <= whole
    ensures part + whole[|part|..] == whole
  {
  }

  lemma JoinedTail<T>(before: seq<T>, part: seq<T>, data: seq<T>)
    requires before + part <= data
    ensures before <= data && part <= data[|before|..] && data[|before|..][|part|..] == data[|before + part|..]
  {
  }

  lemma Cut<T>(s: seq<T>, t: seq<T>)
    ensures (s + t)[..|s|] == s && (s + t)[|s|..] == t
  {
  }

  // ----- what goes over the wire

  datatype Form = Short | Medium | Long {
    function Width(): nat { match this case Short => 0 case Medium => 2 case Long => 8 }

    function Code(n: nat): nat { match this case Short => n case Medium => 126 case Long => 127 }

    predicate Fits(n: nat) {
      match this case Short => n < 126 case Medium => n < 65536 case Long => n < 0x1_0000_0000_0000_0000
    }
  }

  function FormOf(code: nat): Form { if code == 126 then Medium else if code == 127 then Long else Short }

  /** A frame as a server may send it: any length form that fits, any flag bits. */
  datatype Wire = Wire(first: byte, maskBit: bool, form: Form, payload: seq<byte>) {
    predicate Valid() { form.Fits(|payload|) }

    function Opcode(): nat { first as nat % 16 }

    predicate Final() { first >= 128 }

    predicate IsData() { Opcode() == 0 || Opcode() == 1 }
  }

  function HeaderBytes(first: byte, maskBit: bool, form: Form, n: nat): seq<byte>
    requires form.Fits(n)
  {
    [first, ((if maskBit then 128 else 0) + form.Code(n)) as byte] + ToBigEndian(n, form.Width())
  }

  function Encode(f: Wire): seq<byte>
    requires f.Valid()
  {
    HeaderBytes(f.first, f.maskBit, f.form, |f.payload|) + f.payload
  }

  function EncodeFrames(fs: seq<Wire>): seq<byte>
    requires forall f :: f in fs ==> f.Valid()
  {
    if fs == [] then [] else Encode(fs[0]) + EncodeFrames(fs[1..])
  }

  /** Data frames in order, of which only the last frame is final; frames of
      other kinds (ping, pong) may stand anywhere before it. */
  predicate Carries(fs: seq<Wire>, message: seq<byte>) {
    && fs != [] && fs[0].Valid()
    && if |fs| == 1 then fs[0].IsData() && fs[0].Final() && message == fs[0].payload
       else if fs[0].IsData() then
         !fs[0].Final() && fs[0].payload <= message && Carries(fs[1..], message[|fs[0].payload|..])
       else fs[0].Opcode() != 8 && Carries(fs[1..], message)
  }

  // ----- the reader

  datatype Header = Header(first: byte, second: byte, length: nat, rest: seq<byte>)

  function ReadHeader(s: seq<byte>): Option<Header> {
    if |s| < 2 then None else
    var code := s[1] as nat % 128;
    var width := FormOf(code).Width();
    if |s| < 2 + width then None
    else Some(Header(s[0], s[1], if width == 0 then code else FromBigEndian(s[2..2 + width]), s[2 + width..]))
  }

  datatype Received = Received(first: byte, payload: seq<byte>, rest: seq<byte>) {
    function Opcode(): nat { first as nat % 16 }

    predicate IsData() { Opcode() == 0 || Opcode() == 1 }
  }

  function ReadFrame(s: seq<byte>): (r: Option<Received>)
    ensures r.Some? ==> |r.value.rest| < |s|
  {
    match ReadHeader(s)
    case None => None
    case Some(h) =>
      if |h.rest| < h.length then None else Some(Received(h.first, h.rest[..h.length], h.rest[h.length..]))
  }

  datatype Outcome = Message(data: seq<byte>, rest: seq<byte>) | Ended(rest: seq<byte>)

  /** What one call of recv does with the stream, `message` gathered so far. */
  function Receive(message: seq<byte>, s: seq<byte>): Outcome
    decreases |s|
  {
    match ReadFrame(s)
    case None => Ended([])
    case Some(f) =>
      if f.Opcode() == 8 then Ended(f.rest) else
      var gathered := if f.IsData() then message + f.payload else message;
      if f.first >= 128 && f.IsData() then Message(gathered, f.rest) else Receive(gathered, f.rest)
  }

  /** What successive calls return until one raises. */
  function Messages(s: seq<byte>): seq<seq<byte>>
    decreases |s|
  {
    match Receive([], s)
    case Message(m, rest) => ReceiveConsumes([], s); [m] + Messages(rest)
    case Ended(_) => []
  }

  lemma {:induction false} ReceiveConsumes(message: seq<byte>, s: seq<byte>)
    ensures Receive(message, s).Message? ==> |Receive(message, s).rest| < |s|
    decreases |s|
  {
    if ReadFrame(s).Some? {
      var f := ReadFrame(s).value;
      ReceiveConsumes(message, f.rest);
      ReceiveConsumes(message + f.payload, f.rest);
    }
  }

  lemma HeaderRoundTrip(first: byte, maskBit: bool, form: Form, n: nat, tail: seq<byte>)
    requires form.Fits(n)
    ensures var second := ((if maskBit then 128 else 0) + form.Code(n)) as byte;
            ReadHeader(HeaderBytes(first, maskBit, form, n) + tail) == Some(Header(first, second, n, tail))
  {
    PowersOf256();
    var s := HeaderBytes(first, maskBit, form, n) + tail;
    var code := s[1] as nat % 128;
    assert code == form.Code(n) && FormOf(code) == form;
    assert s[2..2 + form.Width()] == ToBigEndian(n, form.Width());
    assert s[2 + form.Width()..] == tail;
    if form != Short {
      LengthSurvives(n, form.Width());
    }
  }

  /** A header read in parts is the header of the stream. */
  lemma HeaderInParts(s: seq<byte>, head: seq<byte>, extra: seq<byte>, after: seq<byte>)
    requires |head| == 2 && s == head + (extra + after)
    requires |extra| == FormOf(head[1] as nat % 128).Width()
    ensures var n := if extra == [] then head[1] as nat % 128 else FromBigEndian(extra);
            ReadHeader(s) == Some(Header(head[0], head[1], n, after))
  {
    assert s[2..2 + |extra|] == extra && s[2 + |extra|..] == after;
  }

  lemma FrameRoundTrip(f: Wire, tail: seq<byte>)
    requires f.Valid()
    ensures ReadFrame(Encode(f) + tail) == Some(Received(f.first, f.payload, tail))
  {
    HeaderRoundTrip(f.first, f.maskBit, f.form, |f.payload|, f.payload + tail);
    var header := HeaderBytes(f.first, f.maskBit, f.form, |f.payload|);
    Assoc(header, f.payload, tail);
    Cut(f.payload, tail);
  }

  lemma HeaderWasSent(s: seq<byte>)
    requires ReadHeader(s).Some?
    ensures var h, form := ReadHeader(s).value, FormOf(s[1] as nat % 128);
            && form.Fits(h.length)
            && s == HeaderBytes(h.first, s[1] >= 128, form, h.length) + h.rest
  {
    var h, form := ReadHeader(s).value, FormOf(s[1] as nat % 128);
    var start, extra := s[..2], s[2..][..form.Width()];
    TakeDrop(start, s);
    TakeDrop(extra, s[2..]);
    Assoc(start, extra, h.rest);
    LengthWasSent(s[1], extra);
    assert start == [s[0], s[1]];
    assert s[2..2 + form.Width()] == extra;
  }

  lemma LengthWasSent(second: byte, extra: seq<byte>)
    requires |extra| == FormOf(second as nat % 128).Width()
    ensures var code := second as nat % 128;
            var n := if |extra| == 0 then code else FromBigEndian(extra);
            && FormOf(code).Fits(n) && ToBigEndian(n, FormOf(code).Width()) == extra
            && (if second >= 128 then 128 else 0) + FormOf(code).Code(n) == second as nat
  {
    PowersOf256();
    BytesSurvive(extra);
  }

  /** Whatever frame the reader accepts, the stream began with its encoding. */
  lemma FrameWasSent(s: seq<byte>) returns (f: Wire)
    requires ReadFrame(s).Some?
    ensures f.Valid() && s == Encode(f) + ReadFrame(s).value.rest
    ensures f.first == ReadFrame(s).value.first && f.payload == ReadFrame(s).value.payload
  {
    var r, h := ReadFrame(s).value, ReadHeader(s).value;
    var form := FormOf(s[1] as nat % 128);
    HeaderWasSent(s);
    f := Wire(r.first, s[1] >= 128, form, r.payload);
    TakeDrop(r.payload, h.rest);
    Assoc(HeaderBytes(f.first, f.maskBit, form, h.length), r.payload, r.rest);
  }

  /** recv returns a message exactly if the stream starts with frames that carry it. */
  lemma {:induction false} CarriedIsReceived(fs: seq<Wire>, message: seq<byte>, before: seq<byte>, tail: seq<byte>)
    requires Carries(fs, message)
    ensures forall f :: f in fs ==> f.Valid()
    ensures Receive(before, EncodeFrames(fs) + tail) == Message(before + message, tail)
    decreases |fs|
  {
    var f, after := fs[0], fs[1..];
    if |fs| == 1 {
      FrameRoundTrip(f, tail);
      assert EncodeFrames(after) == [];
      SplitAt(before, message, message);
      assert Encode(f) + [] == Encode(f);
    } else if f.IsData() {
      CarriedIsReceived(after, message[|f.payload|..], before + f.payload, tail);
      FrameRoundTrip(f, EncodeFrames(after) + tail);
      Assoc(Encode(f), EncodeFrames(after), tail);
      SplitAt(before, f.payload, message);
    } else {
      CarriedIsReceived(after, message, before, tail);
      FrameRoundTrip(f, EncodeFrames(after) + tail);
      Assoc(Encode(f), EncodeFrames(after), tail);
    }
  }

  lemma {:induction false} ReceivedWasCarried(before: seq<byte>, s: seq<byte>) returns (fs: seq<Wire>)
    requires Receive(before, s).Message?
    ensures var Message(data, rest) := Receive(before, s);
            && before <= data && Carries(fs, data[|before|..]) && (forall f :: f in fs ==> f.Valid())
            && s == EncodeFrames(fs) + rest
    decreases |s|
  {
    var f := FrameWasSent(s);
    var r := ReadFrame(s).value;
    if r.first >= 128 && r.IsData() {
      fs := [f];
      assert EncodeFrames(fs) == Encode(f) + [] == Encode(f);
      Cut(before, f.payload);
    } else {
      var gathered := if r.IsData() then before + r.payload else before;
      var after := ReceivedWasCarried(gathered, r.rest);
      ghost var outcome := Receive(before, s);
      fs := [f] + after;
      Cut([f], after);
      Assoc(Encode(f), EncodeFrames(after), outcome.rest);
      if r.IsData() {
        JoinedTail(before, f.payload, outcome.data);
      }
    }
  }

  /** The frames of a list of messages, one carrier per message. */
  predicate CarryAll(fss: seq<seq<Wire>>, messages: seq<seq<byte>>) {
    |fss| == |messages| && forall i :: 0 <= i < |fss| ==> Carries(fss[i], messages[i])
  }

  function EncodeAll(fss: seq<seq<Wire>>): seq<byte>
    requires forall fs, f :: fs in fss && f in fs ==> f.Valid()
  {
    if fss == [] then [] else
    assert fss[0] in fss;
    EncodeFrames(fss[0]) + EncodeAll(fss[1..])
  }

  /** Every list of messages, fragmented anyhow and interleaved with control
      frames, comes back exactly; then the reader goes on with what follows. */
  lemma {:induction false} EveryMessageArrives(fss: seq<seq<Wire>>, messages: seq<seq<byte>>, tail: seq<byte>)
    requires CarryAll(fss, messages)
    ensures forall fs, f :: fs in fss && f in fs ==> f.Valid()
    ensures Messages(EncodeAll(fss) + tail) == messages + Messages(tail)
    decreases |fss|
  {
    if fss == [] {
      assert EncodeAll(fss) + tail == tail;
    } else {
      EveryMessageArrives(fss[1..], messages[1..], tail);
      CarriedIsReceived(fss[0], messages[0], [], EncodeAll(fss[1..]) + tail);
      Assoc(EncodeFrames(fss[0]), EncodeAll(fss[1..]), tail);
      Cut([], messages[0]);
      Assoc([messages[0]], messages[1..], Messages(tail));
      assert [messages[0]] + messages[1..] == messages;
    }
  }

  /** And nothing else comes back: the returned messages are carried, in order,
      by the frames the stream starts with, and what follows carries none. */
  lemma {:induction false} OnlySentMessagesArrive(s: seq<byte>) returns (fss: seq<seq<Wire>>, tail: seq<byte>)
    ensures CarryAll(fss, Messages(s)) && (forall fs, f :: fs in fss && f in fs ==> f.Valid())
    ensures s == EncodeAll(fss) + tail && Receive([], tail).Ended?
    decreases |s|
  {
    if Receive([], s).Ended? {
      fss, tail := [], s;
    } else {
      ReceiveConsumes([], s);
      var Message(m, rest) := Receive([], s);
      var fs := ReceivedWasCarried([], s);
      var others;
      others, tail := OnlySentMessagesArrive(rest);
      fss := [fs] + others;
      Cut([fs], others);
      assert m[0..] == m;
      Assoc(EncodeFrames(fs), EncodeAll(others), tail);
    }
  }

  lemma {:induction false} LaterBytesDoNotMatter(before: seq<byte>, s: seq<byte>, more: seq<byte>)
    requires Receive(before, s).Message?
    ensures var Message(m, rest) := Receive(before, s); Receive(before, s + more) == Message(m, rest + more)
  {
    var Message(m, rest) := Receive(before, s);
    var fs := ReceivedWasCarried(before, s);
    CarriedIsReceived(fs, m[|before|..], before, rest + more);
    Assoc(EncodeFrames(fs), rest, more);
    TakeDrop(before, m);
  }

  /** A stream that breaks off anywhere yields the first messages, none of them cut short. */
  lemma {:induction false} BrokenStreamYieldsPrefix(s: seq<byte>, lost: seq<byte>)
    ensures Messages(s) <= Messages(s + lost)
    decreases |s|
  {
    if Receive([], s).Message? {
      ReceiveConsumes([], s);
      ReceiveConsumes([], s + lost);
      LaterBytesDoNotMatter([], s, lost);
      BrokenStreamYieldsPrefix(Receive([], s).rest, lost);
    }
  }

  /** A close frame ends the session; later bytes are not looked at. */
  lemma CloseEnds(close: Wire, tail: seq<byte>)
    requires close.Valid() && close.Opcode() == 8
    ensures Messages(Encode(close) + tail) == []
  {
    FrameRoundTrip(close, tail);
  }

  // ----- the writer

  /** The mask byte cycles through the four key bytes. */
  function Masked(data: seq<byte>, mask: seq<byte>): (r: seq<byte>)
    requires |mask| == 4
    ensures |r| == |data|
  {
    seq(|data|, i requires 0 <= i < |data| => Xor(data[i], mask[i % 4]))
  }

  lemma MaskedTwice(data: seq<byte>, mask: seq<byte>)
    requires |mask| == 4
    ensures Masked(Masked(data, mask), mask) == data
  {
    forall i | 0 <= i < |data| ensures Masked(Masked(data, mask), mask)[i] == data[i] {
      XorTwice(data[i], mask[i % 4]);
    }
  }

  function ShortestForm(n: nat): Form { if n < 126 then Short else if n < 65536 then Medium else Long }

  /** A masked client frame in a given length form. */
  function ClientFrame(form: Form, data: seq<byte>, mask: seq<byte>): seq<byte>
    requires form.Fits(|data|) && |mask| == 4
  {
    HeaderBytes(0x81, true, form, |data|) + mask + Masked(data, mask)
  }

  /** How a server reads a client frame: header, key, masked payload. */
  function ServerReads(s: seq<byte>): Option<Received> {
    match ReadHeader(s)
    case None => None
    case Some(h) =>
      if h.second < 128 || |h.rest| < 4 + h.length then None
      else Some(Received(h.first, Masked(h.rest[4..4 + h.length], h.rest[..4]), h.rest[4 + h.length..]))
  }

  /** The server gets one final text frame with the sent bytes, whatever the mask
      and whatever follows, and no length form that fits is shorter. */
  lemma SentIsRead(data: seq<byte>, mask: seq<byte>, tail: seq<byte>)
    requires |mask| == 4 && |data| < 0x1_0000_0000_0000_0000
    ensures var frame := ClientFrame(ShortestForm(|data|), data, mask);
            && ServerReads(frame + tail) == Some(Received(0x81, data, tail))
            && forall form: Form :: form.Fits(|data|) ==> |frame| <= |ClientFrame(form, data, mask)|
  {
    var form := ShortestForm(|data|);
    var header, body := HeaderBytes(0x81, true, form, |data|), Masked(data, mask);
    HeaderRoundTrip(0x81, true, form, |data|, mask + body + tail);
    Assoc(header + mask, body, tail);
    Assoc(header, mask, body + tail);
    Assoc(mask, body, tail);
    var rest := mask + body + tail;
    Cut(mask, body);
    Cut(mask + body, tail);
    assert rest[..4] == mask && rest[4..4 + |data|] == body;
    MaskedTwice(data, mask);
  }

  // ----- the connection

  function Flatten(segments: seq<seq<byte>>): seq<byte> {
    if segments == [] then [] else segments[0] + Flatten(segments[1..])
  }

  class Connection {
    var rest: seq<byte>
    /** The pieces in which the network will hand over the peer's bytes; at the
        end the peer has closed and a read returns nothing. */
    var pending: seq<seq<byte>>
    var sent: seq<byte>

    ghost predicate Valid()
      reads this
    {
      forall piece :: piece in pending ==> piece != []
    }

    /** Everything that will ever arrive, however it is cut into pieces. */
    ghost function Stream(): seq<byte>
      reads this
    {
      rest + Flatten(pending)
    }

    /** The bytes behind the handshake response may already be in `rest`. */
    constructor (rest: seq<byte>, pending: seq<seq<byte>>)
      requires forall piece :: piece in pending ==> piece != []
      ensures Valid() && sent == [] && Stream() == rest + Flatten(pending)
    {
      this.rest, this.pending, sent := rest, pending, [];
    }

    /** The socket's own receive: at most `limit` bytes, empty only at the end. */
    method SocketRecv(limit: nat) returns (c: seq<byte>)
      requires Valid() && limit > 0
      modifies `pending
      ensures Valid() && |c| <= limit && c + Flatten(pending) == old(Flatten(pending))
      ensures c == [] ==> old(pending) == [] && pending == []
    {
      if pending == [] {
        return [];
      }
      var piece := pending[0];
      assert piece in pending;
      if |piece| <= limit {
        c, pending := piece, pending[1..];
      } else {
        c := piece[..limit];
        ghost var others := Flatten(pending[1..]);
        pending := [piece[limit..]] + pending[1..];
        Cut([piece[limit..]], old(pending)[1..]);
        TakeDrop(c, piece);
        Assoc(c, piece[limit..], others);
      }
      forall p | p in pending ensures p != [] {
        assert p == piece[if |piece| <= limit then 0 else limit..] || p in old(pending);
      }
    }

    /** Exactly the next n bytes of the stream, or end of file with nothing left. */
    method Read(n: nat) returns (out: Option<seq<byte>>)
      requires Valid()
      modifies `rest, `pending
      ensures Valid()
      ensures out.Some? <==> n <= |old(Stream())|
      ensures out.Some? ==> |out.value| == n && old(Stream()) == out.value + Stream()
      ensures out.None? ==> Stream() == []
    {
      var cut := if n <= |rest| then n else |rest|;
      var got := rest[..cut];
      rest := rest[cut..];
      TakeDrop(got, old(rest));
      Assoc(got, rest, Flatten(pending));
      while |got| < n
        invariant Valid() && |got| <= n && (|got| < n ==> rest == [])
        invariant got + Stream() == old(Stream())
        decreases n - |got|
      {
        ghost var before := pending;
        ghost var soFar := got;
        var c := SocketRecv(n - |got|);
        Cut([], Flatten(pending));
        if c == [] {
          return None;
        }
        got := got + c;
        Assoc(soFar, c, Flatten(pending));
        Cut([], Flatten(before));
      }
      out := Some(got);
    }

    /** One call of recv does to the stream exactly what `Receive` says, for
        every way of cutting the stream into pieces. */
    method Recv() returns (message: Option<seq<byte>>)
      requires Valid()
      modifies `rest, `pending
      ensures Valid()
      ensures match Receive([], old(Stream()))
              case Message(m, left) => message == Some(m) && Stream() == left
              case Ended(left) => message.None? && Stream() == left
    {
      var gathered := [];
      while true
        invariant Valid() && Receive(gathered, Stream()) == Receive([], old(Stream()))
        decreases |Stream()|
      {
        ghost var s := Stream();
        var head := Read(2);
        if head.None? {
          return None;
        }
        var first, n := head.value[0], head.value[1] as nat % 128;
        ghost var extra := [];
        Cut([], Stream());
        if n == 126 {
          var length := Read(2);
          if length.None? {
            return None;
          }
          n := FromBigEndian(length.value);
          extra := length.value;
        } else if n == 127 {
          var length := Read(8);
          if length.None? {
            return None;
          }
          n := FromBigEndian(length.value);
          extra := length.value;
        }
        HeaderInParts(s, head.value, extra, Stream());
        ghost var body := Stream();
        var payload := Read(n);
        if payload.None? {
          return None;
        }
        Cut(payload.value, Stream());
        assert ReadFrame(s) == Some(Received(first, payload.value, Stream()));
        var op := first as nat % 16;
        if op == 8 {
          return None;
        }
        if op == 1 || op == 0 {
          gathered := gathered + payload.value;
        }
        if first >= 128 && (op == 1 || op == 0) {
          return Some(gathered);
        }
      }
    }

    /** The reader thread: it calls recv until that raises. */
    method ReadAll() returns (messages: seq<seq<byte>>)
      requires Valid()
      modifies `rest, `pending
      ensures messages == Messages(old(Stream()))
    {
      messages := [];
      while true
        invariant Valid() && messages + Messages(Stream()) == Messages(old(Stream()))
        decreases |Stream()|
      {
        ReceiveConsumes([], Stream());
        var m := Recv();
        if m.None? {
          break;
        }
        Assoc(messages, [m.value], Messages(Stream()));
        messages := messages + [m.value];
      }
    }

    /** One masked final frame in the shortest form; a length that no form holds
        is refused before anything is sent. */
    method Send(data: seq<byte>, mask: seq<byte>) returns (ok: bool)
      requires |mask| == 4
      modifies `sent
      ensures ok <==> |data| < 0x1_0000_0000_0000_0000
      ensures sent == old(sent) + if ok then ClientFrame(ShortestForm(|data|), data, mask) else []
    {
      var n := |data|;
      var header: seq<byte> := [0x81];
      if n < 126 {
        header := header + [(128 + n) as byte];
      } else if n < 65536 {
        header := header + [254] + ToBigEndian(n, 2);
      } else if n < 0x1_0000_0000_0000_0000 {
        header := header + [255] + ToBigEndian(n, 8);
      } else {
        return false;
      }
      ok := true;
      assert header == HeaderBytes(0x81, true, ShortestForm(n), n);
      sent := sent + (header + mask + Masked(data, mask));
    }
  }
}
