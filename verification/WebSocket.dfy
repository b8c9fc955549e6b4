/** The guest's WebSocket client: sending one masked text frame, and receiving one message that may
    arrive fragmented, in any chunking, with control frames in between (RFC 6455). */
module WebSocket {
  import opened Arith
  import opened Bytes
  import opened Wrappers

  // ---------- frames on the wire (section 5.2 of RFC 6455) ----------

  datatype LengthForm = Short | Medium | Long

  // wire holds the payload as transmitted, still masked where there is a key
  datatype Frame = Frame(fin: bool, opcode: nat, form: LengthForm, key: Option<seq<byte>>, wire: seq<byte>)

  predicate FormFits(form: LengthForm, n: nat) {
    match form
    case Short => n < 126
    case Medium => n < 0x1_0000
    case Long => n < 0x1_0000_0000_0000_0000
  }

  predicate ValidFrame(f: Frame) {
    f.opcode < 16 && FormFits(f.form, |f.wire|) && (f.key.Some? ==> |f.key.value| == 4)
  }

  function LengthCode(form: LengthForm, n: nat): nat
    requires FormFits(form, n)
  {
    match form
    case Short => n
    case Medium => 126
    case Long => 127
  }

  function ExtendedLength(form: LengthForm, n: nat): seq<byte> {
    match form
    case Short => []
    case Medium => Big(n, 2)
    case Long => Big(n, 8)
  }

  function KeyBytes(key: Option<seq<byte>>): seq<byte> {
    match key
    case None => []
    case Some(k) => k
  }

  function Head(f: Frame): seq<byte>
    requires ValidFrame(f)
  {
    [(if f.fin then 128 else 0) + f.opcode, (if f.key.Some? then 128 else 0) + LengthCode(f.form, |f.wire|)]
  }

  function EncodeFrame(f: Frame): seq<byte>
    requires ValidFrame(f)
  {
    Head(f) + (ExtendedLength(f.form, |f.wire|) + (KeyBytes(f.key) + f.wire))
  }

  function EncodeAll(frames: seq<Frame>): seq<byte>
    requires forall f | f in frames :: ValidFrame(f)
  {
    if frames == [] then [] else EncodeFrame(frames[0]) + EncodeAll(frames[1..])
  }

  // ---------- reading one frame ----------

  datatype Parsed = Incomplete | Parsed(fin: bool, opcode: nat, key: Option<seq<byte>>, wire: seq<byte>, end: nat)

  function ExtensionWidth(code: nat): nat {
    if code == 126 then 2 else if code == 127 then 8 else 0
  }

  function DeclaredLength(code: nat, extension: seq<byte>): nat {
    if code == 126 || code == 127 then FromBig(extension) else code
  }

  // The frame that starts at this position of everything the server sends, and where it ends.
  function ParseFrame(s: seq<byte>, pos: nat): (r: Parsed)
    requires pos <= |s|
    ensures r.Parsed? ==> pos + 2 <= r.end <= |s|
  {
    if |s| < pos + 2 then Incomplete else ParseBody(s, pos + 2, s[pos], s[pos + 1])
  }

  function ParseBody(s: seq<byte>, pos: nat, b1: byte, b2: byte): (r: Parsed)
    requires pos <= |s|
    ensures r.Parsed? ==> pos <= r.end <= |s|
  {
    var w := ExtensionWidth(b2 % 128);
    var k := if b2 >= 128 then 4 else 0;
    if |s| < pos + w then Incomplete
    else
      var n := DeclaredLength(b2 % 128, s[pos..pos + w]);
      if |s| < pos + w + k + n then Incomplete
      else
        Parsed(b1 >= 128, b1 % 16, if k == 0 then None else Some(s[pos + w..pos + w + k]),
               s[pos + w + k..pos + w + k + n], pos + w + k + n)
  }

  lemma {:induction false} LengthReadBack(form: LengthForm, n: nat)
    requires FormFits(form, n)
    ensures var (code, ext) := (LengthCode(form, n), ExtendedLength(form, n));
            code < 128 && |ext| == ExtensionWidth(code) && DeclaredLength(code, ext) == n
  {
    Widths();
    if form.Medium? {
      BigRoundTrip(n, 2);
    } else if form.Long? {
      BigRoundTrip(n, 8);
    }
  }

  lemma {:induction false} FramePieces(s: seq<byte>, pos: nat, f: Frame, ext: seq<byte>, key: seq<byte>)
    requires ValidFrame(f) && At(s, pos, EncodeFrame(f))
    requires ext == ExtendedLength(f.form, |f.wire|) && key == KeyBytes(f.key)
    ensures At(s, pos, Head(f)) && At(s, pos + 2, ext)
    ensures At(s, pos + 2 + |ext|, key) && At(s, pos + 2 + |ext| + |key|, f.wire)
    ensures |EncodeFrame(f)| == 2 + |ext| + |key| + |f.wire|
  {
    AtSplit(s, pos, Head(f), ext + (key + f.wire));
    AtSplit(s, pos + 2, ext, key + f.wire);
    AtSplit(s, pos + 2 + |ext|, key, f.wire);
  }

  lemma {:induction false} PiecesReadBack(
    s: seq<byte>, pos: nat, f: Frame, head: seq<byte>, ext: seq<byte>, key: seq<byte>)
    requires ValidFrame(f) && At(s, pos, head) && At(s, pos + 2, ext)
    requires At(s, pos + 2 + |ext|, key) && At(s, pos + 2 + |ext| + |key|, f.wire)
    requires head == Head(f) && ext == ExtendedLength(f.form, |f.wire|) && key == KeyBytes(f.key)
    ensures ParseFrame(s, pos) == Parsed(f.fin, f.opcode, f.key, f.wire, pos + 2 + |ext| + |key| + |f.wire|)
  {
    assert s[pos] == head[0] && s[pos + 1] == head[1] by {
      assert s[pos..pos + 2][0] == s[pos] && s[pos..pos + 2][1] == s[pos + 1];
    }
    LengthReadBack(f.form, |f.wire|);
    BodyReadBack(s, pos + 2, head[0], head[1], ext, key, f);
  }

  lemma {:induction false} FrameReadBack(s: seq<byte>, pos: nat, f: Frame)
    requires ValidFrame(f) && At(s, pos, EncodeFrame(f))
    ensures ParseFrame(s, pos) == Parsed(f.fin, f.opcode, f.key, f.wire, pos + |EncodeFrame(f)|)
  {
    FramePieces(s, pos, f, ExtendedLength(f.form, |f.wire|), KeyBytes(f.key));
    PiecesReadBack(s, pos, f, Head(f), ExtendedLength(f.form, |f.wire|), KeyBytes(f.key));
  }

  lemma {:induction false} BodyReadBack(
    s: seq<byte>, pos: nat, b1: byte, b2: byte, ext: seq<byte>, key: seq<byte>, f: Frame)
    requires At(s, pos, ext) && At(s, pos + |ext|, key) && At(s, pos + |ext| + |key|, f.wire)
    requires key == KeyBytes(f.key) && (f.key.Some? ==> |key| == 4) && (f.key.Some? <==> b2 >= 128)
    requires |ext| == ExtensionWidth(b2 % 128) && DeclaredLength(b2 % 128, ext) == |f.wire|
    requires f.fin == (b1 >= 128) && f.opcode == b1 % 16
    ensures ParseBody(s, pos, b1, b2) == Parsed(f.fin, f.opcode, f.key, f.wire, pos + |ext| + |key| + |f.wire|)
  {
    assert s[pos..pos + |ext|] == ext;
    assert s[pos + |ext|..pos + |ext| + |key|] == key;
    assert s[pos + |ext| + |key|..pos + |ext| + |key| + |f.wire|] == f.wire;
  }

  // ---------- receiving a message ----------

  datatype Outcome = Message(payload: seq<byte>, end: nat) | ConnectionLost | ServerClosed

  // The frame at each position of a stream.
  function Frames(s: seq<byte>): nat -> Parsed {
    (pos: nat) => if pos <= |s| then ParseFrame(s, pos) else Incomplete
  }

  ghost predicate MovesOn(at: nat -> Parsed, limit: nat) {
    forall p: nat | at(p).Parsed? :: p < at(p).end <= limit
  }

  // What one call returns for the frames ahead of it, and the data of the pings it answers on the way.
  ghost function Receive(at: nat -> Parsed, limit: nat, pos: nat, sofar: seq<byte>): (Outcome, seq<seq<byte>>)
    requires MovesOn(at, limit)
    decreases if pos <= limit then limit - pos + 1 else 0
  {
    var p := at(pos);
    if p.Incomplete? then (ConnectionLost, [])
    else if p.opcode == 8 then (ServerClosed, [])
    else if (p.opcode == 1 || p.opcode == 0) && p.fin then (Message(sofar + p.wire, p.end), [])
    else
      var more := if p.opcode == 1 || p.opcode == 0 then sofar + p.wire else sofar;
      var (outcome, pings) := Receive(at, limit, p.end, more);
      (outcome, (if p.opcode == 9 then [p.wire] else []) + pings)
  }

  predicate IsData(f: Frame) { f.opcode == 0 || f.opcode == 1 }

  // Fragments of one message: data frames of which only the last is final, anything but a close between.
  predicate OneMessage(frames: seq<Frame>) {
    && frames != []
    && IsData(frames[|frames| - 1]) && frames[|frames| - 1].fin
    && forall i | 0 <= i < |frames| - 1 ::
         frames[i].opcode != 8 && (IsData(frames[i]) ==> !frames[i].fin)
  }

  function Payload(frames: seq<Frame>): seq<byte> {
    if frames == [] then []
    else (if IsData(frames[0]) then frames[0].wire else []) + Payload(frames[1..])
  }

  function Pings(frames: seq<Frame>): seq<seq<byte>> {
    if frames == [] then [] else (if frames[0].opcode == 9 then [frames[0].wire] else []) + Pings(frames[1..])
  }

  function Extended(f: Frame, sofar: seq<byte>): seq<byte> {
    if IsData(f) then sofar + f.wire else sofar
  }

  // What is left of a call that has answered these pings and gathered this message.
  ghost predicate Left(
    at: nat -> Parsed, limit: nat, pos: nat, sofar: seq<byte>, pings: seq<seq<byte>>, whole: (Outcome, seq<seq<byte>>))
    requires MovesOn(at, limit)
  {
    var rest := Receive(at, limit, pos, sofar);
    whole.0 == rest.0 && whole.1 == pings + rest.1
  }

  // One frame that does not end the call.
  lemma {:induction false} LeftMoves(
    at: nat -> Parsed, limit: nat, pos: nat, sofar: seq<byte>, pings: seq<seq<byte>>, whole: (Outcome, seq<seq<byte>>))
    requires MovesOn(at, limit) && Left(at, limit, pos, sofar, pings, whole)
    ensures var p := at(pos);
            && (p.Parsed? && p.opcode == 9 ==> Left(at, limit, p.end, sofar, pings + [p.wire], whole))
            && (p.Parsed? && (p.opcode == 0 || p.opcode == 1) && !p.fin ==>
                  Left(at, limit, p.end, sofar + p.wire, pings, whole))
            && (p.Parsed? && p.opcode != 0 && p.opcode != 1 && p.opcode != 8 && p.opcode != 9 ==>
                  Left(at, limit, p.end, sofar, pings, whole))
  {
    var p := at(pos);
    if p.Parsed? {
      assert pings + ([p.wire] + Receive(at, limit, p.end, sofar).1)
          == (pings + [p.wire]) + Receive(at, limit, p.end, sofar).1;
      assert [] + Receive(at, limit, p.end, sofar).1 == Receive(at, limit, p.end, sofar).1;
      assert [] + Receive(at, limit, p.end, sofar + p.wire).1 == Receive(at, limit, p.end, sofar + p.wire).1;
    }
  }

  // One frame that does.
  lemma {:induction false} LeftEnds(
    at: nat -> Parsed, limit: nat, pos: nat, sofar: seq<byte>, pings: seq<seq<byte>>, whole: (Outcome, seq<seq<byte>>))
    requires MovesOn(at, limit) && Left(at, limit, pos, sofar, pings, whole)
    ensures var p := at(pos);
            && (p.Incomplete? ==> whole == (ConnectionLost, pings))
            && (p.Parsed? && p.opcode == 8 ==> whole == (ServerClosed, pings))
            && (p.Parsed? && (p.opcode == 0 || p.opcode == 1) && p.fin ==>
                  whole == (Message(sofar + p.wire, p.end), pings))
  {
    assert pings + [] == pings;
  }

  // These frames are what stands from pos to end.
  ghost predicate FramesAt(at: nat -> Parsed, pos: nat, frames: seq<Frame>, end: nat)
    decreases frames
  {
    if frames == [] then pos == end
    else
      var (p, f) := (at(pos), frames[0]);
      p.Parsed? && p.fin == f.fin && p.opcode == f.opcode && p.wire == f.wire && FramesAt(at, p.end, frames[1..], end)
  }

  lemma {:induction false} FirstFrameAt(s: seq<byte>, pos: nat, frames: seq<Frame>)
    requires frames != [] && (forall f | f in frames :: ValidFrame(f)) && At(s, pos, EncodeAll(frames))
    ensures var (p, f) := (ParseFrame(s, pos), frames[0]);
            && p.Parsed? && p.fin == f.fin && p.opcode == f.opcode && p.wire == f.wire
            && p.end == pos + |EncodeFrame(f)| && At(s, p.end, EncodeAll(frames[1..]))
    ensures |EncodeAll(frames)| == |EncodeFrame(frames[0])| + |EncodeAll(frames[1..])|
  {
    assert frames[0] in frames;
    AtSplit(s, pos, EncodeFrame(frames[0]), EncodeAll(frames[1..]));
    FrameReadBack(s, pos, frames[0]);
  }

  lemma {:induction false} FramesJoin(at: nat -> Parsed, pos: nat, frames: seq<Frame>, next: nat, end: nat)
    requires frames != [] && FramesAt(at, next, frames[1..], end)
    requires at(pos).Parsed? && at(pos).fin == frames[0].fin && at(pos).opcode == frames[0].opcode
    requires at(pos).wire == frames[0].wire && at(pos).end == next
    ensures FramesAt(at, pos, frames, end)
  {
  }

  lemma {:induction false} EncodedFramesAt(s: seq<byte>, pos: nat, frames: seq<Frame>, end: nat)
    requires (forall f | f in frames :: ValidFrame(f)) && At(s, pos, EncodeAll(frames))
    requires end == pos + |EncodeAll(frames)|
    ensures FramesAt(Frames(s), pos, frames, end)
    decreases frames
  {
    if frames == [] {
    } else {
      var next := pos + |EncodeFrame(frames[0])|;
      FirstFrameAt(s, pos, frames);
      EncodedFramesAt(s, next, frames[1..], end);
      assert Frames(s)(pos) == ParseFrame(s, pos);
      FramesJoin(Frames(s), pos, frames, next, end);
    }
  }

  lemma {:induction false} PayloadStep(frames: seq<Frame>, sofar: seq<byte>)
    requires frames != []
    ensures sofar + Payload(frames) == Extended(frames[0], sofar) + Payload(frames[1..])
  {
    assert sofar + ((if IsData(frames[0]) then frames[0].wire else []) + Payload(frames[1..]))
        == Extended(frames[0], sofar) + Payload(frames[1..]);
  }

  lemma {:induction false} TailIsOneMessage(frames: seq<Frame>)
    requires OneMessage(frames) && |frames| > 1
    ensures OneMessage(frames[1..])
    ensures frames[0].opcode != 8 && (IsData(frames[0]) ==> !frames[0].fin)
  {
    forall i | 0 <= i < |frames| - 2 ensures frames[1..][i] == frames[i + 1] {
    }
  }

  lemma {:induction false} SingleFrame(frames: seq<Frame>)
    requires |frames| == 1 && OneMessage(frames)
    ensures Payload(frames) == frames[0].wire && Pings(frames) == [] && frames[1..] == []
  {
  }

  lemma {:induction false} ReceiveFrom(
    at: nat -> Parsed, limit: nat, pos: nat, frames: seq<Frame>, end: nat, sofar: seq<byte>)
    requires MovesOn(at, limit) && OneMessage(frames) && FramesAt(at, pos, frames, end)
    ensures Receive(at, limit, pos, sofar) == (Message(sofar + Payload(frames), end), Pings(frames))
    decreases frames
  {
    if |frames| == 1 {
      SingleFrame(frames);
    } else {
      TailIsOneMessage(frames);
      PayloadStep(frames, sofar);
      ReceiveFrom(at, limit, at(pos).end, frames[1..], end, Extended(frames[0], sofar));
    }
  }

  lemma {:induction false} StreamMovesOn(s: seq<byte>)
    ensures MovesOn(Frames(s), |s|)
  {
  }

  ghost function ReceiveText(s: seq<byte>, pos: nat): (Outcome, seq<seq<byte>>) {
    StreamMovesOn(s);
    Receive(Frames(s), |s|, pos, [])
  }

  lemma {:induction false} ReceiveAll(s: seq<byte>, pos: nat, frames: seq<Frame>, end: nat)
    requires OneMessage(frames) && FramesAt(Frames(s), pos, frames, end)
    ensures ReceiveText(s, pos) == (Message(Payload(frames), end), Pings(frames))
  {
    StreamMovesOn(s);
    ReceiveFrom(Frames(s), |s|, pos, frames, end, []);
    assert [] + Payload(frames) == Payload(frames);
  }

  /** However a message is fragmented, whatever length forms carry the pieces and whatever control frames
      come in between, receiving it gives the whole payload, stops exactly after the final fragment and
      answers every ping once, in order. */
  lemma {:induction false} FragmentedMessageReceived(s: seq<byte>, pos: nat, frames: seq<Frame>)
    requires OneMessage(frames) && (forall f | f in frames :: ValidFrame(f)) && At(s, pos, EncodeAll(frames))
    ensures ReceiveText(s, pos) == (Message(Payload(frames), pos + |EncodeAll(frames)|), Pings(frames))
  {
    EncodedFramesAt(s, pos, frames, pos + |EncodeAll(frames)|);
    ReceiveAll(s, pos, frames, pos + |EncodeAll(frames)|);
  }

  // ---------- masking (section 5.3) ----------

  // Exclusive or, bit by bit from the lowest.
  function XorBits(a: nat, b: nat, bits: nat): nat {
    if bits == 0 then 0
    else (if a % 2 == b % 2 then 0 else 1) + 2 * XorBits(a / 2, b / 2, bits - 1)
  }

  lemma {:induction false} XorBitsTwice(a: nat, b: nat, bits: nat, limit: nat)
    requires a < limit && limit == Pow2(bits)
    ensures XorBits(a, b, bits) < limit
    ensures XorBits(XorBits(a, b, bits), b, bits) == a
  {
    if bits == 0 {
    } else {
      XorBitsTwice(a / 2, b / 2, bits - 1, Pow2(bits - 1));
      var x := XorBits(a, b, bits);
      assert x / 2 == XorBits(a / 2, b / 2, bits - 1);
    }
  }

  function Pow2(n: nat): nat {
    if n == 0 then 1 else 2 * Pow2(n - 1)
  }

  // Bit j, counted from the lowest.
  function Bit(n: nat, j: nat): nat {
    Pow2Positive(j);
    n / Pow2(j) % 2
  }

  lemma {:induction false} Pow2Positive(n: nat)
    ensures Pow2(n) > 0
  {
    if n == 0 {
    } else {
      Pow2Positive(n - 1);
    }
  }

  lemma {:induction false} BitBehind(n: nat, j: nat)
    requires j > 0
    ensures Bit(n, j) == Bit(n / 2, j - 1)
  {
    Pow2Positive(j - 1);
    DivTwice(n, 2, Pow2(j - 1));
  }

  lemma {:induction false} XorBit(a: nat, b: nat, bits: nat, j: nat)
    requires j < bits
    ensures Bit(XorBits(a, b, bits), j) == 1 <==> Bit(a, j) != Bit(b, j)
  {
    var x := XorBits(a, b, bits);
    if j == 0 {
      assert Pow2(0) == 1 && x % 2 == if a % 2 == b % 2 then 0 else 1;
    } else {
      assert x / 2 == XorBits(a / 2, b / 2, bits - 1);
      BitBehind(x, j);
      BitBehind(a, j);
      BitBehind(b, j);
      XorBit(a / 2, b / 2, bits - 1, j - 1);
    }
  }

  function Xor(a: byte, b: byte): byte {
    XorBitsTwice(a, b, 8, 256);
    XorBits(a, b, 8)
  }

  lemma {:induction false} XorTwice(a: byte, b: byte)
    ensures Xor(Xor(a, b), b) == a
  {
    XorBitsTwice(a, b, 8, 256);
  }

  function Masked(payload: seq<byte>, key: seq<byte>): seq<byte>
    requires |key| == 4
  {
    seq(|payload|, i requires 0 <= i < |payload| => Xor(payload[i], key[i % 4]))
  }

  lemma {:induction false} MaskTwice(payload: seq<byte>, key: seq<byte>)
    requires |key| == 4
    ensures Masked(Masked(payload, key), key) == payload
  {
    forall i | 0 <= i < |payload| ensures Masked(Masked(payload, key), key)[i] == payload[i] {
      XorTwice(payload[i], key[i % 4]);
    }
  }

  // ---------- sending ----------

  function ShortestForm(n: nat): LengthForm {
    if n < 126 then Short else if n < 0x1_0000 then Medium else Long
  }

  function TextFrame(payload: seq<byte>, key: seq<byte>): seq<byte>
    requires |key| == 4
  {
    [0x81]
    + (if |payload| < 126 then [0x80 + |payload|]
       else if |payload| < 0x1_0000 then [0x80 + 126] + Big(|payload|, 2)
       else [0x80 + 127] + Big(|payload|, 8))
    + key + Masked(payload, key)
  }

  // The number in base 256, the most significant digit first.
  ghost predicate Spells(digits: seq<byte>, n: nat) {
    forall k | 0 <= k < |digits| :: Pow256(k) > 0 && digits[|digits| - 1 - k] == n / Pow256(k) % 256
  }

  // Each bit of the payload is turned where the key byte for it, four of them round and round, has a one.
  ghost predicate Turned(wire: seq<byte>, payload: seq<byte>, key: seq<byte>)
    requires |key| == 4
  {
    && |wire| == |payload|
    && forall i, j: nat | 0 <= i < |wire| && j < 8 :: Bit(wire[i], j) == 1 <==> Bit(payload[i], j) != Bit(key[i % 4], j)
  }

  // The bytes of a final, masked text frame: its first byte, the length in its shortest form behind the mask
  // bit, the key, and the turned payload.
  ghost predicate OnWire(frame: seq<byte>, payload: seq<byte>, key: seq<byte>) {
    var n := |payload|;
    var more := if n < 126 then 0 else if n < 0x1_0000 then 2 else 8;
    && |key| == 4 && |frame| == 6 + more + n
    && frame[0] == 0x81 && frame[1] == 0x80 + (if n < 126 then n else if n < 0x1_0000 then 126 else 127)
    && Spells(frame[2..2 + more], n) && frame[2 + more..6 + more] == key
    && Turned(frame[6 + more..], payload, key)
  }

  lemma {:induction false} BigSpells(n: nat, w: nat)
    ensures Spells(Big(n, w), n)
  {
    forall k | 0 <= k < w ensures Pow256(k) > 0 && Big(n, w)[w - 1 - k] == n / Pow256(k) % 256 {
      BigDigit(n, w, k);
    }
  }

  lemma {:induction false} MaskedTurned(payload: seq<byte>, key: seq<byte>)
    requires |key| == 4
    ensures Turned(Masked(payload, key), payload, key)
  {
    forall i, j: nat | 0 <= i < |payload| && j < 8
      ensures Bit(Masked(payload, key)[i], j) == 1 <==> Bit(payload[i], j) != Bit(key[i % 4], j)
    {
      XorBit(payload[i], key[i % 4], 8, j);
    }
  }

  lemma {:induction false} Sliced(a: byte, b: byte, length: seq<byte>, key: seq<byte>, wire: seq<byte>)
    requires |key| == 4
    ensures var frame := [a] + ([b] + length) + key + wire;
            && |frame| == 6 + |length| + |wire| && frame[0] == a && frame[1] == b
            && frame[2..2 + |length|] == length && frame[2 + |length|..6 + |length|] == key
            && frame[6 + |length|..] == wire
  {
  }

  /** What is sent, byte by byte and bit by bit. */
  lemma {:induction false} SentOnWire(payload: seq<byte>, key: seq<byte>)
    requires |key| == 4 && |payload| < 0x1_0000_0000_0000_0000
    ensures OnWire(TextFrame(payload, key), payload, key)
  {
    var n := |payload|;
    var more := if n < 126 then 0 else if n < 0x1_0000 then 2 else 8;
    var code := 0x80 + (if n < 126 then n else if n < 0x1_0000 then 126 else 127);
    BigSpells(n, more);
    MaskedTurned(payload, key);
    Sliced(0x81, code, Big(n, more), key, Masked(payload, key));
    assert [code] + [] == [code];
  }

  // What a server makes of a client's frame: the payload with the mask taken off.
  function Unmasked(p: Parsed): Option<seq<byte>>
    requires p.Parsed? && (p.key.Some? ==> |p.key.value| == 4)
  {
    if p.key.Some? then Some(Masked(p.wire, p.key.value)) else None
  }

  /** Every sent frame is a final masked text frame that decodes to exactly its payload, in the shortest
      length form there is for it. */
  lemma {:induction false} SentFrameDecodes(s: seq<byte>, pos: nat, payload: seq<byte>, key: seq<byte>)
    requires |key| == 4 && |payload| < 0x1_0000_0000_0000_0000 && At(s, pos, TextFrame(payload, key))
    ensures var p := ParseFrame(s, pos);
            && p == Parsed(true, 1, Some(key), Masked(payload, key), pos + |TextFrame(payload, key)|)
            && Unmasked(p) == Some(payload)
    ensures forall form | FormFits(form, |payload|) ::
              |TextFrame(payload, key)| <= |EncodeFrame(Frame(true, 1, form, Some(key), Masked(payload, key)))|
  {
    var f := Frame(true, 1, ShortestForm(|payload|), Some(key), Masked(payload, key));
    assert TextFrame(payload, key) == EncodeFrame(f);
    FrameReadBack(s, pos, f);
    MaskTwice(payload, key);
  }

  // ---------- the socket ----------

  // a pong as this client sends it: final, opcode 10, masked and empty
  ghost predicate IsPong(b: seq<byte>) {
    |b| == 6 && b[..2] == [0x8a, 0x80]
  }

  // The pong carries the application data of the ping, as section 5.5.3 asks.
  ghost predicate Echoes(pong: seq<byte>, ping: seq<byte>)
    requires IsPong(pong)
  {
    PongParsed(pong);
    Unmasked(ParseFrame(pong, 0)) == Some(ping)
  }

  /** Every pong sent is a final, masked frame without payload. */
  lemma {:induction false} PongParsed(pong: seq<byte>)
    requires IsPong(pong)
    ensures ParseFrame(pong, 0) == Parsed(true, 10, Some(pong[2..]), [], 6)
  {
    assert pong[0] == pong[..2][0] && pong[1] == pong[..2][1];
    assert pong[2..2 + 0] == [] && pong[2 + 0..2 + 0 + 4] == pong[2..];
    assert pong[2 + 0 + 4..2 + 0 + 4 + 0] == [];
  }

  /** So it echoes the data of a ping if and only if the ping has none. */
  lemma {:induction false} EchoesExactly(pong: seq<byte>, ping: seq<byte>)
    requires IsPong(pong)
    ensures Echoes(pong, ping) <==> ping == []
  {
    PongParsed(pong);
  }

  // The k-th pong answers the k-th ping, and echoes it exactly when there is nothing to echo.
  ghost predicate Answered(pongs: seq<seq<byte>>, pings: seq<seq<byte>>) {
    && |pongs| == |pings|
    && forall k | 0 <= k < |pongs| :: IsPong(pongs[k]) && (Echoes(pongs[k], pings[k]) <==> pings[k] == [])
  }

  lemma {:induction false} AnsweredOne(pongs: seq<seq<byte>>, pings: seq<seq<byte>>, pong: seq<byte>, ping: seq<byte>)
    requires Answered(pongs, pings) && IsPong(pong)
    ensures Answered(pongs + [pong], pings + [ping])
  {
    EchoesExactly(pong, ping);
  }

  datatype Failure = MidFrame | Close

  class Socket {
    const stream: seq<byte>  // everything the server sends before it hangs up
    var pos: nat             // how much of it has been received
    var sent: seq<seq<byte>>  // one element for each send

    ghost predicate Valid()
      reads this
    {
      pos <= |stream|
    }

    constructor (stream: seq<byte>)
      ensures Valid() && this.stream == stream && pos == 0 && sent == []
    {
      this.stream := stream;
      pos, sent := 0, [];
    }

    // The network hands over any non-empty piece, or nothing once the connection is gone.
    method Recv(n: nat) returns (chunk: seq<byte>)
      requires Valid() && n > 0
      modifies this`pos
      ensures Valid() && pos == old(pos) + |chunk| && |chunk| <= n
      ensures chunk == stream[old(pos)..pos]
      ensures chunk == [] <==> old(pos) == |stream|
    {
      if pos == |stream| {
        return [];
      }
      var k: nat :| 1 <= k <= n && pos + k <= |stream|;
      chunk := stream[pos..pos + k];
      pos := pos + k;
    }

    method SendAll(bytes: seq<byte>)
      modifies this`sent
      ensures sent == old(sent) + [bytes]
    {
      sent := sent + [bytes];
    }

    method RecvExact(n: nat) returns (r: Result<seq<byte>, Failure>)
      requires Valid()
      modifies this`pos
      ensures Valid()
      ensures r.Ok? <==> old(pos) + n <= |stream|
      ensures r.Ok? ==> pos == old(pos) + n && r.value == stream[old(pos)..pos]
      ensures r.Err? ==> r.error == MidFrame
    {
      var buf: seq<byte> := [];
      while |buf| < n
        invariant |buf| <= n && Valid() && pos == old(pos) + |buf| && buf == stream[old(pos)..pos]
      {
        var chunk := Recv(n - |buf|);
        if chunk == [] {
          return Err(MidFrame);
        }
        buf := buf + chunk;
      }
      return Ok(buf);
    }

    method RandomMask() returns (mask: seq<byte>)
      ensures |mask| == 4
    {
      var a: byte, b: byte, c: byte, d: byte := *, *, *, *;
      mask := [a, b, c, d];
    }

    method SendText(payload: seq<byte>)
      requires |payload| < 0x1_0000_0000_0000_0000
      modifies this`sent
      ensures exists key: seq<byte> | |key| == 4 ::
                sent == old(sent) + [TextFrame(payload, key)] && OnWire(sent[|old(sent)|], payload, key)
    {
      var mask: seq<byte> := RandomMask();
      var header: seq<byte> := [0x81];
      var n := |payload|;
      if n < 126 {
        header := header + [0x80 + n];
      } else if n < 0x1_0000 {
        header := header + ([0x80 + 126] + Big(n, 2));
      } else {
        header := header + ([0x80 + 127] + Big(n, 8));
      }
      SendAll(header + mask + Masked(payload, mask));
      SentOnWire(payload, mask);
      assert sent[|old(sent)|] == TextFrame(payload, mask);
    }

    // One frame off the wire, as the receive loop reads it piece by piece.
    method RecvFrame() returns (r: Result<(bool, nat, seq<byte>), Failure>)
      requires Valid()
      modifies this`pos
      ensures Valid()
      ensures var p := Frames(stream)(old(pos));
              && (r.Ok? <==> p.Parsed?)
              && (r.Ok? ==> r.value == (p.fin, p.opcode, p.wire) && pos == p.end)
      ensures r.Err? ==> r.error == MidFrame
    {
      var head :- RecvExact(2);
      var n := head[1] % 128;
      if n == 126 {
        var ext :- RecvExact(2);
        n := FromBig(ext);
      } else if n == 127 {
        var ext :- RecvExact(8);
        n := FromBig(ext);
      }
      if head[1] >= 128 {
        var _ :- RecvExact(4);
      }
      var data :- RecvExact(n);
      return Ok((head[0] >= 128, head[0] % 16, data));
    }

    method RecvText() returns (r: Result<seq<byte>, Failure>, ghost pongs: seq<seq<byte>>)
      requires Valid()
      modifies this
      ensures Valid()
      ensures sent == old(sent) + pongs
      ensures Answered(pongs, ReceiveText(stream, old(pos)).1)
      ensures match ReceiveText(stream, old(pos)).0
              case Message(payload, end) => r == Ok(payload) && pos == end
              case ConnectionLost => r == Err(MidFrame)
              case ServerClosed => r == Err(Close)
    {
      StreamMovesOn(stream);
      ghost var at, whole := Frames(stream), ReceiveText(stream, pos);
      pongs := [];
      ghost var pings: seq<seq<byte>> := [];
      var message: seq<byte> := [];
      while true
        invariant Valid() && Left(at, |stream|, pos, message, pings, whole)
        invariant sent == old(sent) + pongs && Answered(pongs, pings)
        decreases |stream| - pos
      {
        LeftEnds(at, |stream|, pos, message, pings, whole);
        LeftMoves(at, |stream|, pos, message, pings, whole);
        var f := RecvFrame();
        if f.Err? {
          return Err(f.error), pongs;
        }
        var (fin, opcode, data) := f.value;
        if opcode == 8 {
          return Err(Close), pongs;
        }
        if opcode == 9 {
          var pong := SendPong();
          AnsweredOne(pongs, pings, pong, data);
          pongs, pings := pongs + [pong], pings + [data];
          continue;
        }
        if opcode == 1 || opcode == 0 {
          message := message + data;
          if fin {
            return Ok(message), pongs;
          }
        }
      }
    }

    method SendPong() returns (pong: seq<byte>)
      requires Valid()
      modifies this`sent
      ensures Valid() && IsPong(pong) && sent == old(sent) + [pong]
    {
      var mask := RandomMask();
      pong := [0x8a] + [0x80] + mask;
      SendAll(pong);
    }
  }
}
