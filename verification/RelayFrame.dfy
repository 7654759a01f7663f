/** Relay datagrams (internal/transport/frame.go). */
module RelayFrame {
  import opened GoStrings
  import opened Buffers

  datatype FrameType = Hello | Packet | Deliver

  datatype Frame = Frame(kind: FrameType, token: Str, payload: Str)

  datatype Error = TooShort | BadVersion | BadType | Malformed | TokenTooLong

  datatype Result<+T> = Ok(value: T) | Err(error: Error)

  const VERSION: byte := 1
  const MAX_TOKEN_BYTES := 512

  function TypeByte(t: FrameType): byte {
    match t case Hello => 1 case Packet => 2 case Deliver => 3
  }

  function TypeOf(b: byte): Option<FrameType> {
    if b == 1 then Some(Hello) else if b == 2 then Some(Packet) else if b == 3 then Some(Deliver) else None
  }

  /** The datagram of a frame. */
  function Bytes(f: Frame): Str
    requires |f.token| <= MAX_TOKEN_BYTES
  {
    [VERSION, TypeByte(f.kind)] + Be16(|f.token|) + f.token + f.payload
  }

  /** `marshal`: the buffer is filled by index. */
  method Marshal(t: FrameType, token: Str, payload: Str) returns (r: Result<Str>)
    ensures r.Err? <==> |token| > MAX_TOKEN_BYTES
    ensures r.Err? ==> r.error == TokenTooLong
    ensures r.Ok? ==> r.value == Bytes(Frame(t, token, payload))
  {
    if |token| > MAX_TOKEN_BYTES || |token| > 0xFFFF { return Err(TokenTooLong); }
    var b := new byte[4 + |token| + |payload|];
    b[0] := VERSION;
    b[1] := TypeByte(t);
    CopyAt(b, 2, Be16(|token|));
    assert b[..4] == [VERSION, TypeByte(t)] + Be16(|token|);
    CopyAt(b, 4, token);
    CopyAt(b, 4 + |token|, payload);
    r := Ok(b[..]);
  }

  function ParseFrame(b: Str): Result<Frame> {
    if |b| < 4 then Err(TooShort)
    else if b[0] != VERSION then Err(BadVersion)
    else match TypeOf(b[1])
      case None => Err(BadType)
      case Some(t) =>
        var tokenLen := FromBe16(b[2..4]);
        if tokenLen > MAX_TOKEN_BYTES || 4 + tokenLen > |b| then Err(Malformed)
        else if t == Deliver && tokenLen != 0 then Err(Malformed)
        else Ok(Frame(t, b[4..4 + tokenLen], b[4 + tokenLen..]))
  }

  /** The frames the relay accepts are those it can write, and it reads back what was written. */
  predicate Sendable(f: Frame) {
    |f.token| <= MAX_TOKEN_BYTES && (f.kind == Deliver ==> f.token == [])
  }

  lemma ParseUndoesMarshal(f: Frame)
    requires Sendable(f)
    ensures ParseFrame(Bytes(f)) == Ok(f)
  {
    var b := Bytes(f);
    var n := |f.token|;
    assert b == [VERSION, TypeByte(f.kind)] + Be16(n) + (f.token + f.payload);
    assert b[2..4] == Be16(n);
    Be16RoundTrip(n, []);
    assert b[4..4 + n] == f.token && b[4 + n..] == f.payload;
  }

  /** A datagram is accepted only if it is the marshalled form of the frame read. */
  lemma ParseAcceptsOnlyMarshalled(b: Str)
    requires ParseFrame(b).Ok?
    ensures Sendable(ParseFrame(b).value) && b == Bytes(ParseFrame(b).value)
  {
    var f := ParseFrame(b).value;
    Be16RoundTrip(0, b[2..4]);
    assert b == b[..2] + b[2..4] + b[4..4 + |f.token|] + b[4 + |f.token|..];
  }
}
