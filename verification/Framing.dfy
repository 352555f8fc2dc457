/** The ADB message format of protocol/message.go: a 24-byte header and a payload. */
module Framing {
  import opened Bytes

  const HEADER_LEN := 24

  const CNXN: U32 := 0x4e58_4e43
  const AUTH: U32 := 0x4854_5541
  const OPEN: U32 := 0x4e45_504f
  const OKAY: U32 := 0x5941_4b4f
  const CLSE: U32 := 0x4553_4c43
  const WRTE: U32 := 0x4554_5257

  const AUTH_TOKEN: U32 := 1
  const AUTH_SIGNATURE: U32 := 2
  const AUTH_RSA_PUBLIC_KEY: U32 := 3

  datatype Message = Message(command: U32, arg0: U32, arg1: U32, payload: seq<Byte>)

  /** Why a read failed: the two ends of file of io.ReadFull, a failing
      transport, or one of the two header checks. */
  datatype ReadError = Eof | UnexpectedEof | Broken | BadMagic | BadChecksum

  /** The outcome of reading one message, with the input left unread. */
  datatype Decoded =
    | Accepted(msg: Message, rest: seq<Byte>)
    | Rejected(error: ReadError, rest: seq<Byte>)

  function Sum(payload: seq<Byte>): nat {
    if |payload| == 0 then 0 else Sum(payload[..|payload| - 1]) + payload[|payload| - 1]
  }

  function Checksum(payload: seq<Byte>): U32 {
    Wrap32(Sum(payload))
  }

  /** The exclusive or of a 32-bit command with all ones is its complement. */
  function Magic(command: U32): U32 {
    0xffff_ffff - command
  }

  /** A message can be framed faithfully when its length fits the length field. */
  predicate Framable(m: Message) {
    |m.payload| < TWO32
  }

  /** The six 32-bit words of a header. */
  function Word(m: Message, i: nat): U32
    requires i < 6
  {
    if i == 0 then m.command
    else if i == 1 then m.arg0
    else if i == 2 then m.arg1
    else if i == 3 then Wrap32(|m.payload|)
    else if i == 4 then Checksum(m.payload)
    else Magic(m.command)
  }

  function Header(m: Message): seq<Byte> {
    seq(HEADER_LEN, i requires 0 <= i < HEADER_LEN => ByteOf(Word(m, i / 4), i % 4))
  }

  function Encode(m: Message): seq<Byte> {
    Header(m) + m.payload
  }

  function EncodeAll(ms: seq<Message>): seq<Byte> {
    if |ms| == 0 then [] else Encode(ms[0]) + EncodeAll(ms[1..])
  }

  function Field(header: seq<Byte>, i: nat): U32
    requires |header| == HEADER_LEN && i < 6
  {
    FromLe32(header[4 * i..4 * i + 4])
  }

  function Decode(s: seq<Byte>): Decoded {
    if |s| < HEADER_LEN then
      Rejected(if s == [] then Eof else UnexpectedEof, [])
    else
      var header, body := s[..HEADER_LEN], s[HEADER_LEN..];
      var length := Field(header, 3);
      if Field(header, 5) != Magic(Field(header, 0)) then
        Rejected(BadMagic, body)
      else if |body| < length then
        Rejected(if body == [] then Eof else UnexpectedEof, [])
      else if Checksum(body[..length]) != Field(header, 4) then
        Rejected(BadChecksum, body[length..])
      else
        Accepted(Message(Field(header, 0), Field(header, 1), Field(header, 2), body[..length]), body[length..])
  }

  /** Every message of s up to the first failing read, and the bytes left there. */
  function DecodeAll(s: seq<Byte>): (r: (seq<Message>, seq<Byte>))
    decreases |s|
  {
    match Decode(s)
    case Accepted(msg, rest) =>
      AcceptedIsEncoding(s);
      var (later, tail) := DecodeAll(rest);
      ([msg] + later, tail)
    case Rejected(_, _) => ([], s)
  }

  /** The checksum is the sum of the bytes modulo 2^32, however they are split. */
  lemma {:induction false} ChecksumOfParts(a: seq<Byte>, b: seq<Byte>)
    ensures Checksum(a + b) == (Checksum(a) + Checksum(b)) % TWO32
    decreases |b|
  {
    SumOfParts(a, b);
    hide Sum;
    assert (Sum(a) + Sum(b)) % TWO32 == (Sum(a) % TWO32 + Sum(b) % TWO32) % TWO32;
  }

  lemma {:induction false} SumOfParts(a: seq<Byte>, b: seq<Byte>)
    ensures Sum(a + b) == Sum(a) + Sum(b)
    decreases |b|
  {
    if |b| == 0 {
      assert a + b == a;
    } else {
      var s := a + b;
      assert s[..|s| - 1] == a + b[..|b| - 1] && s[|s| - 1] == b[|b| - 1];
      SumOfParts(a, b[..|b| - 1]);
    }
  }

  lemma ChecksumOfByte(b: Byte)
    ensures Checksum([b]) == b && Checksum([]) == 0
  {
    assert [b][..0] == [];
    assert Sum([b]) == Sum([b][..0]) + b;
  }

  /** The magic word has every bit of the command reversed. */
  lemma MagicReversesBits(c: U32)
    ensures var a, b := Le32(c), Le32(Magic(c));
            |a| == 4 && |b| == 4 && b == [0xff - a[0], 0xff - a[1], 0xff - a[2], 0xff - a[3]]
  {
    Le32Layout(c);
    var a := Le32(c);
    var d: seq<Byte> := [0xff - a[0], 0xff - a[1], 0xff - a[2], 0xff - a[3]];
    hide Le32;
    assert FromLe32(d) == Magic(c);
    FromLe32RoundTrip(d);
  }

  /** Byte by byte: six words, each with its lowest byte first, and the payload. */
  lemma MessageLayout(m: Message)
    ensures var e := Encode(m);
            && |e| == 24 + |m.payload| && e[24..] == m.payload
            && e[0..4] == Le32(m.command) && e[4..8] == Le32(m.arg0) && e[8..12] == Le32(m.arg1)
            && e[12..16] == Le32(|m.payload| % TWO32) && e[16..20] == Le32(Checksum(m.payload)) && e[20..24] == Le32(Magic(m.command))
  {
    var h := Header(m);
    forall i | 0 <= i < 6 ensures h[4 * i..4 * i + 4] == Le32(Word(m, i)) { WordBytes(m, i); }
    assert h[4 * 0..4 * 0 + 4] == Le32(Word(m, 0)) && h[4 * 1..4 * 1 + 4] == Le32(Word(m, 1)) && h[4 * 2..4 * 2 + 4] == Le32(Word(m, 2));
    assert h[4 * 3..4 * 3 + 4] == Le32(Word(m, 3)) && h[4 * 4..4 * 4 + 4] == Le32(Word(m, 4)) && h[4 * 5..4 * 5 + 4] == Le32(Word(m, 5));
    hide Header, Checksum, Le32, Magic;
    EncodeCuts(m);
  }

  lemma WordBytes(m: Message, i: nat)
    requires i < 6
    ensures Header(m)[4 * i..4 * i + 4] == Le32(Word(m, i))
  {
    hide Word, ByteOf;
  }

  lemma EncodeCuts(m: Message)
    ensures var e, h := Encode(m), Header(m);
            && |h| == 24 && |e| == 24 + |m.payload| && e[24..] == m.payload
            && e[0..4] == h[0..4] && e[4..8] == h[4..8] && e[8..12] == h[8..12]
            && e[12..16] == h[12..16] && e[16..20] == h[16..20] && e[20..24] == h[20..24]
  {
    assert |Header(m)| == 24;
    hide Header;
  }

  /** The commands are their names. */
  lemma CommandsAreNames()
    ensures Le32(CNXN) == [0x43, 0x4e, 0x58, 0x4e] && Le32(AUTH) == [0x41, 0x55, 0x54, 0x48]
    ensures Le32(OPEN) == [0x4f, 0x50, 0x45, 0x4e] && Le32(OKAY) == [0x4f, 0x4b, 0x41, 0x59]
    ensures Le32(CLSE) == [0x43, 0x4c, 0x53, 0x45] && Le32(WRTE) == [0x57, 0x52, 0x54, 0x45]
  {
  }

  lemma HeaderFields(m: Message, i: nat)
    requires i < 6
    ensures |Header(m)| == HEADER_LEN && Field(Header(m), i) == Word(m, i)
  {
    Le32RoundTrip(Word(m, i));
    assert Header(m)[4 * i..4 * i + 4] == Le32(Word(m, i));
  }

  /** A header is determined by its six words. */
  lemma HeaderOfFields(h: seq<Byte>, m: Message)
    requires |h| == HEADER_LEN
    requires forall i :: 0 <= i < 6 ==> Field(h, i) == Word(m, i)
    ensures h == Header(m)
  {
    forall j | 0 <= j < HEADER_LEN ensures h[j] == ByteOf(Word(m, j / 4), j % 4) {
      HeaderByte(h, j);
      assert Field(h, j / 4) == Word(m, j / 4);
      hide Field, Word, ByteOf;
    }
    hide Field, Word, ByteOf;
  }

  lemma HeaderByte(h: seq<Byte>, j: nat)
    requires |h| == HEADER_LEN && j < HEADER_LEN
    ensures h[j] == ByteOf(Field(h, j / 4), j % 4)
  {
    var i := j / 4;
    var b := h[4 * i..4 * i + 4];
    FromLe32RoundTrip(b);
    assert Le32(FromLe32(b))[j % 4] == b[j % 4];
    hide FromLe32;
  }

  /** Reading a written message gives it back, with the rest of the input
      untouched, exactly when the payload length fits in 32 bits. */
  lemma DecodeOfEncode(m: Message, rest: seq<Byte>)
    ensures Decode(Encode(m) + rest) == Accepted(m, rest) <==> Framable(m)
  {
    forall i | 0 <= i < 6 ensures Field(Header(m), i) == Word(m, i) { HeaderFields(m, i); }
    hide Header, Field, Checksum;
    var s := Encode(m) + rest;
    assert s[..HEADER_LEN] == Header(m);
    assert s[HEADER_LEN..] == m.payload + rest;
    if Framable(m) {
      assert (m.payload + rest)[..|m.payload|] == m.payload;
      assert (m.payload + rest)[|m.payload|..] == rest;
    }
  }

  /** Whatever a read accepts is byte for byte what a write of the result emits. */
  lemma AcceptedIsEncoding(s: seq<Byte>)
    requires Decode(s).Accepted?
    ensures s == Encode(Decode(s).msg) + Decode(s).rest
    ensures Framable(Decode(s).msg) && |Decode(s).rest| < |s|
  {
    hide Header, Field, Checksum;
    var h, m := s[..HEADER_LEN], Decode(s).msg;
    HeaderOfFields(h, m);
    assert s == h + s[HEADER_LEN..];
    assert s[HEADER_LEN..] == m.payload + Decode(s).rest;
  }

  /** A cut message is never accepted. The failure is a plain end of file when
      the cut is before the first byte and also when it is just after the header. */
  lemma ProperPrefixFails(m: Message, k: nat)
    requires Framable(m) && k < |Encode(m)|
    ensures Decode(Encode(m)[..k]) == Rejected(if k == 0 || k == HEADER_LEN then Eof else UnexpectedEof, [])
  {
    hide Encode, Header, Field, Checksum, Magic;
    var s := Encode(m)[..k];
    EncodeLength(m);
    if k >= HEADER_LEN {
      CutBody(m, k - HEADER_LEN);
      HeaderHead(m);
      CutAfterHeader(s, m, k - HEADER_LEN);
      hide Decode;
    }
  }

  lemma EncodeLength(m: Message)
    ensures |Encode(m)| == HEADER_LEN + |m.payload|
  {
  }

  lemma HeaderHead(m: Message)
    ensures |Header(m)| == HEADER_LEN
    ensures Field(Header(m), 0) == m.command && Field(Header(m), 3) == Wrap32(|m.payload|) && Field(Header(m), 5) == Magic(m.command)
  {
    HeaderFields(m, 0);
    HeaderFields(m, 3);
    HeaderFields(m, 5);
  }

  lemma CutAfterHeader(s: seq<Byte>, m: Message, k: nat)
    requires |s| == HEADER_LEN + k && k < |m.payload| && Framable(m)
    requires var h := s[..HEADER_LEN]; Field(h, 5) == Magic(Field(h, 0)) && Field(h, 3) == |m.payload|
    ensures Decode(s) == Rejected(if k == 0 then Eof else UnexpectedEof, [])
  {
    hide Field, Checksum;
    assert |s[HEADER_LEN..]| == k;
  }

  lemma CutBody(m: Message, k: nat)
    requires k <= |m.payload|
    ensures Encode(m)[..HEADER_LEN + k][..HEADER_LEN] == Header(m)
    ensures Encode(m)[..HEADER_LEN + k][HEADER_LEN..] == m.payload[..k]
  {
    assert |Header(m)| == HEADER_LEN;
    hide Header;
  }

  ghost predicate AllFramable(ms: seq<Message>) {
    forall i :: 0 <= i < |ms| ==> Framable(ms[i])
  }

  lemma Joined(a: seq<Byte>, b: seq<Byte>, c: seq<Byte>)
    ensures a + (b + c) == (a + b) + c
  {
  }

  lemma {:induction false} EncodeAllAppend(a: seq<Message>, b: seq<Message>)
    ensures EncodeAll(a + b) == EncodeAll(a) + EncodeAll(b)
  {
    hide Encode;
    if |a| == 0 {
      assert a + b == b;
    } else {
      EncodeAllAppend(a[1..], b);
      assert (a + b)[1..] == a[1..] + b && (a + b)[0] == a[0];
      Joined(Encode(a[0]), EncodeAll(a[1..]), EncodeAll(b));
    }
  }

  lemma EncodeAllSnoc(a: seq<Message>, m: Message)
    ensures EncodeAll(a + [m]) == EncodeAll(a) + Encode(m)
  {
    EncodeAllAppend(a, [m]);
    assert [m][1..] == [];
  }

  /** A written list of messages is read back whole, whatever follows it. */
  lemma {:induction false} DecodeAllOfEncodeAll(ms: seq<Message>, rest: seq<Byte>)
    requires AllFramable(ms)
    ensures DecodeAll(EncodeAll(ms) + rest) == (ms + DecodeAll(rest).0, DecodeAll(rest).1)
  {
    hide Encode, Decode;
    if |ms| == 0 {
      assert EncodeAll(ms) + rest == rest;
      assert ms + DecodeAll(rest).0 == DecodeAll(rest).0;
    } else {
      var s := EncodeAll(ms) + rest;
      var tail := EncodeAll(ms[1..]) + rest;
      assert s == Encode(ms[0]) + tail;
      DecodeOfEncode(ms[0], tail);
      DecodeAllOfEncodeAll(ms[1..], rest);
      assert ms + DecodeAll(rest).0 == [ms[0]] + (ms[1..] + DecodeAll(rest).0);
    }
  }

  /** Reading loses nothing: the messages read re-encode to the bytes consumed. */
  lemma {:induction false} DecodeAllIsEncoding(s: seq<Byte>)
    ensures s == EncodeAll(DecodeAll(s).0) + DecodeAll(s).1
    ensures AllFramable(DecodeAll(s).0) && Decode(DecodeAll(s).1).Rejected?
    decreases |s|
  {
    if Decode(s).Accepted? {
      AcceptedIsEncoding(s);
      DecodeAllIsEncoding(Decode(s).rest);
      var ms := DecodeAll(s).0;
      assert ms[1..] == DecodeAll(Decode(s).rest).0;
    }
  }

  /** Two message lists never share an encoding. */
  lemma EncodeAllInjective(a: seq<Message>, b: seq<Message>)
    requires AllFramable(a) && AllFramable(b)
    requires EncodeAll(a) == EncodeAll(b)
    ensures a == b
  {
    DecodeAllOfEncodeAll(a, []);
    DecodeAllOfEncodeAll(b, []);
    assert EncodeAll(a) + [] == EncodeAll(a) && EncodeAll(b) + [] == EncodeAll(b);
    assert a + [] == a && b + [] == b;
  }
}
