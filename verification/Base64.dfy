/** The standard base64 encoding, section 4 of RFC 4648. */
module Base64 {
  import opened Bytes

  type Sextet = v: int | 0 <= v < 64

  const PAD: Byte := 0x3d
  const SPACE: Byte := 0x20

  /** The ASCII code of a symbol: letters, digits, plus and slash. */
  function Symbol(v: Sextet): Byte {
    if v < 26 then 0x41 + v
    else if v < 52 then 0x61 + v - 26
    else if v < 62 then 0x30 + v - 52
    else if v == 62 then 0x2b
    else 0x2f
  }

  function Value(c: Byte): Option<Sextet> {
    if 0x41 <= c <= 0x5a then Some(c - 0x41)
    else if 0x61 <= c <= 0x7a then Some(c - 0x61 + 26)
    else if 0x30 <= c <= 0x39 then Some(c - 0x30 + 52)
    else if c == 0x2b then Some(62)
    else if c == 0x2f then Some(63)
    else None
  }

  /** Each symbol has its own value. */
  lemma SymbolValue(v: Sextet)
    ensures Value(Symbol(v)) == Some(v) && Symbol(v) != PAD && Symbol(v) != SPACE
  {
  }

  function Sextets(a: Byte, b: Byte, c: Byte): (Sextet, Sextet, Sextet, Sextet) {
    (a / 4, a % 4 * 16 + b / 16, b % 16 * 4 + c / 64, c % 64)
  }

  function Group(a: Byte, b: Byte, c: Byte): seq<Byte> {
    var q := Sextets(a, b, c);
    [Symbol(q.0), Symbol(q.1), Symbol(q.2), Symbol(q.3)]
  }

  function Encode64(b: seq<Byte>): seq<Byte> {
    if |b| == 0 then []
    else if |b| == 1 then Group(b[0], 0, 0)[..2] + [PAD, PAD]
    else if |b| == 2 then Group(b[0], b[1], 0)[..3] + [PAD]
    else Group(b[0], b[1], b[2]) + Encode64(b[3..])
  }

  /** A reader that accepts padding only in the last group. */
  function Decode64(s: seq<Byte>): Option<seq<Byte>> {
    if |s| == 0 then Some([])
    else if |s| < 4 then None
    else
      var w, x := Value(s[0]), Value(s[1]);
      if w.None? || x.None? then None
      else
        var a: Byte := w.value * 4 + x.value / 16;
        if s[2] == PAD then
          if s[3] == PAD && |s| == 4 && x.value % 16 == 0 then Some([a]) else None
        else
          var y := Value(s[2]);
          if y.None? then None
          else
            var b: Byte := x.value % 16 * 16 + y.value / 4;
            if s[3] == PAD then
              if |s| == 4 && y.value % 4 == 0 then Some([a, b]) else None
            else
              var z := Value(s[3]);
              if z.None? then None
              else
                match Decode64(s[4..])
                case None => None
                case Some(rest) => Some([a, b, y.value % 4 * 64 + z.value] + rest)
  }

  lemma GroupReads(a: Byte, b: Byte, c: Byte, rest: seq<Byte>)
    ensures Decode64(Group(a, b, c) + rest) == match Decode64(rest) case None => None case Some(t) => Some([a, b, c] + t)
  {
    hide Symbol, Value, Sextets;
    GroupValues(a, b, c);
    SextetsJoin(a, b, c);
    var s := Group(a, b, c) + rest;
    assert s[..4] == Group(a, b, c) && s[4..] == rest;
    hide Group;
  }

  lemma PairReads(a: Byte, b: Byte)
    ensures Decode64(Group(a, b, 0)[..3] + [PAD]) == Some([a, b])
  {
    hide Symbol, Value, Sextets;
    GroupValues(a, b, 0);
    SextetsJoin(a, b, 0);
    hide Group;
  }

  lemma SingleReads(a: Byte)
    ensures Decode64(Group(a, 0, 0)[..2] + [PAD, PAD]) == Some([a])
  {
    hide Symbol, Value, Sextets;
    GroupValues(a, 0, 0);
    SextetsJoin(a, 0, 0);
    hide Group;
  }

  lemma GroupValues(a: Byte, b: Byte, c: Byte)
    ensures var g, q := Group(a, b, c), Sextets(a, b, c);
            && |g| == 4 && Value(g[0]) == Some(q.0) && Value(g[1]) == Some(q.1) && Value(g[2]) == Some(q.2) && Value(g[3]) == Some(q.3)
            && PAD !in g && SPACE !in g
  {
    hide Symbol, Value, Sextets;
    var q := Sextets(a, b, c);
    SymbolValue(q.0);
    SymbolValue(q.1);
    SymbolValue(q.2);
    SymbolValue(q.3);
  }

  /** Decoding undoes encoding on every byte string. */
  lemma {:induction false} Base64RoundTrip(b: seq<Byte>)
    ensures Decode64(Encode64(b)) == Some(b)
    decreases |b|
  {
    hide Group, Decode64;
    if |b| == 0 {
      assert Decode64([]) == Some([]) by { NothingReads(); }
    } else if |b| == 1 {
      SingleReads(b[0]);
      assert b == [b[0]];
    } else if |b| == 2 {
      PairReads(b[0], b[1]);
      assert b == [b[0], b[1]];
    } else {
      GroupReads(b[0], b[1], b[2], Encode64(b[3..]));
      Base64RoundTrip(b[3..]);
      assert [b[0], b[1], b[2]] + b[3..] == b;
    }
  }

  lemma NothingReads()
    ensures Decode64([]) == Some([])
  {
  }

  lemma SextetsJoin(a: Byte, b: Byte, c: Byte)
    ensures var q := Sextets(a, b, c);
            && q.0 * 4 + q.1 / 16 == a && q.1 % 16 * 16 + q.2 / 4 == b && q.2 % 4 * 64 + q.3 == c
    ensures b == 0 ==> Sextets(a, b, c).1 % 16 == 0
    ensures c == 0 ==> Sextets(a, b, c).2 % 4 == 0
  {
  }

  /** An encoding holds no space, so it ends at the first one that follows. */
  lemma {:induction false} NoSpaceInside(b: seq<Byte>)
    ensures SPACE !in Encode64(b) && |Encode64(b)| == (|b| + 2) / 3 * 4
    decreases |b|
  {
    hide Group;
    if |b| == 1 {
      GroupValues(b[0], 0, 0);
    } else if |b| == 2 {
      GroupValues(b[0], b[1], 0);
    } else if |b| >= 3 {
      GroupValues(b[0], b[1], b[2]);
      NoSpaceInside(b[3..]);
    }
    hide Value, Sextets;
  }

  // ---- the alphabet and the grouping of RFC 4648 -------------------------

  /** Table 1: A to Z, a to z, 0 to 9, plus and slash, in this order. */
  lemma Alphabet(v: Sextet)
    ensures Symbol(0) as char == 'A' && Symbol(26) as char == 'a' && Symbol(52) as char == '0'
    ensures Symbol(62) as char == '+' && Symbol(63) as char == '/'
    ensures v < 61 && v != 25 && v != 51 ==> Symbol(v + 1) == Symbol(v) + 1
  {
  }

  /** Three bytes and four symbol values are the same 24 bits. */
  lemma SameBits(a: Byte, b: Byte, c: Byte)
    ensures var q := Sextets(a, b, c);
            (a as int * 0x100 + b as int) * 0x100 + c as int == ((q.0 as int * 64 + q.1 as int) * 64 + q.2 as int) * 64 + q.3 as int
  {
    SextetsJoin(a, b, c);
  }

  /** The first group of an encoding, with zeros for missing bytes and an equals sign for
      each symbol they would have; the other groups follow. */
  lemma FirstGroup(b: seq<Byte>)
    requires |b| > 0
    ensures var q := Sextets(b[0], if |b| > 1 then b[1] else 0, if |b| > 2 then b[2] else 0);
            var e := Encode64(b);
            && |e| >= 4 && e[0] == Symbol(q.0) && e[1] == Symbol(q.1)
            && e[2] == (if |b| > 1 then Symbol(q.2) else PAD) && e[3] == (if |b| > 2 then Symbol(q.3) else PAD)
            && e[4..] == Encode64(if |b| > 3 then b[3..] else []) && PAD as char == '='
  {
    if |b| == 3 { assert b[3..] == []; }
    hide Symbol, Sextets;
  }
}
