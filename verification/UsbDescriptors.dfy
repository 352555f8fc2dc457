/** The scan for ADB interfaces in raw USB descriptors, against a specification in
    two stages: cut the bytes into descriptors, then look at interface blocks. */
module UsbDescriptors {
  import opened Bytes

  const DEVICE: Byte := 1
  const CONFIGURATION: Byte := 2
  const INTERFACE: Byte := 4
  const ENDPOINT: Byte := 5

  predicate WellFormed(d: seq<Byte>) {
    |d| >= 2 && d[0] as int == |d| && (d[1] == DEVICE ==> |d| >= 18)
  }

  type Descriptor = d: seq<Byte> | WellFormed(d) witness [2, 0]

  /** Where the device is, which the caller knows. */
  datatype Location = Location(path: string, bus: int, device: int)

  datatype Candidate = Candidate(
    location: Location, vendor: nat, product: nat, number: Byte, bulkIn: Byte, bulkOut: Byte)

  datatype Error =
    | NoData
    | ZeroLength(offset: nat)
    | TooLong(offset: nat, length: nat)
    | DeviceTooShort(offset: nat, length: nat)
    | IndexOutOfRange(offset: nat)   // the type byte of a descriptor of length one

  // ---- stage one: descriptors --------------------------------------------

  /** What is wrong with the descriptor at an offset, in the order of the checks. */
  function Fault(data: seq<Byte>, offset: nat): Option<Error>
    requires offset < |data|
  {
    var length := data[offset] as int;
    if length == 0 then Some(ZeroLength(offset))
    else if offset + length > |data| then Some(TooLong(offset, length))
    else if length == 1 then Some(IndexOutOfRange(offset))
    else if data[offset + 1] == DEVICE && length < 18 then Some(DeviceTooShort(offset, length))
    else None
  }

  /** The descriptors from an offset on. */
  function Split(data: seq<Byte>, offset: nat): (r: Result<seq<Descriptor>, Error>)
    requires offset <= |data|
    decreases |data| - offset
  {
    if offset == |data| then Ok([])
    else
      match Fault(data, offset)
      case Some(e) => Err(e)
      case None =>
        var next := offset + data[offset] as int;
        var d: Descriptor := data[offset..next];
        match Split(data, next)
        case Err(e) => Err(e)
        case Ok(rest) => Ok([d] + rest)
  }

  /** Cutting succeeds exactly on a concatenation of well-formed descriptors, and
      finds those descriptors. */
  lemma {:induction false} SplitIsFlat(data: seq<Byte>, offset: nat)
    requires offset <= |data|
    ensures Split(data, offset).Ok? ==>
      Flat(Split(data, offset).value) == data[offset..]
    decreases |data| - offset
  {
    if Split(data, offset).Ok? && offset < |data| {
      var next := offset + data[offset] as int;
      SplitIsFlat(data, next);
      var ds := Split(data, offset).value;
      assert ds[1..] == Split(data, next).value;
      assert data[offset..] == data[offset..next] + data[next..];
    }
  }

  lemma {:induction false} SplitOfFlat(data: seq<Byte>, offset: nat, ds: seq<Descriptor>)
    requires offset <= |data| && Flat(ds) == data[offset..]
    ensures Split(data, offset) == Ok(ds)
    decreases |ds|
  {
    if |ds| > 0 {
      var d := ds[0];
      assert Flat(ds)[..|d|] == d;
      assert data[offset] == d[0] && data[offset + 1] == d[1];
      var next := offset + |d|;
      assert data[offset..next] == d;
      assert data[next..] == Flat(ds[1..]) by { assert data[offset..][|d|..] == data[next..]; }
      SplitOfFlat(data, next, ds[1..]);
      assert ds == [d] + ds[1..];
    }
  }

  /** Cutting fails exactly when some well-formed descriptors are followed by a
      faulty one, and with that one's fault. */
  lemma {:induction false} SplitFailsAt(data: seq<Byte>, offset: nat, e: Error)
    requires offset <= |data|
    ensures Split(data, offset) == Err(e) <==>
      exists ds: seq<Descriptor> :: FaultAfter(data, offset, ds, e)
    decreases |data| - offset
  {
    hide FaultAfter, Flat;
    if offset < |data| && Fault(data, offset) == None {
      var next := offset + data[offset] as int;
      var d: Descriptor := data[offset..next];
      SplitFailsAt(data, next, e);
      if Split(data, offset) == Err(e) {
        var ds: seq<Descriptor> :| FaultAfter(data, next, ds, e);
        FaultyLonger(data, offset, d, ds, e);
        assert FaultAfter(data, offset, [d] + ds, e);
      }
      if ds: seq<Descriptor> :| FaultAfter(data, offset, ds, e) {
        FirstOfFaulty(data, offset, ds, e);
        assert FaultAfter(data, next, ds[1..], e);
      }
    } else if offset < |data| {
      if Split(data, offset) == Err(e) {
        FaultyAtOnce(data, offset, e);
      }
      if ds: seq<Descriptor> :| FaultAfter(data, offset, ds, e) {
        FirstOfFaulty(data, offset, ds, e);
      }
    } else if ds: seq<Descriptor> :| FaultAfter(data, offset, ds, e) {
      FaultInside(data, offset, ds, e);
    }
  }

  lemma FaultInside(data: seq<Byte>, offset: nat, ds: seq<Descriptor>, e: Error)
    requires FaultAfter(data, offset, ds, e)
    ensures offset < |data|
  {
  }

  /** Well-formed descriptors ds start at offset, and the next one has fault e. */
  predicate FaultAfter(data: seq<Byte>, offset: nat, ds: seq<Descriptor>, e: Error) {
    && offset + |Flat(ds)| < |data|
    && data[offset..offset + |Flat(ds)|] == Flat(ds)
    && Fault(data, offset + |Flat(ds)|) == Some(e)
  }

  lemma FaultyLonger(data: seq<Byte>, offset: nat, d: Descriptor, ds: seq<Descriptor>, e: Error)
    requires offset + |d| <= |data| && data[offset..offset + |d|] == d && FaultAfter(data, offset + |d|, ds, e)
    ensures FaultAfter(data, offset, [d] + ds, e)
  {
    var next := offset + |d|;
    var u: seq<seq<Byte>> := [d] + ds;
    assert u[1..] == ds;
    assert Flat(u) == d + Flat(ds);
    assert data[offset..next + |Flat(ds)|] == d + data[next..next + |Flat(ds)|];
    hide Fault;
  }

  lemma FaultyAtOnce(data: seq<Byte>, offset: nat, e: Error)
    requires offset < |data| && Fault(data, offset) == Some(e)
    ensures FaultAfter(data, offset, [], e)
  {
    assert data[offset..offset] == [];
    hide Fault;
  }

  /** A well-formed descriptor in the data has no fault. */
  lemma FirstIsFine(data: seq<Byte>, offset: nat, ds: seq<Descriptor>)
    requires |ds| > 0 && offset + |Flat(ds)| <= |data| && data[offset..offset + |Flat(ds)|] == Flat(ds)
    ensures Fault(data, offset) == None && data[offset] as int == |ds[0]|
    ensures data[offset..offset + |ds[0]|] == ds[0]
    ensures data[offset + |ds[0]|..offset + |Flat(ds)|] == Flat(ds[1..])
  {
    var d, n := ds[0], |Flat(ds)|;
    assert Flat(ds)[..|d|] == d && Flat(ds)[|d|..] == Flat(ds[1..]);
    assert data[offset..offset + n][..|d|] == data[offset..offset + |d|];
    assert data[offset..offset + n][|d|..] == data[offset + |d|..offset + n];
    assert data[offset..offset + |d|][0] == data[offset] && data[offset..offset + |d|][1] == data[offset + 1];
  }

  lemma FirstOfFaulty(data: seq<Byte>, offset: nat, ds: seq<Descriptor>, e: Error)
    requires offset < |data| && FaultAfter(data, offset, ds, e)
    ensures Fault(data, offset) == None ==> |ds| > 0 && FaultAfter(data, offset + data[offset] as int, ds[1..], e)
    ensures Fault(data, offset) != None ==> Fault(data, offset) == Some(e)
  {
    if |ds| > 0 { FirstIsFine(data, offset, ds); }
  }

  // ---- stage two: interface blocks ---------------------------------------

  /** parseInterfaceDescriptor and isADBInterface. */
  predicate OpensBlock(d: Descriptor)
  {
    d[1] == INTERFACE && |d| >= 9 && d[5] == 0xff && d[6] == 0x42 && d[7] == 0x01
  }

  predicate EndsBlock(d: Descriptor)
  {
    d[1] == INTERFACE || d[1] == CONFIGURATION
  }

  /** parseEndpointDescriptor and isBulkEndpoint. */
  predicate IsBulk(d: Descriptor)
  {
    d[1] == ENDPOINT && |d| >= 7 && d[3] % 4 == 2
  }

  predicate IsIn(address: Byte) {
    address >= 0x80
  }

  /** The first block-ending descriptor from i on, or the end of the list. */
  function BlockEnd(ds: seq<Descriptor>, i: nat): (r: nat)
    requires i <= |ds|
    ensures i <= r <= |ds|
    ensures forall j :: i <= j < r ==> !EndsBlock(ds[j])
    ensures r < |ds| ==> EndsBlock(ds[r])
    decreases |ds| - i
  {
    if i == |ds| || EndsBlock(ds[i]) then i else BlockEnd(ds, i + 1)
  }

  /** The last bulk address of one direction in ds[lo..hi], or 0. */
  function LastBulk(ds: seq<Descriptor>, lo: nat, hi: nat, inward: bool): Byte
    requires lo <= hi <= |ds|
    decreases hi
  {
    if lo == hi then 0
    else if IsBulk(ds[hi - 1]) && IsIn(ds[hi - 1][2]) == inward then ds[hi - 1][2]
    else LastBulk(ds, lo, hi - 1, inward)
  }

  function Le16(d: Descriptor, at: nat): nat
    requires at + 1 < |d|
  {
    d[at] as int + 0x100 * d[at + 1] as int
  }

  /** A field of the last device descriptor of a list, or 0. */
  function LastDeviceField(ds: seq<Descriptor>, at: nat): nat
    requires at <= 16
  {
    if |ds| == 0 then 0
    else if ds[|ds| - 1][1] == DEVICE then Le16(ds[|ds| - 1], at)
    else LastDeviceField(ds[..|ds| - 1], at)
  }

  /** What the block opened at i contributes. */
  function BlockCandidates(l: Location, ds: seq<Descriptor>, i: nat): seq<Candidate>
    requires i < |ds|
  {
    if !OpensBlock(ds[i]) then []
    else
      var end := BlockEnd(ds, i + 1);
      var bulkIn, bulkOut := LastBulk(ds, i + 1, end, true), LastBulk(ds, i + 1, end, false);
      if bulkIn == 0 || bulkOut == 0 then []
      else [Candidate(l, LastDeviceField(ds[..end], 8), LastDeviceField(ds[..end], 10), ds[i][2], bulkIn, bulkOut)]
  }

  /** The candidates of the blocks opened before n, in order. */
  function Candidates(l: Location, ds: seq<Descriptor>, n: nat): seq<Candidate>
    requires n <= |ds|
  {
    if n == 0 then [] else Candidates(l, ds, n - 1) + BlockCandidates(l, ds, n - 1)
  }

  function Parsed(l: Location, data: seq<Byte>): Result<seq<Candidate>, Error> {
    if |data| < 2 then Err(NoData)
    else
      match Split(data, 0)
      case Err(e) => Err(e)
      case Ok(ds) => Ok(Candidates(l, ds, |ds|))
  }

  /** The same as above, as a statement about descriptors rather than offsets. */
  lemma ParsedOfDescriptors(l: Location, ds: seq<Descriptor>)
    requires ds != []
    ensures Parsed(l, Flat(ds)) == Ok(Candidates(l, ds, |ds|))
  {
    assert |Flat(ds)| >= |ds[0]|;
    assert Flat(ds)[0..] == Flat(ds);
    SplitOfFlat(Flat(ds), 0, ds);
  }

  /** The scan panics exactly when well-formed descriptors are followed by one whose
      length byte is one. */
  lemma PanicsExactly(l: Location, data: seq<Byte>, offset: nat)
    ensures Parsed(l, data) == Err(IndexOutOfRange(offset)) <==>
      && |data| >= 2 && offset < |data| && data[offset] == 1
      && exists ds: seq<Descriptor> :: Flat(ds) == data[..offset]
  {
    var e := IndexOutOfRange(offset);
    if |data| >= 2 {
      SplitFailsAt(data, 0, e);
      if ds: seq<Descriptor> :| FaultAfter(data, 0, ds, e) {
        assert Flat(ds) == data[..offset];
      }
      if offset < |data| && data[offset] == 1 {
        if ds: seq<Descriptor> :| Flat(ds) == data[..offset] {
          assert FaultAfter(data, 0, ds, e);
        }
      }
    }
  }

  // ---- the bits and bytes that make a candidate --------------------------

  predicate IsBulkOf(d: Descriptor, inward: bool) {
    IsBulk(d) && IsIn(d[2]) == inward
  }

  /** It is the address in the last bulk endpoint of its direction, if there is one. */
  lemma {:induction false} LastBulkIsLast(ds: seq<Descriptor>, lo: nat, hi: nat, inward: bool)
    requires lo <= hi <= |ds|
    ensures || (LastBulk(ds, lo, hi, inward) == 0 && forall j :: lo <= j < hi ==> !IsBulkOf(ds[j], inward))
            || (exists i :: lo <= i < hi && IsBulkOf(ds[i], inward) && LastBulk(ds, lo, hi, inward) == ds[i][2]
                  && forall j :: i < j < hi ==> !IsBulkOf(ds[j], inward))
    decreases hi
  {
    if lo < hi {
      if IsBulkOf(ds[hi - 1], inward) {
        assert LastBulk(ds, lo, hi, inward) == ds[hi - 1][2];
      } else {
        LastBulkIsLast(ds, lo, hi - 1, inward);
      }
    }
  }

  /** It is the field of the last device descriptor, if there is one. */
  lemma {:induction false} LastDeviceIsLast(ds: seq<Descriptor>, at: nat)
    requires at <= 16
    ensures || (LastDeviceField(ds, at) == 0 && forall j :: 0 <= j < |ds| ==> ds[j][1] != DEVICE)
            || (exists i :: 0 <= i < |ds| && ds[i][1] == DEVICE && LastDeviceField(ds, at) == Le16(ds[i], at)
                  && forall j :: i < j < |ds| ==> ds[j][1] != DEVICE)
  {
    if |ds| > 0 && ds[|ds| - 1][1] != DEVICE {
      var init := ds[..|ds| - 1];
      LastDeviceIsLast(init, at);
      assert forall j :: 0 <= j < |init| ==> init[j] == ds[j];
      if i :| 0 <= i < |init| && init[i][1] == DEVICE && LastDeviceField(init, at) == Le16(init[i], at)
                && forall j :: i < j < |init| ==> init[j][1] != DEVICE {
        assert ds[i][1] == DEVICE && LastDeviceField(ds, at) == Le16(ds[i], at);
      }
    }
  }

  function Bit(b: Byte, k: nat): nat {
    if k == 0 then b % 2 else Bit(b / 2, k - 1)
  }

  /** A bulk endpoint has transfer type binary 10 in the two lowest bits of its fourth
      byte; an IN endpoint has the highest bit of its address set. */
  lemma EndpointBits(d: Descriptor)
    ensures IsBulk(d) <==> d[1] == 5 && |d| >= 7 && Bit(d[3], 1) == 1 && Bit(d[3], 0) == 0
    ensures |d| >= 3 ==> (IsIn(d[2]) <==> Bit(d[2], 7) == 1)
  {
    if |d| > 3 { LowBits(d[3]); }
    if |d| > 2 { HighBit(d[2]); }
    hide Bit;
  }

  lemma LowBits(b: Byte)
    ensures Bit(b, 1) == 1 && Bit(b, 0) == 0 <==> b % 4 == 2
  {
    assert Bit(b, 1) == b / 2 % 2 && Bit(b, 0) == b % 2;
  }

  lemma FourBits(b: Byte, k: nat)
    ensures Bit(b, k + 4) == Bit(b / 16, k)
  {
    var b1: Byte := b / 2;
    var b2: Byte := b1 / 2;
    var b3: Byte := b2 / 2;
    assert Bit(b, k + 4) == Bit(b1, k + 3) && Bit(b1, k + 3) == Bit(b2, k + 2);
    assert Bit(b2, k + 2) == Bit(b3, k + 1) && Bit(b3, k + 1) == Bit(b3 / 2, k);
    assert b3 / 2 == b / 16;
  }

  lemma HighBit(b: Byte)
    ensures Bit(b, 7) == 1 <==> b >= 0x80
  {
    FourBits(b, 3);
    var c: Byte := b / 16;
    var d: Byte := c / 2;
    var e: Byte := d / 2;
    assert Bit(c, 3) == Bit(d, 2) && Bit(d, 2) == Bit(e, 1) && Bit(e, 1) == Bit(e / 2, 0);
    assert e / 2 == b / 128;
  }

  /** Main result. A device descriptor, a configuration, an interface of class 0xff,
      subclass 0x42 and protocol 1, and a bulk endpoint each way, whatever their other
      bytes, are read as exactly one candidate, with the IDs, the interface number and
      the two addresses that stand in them. */
  lemma AdbInterfaceIsFound(l: Location, dev: Descriptor, conf: Descriptor, face: Descriptor, into: Descriptor, out: Descriptor)
    requires dev[1] == 1 && conf[1] == 2
    requires face[1] == 4 && |face| >= 9 && face[5] == 0xff && face[6] == 0x42 && face[7] == 0x01
    requires into[1] == 5 && |into| >= 7 && Bit(into[3], 1) == 1 && Bit(into[3], 0) == 0 && Bit(into[2], 7) == 1
    requires out[1] == 5 && |out| >= 7 && Bit(out[3], 1) == 1 && Bit(out[3], 0) == 0 && Bit(out[2], 7) == 0 && out[2] != 0
    ensures Parsed(l, Flat([dev, conf, face, into, out])) ==
      Ok([Candidate(l, dev[8] as int + 0x100 * dev[9] as int, dev[10] as int + 0x100 * dev[11] as int, face[2], into[2], out[2])])
  {
    var ds: seq<Descriptor> := [dev, conf, face, into, out];
    EndpointBits(into);
    EndpointBits(out);
    hide Bit, Parsed, Flat;
    ParsedOfDescriptors(l, ds);
    OneBlock(l, ds);
  }

  lemma OneBlock(l: Location, ds: seq<Descriptor>)
    requires |ds| == 5 && ds[0][1] == DEVICE && ds[1][1] == CONFIGURATION && OpensBlock(ds[2])
    requires IsBulk(ds[3]) && IsIn(ds[3][2]) && IsBulk(ds[4]) && !IsIn(ds[4][2]) && ds[4][2] != 0
    ensures Candidates(l, ds, 5) == [Candidate(l, Le16(ds[0], 8), Le16(ds[0], 10), ds[2][2], ds[3][2], ds[4][2])]
  {
    BlockOf(l, ds);
    NotOpening(l, ds, 0);
    NotOpening(l, ds, 1);
    NotOpening(l, ds, 3);
    NotOpening(l, ds, 4);
    hide BlockCandidates, OpensBlock;
    assert Candidates(l, ds, 2) == [] by { assert Candidates(l, ds, 1) == []; }
    assert Candidates(l, ds, 3) == BlockCandidates(l, ds, 2);
    assert Candidates(l, ds, 4) == BlockCandidates(l, ds, 2);
  }

  lemma NotOpening(l: Location, ds: seq<Descriptor>, i: nat)
    requires i < |ds|
    ensures !OpensBlock(ds[i]) ==> BlockCandidates(l, ds, i) == []
    ensures ds[i][1] != INTERFACE ==> !OpensBlock(ds[i])
  {
    hide BlockEnd, LastBulk, LastDeviceField;
  }

  lemma BlockOf(l: Location, ds: seq<Descriptor>)
    requires |ds| == 5 && ds[0][1] == DEVICE && ds[1][1] == CONFIGURATION && OpensBlock(ds[2])
    requires IsBulk(ds[3]) && IsIn(ds[3][2]) && IsBulk(ds[4]) && !IsIn(ds[4][2]) && ds[4][2] != 0
    ensures BlockCandidates(l, ds, 2) == [Candidate(l, Le16(ds[0], 8), Le16(ds[0], 10), ds[2][2], ds[3][2], ds[4][2])]
  {
    assert BlockEnd(ds, 3) == 5;
    assert LastBulk(ds, 3, 5, false) == ds[4][2];
    assert LastBulk(ds, 3, 4, true) == ds[3][2];
    assert LastBulk(ds, 3, 5, true) == ds[3][2];
    assert ds[..5] == ds;
    DeviceFirst(ds);
    hide LastDeviceField, BlockEnd, LastBulk;
  }

  /** A list that starts with a device descriptor and has no other has its fields. */
  lemma {:induction false} DeviceFirst(ds: seq<Descriptor>)
    requires |ds| > 0 && ds[0][1] == DEVICE && forall i :: 1 <= i < |ds| ==> ds[i][1] != DEVICE
    ensures LastDeviceField(ds, 8) == Le16(ds[0], 8) && LastDeviceField(ds, 10) == Le16(ds[0], 10)
  {
    if |ds| > 1 { DeviceFirst(ds[..|ds| - 1]); }
  }

  // ---- every candidate can be opened -------------------------------------

  /** validateBulkCandidate. */
  predicate Openable(c: Candidate) {
    c.location.path != "" && IsIn(c.bulkIn) && !IsIn(c.bulkOut)
  }

  lemma {:induction false} LastBulkDirection(ds: seq<Descriptor>, lo: nat, hi: nat, inward: bool)
    requires lo <= hi <= |ds|
    ensures LastBulk(ds, lo, hi, inward) != 0 ==> IsIn(LastBulk(ds, lo, hi, inward)) == inward
    decreases hi
  {
    if lo < hi { LastBulkDirection(ds, lo, hi - 1, inward); }
  }

  /** Every candidate has two endpoints of the right directions, neither of them the
      control endpoint: it is openable exactly when the caller gave a path. */
  lemma {:induction false} CandidatesOpenable(l: Location, ds: seq<Descriptor>, n: nat)
    requires n <= |ds|
    ensures forall c :: c in Candidates(l, ds, n) ==>
      c.bulkOut != 0 && c.bulkIn != 0 && (Openable(c) <==> l.path != "")
  {
    if n > 0 {
      CandidatesOpenable(l, ds, n - 1);
      if OpensBlock(ds[n - 1]) {
        LastBulkDirection(ds, n, BlockEnd(ds, n), true);
        LastBulkDirection(ds, n, BlockEnd(ds, n), false);
      }
    }
  }

  // ---- the one-pass scan -------------------------------------------------

  /** The interface being built: its block's start, and the addresses so far. */
  datatype Builder = Builder(number: Byte, bulkIn: Byte, bulkOut: Byte)

  /** The blocks opened before n are over. */
  predicate Closed(ds: seq<Descriptor>, n: nat)
    requires n <= |ds|
  {
    forall i {:trigger ds[i]} :: 0 <= i < n && OpensBlock(ds[i]) ==> BlockEnd(ds, i + 1) < |ds|
  }

  lemma {:induction false} BlockEndExtends(ds: seq<Descriptor>, d: Descriptor, i: nat)
    requires i <= |ds|
    ensures BlockEnd(ds + [d], i) == if BlockEnd(ds, i) < |ds| || EndsBlock(d) then BlockEnd(ds, i) else |ds| + 1
    decreases |ds| - i
  {
    var u := ds + [d];
    assert u[|ds|] == d;
    if i < |ds| {
      assert u[i] == ds[i];
      if !EndsBlock(ds[i]) { BlockEndExtends(ds, d, i + 1); }
    }
  }

  lemma {:induction false} LastBulkExtends(ds: seq<Descriptor>, d: Descriptor, lo: nat, hi: nat, inward: bool)
    requires lo <= hi <= |ds|
    ensures LastBulk(ds + [d], lo, hi, inward) == LastBulk(ds, lo, hi, inward)
    decreases hi
  {
    if lo < hi { LastBulkExtends(ds, d, lo, hi - 1, inward); }
  }

  lemma BlockExtends(l: Location, ds: seq<Descriptor>, d: Descriptor, i: nat)
    requires i < |ds|
    requires OpensBlock(ds[i]) ==> BlockEnd(ds, i + 1) < |ds| || EndsBlock(d)
    ensures BlockCandidates(l, ds + [d], i) == BlockCandidates(l, ds, i)
  {
    if OpensBlock(ds[i]) {
      var end := BlockEnd(ds, i + 1);
      BlockEndExtends(ds, d, i + 1);
      LastBulkExtends(ds, d, i + 1, end, true);
      LastBulkExtends(ds, d, i + 1, end, false);
      assert (ds + [d])[..end] == ds[..end];
    }
  }

  lemma {:induction false} CandidatesExtend(l: Location, ds: seq<Descriptor>, d: Descriptor, n: nat)
    requires n <= |ds|
    requires forall i {:trigger ds[i]} :: 0 <= i < n && OpensBlock(ds[i]) ==> BlockEnd(ds, i + 1) < |ds| || EndsBlock(d)
    ensures Candidates(l, ds + [d], n) == Candidates(l, ds, n)
  {
    if n > 0 {
      CandidatesExtend(l, ds, d, n - 1);
      BlockExtends(l, ds, d, n - 1);
    }
  }

  datatype Scan = Scan(active: Option<Builder>, vendor: nat, product: nat, candidates: seq<Candidate>)

  /** What flush appends. */
  function Flushed(l: Location, s: Scan): seq<Candidate> {
    match s.active
    case None => []
    case Some(b) =>
      if b.bulkIn != 0 && b.bulkOut != 0 then [Candidate(l, s.vendor, s.product, b.number, b.bulkIn, b.bulkOut)] else []
  }

  /** What one descriptor does to the state of the scan. */
  function Seen(l: Location, s: Scan, d: Descriptor): Scan {
    if EndsBlock(d) then
      Scan(if OpensBlock(d) then Some(Builder(d[2], 0, 0)) else None, s.vendor, s.product, s.candidates + Flushed(l, s))
    else if d[1] == DEVICE then
      s.(vendor := Le16(d, 8), product := Le16(d, 10))
    else if s.active.Some? && IsBulk(d) then
      s.(active := Some(if IsIn(d[2]) then s.active.value.(bulkIn := d[2]) else s.active.value.(bulkOut := d[2])))
    else s
  }

  /** The state of the scan after the descriptors ds: the block opened at `start` is
      still running, if there is a builder, and every other block is over. */
  ghost predicate Scanned(l: Location, ds: seq<Descriptor>, start: nat, s: Scan) {
    && s.vendor == LastDeviceField(ds, 8) && s.product == LastDeviceField(ds, 10)
    && match s.active
       case None => Closed(ds, |ds|) && s.candidates == Candidates(l, ds, |ds|)
       case Some(b) =>
         && start < |ds| && OpensBlock(ds[start]) && b.number == ds[start][2]
         && BlockEnd(ds, start + 1) == |ds|
         && b.bulkIn == LastBulk(ds, start + 1, |ds|, true)
         && b.bulkOut == LastBulk(ds, start + 1, |ds|, false)
         && Closed(ds, start) && s.candidates == Candidates(l, ds, start)
  }

  lemma OpenBlockGoesOn(l: Location, ds: seq<Descriptor>, start: nat, s: Scan, d: Descriptor)
    requires Scanned(l, ds, start, s) && s.active.Some? && !EndsBlock(d)
    ensures Scanned(l, ds + [d], start, Seen(l, s, d))
  {
    hide Candidates, LastDeviceField, BlockEnd, Closed, LastBulk;
    var u := ds + [d];
    DeviceExtends(ds, d);
    BlockEndExtends(ds, d, start + 1);
    assert u[|ds|] == d && u[start] == ds[start];
    LastBulkSnoc(ds, d, start + 1, true);
    LastBulkSnoc(ds, d, start + 1, false);
    ClosedExtends(ds, d, start);
    StillClosed(ds, d, start);
    CandidatesExtend(l, ds, d, start);
  }

  lemma StillClosed(ds: seq<Descriptor>, d: Descriptor, n: nat)
    requires n <= |ds| && Closed(ds, n)
    ensures forall i {:trigger ds[i]} :: 0 <= i < n && OpensBlock(ds[i]) ==> BlockEnd(ds, i + 1) < |ds| || EndsBlock(d)
  {
    hide BlockEnd;
  }

  lemma LastBulkSnoc(ds: seq<Descriptor>, d: Descriptor, lo: nat, inward: bool)
    requires lo <= |ds|
    ensures LastBulk(ds + [d], lo, |ds| + 1, inward) == if IsBulk(d) && IsIn(d[2]) == inward then d[2] else LastBulk(ds, lo, |ds|, inward)
  {
    LastBulkExtends(ds, d, lo, |ds|, inward);
    assert (ds + [d])[|ds|] == d;
  }

  lemma DeviceExtends(ds: seq<Descriptor>, d: Descriptor)
    ensures LastDeviceField(ds + [d], 8) == if d[1] == DEVICE then Le16(d, 8) else LastDeviceField(ds, 8)
    ensures LastDeviceField(ds + [d], 10) == if d[1] == DEVICE then Le16(d, 10) else LastDeviceField(ds, 10)
  {
    assert (ds + [d])[..|ds|] == ds;
  }

  lemma ClosedExtends(ds: seq<Descriptor>, d: Descriptor, n: nat)
    requires n <= |ds| && (Closed(ds, n) || EndsBlock(d))
    ensures Closed(ds + [d], n)
  {
    forall i | 0 <= i < n && OpensBlock(ds[i]) ensures BlockEnd(ds + [d], i + 1) < |ds| + 1 {
      BlockEndExtends(ds, d, i + 1);
    }
  }

  lemma NoBlockGoesOn(l: Location, ds: seq<Descriptor>, start: nat, s: Scan, d: Descriptor)
    requires Scanned(l, ds, start, s) && s.active.None? && !EndsBlock(d)
    ensures Scanned(l, ds + [d], start, Seen(l, s, d))
  {
    var u := ds + [d];
    DeviceExtends(ds, d);
    ClosedExtends(ds, d, |ds|);
    CandidatesExtend(l, ds, d, |ds|);
    assert u[|ds|] == d;
    assert BlockCandidates(l, u, |ds|) == [];
    hide LastDeviceField, BlockEnd, EndsBlock;
  }

  lemma FlushCompletes(l: Location, ds: seq<Descriptor>, start: nat, s: Scan)
    requires Scanned(l, ds, start, s)
    ensures Candidates(l, ds, |ds|) == s.candidates + Flushed(l, s)
  {
    if s.active.Some? {
      assert ds[..|ds|] == ds;
      NoOpening(l, ds, start + 1, |ds|);
      assert BlockCandidates(l, ds, start) == Flushed(l, s);
    }
  }

  lemma {:induction false} NoOpening(l: Location, ds: seq<Descriptor>, lo: nat, hi: nat)
    requires lo <= hi <= |ds| && forall j :: lo <= j < hi ==> !EndsBlock(ds[j])
    ensures Candidates(l, ds, hi) == Candidates(l, ds, lo)
    decreases hi
  {
    if lo < hi {
      NoOpening(l, ds, lo, hi - 1);
      assert !EndsBlock(ds[hi - 1]);
      assert BlockCandidates(l, ds, hi - 1) == [];
    }
    hide BlockCandidates;
  }

  lemma BlockEnds(l: Location, ds: seq<Descriptor>, start: nat, s: Scan, d: Descriptor)
    requires Scanned(l, ds, start, s) && EndsBlock(d)
    ensures Scanned(l, ds + [d], |ds|, Seen(l, s, d))
  {
    var u := ds + [d];
    DeviceExtends(ds, d);
    FlushCompletes(l, ds, start, s);
    CandidatesExtend(l, ds, d, |ds|);
    ClosedExtends(ds, d, |ds|);
    assert u[|ds|] == d && |u| == |ds| + 1;
    assert BlockEnd(u, |u|) == |u|;
    hide LastDeviceField, BlockCandidates, Flushed;
    if !OpensBlock(d) {
      assert BlockCandidates(l, u, |ds|) == [];
      assert Closed(u, |u|);
    }
  }

  lemma ScannedStep(l: Location, ds: seq<Descriptor>, start: nat, s: Scan, d: Descriptor) returns (next: nat)
    requires Scanned(l, ds, start, s)
    ensures Scanned(l, ds + [d], next, Seen(l, s, d))
  {
    next := start;
    if EndsBlock(d) {
      BlockEnds(l, ds, start, s, d);
      next := |ds|;
    } else if s.active.Some? {
      OpenBlockGoesOn(l, ds, start, s, d);
    } else {
      NoBlockGoesOn(l, ds, start, s, d);
    }
    hide Scanned, Flushed;
  }

  lemma {:induction false} SplitSnoc(data: seq<Byte>, offset: nat, ds: seq<Descriptor>)
    requires offset <= |data| && Flat(ds) == data[..offset]
    ensures match Split(data, offset)
      case Err(e) => Split(data, 0) == Err(e)
      case Ok(rest) => Split(data, 0) == Ok(ds + rest)
  {
    match Split(data, offset)
    case Err(e) =>
      SplitFailsAt(data, offset, e);
      var rest: seq<Descriptor> :| FaultAfter(data, offset, rest, e);
      FlatAppend(ds, rest);
      assert data[0..offset + |Flat(rest)|] == data[..offset] + data[offset..offset + |Flat(rest)|];
      assert FaultAfter(data, 0, ds + rest, e);
      SplitFailsAt(data, 0, e);
    case Ok(rest) =>
      SplitIsFlat(data, offset);
      FlatAppend(ds, rest);
      assert data[0..] == data[..offset] + data[offset..];
      SplitOfFlat(data, 0, ds + rest);
  }

  lemma FaultDecides(l: Location, data: seq<Byte>, offset: nat, ds: seq<Descriptor>)
    requires |data| >= 2 && offset < |data| && Flat(ds) == data[..offset] && Fault(data, offset).Some?
    ensures Parsed(l, data) == Err(Fault(data, offset).value)
  {
    SplitSnoc(data, offset, ds);
    hide Flat, Candidates, Fault;
  }

  lemma EndDecides(l: Location, data: seq<Byte>, ds: seq<Descriptor>)
    requires |data| >= 2 && Flat(ds) == data
    ensures Parsed(l, data) == Ok(Candidates(l, ds, |ds|))
  {
    assert data[0..] == data;
    SplitOfFlat(data, 0, ds);
    hide Flat, Candidates;
  }

  method Flush(l: Location, active: Option<Builder>, vendor: nat, product: nat, candidates: seq<Candidate>)
      returns (more: seq<Candidate>)
    ensures more == candidates + Flushed(l, Scan(active, vendor, product, candidates))
  {
    more := candidates;
    if active.Some? && active.value.bulkIn != 0 && active.value.bulkOut != 0 {
      more := more + [Candidate(l, vendor, product, active.value.number, active.value.bulkIn, active.value.bulkOut)];
    }
  }

  /** The switch over the descriptor's type. */
  method Consume(l: Location, d: Descriptor, active: Option<Builder>, vendor: nat, product: nat, candidates: seq<Candidate>)
      returns (active': Option<Builder>, vendor': nat, product': nat, candidates': seq<Candidate>)
    ensures Scan(active', vendor', product', candidates') == Seen(l, Scan(active, vendor, product, candidates), d)
  {
    active', vendor', product', candidates' := active, vendor, product, candidates;
    if d[1] == DEVICE {
      vendor' := d[8] as int + 0x100 * d[9] as int;
      product' := d[10] as int + 0x100 * d[11] as int;
    } else if d[1] == CONFIGURATION {
      candidates' := Flush(l, active, vendor, product, candidates);
      active' := None;
    } else if d[1] == INTERFACE {
      candidates' := Flush(l, active, vendor, product, candidates);
      active' := None;
      if |d| >= 9 && d[5] == 0xff && d[6] == 0x42 && d[7] == 0x01 {
        active' := Some(Builder(d[2], 0, 0));
      }
    } else if d[1] == ENDPOINT && active.Some? && |d| >= 7 && d[3] % 4 == 2 {
      if d[2] >= 0x80 {
        active' := Some(active.value.(bulkIn := d[2]));
      } else {
        active' := Some(active.value.(bulkOut := d[2]));
      }
    }
  }

  /** ParseADBCandidates. */
  method ParseADBCandidates(l: Location, data: seq<Byte>) returns (r: Result<seq<Candidate>, Error>)
    ensures r == Parsed(l, data)
  {
    if |data| < 2 {
      return Err(NoData);
    }
    var vendor: nat, product: nat := 0, 0;
    var active: Option<Builder> := None;
    var candidates: seq<Candidate> := [];
    ghost var ds: seq<Descriptor>, start: nat := [], 0;
    var offset := 0;
    while offset < |data|
      invariant offset <= |data| && Flat(ds) == data[..offset]
      invariant Scanned(l, ds, start, Scan(active, vendor, product, candidates))
    {
      hide Scanned, Flat, Parsed, LastDeviceField, Candidates, Flushed, BlockCandidates, LastBulk, BlockEnd, Split, Closed;
      if Fault(data, offset).Some? { FaultDecides(l, data, offset, ds); }
      var length := data[offset] as int;
      if length == 0 {
        return Err(ZeroLength(offset));
      }
      if offset + length > |data| {
        return Err(TooLong(offset, length));
      }
      var bytes := data[offset..offset + length];
      if length == 1 {
        return Err(IndexOutOfRange(offset));
      }
      if bytes[1] == DEVICE && length < 18 {
        return Err(DeviceTooShort(offset, length));
      }
      ghost var d: Descriptor := bytes;
      ghost var before := Scan(active, vendor, product, candidates);
      active, vendor, product, candidates := Consume(l, bytes, active, vendor, product, candidates);
      start := ScannedStep(l, ds, start, before, d);
      FlatSnoc(ds, d);
      ds := ds + [d];
      assert data[..offset] + bytes == data[..offset + length];
      offset := offset + length;
    }
    hide Scanned, Flat, Parsed, LastDeviceField;
    assert data[..offset] == data;
    EndDecides(l, data, ds);
    FlushCompletes(l, ds, start, Scan(active, vendor, product, candidates));
    candidates := Flush(l, active, vendor, product, candidates);
    return Ok(candidates);
  }
}
