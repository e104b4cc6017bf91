/** The message framing of protolib.py: each message is preceded by its length, written as in
    "Base 128 Varints" of the Protocol Buffers Encoding specification. */
module ProtoFraming {
  import opened Division

  type Byte = b: int | 0 <= b < 256

  type Bytes = seq<Byte>

  // A Python object has no more than this many elements.
  const MAX_LENGTH := 0x7fff_ffff_ffff_ffff

  // ----- varints

  // Seven bits at a time, lowest first; every byte but the last has its top bit set.
  function Varint(v: nat): (r: Bytes)
    ensures |r| > 0
  {
    if v < 128 then [v] else [128 + v % 128] + Varint(v / 128)
  }

  // The number whose seven-bit groups these are, lowest first
  function Groups(s: Bytes): nat {
    if s == [] then 0 else s[0] % 128 + 128 * Groups(s[1..])
  }

  // A varint ends after n bytes.
  predicate Terminated(s: Bytes, n: nat) {
    1 <= n <= |s| && s[n - 1] < 128 && forall i :: 0 <= i < n - 1 ==> s[i] >= 128
  }

  function Power128(k: nat): (r: nat)
    ensures r > 0
  {
    if k == 0 then 1 else 128 * Power128(k - 1)
  }

  // The lowest 32 bits; numbers above the signed 64-bit range become negative.
  function Mask32(n: nat): int {
    if n > 0x7fff_ffff_ffff_ffff then n % 0x1_0000_0000 - 0x1_0000_0000 else n % 0x1_0000_0000
  }

  // size is n up to a multiple of 2^32, not negative unless n is beyond the signed 64-bit range.
  ghost predicate Truncated(n: nat, size: int) {
    && (n - size) % 0x1_0000_0000 == 0
    && if n <= 0x7fff_ffff_ffff_ffff then 0 <= size < 0x1_0000_0000 else -0x1_0000_0000 <= size < 0
  }

  lemma MaskTruncates(n: nat)
    ensures Truncated(n, Mask32(n))
  {
  }

  lemma {:induction false} VarintGroups(v: nat)
    ensures Groups(Varint(v)) == v
  {
    if v >= 128 {
      VarintGroups(v / 128);
      assert Varint(v)[1..] == Varint(v / 128);
    }
  }

  lemma {:induction false} VarintTerminates(v: nat, rest: Bytes)
    ensures Terminated(Varint(v) + rest, |Varint(v)|)
  {
    if v >= 128 {
      VarintTerminates(v / 128, rest);
      var s := Varint(v / 128) + rest;
      assert Varint(v) + rest == [128 + v % 128] + s;
      assert forall i :: 1 <= i < |Varint(v)| ==> (Varint(v) + rest)[i] == s[i - 1];
    }
  }

  /** w is v in base 128, digit by digit, lowest first, without leading zeros; every byte but the
      last has its top bit set. */
  ghost predicate IsVarint(w: Bytes, v: nat) {
    && |w| > 0 && v < Power128(|w|) && (|w| > 1 ==> v >= Power128(|w| - 1))
    && forall k :: 0 <= k < |w| ==> w[k] == Digit(v, k) + if k + 1 < |w| then 128 else 0
  }

  // Digit k of v in base 128
  ghost function Digit(v: nat, k: nat): int {
    v / Power128(k) % 128
  }

  lemma DivideTwice(v: nat, p: nat)
    requires p > 0
    ensures v / 128 / p == v / (128 * p)
  {
    var q := v / 128;
    var a, b := q / p, q % p;
    assert q == p * a + b && v == 128 * q + v % 128;
    assert v == (128 * p) * a + (128 * b + v % 128);
    QuotientIs(128 * p, a, 128 * b + v % 128);
  }

  lemma NextDigit(v: nat, k: nat)
    ensures Digit(v, k + 1) == Digit(v / 128, k)
  {
    DivideTwice(v, Power128(k));
  }

  lemma FirstDigit(v: nat)
    ensures Digit(v, 0) == v % 128
  {
  }

  lemma {:induction false} VarintFormat(v: nat)
    ensures IsVarint(Varint(v), v)
  {
    var w := Varint(v);
    FirstDigit(v);
    if v >= 128 {
      hide Digit;
      VarintFormat(v / 128);
      var u := Varint(v / 128);
      assert w == [128 + v % 128] + u;
      forall k | 0 <= k < |w|
        ensures w[k] == Digit(v, k) + if k + 1 < |w| then 128 else 0
      {
        if k > 0 {
          NextDigit(v, k - 1);
        }
      }
    } else {
      assert Power128(1) == 128;
    }
  }

  lemma {:induction false} VarintLength(v: nat, k: nat)
    requires v < Power128(k)
    ensures |Varint(v)| <= k || k == 0
  {
    if v >= 128 && k > 0 {
      VarintLength(v / 128, k - 1);
    }
  }

  lemma NinePowers()
    ensures Power128(9) == 0x8000_0000_0000_0000
  {
    assert Power128(3) == 0x20_0000;
    assert Power128(6) == 0x400_0000_0000;
  }

  lemma OneEnd(s: Bytes, m: nat, n: nat)
    requires Terminated(s, m) && Terminated(s, n)
    ensures m == n
  {
  }

  lemma {:induction false} GroupsSnoc(s: Bytes, b: Byte)
    ensures Groups(s + [b]) == Groups(s) + (b % 128) * Power128(|s|)
  {
    if s == [] {
    } else {
      assert (s + [b])[1..] == s[1..] + [b];
      GroupsSnoc(s[1..], b);
      var p := Power128(|s| - 1);
      assert 128 * ((b % 128) * p) == (b % 128) * (128 * p);
    }
  }

  lemma {:induction false} GroupsBelow(s: Bytes)
    ensures Groups(s) < Power128(|s|)
  {
    if s != [] {
      GroupsBelow(s[1..]);
    }
  }

  // What is still to be written once the low bits have been split off
  function Pending(bits: Byte, value: nat): Bytes
    requires bits < 128
  {
    if value == 0 then [bits] else [128 + bits] + Varint(value)
  }

  lemma VarintIsPending(v: nat)
    ensures Varint(v) == Pending(v % 128, v / 128)
  {
  }

  lemma PendingStep(written: Bytes, bits: Byte, value: nat)
    requires bits < 128 && value != 0
    ensures written + Pending(bits, value) == written + [128 + bits] + Pending(value % 128, value / 128)
    ensures value / 128 < value
  {
    hide Varint;
    VarintIsPending(value);
  }

  lemma PendingEnd(bits: Byte)
    requires bits < 128
    ensures Pending(bits, 0) == [bits]
  {
  }

  // ----- files

  class OutFile {
    var data: Bytes

    constructor ()
      ensures data == []
    {
      data := [];
    }

    method Write(s: Bytes)
      modifies this
      ensures data == old(data) + s
    {
      data := data + s;
    }

    method EncodeVarint32(v: nat)
      modifies this
      ensures data == old(data) + Varint(v) && IsVarint(Varint(v), v)
    {
      hide Varint, Pending, IsVarint;
      VarintFormat(v);
      var bits: Byte, value := v % 128, v / 128;
      VarintIsPending(v);
      while value != 0
        invariant value >= 0 && bits < 128
        invariant old(data) + Varint(v) == data + Pending(bits, value)
        decreases value
      {
        PendingStep(data, bits, value);
        Write([128 + bits]);
        bits, value := value % 128, value / 128;
      }
      PendingEnd(bits);
      Write([bits]);
    }

    method EncodeMessage(m: Bytes)
      modifies this
      ensures data == old(data) + Framed(m)
      ensures exists w :: IsVarint(w, |m|) && data == old(data) + w + m
    {
      hide IsVarint;
      EncodeVarint32(|m|);
      Write(m);
    }

    method EncodeMessages(ms: seq<Bytes>)
      modifies this
      ensures data == old(data) + FramedAll(ms)
    {
      for i := 0 to |ms|
        invariant data + FramedAll(ms[i..]) == old(data) + FramedAll(ms)
      {
        assert ms[i..][1..] == ms[i + 1..];
        EncodeMessage(ms[i]);
      }
    }
  }

  datatype Scanned = EndOfFile | TooLong | Read(size: int, used: nat)

  // What the next bytes say the size is
  ghost function Scan(s: Bytes): Scanned {
    if exists n: nat :: n <= 10 && Terminated(s, n) then
      var n: nat :| n <= 10 && Terminated(s, n);
      Read(Mask32(Groups(s[..n])), n)
    else if |s| < 10 then EndOfFile
    else TooLong
  }

  lemma ScanIs(s: Bytes, n: nat)
    requires n <= 10 && Terminated(s, n)
    ensures Scan(s) == Read(Mask32(Groups(s[..n])), n)
  {
    var m: nat :| m <= 10 && Terminated(s, m) && Scan(s) == Read(Mask32(Groups(s[..m])), m);
    OneEnd(s, m, n);
  }

  lemma ScanIsUnfinished(s: Bytes)
    requires forall i :: 0 <= i < |s| && i < 10 ==> s[i] >= 128
    ensures Scan(s) == if |s| < 10 then EndOfFile else TooLong
  {
  }

  lemma NoGroups()
    ensures Groups([]) == 0 && Power128(0) == 1
  {
  }

  // The next byte adds seven bits above those read so far.
  lemma NextGroup(s: Bytes, used: nat)
    requires used < |s|
    ensures Groups(s[..used + 1]) == Groups(s[..used]) + (s[used] % 128) * Power128(used)
    ensures Power128(used + 1) == Power128(used) * 128
  {
    hide Groups;
    assert s[..used + 1] == s[..used] + [s[used]];
    GroupsSnoc(s[..used], s[used]);
  }

  lemma ScanVarint(v: nat, rest: Bytes)
    requires v <= MAX_LENGTH
    ensures Scan(Varint(v) + rest) == Read(Mask32(v), |Varint(v)|)
  {
    var s := Varint(v) + rest;
    VarintTerminates(v, rest);
    NinePowers();
    VarintLength(v, 9);
    ScanIs(s, |Varint(v)|);
    assert s[..|Varint(v)|] == Varint(v);
    VarintGroups(v);
  }

  class InFile {
    const data: Bytes
    var pos: nat

    ghost predicate Valid()
      reads this
    {
      pos <= |data|
    }

    constructor (data: Bytes)
      ensures Valid() && this.data == data && pos == 0
    {
      this.data, pos := data, 0;
    }

    ghost function Rest(): Bytes
      requires Valid()
      reads this
    {
      data[pos..]
    }

    // A negative size reads everything that is left.
    method Read(size: int) returns (s: Bytes)
      requires Valid()
      modifies this
      ensures Valid() && s + Rest() == old(Rest())
      ensures |s| == if size < 0 || size > |old(Rest())| then |old(Rest())| else size
    {
      var n := if size < 0 || size > |data| - pos then |data| - pos else size;
      s := data[pos..pos + n];
      pos := pos + n;
    }

    /** The decoding loop finds the size that the bytes stand for, or the reason why there is none. */
    method DecodeVarint32() returns (r: Scanned)
      requires Valid()
      modifies this
      ensures Valid() && r == Scan(old(Rest()))
      ensures pos == old(pos) + if r.Read? then r.used else if r.TooLong? then 10 else |old(Rest())|
      ensures r.Read? ==> Terminated(old(Rest()), r.used) && Truncated(Groups(old(Rest())[..r.used]), r.size)
    {
      hide Scan, Groups, Power128, Mask32, Truncated;
      ghost var s := Rest();
      NoGroups();
      // weight is 1 << shift
      var result: nat, shift: nat, weight: nat, used: nat := 0, 0, 1, 0;
      while true
        invariant Valid() && pos == old(pos) + used && used <= |s| && used <= 9
        invariant shift == 7 * used && weight == Power128(used)
        invariant result == Groups(s[..used])
        invariant forall i :: 0 <= i < used ==> s[i] >= 128
        decreases 10 - used
      {
        assert Rest() == s[used..];
        var c := Read(1);
        if |c| == 0 {
          ScanIsUnfinished(s);
          return EndOfFile;
        }
        assert c[0] == (c + Rest())[0] == s[used];
        var b: int := c[0];
        // the bits of result are all below weight, so that or is addition
        GroupsBelow(s[..used]);
        NextGroup(s, used);
        result := result + (b % 128) * weight;
        used := used + 1;
        if b < 128 {
          ScanIs(s, used);
          MaskTruncates(result);
          return Scanned.Read(Mask32(result), used);
        }
        shift, weight := shift + 7, weight * 128;
        if shift >= 64 {
          ScanIsUnfinished(s);
          return TooLong;
        }
      }
    }

    /** One call hands over one message, or says that there is none. */
    method DecodeMessage() returns (ok: bool, message: Bytes)
      requires Valid()
      modifies this
      ensures Valid() && ok == Next(old(Rest())).Message?
      ensures ok ==> message == Next(old(Rest())).bytes
      ensures Rest() == Next(old(Rest())).rest
    {
      ghost var s := Rest();
      var r := DecodeVarint32();
      ok, message := false, [];
      if r.Read? && r.size != 0 {
        assert Rest() == s[r.used..];
        message := Read(r.size);
        ok := true;
      }
    }

    /** Readers call DecodeMessage until it fails. */
    method DecodeMessages() returns (ms: seq<Bytes>)
      requires Valid()
      modifies this
      ensures Valid() && ms == ReadAll(old(Rest())).messages
      ensures Rest() == ReadAll(old(Rest())).last.rest
    {
      hide Next, ReadAll;
      ms := [];
      while true
        invariant Valid()
        invariant ReadAll(old(Rest())) == Trace(ms + ReadAll(Rest()).messages, ReadAll(Rest()).last)
        decreases |Rest()|
      {
        ghost var s := Rest();
        ReadAllStep(s);
        var ok, m := DecodeMessage();
        if !ok {
          assert ms + [] == ms;
          return;
        }
        assert ms + ([m] + ReadAll(Rest()).messages) == ms + [m] + ReadAll(Rest()).messages;
        ms := ms + [m];
      }
    }
  }

  // ----- streams

  function Framed(m: Bytes): Bytes {
    Varint(|m|) + m
  }

  function FramedAll(ms: seq<Bytes>): Bytes {
    if ms == [] then [] else Framed(ms[0]) + FramedAll(ms[1..])
  }

  // The outcome of one DecodeMessage and what is left to read
  datatype Step =
    | Message(bytes: Bytes, rest: Bytes)
    | EndOfStream(rest: Bytes)
    | ZeroSize(rest: Bytes)
    | BadVarint(rest: Bytes)

  ghost function Next(s: Bytes): (r: Step)
    ensures r.Message? ==> |r.rest| < |s|
  {
    match Scan(s)
    case EndOfFile => EndOfStream([])
    case TooLong => BadVarint(s[10..])
    case Read(size, used) =>
      var body := s[used..];
      if size == 0 then ZeroSize(body)
      else
        var n := if size < 0 || size > |body| then |body| else size;
        Message(body[..n], body[n..])
  }

  datatype Trace = Trace(messages: seq<Bytes>, last: Step)

  ghost function ReadAll(s: Bytes): Trace
    decreases |s|
  {
    var step := Next(s);
    if step.Message? then
      var t := ReadAll(step.rest);
      Trace([step.bytes] + t.messages, t.last)
    else Trace([], step)
  }

  lemma ReadAllStep(s: Bytes)
    ensures var step := Next(s);
            ReadAll(s) == if step.Message? then
                            Trace([step.bytes] + ReadAll(step.rest).messages, ReadAll(step.rest).last)
                          else Trace([], step)
  {
    hide Next;
  }

  // What a reader can get back
  predicate Framable(m: Bytes) {
    0 < |m| < 0x1_0000_0000
  }

  ghost predicate AllFramable(ms: seq<Bytes>) {
    forall i :: 0 <= i < |ms| ==> Framable(ms[i])
  }

  // No message is longer than Python allows.
  ghost predicate AllPossible(ms: seq<Bytes>) {
    forall i :: 0 <= i < |ms| ==> |ms[i]| <= MAX_LENGTH
  }

  lemma MaskedSize(n: nat)
    requires n <= MAX_LENGTH
    ensures 0 <= Mask32(n) <= n && (Mask32(n) == n <==> n < 0x1_0000_0000)
  {
  }

  lemma NextFramed(m: Bytes, rest: Bytes)
    requires |m| <= MAX_LENGTH
    ensures Framable(m) ==> Next(Framed(m) + rest) == Message(m, rest)
    ensures !Framable(m) && Next(Framed(m) + rest).Message? ==> |Next(Framed(m) + rest).bytes| < |m|
  {
    hide Scan, Varint, Mask32;
    var s := Framed(m) + rest;
    var body := m + rest;
    assert s == Varint(|m|) + body;
    ScanVarint(|m|, body);
    MaskedSize(|m|);
    assert s[|Varint(|m|)|..] == body;
    if Framable(m) {
      assert body[..|m|] == m && body[|m|..] == rest;
    }
  }

  /** An empty message ends the reading: nothing behind it is seen. */
  lemma EmptyMessageStops(rest: Bytes)
    ensures ReadAll(Framed([]) + rest) == Trace([], ZeroSize(rest))
  {
    hide Scan;
    assert Framed([]) + rest == Varint(0) + rest;
    ScanVarint(0, rest);
    assert Varint(0) == [0] && ([0] + rest)[1..] == rest;
  }

  lemma ReadAllGood(m: Bytes, rest: Bytes)
    requires Framable(m)
    ensures ReadAll(Framed(m) + rest) == Trace([m] + ReadAll(rest).messages, ReadAll(rest).last)
  {
    hide Next, Framed;
    NextFramed(m, rest);
  }

  lemma ReadAllBad(m: Bytes, rest: Bytes, more: seq<Bytes>)
    requires !Framable(m) && |m| <= MAX_LENGTH
    ensures ReadAll(Framed(m) + rest).messages != [m] + more
  {
    hide Next, Framed;
    NextFramed(m, rest);
    if ReadAll(Framed(m) + rest).messages != [] {
      assert |ReadAll(Framed(m) + rest).messages[0]| < |([m] + more)[0]|;
    }
  }

  lemma SameTail(m: Bytes, a: seq<Bytes>, b: seq<Bytes>)
    ensures [m] + a == [m] + b <==> a == b
  {
    assert ([m] + a)[1..] == a && ([m] + b)[1..] == b;
  }

  lemma FirstAndRest(ms: seq<Bytes>)
    requires ms != []
    ensures AllFramable(ms) <==> Framable(ms[0]) && AllFramable(ms[1..])
    ensures AllPossible(ms) <==> |ms[0]| <= MAX_LENGTH && AllPossible(ms[1..])
  {
    hide Framable;
    assert forall i :: 0 < i < |ms| ==> ms[i] == ms[1..][i - 1];
  }

  lemma NothingToRead()
    ensures ReadAll([]) == Trace([], EndOfStream([])) && AllFramable([])
  {
    assert Scan([]) == EndOfFile;
  }

  /** What was written is read back, in order and up to the end of the stream, exactly when no
      message is empty and every length fits in 32 bits. */
  lemma {:induction false} RoundTrip(ms: seq<Bytes>)
    requires AllPossible(ms)
    ensures ReadAll(FramedAll(ms)) == Trace(ms, EndOfStream([])) <==> AllFramable(ms)
  {
    hide ReadAll, Framed, Framable, AllFramable, AllPossible;
    if ms == [] {
      NothingToRead();
    } else {
      var rest := FramedAll(ms[1..]);
      FirstAndRest(ms);
      RoundTrip(ms[1..]);
      assert ms == [ms[0]] + ms[1..];
      if Framable(ms[0]) {
        ReadAllGood(ms[0], rest);
        SameTail(ms[0], ReadAll(rest).messages, ms[1..]);
      } else {
        ReadAllBad(ms[0], rest, ms[1..]);
      }
    }
  }
}
