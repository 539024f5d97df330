/** The wire framing codec (`Util`): a frame is a 4-byte big-endian length
    followed by that many bytes of UTF-8 JSON text. The socket is abstracted
    as a finite stream of chunks for reads and a log of write calls. */
module Framing {
  import opened Wrappers
  import opened Json

  type Byte = b: int | 0 <= b < 256

  const Int32Min: int := -0x8000_0000
  const Int32Max: int := 0x7FFF_FFFF

  predicate IsInt32(v: int)
  {
    Int32Min <= v <= Int32Max
  }

  // ---------------------------------------------------------------------
  // Integer <-> bytes
  // ---------------------------------------------------------------------

  /** `v >> (8 * k)` on an Int32: Swift's arithmetic right shift rounds toward
      negative infinity, which is Dafny's division by a positive divisor. */
  function Shr8(v: int, k: nat): int
  {
    if k == 0 then v else Shr8(v, k - 1) / 256
  }

  /** The low eight bits of `v`, as a truncating conversion to UInt8 keeps them. */
  function Low8(v: int): Byte
  {
    v % 256
  }

  /** The four bytes of a 32-bit value, most significant first: byte k is
      `value >> (8 * (3 - k))` cut to eight bits. */
  function BigEndian(v: int): seq<Byte>
  {
    [Low8(Shr8(v, 3)), Low8(Shr8(v, 2)), Low8(Shr8(v, 1)), Low8(Shr8(v, 0))]
  }

  /** The first four bytes read as an unsigned big-endian number. */
  function Unsigned32(b: seq<Byte>): nat
    requires |b| >= 4
  {
    ((b[0] as int * 256 + b[1]) * 256 + b[2]) * 256 + b[3]
  }

  /** The Int32 whose two's-complement bit pattern is `u`. */
  function Signed32(u: int): int
  {
    if u >= 0x8000_0000 then u - 0x1_0000_0000 else u
  }

  /** The Int32 held big-endian in the first four bytes of `b`. */
  function Int32At(b: seq<Byte>): int
    requires |b| >= 4
  {
    Signed32(Unsigned32(b))
  }

  /** The value of the bytes `b[0..n]` in their lanes of a 32-bit word:
      byte i sits `8 * (3 - i)` bits up. */
  function Lanes(b: seq<Byte>, n: nat): nat
    requires n <= 4 <= |b|
  {
    if n == 0 then 0 else Lanes(b, n - 1) + b[n - 1] * LaneWeight(n - 1)
  }

  /** `1 << (8 * (3 - i))`. */
  function LaneWeight(i: nat): nat
    requires i <= 3
  {
    if i == 0 then 0x100_0000 else if i == 1 then 0x1_0000 else if i == 2 then 0x100 else 1
  }

  /** Reading back the four bytes of any Int32 gives that Int32. */
  lemma Int32RoundTrip(v: int)
    requires IsInt32(v)
    ensures |BigEndian(v)| == 4 && Int32At(BigEndian(v)) == v
  {
    // Each byte is a digit of v in base 256; the top one, t3, is signed.
    var t1, t2, t3 := Shr8(v, 1), Shr8(v, 2), Shr8(v, 3);
    assert t1 == v / 256 && t2 == t1 / 256 && t3 == t2 / 256;
    assert v == t1 * 256 + v % 256;
    assert t1 == t2 * 256 + t1 % 256;
    assert t2 == t3 * 256 + t2 % 256;
    assert -0x80_0000 <= t1 < 0x80_0000;
    assert -0x8000 <= t2 < 0x8000;
    assert -0x80 <= t3 < 0x80;
    var b := BigEndian(v);
    assert b[1] == t2 % 256 && b[2] == t1 % 256 && b[3] == v % 256;
    if t3 >= 0 {
      assert b[0] == t3;
      assert Unsigned32(b) == v;
    } else {
      assert b[0] == t3 + 256;
      assert Unsigned32(b) == v + 0x1_0000_0000;
    }
  }

  /** Shifting a value of 0..255 right by one or more bytes leaves zero. */
  lemma {:induction false} ShiftOfByte(v: int, x: nat)
    requires 0 <= v < 256
    ensures Shr8(v, x) == if x == 0 then v else 0
  {
    if x > 0 {
      ShiftOfByte(v, x - 1);
    }
  }

  /** `intToBytes` as written: each byte goes through the checked conversion
      `UInt8(_:)`, which traps when the shifted value is outside 0..255. */
  method IntToBytesAsWritten(value: int) returns (r: Checked<seq<Byte>>)
    requires IsInt32(value)
    ensures r.Value? <==> 0 <= value < 256
    ensures r.Value? ==> r.value == BigEndian(value)
  {
    var bytes: seq<Byte> := [];
    var x := 3;
    while x >= 0
      invariant -1 <= x <= 3
      invariant |bytes| == 3 - x
      invariant forall k :: 0 <= k < |bytes| ==> bytes[k] == Low8(Shr8(value, 3 - k))
      invariant x < 3 ==> 0 <= Shr8(value, x + 1) < 256
    {
      var shifted := Shr8(value, x);
      if 0 <= value < 256 {
        ShiftOfByte(value, x);
      }
      if !(0 <= shifted < 256) {
        return Trap;
      }
      bytes := bytes + [shifted];
      x := x - 1;
    }
    assert bytes == BigEndian(value);
    return Value(bytes);
  }

  /** `intToBytes` with the truncating conversion the framing needs: the four
      big-endian bytes of `value`, which `ReadInt` turns back into `value`. */
  method IntToBytes(value: int) returns (bytes: seq<Byte>)
    requires IsInt32(value)
    ensures bytes == BigEndian(value)
    ensures |bytes| == 4 && Int32At(bytes) == value
  {
    bytes := [];
    var x := 3;
    while x >= 0
      invariant -1 <= x <= 3
      invariant |bytes| == 3 - x
      invariant forall k :: 0 <= k < |bytes| ==> bytes[k] == Low8(Shr8(value, 3 - k))
    {
      bytes := bytes + [Low8(Shr8(value, x))];
      x := x - 1;
    }
    Int32RoundTrip(value);
  }

  /** `readInt`: the first four bytes, big-endian, as an Int32. The source ORs
      each byte, shifted into its own 8-bit lane, into the result; the lanes
      do not overlap, so the OR is the sum kept here in `result`, and the
      final Int32 reading is negative when the top bit is set. */
  method ReadInt(value: seq<Byte>) returns (r: int)
    requires |value| >= 4
    ensures r == Int32At(value)
    ensures IsInt32(r) && (r < 0 <==> value[0] >= 128)
  {
    var result := 0;
    for n := 0 to 4
      invariant result == Lanes(value, n)
    {
      result := result + value[n] * LaneWeight(n);
    }
    assert Lanes(value, 2) == value[0] as int * 0x100_0000 + value[1] as int * 0x1_0000;
    assert result == Unsigned32(value);
    r := Signed32(result);
  }

  // ---------------------------------------------------------------------
  // Writing a frame
  // ---------------------------------------------------------------------

  /** The bytes `write` sends for a payload: its length, then the payload. */
  function FrameBytes(payload: seq<Byte>): (r: seq<Byte>)
    requires |payload| <= Int32Max
    ensures |r| == 4 + |payload| && r[4..] == payload
    ensures Int32At(r) == |payload|
  {
    Int32RoundTrip(|payload|);
    BigEndian(|payload|) + payload
  }

  /** The write side of the socket: whether it still accepts writes, and the
      buffer passed to each write call that succeeded, in order. */
  class ByteSocket {
    var connected: bool
    var written: seq<seq<Byte>>

    constructor ()
      ensures connected && written == []
    {
      connected := true;
      written := [];
    }

    /** `write(from:bufSize:)`: sends all of `data`, or throws. */
    method Write(data: seq<Byte>) returns (ok: bool)
      modifies this`written
      ensures ok == connected
      ensures written == old(written) + (if ok then [data] else [])
    {
      ok := connected;
      if ok {
        written := written + [data];
      }
    }

    method Close()
      modifies this`connected
      ensures !connected
    {
      connected := false;
    }
  }

  /** `write(from:to:)`: one socket write of the 4-byte length of the UTF-8
      payload followed by the payload. `Int32(from.utf8.count)` traps for a
      payload longer than Int32.max, hence the precondition. */
  method Write(from: seq<Byte>, sock: ByteSocket) returns (ok: bool)
    requires |from| <= Int32Max
    modifies sock`written
    ensures ok == sock.connected
    ensures sock.written == old(sock.written) + (if ok then [FrameBytes(from)] else [])
    ensures ok ==> |sock.written[|sock.written| - 1]| == 4 + |from|
  {
    var data: seq<Byte> := [];
    var size := IntToBytes(|from|);
    data := data + size;
    data := data + from;
    assert data == FrameBytes(from);
    ok := sock.Write(data);
  }

  /** `write(from:to:)` as written, over the checked `intToBytes`: for a
      payload of 256 bytes or more the size conversion traps before anything
      is written; otherwise it is `Write`. */
  method WriteAsWritten(from: seq<Byte>, sock: ByteSocket) returns (r: Checked<bool>)
    requires |from| <= Int32Max
    modifies sock`written
    ensures r.Trap? <==> |from| >= 256
    ensures r.Trap? ==> sock.written == old(sock.written)
    ensures r.Value? ==> r.value == sock.connected
    ensures r.Value? ==> sock.written == old(sock.written) + (if r.value then [FrameBytes(from)] else [])
  {
    var size := IntToBytesAsWritten(|from|);
    if size.Trap? {
      return Trap;
    }
    var data: seq<Byte> := [];
    data := data + size.value;
    data := data + from;
    assert data == FrameBytes(from);
    var ok := sock.Write(data);
    return Value(ok);
  }

  // ---------------------------------------------------------------------
  // Reading a frame
  // ---------------------------------------------------------------------

  /** What one `read(into:)` call yields: some bytes (possibly none), or an error. */
  datatype Chunk = Data(bytes: seq<Byte>) | ReadError

  /** How one call of `read(from:)` ends.
      Received: a whole frame, its payload and the payload's parse.
      NoMessage: the first read gave no bytes (`read` returns nil).
      Failed: a read threw (`read` rethrows).
      Stalled: the stream ended before the frame was whole; the socket call
        would go on waiting for bytes.
      Trapped: the declared size is negative, and the range taken from the
        buffer traps. */
  datatype ReadOutcome =
    | Received(payload: seq<Byte>, json: Json)
    | NoMessage
    | Failed
    | Stalled
    | Trapped

  /** The bytes delivered by a run of chunks, in order. */
  function Joined(chunks: seq<Chunk>): seq<Byte>
  {
    if chunks == [] then []
    else
      var last := chunks[|chunks| - 1];
      Joined(chunks[..|chunks| - 1]) + (if last.Data? then last.bytes else [])
  }

  /** The bytes delivered by the first k chunks start the bytes of all of them. */
  lemma {:induction false} JoinedPrefix(chunks: seq<Chunk>, k: nat)
    requires k <= |chunks|
    ensures Joined(chunks[..k]) <= Joined(chunks)
    decreases |chunks| - k
  {
    if k < |chunks| {
      var n := |chunks|;
      JoinedPrefix(chunks[..n - 1], k);
      assert chunks[..n - 1][..k] == chunks[..k];
    } else {
      assert chunks[..k] == chunks;
    }
  }

  /** The buffer holds the 4-byte header and the whole payload it declares. */
  predicate Complete(d: seq<Byte>)
  {
    |d| >= 4 && |d| >= Int32At(d) + 4
  }

  /** After k reads, the two loops of `read` stop: the k-th read threw, or
      the bytes so far are a whole frame. */
  predicate Stops(chunks: seq<Chunk>, k: nat)
  {
    1 <= k <= |chunks| && (chunks[k - 1].ReadError? || Complete(Joined(chunks[..k])))
  }

  /** The outcome once the reads stop after the chunks in `prefix`. Only the
      first 4 + size bytes are returned: anything buffered beyond them is
      dropped with the local buffer. */
  function Settle(prefix: seq<Chunk>, parse: seq<Byte> -> Json): ReadOutcome
    requires |prefix| >= 1
    requires prefix[|prefix| - 1].ReadError? || Complete(Joined(prefix))
  {
    if prefix[|prefix| - 1].ReadError? then Failed
    else
      var d := Joined(prefix);
      var size := Int32At(d);
      if size < 0 then Trapped
      else Received(d[4..4 + size], parse(d[4..4 + size]))
  }

  /** What `read(from:)` does with a chunk stream: `used` chunks are read,
      the first read happens always, a first read of no bytes gives nil, and
      otherwise reading goes on exactly until the reads stop. */
  ghost predicate ReadSpec(chunks: seq<Chunk>, parse: seq<Byte> -> Json, out: ReadOutcome, used: nat)
  {
    if |chunks| == 0 then out == Stalled && used == 0
    else if chunks[0] == Data([]) then out == NoMessage && used == 1
    else ReadsUntilStop(chunks, parse, out, used)
  }

  /** Once the first read gave bytes: `used` is the first number of reads
      after which the loops stop, or all the chunks when they never do. */
  ghost predicate ReadsUntilStop(chunks: seq<Chunk>, parse: seq<Byte> -> Json, out: ReadOutcome, used: nat)
  {
    && 1 <= used <= |chunks|
    && (forall k :: 1 <= k < used ==> !Stops(chunks, k))
    && if Stops(chunks, used) then out == Settle(chunks[..used], parse)
       else used == |chunks| && out == Stalled
  }

  /** The state of `read` after `used` reads that did not stop: `data` is
      everything they delivered, none of them threw, and the reads before
      the last one did not hold a whole frame. */
  ghost predicate Reading(chunks: seq<Chunk>, data: seq<Byte>, used: nat)
  {
    && 1 <= used <= |chunks|
    && data == Joined(chunks[..used])
    && (forall i :: 0 <= i < used ==> chunks[i].Data?)
    && (used == 1 || !Complete(Joined(chunks[..used - 1])))
  }

  /** More bytes after a whole frame still hold that whole frame. */
  lemma CompleteGrows(d: seq<Byte>, d': seq<Byte>)
    requires d <= d' && Complete(d)
    ensures Complete(d')
  {
  }

  /** In the reading state, no earlier number of reads stopped. */
  lemma NotStoppedBefore(chunks: seq<Chunk>, data: seq<Byte>, used: nat)
    requires Reading(chunks, data, used)
    ensures forall k :: 1 <= k < used ==> !Stops(chunks, k)
  {
    forall k | 1 <= k < used
      ensures !Stops(chunks, k)
    {
      var before := chunks[..used - 1];
      JoinedPrefix(before, k);
      assert before[..k] == chunks[..k];
      if Complete(Joined(chunks[..k])) {
        CompleteGrows(Joined(chunks[..k]), Joined(before));
      }
    }
  }

  /** One more read that does not throw appends its bytes to the buffer. */
  lemma ReadOneMore(chunks: seq<Chunk>, data: seq<Byte>, used: nat)
    requires Reading(chunks, data, used) && !Complete(data)
    requires used < |chunks| && chunks[used].Data?
    ensures Reading(chunks, data + chunks[used].bytes, used + 1)
    ensures |data| >= 4 ==> Int32At(data + chunks[used].bytes) == Int32At(data)
  {
    assert chunks[..used + 1][..used] == chunks[..used];
    if |data| >= 4 {
      assert (data + chunks[used].bytes)[..4] == data[..4];
    }
  }

  /** The first read, when it does not throw, starts the buffer. */
  lemma FirstRead(chunks: seq<Chunk>)
    requires |chunks| >= 1 && chunks[0].Data?
    ensures Reading(chunks, chunks[0].bytes, 1)
  {
  }

  /** The reads end at the stream's end without stopping. */
  lemma StallAt(chunks: seq<Chunk>, data: seq<Byte>, used: nat, parse: seq<Byte> -> Json)
    requires Reading(chunks, data, used) && !Complete(data) && used == |chunks|
    ensures ReadsUntilStop(chunks, parse, Stalled, used)
  {
    NotStoppedBefore(chunks, data, used);
  }

  /** The read after `used` good reads throws. */
  lemma FailAt(chunks: seq<Chunk>, data: seq<Byte>, used: nat, parse: seq<Byte> -> Json)
    requires Reading(chunks, data, used) && !Complete(data)
    requires used < |chunks| && chunks[used].ReadError?
    ensures ReadsUntilStop(chunks, parse, Failed, used + 1)
  {
    NotStoppedBefore(chunks, data, used);
    assert Stops(chunks, used + 1);
  }

  /** The good reads so far hold a whole frame. */
  lemma CompleteAt(chunks: seq<Chunk>, data: seq<Byte>, used: nat, parse: seq<Byte> -> Json)
    requires Reading(chunks, data, used) && Complete(data)
    ensures ReadsUntilStop(chunks, parse, Settle(chunks[..used], parse), used)
    ensures Settle(chunks[..used], parse) ==
      if Int32At(data) < 0 then Trapped
      else Received(data[4..4 + Int32At(data)], parse(data[4..4 + Int32At(data)]))
  {
    NotStoppedBefore(chunks, data, used);
    assert Stops(chunks, used);
  }

  /** One of the two loops of `read`: read until the buffer holds at least
      `need` bytes, where `need` is the 4 header bytes or the whole frame the
      header declares. When a read throws or the stream ends first, the reads
      have stopped (or never will) and `out` is the outcome of `read`. */
  method ReadAtLeast(chunks: seq<Chunk>, parse: seq<Byte> -> Json, data: seq<Byte>, used: nat, need: int)
    returns (stopped: bool, out: ReadOutcome, data': seq<Byte>, used': nat)
    requires Reading(chunks, data, used)
    requires need == 4 || (|data| >= 4 && need == Int32At(data) + 4)
    ensures stopped ==> ReadsUntilStop(chunks, parse, out, used')
    ensures !stopped ==> Reading(chunks, data', used') && |data'| >= need
    ensures !stopped && |data| >= 4 ==> |data'| >= 4 && Int32At(data') == Int32At(data)
  {
    data', used' := data, used;
    stopped, out := false, Stalled;
    while |data'| < need
      invariant Reading(chunks, data', used')
      invariant |data| >= 4 ==> |data'| >= 4 && Int32At(data') == Int32At(data)
      decreases |chunks| - used'
    {
      if used' == |chunks| {
        StallAt(chunks, data', used', parse);
        return true, Stalled, data', used';
      }
      if chunks[used'].ReadError? {
        FailAt(chunks, data', used', parse);
        return true, Failed, data', used' + 1;
      }
      ReadOneMore(chunks, data', used');
      data' := data' + chunks[used'].bytes;
      used' := used' + 1;
    }
  }

  /** `read(from:)`: read once; if that gave bytes, read until the header is
      in, then until the declared payload is in, and return the payload.
      `parse` stands for the JSON parser applied to the payload. The byte
      count the source keeps beside the buffer is the buffer's length. */
  method Read(chunks: seq<Chunk>, parse: seq<Byte> -> Json) returns (out: ReadOutcome, used: nat)
    ensures ReadSpec(chunks, parse, out, used)
  {
    if |chunks| == 0 {
      return Stalled, 0;
    }
    if chunks[0].ReadError? {
      return Failed, 1;
    }
    var data := chunks[0].bytes;
    if |data| == 0 {
      return NoMessage, 1;
    }
    FirstRead(chunks);
    var stopped;
    // read until we have at least the size
    stopped, out, data, used := ReadAtLeast(chunks, parse, data, 1, 4);
    if stopped {
      return;
    }
    var msgSize := ReadInt(data);
    // read until we have a full message
    stopped, out, data, used := ReadAtLeast(chunks, parse, data, used, msgSize + 4);
    if stopped {
      return;
    }
    CompleteAt(chunks, data, used, parse);
    if msgSize < 0 {
      out := Trapped;
    } else {
      var payload := data[4..4 + msgSize];
      out := Received(payload, parse(payload));
    }
  }

  /** A buffer that holds at least a header and starts a stream that starts
      with `write(payload)` declares the size of `payload`. */
  lemma HeaderOfWritten(payload: seq<Byte>, d: seq<Byte>, all: seq<Byte>)
    requires |payload| <= Int32Max
    requires FrameBytes(payload) <= all && d <= all && |d| >= 4
    ensures Int32At(d) == |payload|
  {
  }

  /** Framing round trip: however the bytes of `write(payload)` are split
      into chunks, and whatever follows them, `read` returns exactly
      `payload` (as long as the first read delivers some bytes). */
  lemma {:induction false} ReadWhatWasWritten(payload: seq<Byte>, chunks: seq<Chunk>,
                                              parse: seq<Byte> -> Json, out: ReadOutcome, used: nat)
    requires |payload| <= Int32Max
    requires forall i :: 0 <= i < |chunks| ==> chunks[i].Data?
    requires |chunks| > 0 && chunks[0].bytes != []
    requires FrameBytes(payload) <= Joined(chunks)
    requires ReadSpec(chunks, parse, out, used)
    ensures out == Received(payload, parse(payload))
  {
    var frame := FrameBytes(payload);
    var all := Joined(chunks);
    // The whole stream holds a whole frame, so the reads stop somewhere.
    assert chunks[..|chunks|] == chunks;
    HeaderOfWritten(payload, all, all);
    assert Stops(chunks, |chunks|);
    assert Stops(chunks, used);
    // Where they stop, the header read is the one written.
    var d := Joined(chunks[..used]);
    JoinedPrefix(chunks, used);
    HeaderOfWritten(payload, d, all);
    assert d[4..4 + |payload|] == payload by {
      forall i | 0 <= i < |payload| ensures d[4 + i] == payload[i] {
        assert d[4 + i] == all[4 + i] == frame[4 + i];
      }
    }
  }

  /** `intToBytes` as written traps on the size of a 256-byte payload. */
  method TrapOnLongPayload() returns (r: Checked<seq<Byte>>)
    ensures r == Trap
  {
    r := IntToBytesAsWritten(256);
  }

  /** As written, `write` of a 256-byte payload traps and nothing reaches
      the socket. */
  method WriteLongPayload() returns (r: Checked<bool>, written: seq<seq<Byte>>)
    ensures r == Trap && written == []
  {
    var sock := new ByteSocket();
    r := WriteAsWritten(seq(256, _ => 0), sock);
    written := sock.written;
  }

  /** A write to a closed socket throws and sends nothing. */
  method WriteAfterClose() returns (ok: bool, written: seq<seq<Byte>>)
    ensures !ok && written == []
  {
    var sock := new ByteSocket();
    sock.Close();
    ok := Write([1, 2], sock);
    written := sock.written;
  }
}
