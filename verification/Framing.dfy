/** Packet bytes as project/socket.c lays them out: little-endian 32-bit fields,
    a PACK_HEADER of operation and length, then the payload. */
module Framing {
  import opened Wrappers

  type byte = x: int | 0 <= x < 256

  type int32 = x: int | -0x8000_0000 <= x < 0x8000_0000

  const OP_FILE: int32 := 3

  /** The four bytes of n modulo 2 to the 32nd. */
  function Le32(n: int): (r: seq<byte>)
    ensures |r| == 4
  {
    var u := n % 0x1_0000_0000;
    [u % 256, u / 256 % 256, u / 65536 % 256, u / 16777216 % 256]
  }

  function ReadLe32(b: seq<byte>): int32
    requires |b| == 4
  {
    var u := (b[0] as int) + 256 * (b[1] as int) + 65536 * (b[2] as int) + 16777216 * (b[3] as int);
    if u < 0x8000_0000 then u else u - 0x1_0000_0000
  }

  lemma Le32RoundTrip(n: int32)
    ensures ReadLe32(Le32(n)) == n
  {
    var u := n % 0x1_0000_0000;
    assert u == u % 256 + 256 * (u / 256);
    assert u / 256 == u / 256 % 256 + 256 * (u / 65536);
    assert u / 65536 == u / 65536 % 256 + 256 * (u / 16777216);
    assert u / 16777216 < 256;
  }

  /** A length of 2 to the 31st or more comes back negative. */
  lemma Le32Wraps(n: int)
    requires 0x8000_0000 <= n < 0x1_0000_0000
    ensures ReadLe32(Le32(n)) < 0
  {
    var m := n - 0x1_0000_0000;
    Le32RoundTrip(m);
    assert m % 0x1_0000_0000 == n && n % 0x1_0000_0000 == n;
  }

  datatype Packet = Packet(optype: int32, payload: seq<byte>)

  function Frame(optype: int32, payload: seq<byte>): seq<byte> {
    Le32(optype) + Le32(|payload|) + payload
  }

  /** Read with full reads from what is left of a stream: the packet and the
      rest, or None if the stream ends first. A length field that is not
      positive means no payload. */
  function ReadPacket(s: seq<byte>): Option<(Packet, seq<byte>)> {
    if |s| < 8 then None
    else
      var n := ReadLe32(s[4..8]);
      if n <= 0 then Some((Packet(ReadLe32(s[..4]), []), s[8..]))
      else if |s| - 8 < n then None
      else Some((Packet(ReadLe32(s[..4]), s[8..8 + n]), s[8 + n..]))
  }

  lemma FrameParts(optype: int32, payload: seq<byte>, rest: seq<byte>)
    ensures var s := Frame(optype, payload) + rest;
            && |s| == 8 + |payload| + |rest|
            && s[..4] == Le32(optype) && s[4..8] == Le32(|payload|) && s[8..] == payload + rest
            && s[8..8 + |payload|] == payload && s[8 + |payload|..] == rest
  {
  }

  /** A packet of any length a 32-bit field can hold reads back as written, with
      the stream at the next packet, if and only if its length is below 2 to
      the 31st: beyond, the signed test takes it for an empty one. */
  lemma ReadsBackIff(optype: int32, payload: seq<byte>, rest: seq<byte>)
    requires |payload| < 0x1_0000_0000
    ensures ReadPacket(Frame(optype, payload) + rest) == Some((Packet(optype, payload), rest)) <==>
      |payload| < 0x8000_0000
  {
    FrameParts(optype, payload, rest);
    Le32RoundTrip(optype);
    if |payload| < 0x8000_0000 {
      Le32RoundTrip(|payload|);
      if payload == [] { assert payload + rest == rest; }
    } else {
      Le32Wraps(|payload|);
    }
  }

  /** The low byte comes first: operation 5 with two bytes of payload. */
  lemma SmallFrame()
    ensures Frame(5, [97, 98]) == [5, 0, 0, 0, 2, 0, 0, 0, 97, 98]
  {
  }

  /** Such a packet: 2 to the 31st bytes read back as none, and the next read
      begins in the middle of them. */
  lemma HalfOfAllLengthsIsLost(optype: int32, rest: seq<byte>)
    ensures var payload := seq(0x8000_0000, _ => 0 as byte);
            ReadPacket(Frame(optype, payload) + rest) == Some((Packet(optype, []), payload + rest))
  {
    var payload := seq(0x8000_0000, _ => 0 as byte);
    FrameParts(optype, payload, rest);
    Le32RoundTrip(optype);
    Le32Wraps(0x8000_0000);
  }

  function WriteAll(ps: seq<Packet>): seq<byte> {
    if ps == [] then [] else Frame(ps[0].optype, ps[0].payload) + WriteAll(ps[1..])
  }

  /** Read repeated until the stream is used up; None if it ends in mid-packet. */
  function ReadAll(s: seq<byte>): Option<seq<Packet>>
    decreases |s|
  {
    if s == [] then Some([])
    else
      match ReadPacket(s)
      case None => None
      case Some(r) =>
        var more := if |r.1| < |s| then ReadAll(r.1) else None;
        if more.None? then None else Some([r.0] + more.value)
  }

  /** The concatenated output of Write reads back as the same packets, empty
      payloads included. */
  lemma {:induction false} StreamRoundTrip(ps: seq<Packet>)
    requires forall p :: p in ps ==> |p.payload| < 0x8000_0000
    ensures ReadAll(WriteAll(ps)) == Some(ps)
  {
    if ps != [] {
      var p := ps[0];
      ReadsBackIff(p.optype, p.payload, WriteAll(ps[1..]));
      FrameParts(p.optype, p.payload, WriteAll(ps[1..]));
      StreamRoundTrip(ps[1..]);
      assert [p] + ps[1..] == ps;
    }
  }

  /** Write: header fields, then the payload copied behind them. */
  method Write(optype: int32, buf: array<byte>) returns (wire: array<byte>)
    ensures fresh(wire) && wire[..] == Frame(optype, buf[..])
  {
    wire := new byte[8 + buf.Length];
    PutInt(wire, 0, optype);
    PutInt(wire, 4, buf.Length);
    forall i | 0 <= i < buf.Length {
      wire[8 + i] := buf[i];
    }
    assert wire[..] == wire[..4] + wire[4..8] + wire[8..];
    assert wire[8..] == buf[..];
  }

  /** A 32-bit field stored at an offset. */
  method PutInt(wire: array<byte>, at: nat, n: int)
    requires at + 4 <= wire.Length
    modifies wire
    ensures wire[at..at + 4] == Le32(n)
    ensures forall i :: 0 <= i < wire.Length && !(at <= i < at + 4) ==> wire[i] == old(wire[i])
  {
    var b := Le32(n);
    wire[at], wire[at + 1], wire[at + 2], wire[at + 3] := b[0], b[1], b[2], b[3];
  }

  /** FILE_HEADER: operation, a 20-byte name field, two ids and the data length. */
  function FileHeader(optype: int32, name: seq<byte>, src: int32, dst: int32, lenth: int): seq<byte>
    requires |name| == 20
  {
    Le32(optype) + name + Le32(src) + Le32(dst) + Le32(lenth)
  }

  /** strcpy of the file name into its field. */
  method PutName(wire: array<byte>, filename: seq<byte>)
    requires 44 <= wire.Length && |filename| < 20
    modifies wire
    ensures filename + [0] <= wire[12..32]
    ensures forall i :: 0 <= i < wire.Length && !(12 <= i < 32) ==> wire[i] == old(wire[i])
  {
    forall i | 0 <= i < |filename| {
      wire[12 + i] := filename[i];
    }
    wire[12 + |filename|] := 0;
  }

  /** Both headers of a file packet with n bytes of data. */
  method PutFileHeader(wire: array<byte>, optype: int32, filename: seq<byte>, src: int32, dst: int32, n: nat)
    requires 44 <= wire.Length && |filename| < 20
    modifies wire
    ensures filename + [0] <= wire[12..32]
    ensures wire[..44] == Le32(OP_FILE) + Le32(n + 36) + FileHeader(optype, wire[12..32], src, dst, n)
  {
    PutName(wire, filename);
    ghost var name := wire[12..32];
    PutInt(wire, 0, OP_FILE);
    PutInt(wire, 4, n + 36);
    PutInt(wire, 8, optype);
    PutInt(wire, 32, src);
    PutInt(wire, 36, dst);
    PutInt(wire, 40, n);
    assert wire[12..32] == name;
    assert wire[0..4] == Le32(OP_FILE) && wire[4..8] == Le32(n + 36) && wire[8..12] == Le32(optype);
    assert wire[32..36] == Le32(src) && wire[36..40] == Le32(dst);
    Slices(wire[..]);
  }

  lemma Slices(w: seq<byte>)
    requires 44 <= |w|
    ensures w[..44] == w[0..4] + w[4..8] + (w[8..12] + w[12..32] + w[32..36] + w[36..40] + w[40..44])
  {
  }

  /** Write_file, for a name that fits its field. The bytes of the field after
      the name's NUL are whatever the allocation held. */
  method WriteFile(optype: int32, filename: seq<byte>, src: int32, dst: int32, buf: array<byte>)
    returns (wire: array<byte>)
    requires |filename| < 20
    ensures fresh(wire) && wire.Length == 44 + buf.Length
    ensures filename + [0] <= wire[12..32]
    ensures wire[..] == Frame(OP_FILE, FileHeader(optype, wire[12..32], src, dst, buf.Length) + buf[..])
  {
    wire := new byte[44 + buf.Length];
    PutFileHeader(wire, optype, filename, src, dst, buf.Length);
    ghost var head := wire[..44];
    ghost var name := wire[12..32];
    var i := 0;
    while i < buf.Length
      invariant 0 <= i <= buf.Length
      invariant wire[..44] == head && wire[44..44 + i] == buf[..i]
    {
      wire[44 + i] := buf[i];
      i := i + 1;
    }
    assert wire[12..32] == wire[..44][12..32] == head[12..32] == name;
    assert wire[..] == wire[..44] + wire[44..] && wire[44..] == buf[..];
  }

  /** A C string: up to its first NUL. */
  function CString(s: seq<byte>): seq<byte> {
    if s == [] || s[0] == 0 then [] else [s[0]] + CString(s[1..])
  }

  lemma {:induction false} CStringOf(text: seq<byte>, rest: seq<byte>)
    requires 0 !in text
    ensures CString(text + [0] + rest) == text
  {
    if text != [] {
      assert (text + [0] + rest)[1..] == text[1..] + [0] + rest;
      CStringOf(text[1..], rest);
    } else {
      assert (text + [0] + rest)[0] == 0;
    }
  }

  /** Every field of a file packet can be read back from what Write_file sends. */
  lemma FilePacketRoundTrip(optype: int32, filename: seq<byte>, name: seq<byte>, src: int32, dst: int32,
                            data: seq<byte>, rest: seq<byte>)
    requires |filename| < 20 && 0 !in filename && |name| == 20 && filename + [0] <= name
    requires |data| + 36 < 0x8000_0000
    ensures var payload := FileHeader(optype, name, src, dst, |data|) + data;
            && ReadPacket(Frame(OP_FILE, payload) + rest) == Some((Packet(OP_FILE, payload), rest))
            && ReadLe32(payload[..4]) == optype && CString(payload[4..24]) == filename
            && ReadLe32(payload[24..28]) == src && ReadLe32(payload[28..32]) == dst
            && ReadLe32(payload[32..36]) == |data| && payload[36..] == data
  {
    var payload := FileHeader(optype, name, src, dst, |data|) + data;
    ReadsBackIff(OP_FILE, payload, rest);
    Le32RoundTrip(optype);
    Le32RoundTrip(src);
    Le32RoundTrip(dst);
    Le32RoundTrip(|data|);
    assert payload[..4] == Le32(optype) && payload[4..24] == name;
    assert payload[24..28] == Le32(src) && payload[28..32] == Le32(dst) && payload[32..36] == Le32(|data|);
    assert name == filename + [0] + name[|filename| + 1..];
    CStringOf(filename, name[|filename| + 1..]);
  }
}
