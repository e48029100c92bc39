/** The wire format of the reliable transport: an 11-byte big-endian header and a payload. */
module ArpFrames {
  import opened Bits
  import opened Buffers
  import opened Endian
  import opened Wrappers

  const HEADER_BYTES := 11
  const FRAME_DATA := 0
  const FRAME_ACK := 1

  /** Numbers are unbounded here; the encoder truncates them to their field widths. */
  datatype Frame = Frame(kind: nat, seqNo: nat, ack: nat, window: nat, payload: seq<byte>)

  /** What the encoder's field widths leave of a frame. */
  function Truncated(f: Frame): Frame {
    f.(kind := f.kind % 0x100, seqNo := f.seqNo % 0x1_0000_0000,
       ack := f.ack % 0x1_0000_0000, window := f.window % 0x1_0000)
  }

  function Encoded(f: Frame): (s: seq<byte>)
    ensures |s| == HEADER_BYTES + |f.payload|
  {
    BigEndian(f.kind, 1) + BigEndian(f.seqNo, 4) + BigEndian(f.ack, 4) + BigEndian(f.window, 2) + f.payload
  }

  /** None for a buffer shorter than a header. */
  function Decode(buf: seq<byte>): Option<Frame> {
    if |buf| < HEADER_BYTES then None
    else Some(Frame(FromBigEndian(buf[0..1]), FromBigEndian(buf[1..5]), FromBigEndian(buf[5..9]),
                    FromBigEndian(buf[9..11]), buf[11..]))
  }

  function Number(a: int, b: int, c: int, d: int): int {
    0x100_0000 * a + 0x1_0000 * b + 0x100 * c + d
  }

  /** Where each field stands: the kind, then three numbers, most significant byte first. */
  lemma HeaderLayout(f: Frame)
    ensures var s := Encoded(f);
            && |s| == 11 + |f.payload| && s[11..] == f.payload && s[0] == f.kind % 0x100
            && Number(s[1], s[2], s[3], s[4]) == f.seqNo % 0x1_0000_0000
            && Number(s[5], s[6], s[7], s[8]) == f.ack % 0x1_0000_0000
            && Number(0, 0, s[9], s[10]) == f.window % 0x1_0000
  {
    OneByte(f.kind);
    FourBytes(f.seqNo);
    FourBytes(f.ack);
    TwoBytes(f.window);
    hide BigEndian;
  }

  lemma OneByte(x: nat)
    ensures BigEndian(x, 1)[0] == x % 0x100
  {
    assert BigEndian(x / 256, 0) == [];
  }

  lemma TwoBytes(x: nat)
    ensures var s := BigEndian(x, 2); Number(0, 0, s[0], s[1]) == x % 0x1_0000
  {
    OneByte(x / 256);
    DivideTwice(x, 0x100);
  }

  lemma FourBytes(x: nat)
    ensures var s := BigEndian(x, 4); Number(s[0], s[1], s[2], s[3]) == x % 0x1_0000_0000
  {
    var y, z := x / 256, x / 256 / 256;
    TwoBytes(z);
    assert BigEndian(x, 4) == BigEndian(z, 2) + [y % 256, x % 256] by {
      assert BigEndian(x, 4) == BigEndian(y, 3) + [x % 256] && BigEndian(y, 3) == BigEndian(z, 2) + [y % 256];
    }
    DivideTwice(y, 0x1_0000);
    DivideTwice(x, 0x100_0000);
    hide BigEndian;
  }

  /** Decoding an encoded frame loses exactly what does not fit the fields. */
  lemma DecodeEncoded(f: Frame)
    ensures Decode(Encoded(f)) == Some(Truncated(f))
  {
    var s := Encoded(f);
    assert s[0..1] == BigEndian(f.kind, 1);
    assert s[1..5] == BigEndian(f.seqNo, 4);
    assert s[5..9] == BigEndian(f.ack, 4);
    assert s[9..11] == BigEndian(f.window, 2);
    assert s[11..] == f.payload;
    BigEndianTruncates(f.kind, 1);
    BigEndianTruncates(f.seqNo, 4);
    BigEndianTruncates(f.ack, 4);
    BigEndianTruncates(f.window, 2);
    assert Pow256(1) == 0x100 && Pow256(2) == 0x1_0000;
    assert Pow256(4) == 0x1_0000_0000 by { assert Pow256(4) == 256 * (256 * Pow256(2)); }
  }

  /** Every buffer long enough for a header is the encoding of the frame it decodes to. */
  lemma EncodeDecoded(buf: seq<byte>)
    requires |buf| >= HEADER_BYTES
    ensures Encoded(Decode(buf).value) == buf
  {
    BigEndianInverse(buf[0..1]);
    BigEndianInverse(buf[1..5]);
    BigEndianInverse(buf[5..9]);
    BigEndianInverse(buf[9..11]);
    assert buf == buf[0..1] + buf[1..5] + buf[5..9] + buf[9..11] + buf[11..];
  }

  /** Writes x into n bytes of a buffer at an offset, as a big-endian `DataView` does. */
  method SetUint(view: array<byte>, offset: nat, n: nat, x: nat)
    requires offset + n <= view.Length
    modifies view
    ensures view[..offset + n] == old(view[..offset]) + BigEndian(x, n)
  {
    var rest := x;
    var i := n;
    while i > 0
      invariant 0 <= i <= n
      invariant BigEndian(x, n) == BigEndian(rest, i) + view[offset + i..offset + n]
      invariant view[..offset] == old(view[..offset])
    {
      i := i - 1;
      view[offset + i] := rest % 256;
      rest := rest / 256;
      assert view[offset + i..offset + n] == [view[offset + i]] + view[offset + i + 1..offset + n];
    }
    assert view[..offset + n] == view[..offset] + view[offset..offset + n];
  }

  method EncodeFrame(f: Frame) returns (buf: array<byte>)
    ensures fresh(buf) && buf[..] == Encoded(f)
  {
    hide BigEndian;
    buf := new byte[HEADER_BYTES + |f.payload|](_ => 0);
    SetUint(buf, 0, 1, f.kind);
    SetUint(buf, 1, 4, f.seqNo);
    SetUint(buf, 5, 4, f.ack);
    SetUint(buf, 9, 2, f.window);
    ghost var header := buf[..HEADER_BYTES];
    SetAt(buf, f.payload, HEADER_BYTES);
    assert buf[..] == header + buf[HEADER_BYTES..HEADER_BYTES + |f.payload|];
  }
}
