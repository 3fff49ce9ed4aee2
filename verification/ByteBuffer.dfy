/** The router's writers, which push bytes to a buffer, and readers, which advance an offset over received bytes. */
module ByteBuffer {
  import opened Bounded
  import opened Endian
  import opened Wire

  class Writer {
    var data: Bytes

    constructor ()
      ensures data == []
    {
      data := [];
    }

    method WriteByte(value: u8)
      modifies this
      ensures data == old(data) + [value]
    {
      data := data + [value];
    }

    method WriteUint32(value: u32)
      modifies this
      ensures data == old(data) + PutInt(Little, 4, value)
    {
      FourLittleBytes(value);
      data := data + [value % 0x100];
      data := data + [(value / 0x100) % 0x100];
      data := data + [(value / 0x1_0000) % 0x100];
      data := data + [(value / 0x100_0000) % 0x100];
    }

    /** The high word goes first. */
    method WriteUint64(value: u64)
      modifies this
      ensures data == old(data) + PutInt(HighWordFirst, 8, value)
    {
      Powers();
      LittleBytesModulo(value, 4);
      WriteUint32(value / TWO_TO_THE_32);
      WriteUint32(value % TWO_TO_THE_32);
      assert data == old(data) + (LittleBytes(value / TWO_TO_THE_32, 4) + LittleBytes(value, 4));
    }

    method WritePort(value: u16)
      modifies this
      ensures data == old(data) + PutInt(Big, 2, value)
    {
      TwoBigBytes(value);
      data := data + [value / 0x100];
      data := data + [value % 0x100];
    }

    method WriteString(text: Bytes)
      modifies this
      ensures data == old(data) + (PutSize(Little, |text|) + text)
    {
      WriteUint32(|text| % TWO_TO_THE_32);
      data := data + text;
    }
  }

  lemma FourLittleBytes(value: u32)
    ensures PutInt(Little, 4, value)
            == [value % 0x100, (value / 0x100) % 0x100, (value / 0x1_0000) % 0x100, (value / 0x100_0000) % 0x100]
  {
    var a, b, c := value / 0x100, value / 0x1_0000, value / 0x100_0000;
    assert a / 0x100 == b && b / 0x100 == c;
    assert LittleBytes(c, 1) == [c % 0x100];
    assert LittleBytes(b, 2) == [b % 0x100] + LittleBytes(c, 1);
    assert LittleBytes(a, 3) == [a % 0x100] + LittleBytes(b, 2);
    assert LittleBytes(value, 4) == [value % 0x100] + LittleBytes(a, 3);
  }

  lemma TwoBigBytes(value: u16)
    ensures PutInt(Big, 2, value) == [value / 0x100, value % 0x100]
  {
    assert BigBytes(value / 0x100, 1) == [value / 0x100];
  }

  lemma FourLittleValues(b: Bytes)
    requires |b| == 4
    ensures GetInt(Little, b) == b[0] as nat + 0x100 * b[1] as nat + 0x1_0000 * b[2] as nat + 0x100_0000 * b[3] as nat
  {
    assert b[1..][1..] == b[2..] && b[2..][1..] == b[3..];
    assert LittleValue(b[3..]) == b[3];
    assert LittleValue(b[2..]) == b[2] as nat + 0x100 * b[3] as nat;
    assert LittleValue(b[1..]) == b[1] as nat + 0x100 * (b[2] as nat + 0x100 * b[3] as nat);
  }

  lemma TwoBigValues(b: Bytes)
    requires |b| == 2
    ensures GetInt(Big, b) == 0x100 * b[0] as nat + b[1] as nat
  {
    assert b[..1] == [b[0]];
    assert BigValue([b[0]]) == b[0];
  }

  class Reader {
    const data: Bytes
    var offset: nat

    constructor (data: Bytes)
      ensures this.data == data && offset == 0
    {
      this.data := data;
      offset := 0;
    }

    ghost predicate Valid()
      reads this
    {
      offset <= |data|
    }

    /** The bytes not yet read. */
    ghost function Ahead(): Bytes
      requires Valid()
      reads this
    {
      data[offset..]
    }

    method ReadByte() returns (r: Option<u8>)
      requires Valid()
      modifies this`offset
      ensures Valid()
      ensures r.None? <==> old(Ahead()) == []
      ensures r.None? ==> offset == old(offset)
      ensures r.Some? ==> Decode(UInt(1, Little), old(Ahead())) == Parsed(Num(r.value), Ahead())
    {
      if offset >= |data| { return None; }
      r := Some(data[offset]);
      offset := offset + 1;
      assert old(Ahead())[..1] == [r.value] && old(Ahead())[1..] == Ahead();
      assert LittleValue([r.value]) == r.value;
    }

    method ReadUint32() returns (r: Option<u32>)
      requires Valid()
      modifies this`offset
      ensures Valid()
      ensures r.None? <==> |old(Ahead())| < 4
      ensures r.None? ==> offset == old(offset)
      ensures r.Some? ==> Decode(UInt(4, Little), old(Ahead())) == Parsed(Num(r.value), Ahead())
    {
      if offset + 4 > |data| { return None; }
      var value := data[offset] as nat + 0x100 * data[offset + 1] as nat
        + 0x1_0000 * data[offset + 2] as nat + 0x100_0000 * data[offset + 3] as nat;
      r := Some(value);
      offset := offset + 4;
      assert old(Ahead())[4..] == Ahead();
      FourLittleValues(old(Ahead())[..4]);
    }

    method ReadUint64() returns (r: Option<u64>)
      requires Valid()
      modifies this`offset
      ensures Valid()
      ensures r.None? <==> |old(Ahead())| < 8
      ensures r.Some? ==> Decode(UInt(8, HighWordFirst), old(Ahead())) == Parsed(Num(r.value), Ahead())
    {
      ghost var b := Ahead();
      var high := ReadUint32();
      if high.None? { return None; }
      var low := ReadUint32();
      if low.None? { return None; }
      r := Some(TWO_TO_THE_32 * high.value + low.value);
      assert b[..8][..4] == b[..4] && b[..8][4..] == b[4..][..4] && b[4..][4..] == b[8..];
    }

    method ReadPort() returns (r: Option<u16>)
      requires Valid()
      modifies this`offset
      ensures Valid()
      ensures r.None? <==> |old(Ahead())| < 2
      ensures r.Some? ==> Decode(UInt(2, Big), old(Ahead())) == Parsed(Num(r.value), Ahead())
    {
      if offset + 2 > |data| { return None; }
      r := Some(0x100 * data[offset] as nat + data[offset + 1] as nat);
      offset := offset + 2;
      assert old(Ahead())[2..] == Ahead();
      TwoBigValues(old(Ahead())[..2]);
    }

    method ReadString() returns (r: Option<Bytes>)
      requires Valid()
      modifies this`offset
      ensures Valid()
      ensures r.None? <==> Decode(Text(Little), old(Ahead())).Fail?
      ensures r.Some? ==> Decode(Text(Little), old(Ahead())) == Parsed(Blob(r.value), Ahead())
    {
      ghost var b := Ahead();
      var size := ReadUint32();
      if size.None? { return None; }
      assert Ahead() == b[4..];
      if offset + size.value > |data| { return None; }
      r := Some(data[offset..offset + size.value]);
      offset := offset + size.value;
      assert b[4..4 + size.value] == r.value && b[4 + size.value..] == Ahead();
    }
  }
}
