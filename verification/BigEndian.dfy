// Fixed-width big-endian integers, as both the provenance fold and the class-file codec write them.
module BigEndian {
  import opened Text

  function Span(width: nat): (r: nat)
    ensures r > 0
  {
    if width == 0 then 1 else 256 * Span(width - 1)
  }

  // The low `width` bytes of `n`: wider values are truncated, as a Rust `as` cast does.
  function Encode(n: nat, width: nat): (r: Bytes)
    ensures |r| == width
  {
    if width == 0 then [] else Encode(n / 256, width - 1) + [n % 256]
  }

  function Decode(b: Bytes): (r: nat)
    ensures r < Span(|b|)
  {
    if b == [] then 0
    else
      var high := Decode(b[..|b| - 1]);
      var low: int := b[|b| - 1];
      high * 256 + low
  }

  lemma {:induction false} DecodeEncode(n: nat, width: nat)
    requires n < Span(width)
    ensures Decode(Encode(n, width)) == n
  {
    if width > 0 {
      DecodeEncode(n / 256, width - 1);
      assert Encode(n, width)[..width - 1] == Encode(n / 256, width - 1);
    }
  }

  lemma {:induction false} EncodeDecode(b: Bytes)
    ensures Encode(Decode(b), |b|) == b
  {
    if b != [] {
      var init := b[..|b| - 1];
      EncodeDecode(init);
      var low: int := b[|b| - 1];
      assert Decode(b) == Decode(init) * 256 + low;
      assert Decode(b) / 256 == Decode(init) && Decode(b) % 256 == low;
      assert init + [b[|b| - 1]] == b;
    }
  }

  lemma EncodeSmall(n: nat, width: nat)
    requires n < 256 && width > 0
    ensures Encode(n, width) == seq(width - 1, i => 0) + [n]
  {
    EncodeZero(width - 1);
  }

  lemma {:induction false} EncodeZero(width: nat)
    ensures Encode(0, width) == seq(width, i => 0)
  {
    if width > 0 {
      EncodeZero(width - 1);
    }
  }

  // The first byte counts most.
  lemma Weights(a: Byte, b: Byte, c: Byte, d: Byte)
    ensures Decode([a, b]) == 0x100 * a + b
    ensures Decode([a, b, c, d]) == 0x100_0000 * a + 0x1_0000 * b + 0x100 * c + d
  {
    assert [a, b, c, d][..3] == [a, b, c] && [a, b, c][..2] == [a, b] && [a, b][..1] == [a] && [a][..0] == [];
    assert Decode([a]) == a;
    assert Decode([a, b, c]) == 256 * Decode([a, b]) + c;
  }

  lemma Spans()
    ensures Span(2) == 0x1_0000 && Span(4) == 0x1_0000_0000 && Span(8) == 0x1_0000_0000_0000_0000
  {
    assert Span(1) == 256 && Span(2) == 0x1_0000 && Span(3) == 0x100_0000 && Span(4) == 0x1_0000_0000;
    assert Span(5) == 256 * Span(4) && Span(6) == 256 * Span(5) && Span(7) == 256 * Span(6);
  }
}
