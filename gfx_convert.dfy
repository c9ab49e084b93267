/**
 * Bit-level transforms of the PNG converter: the bit-reversal table, per-tile
 * horizontal mirroring, and MSB-first unpacking/packing between 1-bit-per-pixel
 * bytes and 0/255 grey pixels. Bytes are `bv8` here because every operation is
 * bitwise.
 */
module GfxConvert {
  import opened Common

  /** Bit `k` of `b`, bit 0 being the least significant. */
  predicate Bit(b: bv8, k: nat)
    requires k < 8
  {
    (b >> k) & 1 == 1
  }

  /** Two bytes with the same eight bits are the same byte. */
  lemma BitsDetermine(a: bv8, b: bv8)
    requires forall k | 0 <= k < 8 :: Bit(a, k) == Bit(b, k)
    ensures a == b
  {
    assert Bit(a, 0) == Bit(b, 0) && Bit(a, 1) == Bit(b, 1);
    assert Bit(a, 2) == Bit(b, 2) && Bit(a, 3) == Bit(b, 3);
    assert Bit(a, 4) == Bit(b, 4) && Bit(a, 5) == Bit(b, 5);
    assert Bit(a, 6) == Bit(b, 6) && Bit(a, 7) == Bit(b, 7);
  }

  /** The three swaps `_build_reverse_table` applies: nibbles, then bit pairs, then single bits. */
  function SwapSteps(b: bv8): bv8
  {
    var v := ((b & 0xF0) >> 4) | ((b & 0x0F) << 4);
    var v := ((v & 0xCC) >> 2) | ((v & 0x33) << 2);
    ((v & 0xAA) >> 1) | ((v & 0x55) << 1)
  }

  lemma SwapStepsReverses(b: bv8, k: nat)
    requires k < 8
    ensures Bit(SwapSteps(b), k) == Bit(b, 7 - k)
  {
    if k == 0 {} else if k == 1 {} else if k == 2 {} else if k == 3 {}
    else if k == 4 {} else if k == 5 {} else if k == 6 {} else {}
  }

  /** `_build_reverse_table`: entry `b` holds `b` with its bit order reversed. */
  method BuildReverseTable() returns (tbl: seq<bv8>)
    ensures |tbl| == 256
    ensures forall b, k | 0 <= b < 256 && 0 <= k < 8 :: Bit(tbl[b], k) == Bit(b as bv8, 7 - k)
  {
    var a := new bv8[256](_ => 0);
    var b := 0;
    while b < 256
      invariant 0 <= b <= 256
      invariant forall j | 0 <= j < b :: a[j] == SwapSteps(j as bv8)
    {
      a[b] := SwapSteps(b as bv8);
      b := b + 1;
    }
    tbl := a[..];
    forall j, k | 0 <= j < 256 && 0 <= k < 8 ensures Bit(tbl[j], k) == Bit(j as bv8, 7 - k) {
      SwapStepsReverses(j as bv8, k);
    }
  }

  /** A table entry: `b` with its bit order reversed. */
  function Reverse8(b: bv8): (r: bv8)
    ensures forall k | 0 <= k < 8 :: Bit(r, k) == Bit(b, 7 - k)
  {
    var r := SwapSteps(b);
    forall k | 0 <= k < 8 ensures Bit(r, k) == Bit(b, 7 - k) {
      SwapStepsReverses(b, k);
    }
    r
  }

  /** `reverseByte(b)`: the table entry for `b & 0xFF`. */
  function ReverseByte(b: int): (r: bv8)
    ensures forall k | 0 <= k < 8 :: Bit(r, k) == Bit((b % 256) as bv8, 7 - k)
  {
    Reverse8((b % 256) as bv8)
  }

  /** Reversing the bit order twice gives the byte back. */
  lemma ReverseInvolution(b: bv8)
    ensures Reverse8(Reverse8(b)) == b
  {
    BitsDetermine(Reverse8(Reverse8(b)), b);
  }

  /** `bytes(reverseByte(x) for x in data)`. */
  function ReverseAll(data: seq<bv8>): (r: seq<bv8>)
    ensures |r| == |data|
    ensures forall i, k | 0 <= i < |data| && 0 <= k < 8 :: Bit(r[i], k) == Bit(data[i], 7 - k)
  {
    seq(|data|, i requires 0 <= i < |data| => Reverse8(data[i]))
  }

  lemma {:induction false} ReverseAllInvolution(data: seq<bv8>)
    ensures ReverseAll(ReverseAll(data)) == data
  {
    var twice := ReverseAll(ReverseAll(data));
    forall i | 0 <= i < |data| ensures twice[i] == data[i] {
      BitsDetermine(twice[i], data[i]);
    }
  }

  /** `mirror8x8TileBytes`: an 8-byte tile with every row byte bit-reversed; any other length is refused. */
  function Mirror8x8Tile(tile: seq<bv8>): (r: Result<seq<bv8>>)
    ensures r.Ok? <==> |tile| == 8
    ensures r.Err? ==> r.error == WrongTileSize(|tile|)
    ensures r.Ok? ==> |r.value| == 8
    ensures r.Ok? ==> forall i, k | 0 <= i < 8 && 0 <= k < 8 :: Bit(r.value[i], k) == Bit(tile[i], 7 - k)
  {
    if |tile| != 8 then Err(WrongTileSize(|tile|)) else Ok(ReverseAll(tile))
  }

  /** Mirroring a tile twice gives the tile back. */
  lemma {:induction false} MirrorTwice(tile: seq<bv8>)
    requires |tile| == 8
    ensures Mirror8x8Tile(Mirror8x8Tile(tile).value) == Ok(tile)
  {
    ReverseAllInvolution(tile);
  }

  // ------------------------------------------------------------ 1bpp packing

  /** Pixel `i` of an MSB-first 1bpp bitmap: bit `7 - (i & 7)` of byte `i >> 3`. */
  predicate BitAt(data: seq<bv8>, i: nat)
    requires i / 8 < |data|
  {
    Bit(data[i / 8], 7 - i % 8)
  }

  /** The grey value of a pixel: 0 (black) when its bit, XOR `invert`, is set, else 255. */
  function PixelOf(bit: bool, invert: bool): bv8
  {
    if bit != invert then 0 else 255
  }

  /** `_unpack_1bpp_to_pixels`: `w * h` grey values, MSB-first. */
  method Unpack1bpp(data: seq<bv8>, w: nat, h: nat, invert: bool) returns (out: seq<bv8>)
    requires w * h <= 8 * |data|
    ensures |out| == w * h
    ensures forall i | 0 <= i < w * h :: out[i] == PixelOf(BitAt(data, i), invert)
  {
    var total := w * h;
    var a := new bv8[total](_ => 0);
    var i := 0;
    while i < total
      invariant 0 <= i <= total
      invariant forall j | 0 <= j < i :: a[j] == PixelOf(BitAt(data, j), invert)
    {
      var byte := data[i / 8];
      var bit := 7 - i % 8;
      var v := (byte >> bit) & 1;
      if invert {
        v := v ^ 1;
      }
      a[i] := if v == 1 then 0 else 255;
      i := i + 1;
    }
    out := a[..];
  }

  /** A pixel is dark (packed as a 1 bit before inversion) when its grey value is below 128. */
  predicate Dark(g: bv8)
  {
    g < 128
  }

  /**
   * `packed` is the MSB-first 1bpp form of the grey pixels `px`: one byte per
   * eight pixels rounded up, a bit set exactly when its pixel is dark XOR
   * `invert`, and the unused trailing bits clear.
   */
  predicate Packs(packed: seq<bv8>, px: seq<bv8>, invert: bool)
  {
    && |packed| == (|px| + 7) / 8
    && (forall i | 0 <= i < |px| :: BitAt(packed, i) == (Dark(px[i]) != invert))
    && (forall i | |px| <= i < 8 * |packed| :: !BitAt(packed, i))
  }

  /** Setting bit `m` sets bit `m` and leaves every other bit as it was. */
  lemma SetBit(x: bv8, m: nat, k: nat)
    requires m < 8 && k < 8
    ensures Bit(x | ((1 as bv8) << m), k) == (Bit(x, k) || k == m)
  {
    if k == 0 {
      if m == 0 {} else if m == 1 {} else if m == 2 {} else if m == 3 {}
      else if m == 4 {} else if m == 5 {} else if m == 6 {} else {}
    } else if k == 1 {
      if m == 0 {} else if m == 1 {} else if m == 2 {} else if m == 3 {}
      else if m == 4 {} else if m == 5 {} else if m == 6 {} else {}
    } else if k == 2 {
      if m == 0 {} else if m == 1 {} else if m == 2 {} else if m == 3 {}
      else if m == 4 {} else if m == 5 {} else if m == 6 {} else {}
    } else if k == 3 {
      if m == 0 {} else if m == 1 {} else if m == 2 {} else if m == 3 {}
      else if m == 4 {} else if m == 5 {} else if m == 6 {} else {}
    } else if k == 4 {
      if m == 0 {} else if m == 1 {} else if m == 2 {} else if m == 3 {}
      else if m == 4 {} else if m == 5 {} else if m == 6 {} else {}
    } else if k == 5 {
      if m == 0 {} else if m == 1 {} else if m == 2 {} else if m == 3 {}
      else if m == 4 {} else if m == 5 {} else if m == 6 {} else {}
    } else if k == 6 {
      if m == 0 {} else if m == 1 {} else if m == 2 {} else if m == 3 {}
      else if m == 4 {} else if m == 5 {} else if m == 6 {} else {}
    } else {
      if m == 0 {} else if m == 1 {} else if m == 2 {} else if m == 3 {}
      else if m == 4 {} else if m == 5 {} else if m == 6 {} else {}
    }
  }

  /** Setting pixel `i`'s bit in a bitmap sets that pixel and no other. */
  lemma SetPixelBit(before: seq<bv8>, after: seq<bv8>, i: nat)
    requires i / 8 < |before| && after == before[i / 8 := before[i / 8] | ((1 as bv8) << (7 - i % 8))]
    ensures forall j | 0 <= j < 8 * |before| :: BitAt(after, j) == (BitAt(before, j) || j == i)
  {
    forall j | 0 <= j < 8 * |before| ensures BitAt(after, j) == (BitAt(before, j) || j == i) {
      if j / 8 == i / 8 {
        SetBit(before[i / 8], 7 - i % 8, 7 - j % 8);
        assert j == 8 * (j / 8) + j % 8 && i == 8 * (i / 8) + i % 8;
      } else {
        assert j != i;
      }
    }
  }

  /** `_pack_pixels_to_1bpp` over the grey bytes of the image. */
  method Pack1bpp(px: seq<bv8>, invert: bool) returns (out: seq<bv8>)
    ensures Packs(out, px, invert)
  {
    var total := |px|;
    var outLen := (total + 7) / 8;
    var a := new bv8[outLen](_ => 0);
    var i := 0;
    while i < total
      invariant 0 <= i <= total
      invariant forall j | 0 <= j < i :: BitAt(a[..], j) == (Dark(px[j]) != invert)
      invariant forall j | i <= j < 8 * outLen :: !BitAt(a[..], j)
    {
      var v := Dark(px[i]);
      if invert {
        v := !v;
      }
      if v {
        ghost var before := a[..];
        a[i / 8] := a[i / 8] | ((1 as bv8) << (7 - i % 8));
        SetPixelBit(before, a[..], i);
      }
      i := i + 1;
    }
    out := a[..];
  }

  /** Pixel `8 * j + (7 - k)` of a bitmap sits in bit `k` of byte `j`. */
  lemma PixelPosition(j: nat, k: nat)
    requires k < 8
    ensures (8 * j + (7 - k)) / 8 == j && 7 - (8 * j + (7 - k)) % 8 == k
  {
    DivModUnique(8 * j + (7 - k), 8, j, 7 - k);
  }

  /**
   * Packing the pixels that unpacking produced, with the same `invert`, gives
   * the original bytes back when the bitmap fills whole bytes.
   */
  lemma {:induction false} PackUnpackRoundTrip(data: seq<bv8>, w: nat, h: nat, invert: bool, px: seq<bv8>, packed: seq<bv8>)
    requires w * h == 8 * |data|
    requires |px| == w * h && forall i | 0 <= i < w * h :: px[i] == PixelOf(BitAt(data, i), invert)
    requires Packs(packed, px, invert)
    ensures packed == data
  {
    assert |packed| == |data|;
    forall j | 0 <= j < |data| ensures packed[j] == data[j] {
      forall k | 0 <= k < 8 ensures Bit(packed[j], k) == Bit(data[j], k) {
        PixelPosition(j, k);
        var i := 8 * j + (7 - k);
        assert BitAt(packed, i) == (Dark(px[i]) != invert);
      }
      BitsDetermine(packed[j], data[j]);
    }
  }

  // ------------------------------------------------- per-asset conversion

  /** The byte length of a `w` by `h` 1bpp bitmap: `(w * h + 7) // 8`. */
  function BitmapBytes(w: nat, h: nat): (n: nat)
    ensures 8 * n >= w * h && 8 * n < w * h + 8
  {
    (w * h + 7) / 8
  }

  /**
   * The pixels `convert_bitmap_extract` hands to the PNG writer for the
   * binary file `bin`: the file fitted to the bitmap size, then read with the
   * bits of each byte reversed, i.e. least significant bit first.
   */
  predicate ExtractsTo(bin: seq<bv8>, w: nat, h: nat, invert: bool, pixels: seq<bv8>)
  {
    var fitted := FitTo(bin, BitmapBytes(w, h), 0 as bv8);
    && |pixels| == w * h
    && forall i | 0 <= i < w * h :: i / 8 < |fitted| && pixels[i] == PixelOf(Bit(fitted[i / 8], i % 8), invert)
  }

  /**
   * `packed` is what `convert_bitmap_pack` writes for grey pixels `px`:
   * least significant bit first, a bit set exactly when its pixel is dark XOR
   * `invert`, unused bits clear.
   */
  predicate PacksMirrored(packed: seq<bv8>, px: seq<bv8>, invert: bool)
  {
    && |packed| == (|px| + 7) / 8
    && (forall i | 0 <= i < |px| :: Bit(packed[i / 8], i % 8) == (Dark(px[i]) != invert))
    && (forall i | |px| <= i < 8 * |packed| :: !Bit(packed[i / 8], i % 8))
  }

  /** `convert_bitmap_extract` without the PNG writing: `None` when the binary file is missing. */
  method ConvertBitmapExtract(bin: Option<seq<bv8>>, w: nat, h: nat, invert: bool) returns (ok: bool, pixels: seq<bv8>)
    ensures ok == bin.Some?
    ensures ok ==> ExtractsTo(bin.value, w, h, invert, pixels)
  {
    if bin.None? {
      return false, [];
    }
    var expected := BitmapBytes(w, h);
    var data := FitTo(bin.value, expected, 0 as bv8);
    var mirrored := ReverseAll(data);
    pixels := Unpack1bpp(mirrored, w, h, invert);
    ok := true;
    forall i | 0 <= i < w * h ensures pixels[i] == PixelOf(Bit(data[i / 8], i % 8), invert) {
      assert Bit(mirrored[i / 8], 7 - i % 8) == Bit(data[i / 8], 7 - (7 - i % 8));
    }
  }

  /** `convert_bitmap_pack` from the grey bytes of the (already resized) image. */
  method ConvertBitmapPack(px: seq<bv8>, invert: bool) returns (packed: seq<bv8>)
    ensures PacksMirrored(packed, px, invert)
  {
    var msb := Pack1bpp(px, invert);
    packed := ReverseAll(msb);
    forall i | 0 <= i < 8 * |packed| ensures Bit(packed[i / 8], i % 8) == BitAt(msb, i) {
    }
  }

  /**
   * Converting a binary to pixels and packing those pixels again, with the same
   * `invert`, reproduces the binary as fitted to the bitmap size, when the
   * bitmap fills whole bytes: the two bit reversals cancel.
   */
  lemma {:induction false} ConvertRoundTrip(bin: seq<bv8>, w: nat, h: nat, invert: bool, pixels: seq<bv8>, packed: seq<bv8>)
    requires (w * h) % 8 == 0
    requires ExtractsTo(bin, w, h, invert, pixels)
    requires PacksMirrored(packed, pixels, invert)
    ensures packed == FitTo(bin, BitmapBytes(w, h), 0 as bv8)
  {
    var fitted := FitTo(bin, BitmapBytes(w, h), 0 as bv8);
    assert 8 * |fitted| == w * h;
    forall j | 0 <= j < |fitted| ensures packed[j] == fitted[j] {
      forall k | 0 <= k < 8 ensures Bit(packed[j], k) == Bit(fitted[j], k) {
        var i := 8 * j + k;
        DivModUnique(i, 8, j, k);
        assert Bit(packed[i / 8], i % 8) == (Dark(pixels[i]) != invert);
      }
      BitsDetermine(packed[j], fitted[j]);
    }
  }
}
