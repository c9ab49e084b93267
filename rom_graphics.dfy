/**
 * `tools/rom_graphics.py`: 1-bit-per-pixel bitmaps and frame sequences cut
 * out of the image (extract) or written back into it (pack), at
 * `base + addr`, frame `i` of a sequence `i * step` bytes further on.
 */
module RomGraphics {
  import opened Common
  import opened Json
  import PyNumbers

  // ----------------------------------------------------------------- paths

  /** A parsed `pathlib.Path`: whether it is absolute, and its components (none empty, none `.`). */
  datatype PurePath = PurePath(absolute: bool, parts: seq<string>)

  /** `Path.name`: the last component, or the empty name of `.` and `/`. */
  function Name(p: PurePath): string
  {
    if p.parts == [] then "" else p.parts[|p.parts| - 1]
  }

  /** `resolve_bin_dir`: a directory named `bin` is used as it is; any other is taken as the parent of `bin`. */
  function ResolveBinDir(p: PurePath): (r: PurePath)
    ensures Name(r) == "bin" && r.absolute == p.absolute
    ensures Name(p) == "bin" ==> r == p
    ensures Name(p) != "bin" ==> |r.parts| == |p.parts| + 1 && r.parts[..|p.parts|] == p.parts
  {
    if Name(p) == "bin" then p else PurePath(p.absolute, p.parts + ["bin"])
  }

  /** Resolving twice resolves once. */
  lemma ResolveBinDirIdempotent(p: PurePath)
    ensures ResolveBinDir(ResolveBinDir(p)) == ResolveBinDir(p)
  {
  }

  // --------------------------------------------------------------- numbers

  /**
   * The graphics tool's `parse_hex_or_int`: integers as they are, anything
   * else through `str()`, `strip()` and `lower()`, then hexadecimal after
   * `0x` and decimal otherwise. It reads every value as the patch tool does.
   */
  function HexOrInt(j: Json): (r: Result<int>)
    ensures r.Ok? <==> ParseHexOrIntValue(j).Ok?
    ensures r.Ok? ==> r == ParseHexOrIntValue(j)
  {
    match j
    case JInt(i) => Ok(i)
    case JBool(b) => Ok(if b then 1 else 0)
    case JStr(s) =>
      PyNumbers.ParseHexOrIntLoweredAgrees(s);
      PyNumbers.ParseHexOrIntLowered(s)
    case _ => Err(InvalidLiteral("str() of a JSON null, list or object"))
  }

  const SizeKey := "size"
  const WidthKey := "width"
  const HeightKey := "height"
  const StepKey := "step"
  const AddrKey := "addr"
  const KindKey := "kind"
  const NameKey := "name"
  const CountKey := "count"

  /** `int(asset[key])`. */
  function Dimension(asset: seq<(string, Json)>, key: string): Result<int>
  {
    var v :- Index(asset, key);
    PyIntOf(v)
  }

  /**
   * `bytes_per_bitmap`: the `size` override when there is one, otherwise the
   * fewest bytes that hold `width * height` bits, `(w * h + 7) // 8`.
   */
  function BytesPerBitmap(asset: seq<(string, Json)>): (r: Result<int>)
    ensures Get(asset, SizeKey).Some? ==> r == PyIntOf(Get(asset, SizeKey).value)
    ensures Get(asset, SizeKey).None? ==>
      (r.Ok? <==> Dimension(asset, WidthKey).Ok? && Dimension(asset, HeightKey).Ok?)
    ensures Get(asset, SizeKey).None? && r.Ok? ==>
      var area := Dimension(asset, WidthKey).value * Dimension(asset, HeightKey).value;
      (r.value - 1) * 8 < area <= r.value * 8
  {
    match Get(asset, SizeKey)
    case Some(v) => PyIntOf(v)
    case None =>
      var w :- Dimension(asset, WidthKey);
      var h :- Dimension(asset, HeightKey);
      CeilDiv8(w * h)
  }

  function CeilDiv8(area: int): (r: Result<int>)
    ensures r.Ok? && (r.value - 1) * 8 < area <= r.value * 8
  {
    var q := (area + 7) / 8;
    assert area + 7 == q * 8 + (area + 7) % 8;
    Ok(q)
  }

  /** `step_for`: the parsed `step` when the asset has one, else the bitmap size. */
  function StepFor(asset: seq<(string, Json)>, size: int): (r: Result<int>)
    ensures Get(asset, StepKey).None? ==> r == Ok(size)
    ensures Get(asset, StepKey).Some? ==>
      (r.Ok? <==> ParseHexOrIntValue(Get(asset, StepKey).value).Ok?) &&
      (r.Ok? ==> r == ParseHexOrIntValue(Get(asset, StepKey).value))
  {
    match Get(asset, StepKey)
    case Some(v) => HexOrInt(v)
    case None => Ok(size)
  }

  // ---------------------------------------------------------------- layout

  /** Where an asset lies: one bitmap, or `count` frames `step` bytes apart; `size` bytes each. */
  datatype Layout = Bitmap(start: int, size: int) | Sequence(start: int, size: int, count: nat, step: int)
  {
    function FrameCount(): nat { if Bitmap? then 1 else count }
    /** `start + i * step`, where frame `i` begins. */
    function FrameStart(i: nat): int { if Bitmap? then start else start + i * step }
  }

  /**
   * The lines `extract_asset` and `pack_asset` share: size, address, kind and
   * name are read in that order; a sequence needs a positive `count`, and any
   * kind but `bitmap` or `sequence` is refused.
   */
  function AssetLayout(base: int, asset: seq<(string, Json)>): (r: Result<Layout>)
    ensures r.Ok? ==> Get(asset, KindKey) == Some(JStr(if r.value.Bitmap? then "bitmap" else "sequence"))
    ensures (Get(asset, KindKey).Some? && Get(asset, KindKey).value != JStr("bitmap") &&
             Get(asset, KindKey).value != JStr("sequence")) ==> r.Err?
  {
    var size :- BytesPerBitmap(asset);
    var addrValue :- Index(asset, AddrKey);
    var addr :- HexOrInt(addrValue);
    var start := base + addr;
    var kind :- Index(asset, KindKey);
    var _ :- Index(asset, NameKey);
    if kind == JStr("bitmap") then Ok(Bitmap(start, size))
    else if kind == JStr("sequence") then
      var count :- PyIntOf(GetOr(asset, CountKey, JInt(0)));
      if count <= 0 then Err(BadCount)
      else
        var step :- StepFor(asset, size);
        Ok(Sequence(start, size, count, step))
    else Err(UnknownKind)
  }

  /** A layout is built from the asset's own size, name and `addr` plus the base offset. */
  lemma AssetLayoutFields(base: int, asset: seq<(string, Json)>)
    requires AssetLayout(base, asset).Ok?
    ensures var l := AssetLayout(base, asset).value;
      BytesPerBitmap(asset) == Ok(l.size) && Get(asset, NameKey).Some? && Get(asset, AddrKey).Some? &&
      HexOrInt(Get(asset, AddrKey).value).Ok? && l.start == base + HexOrInt(Get(asset, AddrKey).value).value
  {
  }

  /** A sequence layout has the asset's positive `count` and its `step`. */
  lemma AssetLayoutSequence(base: int, asset: seq<(string, Json)>)
    requires AssetLayout(base, asset).Ok? && AssetLayout(base, asset).value.Sequence?
    ensures var l := AssetLayout(base, asset).value;
      l.count > 0 && PyIntOf(GetOr(asset, CountKey, JInt(0))) == Ok(l.count) && StepFor(asset, l.size) == Ok(l.step)
  {
  }

  // --------------------------------------------------------------- extract

  /** The frames as extracted: `rom[offs:offs+size]` for each frame's start `offs`. */
  function Frames(image: seq<Byte>, l: Layout): (frames: seq<seq<Byte>>)
    ensures |frames| == l.FrameCount()
  {
    seq(l.FrameCount(), i requires 0 <= i < l.FrameCount() => PySlice(image, l.FrameStart(i), l.FrameStart(i) + l.size))
  }

  /** A frame inside the image is extracted as exactly its `size` bytes there. */
  lemma FrameInside(image: seq<Byte>, l: Layout, i: nat)
    requires i < l.FrameCount() && 0 <= l.FrameStart(i) && 0 <= l.size && l.FrameStart(i) + l.size <= |image|
    ensures |Frames(image, l)[i]| == l.size
    ensures Frames(image, l)[i] == image[l.FrameStart(i)..l.FrameStart(i) + l.size]
  {
  }

  /** `extract_asset`: the chunks it writes out, one per frame, or the error it raises first. */
  function ExtractOutcome(image: seq<Byte>, base: int, asset: seq<(string, Json)>): Result<seq<seq<Byte>>>
  {
    var l :- AssetLayout(base, asset);
    Ok(Frames(image, l))
  }

  /** `extract_asset`, each chunk appended as its file is written. */
  method ExtractAsset(image: seq<Byte>, base: int, asset: seq<(string, Json)>) returns (r: Result<seq<seq<Byte>>>)
    ensures r == ExtractOutcome(image, base, asset)
  {
    var layout := AssetLayout(base, asset);
    if layout.Err? {
      return Err(layout.error);
    }
    var frames := ExtractFrames(image, layout.value);
    r := Ok(frames);
  }

  /** The two branches of `extract_asset` once the layout is known. */
  method ExtractFrames(image: seq<Byte>, l: Layout) returns (written: seq<seq<Byte>>)
    ensures written == Frames(image, l)
  {
    match l {
      case Bitmap(start, size) =>
        var chunk := PySlice(image, start, start + size);
        written := [chunk];
      case Sequence(start, size, count, step) =>
        written := [];
        for i := 0 to count
          invariant written == Frames(image, l)[..i]
        {
          var offs := start + i * step;
          var chunk := PySlice(image, offs, offs + size);
          written := written + [chunk];
        }
    }
  }

  // ------------------------------------------------------------------ pack

  /** `read_bin_or_warn` on a file's contents: padded with `00` or truncated to the expected size. */
  function ReadBinOrWarn(data: seq<Byte>, expectedSize: int): (r: seq<Byte>)
    ensures expectedSize >= 0 ==> |r| == expectedSize
    ensures expectedSize >= 0 ==> forall k :: 0 <= k < expectedSize ==> r[k] == if k < |data| then data[k] else 0
    ensures expectedSize < 0 ==> r == data[..Max(0, |data| + expectedSize)]
  {
    if |data| == expectedSize then data
    else if |data| < expectedSize then data + Fill(0, expectedSize - |data|)
    else PySlice(data, 0, expectedSize)
  }

  /**
   * The `.bin` files of one asset found in the binaries directory: `{name}.bin`
   * for a bitmap, `{name}_{i:03d}.bin` for frame `i` of a sequence.
   */
  datatype AssetFiles = AssetFiles(bitmap: Option<seq<Byte>>, frames: map<nat, seq<Byte>>)

  /** The input of frame `i`, if its file exists. */
  function Input(files: AssetFiles, l: Layout, i: nat): Option<seq<Byte>>
  {
    if l.Bitmap? then files.bitmap else if i in files.frames then Some(files.frames[i]) else None
  }

  /** The image and the running byte total, or the exception that ended packing. */
  datatype Packing = Packing(image: seq<Byte>, total: Result<nat>)

  /**
   * One frame packed: a missing file is skipped, a present one is fitted to
   * `size` and assigned to `rom[offs:offs+size]`. A negative start or size is
   * refused (see README, Left out).
   */
  function PackFrame(prev: Packing, size: int, input: Option<seq<Byte>>, offs: int): Packing
    requires prev.total.Ok?
  {
    match input
    case None => prev
    case Some(data) =>
      if offs < 0 || size < 0 then Packing(prev.image, Err(NegativeOffset))
      else Packing(SliceAssign(prev.image, offs, offs + size, ReadBinOrWarn(data, size)), Ok(prev.total.value + size))
  }

  /** The first `n` frames packed, in order; after an exception nothing more happens. */
  function PackedUpTo(image: seq<Byte>, l: Layout, files: AssetFiles, n: nat): Packing
    requires n <= l.FrameCount()
  {
    if n == 0 then Packing(image, Ok(0))
    else
      var prev := PackedUpTo(image, l, files, n - 1);
      if prev.total.Err? then prev else PackFrame(prev, l.size, Input(files, l, n - 1), l.FrameStart(n - 1))
  }

  /** `pack_asset`: the image after packing and the byte count it returns, or the error it raises. */
  function PackOutcome(image: seq<Byte>, base: int, asset: seq<(string, Json)>, files: AssetFiles): Packing
  {
    match AssetLayout(base, asset)
    case Err(e) => Packing(image, Err(e))
    case Ok(l) => PackedUpTo(image, l, files, l.FrameCount())
  }

  /** `pack_asset`: the bitmap, or every present frame in order, written in place. */
  method PackAsset(rom: RomBuffer, base: int, asset: seq<(string, Json)>, files: AssetFiles) returns (r: Result<nat>)
    modifies rom
    ensures Packing(rom.bytes, r) == PackOutcome(old(rom.bytes), base, asset, files)
  {
    var layout := AssetLayout(base, asset);
    if layout.Err? {
      return Err(layout.error);
    }
    r := PackFrames(rom, layout.value, files);
  }

  /** The two branches of `pack_asset` once the layout is known. */
  method PackFrames(rom: RomBuffer, l: Layout, files: AssetFiles) returns (r: Result<nat>)
    modifies rom
    ensures Packing(rom.bytes, r) == PackedUpTo(old(rom.bytes), l, files, l.FrameCount())
  {
    ghost var image := rom.bytes;
    assert PackedUpTo(image, l, files, 0) == Packing(image, Ok(0));
    match l {
      case Bitmap(start, size) =>
        if files.bitmap.None? {
          return Ok(0);
        }
        var data := ReadBinOrWarn(files.bitmap.value, size);
        if start < 0 || size < 0 {
          return Err(NegativeOffset);
        }
        rom.bytes := SliceAssign(rom.bytes, start, start + size, data);
        return Ok(size);
      case Sequence(start, size, count, step) =>
        var total: nat := 0;
        for i := 0 to count
          invariant PackedUpTo(image, l, files, i) == Packing(rom.bytes, Ok(total))
        {
          if i !in files.frames {
            continue;
          }
          var data := ReadBinOrWarn(files.frames[i], size);
          var offs := start + i * step;
          if offs < 0 || size < 0 {
            PackedErr(image, l, files, i + 1, count);
            return Err(NegativeOffset);
          }
          rom.bytes := SliceAssign(rom.bytes, offs, offs + size, data);
          total := total + size;
        }
        return Ok(total);
    }
  }

  lemma {:induction false} PackedErr(image: seq<Byte>, l: Layout, files: AssetFiles, k: nat, m: nat)
    requires k <= m <= l.FrameCount() && PackedUpTo(image, l, files, k).total.Err?
    ensures PackedUpTo(image, l, files, m) == PackedUpTo(image, l, files, k)
    decreases m - k
  {
    if k < m {
      PackedErr(image, l, files, k, m - 1);
    }
  }

  // ------------------------------------------------------ what packing does

  /** How many of the first `n` frames have an input file. */
  function PresentCount(files: AssetFiles, l: Layout, n: nat): nat
  {
    if n == 0 then 0 else PresentCount(files, l, n - 1) + (if Input(files, l, n - 1).Some? then 1 else 0)
  }

  /** Every frame among the first `n` that has a file lands wholly inside an image of `len` bytes. */
  predicate PresentInside(l: Layout, files: AssetFiles, n: nat, len: nat)
  {
    forall i :: 0 <= i < n && Input(files, l, i).Some? ==>
      0 <= l.size && 0 <= l.FrameStart(i) && l.FrameStart(i) + l.size <= len
  }

  lemma MulSucc(a: int, c: int)
    ensures a * (c + 1) == a * c + a
  {
  }

  /** A successful pack reports `size` bytes per frame that had a file. */
  lemma {:induction false} PackedTotal(image: seq<Byte>, l: Layout, files: AssetFiles, n: nat)
    requires n <= l.FrameCount() && PackedUpTo(image, l, files, n).total.Ok?
    ensures PackedUpTo(image, l, files, n).total.value == l.size * PresentCount(files, l, n)
  {
    if n > 0 {
      var prev := PackedUpTo(image, l, files, n - 1);
      assert prev.total.Ok?;
      PackedTotal(image, l, files, n - 1);
      var c := PresentCount(files, l, n - 1);
      if Input(files, l, n - 1).Some? {
        MulSucc(l.size, c);
      }
    }
  }

  /** Frames that each fit inside the image are all written, and the image keeps its length. */
  lemma {:induction false} PackedInside(image: seq<Byte>, l: Layout, files: AssetFiles, n: nat)
    requires n <= l.FrameCount() && PresentInside(l, files, n, |image|)
    ensures PackedUpTo(image, l, files, n).total.Ok?
    ensures |PackedUpTo(image, l, files, n).image| == |image|
  {
    if n > 0 {
      PackedInside(image, l, files, n - 1);
      var prev := PackedUpTo(image, l, files, n - 1);
      if Input(files, l, n - 1).Some? {
        var data := ReadBinOrWarn(Input(files, l, n - 1).value, l.size);
        SliceAssignInPlace(prev.image, l.FrameStart(n - 1), data);
      }
    }
  }

  predicate Covers(l: Layout, files: AssetFiles, i: nat, k: int)
  {
    Input(files, l, i).Some? && l.FrameStart(i) <= k < l.FrameStart(i) + l.size
  }

  /** The last of the first `n` frames with a file whose target covers byte `k`. */
  function LastCover(l: Layout, files: AssetFiles, n: nat, k: int): (r: Option<nat>)
    ensures r.Some? ==> r.value < n && Covers(l, files, r.value, k)
  {
    if n == 0 then None
    else if Covers(l, files, n - 1, k) then Some(n - 1)
    else LastCover(l, files, n - 1, k)
  }

  /** The value byte `k` should hold after `n` frames: the fitted input of the last frame covering it, else its old value. */
  function CoverValue(image: seq<Byte>, l: Layout, files: AssetFiles, n: nat, k: nat): Byte
    requires n <= l.FrameCount() && PresentInside(l, files, n, |image|) && k < |image|
  {
    var c := LastCover(l, files, n, k);
    if c.None? then image[k] else ReadBinOrWarn(Input(files, l, c.value).value, l.size)[k - l.FrameStart(c.value)]
  }

  /**
   * Frames are written in order, so where targets overlap the later frame
   * wins: after packing, each byte holds the fitted input of the last frame
   * whose target covers it, and keeps its old value when none does.
   */
  lemma {:induction false} PackedByte(image: seq<Byte>, l: Layout, files: AssetFiles, n: nat, k: nat)
    requires n <= l.FrameCount() && PresentInside(l, files, n, |image|) && k < |image|
    ensures k < |PackedUpTo(image, l, files, n).image|
    ensures PackedUpTo(image, l, files, n).image[k] == CoverValue(image, l, files, n, k)
  {
    PackedInside(image, l, files, n);
    if n > 0 {
      assert PresentInside(l, files, n - 1, |image|);
      PackedByte(image, l, files, n - 1, k);
      PackedInside(image, l, files, n - 1);
      if Input(files, l, n - 1).Some? {
        PackedByteStep(image, l, files, n, k);
      } else {
        assert LastCover(l, files, n, k) == LastCover(l, files, n - 1, k);
      }
    }
  }

  lemma PackedByteStep(image: seq<Byte>, l: Layout, files: AssetFiles, n: nat, k: nat)
    requires 0 < n <= l.FrameCount() && PresentInside(l, files, n, |image|) && k < |image|
    requires Input(files, l, n - 1).Some?
    requires PackedUpTo(image, l, files, n - 1).total.Ok? && |PackedUpTo(image, l, files, n - 1).image| == |image|
    requires PresentInside(l, files, n - 1, |image|)
    requires PackedUpTo(image, l, files, n - 1).image[k] == CoverValue(image, l, files, n - 1, k)
    ensures k < |PackedUpTo(image, l, files, n).image|
    ensures PackedUpTo(image, l, files, n).image[k] == CoverValue(image, l, files, n, k)
  {
    var offs := l.FrameStart(n - 1);
    PackedStepCovers(image, l, files, n, k);
  }

  /** One present frame: the bytes it covers take its input, the others keep their values. */
  lemma PackedStepCovers(image: seq<Byte>, l: Layout, files: AssetFiles, n: nat, k: nat)
    requires 0 < n <= l.FrameCount() && Input(files, l, n - 1).Some?
    requires PackedUpTo(image, l, files, n - 1).total.Ok? && k < |PackedUpTo(image, l, files, n - 1).image|
    requires 0 <= l.size && 0 <= l.FrameStart(n - 1)
    requires l.FrameStart(n - 1) + l.size <= |PackedUpTo(image, l, files, n - 1).image|
    ensures var prev := PackedUpTo(image, l, files, n - 1).image;
      var after := PackedUpTo(image, l, files, n).image;
      var offs := l.FrameStart(n - 1);
      |after| == |prev| &&
      if offs <= k < offs + l.size then
        LastCover(l, files, n, k) == Some(n - 1) &&
        after[k] == ReadBinOrWarn(Input(files, l, n - 1).value, l.size)[k - offs]
      else
        LastCover(l, files, n, k) == LastCover(l, files, n - 1, k) && after[k] == prev[k]
  {
    var prev := PackedUpTo(image, l, files, n - 1).image;
    var offs := l.FrameStart(n - 1);
    var data := ReadBinOrWarn(Input(files, l, n - 1).value, l.size);
    assert PackedUpTo(image, l, files, n).image == SliceAssign(prev, offs, offs + |data|, data);
    SliceAssignAt(prev, offs, data, k);
  }

  /** With no input file at all, packing reports 0 bytes and leaves the image as it was. */
  lemma {:induction false} NothingToPack(image: seq<Byte>, l: Layout, files: AssetFiles, n: nat)
    requires n <= l.FrameCount() && forall i :: 0 <= i < n ==> Input(files, l, i).None?
    ensures PackedUpTo(image, l, files, n) == Packing(image, Ok(0))
  {
    if n > 0 {
      NothingToPack(image, l, files, n - 1);
    }
  }

  /** An asset that `pack_asset` refuses (no positive count, an unknown kind, a missing key) is refused before any write. */
  lemma PackRefusedUnchanged(image: seq<Byte>, base: int, asset: seq<(string, Json)>, files: AssetFiles)
    requires AssetLayout(base, asset).Err?
    ensures PackOutcome(image, base, asset, files) == Packing(image, Err(AssetLayout(base, asset).error))
  {
  }

  // ------------------------------------------------------------ round trip

  /** The files that extracting an asset writes: every frame present, holding its chunk. */
  function ExtractedFiles(image: seq<Byte>, l: Layout): AssetFiles
  {
    var frames := Frames(image, l);
    AssetFiles(if l.Bitmap? then Some(frames[0]) else None, map i: nat | i < l.FrameCount() :: frames[i])
  }

  /** Every frame of the asset lies inside the image. */
  predicate AllInside(l: Layout, len: nat)
  {
    0 <= l.size && forall i :: 0 <= i < l.FrameCount() ==> 0 <= l.FrameStart(i) && l.FrameStart(i) + l.size <= len
  }

  /**
   * Packing what was extracted puts back the bytes that were there: when
   * every frame lies inside the image, the image comes back unchanged and the
   * reported count is `size * count`.
   */
  lemma PackExtractedIsIdentity(image: seq<Byte>, l: Layout)
    requires AllInside(l, |image|)
    ensures var p := PackedUpTo(image, l, ExtractedFiles(image, l), l.FrameCount());
      p.image == image && p.total.Ok? && p.total.value == l.size * l.FrameCount()
  {
    var files := ExtractedFiles(image, l);
    forall i | 0 <= i < l.FrameCount()
      ensures OwnFrame(image, l, files, i)
    {
      ExtractedFrameInside(image, l, i);
    }
    PackOwnFrames(image, l, files, l.FrameCount());
  }

  /** Frame `i`'s file holds exactly the bytes its target covers in the image. */
  predicate OwnFrame(image: seq<Byte>, l: Layout, files: AssetFiles, i: nat)
  {
    var offs := l.FrameStart(i);
    0 <= offs && 0 <= l.size && offs + l.size <= |image| && Input(files, l, i) == Some(image[offs..offs + l.size])
  }

  /** Packing frames whose files hold their own bytes rewrites the image unchanged, `size` bytes per frame. */
  lemma {:induction false} PackOwnFrames(image: seq<Byte>, l: Layout, files: AssetFiles, n: nat)
    requires n <= l.FrameCount()
    requires forall i :: 0 <= i < n ==> OwnFrame(image, l, files, i)
    ensures var p := PackedUpTo(image, l, files, n);
      p.image == image && p.total.Ok? && p.total.value == l.size * n
  {
    if n > 0 {
      PackOwnFrames(image, l, files, n - 1);
      assert OwnFrame(image, l, files, n - 1);
      var offs := l.FrameStart(n - 1);
      var prev := PackedUpTo(image, l, files, n - 1);
      PackedUpToStep(image, l, files, n);
      RewriteSameFrame(image, prev.total.value, offs, l.size, image[offs..offs + l.size]);
      MulSucc(l.size, n - 1);
    }
  }

  /** The extracted file of an in-image frame holds exactly the frame's bytes. */
  lemma ExtractedFrameInside(image: seq<Byte>, l: Layout, i: nat)
    requires i < l.FrameCount() && AllInside(l, |image|)
    ensures var offs := l.FrameStart(i);
      0 <= l.size && 0 <= offs && offs + l.size <= |image| &&
      Input(ExtractedFiles(image, l), l, i) == Some(image[offs..offs + l.size])
  {
    FrameInside(image, l, i);
  }

  lemma PackedUpToStep(image: seq<Byte>, l: Layout, files: AssetFiles, n: nat)
    requires 0 < n <= l.FrameCount() && PackedUpTo(image, l, files, n - 1).total.Ok?
    ensures PackedUpTo(image, l, files, n) ==
      PackFrame(PackedUpTo(image, l, files, n - 1), l.size, Input(files, l, n - 1), l.FrameStart(n - 1))
  {
  }

  /** Packing a frame's own bytes back where they came from changes nothing. */
  lemma RewriteSameFrame(image: seq<Byte>, total: nat, offs: int, size: int, chunk: seq<Byte>)
    requires 0 <= offs && 0 <= size && offs + size <= |image| && chunk == image[offs..offs + size]
    ensures PackFrame(Packing(image, Ok(total)), size, Some(chunk), offs) == Packing(image, Ok(total + size))
  {
    assert ReadBinOrWarn(chunk, size) == chunk;
    assert image[..offs] + chunk + image[offs + size..] == image;
  }

  /** For a whole asset: `pack_asset` on the files `extract_asset` wrote leaves the image as it was. */
  lemma PackAfterExtract(image: seq<Byte>, base: int, asset: seq<(string, Json)>)
    requires AssetLayout(base, asset).Ok? && AllInside(AssetLayout(base, asset).value, |image|)
    ensures var l := AssetLayout(base, asset).value;
      var p := PackOutcome(image, base, asset, ExtractedFiles(image, l));
      ExtractOutcome(image, base, asset) == Ok(Frames(image, l)) &&
      p.image == image && p.total.Ok? && p.total.value == l.size * l.FrameCount()
  {
    var l := AssetLayout(base, asset).value;
    PackExtractedIsIdentity(image, l);
  }
}
