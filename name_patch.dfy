/**
 * The original, hard-coded name patcher for the English release
 * (`YGOFM-NamePatch.py`): it reads 722 names from a text list, lays the name
 * table at file offset 0x8000, points the lookup pointer at it, rewrites every
 * card record's name offset, pads the image with `00` to an 8 KiB boundary and
 * stores the block count in header byte 3.
 *
 * The image is the `data` bytearray the script loads; the result is the bytes
 * it writes back, or the error it exits with before writing anything.
 */
module NamePatch {
  import opened Common
  import NameTable
  import RomNames

  // ---------------------------------------------------------------- constants

  const RomBase: nat := 0x0200_0000
  const NameListRomAddr: nat := 0x0200_8000
  const LookupPtrRomAddr: nat := 0x0200_2A7C
  const CardTableRomStart: nat := 0x0200_4C0C
  /** The last byte of the card table (inclusive). */
  const CardTableRomEnd: nat := 0x0200_5CF7
  const BytesPerCard: nat := 6
  const HeaderBlockByte: nat := 0x03

  const NameListFileOff: nat := NameListRomAddr - RomBase
  const LookupPtrFileOff: nat := LookupPtrRomAddr - RomBase
  const CardTableFileStart: nat := CardTableRomStart - RomBase
  const CardTableFileEnd: nat := CardTableRomEnd - RomBase

  /** The number of whole records between the table bounds. */
  const NumCards: nat := (CardTableFileEnd - CardTableFileStart) / BytesPerCard + 1

  /**
   * The derived constants: 722 cards whose records exactly fill the table
   * (the last record ends on its last byte), the same record layout and
   * memory base as the manifest-driven patcher, and file offsets that are the
   * ROM addresses less the memory base.
   */
  lemma DerivedConstants()
    ensures NumCards == RomNames.ExpectedCardCount == 722
    ensures CardTableFileStart + NumCards * BytesPerCard == CardTableFileEnd + 1
    ensures BytesPerCard == RomNames.CardEntrySize && RomBase == RomNames.MemBase
    ensures NameListFileOff == 0x8000 && LookupPtrFileOff == 0x2A7C && CardTableFileStart == 0x4C0C
    ensures CardTableFileStart + NumCards * BytesPerCard <= NameListFileOff
  {
  }

  // --------------------------------------------------------------- name list

  /**
   * The line boundaries of `str.splitlines()`: line feed, vertical tab, form
   * feed, carriage return, the file, group and record separators, next line,
   * and the Unicode line and paragraph separators.
   */
  predicate IsLineBreak(c: char)
  {
    ('\n' <= c <= '\r') || ('\U{001C}' <= c <= '\U{001E}') || c == '\U{0085}' ||
    c == '\U{2028}' || c == '\U{2029}'
  }

  predicate NoLineBreak(s: string)
  {
    forall k | 0 <= k < |s| :: !IsLineBreak(s[k])
  }

  /** The length of the first line of `text`: the index of its first boundary, or the whole text. */
  function LineLength(text: string): (n: nat)
    ensures n <= |text|
  {
    if text == [] || IsLineBreak(text[0]) then 0
    else LineLength(text[1..]) + 1
  }

  /** The first line holds no boundary, and a boundary ends it unless the text does. */
  lemma {:induction false} LineLengthMeaning(text: string)
    ensures var n := LineLength(text);
      NoLineBreak(text[..n]) && (n < |text| ==> IsLineBreak(text[n]))
  {
    if text != [] && !IsLineBreak(text[0]) {
      LineLengthMeaning(text[1..]);
      var m := LineLength(text[1..]);
      assert text[..m + 1] == [text[0]] + text[1..][..m];
    }
  }

  /** The length of the boundary at `n`: two for `\r\n`, else one. */
  function BreakLength(text: string, n: nat): nat
    requires n < |text|
  {
    if text[n] == '\r' && n + 1 < |text| && text[n + 1] == '\n' then 2 else 1
  }

  /**
   * `str.splitlines()`: the lines without their boundaries. `\r\n` is one
   * boundary, and a boundary at the very end starts no further line.
   */
  function SplitLines(text: string): seq<string>
    decreases |text|
  {
    if text == [] then []
    else
      var n := LineLength(text);
      if n == |text| then [text]
      else [text[..n]] + SplitLines(text[n + BreakLength(text, n)..])
  }

  /**
   * What `read_text` makes of the file's text: universal newlines turn `\r\n`
   * and a lone `\r` into `\n`.
   */
  function UniversalNewlines(text: string): string
    decreases |text|
  {
    if text == [] then []
    else if text[0] == '\r' then
      "\n" + UniversalNewlines(if |text| > 1 && text[1] == '\n' then text[2..] else text[1..])
    else [text[0]] + UniversalNewlines(text[1..])
  }

  /** No line that `splitlines` returns contains a boundary. */
  lemma {:induction false} SplitLinesNoBreak(text: string)
    ensures forall i | 0 <= i < |SplitLines(text)| :: NoLineBreak(SplitLines(text)[i])
    decreases |text|
  {
    if text != [] {
      var n := LineLength(text);
      LineLengthMeaning(text);
      if n < |text| {
        SplitLinesNoBreak(text[n + BreakLength(text, n)..]);
      }
    }
  }

  /** A line with no boundary, a boundary other than `\r`, then the rest: the line, then the rest's lines. */
  lemma SplitLinesCons(line: string, b: char, rest: string)
    requires NoLineBreak(line) && IsLineBreak(b) && b != '\r'
    ensures SplitLines(line + ([b] + rest)) == [line] + SplitLines(rest)
  {
    var text := line + ([b] + rest);
    LineLengthAfter(line, [b] + rest);
    assert text[..|line|] == line;
    assert text[|line| + 1..] == rest;
  }

  /** A boundary-free prefix adds its length to the first line. */
  lemma {:induction false} LineLengthAfter(line: string, rest: string)
    requires NoLineBreak(line)
    ensures LineLength(line + rest) == |line| + LineLength(rest)
    decreases |line|
  {
    if line != [] {
      assert (line + rest)[0] == line[0] && (line + rest)[1..] == line[1..] + rest;
      assert !IsLineBreak(line[0]);
      LineLengthAfter(line[1..], rest);
    } else {
      assert line + rest == rest;
    }
  }

  /** A text without boundaries is one line (none when empty), and universal newlines leave it alone. */
  lemma NoBreakText(text: string)
    requires NoLineBreak(text)
    ensures SplitLines(text) == if text == [] then [] else [text]
    ensures UniversalNewlines(text) == text
  {
    assert text + [] == text;
    LineLengthAfter(text, []);
    UniversalPrefix(text, []);
  }

  /** The boundary `read_text` leaves in place of the one at `n`: `\n` for a carriage return, else itself. */
  function TranslatedBreak(c: char): char
  {
    if c == '\r' then '\n' else c
  }

  /** Universal newlines copy a boundary-free line, translate the boundary after it and go on. */
  lemma UniversalSplit(line: string, tail: string)
    requires NoLineBreak(line) && tail != [] && IsLineBreak(tail[0])
    ensures UniversalNewlines(line + tail) ==
      line + ([TranslatedBreak(tail[0])] + UniversalNewlines(tail[BreakLength(tail, 0)..]))
  {
    UniversalPrefix(line, tail);
    UniversalHead(tail);
  }

  /** Universal newlines at a boundary: its translation, then the text after it. */
  lemma UniversalHead(t: string)
    requires t != [] && IsLineBreak(t[0])
    ensures UniversalNewlines(t) == [TranslatedBreak(t[0])] + UniversalNewlines(t[BreakLength(t, 0)..])
  {
  }

  /** Universal newlines do not change the lines: `read_text` and `splitlines` agree on where lines end. */
  lemma {:induction false} SplitLinesUniversal(text: string)
    ensures SplitLines(UniversalNewlines(text)) == SplitLines(text)
    decreases |text|
  {
    var n := LineLength(text);
    LineLengthMeaning(text);
    if n == |text| {
      assert text[..n] == text;
      NoBreakText(text);
    } else {
      var line, tail := text[..n], text[n..];
      var rest := text[n + BreakLength(text, n)..];
      assert text == line + tail && tail[0] == text[n];
      assert tail[BreakLength(tail, 0)..] == rest;
      UniversalSplit(line, tail);
      SplitLinesCons(line, TranslatedBreak(text[n]), UniversalNewlines(rest));
      SplitLinesUniversal(rest);
    }
  }

  /** Universal newlines pass over a boundary-free prefix unchanged. */
  lemma {:induction false} UniversalPrefix(line: string, rest: string)
    requires NoLineBreak(line)
    ensures UniversalNewlines(line + rest) == line + UniversalNewlines(rest)
    decreases |line|
  {
    if line != [] {
      assert (line + rest)[0] == line[0] && (line + rest)[1..] == line[1..] + rest;
      assert !IsLineBreak(line[0]);
      UniversalPrefix(line[1..], rest);
    } else {
      assert line + rest == rest;
    }
  }

  /** The names of a list written one per line, separated by `\n`. */
  function JoinLines(lines: seq<string>): string
  {
    if lines == [] then []
    else if |lines| == 1 then lines[0]
    else lines[0] + "\n" + JoinLines(lines[1..])
  }

  /** Lines without boundaries, the last one not empty, written one per line read back as themselves. */
  lemma {:induction false} SplitLinesJoined(lines: seq<string>)
    requires forall i | 0 <= i < |lines| :: NoLineBreak(lines[i])
    requires lines != [] ==> lines[|lines| - 1] != []
    ensures SplitLines(JoinLines(lines)) == lines
  {
    if |lines| == 1 {
      NoBreakText(lines[0]);
    } else if |lines| > 1 {
      SplitLinesJoined(lines[1..]);
      assert JoinLines(lines) == lines[0] + ("\n" + JoinLines(lines[1..]));
      SplitLinesCons(lines[0], '\n', JoinLines(lines[1..]));
    }
  }

  /** `ln.rstrip("\r\n")`: trailing carriage returns and line feeds removed. */
  function RStripNewlines(line: string): string
  {
    if |line| > 0 && (line[|line| - 1] == '\r' || line[|line| - 1] == '\n') then
      RStripNewlines(line[..|line| - 1])
    else
      line
  }

  /** What is left is a prefix of the line that ends in neither a carriage return nor a line feed. */
  lemma {:induction false} RStripKeepsPrefix(line: string)
    ensures var r := RStripNewlines(line);
      |r| <= |line| && r == line[..|r|] && (r == [] || (r[|r| - 1] != '\r' && r[|r| - 1] != '\n'))
  {
    if |line| > 0 && (line[|line| - 1] == '\r' || line[|line| - 1] == '\n') {
      RStripKeepsPrefix(line[..|line| - 1]);
    }
  }

  /** Only carriage returns and line feeds are taken off. */
  lemma {:induction false} RStripTakesNewlines(line: string)
    ensures forall k | |RStripNewlines(line)| <= k < |line| :: line[k] == '\r' || line[k] == '\n'
  {
    if |line| > 0 && (line[|line| - 1] == '\r' || line[|line| - 1] == '\n') {
      var init := line[..|line| - 1];
      RStripTakesNewlines(init);
      RStripKeepsPrefix(init);
      assert forall k | 0 <= k < |init| :: init[k] == line[k];
    }
  }

  /**
   * The card names: each line stripped of its line ending, empty lines
   * dropped, order kept. Every name is non-empty, every non-empty line
   * gives a name, and every name comes from a line.
   */
  function CardNames(lines: seq<string>): (names: seq<string>)
    ensures |names| <= |lines|
  {
    if lines == [] then []
    else
      var l := RStripNewlines(lines[0]);
      (if l == [] then [] else [l]) + CardNames(lines[1..])
  }

  /**
   * The filter drops exactly the empty lines: every name is non-empty, every
   * non-empty stripped line is a name, and every name is a stripped line.
   */
  lemma {:induction false} CardNamesMeaning(lines: seq<string>)
    ensures forall n | n in CardNames(lines) :: n != []
    ensures forall i | 0 <= i < |lines| && RStripNewlines(lines[i]) != [] :: RStripNewlines(lines[i]) in CardNames(lines)
    ensures forall n | n in CardNames(lines) :: exists i :: 0 <= i < |lines| && RStripNewlines(lines[i]) == n
  {
    if lines != [] {
      var l := RStripNewlines(lines[0]);
      var rest := CardNames(lines[1..]);
      CardNamesMeaning(lines[1..]);
      assert CardNames(lines) == (if l == [] then [] else [l]) + rest;
      forall i | 1 <= i < |lines| ensures lines[i] == lines[1..][i - 1] { }
      forall n | n in CardNames(lines) ensures exists i :: 0 <= i < |lines| && RStripNewlines(lines[i]) == n {
        if n !in rest {
          assert RStripNewlines(lines[0]) == n;
        } else {
          var j :| 0 <= j < |lines[1..]| && RStripNewlines(lines[1..][j]) == n;
          assert RStripNewlines(lines[j + 1]) == n;
        }
      }
    }
  }

  /** The filter keeps the order of the list: the names of two lists back to back are theirs back to back. */
  lemma {:induction false} CardNamesSplit(a: seq<string>, b: seq<string>)
    ensures CardNames(a + b) == CardNames(a) + CardNames(b)
  {
    if a == [] {
      assert a + b == b;
    } else {
      var ab := a + b;
      assert ab[0] == a[0] && ab[1..] == a[1..] + b;
      CardNamesSplit(a[1..], b);
    }
  }

  // ---------------------------------------------------------------- encoding

  /** Whether `name.encode("ascii")` succeeds. */
  predicate IsAscii(name: string)
  {
    forall k | 0 <= k < |name| :: name[k] as int < 0x80
  }

  /** One character under `encode("latin-1", errors="replace")`: its code point, or `?` above U+00FF. */
  function Latin1Byte(c: char): Byte
  {
    if c as int < 0x100 then c as int else '?' as int
  }

  /**
   * A name's bytes: `encode("ascii")`, falling back to Latin-1 with `?` for
   * what it cannot represent. Either way each character gives exactly one
   * byte, and an ASCII name keeps its character codes.
   */
  function EncodeCardName(name: string): (enc: seq<Byte>)
    ensures |enc| == |name|
    ensures forall k | 0 <= k < |name| :: enc[k] == Latin1Byte(name[k])
    ensures IsAscii(name) ==> forall k | 0 <= k < |name| :: enc[k] == name[k] as int
  {
    if IsAscii(name) then seq(|name|, k requires 0 <= k < |name| => name[k] as int)
    else seq(|name|, k requires 0 <= k < |name| => Latin1Byte(name[k]))
  }

  /** Only the NUL character encodes to `00`, so a name without one leaves its terminator unambiguous. */
  lemma NoZeroByte(name: string)
    requires '\0' !in name
    ensures 0 !in EncodeCardName(name)
  {
    var enc := EncodeCardName(name);
    forall k | 0 <= k < |enc| ensures enc[k] != 0 {
      assert name[k] != '\0';
    }
  }

  function Encodings(names: seq<string>): (encs: seq<seq<Byte>>)
    ensures |encs| == |names|
  {
    seq(|names|, i requires 0 <= i < |names| => EncodeCardName(names[i]))
  }

  /** The name table: `FA 21`, then each name's bytes and a `00`. */
  function Blob(names: seq<string>): seq<Byte>
  {
    NameTable.Body(Encodings(names))
  }

  /** The offset each card's record receives: 0 for the first card, the table's length before the name otherwise. */
  function NameOffsets(names: seq<string>): (offsets: seq<int>)
    ensures |offsets| == |names|
  {
    seq(|names|, i requires 0 <= i < |names| => NameTable.RecordOffset(Encodings(names), i))
  }

  /**
   * What the table holds: the marker first, the first card's offset 0,
   * every later card's name (one byte per character) at its offset followed
   * by `00`, and a length of 2 plus the names' lengths plus one terminator each.
   */
  lemma {:induction false} BlobLayout(names: seq<string>)
    requires names != []
    ensures var blob, offsets := Blob(names), NameOffsets(names);
      blob[..2] == NameTable.Marker && offsets[0] == 0 &&
      |blob| == 2 + NameTable.TotalLength(Encodings(names))
    ensures var blob, offsets := Blob(names), NameOffsets(names);
      forall i | 0 < i < |names| ::
        var enc := EncodeCardName(names[i]);
        |enc| == |names[i]| && offsets[i] == NameTable.NameStart(Encodings(names), i) &&
        offsets[i] + |enc| < |blob| && blob[offsets[i]..offsets[i] + |enc|] == enc && blob[offsets[i] + |enc|] == 0
    ensures forall i | 0 <= i < |names| :: 0 <= NameOffsets(names)[i] <= |Blob(names)| - 1
  {
    NameTable.JoinLength(Encodings(names));
    forall i | 0 < i < |names| {
      BlobNameAt(names, i);
    }
    OffsetsFit(names);
  }

  /** Card `i > 0`'s name lies in the table at its record's offset, followed by `00`. */
  lemma BlobNameAt(names: seq<string>, i: nat)
    requires 0 < i < |names|
    ensures var blob, offsets, enc := Blob(names), NameOffsets(names), EncodeCardName(names[i]);
      |enc| == |names[i]| && offsets[i] == NameTable.NameStart(Encodings(names), i) &&
      offsets[i] + |enc| < |blob| && blob[offsets[i]..offsets[i] + |enc|] == enc && blob[offsets[i] + |enc|] == 0
  {
    NameTable.NameInTable(Encodings(names), i);
  }

  /** Reading the table back: for names without NUL, the terminated runs after the marker are the encoded names. */
  lemma ReadBack(names: seq<string>)
    requires forall i | 0 <= i < |names| :: '\0' !in names[i]
    ensures Blob(names)[2..] == NameTable.Join(Encodings(names))
    ensures NameTable.Scan(Blob(names)[2..]) == Encodings(names)
  {
    var encs := Encodings(names);
    forall i | 0 <= i < |encs| ensures 0 !in encs[i] {
      NoZeroByte(names[i]);
    }
    NameTable.ScanJoin(encs);
  }

  /** The table-building loop: `cursor` tracks the table's length, and each name's offset is taken before it is appended. */
  method BuildBlob(names: seq<string>) returns (blob: seq<Byte>, nameOffsets: seq<int>)
    ensures blob == Blob(names) && nameOffsets == NameOffsets(names)
  {
    blob := NameTable.Marker;
    nameOffsets := [];
    var cursor := |blob|;
    ghost var encs: seq<seq<Byte>> := [];
    for idx := 0 to |names|
      invariant encs == Encodings(names)[..idx]
      invariant blob == NameTable.Body(encs) && cursor == |blob|
      invariant nameOffsets == seq(idx, i requires 0 <= i < idx => NameTable.RecordOffset(encs, i))
    {
      var enc := EncodeCardName(names[idx]);
      NameTable.NameStartAppend(encs, enc);
      if idx == 0 {
        nameOffsets := nameOffsets + [0];
      } else {
        nameOffsets := nameOffsets + [cursor];
      }
      blob := blob + enc + [0];
      cursor := |blob|;
      encs := encs + [enc];
    }
    assert encs == Encodings(names);
  }

  // ------------------------------------------------------------ image writes

  /** The image once it reaches 0x8000 bytes and holds the table there, grown with `00` as needed. */
  function Placed(image: seq<Byte>, blob: seq<Byte>): (r: seq<Byte>)
    ensures |r| == Max(|image|, NameListFileOff + |blob|)
  {
    var d := Grow(image, NameListFileOff, 0);
    var endPos := NameListFileOff + |blob|;
    SliceAssign(Grow(d, endPos, 0), NameListFileOff, endPos, blob)
  }

  /** Placing the table writes it at 0x8000, fills any gap with `00` and keeps every other byte. */
  lemma PlacedLayout(image: seq<Byte>, blob: seq<Byte>)
    ensures var r := Placed(image, blob);
      r[NameListFileOff..NameListFileOff + |blob|] == blob
    ensures var r := Placed(image, blob);
      forall k | 0 <= k < |r| && !(NameListFileOff <= k < NameListFileOff + |blob|) ::
        r[k] == if k < |image| then image[k] else 0
  {
    var endPos := NameListFileOff + |blob|;
    var g := Grow(Grow(image, NameListFileOff, 0), endPos, 0);
    SliceAssignInPlace(g, NameListFileOff, blob);
  }

  /** The image with `le32(0x02008000)` at the lookup pointer. */
  function Pointed(s: seq<Byte>): seq<Byte>
    requires LookupPtrFileOff + 4 <= |s|
  {
    SliceAssign(s, LookupPtrFileOff, LookupPtrFileOff + 4, Le32(NameListRomAddr))
  }

  /**
   * The pointer write is the one the manifest-driven patcher makes for a
   * table at ROM offset 0x8000: the bytes `00 80 00 02`, which decode to
   * the table's address; nothing else changes.
   */
  lemma PointedAgrees(s: seq<Byte>)
    requires LookupPtrFileOff + 4 <= |s|
    ensures Pointed(s) == RomNames.WithPointer(s, LookupPtrFileOff, NameListFileOff)
    ensures Pointed(s)[LookupPtrFileOff..LookupPtrFileOff + 4] == [0x00, 0x80, 0x00, 0x02]
    ensures DecodeLe32(Pointed(s)[LookupPtrFileOff..LookupPtrFileOff + 4]) == NameListRomAddr
  {
    RomNames.PointerDecodes(s, LookupPtrFileOff, NameListFileOff);
    assert Le32(NameListRomAddr) == [0x00, 0x80, 0x00, 0x02];
  }

  /**
   * The record loop over the first `n` cards: each offset is range-checked
   * (`0 <= rel <= 0xFFFF`), then written with `le16` into bytes 4 and 5 of
   * the card's record. Card numbers in the error count from 1.
   */
  function RecordsWritten(s: seq<Byte>, offsets: seq<int>, n: nat): (r: Result<seq<Byte>>)
    requires n <= |offsets| && CardTableFileStart + n * BytesPerCard <= |s|
    ensures r.Ok? ==> |r.value| == |s|
  {
    if n == 0 then Ok(s)
    else
      var prev :- RecordsWritten(s, offsets, n - 1);
      var field := CardTableFileStart + (n - 1) * BytesPerCard + 4;
      var rel := offsets[n - 1];
      if !(0 <= rel <= 0xFFFF) then Err(RecordOffsetOutOfRange(n, rel))
      else Ok(SliceAssign(prev, field, field + 2, Le16(rel)))
  }

  /** Writing one in-range `le16` slice is the manifest-driven patcher's two masked byte writes. */
  lemma Le16SliceIsByteWrites(s: seq<Byte>, field: nat, rel: int)
    requires field + 2 <= |s| && 0 <= rel <= 0xFFFF
    ensures SliceAssign(s, field, field + 2, Le16(rel)) ==
      s[field := (rel % 0x1_0000) % 0x100][field + 1 := ((rel % 0x1_0000) / 0x100) % 0x100]
  {
    SliceAssignInPlace(s, field, Le16(rel));
    assert rel % 0x1_0000 == rel;
  }

  /**
   * With every offset in 16 bits the range check never fires, and the
   * records are rewritten exactly as the manifest-driven patcher rewrites them.
   */
  lemma {:induction false} RecordsAgree(s: seq<Byte>, offsets: seq<int>, n: nat)
    requires n <= |offsets| && CardTableFileStart + n * BytesPerCard <= |s|
    requires forall i | 0 <= i < n :: 0 <= offsets[i] <= 0xFFFF
    ensures RecordsWritten(s, offsets, n) == Ok(RomNames.OffsetsWritten(s, CardTableFileStart, offsets, n))
  {
    if n > 0 {
      var field := CardTableFileStart + (n - 1) * BytesPerCard + 4;
      RecordsAgree(s, offsets, n - 1);
      var prev := RomNames.OffsetsWritten(s, CardTableFileStart, offsets, n - 1);
      assert field + 2 <= |prev| && 0 <= offsets[n - 1] <= 0xFFFF;
      Le16SliceIsByteWrites(prev, field, offsets[n - 1]);
    }
  }

  /** `math.ceil(size / BLOCK_SIZE)`: the whole blocks, plus one for a partial block. */
  function CeilBlocks(size: nat): (blocks: nat)
    ensures (blocks - 1) * NameTable.BlockSize < size <= blocks * NameTable.BlockSize
  {
    if size % NameTable.BlockSize == 0 then size / NameTable.BlockSize
    else size / NameTable.BlockSize + 1
  }

  /** A block count is fixed by the size it rounds up. */
  lemma CeilUnique(size: int, b: int, c: int)
    requires (b - 1) * NameTable.BlockSize < size <= b * NameTable.BlockSize
    requires (c - 1) * NameTable.BlockSize < size <= c * NameTable.BlockSize
    ensures b == c
  {
  }

  /** Both patchers count blocks alike: the ceiling here is `computeBlockCount`'s rounded-up division. */
  lemma CeilBlocksAgrees(size: nat)
    ensures CeilBlocks(size) == RomNames.ComputeBlockCount(size)
  {
    CeilUnique(size, CeilBlocks(size), RomNames.ComputeBlockCount(size));
  }

  // ---------------------------------------------------------------- pipeline

  /** The image after the table, pointer and record writes, before the padding. */
  function Image(image: seq<Byte>, blob: seq<Byte>, offsets: seq<int>): (r: seq<Byte>)
    requires |offsets| >= NumCards
    ensures |r| == Max(|image|, NameListFileOff + |blob|)
  {
    RomNames.OffsetsWritten(Pointed(Placed(image, blob)), CardTableFileStart, offsets, NumCards)
  }

  /**
   * Padding with `00` to whole 8 KiB blocks and the header write; more than
   * 255 blocks is an error (the check comes after the padding, but nothing
   * has been written to the file yet).
   */
  function Finish(recorded: seq<Byte>): Result<seq<Byte>>
    requires |recorded| > HeaderBlockByte
  {
    var blocks := CeilBlocks(|recorded|);
    if blocks > 255 then Err(TooManyBlocks(blocks))
    else Ok(Grow(recorded, blocks * NameTable.BlockSize, 0)[HeaderBlockByte := blocks % 0x100])
  }

  /**
   * `main` from the name filter on, for the filtered names: the bytes written
   * back, or the error the script exits with before writing anything.
   */
  function PatchNames(image: seq<Byte>, names: seq<string>): Result<seq<Byte>>
  {
    if |names| != NumCards then Err(NameCountMismatch(NumCards, |names|))
    else
      var blob := Blob(names);
      if |blob| - 1 > 0xFFFF then Err(BlobTooLarge(|blob|))
      else
        Completed(Placed(image, blob), NameOffsets(names))
  }

  /** The writes after the table: the pointer, the records, then the padding and the header byte. */
  function Completed(placed: seq<Byte>, offsets: seq<int>): Result<seq<Byte>>
    requires |placed| >= NameListFileOff && |offsets| >= NumCards
  {
    var recorded :- RecordsWritten(Pointed(placed), offsets, NumCards);
    Finish(recorded)
  }

  /** The lines of the card list as `read_text().splitlines()` gives them. */
  function ListLines(text: string): seq<string>
  {
    SplitLines(UniversalNewlines(text))
  }

  /** The whole run on image `image` and the card list's text `text`. */
  function Patched(image: seq<Byte>, text: string): Result<seq<Byte>>
  {
    PatchNames(image, CardNames(ListLines(text)))
  }

  /**
   * The lines are those of the text itself (universal newlines move no line
   * end), none holds a boundary, and so `rstrip("\r\n")` changes none of them.
   */
  lemma ListLinesMeaning(text: string)
    ensures ListLines(text) == SplitLines(text)
    ensures forall i | 0 <= i < |ListLines(text)| ::
      NoLineBreak(ListLines(text)[i]) && RStripNewlines(ListLines(text)[i]) == ListLines(text)[i]
  {
    SplitLinesUniversal(text);
    SplitLinesNoBreak(text);
  }

  /** Non-empty names without line boundaries pass the filter unchanged. */
  lemma {:induction false} CardNamesKeeps(names: seq<string>)
    requires forall i | 0 <= i < |names| :: names[i] != [] && NoLineBreak(names[i])
    ensures CardNames(names) == names
  {
    if names != [] {
      assert !IsLineBreak(names[0][|names[0]| - 1]);
      CardNamesKeeps(names[1..]);
    }
  }

  /** A card list written one name per line patches the image with exactly those names. */
  lemma PatchedJoined(image: seq<Byte>, names: seq<string>)
    requires forall i | 0 <= i < |names| :: names[i] != [] && NoLineBreak(names[i])
    ensures Patched(image, JoinLines(names)) == PatchNames(image, names)
  {
    SplitLinesJoined(names);
    SplitLinesUniversal(JoinLines(names));
    CardNamesKeeps(names);
  }

  /** The bytes a successful run writes to: the header, the pointer, the name fields and the table. */
  predicate Written(blobLength: nat, k: int)
  {
    k == HeaderBlockByte
    || LookupPtrFileOff <= k < LookupPtrFileOff + 4
    || RomNames.InNameField(CardTableFileStart, NumCards, k)
    || NameListFileOff <= k < NameListFileOff + blobLength
  }

  /** Every offset a table gives lies inside it. */
  lemma OffsetsFit(names: seq<string>)
    ensures forall i | 0 <= i < |names| :: 0 <= NameOffsets(names)[i] <= |Blob(names)| - 1
  {
    forall i | 0 <= i < |names| ensures 0 <= NameOffsets(names)[i] <= |Blob(names)| - 1 {
      NameTable.OffsetsInside(Encodings(names), i);
    }
  }

  /** With the count right and the table within 16 bits, the run is the padding of the written image. */
  lemma PatchNamesWrites(image: seq<Byte>, names: seq<string>)
    requires |names| == NumCards && |Blob(names)| <= 0x1_0000
    ensures PatchNames(image, names) == Finish(Image(image, Blob(names), NameOffsets(names)))
  {
    OffsetsFit(names);
    RecordsAgree(Pointed(Placed(image, Blob(names))), NameOffsets(names), NumCards);
  }

  /** A successful run had the count right and the table within 16 bits, and is the padding of the written image. */
  lemma PatchNamesOk(image: seq<Byte>, names: seq<string>)
    requires PatchNames(image, names).Ok?
    ensures |names| == NumCards && |Blob(names)| <= 0x1_0000
    ensures PatchNames(image, names) == Finish(Image(image, Blob(names), NameOffsets(names)))
  {
    PatchNamesWrites(image, names);
  }

  /**
   * The padding: a whole number of blocks (at most 255, else the error), less
   * than one block added, byte 3 holding the count, the padding `00` and
   * every other byte kept.
   */
  lemma FinishLayout(recorded: seq<Byte>)
    requires |recorded| > HeaderBlockByte
    ensures Finish(recorded).Err? <==> CeilBlocks(|recorded|) > 255
    ensures Finish(recorded).Err? ==> Finish(recorded).error == TooManyBlocks(CeilBlocks(|recorded|))
    ensures Finish(recorded).Ok? ==> var out := Finish(recorded).value;
      |out| % NameTable.BlockSize == 0 && |recorded| <= |out| < |recorded| + NameTable.BlockSize &&
      out[HeaderBlockByte] == |out| / NameTable.BlockSize <= 255
    ensures Finish(recorded).Ok? ==> var out := Finish(recorded).value;
      forall k | 0 <= k < |out| && k != HeaderBlockByte :: out[k] == if k < |recorded| then recorded[k] else 0
  {
    var blocks := CeilBlocks(|recorded|);
    assert (blocks * NameTable.BlockSize) / NameTable.BlockSize == blocks;
  }

  /** Byte `k` of the written image outside the name fields: the pointer, the table, the input's byte or the `00` fill. */
  lemma ImageByte(image: seq<Byte>, blob: seq<Byte>, offsets: seq<int>, k: nat)
    requires |offsets| >= NumCards && k < |Image(image, blob, offsets)|
    requires !RomNames.InNameField(CardTableFileStart, NumCards, k)
    ensures Image(image, blob, offsets)[k] ==
      if LookupPtrFileOff <= k < LookupPtrFileOff + 4 then Le32(NameListRomAddr)[k - LookupPtrFileOff]
      else if NameListFileOff <= k < NameListFileOff + |blob| then blob[k - NameListFileOff]
      else if k < |image| then image[k] else 0
  {
    var placed := Placed(image, blob);
    PlacedLayout(image, blob);
    SliceAssignAt(placed, LookupPtrFileOff, Le32(NameListRomAddr), k);
    RomNames.OffsetsWrittenKeeps(Pointed(placed), CardTableFileStart, offsets, NumCards, k);
    if NameListFileOff <= k < NameListFileOff + |blob| {
      assert placed[k] == placed[NameListFileOff..NameListFileOff + |blob|][k - NameListFileOff];
    }
  }

  /** The written image holds the table at 0x8000. */
  lemma ImageTable(image: seq<Byte>, blob: seq<Byte>, offsets: seq<int>)
    requires |offsets| >= NumCards
    ensures var img := Image(image, blob, offsets);
      NameListFileOff + |blob| <= |img| && img[NameListFileOff..NameListFileOff + |blob|] == blob
  {
    var img := Image(image, blob, offsets);
    forall k | NameListFileOff <= k < NameListFileOff + |blob| ensures img[k] == blob[k - NameListFileOff] {
      ImageByte(image, blob, offsets, k);
    }
  }

  /** The written image holds `00 80 00 02` at the lookup pointer. */
  lemma ImagePointer(image: seq<Byte>, blob: seq<Byte>, offsets: seq<int>)
    requires |offsets| >= NumCards
    ensures var img := Image(image, blob, offsets);
      LookupPtrFileOff + 4 <= |img| && img[LookupPtrFileOff..LookupPtrFileOff + 4] == [0x00, 0x80, 0x00, 0x02]
  {
    var img := Image(image, blob, offsets);
    forall k | LookupPtrFileOff <= k < LookupPtrFileOff + 4 ensures img[k] == Le32(NameListRomAddr)[k - LookupPtrFileOff] {
      ImageByte(image, blob, offsets, k);
    }
    assert Le32(NameListRomAddr) == [0x00, 0x80, 0x00, 0x02];
  }

  /** Record `i` of the written image holds `le16` of its offset in bytes 4 and 5. */
  lemma ImageRecord(image: seq<Byte>, blob: seq<Byte>, offsets: seq<int>, i: nat)
    requires |offsets| >= NumCards && i < NumCards
    ensures var img, field := Image(image, blob, offsets), CardTableFileStart + i * BytesPerCard + 4;
      field + 2 <= |img| && img[field..field + 2] == Le16(offsets[i])
  {
    RomNames.OffsetFieldAt(Pointed(Placed(image, blob)), CardTableFileStart, offsets, NumCards, i);
  }

  /** The padding keeps any run of bytes that avoids the header byte. */
  lemma FinishKeeps(recorded: seq<Byte>, lo: nat, hi: nat)
    requires |recorded| > HeaderBlockByte && Finish(recorded).Ok?
    requires lo <= hi <= |recorded| && (hi <= HeaderBlockByte || HeaderBlockByte < lo)
    ensures hi <= |Finish(recorded).value| && Finish(recorded).value[lo..hi] == recorded[lo..hi]
  {
    FinishLayout(recorded);
    var out := Finish(recorded).value;
    forall k | lo <= k < hi ensures out[k] == recorded[k] { }
  }

  /**
   * The range check on record offsets never fires, and the run fails exactly
   * when the list does not hold 722 names, the table outgrows 16-bit offsets,
   * or the image would need more than 255 blocks.
   */
  lemma PatchedErrors(image: seq<Byte>, names: seq<string>)
    ensures PatchNames(image, names).Err? ==> !PatchNames(image, names).error.RecordOffsetOutOfRange?
    ensures PatchNames(image, names) == Err(NameCountMismatch(NumCards, |names|)) <==> |names| != NumCards
    ensures PatchNames(image, names) == Err(BlobTooLarge(|Blob(names)|)) <==>
      |names| == NumCards && |Blob(names)| > 0x1_0000
    ensures PatchNames(image, names).Err? && PatchNames(image, names).error.TooManyBlocks? <==>
      |names| == NumCards && |Blob(names)| <= 0x1_0000 &&
      CeilBlocks(Max(|image|, NameListFileOff + |Blob(names)|)) > 255
  {
    if |names| == NumCards && |Blob(names)| <= 0x1_0000 {
      PatchNamesWrites(image, names);
      FinishLayout(Image(image, Blob(names), NameOffsets(names)));
    }
  }

  /**
   * A successful run leaves a whole number of 8 KiB blocks (at most 255), less
   * than a block beyond what the image and the table need, header byte 3
   * holding the block count, and the pointer bytes `00 80 00 02`.
   */
  lemma PatchedShape(image: seq<Byte>, names: seq<string>)
    requires PatchNames(image, names).Ok?
    ensures var out, m := PatchNames(image, names).value, Max(|image|, NameListFileOff + |Blob(names)|);
      |out| % NameTable.BlockSize == 0 && out[HeaderBlockByte] == |out| / NameTable.BlockSize <= 255 &&
      m <= |out| < m + NameTable.BlockSize
    ensures var out := PatchNames(image, names).value;
      LookupPtrFileOff + 4 <= |out| && out[LookupPtrFileOff..LookupPtrFileOff + 4] == [0x00, 0x80, 0x00, 0x02]
  {
    var blob, offsets := Blob(names), NameOffsets(names);
    var img := Image(image, blob, offsets);
    PatchNamesOk(image, names);
    FinishLayout(img);
    ImagePointer(image, blob, offsets);
    FinishKeeps(img, LookupPtrFileOff, LookupPtrFileOff + 4);
  }

  /** Card `i`'s record holds `le16` of its offset, which reads back as the offset itself. */
  lemma PatchedRecord(image: seq<Byte>, names: seq<string>, i: nat)
    requires PatchNames(image, names).Ok? && i < NumCards
    ensures var out, field := PatchNames(image, names).value, CardTableFileStart + i * BytesPerCard + 4;
      field + 2 <= |out| && out[field..field + 2] == Le16(NameOffsets(names)[i]) &&
      DecodeLe16(out[field..field + 2]) == NameOffsets(names)[i]
  {
    var blob, offsets := Blob(names), NameOffsets(names);
    var img := Image(image, blob, offsets);
    var field := CardTableFileStart + i * BytesPerCard + 4;
    PatchNamesOk(image, names);
    ImageRecord(image, blob, offsets, i);
    FinishKeeps(img, field, field + 2);
    OffsetsFit(names);
    Le16Decodes(offsets[i]);
    var out := PatchNames(image, names).value;
    assert out[field..field + 2] == Le16(offsets[i]);
  }

  /** The table sits at 0x8000 in the written image. */
  lemma PatchedTable(image: seq<Byte>, names: seq<string>)
    requires PatchNames(image, names).Ok?
    ensures var out, blob := PatchNames(image, names).value, Blob(names);
      NameListFileOff + |blob| <= |out| && out[NameListFileOff..NameListFileOff + |blob|] == blob
  {
    var blob, offsets := Blob(names), NameOffsets(names);
    var img := Image(image, blob, offsets);
    PatchNamesOk(image, names);
    ImageTable(image, blob, offsets);
    FinishKeeps(img, NameListFileOff, NameListFileOff + |blob|);
  }

  /** Every byte the run does not write keeps the image's value; bytes beyond the image are `00`. */
  lemma PatchedElsewhere(image: seq<Byte>, names: seq<string>, k: nat)
    requires PatchNames(image, names).Ok? && k < |PatchNames(image, names).value| && !Written(|Blob(names)|, k)
    ensures PatchNames(image, names).value[k] == if k < |image| then image[k] else 0
  {
    var blob, offsets := Blob(names), NameOffsets(names);
    var img := Image(image, blob, offsets);
    PatchNamesOk(image, names);
    FinishLayout(img);
    if k < |img| {
      ImageByte(image, blob, offsets, k);
    }
  }

  /**
   * `main` from splitting the card list's text to the header write: exits (an
   * error, and no bytes written) on a wrong name count, an oversized table, an
   * offset outside 16 bits or more than 255 blocks; otherwise the bytes to
   * write.
   */
  method PatchGme(image: seq<Byte>, text: string) returns (r: Result<seq<Byte>>)
    ensures r == Patched(image, text)
  {
    var names := CardNames(ListLines(text));
    if |names| != NumCards {
      return Err(NameCountMismatch(NumCards, |names|));
    }
    r := PatchCounted(image, names);
  }

  /** `main` once the name count is right: the table, pointer, record, padding and header writes. */
  method PatchCounted(image: seq<Byte>, names: seq<string>) returns (r: Result<seq<Byte>>)
    requires |names| == NumCards
    ensures r == PatchNames(image, names)
  {
    var data := new RomBuffer(image);
    if |data.bytes| < NameListFileOff {
      data.bytes := data.bytes + Fill(0, NameListFileOff - |data.bytes|);
    }
    var blob, nameOffsets := BuildBlob(names);
    if |blob| - 1 > 0xFFFF {
      return Err(BlobTooLarge(|blob|));
    }
    PlaceTable(data, blob);
    assert data.bytes == Placed(image, blob);
    r := Complete(data, nameOffsets);
  }

  /** The pointer write, the record loop, then the padding and the header write. */
  method Complete(data: RomBuffer, nameOffsets: seq<int>) returns (r: Result<seq<Byte>>)
    requires |data.bytes| >= NameListFileOff && |nameOffsets| >= NumCards
    modifies data
    ensures r == Completed(old(data.bytes), nameOffsets)
  {
    data.bytes := SliceAssign(data.bytes, LookupPtrFileOff, LookupPtrFileOff + 4, Le32(NameListRomAddr));
    var err := WriteRecords(data, nameOffsets);
    if err.Some? {
      return Err(err.value);
    }
    r := PadAndCount(data);
  }

  /** The table write of `main`: grow with `00` to the table's end, then the slice assignment at 0x8000. */
  method PlaceTable(data: RomBuffer, blob: seq<Byte>)
    requires |data.bytes| >= NameListFileOff
    modifies data
    ensures var endPos := NameListFileOff + |blob|;
      data.bytes == SliceAssign(Grow(old(data.bytes), endPos, 0), NameListFileOff, endPos, blob)
  {
    var endPos := NameListFileOff + |blob|;
    if |data.bytes| < endPos {
      data.bytes := data.bytes + Fill(0, endPos - |data.bytes|);
    }
    data.bytes := SliceAssign(data.bytes, NameListFileOff, endPos, blob);
  }

  /** The padding and the header write of `main`, on the buffer. */
  method PadAndCount(data: RomBuffer) returns (r: Result<seq<Byte>>)
    requires |data.bytes| > HeaderBlockByte
    modifies data
    ensures r == Finish(old(data.bytes))
  {
    var newSize := |data.bytes|;
    var blocks := CeilBlocks(newSize);
    var paddedSize := blocks * NameTable.BlockSize;
    assert paddedSize / NameTable.BlockSize == blocks;
    if paddedSize > newSize {
      data.bytes := data.bytes + Fill(0, paddedSize - newSize);
    }
    if paddedSize / NameTable.BlockSize > 255 {
      return Err(TooManyBlocks(blocks));
    }
    assert data.bytes == Grow(old(data.bytes), paddedSize, 0);
    data.bytes := data.bytes[HeaderBlockByte := blocks % 0x100];
    r := Ok(data.bytes);
    assert blocks <= 255 && blocks == CeilBlocks(|old(data.bytes)|);
    ghost var g := Grow(old(data.bytes), blocks * NameTable.BlockSize, 0);
    assert Finish(old(data.bytes)) == Ok(g[HeaderBlockByte := blocks % 0x100]);
    assert data.bytes == g[HeaderBlockByte := blocks % 0x100];
  }

  /** The record loop: range check, then the `le16` slice write, card after card. */
  method WriteRecords(data: RomBuffer, nameOffsets: seq<int>) returns (err: Option<Error>)
    requires |nameOffsets| >= NumCards && CardTableFileStart + NumCards * BytesPerCard <= |data.bytes|
    modifies data
    ensures err.None? ==> RecordsWritten(old(data.bytes), nameOffsets, NumCards) == Ok(data.bytes)
    ensures err.Some? ==> RecordsWritten(old(data.bytes), nameOffsets, NumCards) == Err(err.value)
  {
    for i := 0 to NumCards
      invariant RecordsWritten(old(data.bytes), nameOffsets, i) == Ok(data.bytes)
    {
      var entryOff := CardTableFileStart + i * BytesPerCard;
      var nameOffField := entryOff + 4;
      var rel := nameOffsets[i];
      if !(0 <= rel <= 0xFFFF) {
        RecordsErrFrom(old(data.bytes), nameOffsets, NumCards, i);
        return Some(RecordOffsetOutOfRange(i + 1, rel));
      }
      data.bytes := SliceAssign(data.bytes, nameOffField, nameOffField + 2, Le16(rel));
    }
    err := None;
  }

  /** Once the loop has passed card `j` without error, that card's failing check fails the whole loop. */
  lemma {:induction false} RecordsErrFrom(s: seq<Byte>, offsets: seq<int>, n: nat, j: nat)
    requires n <= |offsets| && CardTableFileStart + n * BytesPerCard <= |s|
    requires j < n && !(0 <= offsets[j] <= 0xFFFF) && RecordsWritten(s, offsets, j).Ok?
    ensures RecordsWritten(s, offsets, n) == Err(RecordOffsetOutOfRange(j + 1, offsets[j]))
  {
    if n - 1 > j {
      RecordsErrFrom(s, offsets, n - 1, j);
    }
  }
}
