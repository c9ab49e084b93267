# PocketStation ROM patching tools, modelled in Dafny

The YGOFM PocketStation translation ships five Python tools. Each works on a
memory-card or ROM image held in a `bytearray`, adding a base offset to every
ROM-relative address (0x00 raw, 0x80 for an MCS header, or a custom value).
This project models their core logic and proves what the code promises:

- **Name-table relocation** (`tools/rom_names.py`, module `RomNames`, plus the
  older fixed-address script `YGOFM-NamePatch.py`, module `NamePatch`).
  - 722 card names are encoded through a character remap.
  - They are packed into the table `FA 21` + (name + `00`)×N, which is padded
    to an 8 KiB block.
  - The table is injected into the image.
  - Each card record's 2-byte little-endian name offset is rewritten.
  - The 4-byte lookup pointer `0x02000000 + offset` is written.
  - The block-count header byte is updated.
- **Patch applier** (`tools/rom_patches.py`, module `RomPatches`).
  - Hex or decimal addresses and byte lists are parsed.
  - The language section of a manifest is looked up.
  - Entries are filtered by name and active flag, bounds-checked, and written
    in order or in dry-run mode. The applier returns the byte total.
- **Graphics extractor/packer** (`tools/rom_graphics.py`, module `RomGraphics`).
  - Bitmap sizes and frame offsets `start + i*step` are computed.
  - `extract` cuts frames out of the image.
  - `pack` fits each present input file to the frame size and writes it back
    in place, skipping missing frames.
- **1bpp conversions** (`tools/gfx_convert.py`, module `GfxConvert`). This
  covers the bit-reversal table, 8×8 tile mirroring, and MSB-first unpacking
  and packing between bytes and 0/255 grey pixels.

Shared modules:

- `Common`: bytes, errors, Python slice semantics, `le16`/`le32`, and the
  `RomBuffer` class that stands for the mutable `bytearray`.
- `Json`: manifest values, with objects kept in document order. A repeated
  key reads as its last value and is listed once, at its first place.
- `PyNumbers`: Python's `int(text, 10|16)` (ASCII digits), `strip` (all of
  Python's whitespace), `lower` (for the letters listed under "Left out") and
  `parse_hex_or_int`.
- `NameTable`: the name-table layout shared by both name patchers.

Code that mutates the image is modelled as methods on a `RomBuffer` (`modifies
rom`). Each such method's `ensures` ties the new bytes to a specification
function of the old bytes. The properties are proved about those functions.
Loops that build lists become methods with loop invariants against a
specification function. Python exceptions and `sys.exit` calls become `Err`
results. Since the tools never write the file after one, a failing run leaves
the image unchanged.

## Model

| member | source | states |
|---|---|---|
| Common.SliceAssignShape | tools/rom_patches.py:108 | `s[lo:hi] = d`: prefix kept, `d` placed at `lo`, suffix from `hi` kept; past the end `d` is appended |
| Common.PySlice | tools/rom_graphics.py:108 | a Python slice with any bounds is the Dafny slice when the bounds are in range and never longer than `s` |
| Common.FitTo | tools/gfx_convert.py:135-140 | pads with the fill value or truncates to exactly `n` elements, element `k` being `s[k]` or the fill |
| Common.Grow | tools/rom_names.py:171-173 | `extend` up to `n`: length `max(len, n)`, old bytes kept, new ones the fill |
| Common.Le16RoundTrip | YGOFM-NamePatch.py:25 | the two `le16` bytes decode little-endian to `n mod 2^16`, for any sign of `n` |
| Common.Le16Decodes | YGOFM-NamePatch.py:25 | for `0 <= n <= 0xFFFF` the round trip is exact |
| Common.Le32RoundTrip | YGOFM-NamePatch.py:26 | the four `le32` bytes decode little-endian to `n mod 2^32` |
| Common.SliceAssignInPlace | tools/rom_patches.py:108 | an in-range slice assignment of the slice's own length keeps the length and changes only positions `lo..lo+len(d)` |
| PyNumbers.Strip | tools/rom_patches.py:41 | `strip()` leaves no whitespace at either end |
| PyNumbers.StripLeftSuffix | tools/rom_patches.py:41 | `lstrip()` keeps a suffix that does not start with whitespace |
| PyNumbers.StripRightPrefix | tools/rom_patches.py:41 | `rstrip()` keeps a prefix that does not end with whitespace |
| PyNumbers.StripLeftTakesSpace | tools/rom_patches.py:41 | only whitespace is removed from the front |
| PyNumbers.StripRightTakesSpace | tools/rom_patches.py:41 | only whitespace is removed from the back |
| PyNumbers.ParseHexOrIntReadsHex | tools/rom_patches.py:42-43 | `"0x"` followed by the hex digits of `n` parses to `n` |
| PyNumbers.ParseHexOrIntReadsDecimal | tools/rom_patches.py:44 | the decimal digits of `n` parse to `n` |
| PyNumbers.ParseHexOrIntReadsNegative | tools/rom_patches.py:44 | `"-"` plus decimal digits parses to the negated value |
| PyNumbers.DigitsRoundTrip | tools/rom_patches.py:43-44 | reading back the digits of `n` in base 10 or 16 gives `n` |
| PyNumbers.PyIntLower | tools/rom_graphics.py:58-61 | lower-casing stripped text changes neither whether `int(t, base)` succeeds nor its value |
| PyNumbers.ParseHexOrIntLoweredAgrees | tools/rom_graphics.py:55-61 | the graphics tool's lower-casing parser succeeds exactly when the patch tool's does, with the same value |
| Json.GetMeaning | tools/rom_patches.py:80-81 | a lookup finds a key iff some field has it, returning the value of the last such field (as `json.load` keeps the last of repeated keys) |
| Json.KeysMeaning | tools/rom_patches.py:83 | `manifest.keys()` lists exactly the object's keys, each once; without repeated keys, in document order |
| Json.Index | tools/rom_patches.py:99 | `obj[key]` fails with a KeyError exactly when the key is absent |
| Json.PyIntOf | tools/rom_graphics.py:101 | `int(x)` returns integers as they are and refuses null, lists and objects |
| Json.ParseHexOrIntValue | tools/rom_patches.py:38-44 | integers are returned unchanged, strings are parsed as hex after `0x` (either case) and as decimal otherwise, and anything else fails |
| NameTable.JoinLength | tools/rom_names.py:123-128 | the terminated names take `sum(len(enc) + 1)` bytes |
| NameTable.NameStartStep | tools/rom_names.py:124-128 | name `i` starts at `2 + sum(len(enc_j) + 1 for j < i)`, one past the previous terminator |
| NameTable.NameInTable | tools/rom_names.py:127-128 | name `i` lies in the table at its start, followed by exactly one `00` |
| NameTable.OffsetsInside | tools/rom_names.py:121-126 | every record offset (0 for card 1) points inside the unpadded table |
| NameTable.ScanJoin | tools/rom_names.py:128 | when no name contains `00`, splitting the table at terminators gives back the names |
| NameTable.PadLength | tools/rom_names.py:131 | `(-n) % 0x2000` is less than a block and brings `n` to a block boundary |
| NameTable.PadToBlock | tools/rom_names.py:130-133 | the padded table is a whole number of blocks, less than one block longer, its prefix the table and the rest the fill byte |
| RomNames.RemapStepErr | tools/rom_names.py:70-75 | one remap entry fails iff it is not an object, or it has a `hex` that is not hex text, or its `unicode` value is a list or an object (unhashable, checked after `int()`) |
| RomNames.RemapStepKey | tools/rom_names.py:70-75 | one successful remap entry adds its text `unicode` key with `int(hex, 16)` and keeps every other key |
| RomNames.RemapHas | tools/rom_names.py:67-76 | a character is in the table iff some entry with a `hex` defines it |
| RomNames.RemapLast | tools/rom_names.py:75 | the code stored for a key is the one from the last entry defining it |
| RomNames.RemapOfLastWins | tools/rom_names.py:67-76 | the table holds exactly the defined keys, each with its last entry's code |
| RomNames.BuildRemapTable | tools/rom_names.py:67-76 | the loop over the `remap` list (empty when absent) computes the table or the first entry's error, an unhashable `unicode` value included |
| RomNames.RemapPrefixErr | tools/rom_names.py:75 | once an entry's `int(hx, 16)` fails, the whole build fails with that error |
| RomNames.NormalizeName | tools/rom_names.py:78-93 | same length as the input; each character is replaced by its ASCII form when it is in the replacement table, else kept |
| RomNames.NormalizeIdempotent | tools/rom_names.py:79-92 | normalising twice equals normalising once |
| RomNames.JoinedPieces | tools/rom_names.py:90-93 | joining the elements of a list name fails only with a `TypeError` |
| RomNames.NormalizedValue | tools/rom_names.py:78-93 | normalising a `name` value of any JSON kind fails only with a `TypeError` |
| RomNames.JoinedPiecesMeaning | tools/rom_names.py:90-93 | a list name (or an object name, by its keys) normalises iff every element is text |
| RomNames.CharListNormalizes | tools/rom_names.py:90-93 | a name given as the list of its characters normalises exactly as the text itself |
| RomNames.NormalizeValue | tools/rom_names.py:78-93 | the loop over a text's characters, or a list's elements or an object's keys, computes the specified normalisation |
| RomNames.JoinPieces | tools/rom_names.py:90-93 | the `out` loop and `''.join` over a list's elements compute the specified text or the `TypeError` |
| RomNames.EncodedValue | tools/rom_names.py:95-96 | encoding a `name` value is `encodeName` of the text for text, and a `TypeError` when the value cannot be normalised |
| RomNames.FirstOutOfRange | tools/rom_names.py:101 | the first mapped character whose code is not a byte, where `append` raises |
| RomNames.AppendedMeaning | tools/rom_names.py:99-107 | with nothing skipped, one byte per character: the remap code, else (non-strict) the character if 0x20..0x7E, else 0x20 |
| RomNames.MissingCountsMeaning | tools/rom_names.py:98-104 | `missing` names exactly the unmapped characters, each with its number of occurrences |
| RomNames.EncodedMeaning | tools/rom_names.py:95-111 | `encodeName` succeeds iff every mapped code is a byte and, in strict mode, every character is mapped. A success has one byte per character. A strict failure reports the unmapped characters with counts. Non-strict never fails on unmapped characters |
| RomNames.EncodeName | tools/rom_names.py:95-111 | the normalise-then-scan method computes exactly the specified encoding of a `name` value of any JSON kind |
| RomNames.EncodeNormalized | tools/rom_names.py:97-111 | the scan loop, with its running `out` and `missing`, computes the specified encoding |
| RomNames.MissingEmpty | tools/rom_names.py:108 | `missing` is empty exactly when every character was mapped |
| RomNames.EncodePrefixMeaning | tools/rom_names.py:123-128 | a successful build holds each name's strict encoding in order |
| RomNames.EncodePrefixErr | tools/rom_names.py:127 | the first name that fails to encode fails the whole build with its error |
| RomNames.BlobNameAt | tools/rom_names.py:124-128 | card `i > 0`'s encoding lies at its stored offset in the table, followed by `00` |
| RomNames.BlobLayout | tools/rom_names.py:113-135 | the table starts `FA 21`, card 1's offset is 0, every later name is at its offset followed by `00`, and the table is padded with `FF` to a multiple of 0x2000 |
| RomNames.BuildNameBlobAndOffsets | tools/rom_names.py:113-135 | the build loop plus padding computes the specified table and the 722 offsets, or the first encoding error |
| RomNames.BuildNameBody | tools/rom_names.py:118-128 | the name loop yields the unpadded table and offsets, or the error of the first failing name |
| RomNames.ComputeBlockCount | tools/rom_names.py:137-138 | the least `k` with `k * 0x2000 >= size` (bounded below by `(k-1) * 0x2000 < size`) |
| RomNames.EnsureRomSize | tools/rom_names.py:171-173 | the image is grown with `FF` to at least the required size; nothing else changes |
| RomNames.InjectedLayout | tools/rom_names.py:175-178 | after injection the length is `max(old, at + len(blob))`, the blob lies at `at`, other old bytes are kept, and gap bytes are `FF` |
| RomNames.InjectBlob | tools/rom_names.py:175-178 | `injectBlob` turns the image into the injected image |
| RomNames.OffsetFieldAt | tools/rom_names.py:152-157 | record `i`'s bytes 4 and 5 hold `offsets[i] & 0xFFFF` little-endian |
| RomNames.OffsetsWrittenLayout | tools/rom_names.py:147-157 | every record's name field holds its masked offset, and every other byte is unchanged |
| RomNames.PatchCardIndexNameOffsets | tools/rom_names.py:147-157 | the loop over the 722 records produces the specified image |
| RomNames.PointerDecodes | tools/rom_names.py:159-169 | the four pointer bytes decode to `(0x02000000 + offset) mod 2^32`; no other byte changes |
| RomNames.SetCardNamePointer | tools/rom_names.py:159-169 | the four masked byte writes produce the specified image |
| RomNames.UpdateBlockCountHeader | tools/rom_names.py:180-187 | returns `computeBlockCount(size)` and changes only the header byte, to that value `& 0xFF` |
| RomNames.ByNumberHas | tools/rom_names.py:194-197 | a card number is in `byNum` iff some item carries it |
| RomNames.ByNumberLastWins | tools/rom_names.py:194-197 | `byNum` holds exactly the carried numbers, each with the name of the last item carrying it |
| RomNames.NamesUpTo | tools/rom_names.py:198-203 | success gives the `name` values of cards 1..k in order, whatever their JSON kind; failure names the first card number in range that is missing |
| RomNames.LoadLanguageNames | tools/rom_names.py:189-203 | the two loops compute the specified 722 `name` values, unchecked, or the first error |
| RomNames.PatchedTable | tools/rom_names.py:306 | when the table, the records, the pointer and the header byte do not overlap (`Disjoint`), after all writes of `main` the table lies at its file offset |
| RomNames.PatchedPointerAndHeader | tools/rom_names.py:308-315 | when the table, the records, the pointer and the header byte do not overlap (`Disjoint`), the pointer decodes to the table's memory address and the header byte holds the planned block count `& 0xFF` |
| RomNames.PatchedRecords | tools/rom_names.py:307 | when the table, the records, the pointer and the header byte do not overlap (`Disjoint`), every record's name field reads back as its offset masked to 16 bits |
| RomNames.PatchedElsewhere | tools/rom_names.py:290-315 | every byte no write reaches is as it was, or `FF` where the image grew |
| RomNames.FinalBlocksArePlanned | tools/rom_names.py:289-315 | the block count written equals the planned one, and the final length is the planned end |
| RomNames.DryRunUnchanged | tools/rom_names.py:301-303 | a dry run succeeds iff planning does, reports the plan and leaves the image unchanged |
| RomNames.PlanNamePatch | tools/rom_names.py:236-269 | base offset, manifest addresses, remap, names and table are computed in `main`'s order, with the first failure as the result |
| RomNames.RunNamePatch | tools/rom_names.py:236-315 | `main` without I/O: plan, then (unless a dry run) apply the writes; on any error the image is unchanged |
| NamePatch.DerivedConstants | YGOFM-NamePatch.py:7-23 | there are 722 cards, the records fill the table bounds exactly, and the file offsets are 0x8000, 0x2A7C and 0x4C0C |
| NamePatch.LineLengthMeaning | YGOFM-NamePatch.py:42 | the first line of a text holds no `splitlines` boundary and ends at one unless it ends the text |
| NamePatch.UniversalSplit | YGOFM-NamePatch.py:42 | universal newlines copy a boundary-free line, turn the boundary after it into `\n` when it is CR or CR LF, and go on after it |
| NamePatch.SplitLinesNoBreak | YGOFM-NamePatch.py:42 | no line `splitlines()` returns contains a line boundary |
| NamePatch.SplitLinesCons | YGOFM-NamePatch.py:42 | a boundary-free line followed by a boundary other than CR splits off as one line |
| NamePatch.LineLengthAfter | YGOFM-NamePatch.py:42 | a boundary-free prefix adds its length to the first line |
| NamePatch.NoBreakText | YGOFM-NamePatch.py:42 | a text without boundaries is one line (none when empty) and universal newlines leave it unchanged |
| NamePatch.UniversalPrefix | YGOFM-NamePatch.py:42 | universal newlines pass over a boundary-free prefix unchanged |
| NamePatch.SplitLinesUniversal | YGOFM-NamePatch.py:42 | `read_text`'s newline translation does not change what `splitlines()` returns |
| NamePatch.SplitLinesJoined | YGOFM-NamePatch.py:42 | boundary-free lines, the last one non-empty, joined with LF split back into themselves |
| NamePatch.ListLinesMeaning | YGOFM-NamePatch.py:42 | the list's lines are `splitlines()` of its text, and `rstrip("\r\n")` changes none of them |
| NamePatch.CardNamesKeeps | YGOFM-NamePatch.py:42-44 | non-empty boundary-free names pass the strip and the filter unchanged |
| NamePatch.PatchedJoined | YGOFM-NamePatch.py:42-114 | a card list written one name per line patches the image with exactly those names |
| NamePatch.RStripKeepsPrefix | YGOFM-NamePatch.py:42 | `rstrip("\r\n")` keeps a prefix of the line that ends in neither CR nor LF |
| NamePatch.RStripTakesNewlines | YGOFM-NamePatch.py:42 | `rstrip("\r\n")` removes only trailing CR and LF |
| NamePatch.CardNamesMeaning | YGOFM-NamePatch.py:42-44 | the filter keeps exactly the non-empty stripped lines |
| NamePatch.CardNamesSplit | YGOFM-NamePatch.py:44 | the filter keeps list order |
| NamePatch.EncodeCardName | YGOFM-NamePatch.py:63-67 | one byte per character: ASCII codes for an ASCII name, else Latin-1 with `?` above U+00FF |
| NamePatch.NoZeroByte | YGOFM-NamePatch.py:63-67 | only NUL encodes to `00` |
| NamePatch.BlobLayout | YGOFM-NamePatch.py:56-77 | the table starts `FA 21`, offset 0 is card 1's, each later name is at its offset followed by `00`, and every offset lies in the table |
| NamePatch.ReadBack | YGOFM-NamePatch.py:76 | for names without NUL, splitting the table after the marker gives back the encoded names |
| NamePatch.BuildBlob | YGOFM-NamePatch.py:57-77 | the cursor loop computes the specified table and offsets |
| NamePatch.PlacedLayout | YGOFM-NamePatch.py:51-87 | the table is written at 0x8000, gaps are filled with `00`, and every other byte is kept |
| NamePatch.PointedAgrees | YGOFM-NamePatch.py:89-91 | the pointer bytes are `00 80 00 02`, decode to 0x02008000, and match the manifest-driven patcher's write |
| NamePatch.RecordsAgree | YGOFM-NamePatch.py:96-102 | with 16-bit offsets the range check never fires, and the records match the manifest-driven patcher's |
| NamePatch.RecordsErrFrom | YGOFM-NamePatch.py:100-101 | an offset outside 16 bits stops the loop with that card's number |
| NamePatch.CeilBlocksAgrees | YGOFM-NamePatch.py:106 | `math.ceil(size / 0x2000)` equals `computeBlockCount(size)` |
| NamePatch.FinishLayout | YGOFM-NamePatch.py:104-114 | padding gives a whole number of blocks with fewer than a block of `00` added, byte 3 holds the count, and the run fails iff the count exceeds 255 |
| NamePatch.PatchedErrors | YGOFM-NamePatch.py:45-113 | the run fails exactly on a wrong name count, a table beyond 16-bit offsets or more than 255 blocks; the record range check never fires |
| NamePatch.PatchedShape | YGOFM-NamePatch.py:104-114 | a success is whole blocks (at most 255) less than a block beyond what is needed, with the header holding the count and the pointer `00 80 00 02` |
| NamePatch.PatchedRecord | YGOFM-NamePatch.py:96-102 | card `i`'s record holds `le16` of its offset, which reads back as the offset |
| NamePatch.PatchedTable | YGOFM-NamePatch.py:83-87 | the table lies at 0x8000 in the written image |
| NamePatch.PatchedElsewhere | YGOFM-NamePatch.py:49-114 | bytes no write reaches keep their values; bytes beyond the input are `00` |
| NamePatch.PatchGme | YGOFM-NamePatch.py:42-114 | `main` without I/O, from the card list's text, computes the specified bytes or exits with the specified error |
| NamePatch.WriteRecords | YGOFM-NamePatch.py:96-102 | the record loop writes the specified records or stops at the first out-of-range offset |
| NamePatch.PadAndCount | YGOFM-NamePatch.py:104-114 | the padding and header write on the buffer compute the specified result |
| RomPatches.SplitTokens | tools/rom_patches.py:56 | every token of `replace(",", " ").split()` is non-empty and free of separators |
| RomPatches.TokensOfSpaced | tools/rom_patches.py:56 | splitting tokens written one space apart gives back the tokens |
| RomPatches.BytesOfMeaning | tools/rom_patches.py:61-72 | a value converts iff every item does; then there is one byte per item, its masked value |
| RomPatches.BytesOfFirstError | tools/rom_patches.py:61-72 | a failed conversion reports the error of the first item that fails |
| RomPatches.HexTextRoundTrip | tools/rom_patches.py:55-72 | a value text of two-digit hex pairs converts back to the bytes it was written from |
| RomPatches.ParseValueToBytes | tools/rom_patches.py:46-72 | the method computes the specified bytes for a text or a list and refuses any other type |
| RomPatches.ParseItem | tools/rom_patches.py:63-71 | integers are masked `& 0xFF`, and any other item is `str().strip()`-ed, read as hex (prefix optional) and masked |
| RomPatches.FindLanguageSectionMeaning | tools/rom_patches.py:78-86 | found iff some key matches up to case; an exact key wins, then the value of the first key, in `keys()` order, that matches case-insensitively; otherwise a KeyError |
| RomPatches.FoldedKeys | tools/rom_patches.py:83-84 | some key of `manifest.keys()` matches up to case iff some field's key does |
| RomPatches.ReadEntry | tools/rom_patches.py:91-102 | non-dicts, other names and inactive entries (unless included) are skipped; otherwise `addr` and `value` are parsed in that order |
| RomPatches.PatchStep | tools/rom_patches.py:101-110 | one pass of the loop: out-of-range and negative starts are refused with the image untouched; otherwise the data is written unless it is a dry run and the total grows by its length |
| RomPatches.ApplyPatches | tools/rom_patches.py:88-111 | the in-place loop yields the specified image and total, or the exception |
| RomPatches.AppliedKeepsLength | tools/rom_patches.py:101-104 | the image never changes length |
| RomPatches.DryRunKeepsImage | tools/rom_patches.py:105-106 | a dry run leaves the image unchanged |
| RomPatches.DryRunSameTotal | tools/rom_patches.py:105-110 | dry and real runs report the same total or the same exception |
| RomPatches.AppliedByte | tools/rom_patches.py:108 | after a real run each byte holds the data of the last write covering it, or its old value |
| RomPatches.AppliedTotal | tools/rom_patches.py:89-111 | the total is the sum of the data lengths of non-skipped entries, and every write lay inside the image |
| RomPatches.SkippedSectionWritesNothing | tools/rom_patches.py:90-92 | a section that is an object or a string writes nothing and returns 0 |
| RomPatches.NegativeAddressResizes | tools/rom_patches.py:101-108 | as written, address -1 with two bytes passes the bounds check and grows a 16-byte image to 18 bytes |
| RomPatches.AsWrittenAgrees | tools/rom_patches.py:101-108 | when no write starts before the file, the corrected loop and the loop as written agree |
| RomPatches.PatchToolDryRun | tools/rom_patches.py:139-166 | `main` never forwards `--dry-run`: with the flag the file is unchanged and the count is the dry-run count; without it the file keeps its length |
| RomGraphics.ResolveBinDir | tools/rom_graphics.py:45-52 | the result is named `bin`: a path named `bin` is returned unchanged, and any other path gets `bin` appended |
| RomGraphics.ResolveBinDirIdempotent | tools/rom_graphics.py:45-52 | resolving twice equals resolving once |
| RomGraphics.HexOrInt | tools/rom_graphics.py:55-61 | succeeds exactly when the patch tool's parser does, with the same value |
| RomGraphics.BytesPerBitmap | tools/rom_graphics.py:63-69 | the `size` override if present, else the least `n` with `8n >= w*h`; fails iff a dimension fails |
| RomGraphics.StepFor | tools/rom_graphics.py:71-74 | without `step`, the size; with it, the parsed step |
| RomGraphics.AssetLayout | tools/rom_graphics.py:89-115 | a layout records the asset's kind; any kind other than `bitmap` or `sequence` is refused |
| RomGraphics.AssetLayoutFields | tools/rom_graphics.py:89-93 | a layout has the asset's size and `base + addr`, and requires a name |
| RomGraphics.AssetLayoutSequence | tools/rom_graphics.py:101-104 | a sequence layout has the asset's positive `count` and its `step` |
| RomGraphics.FrameInside | tools/rom_graphics.py:106-108 | an in-image frame is extracted as exactly its `size` bytes at `start + i*step` |
| RomGraphics.ExtractAsset | tools/rom_graphics.py:88-115 | the chunks written, one per frame, or the error raised first |
| RomGraphics.ExtractFrames | tools/rom_graphics.py:94-113 | the frame loop appends frame `i`'s slice, in order |
| RomGraphics.ReadBinOrWarn | tools/rom_graphics.py:117-128 | exactly `expected_size` bytes: the file's prefix, padded with `00` |
| RomGraphics.PackAsset | tools/rom_graphics.py:130-163 | the in-place packing yields the specified image and byte count, or the error |
| RomGraphics.PackFrames | tools/rom_graphics.py:137-161 | both branches, including the frame loop, compute the specified packing |
| RomGraphics.PackedTotal | tools/rom_graphics.py:151-161 | a successful pack reports `size ×` the number of present frames |
| RomGraphics.PackedInside | tools/rom_graphics.py:159 | frames that fit inside the image are all written, and the length is kept |
| RomGraphics.PackedByte | tools/rom_graphics.py:152-160 | each byte holds the fitted input of the last frame covering it, or its old value |
| RomGraphics.NothingToPack | tools/rom_graphics.py:137-161 | with no input files the image is unchanged and the count is 0 |
| RomGraphics.PackRefusedUnchanged | tools/rom_graphics.py:130-163 | an asset refused for a bad count, an unknown kind or a missing key is refused before any write |
| RomGraphics.PackExtractedIsIdentity | tools/rom_graphics.py:106-160 | packing the extracted frames of an in-image layout leaves the image unchanged and reports `size × count` |
| RomGraphics.PackAfterExtract | tools/rom_graphics.py:88-163 | for a whole asset, pack after extract is the identity on the image |
| GfxConvert.BuildReverseTable | tools/gfx_convert.py:39-47 | 256 entries, each the bit reversal of its index |
| GfxConvert.ReverseByte | tools/gfx_convert.py:51-52 | bit `k` of the result is bit `7-k` of `b & 0xFF` |
| GfxConvert.ReverseInvolution | tools/gfx_convert.py:39-52 | reversing twice gives the byte back |
| GfxConvert.Mirror8x8Tile | tools/gfx_convert.py:54-57 | accepted iff exactly 8 bytes; each row byte is bit-reversed |
| GfxConvert.MirrorTwice | tools/gfx_convert.py:54-57 | mirroring a tile twice gives the tile back |
| GfxConvert.Unpack1bpp | tools/gfx_convert.py:89-101 | `w*h` pixels, pixel `i` being 0 when bit `7-(i&7)` of byte `i>>3`, XOR invert, is set, else 255 |
| GfxConvert.Pack1bpp | tools/gfx_convert.py:103-118 | `ceil(n/8)` bytes, a bit set iff its pixel is below 128 XOR invert, MSB-first, with unused bits clear |
| GfxConvert.PackUnpackRoundTrip | tools/gfx_convert.py:89-118 | packing unpacked pixels with the same invert flag gives the bytes back when `w*h` is a multiple of 8 |
| GfxConvert.BitmapBytes | tools/gfx_convert.py:135 | `(w*h+7)//8` is the least byte count holding `w*h` bits |
| GfxConvert.ConvertBitmapExtract | tools/gfx_convert.py:130-146 | fails iff the file is missing; otherwise the pixels are those of the fitted, bit-reversed bytes |
| GfxConvert.ConvertBitmapPack | tools/gfx_convert.py:148-156 | the packed bytes, bit-reversed |
| GfxConvert.ConvertRoundTrip | tools/gfx_convert.py:130-156 | pack after extract gives back the binary file fitted to the bitmap size (when `w*h` is a multiple of 8) |

## Left out

- Command lines, `argparse`, printing and exit messages: not modelled. The
  base-offset choice is an input (`BaseChoice`).
- File reading and writing, `json.load`, `load_manifest`,
  `load_graphics_json`, `loadCardsJson`, `mkdir`, the `.bak` backup of
  `YGOFM-NamePatch.py` and the verbose re-read of the ROM in
  `tools/rom_names.py`: not modelled. File contents are byte sequences and
  manifests are `Json` values.
- `os.path.exists` on the graphics binaries: modelled as `AssetFiles`, where a
  missing file is `None` (bitmap) or an absent map key (frame).
- The graphics tool's `main`: the asset filters, the per-asset loops and the
  grand totals are not modelled. `pack_asset` and `extract_asset` are
  modelled per asset.
- Pillow (`Image.open`, `resize`, `convert`, `frombytes`, `save`): foreign
  library code. Only the loops over the grey bytes are modelled.
- JSON floats: not representable in `Json`, so `int()` of a float is not
  modelled.
- Python `int()` accepts `_` between digits and non-ASCII digits; the model
  does not.
- Error message texts: errors carry only their kind.
- `pathlib` string parsing: paths are already-split components (`PurePath`).
- RomGraphics.HexOrInt: only whether parsing succeeds and the value are
  stated equal to the patch tool's parser. The error texts differ, because
  the text is lower-cased first.
- RomGraphics.PackFrame: Python's slice assignment at a negative position (a
  negative `base + addr + i*step` or a negative size) is refused with an
  error instead of counting from the end. A write past the end is modelled
  as Python does it, by appending.
- RomGraphics.AssetLayout: its `ensures` states only the kind checks. The
  size, address, count and step facts are stated by `AssetLayoutFields` and
  `AssetLayoutSequence`.
- RomNames.RunNamePatch: record, pointer or header writes beyond the planned
  end are reported as errors before any write. The source raises `IndexError`
  part-way through and never writes the file, so the file result is the same
  and only the error kind differs.
- RomNames.RunNamePatch: a negative file position (table, first record,
  pointer or header byte, for example from `--offset -0x80`) is refused with
  `NegativeOffset` and nothing is written. The source differs here. A
  position from `-len(rom)` to -1 indexes from the end of the image, so the
  byte writes land near the end and the file is written. A position further
  down raises `IndexError`. The model does not capture indexing from the end.
- RomNames.PatchCardIndexNameOffsets, RomNames.SetCardNamePointer and
  RomNames.UpdateBlockCountHeader require their positions inside the image.
  Their caller checks this beforehand (see RunNamePatch).
- GfxConvert.Unpack1bpp requires at least `w*h` bits of data, where the source
  raises `IndexError`. Its only caller fits the data to `(w*h+7)//8` bytes
  first.
- RomPatches.FindLanguageSectionMeaning: `str.lower()` is modelled for the
  capitals of ASCII, Latin-1, basic Greek and basic Cyrillic. Other letters
  are kept as they are, so a key matched only through their lower-case forms
  is not found. Examples are Latin Extended capitals, U+0130 (which lowers to
  two characters) and the Kelvin sign.
- NamePatch.PatchGme: the card list's text is an input. UTF-8 decoding of the
  file, and the `UnicodeDecodeError` on bad bytes, are not modelled.

## Findings

| source | as written | input that shows it | evidently intended | confidence | as-written member | corrected member |
|---|---|---|---|---|---|---|
| tools/rom_patches.py:101-108 | only `end > len(rom_bytes)` is checked before `rom_bytes[start:end] = data` | an entry with `addr` -1 and value `[0xAA, 0xBB]` on a 16-byte image at base 0: `end` is 1, the check passes, and the slice assignment `rom[-1:1]` inserts both bytes, so the image grows to 18 bytes | a write must lie inside the image and never change its length | not executed | RomPatches.NegativeAddressResizes | RomPatches.AppliedKeepsLength |
