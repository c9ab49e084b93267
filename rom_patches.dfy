/**
 * `tools/rom_patches.py`: byte patches taken from one language section of a
 * JSON manifest and written into the image at `base + addr`, in list order.
 */
module RomPatches {
  import opened Common
  import opened Json
  import PyNumbers
  import RomNames

  // ------------------------------------------------------------ value texts

  /** A separator of `value.replace(",", " ").split()`: a comma or whitespace. */
  predicate IsSeparator(c: char)
  {
    c == ',' || PyNumbers.IsSpace(c)
  }

  predicate NoSeparator(w: string)
  {
    forall k :: 0 <= k < |w| ==> !IsSeparator(w[k])
  }

  /** What `split()` can return: a non-empty run of non-separators. */
  predicate IsToken(w: string)
  {
    w != [] && NoSeparator(w)
  }

  function Flush(word: string): seq<string>
  {
    if word == [] then [] else [word]
  }

  /** Splits `text` at runs of separators; `word` is the token read so far. */
  function Split(text: string, word: string): seq<string>
    decreases |text|
  {
    if text == [] then Flush(word)
    else if IsSeparator(text[0]) then Flush(word) + Split(text[1..], [])
    else Split(text[1..], word + [text[0]])
  }

  /** `[p for p in text.replace(",", " ").split() if p]`. */
  function Tokens(text: string): seq<string>
  {
    Split(text, [])
  }

  /** Every token is non-empty and free of separators. */
  lemma {:induction false} SplitTokens(text: string, word: string)
    requires NoSeparator(word)
    ensures forall i :: 0 <= i < |Split(text, word)| ==> IsToken(Split(text, word)[i])
    decreases |text|
  {
    if text != [] {
      if IsSeparator(text[0]) {
        SplitTokens(text[1..], []);
        var f, rest := Flush(word), Split(text[1..], []);
        forall i | 0 <= i < |f + rest| ensures IsToken((f + rest)[i]) {
          if i >= |f| {
            assert (f + rest)[i] == rest[i - |f|];
          }
        }
      } else {
        SplitTokens(text[1..], word + [text[0]]);
      }
    }
  }

  /** Tokens written out one space apart, as a manifest value such as `DE AD BE EF`. */
  function Spaced(ts: seq<string>): string
  {
    if ts == [] then []
    else if |ts| == 1 then ts[0]
    else ts[0] + " " + Spaced(ts[1..])
  }

  lemma {:induction false} SplitWord(w: string, rest: string, word: string)
    requires NoSeparator(w)
    ensures Split(w + rest, word) == Split(rest, word + w)
    decreases |w|
  {
    if w == [] {
      assert w + rest == rest && word + w == word;
    } else {
      assert (w + rest)[0] == w[0] && (w + rest)[1..] == w[1..] + rest;
      SplitWord(w[1..], rest, word + [w[0]]);
      assert word + [w[0]] + w[1..] == word + w;
    }
  }

  /** Splitting text written out by `Spaced` gives back the tokens. */
  lemma {:induction false} TokensOfSpaced(ts: seq<string>)
    requires forall i :: 0 <= i < |ts| ==> IsToken(ts[i])
    ensures Tokens(Spaced(ts)) == ts
  {
    if |ts| == 1 {
      SplitWord(ts[0], [], []);
      assert ts[0] + [] == ts[0] && [] + ts[0] == ts[0];
    } else if |ts| > 1 {
      var tail := Spaced(ts[1..]);
      var rest := " " + tail;
      assert Spaced(ts) == ts[0] + rest;
      SplitWord(ts[0], rest, []);
      assert [] + ts[0] == ts[0];
      assert rest[0] == ' ' && rest[1..] == tail;
      TokensOfSpaced(ts[1..]);
      assert [ts[0]] + ts[1..] == ts;
    }
  }

  // ------------------------------------------------------------ value lists

  /** `int(str(x), 16)` on a null, a list or an object: never a number. */
  const NotText: Error := InvalidLiteral("str() of a JSON null, list or object")

  /**
   * One item of a value: an integer is masked `& 0xFF`; anything else is put
   * through `str()` and `strip()` and read as hexadecimal, with or without
   * `0x` (both branches of the source call `int(s, 16)`), then masked.
   */
  function ItemByte(item: Json): Result<Byte>
  {
    match item
    case JInt(i) => Ok(i % 256)
    case JBool(b) => Ok(if b then 1 else 0)
    case JStr(s) =>
      var n :- PyNumbers.PyInt(PyNumbers.Strip(s), 16);
      Ok(n % 256)
    case _ => Err(NotText)
  }

  /** Tokens as the text items they are read as. */
  function TextItems(ts: seq<string>): (items: seq<Json>)
    ensures |items| == |ts| && forall i :: 0 <= i < |ts| ==> items[i] == JStr(ts[i])
  {
    seq(|ts|, i requires 0 <= i < |ts| => JStr(ts[i]))
  }

  /** The items `parse_value_to_bytes` reads: the tokens of a text, or the elements of a list. */
  function Parts(val: Json): Result<seq<Json>>
  {
    match val
    case JStr(s) => Ok(TextItems(Tokens(s)))
    case JArr(items) => Ok(items)
    case _ => Err(UnsupportedValue)
  }

  /** Each item's byte, or its error, in order. */
  function ItemResults(parts: seq<Json>): (rs: seq<Result<Byte>>)
    ensures |rs| == |parts|
  {
    if parts == [] then [] else ItemResults(parts[..|parts| - 1]) + [ItemByte(parts[|parts| - 1])]
  }

  /** Item `i`'s result is that item's conversion. */
  lemma {:induction false} ItemResultAt(parts: seq<Json>, i: nat)
    requires i < |parts|
    ensures ItemResults(parts)[i] == ItemByte(parts[i])
  {
    if i < |parts| - 1 {
      ItemResultAt(parts[..|parts| - 1], i);
    }
  }

  /** What the loop collects from the first `n` items' results: their bytes, or the first error it meets. */
  function BytesOf(rs: seq<Result<Byte>>, n: nat): Result<seq<Byte>>
    requires n <= |rs|
  {
    if n == 0 then Ok([])
    else
      var prev :- BytesOf(rs, n - 1);
      var b :- rs[n - 1];
      Ok(prev + [b])
  }

  /** `parse_value_to_bytes(val)` on a JSON value. */
  function ValueBytes(val: Json): Result<seq<Byte>>
  {
    var parts :- Parts(val);
    BytesOf(ItemResults(parts), |parts|)
  }

  /**
   * A value converts iff every item does; then it has one byte per item, the
   * item's masked value, and otherwise it fails with the first bad item's error.
   */
  lemma {:induction false} BytesOfMeaning(rs: seq<Result<Byte>>, n: nat)
    requires n <= |rs|
    ensures BytesOf(rs, n).Ok? <==> forall i :: 0 <= i < n ==> rs[i].Ok?
    ensures BytesOf(rs, n).Ok? ==>
      |BytesOf(rs, n).value| == n &&
      forall i :: 0 <= i < n ==> BytesOf(rs, n).value[i] == rs[i].value
  {
    if n > 0 {
      BytesOfMeaning(rs, n - 1);
    }
  }

  /** A failed conversion reports the error of the first item that fails. */
  lemma {:induction false} BytesOfFirstError(rs: seq<Result<Byte>>, n: nat)
    requires n <= |rs| && BytesOf(rs, n).Err?
    ensures exists i ::
      0 <= i < n && rs[i] == Err(BytesOf(rs, n).error) && forall j :: 0 <= j < i ==> rs[j].Ok?
  {
    if BytesOf(rs, n - 1).Err? {
      BytesOfFirstError(rs, n - 1);
      var i :| 0 <= i < n - 1 && rs[i] == Err(BytesOf(rs, n - 1).error) &&
        forall j :: 0 <= j < i ==> rs[j].Ok?;
      assert rs[i] == Err(BytesOf(rs, n).error);
    } else {
      BytesOfMeaning(rs, n - 1);
      assert rs[n - 1] == Err(BytesOf(rs, n).error);
    }
  }

  /** Once an item fails, converting any longer prefix fails the same way. */
  lemma {:induction false} BytesOfErr(rs: seq<Result<Byte>>, k: nat, m: nat)
    requires k <= m <= |rs| && BytesOf(rs, k).Err?
    ensures BytesOf(rs, m) == BytesOf(rs, k)
    decreases m - k
  {
    if k < m {
      BytesOfErr(rs, k, m - 1);
    }
  }

  /** One more item: its byte is appended, or its error is the outcome of the whole conversion. */
  lemma BytesOfStep(rs: seq<Result<Byte>>, i: nat, out: seq<Byte>)
    requires i < |rs| && BytesOf(rs, i) == Ok(out)
    ensures rs[i].Ok? ==> BytesOf(rs, i + 1) == Ok(out + [rs[i].value])
    ensures rs[i].Err? ==> BytesOf(rs, |rs|) == Err(rs[i].error)
  {
    if rs[i].Err? {
      BytesOfErr(rs, i + 1, |rs|);
    }
  }

  /** Items that each convert make up the bytes they stand for. */
  lemma {:induction false} BytesOfAll(rs: seq<Result<Byte>>, bs: seq<Byte>, n: nat)
    requires n <= |rs| == |bs|
    requires forall i :: 0 <= i < |rs| ==> rs[i] == Ok(bs[i])
    ensures BytesOf(rs, n) == Ok(bs[..n])
  {
    if n > 0 {
      BytesOfAll(rs, bs, n - 1);
      assert bs[..n - 1] + [bs[n - 1]] == bs[..n];
    }
  }

  /** A byte written as two lower-case hexadecimal digits. */
  function HexPair(b: Byte): string
  {
    [PyNumbers.DigitChar(b / 16), PyNumbers.DigitChar(b % 16)]
  }

  function HexPairs(bs: seq<Byte>): (ts: seq<string>)
    ensures |ts| == |bs| && forall i :: 0 <= i < |bs| ==> ts[i] == HexPair(bs[i])
  {
    seq(|bs|, i requires 0 <= i < |bs| => HexPair(bs[i]))
  }

  /** Bytes written out as a manifest value text: two hex digits each, one space apart. */
  function HexText(bs: seq<Byte>): string
  {
    Spaced(HexPairs(bs))
  }

  lemma DigitNotSeparator(d: nat)
    requires d < 16
    ensures !IsSeparator(PyNumbers.DigitChar(d)) && !PyNumbers.IsSpace(PyNumbers.DigitChar(d))
    ensures PyNumbers.DigitChar(d) != '-' && PyNumbers.DigitChar(d) != '+'
    ensures PyNumbers.DigitChar(d) != 'x' && PyNumbers.DigitChar(d) != 'X'
  {
  }

  lemma PairValue(t: string, hi: nat, lo: nat)
    requires hi < 16 && lo < 16 && t == [PyNumbers.DigitChar(hi), PyNumbers.DigitChar(lo)]
    ensures PyNumbers.AllDigits(t, 16) && PyNumbers.DigitsValue(t, 16) == hi * 16 + lo
  {
    var first := t[..1];
    assert first[..0] == [] && first == [t[0]];
    assert PyNumbers.DigitsValue(first, 16) == hi;
  }

  lemma HexPairReads(b: Byte)
    ensures IsToken(HexPair(b)) && ItemByte(JStr(HexPair(b))) == Ok(b)
  {
    var t := HexPair(b);
    DigitNotSeparator(b / 16);
    DigitNotSeparator(b % 16);
    PyNumbers.StripNoSpace(t);
    assert PyNumbers.Magnitude(PyNumbers.Unsigned(t), 16) == t;
    PairValue(t, b / 16, b % 16);
  }

  /** Every pair is a token. */
  lemma HexPairsRead(bs: seq<Byte>)
    ensures forall i :: 0 <= i < |bs| ==> IsToken(HexPairs(bs)[i])
  {
    forall i | 0 <= i < |bs|
      ensures IsToken(HexPairs(bs)[i])
    {
      HexPairReads(bs[i]);
    }
  }

  /** Each pair, read as a text item, gives back its byte. */
  lemma HexItemsRead(bs: seq<Byte>)
    ensures forall i :: 0 <= i < |bs| ==> ItemResults(TextItems(HexPairs(bs)))[i] == Ok(bs[i])
  {
    forall i | 0 <= i < |bs|
      ensures ItemResults(TextItems(HexPairs(bs)))[i] == Ok(bs[i])
    {
      HexPairReads(bs[i]);
      ItemResultAt(TextItems(HexPairs(bs)), i);
    }
  }

  /** The pairs of some bytes convert to those bytes. */
  lemma HexPairsBytes(bs: seq<Byte>)
    ensures BytesOf(ItemResults(TextItems(HexPairs(bs))), |bs|) == Ok(bs)
  {
    HexItemsRead(bs);
    ItemsBytes(TextItems(HexPairs(bs)), bs);
  }

  /** Items that each convert to their byte convert to those bytes together. */
  lemma ItemsBytes(parts: seq<Json>, bs: seq<Byte>)
    requires |parts| == |bs| && forall i :: 0 <= i < |bs| ==> ItemResults(parts)[i] == Ok(bs[i])
    ensures BytesOf(ItemResults(parts), |bs|) == Ok(bs)
  {
    BytesOfAll(ItemResults(parts), bs, |bs|);
    assert bs[..|bs|] == bs;
  }

  /** A value text of hex pairs converts back to the bytes it was written from. */
  lemma HexTextRoundTrip(bs: seq<Byte>)
    ensures ValueBytes(JStr(HexText(bs))) == Ok(bs)
  {
    HexTextTokens(bs);
    TextValueBytes(HexText(bs));
    HexPairsBytes(bs);
  }

  lemma HexTextTokens(bs: seq<Byte>)
    ensures Tokens(HexText(bs)) == HexPairs(bs)
  {
    HexPairsRead(bs);
    TokensOfSpaced(HexPairs(bs));
  }

  lemma TextValueBytes(text: string)
    ensures ValueBytes(JStr(text)) == BytesOf(ItemResults(TextItems(Tokens(text))), |Tokens(text)|)
  {
  }

  /** `parse_value_to_bytes`: the items of a text or a list, one byte appended per item. */
  method ParseValueToBytes(val: Json) returns (r: Result<seq<Byte>>)
    ensures r == ValueBytes(val)
  {
    var parts: seq<Json>;
    match val {
      case JStr(s) =>
        parts := TextItems(Tokens(s));
      case JArr(items) =>
        parts := items;
      case _ =>
        return Err(UnsupportedValue);
    }
    r := ConvertItems(parts);
  }

  /** The loop of `parse_value_to_bytes`. */
  method ConvertItems(parts: seq<Json>) returns (r: Result<seq<Byte>>)
    ensures r == BytesOf(ItemResults(parts), |parts|)
  {
    ghost var rs := ItemResults(parts);
    var out: seq<Byte> := [];
    for i := 0 to |parts|
      invariant BytesOf(rs, i) == Ok(out)
    {
      var b := ParseItem(parts[i]);
      ItemResultAt(parts, i);
      BytesOfStep(rs, i, out);
      if b.Err? {
        return Err(b.error);
      }
      out := out + [b.value];
    }
    return Ok(out);
  }

  /** The loop body of `parse_value_to_bytes`: one item to one byte. */
  method ParseItem(p: Json) returns (r: Result<Byte>)
    ensures r == ItemByte(p)
  {
    match p {
      case JInt(n) =>
        return Ok(n % 256);
      case JBool(t) =>
        return Ok(if t then 1 else 0);
      case JStr(s) =>
        var n := PyNumbers.PyInt(PyNumbers.Strip(s), 16);
        if n.Err? {
          return Err(n.error);
        }
        return Ok(n.value % 256);
      case _ =>
        return Err(NotText);
    }
  }

  // -------------------------------------------------------- language section

  /** Keys that agree once both are lower-cased. */
  predicate SameFolded(a: string, b: string)
  {
    PyNumbers.Lower(a) == PyNumbers.Lower(b)
  }

  /** The first of `keys` that matches `lang` case-insensitively. */
  function FirstFolded(keys: seq<string>, lang: string): Option<string>
  {
    if keys == [] then None
    else if SameFolded(keys[0], lang) then Some(keys[0])
    else FirstFolded(keys[1..], lang)
  }

  /**
   * `find_language_section`: the exact key first, then the value of the first
   * key (in `manifest.keys()` order) that matches case-insensitively.
   */
  function FindLanguageSection(manifest: Json, lang: string): Result<Json>
  {
    if !manifest.JObj? then Err(NotAnObject)
    else
      match Get(manifest.fields, lang)
      case Some(v) => Ok(v)
      case None =>
        match FirstFolded(Keys(manifest.fields), lang)
        case None => Err(MissingKey(lang))
        case Some(k) => Index(manifest.fields, k)
  }

  lemma {:induction false} FirstFoldedMeaning(keys: seq<string>, lang: string)
    ensures FirstFolded(keys, lang).Some? <==> exists k :: 0 <= k < |keys| && SameFolded(keys[k], lang)
    ensures FirstFolded(keys, lang).Some? ==>
      exists k :: 0 <= k < |keys| && SameFolded(keys[k], lang) && FirstFolded(keys, lang).value == keys[k] &&
        forall j :: 0 <= j < k ==> !SameFolded(keys[j], lang)
  {
    if keys != [] && !SameFolded(keys[0], lang) {
      var tail := keys[1..];
      FirstFoldedMeaning(tail, lang);
      if FirstFolded(keys, lang).Some? {
        var k :| 0 <= k < |tail| && SameFolded(tail[k], lang) && FirstFolded(tail, lang).value == tail[k] &&
          forall j :: 0 <= j < k ==> !SameFolded(tail[j], lang);
        assert keys[k + 1] == tail[k];
        forall j | 0 <= j < k + 1 ensures !SameFolded(keys[j], lang) {
          if j > 0 {
            assert keys[j] == tail[j - 1];
          }
        }
      }
      if exists k :: 0 <= k < |keys| && SameFolded(keys[k], lang) {
        var k :| 0 <= k < |keys| && SameFolded(keys[k], lang);
        assert tail[k - 1] == keys[k];
      }
    }
  }

  /**
   * A section is found iff the manifest is an object with a key equal to the
   * language up to case; an exact key wins, otherwise the first key (in key
   * order) equal up to case does, and a missing language is a KeyError.
   */
  lemma FindLanguageSectionMeaning(manifest: Json, lang: string)
    ensures FindLanguageSection(manifest, lang).Ok? <==>
      manifest.JObj? && exists k :: 0 <= k < |manifest.fields| && SameFolded(manifest.fields[k].0, lang)
    ensures manifest.JObj? && Get(manifest.fields, lang).Some? ==>
      FindLanguageSection(manifest, lang) == Ok(Get(manifest.fields, lang).value)
    ensures manifest.JObj? && Get(manifest.fields, lang).None? && FindLanguageSection(manifest, lang).Ok? ==>
      var keys := Keys(manifest.fields);
      exists k :: 0 <= k < |keys| && SameFolded(keys[k], lang) &&
        Get(manifest.fields, keys[k]) == Some(FindLanguageSection(manifest, lang).value) &&
        forall j :: 0 <= j < k ==> !SameFolded(keys[j], lang)
    ensures manifest.JObj? && FindLanguageSection(manifest, lang).Err? ==>
      FindLanguageSection(manifest, lang).error == MissingKey(lang)
  {
    if manifest.JObj? {
      var fields := manifest.fields;
      GetMeaning(fields, lang);
      if Get(fields, lang).Some? {
        var k :| 0 <= k < |fields| && fields[k] == (lang, Get(fields, lang).value);
        assert SameFolded(fields[k].0, lang);
      } else {
        var keys := Keys(fields);
        FoldedKeys(fields, lang);
        FirstFoldedMeaning(keys, lang);
        if FirstFolded(keys, lang).Some? {
          var key := FirstFolded(keys, lang).value;
          assert key in keys;
          KeysMeaning(fields);
          GetMeaning(fields, key);
          assert Get(fields, key).Some?;
        }
      }
    }
  }

  /** Some key matches up to case iff some field's key does. */
  lemma FoldedKeys(fields: seq<(string, Json)>, lang: string)
    ensures (exists k :: 0 <= k < |Keys(fields)| && SameFolded(Keys(fields)[k], lang)) <==>
      exists k :: 0 <= k < |fields| && SameFolded(fields[k].0, lang)
  {
    KeysMeaning(fields);
    if exists k :: 0 <= k < |fields| && SameFolded(fields[k].0, lang) {
      var k :| 0 <= k < |fields| && SameFolded(fields[k].0, lang);
      assert fields[k].0 in Keys(fields);
    }
  }

  // --------------------------------------------------------------- patching

  /** The keyword arguments of `apply_patches`; an empty `onlyName` is Python's falsy `only_name`. */
  datatype Options = Options(includeInactive: bool, onlyName: string, dryRun: bool)

  /** The keys of a manifest entry, and the name an entry without one is given. */
  const NameKey := "name"
  const ActiveKey := "active"
  const AddrKey := "addr"
  const ValueKey := "value"
  const Unnamed := "(unnamed)"

  /** What one manifest entry asks for: nothing, or `data` at file position `start`. */
  datatype Step = Skip | Write(start: int, data: seq<Byte>)

  /**
   * One entry as `apply_patches` reads it: a non-object, an entry named
   * otherwise than `onlyName`, and an inactive entry (unless inactive ones are
   * included) are skipped; otherwise `addr` and `value` are parsed.
   */
  function EntryStep(base: int, entry: Json, includeInactive: bool, onlyName: string): Result<Step>
  {
    if !entry.JObj? then Ok(Skip)
    else
      var name := GetOr(entry.fields, NameKey, JStr(Unnamed));
      var active := GetOr(entry.fields, ActiveKey, JBool(true));
      if onlyName != "" && name != JStr(onlyName) then Ok(Skip)
      else if !Truthy(active) && !includeInactive then Ok(Skip)
      else
        var addrValue :- Index(entry.fields, AddrKey);
        var addr :- ParseHexOrIntValue(addrValue);
        var value :- Index(entry.fields, ValueKey);
        var data :- ValueBytes(value);
        Ok(Write(base + addr, data))
  }

  /** The head of the loop body: the filters, then the address and the data of one entry. */
  method ReadEntry(base: int, entry: Json, includeInactive: bool, onlyName: string) returns (r: Result<Step>)
    ensures r == EntryStep(base, entry, includeInactive, onlyName)
  {
    if !entry.JObj? {
      return Ok(Skip);
    }
    var name := GetOr(entry.fields, NameKey, JStr(Unnamed));
    var active := GetOr(entry.fields, ActiveKey, JBool(true));
    if onlyName != "" && name != JStr(onlyName) {
      return Ok(Skip);
    }
    if !Truthy(active) && !includeInactive {
      return Ok(Skip);
    }
    var addrValue := Index(entry.fields, AddrKey);
    if addrValue.Err? {
      return Err(addrValue.error);
    }
    var addr := ParseHexOrIntValue(addrValue.value);
    if addr.Err? {
      return Err(addr.error);
    }
    var value := Index(entry.fields, ValueKey);
    if value.Err? {
      return Err(value.error);
    }
    var data := ParseValueToBytes(value.value);
    if data.Err? {
      return Err(data.error);
    }
    return Ok(Write(base + addr.value, data.value));
  }

  /** `for entry in patches`: a list's elements, an object's keys, a text's characters; nothing else is iterable. */
  function EntriesOf(section: Json): Result<seq<Json>>
  {
    match section
    case JArr(items) => Ok(items)
    case JObj(fields) => Ok(KeyTexts(fields))
    case JStr(s) => Ok(seq(|s|, i requires 0 <= i < |s| => JStr([s[i]])))
    case _ => Err(NotAnObject)
  }

  /** Every entry's request. */
  function Steps(base: int, entries: seq<Json>, includeInactive: bool, onlyName: string): (steps: seq<Result<Step>>)
    ensures |steps| == |entries|
  {
    seq(|entries|, i requires 0 <= i < |entries| => EntryStep(base, entries[i], includeInactive, onlyName))
  }

  /** The image and the running byte total, or the exception that ended the loop. */
  datatype Run = Run(image: seq<Byte>, total: Result<nat>)

  /**
   * One step of the loop: the bounds check against the current length, then
   * `rom_bytes[start:end] = data` unless it is a dry run. A negative start is
   * refused too (see README, Findings).
   */
  function Applying(prev: Run, step: Result<Step>, dryRun: bool): Run
    requires prev.total.Ok?
  {
    match step
    case Err(e) => Run(prev.image, Err(e))
    case Ok(Skip) => prev
    case Ok(Write(start, data)) =>
      var end := start + |data|;
      if end > |prev.image| then Run(prev.image, Err(PatchOutOfRange(start, |data|, |prev.image|)))
      else if start < 0 then Run(prev.image, Err(NegativeOffset))
      else Run(if dryRun then prev.image else SliceAssign(prev.image, start, end, data), Ok(prev.total.value + |data|))
  }

  /** The state after the first `n` requests; after an exception nothing more happens. */
  function Applied(image: seq<Byte>, steps: seq<Result<Step>>, n: nat, dryRun: bool): Run
    requires n <= |steps|
  {
    if n == 0 then Run(image, Ok(0))
    else
      var prev := Applied(image, steps, n - 1, dryRun);
      if prev.total.Err? then prev else Applying(prev, steps[n - 1], dryRun)
  }

  /** `apply_patches(rom_bytes, base_offset, patches, ...)`: the final image and the total or the exception. */
  function PatchRun(image: seq<Byte>, base: int, section: Json, opts: Options): Run
  {
    match EntriesOf(section)
    case Err(e) => Run(image, Err(e))
    case Ok(entries) =>
      var steps := Steps(base, entries, opts.includeInactive, opts.onlyName);
      Applied(image, steps, |steps|, opts.dryRun)
  }

  lemma {:induction false} AppliedErr(image: seq<Byte>, steps: seq<Result<Step>>, k: nat, m: nat, dryRun: bool)
    requires k <= m <= |steps| && Applied(image, steps, k, dryRun).total.Err?
    ensures Applied(image, steps, m, dryRun) == Applied(image, steps, k, dryRun)
    decreases m - k
  {
    if k < m {
      AppliedErr(image, steps, k, m - 1, dryRun);
    }
  }

  /** The tail of the loop body: the bounds checks, then the write unless it is a dry run, then the running total. */
  method PatchStep(rom: RomBuffer, step: Result<Step>, total: nat, dryRun: bool) returns (r: Result<nat>)
    modifies rom
    ensures Run(rom.bytes, r) == Applying(Run(old(rom.bytes), Ok(total)), step, dryRun)
  {
    if step.Err? {
      return Err(step.error);
    }
    if step.value.Skip? {
      return Ok(total);
    }
    var start, data := step.value.start, step.value.data;
    var end := start + |data|;
    if end > |rom.bytes| {
      return Err(PatchOutOfRange(start, |data|, |rom.bytes|));
    }
    if start < 0 {
      return Err(NegativeOffset);
    }
    if !dryRun {
      rom.bytes := SliceAssign(rom.bytes, start, end, data);
    }
    return Ok(total + |data|);
  }

  /** `apply_patches`: the entries in order, each checked and then written in place, with the total of bytes written. */
  method ApplyPatches(rom: RomBuffer, base: int, section: Json, opts: Options) returns (r: Result<nat>)
    modifies rom
    ensures Run(rom.bytes, r) == PatchRun(old(rom.bytes), base, section, opts)
  {
    var entriesR := EntriesOf(section);
    if entriesR.Err? {
      return Err(entriesR.error);
    }
    var entries := entriesR.value;
    ghost var image := rom.bytes;
    ghost var steps := Steps(base, entries, opts.includeInactive, opts.onlyName);
    var total: nat := 0;
    for i := 0 to |entries|
      invariant Applied(image, steps, i, opts.dryRun) == Run(rom.bytes, Ok(total))
    {
      var step := ReadEntry(base, entries[i], opts.includeInactive, opts.onlyName);
      assert step == steps[i];
      var next := PatchStep(rom, step, total, opts.dryRun);
      if next.Err? {
        AppliedErr(image, steps, i + 1, |steps|, opts.dryRun);
        return next;
      }
      total := next.value;
    }
    return Ok(total);
  }

  // ------------------------------------------------------ what patching does

  /** Patching never changes the image's length, whatever happens. */
  lemma {:induction false} AppliedKeepsLength(image: seq<Byte>, steps: seq<Result<Step>>, n: nat, dryRun: bool)
    requires n <= |steps|
    ensures |Applied(image, steps, n, dryRun).image| == |image|
  {
    if n > 0 {
      AppliedKeepsLength(image, steps, n - 1, dryRun);
      var prev := Applied(image, steps, n - 1, dryRun);
      var step := steps[n - 1];
      if prev.total.Ok? && step.Ok? && step.value.Write? {
        var start, data := step.value.start, step.value.data;
        if 0 <= start && start + |data| <= |prev.image| {
          SliceAssignInPlace(prev.image, start, data);
        }
      }
    }
  }

  /** A dry run leaves the image as it was. */
  lemma {:induction false} DryRunKeepsImage(image: seq<Byte>, steps: seq<Result<Step>>, n: nat)
    requires n <= |steps|
    ensures Applied(image, steps, n, true).image == image
  {
    if n > 0 {
      DryRunKeepsImage(image, steps, n - 1);
    }
  }

  /** A dry run reports the same total, and fails with the same exception, as a real run. */
  lemma {:induction false} DryRunSameTotal(image: seq<Byte>, steps: seq<Result<Step>>, n: nat)
    requires n <= |steps|
    ensures Applied(image, steps, n, true).total == Applied(image, steps, n, false).total
  {
    if n > 0 {
      DryRunSameTotal(image, steps, n - 1);
      AppliedKeepsLength(image, steps, n - 1, true);
      AppliedKeepsLength(image, steps, n - 1, false);
      var dry, wet := Applied(image, steps, n - 1, true), Applied(image, steps, n - 1, false);
      if dry.total.Ok? {
        ApplyingSameTotal(dry, wet, steps[n - 1]);
      }
    }
  }

  lemma ApplyingSameTotal(dry: Run, wet: Run, step: Result<Step>)
    requires dry.total.Ok? && dry.total == wet.total && |dry.image| == |wet.image|
    ensures Applying(dry, step, true).total == Applying(wet, step, false).total
  {
  }

  predicate Covers(step: Result<Step>, k: int)
  {
    step.Ok? && step.value.Write? && step.value.start <= k < step.value.start + |step.value.data|
  }

  /** The last of the first `n` requests whose write covers position `k`. */
  function LastCover(steps: seq<Result<Step>>, n: nat, k: int): (r: Option<nat>)
    requires n <= |steps|
    ensures r.Some? ==> r.value < n && Covers(steps[r.value], k)
  {
    if n == 0 then None
    else if Covers(steps[n - 1], k) then Some(n - 1)
    else LastCover(steps, n - 1, k)
  }

  lemma {:induction false} LastCoverIsLast(steps: seq<Result<Step>>, n: nat, k: int)
    requires n <= |steps|
    ensures var c := LastCover(steps, n, k);
      forall j :: (if c.None? then 0 else c.value + 1) <= j < n ==> !Covers(steps[j], k)
  {
    if n > 0 && !Covers(steps[n - 1], k) {
      LastCoverIsLast(steps, n - 1, k);
    }
  }

  /**
   * Entries apply in list order, so later ones win: after a successful real
   * run every byte holds the data of the last write that covers it, or its
   * old value when none does.
   */
  lemma {:induction false} AppliedByte(image: seq<Byte>, steps: seq<Result<Step>>, n: nat, k: nat)
    requires n <= |steps| && k < |image|
    requires Applied(image, steps, n, false).total.Ok?
    ensures var c := LastCover(steps, n, k);
      var after := Applied(image, steps, n, false).image;
      k < |after| &&
      after[k] == if c.None? then image[k] else steps[c.value].value.data[k - steps[c.value].value.start]
  {
    AppliedKeepsLength(image, steps, n, false);
    if n > 0 {
      var prev := Applied(image, steps, n - 1, false);
      AppliedByte(image, steps, n - 1, k);
      AppliedKeepsLength(image, steps, n - 1, false);
      var step := steps[n - 1];
      if step.value.Write? {
        SliceAssignInPlace(prev.image, step.value.start, step.value.data);
      }
    }
  }

  /** The bytes the requests carry, skipped entries counting nothing. */
  function WrittenCount(steps: seq<Result<Step>>, n: nat): nat
    requires n <= |steps|
  {
    if n == 0 then 0
    else WrittenCount(steps, n - 1) + (if steps[n - 1].Ok? && steps[n - 1].value.Write? then |steps[n - 1].value.data| else 0)
  }

  /**
   * A successful run returns the total length of the entries' data, and every
   * entry parsed without error and wrote inside the image.
   */
  lemma {:induction false} AppliedTotal(image: seq<Byte>, steps: seq<Result<Step>>, n: nat, dryRun: bool)
    requires n <= |steps|
    requires Applied(image, steps, n, dryRun).total.Ok?
    ensures Applied(image, steps, n, dryRun).total.value == WrittenCount(steps, n)
    ensures forall i :: 0 <= i < n ==> steps[i].Ok?
    ensures forall i :: 0 <= i < n && steps[i].value.Write? ==>
      0 <= steps[i].value.start && steps[i].value.start + |steps[i].value.data| <= |image|
  {
    if n > 0 {
      AppliedTotal(image, steps, n - 1, dryRun);
      AppliedKeepsLength(image, steps, n - 1, dryRun);
    }
  }

  lemma {:induction false} SkippedPrefix(image: seq<Byte>, steps: seq<Result<Step>>, n: nat, dryRun: bool)
    requires n <= |steps| && forall i :: 0 <= i < |steps| ==> steps[i] == Ok(Skip)
    ensures Applied(image, steps, n, dryRun) == Run(image, Ok(0))
  {
    if n > 0 {
      SkippedPrefix(image, steps, n - 1, dryRun);
    }
  }

  /** A section that is an object or a text yields only keys or characters, which are all skipped. */
  lemma SkippedSectionWritesNothing(image: seq<Byte>, base: int, section: Json, opts: Options)
    requires section.JObj? || section.JStr?
    ensures PatchRun(image, base, section, opts) == Run(image, Ok(0))
  {
    var entries := EntriesOf(section).value;
    var steps := Steps(base, entries, opts.includeInactive, opts.onlyName);
    forall i | 0 <= i < |steps| ensures steps[i] == Ok(Skip) {
      assert entries[i].JStr?;
    }
    SkippedPrefix(image, steps, |steps|, opts.dryRun);
  }

  // ---------------------------------------------------------------- findings

  /** `s[lo:hi] = d` in Python, negative bounds counting from the end. */
  function PySliceAssign(s: seq<Byte>, lo: int, hi: int, d: seq<Byte>): seq<Byte>
  {
    var a := PyBound(lo, |s|);
    var b := PyBound(hi, |s|);
    SliceAssign(s, a, Max(a, b), d)
  }

  /** One step of the loop exactly as written: only the end is checked before the slice assignment. */
  function ApplyingAsWritten(prev: Run, step: Result<Step>, dryRun: bool): Run
    requires prev.total.Ok?
  {
    match step
    case Err(e) => Run(prev.image, Err(e))
    case Ok(Skip) => prev
    case Ok(Write(start, data)) =>
      var end := start + |data|;
      if end > |prev.image| then Run(prev.image, Err(PatchOutOfRange(start, |data|, |prev.image|)))
      else Run(if dryRun then prev.image else PySliceAssign(prev.image, start, end, data), Ok(prev.total.value + |data|))
  }

  function AppliedAsWritten(image: seq<Byte>, steps: seq<Result<Step>>, n: nat, dryRun: bool): Run
    requires n <= |steps|
  {
    if n == 0 then Run(image, Ok(0))
    else
      var prev := AppliedAsWritten(image, steps, n - 1, dryRun);
      if prev.total.Err? then prev else ApplyingAsWritten(prev, steps[n - 1], dryRun)
  }

  /**
   * As written, an address that puts the start before the file passes the
   * bounds check: address -1 with two bytes into a 16-byte image inserts the
   * bytes before the last one and the image grows to 18 bytes.
   */
  lemma NegativeAddressResizes()
    ensures var entry := JObj([(AddrKey, JInt(-1)), (ValueKey, JArr([JInt(0xAA), JInt(0xBB)]))]);
      var steps := Steps(0, [entry], false, "");
      var asWritten := AppliedAsWritten(Fill(0, 16), steps, 1, false);
      asWritten.total == Ok(2) && |asWritten.image| == 18 &&
      Applied(Fill(0, 16), steps, 1, false) == Run(Fill(0, 16), Err(NegativeOffset))
  {
    var value := JArr([JInt(0xAA), JInt(0xBB)]);
    var entry := JObj([(AddrKey, JInt(-1)), (ValueKey, value)]);
    var rs := ItemResults([JInt(0xAA), JInt(0xBB)]);
    var bs: seq<Byte> := [0xAA, 0xBB];
    ItemResultAt([JInt(0xAA), JInt(0xBB)], 0);
    ItemResultAt([JInt(0xAA), JInt(0xBB)], 1);
    BytesOfAll(rs, bs, 2);
    assert bs[..2] == bs;
    assert ValueBytes(value) == Ok([0xAA, 0xBB]);
    var fields := entry.fields;
    assert fields[0].0 != NameKey && fields[1].0 != NameKey && fields[0].0 != ActiveKey && fields[1].0 != ActiveKey;
    var first := fields[..1];
    assert fields[..1][..0] == [];
    assert Get(first, NameKey) == None && Get(first, ActiveKey) == None;
    assert Get(fields, NameKey) == None && Get(fields, ActiveKey) == None;
    assert fields[1].0 == ValueKey && fields[1].0 != AddrKey;
    assert Get(first, AddrKey) == Some(JInt(-1));
    assert Index(fields, AddrKey) == Ok(JInt(-1));
    assert Index(fields, ValueKey) == Ok(value);
    assert EntryStep(0, entry, false, "") == Ok(Write(-1, [0xAA, 0xBB]));
  }

  /** Where no write starts before the file, the corrected loop and the loop as written agree. */
  lemma {:induction false} AsWrittenAgrees(image: seq<Byte>, steps: seq<Result<Step>>, n: nat, dryRun: bool)
    requires n <= |steps|
    requires forall i :: 0 <= i < n && steps[i].Ok? && steps[i].value.Write? ==> steps[i].value.start >= 0
    ensures AppliedAsWritten(image, steps, n, dryRun) == Applied(image, steps, n, dryRun)
  {
    if n > 0 {
      AsWrittenAgrees(image, steps, n - 1, dryRun);
    }
  }

  // -------------------------------------------------------------- main flow

  /**
   * What `main` leaves behind: the byte count it reports and the file's new
   * contents. It never passes its dry-run flag on, so the patches are applied
   * in memory either way and the flag only decides whether the file is written.
   */
  function PatchTool(file: seq<Byte>, choice: BaseChoice, manifest: Json, language: string,
                     only: string, includeInactive: bool, dryRun: bool): Result<(nat, seq<Byte>)>
  {
    var base :- RomNames.BaseOffset(choice);
    var section :- FindLanguageSection(manifest, language);
    var run := PatchRun(file, base, section, Options(includeInactive, only, false));
    var written :- run.total;
    Ok((written, if dryRun then file else run.image))
  }

  /**
   * Not forwarding the flag is harmless: with `--dry-run` the file is left as
   * it was and the reported count is what `apply_patches` reports in dry-run
   * mode; without it the file keeps its length.
   */
  lemma PatchToolDryRun(file: seq<Byte>, choice: BaseChoice, manifest: Json, language: string,
                        only: string, includeInactive: bool)
    ensures var r := PatchTool(file, choice, manifest, language, only, includeInactive, true);
      r.Ok? ==> r.value.1 == file
    ensures var r := PatchTool(file, choice, manifest, language, only, includeInactive, true);
      RomNames.BaseOffset(choice).Ok? && FindLanguageSection(manifest, language).Ok? ==>
        var run := PatchRun(file, RomNames.BaseOffset(choice).value, FindLanguageSection(manifest, language).value,
                            Options(includeInactive, only, true));
        run.image == file && (r.Ok? <==> run.total.Ok?) && (r.Ok? ==> r.value.0 == run.total.value)
    ensures var r := PatchTool(file, choice, manifest, language, only, includeInactive, false);
      r.Ok? ==> |r.value.1| == |file|
  {
    if RomNames.BaseOffset(choice).Ok? && FindLanguageSection(manifest, language).Ok? {
      var section := FindLanguageSection(manifest, language).value;
      if EntriesOf(section).Ok? {
        var entries := EntriesOf(section).value;
        var steps := Steps(RomNames.BaseOffset(choice).value, entries, includeInactive, only);
        DryRunSameTotal(file, steps, |steps|);
        DryRunKeepsImage(file, steps, |steps|);
        AppliedKeepsLength(file, steps, |steps|, false);
      }
    }
  }
}
