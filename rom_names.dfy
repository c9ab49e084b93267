/**
 * The card-name relocation engine (`tools/rom_names.py`): builds the name
 * table from a language list encoded through the manifest's character remap,
 * injects it into the image, rewrites every card record's name offset and the
 * lookup pointer, and recomputes the block-count header.
 */
module RomNames {
  import opened Common
  import opened Json
  import PyNumbers
  import NameTable

  const MemBase: int := 0x0200_0000
  const TitleBlockCountOffset: nat := 0x03
  const ExpectedCardCount: nat := 722
  const CardEntrySize: nat := 6
  const CardIndexHeaderSize: nat := 4

  // ------------------------------------------------------------ JSON lists

  /** What `for item in items` walks over: a list's elements; an empty object or string yields nothing. */
  function ItemsOf(j: Json): Result<seq<Json>>
  {
    match j
    case JArr(items) => Ok(items)
    case JObj(f) => if f == [] then Ok([]) else Err(NotAnObject)
    case JStr(t) => if t == [] then Ok([]) else Err(NotAnObject)
    case _ => Err(NotAnObject)
  }

  // ------------------------------------------------------------ remap table

  /** Character (as a one-character string) to device code. */
  type RemapTable = map<string, int>

  /** The `unicode` key of a remap entry (`''` when absent). */
  function EntryKey(fields: seq<(string, Json)>): Json
  {
    GetOr(fields, "unicode", JStr(""))
  }

  /** The `hex` value of a remap entry (null when absent). */
  function EntryHex(fields: seq<(string, Json)>): Json
  {
    GetOr(fields, "hex", JNull)
  }

  /** The code of an entry with `hex` text: `int(hx, 16)`. */
  function EntryCode(entry: Json): Result<int>
    requires entry.JObj? && EntryHex(entry.fields).JStr?
  {
    PyNumbers.PyInt(EntryHex(entry.fields).s, 16)
  }

  /**
   * One iteration of `buildRemapTable`: an entry without `hex` is skipped, the
   * `hex` text is read with `int(hx, 16)`, and the code is stored under the
   * entry's `unicode` value. A list or an object cannot be a dict key (a
   * `TypeError`, raised after `int()`); a number, a boolean or null can, but
   * such a key never equals a character, so the table of text keys is kept.
   */
  function RemapStep(table: RemapTable, entry: Json): Result<RemapTable>
  {
    if !entry.JObj? then Err(NotAnObject)
    else
      var hx := EntryHex(entry.fields);
      if hx.JNull? then Ok(table)
      else if !hx.JStr? then Err(NotANumber)
      else match EntryCode(entry)
        case Err(e) => Err(e)
        case Ok(v) =>
          var uni := EntryKey(entry.fields);
          if uni.JArr? || uni.JObj? then Err(Unhashable)
          else Ok(if uni.JStr? then table[uni.s := v] else table)
  }

  /** The table after all of `entries`, or the first entry's error. */
  function RemapOf(entries: seq<Json>): Result<RemapTable>
  {
    if entries == [] then Ok(map[])
    else match RemapOf(entries[..|entries| - 1])
      case Err(e) => Err(e)
      case Ok(t) => RemapStep(t, entries[|entries| - 1])
  }

  /** Entry `e` maps the character text `k` to a code. */
  predicate Defines(e: Json, k: string)
  {
    e.JObj? && EntryKey(e.fields) == JStr(k) && EntryHex(e.fields).JStr?
  }

  /**
   * When one step fails: the entry is not an object, or it has a `hex` value
   * that is not text or not a hexadecimal number, or its number is read but
   * its `unicode` value is a list or an object.
   */
  lemma RemapStepErr(t: RemapTable, e: Json)
    ensures RemapStep(t, e).Err? <==>
      !e.JObj? ||
      (!EntryHex(e.fields).JNull? &&
       (!EntryHex(e.fields).JStr? || EntryCode(e).Err? || EntryKey(e.fields).JArr? || EntryKey(e.fields).JObj?))
    ensures RemapStep(t, e).Err? && e.JObj? && EntryHex(e.fields).JStr? && EntryCode(e).Ok? ==>
      RemapStep(t, e).error == Unhashable
  {
  }

  /** What one successful step does to key `k`: adds it with the entry's code when the entry defines it, else keeps it. */
  lemma RemapStepKey(t: RemapTable, e: Json, k: string)
    requires RemapStep(t, e).Ok?
    ensures k in RemapStep(t, e).value <==> k in t || Defines(e, k)
    ensures Defines(e, k) ==> EntryCode(e) == Ok(RemapStep(t, e).value[k])
    ensures k in t && !Defines(e, k) ==> RemapStep(t, e).value[k] == t[k]
  {
    var hx := EntryHex(e.fields);
    var uni := EntryKey(e.fields);
    if hx.JNull? {
      assert RemapStep(t, e) == Ok(t);
    } else {
      var v := EntryCode(e).value;
      assert RemapStep(t, e) == Ok(if uni.JStr? then t[uni.s := v] else t);
    }
  }

  /** Key `k` is in the table after the first `n` entries iff one of them defines it. */
  lemma {:induction false} RemapHasUpTo(entries: seq<Json>, k: string, n: nat)
    requires n <= |entries| && RemapOf(entries[..n]).Ok?
    ensures k in RemapOf(entries[..n]).value <==> exists i :: 0 <= i < n && Defines(entries[i], k)
  {
    if n > 0 {
      RemapOfPrefix(entries, n);
      RemapHasUpTo(entries, k, n - 1);
      var t := RemapOf(entries[..n - 1]).value;
      RemapStepKey(t, entries[n - 1], k);
      if k in t {
        var i :| 0 <= i < n - 1 && Defines(entries[i], k);
        assert 0 <= i < n && Defines(entries[i], k);
      } else if exists i :: 0 <= i < n && Defines(entries[i], k) {
        var i :| 0 <= i < n && Defines(entries[i], k);
        assert i == n - 1;
      }
    }
  }

  /** Key `k` is in the table after all of `entries` iff some entry defines it. */
  lemma RemapHas(entries: seq<Json>, k: string)
    requires RemapOf(entries).Ok?
    ensures k in RemapOf(entries).value <==> exists i :: 0 <= i < |entries| && Defines(entries[i], k)
  {
    assert entries[..|entries|] == entries;
    RemapHasUpTo(entries, k, |entries|);
  }

  /** A table built from `n` entries is the step of the last one on the table of the first `n - 1`. */
  lemma RemapOfPrefix(entries: seq<Json>, n: nat)
    requires 0 < n <= |entries| && RemapOf(entries[..n]).Ok?
    ensures RemapOf(entries[..n - 1]).Ok?
    ensures RemapOf(entries[..n]) == RemapStep(RemapOf(entries[..n - 1]).value, entries[n - 1])
  {
    assert entries[..n][..n - 1] == entries[..n - 1];
  }

  /** After the first `n` entries, the code under `k` is the one the last of them defining `k` gives. */
  lemma {:induction false} RemapLastUpTo(entries: seq<Json>, k: string, i: nat, n: nat)
    requires i < n <= |entries| && RemapOf(entries[..n]).Ok? && Defines(entries[i], k)
    requires forall j | i < j < n :: !Defines(entries[j], k)
    ensures k in RemapOf(entries[..n]).value
    ensures EntryCode(entries[i]) == Ok(RemapOf(entries[..n]).value[k])
  {
    RemapOfPrefix(entries, n);
    var t := RemapOf(entries[..n - 1]).value;
    if i < n - 1 {
      RemapLastUpTo(entries, k, i, n - 1);
      RemapStepKey(t, entries[n - 1], k);
    } else {
      RemapStepKey(t, entries[i], k);
    }
  }

  /** The code under `k` is the one the last entry defining `k` gives. */
  lemma RemapLast(entries: seq<Json>, k: string, i: nat)
    requires RemapOf(entries).Ok? && i < |entries| && Defines(entries[i], k)
    requires forall j | i < j < |entries| :: !Defines(entries[j], k)
    ensures k in RemapOf(entries).value
    ensures PyNumbers.PyInt(EntryHex(entries[i].fields).s, 16) == Ok(RemapOf(entries).value[k])
  {
    assert entries[..|entries|] == entries;
    RemapLastUpTo(entries, k, i, |entries|);
  }

  /**
   * The built table holds exactly the keys some entry defines, each mapped to
   * the code of the LAST entry defining it (later entries overwrite earlier).
   */
  lemma RemapOfLastWins(entries: seq<Json>)
    requires RemapOf(entries).Ok?
    ensures forall k :: k in RemapOf(entries).value <==> exists i :: 0 <= i < |entries| && Defines(entries[i], k)
    ensures forall i, k | 0 <= i < |entries| && Defines(entries[i], k) ::
      (forall j | i < j < |entries| :: !Defines(entries[j], k)) ==>
        PyNumbers.PyInt(EntryHex(entries[i].fields).s, 16) == Ok(RemapOf(entries).value[k])
  {
    forall k {
      RemapHas(entries, k);
    }
    forall i, k | 0 <= i < |entries| && Defines(entries[i], k) && (forall j | i < j < |entries| :: !Defines(entries[j], k))
      ensures PyNumbers.PyInt(EntryHex(entries[i].fields).s, 16) == Ok(RemapOf(entries).value[k])
    {
      RemapLast(entries, k, i);
    }
  }

  /** `buildRemapTable` on the manifest: the `remap` list (empty when absent) walked entry by entry. */
  function RemapFor(cardsJson: seq<(string, Json)>): Result<RemapTable>
  {
    var entries :- ItemsOf(GetOr(cardsJson, "remap", JArr([])));
    RemapOf(entries)
  }

  /** `buildRemapTable`: every `{unicode, hex}` entry of the manifest's `remap` list, in order. */
  method BuildRemapTable(cardsJson: seq<(string, Json)>) returns (r: Result<RemapTable>)
    ensures r == RemapFor(cardsJson)
  {
    var remapList := ItemsOf(GetOr(cardsJson, "remap", JArr([])));
    if remapList.Err? {
      return Err(remapList.error);
    }
    var items := remapList.value;
    var table: RemapTable := map[];
    for i := 0 to |items|
      invariant RemapOf(items[..i]) == Ok(table)
    {
      RemapOfExtend(items, i, table);
      var step := RemapStep(table, items[i]);
      if step.Err? {
        RemapPrefixErr(items, i + 1);
        return step;
      }
      table := step.value;
    }
    assert items[..|items|] == items;
    r := Ok(table);
  }

  /** One more entry is one more step on the table so far. */
  lemma RemapOfExtend(entries: seq<Json>, i: nat, t: RemapTable)
    requires i < |entries| && RemapOf(entries[..i]) == Ok(t)
    ensures RemapOf(entries[..i + 1]) == RemapStep(t, entries[i])
  {
    assert entries[..i + 1][..i] == entries[..i];
  }

  /** Once a prefix of the entries fails, the whole list fails with the same error. */
  lemma {:induction false} RemapPrefixErr(entries: seq<Json>, n: nat)
    requires n <= |entries| && RemapOf(entries[..n]).Err?
    ensures RemapOf(entries) == RemapOf(entries[..n])
    decreases |entries| - n
  {
    if n < |entries| {
      assert entries[..n + 1][..n] == entries[..n];
      RemapPrefixErr(entries, n + 1);
    } else {
      assert entries[..n] == entries;
    }
  }

  // ---------------------------------------------------------- normalisation

  /** The punctuation `normalizeName` replaces by its ASCII form; every other character is kept. */
  function NormalizeChar(c: char): char
  {
    if c == '\U{2019}' || c == '\U{2018}' then '\''
    else if c == '\U{201C}' || c == '\U{201D}' then '"'
    else if c == '\U{2013}' || c == '\U{2014}' then '-'
    else if c == '\U{FF03}' || c == '\U{2116}' then '#'
    else if c == '\U{3000}' then ' '
    else c
  }

  function Normalized(s: string): string
  {
    seq(|s|, k requires 0 <= k < |s| => NormalizeChar(s[k]))
  }

  /** `normalizeName`: the name character by character, curly quotes, dashes, number signs and the ideographic space made ASCII. */
  method NormalizeName(name: string) returns (r: string)
    ensures |r| == |name|
    ensures forall k | 0 <= k < |name| :: r[k] == NormalizeChar(name[k])
  {
    var out: seq<char> := [];
    for i := 0 to |name|
      invariant |out| == i
      invariant forall k | 0 <= k < i :: out[k] == NormalizeChar(name[k])
    {
      out := out + [NormalizeChar(name[i])];
    }
    r := out;
  }

  /** Normalising is idempotent: the replacements are themselves never replaced. */
  lemma {:induction false} NormalizeIdempotent(s: string)
    ensures Normalized(Normalized(s)) == Normalized(s)
  {
    forall k | 0 <= k < |s| ensures Normalized(Normalized(s))[k] == Normalized(s)[k] {
      var c := s[k];
      assert Normalized(s)[k] == NormalizeChar(c);
    }
  }

  /**
   * One element of a name given as a list (or one key of a name given as an
   * object), through `replacements.get(ch, ch)`: a one-character text is
   * normalised and longer or empty text is kept. Anything else is a
   * `TypeError`: a list or an object is no dict key, and `''.join` takes
   * only text.
   */
  function NormalizedPiece(piece: Json): Result<string>
  {
    match piece
    case JStr(t) => Ok(if |t| == 1 then [NormalizeChar(t[0])] else t)
    case _ => Err(NotText)
  }

  /** The pieces through `replacements.get`, joined in order, or `NotText` when one is not text. */
  function JoinedPieces(pieces: seq<Json>): (r: Result<string>)
    ensures r.Err? ==> r.error == NotText
  {
    if pieces == [] then Ok([])
    else
      var prev :- JoinedPieces(pieces[..|pieces| - 1]);
      var last :- NormalizedPiece(pieces[|pieces| - 1]);
      Ok(prev + last)
  }

  /**
   * `normalizeName` on the value a card's `name` holds, which `loadLanguageNames`
   * passes on unchecked: text character by character, a list element by
   * element and an object key by key, joined; any other value cannot be
   * iterated.
   */
  function NormalizedValue(name: Json): (r: Result<string>)
    ensures r.Err? ==> r.error == NotText
  {
    match name
    case JStr(s) => Ok(Normalized(s))
    case JArr(items) => JoinedPieces(items)
    case JObj(fields) => JoinedPieces(KeyTexts(fields))
    case _ => Err(NotText)
  }

  /** Joining succeeds iff every piece is text. */
  lemma {:induction false} JoinedPiecesMeaning(pieces: seq<Json>)
    ensures JoinedPieces(pieces).Ok? <==> forall i | 0 <= i < |pieces| :: pieces[i].JStr?
  {
    if pieces != [] {
      var init := pieces[..|pieces| - 1];
      JoinedPiecesMeaning(init);
      if forall i | 0 <= i < |pieces| :: pieces[i].JStr? {
        assert forall i | 0 <= i < |init| :: init[i] == pieces[i];
      } else {
        var i :| 0 <= i < |pieces| && !pieces[i].JStr?;
        if i < |init| {
          assert init[i] == pieces[i];
        }
      }
    }
  }

  /** The one-character texts of `s`, as a JSON list. */
  function CharList(s: string): seq<Json>
  {
    seq(|s|, i requires 0 <= i < |s| => JStr([s[i]]))
  }

  /** A name given as the list of its characters normalises exactly as the name itself. */
  lemma {:induction false} CharListNormalizes(s: string)
    ensures NormalizedValue(JArr(CharList(s))) == NormalizedValue(JStr(s))
  {
    if s != [] {
      var n := |s|;
      var init := s[..n - 1];
      CharListNormalizes(init);
      assert CharList(s)[..n - 1] == CharList(init);
      assert Normalized(s) == Normalized(init) + [NormalizeChar(s[n - 1])];
    }
  }

  /** `normalizeName` on a card's `name` value: the loop over its characters, elements or keys. */
  method NormalizeValue(name: Json) returns (r: Result<string>)
    ensures r == NormalizedValue(name)
  {
    match name {
      case JStr(s) =>
        var n := NormalizeName(s);
        assert n == Normalized(s);
        r := Ok(n);
      case JArr(items) =>
        r := JoinPieces(items);
      case JObj(fields) =>
        r := JoinPieces(KeyTexts(fields));
      case _ =>
        r := Err(NotText);
    }
  }

  /** The `out` loop and `''.join(out)` for a list (or an object's keys). */
  method JoinPieces(pieces: seq<Json>) returns (r: Result<string>)
    ensures r == JoinedPieces(pieces)
  {
    var out: string := [];
    for i := 0 to |pieces|
      invariant JoinedPieces(pieces[..i]) == Ok(out)
    {
      assert pieces[..i + 1][..i] == pieces[..i];
      var piece := NormalizedPiece(pieces[i]);
      if piece.Err? {
        JoinedPiecesMeaning(pieces);
        return Err(NotText);
      }
      out := out + piece.value;
    }
    assert pieces[..|pieces|] == pieces;
    r := Ok(out);
  }

  // --------------------------------------------------------------- encoding

  /** Every mapped character of `s` maps to a value `bytearray.append` accepts. */
  predicate InRange(s: string, remap: RemapTable)
  {
    forall k | 0 <= k < |s| :: [s[k]] in remap ==> 0 <= remap[[s[k]]] < 256
  }

  predicate AllMapped(s: string, remap: RemapTable)
  {
    forall k | 0 <= k < |s| :: [s[k]] in remap
  }

  /** The first mapped character whose code is not a byte: where `append` raises. */
  function FirstOutOfRange(s: string, remap: RemapTable): (k: nat)
    requires !InRange(s, remap)
    ensures k < |s| && [s[k]] in remap && !(0 <= remap[[s[k]]] < 256)
  {
    if [s[0]] in remap && !(0 <= remap[[s[0]]] < 256) then 0
    else 1 + FirstOutOfRange(s[1..], remap)
  }

  /** Every mapped character before the first out-of-range one is a byte. */
  lemma {:induction false} FirstOutOfRangeFirst(s: string, remap: RemapTable)
    requires !InRange(s, remap)
    ensures InRange(s[..FirstOutOfRange(s, remap)], remap)
  {
    if !([s[0]] in remap && !(0 <= remap[[s[0]]] < 256)) {
      var k := FirstOutOfRange(s, remap);
      assert !InRange(s[1..], remap) by {
        assert [s[k]] in remap && !(0 <= remap[[s[k]]] < 256);
        assert s[1..][k - 1] == s[k];
      }
      FirstOutOfRangeFirst(s[1..], remap);
      assert forall j | 1 <= j < k :: s[..k][j] == s[1..][..k - 1][j - 1];
    }
  }

  /** The code of one character: its remap entry, else (non-strict) itself if printable ASCII, else a space. */
  function CodeFor(c: char, remap: RemapTable): Byte
    requires [c] in remap ==> 0 <= remap[[c]] < 256
  {
    if [c] in remap then remap[[c]]
    else if 0x20 <= c as int <= 0x7E then c as int
    else 0x20
  }

  /** The bytes `encodeName` appends for `s`: strict mode appends nothing for an unmapped character. */
  function Appended(s: string, remap: RemapTable, strict: bool): (r: seq<Byte>)
    requires InRange(s, remap)
    ensures |r| <= |s|
  {
    if s == [] then []
    else
      var init := s[..|s| - 1];
      var c := s[|s| - 1];
      assert forall k | 0 <= k < |init| :: init[k] == s[k];
      var prev := Appended(init, remap, strict);
      if [c] in remap || !strict then prev + [CodeFor(c, remap)] else prev
  }

  /** When nothing is skipped, one byte per character: the remap's code, else the fallback. */
  lemma {:induction false} AppendedMeaning(s: string, remap: RemapTable, strict: bool)
    requires InRange(s, remap) && (!strict || AllMapped(s, remap))
    ensures var r := Appended(s, remap, strict);
      |r| == |s| && forall k | 0 <= k < |s| :: r[k] == CodeFor(s[k], remap)
  {
    if s != [] {
      var init := s[..|s| - 1];
      assert forall k | 0 <= k < |init| :: init[k] == s[k];
      AppendedMeaning(init, remap, strict);
    }
  }

  /** The `missing` counts after scanning `s`: `missing[ch] = missing.get(ch, 0) + 1` per unmapped character. */
  function MissingCounts(s: string, remap: RemapTable): map<char, nat>
  {
    if s == [] then map[]
    else
      var m := MissingCounts(s[..|s| - 1], remap);
      var c := s[|s| - 1];
      if [c] in remap then m else m[c := (if c in m then m[c] else 0) + 1]
  }

  /** The counts name exactly the unmapped characters, each with its number of occurrences. */
  lemma {:induction false} MissingCountsMeaning(s: string, remap: RemapTable)
    ensures forall c :: c in MissingCounts(s, remap) <==> c in s && [c] !in remap
    ensures forall c | c in MissingCounts(s, remap) :: MissingCounts(s, remap)[c] == multiset(s)[c]
  {
    if s != [] {
      var init := s[..|s| - 1];
      var c := s[|s| - 1];
      MissingCountsMeaning(init, remap);
      assert s == init + [c];
      assert multiset(s) == multiset(init) + multiset{c};
      assert forall x :: x in s <==> x in init || x == c;
      assert c !in init ==> multiset(init)[c] == 0;
    }
  }

  /**
   * `encodeName(name, remap, strict)`: the normalised name through the remap.
   * A code that is not a byte fails as `append` does; in strict mode any
   * unmapped character fails with every unmapped character and its count; in
   * non-strict mode an unmapped character becomes itself if printable ASCII,
   * else a space. No terminator is added.
   */
  function Encoded(name: string, remap: RemapTable, strict: bool): Result<seq<Byte>>
  {
    EncodedNormal(Normalized(name), remap, strict)
  }

  /**
   * `encodeName` on the value a card's `name` holds: normalise it (which fails
   * for a value that is not text or a list or object of texts), then scan. For
   * text it is `Encoded`.
   */
  function EncodedValue(name: Json, remap: RemapTable, strict: bool): (r: Result<seq<Byte>>)
    ensures name.JStr? ==> r == Encoded(name.s, remap, strict)
    ensures NormalizedValue(name).Err? ==> r == Err(NotText)
  {
    var n :- NormalizedValue(name);
    EncodedNormal(n, remap, strict)
  }

  /** The encoding of an already normalised name. */
  function EncodedNormal(n: string, remap: RemapTable, strict: bool): Result<seq<Byte>>
  {
    if !InRange(n, remap) then
      Err(ByteOutOfRange(remap[[n[FirstOutOfRange(n, remap)]]]))
    else if strict && MissingCounts(n, remap) != map[] then
      Err(UnmappedCharacters(MissingCounts(n, remap)))
    else
      Ok(Appended(n, remap, strict))
  }

  /**
   * What an encoding means: it succeeds exactly when every mapped code is a
   * byte and (strict) every character is mapped; a success has one byte per
   * character, the remap's code where there is one; a strict failure names
   * exactly the unmapped characters with their counts.
   */
  lemma EncodedMeaning(name: string, remap: RemapTable, strict: bool)
    ensures var r := Encoded(name, remap, strict);
      r.Ok? <==> InRange(Normalized(name), remap) && (strict ==> AllMapped(Normalized(name), remap))
    ensures var r := Encoded(name, remap, strict);
      r.Ok? ==> (|r.value| == |name| &&
        forall k | 0 <= k < |name| :: r.value[k] == CodeFor(Normalized(name)[k], remap))
    ensures var r := Encoded(name, remap, strict);
      r.Ok? && strict ==> forall k | 0 <= k < |name| ::
        [Normalized(name)[k]] in remap && r.value[k] == remap[[Normalized(name)[k]]]
    ensures var r := Encoded(name, remap, strict);
      r.Err? && r.error.UnmappedCharacters? ==>
        (strict && r.error.counts.Keys != {} &&
         (forall c :: c in r.error.counts <==> c in Normalized(name) && [c] !in remap) &&
         (forall c | c in r.error.counts :: r.error.counts[c] == multiset(Normalized(name))[c]))
  {
    var n := Normalized(name);
    MissingEmpty(n, remap);
    MissingCountsMeaning(n, remap);
    if InRange(n, remap) && (strict ==> AllMapped(n, remap)) {
      AppendedMeaning(n, remap, strict);
    }
  }

  /** The scan stops at `i` exactly when `i` is the first out-of-range mapped character. */
  lemma FirstOutOfRangeAt(s: string, remap: RemapTable, i: nat)
    requires i < |s| && InRange(s[..i], remap) && [s[i]] in remap && !(0 <= remap[[s[i]]] < 256)
    ensures !InRange(s, remap) && FirstOutOfRange(s, remap) == i
  {
    FirstOutOfRangeFirst(s, remap);
  }

  /** One more scanned character: the bytes appended for it, if any. */
  lemma AppendedStep(s: string, c: char, remap: RemapTable, strict: bool)
    requires InRange(s + [c], remap)
    ensures InRange(s, remap) && ([c] in remap ==> 0 <= remap[[c]] < 256)
    ensures Appended(s + [c], remap, strict) ==
      if [c] in remap || !strict then Appended(s, remap, strict) + [CodeFor(c, remap)]
      else Appended(s, remap, strict)
  {
    var t := s + [c];
    assert t[..|t| - 1] == s && t[|t| - 1] == c;
    assert forall k | 0 <= k < |s| :: s[k] == t[k];
    assert InRange(s, remap);
    assert [c] in remap ==> 0 <= remap[[c]] < 256 by {
      assert t[|s|] == c;
    }
  }

  /** After the whole scan, `missing` is empty exactly when every character was mapped. */
  lemma MissingEmpty(s: string, remap: RemapTable)
    ensures MissingCounts(s, remap) == map[] <==> AllMapped(s, remap)
  {
    MissingCountsMeaning(s, remap);
    if !AllMapped(s, remap) {
      var k :| 0 <= k < |s| && [s[k]] !in remap;
      MissingCountsMeaning(s, remap);
      assert s[k] in MissingCounts(s, remap);
    }
  }

  /** How the scanned prefix grows by one character. */
  lemma ScanStep(n: string, i: nat, remap: RemapTable, strict: bool)
    requires i < |n| && InRange(n[..i], remap)
    ensures var c := n[i];
      InRange(n[..i + 1], remap) <==> ([c] in remap ==> 0 <= remap[[c]] < 256)
    ensures var c := n[i];
      InRange(n[..i + 1], remap) ==>
        Appended(n[..i + 1], remap, strict) ==
          if [c] in remap || !strict then Appended(n[..i], remap, strict) + [CodeFor(c, remap)]
          else Appended(n[..i], remap, strict)
    ensures var c := n[i]; var m := MissingCounts(n[..i], remap);
      MissingCounts(n[..i + 1], remap) ==
        if [c] in remap then m else m[c := (if c in m then m[c] else 0) + 1]
  {
    assert n[..i + 1] == n[..i] + [n[i]];
    assert n[..i + 1][..i] == n[..i];
    if InRange(n[..i + 1], remap) {
      AppendedStep(n[..i], n[i], remap, strict);
    }
  }

  /** `encodeName` on a card's `name` value: normalise, then scan. */
  method EncodeName(name: Json, remap: RemapTable, strict: bool) returns (r: Result<seq<Byte>>)
    ensures r == EncodedValue(name, remap, strict)
  {
    var n := NormalizeValue(name);
    if n.Err? {
      return Err(n.error);
    }
    r := EncodeNormalized(n.value, remap, strict);
  }

  /** The scan of `encodeName` over the normalised name, with the running `missing` counts. */
  method EncodeNormalized(n: string, remap: RemapTable, strict: bool) returns (r: Result<seq<Byte>>)
    ensures r == EncodedNormal(n, remap, strict)
  {
    var out: seq<Byte> := [];
    var missing: map<char, nat> := map[];
    for i := 0 to |n|
      invariant InRange(n[..i], remap)
      invariant out == Appended(n[..i], remap, strict)
      invariant missing == if strict then MissingCounts(n[..i], remap) else map[]
    {
      var ch := n[i];
      ScanStep(n, i, remap, strict);
      if [ch] in remap {
        var code := remap[[ch]];
        if !(0 <= code < 256) {
          FirstOutOfRangeAt(n, remap, i);
          return Err(ByteOutOfRange(code));
        }
        out := out + [code];
      } else if strict {
        missing := missing[ch := (if ch in missing then missing[ch] else 0) + 1];
      } else {
        var code := ch as int;
        out := out + [if 0x20 <= code <= 0x7E then code else 0x20];
      }
    }
    assert n[..|n|] == n;
    if strict && missing != map[] {
      return Err(UnmappedCharacters(missing));
    }
    r := Ok(out);
  }

  // --------------------------------------------------------- the name table

  /** Each name's strict encoding, or its error, in list order. */
  function NameResults(names: seq<Json>, remap: RemapTable): (rs: seq<Result<seq<Byte>>>)
    ensures |rs| == |names|
  {
    seq(|names|, i requires 0 <= i < |names| => EncodedValue(names[i], remap, true))
  }

  /** What the build loop collects from the first `k` names' results: their encodings, or the first error it meets. */
  function EncodePrefix(results: seq<Result<seq<Byte>>>, k: nat): (r: Result<seq<seq<Byte>>>)
    requires k <= |results|
    ensures r.Ok? ==> |r.value| == k <= ExpectedCardCount
  {
    if k == 0 then Ok([])
    else match EncodePrefix(results, k - 1)
      case Err(e) => Err(e)
      case Ok(encs) =>
        var i := k - 1;
        if i > 0 && i >= ExpectedCardCount then Err(IndexOutOfRange(i))
        else match results[i]
          case Err(e) => Err(e)
          case Ok(enc) => Ok(encs + [enc])
  }

  /** A successful build holds, in order, each name's encoding. */
  lemma {:induction false} EncodePrefixMeaning(results: seq<Result<seq<Byte>>>, k: nat, j: nat)
    requires j < k <= |results| && EncodePrefix(results, k).Ok?
    ensures results[j] == Ok(EncodePrefix(results, k).value[j])
  {
    if j < k - 1 {
      EncodePrefixMeaning(results, k - 1, j);
    }
  }

  /** Once a prefix fails, the whole build fails with the same error. */
  lemma {:induction false} EncodePrefixErr(results: seq<Result<seq<Byte>>>, k: nat)
    requires k <= |results| && EncodePrefix(results, k).Err?
    ensures EncodePrefix(results, |results|) == EncodePrefix(results, k)
    decreases |results| - k
  {
    if k < |results| {
      EncodePrefixErr(results, k + 1);
    }
  }

  /** The 722 offsets: card 1 stays 0, every later card its name's start, cards beyond the list 0. */
  function RecordOffsets(encs: seq<seq<Byte>>): seq<int>
  {
    seq(ExpectedCardCount, j requires 0 <= j < ExpectedCardCount =>
      if j < |encs| then NameTable.RecordOffset(encs, j) else 0)
  }

  /** `buildNameBlobAndOffsets`: the padded table and the 722 record offsets, or the first error. */
  function BlobAndOffsets(names: seq<Json>, remap: RemapTable): (r: Result<(seq<Byte>, seq<int>)>)
    ensures r.Ok? ==> |r.value.1| == ExpectedCardCount
  {
    match EncodePrefix(NameResults(names, remap), |names|)
    case Err(e) => Err(e)
    case Ok(encs) => Ok((NameTable.PadToBlock(NameTable.Body(encs), 0xFF), RecordOffsets(encs)))
  }

  /** Card `i`'s encoding sits in the table at the offset its record stores, followed by `00`. */
  lemma BlobNameAt(names: seq<Json>, remap: RemapTable, i: nat)
    requires BlobAndOffsets(names, remap).Ok? && 0 < i < |names|
    ensures EncodedValue(names[i], remap, true).Ok?
    ensures var (blob, offsets) := BlobAndOffsets(names, remap).value;
      var enc := EncodedValue(names[i], remap, true).value;
      i < |offsets| && 0 <= offsets[i] && offsets[i] + |enc| < |blob| &&
      blob[offsets[i]..offsets[i] + |enc|] == enc && blob[offsets[i] + |enc|] == 0
  {
    var rs := NameResults(names, remap);
    var encs := EncodePrefix(rs, |names|).value;
    EncodePrefixMeaning(rs, |names|, i);
    assert rs[i] == EncodedValue(names[i], remap, true);
    TableNameAt(encs, i);
  }

  /** In the padded table, name `i > 0` lies at its record's offset, followed by `00`. */
  lemma TableNameAt(encs: seq<seq<Byte>>, i: nat)
    requires 0 < i < |encs| <= ExpectedCardCount
    ensures var blob, o := NameTable.PadToBlock(NameTable.Body(encs), 0xFF), RecordOffsets(encs)[i];
      0 <= o && o + |encs[i]| < |blob| && blob[o..o + |encs[i]|] == encs[i] && blob[o + |encs[i]|] == 0
  {
    var body := NameTable.Body(encs);
    var blob := NameTable.PadToBlock(body, 0xFF);
    var o := NameTable.NameStart(encs, i);
    assert RecordOffsets(encs)[i] == o;
    NameTable.NameInTable(encs, i);
    assert blob[..|body|] == body;
    assert blob[o..o + |encs[i]|] == body[o..o + |encs[i]|];
  }

  /**
   * What the built table holds: the marker, each card's encoding at the
   * offset its record stores (card 1's right after the marker, its record 0),
   * each followed by `00`; then `FF` up to an 8 KiB boundary.
   */
  lemma BlobLayout(names: seq<Json>, remap: RemapTable)
    requires BlobAndOffsets(names, remap).Ok?
    ensures var (blob, offsets) := BlobAndOffsets(names, remap).value;
      |blob| % NameTable.BlockSize == 0 && blob[..2] == NameTable.Marker &&
      |offsets| == ExpectedCardCount && offsets[0] == 0 &&
      |names| <= ExpectedCardCount
    ensures var (blob, offsets) := BlobAndOffsets(names, remap).value;
      forall i | 0 < i < |names| ::
        EncodedValue(names[i], remap, true).Ok? &&
        var enc := EncodedValue(names[i], remap, true).value;
        offsets[i] + |enc| < |blob| &&
        blob[offsets[i]..offsets[i] + |enc|] == enc && blob[offsets[i] + |enc|] == 0
    ensures var (blob, offsets) := BlobAndOffsets(names, remap).value;
      forall i | |names| <= i < ExpectedCardCount :: offsets[i] == 0
  {
    var encs := EncodePrefix(NameResults(names, remap), |names|).value;
    var body := NameTable.Body(encs);
    var blob := NameTable.PadToBlock(body, 0xFF);
    assert blob[..|body|] == body;
    assert blob[..2] == body[..2];
    forall i | 0 < i < |names| {
      BlobNameAt(names, remap, i);
    }
  }

  /** One iteration of the build loop that stores a name. */
  lemma BuildStep(results: seq<Result<seq<Byte>>>, encs: seq<seq<Byte>>, i: nat, enc: seq<Byte>)
    requires i < |results| && EncodePrefix(results, i) == Ok(encs)
    requires !(i > 0 && i >= ExpectedCardCount) && results[i] == Ok(enc)
    ensures EncodePrefix(results, i + 1) == Ok(encs + [enc])
    ensures NameTable.Body(encs + [enc]) == NameTable.Body(encs) + enc + [0]
    ensures RecordOffsets(encs + [enc]) ==
      if i > 0 then RecordOffsets(encs)[i := |NameTable.Body(encs)|] else RecordOffsets(encs)
  {
    NameTable.NameStartAppend(encs, enc);
    var after := encs + [enc];
    forall j | 0 <= j < ExpectedCardCount
      ensures RecordOffsets(after)[j] ==
        (if i > 0 then RecordOffsets(encs)[i := |NameTable.Body(encs)|] else RecordOffsets(encs))[j]
    {
    }
  }

  /** One iteration of the build loop that stops: the whole build fails with that error. */
  lemma BuildStepErr(results: seq<Result<seq<Byte>>>, encs: seq<seq<Byte>>, i: nat)
    requires i < |results| && EncodePrefix(results, i) == Ok(encs)
    requires (i > 0 && i >= ExpectedCardCount) || results[i].Err?
    ensures EncodePrefix(results, |results|) ==
      if i > 0 && i >= ExpectedCardCount then Err(IndexOutOfRange(i)) else Err(results[i].error)
  {
    EncodePrefixErr(results, i + 1);
  }

  /** `buildNameBlobAndOffsets`: the name loop, then the `FF` padding to the block boundary. */
  method BuildNameBlobAndOffsets(names: seq<Json>, remap: RemapTable) returns (r: Result<(seq<Byte>, seq<int>)>)
    ensures r == BlobAndOffsets(names, remap)
  {
    var body := BuildNameBody(names, remap);
    if body.Err? {
      return Err(body.error);
    }
    var (buf, offsets) := body.value;
    ghost var unpadded := buf;
    var pad := (-|buf|) % NameTable.BlockSize;
    assert pad == NameTable.PadLength(|buf|);
    if pad > 0 {
      buf := buf + Fill(0xFF, pad);
    }
    assert buf == NameTable.PadToBlock(unpadded, 0xFF);
    r := Ok((buf, offsets));
  }

  /** The name loop of `buildNameBlobAndOffsets`: the unpadded table and the offsets, or the first error. */
  method BuildNameBody(names: seq<Json>, remap: RemapTable) returns (r: Result<(seq<Byte>, seq<int>)>)
    ensures r.Err? ==> EncodePrefix(NameResults(names, remap), |names|) == Err(r.error)
    ensures r.Ok? ==> EncodePrefix(NameResults(names, remap), |names|).Ok?
    ensures r.Ok? ==> r.value == (NameTable.Body(EncodePrefix(NameResults(names, remap), |names|).value),
                                  RecordOffsets(EncodePrefix(NameResults(names, remap), |names|).value))
  {
    var buf: seq<Byte> := NameTable.Marker;
    var offsets: seq<int> := seq(ExpectedCardCount, _ => 0);
    ghost var encs: seq<seq<Byte>> := [];
    ghost var results := NameResults(names, remap);
    for i := 0 to |names|
      invariant EncodePrefix(results, i) == Ok(encs)
      invariant buf == NameTable.Body(encs)
      invariant offsets == RecordOffsets(encs)
    {
      var start := |buf|;
      if i > 0 {
        if i >= ExpectedCardCount {
          BuildStepErr(results, encs, i);
          return Err(IndexOutOfRange(i));
        }
        offsets := offsets[i := start];
      }
      var enc := EncodeName(names[i], remap, true);
      assert results[i] == enc;
      if enc.Err? {
        BuildStepErr(results, encs, i);
        return Err(enc.error);
      }
      BuildStep(results, encs, i, enc.value);
      buf := buf + enc.value + [0];
      encs := encs + [enc.value];
    }
    r := Ok((buf, offsets));
  }

  /** `computeBlockCount`: the number of 8 KiB blocks needed for a size, rounded up. */
  function ComputeBlockCount(effectiveSize: int): (r: int)
    ensures (r - 1) * NameTable.BlockSize < effectiveSize <= r * NameTable.BlockSize
    ensures effectiveSize >= 0 ==> r >= 0
  {
    (effectiveSize + NameTable.BlockSize - 1) / NameTable.BlockSize
  }

  // ---------------------------------------------------------- image writes

  /** `ensureRomSize`: the image grown with `FF` to at least `requiredSize` bytes. */
  method EnsureRomSize(rom: RomBuffer, requiredSize: int)
    modifies rom
    ensures rom.bytes == Grow(old(rom.bytes), Max(requiredSize, 0), 0xFF)
  {
    if |rom.bytes| < requiredSize {
      rom.bytes := rom.bytes + Fill(0xFF, requiredSize - |rom.bytes|);
    }
  }

  /** The image after `injectBlob(rom, at, blob)`. */
  function Injected(s: seq<Byte>, at: nat, blob: seq<Byte>): (r: seq<Byte>)
    ensures |r| == Max(|s|, at + |blob|)
  {
    SliceAssign(Grow(s, at + |blob|, 0xFF), at, at + |blob|, blob)
  }

  /**
   * Injection lays the blob at `at`, grows the image with `FF` only as far as
   * the blob's end, and keeps every other byte.
   */
  lemma InjectedLayout(s: seq<Byte>, at: nat, blob: seq<Byte>)
    ensures var r := Injected(s, at, blob);
      |r| == Max(|s|, at + |blob|) && r[at..at + |blob|] == blob
    ensures var r := Injected(s, at, blob);
      forall k | 0 <= k < |r| && !(at <= k < at + |blob|) :: r[k] == if k < |s| then s[k] else 0xFF
  {
    var g := Grow(s, at + |blob|, 0xFF);
    SliceAssignInPlace(g, at, blob);
  }

  /** `injectBlob`: grow the image to the blob's end, then overwrite `rom[at:at+len(blob)]`. */
  method InjectBlob(rom: RomBuffer, fileAt: nat, blob: seq<Byte>)
    modifies rom
    ensures rom.bytes == Injected(old(rom.bytes), fileAt, blob)
  {
    var end := fileAt + |blob|;
    EnsureRomSize(rom, end);
    rom.bytes := SliceAssign(rom.bytes, fileAt, end, blob);
  }

  /** The image after the first `n` records' name offsets are rewritten. */
  function OffsetsWritten(s: seq<Byte>, first: nat, offsets: seq<int>, n: nat): (r: seq<Byte>)
    requires n <= |offsets| && first + n * CardEntrySize <= |s|
    ensures |r| == |s|
  {
    if n == 0 then s
    else
      var pos := first + (n - 1) * CardEntrySize + 4;
      var val := offsets[n - 1] % 0x1_0000;
      OffsetsWritten(s, first, offsets, n - 1)[pos := val % 0x100][pos + 1 := (val / 0x100) % 0x100]
  }

  /** Whether byte `k` lies in the name-offset field of one of the first `n` records. */
  predicate InNameField(first: nat, n: nat, k: int)
  {
    first <= k < first + n * CardEntrySize && (k - first) % CardEntrySize >= 4
  }

  /** Record `i`'s field holds its offset once the first `n > i` records are written. */
  lemma {:induction false} OffsetFieldAt(s: seq<Byte>, first: nat, offsets: seq<int>, n: nat, i: nat)
    requires n <= |offsets| && first + n * CardEntrySize <= |s| && i < n
    ensures var pos := first + i * CardEntrySize + 4;
      OffsetsWritten(s, first, offsets, n)[pos..pos + 2] == Le16(offsets[i])
  {
    var p := first + i * CardEntrySize + 4;
    var last := first + (n - 1) * CardEntrySize + 4;
    var r := OffsetsWritten(s, first, offsets, n);
    if i < n - 1 {
      OffsetFieldAt(s, first, offsets, n - 1, i);
      assert p + 2 <= last;
      assert r[p] == OffsetsWritten(s, first, offsets, n - 1)[p];
      assert r[p + 1] == OffsetsWritten(s, first, offsets, n - 1)[p + 1];
    } else {
      DivModSplit(offsets[i], 0x100, 0x100);
      assert r[p] == Le16(offsets[i])[0];
    }
  }

  /** A byte outside every written field keeps its value. */
  lemma {:induction false} OffsetsWrittenKeeps(s: seq<Byte>, first: nat, offsets: seq<int>, n: nat, k: nat)
    requires n <= |offsets| && first + n * CardEntrySize <= |s| && k < |s| && !InNameField(first, n, k)
    ensures OffsetsWritten(s, first, offsets, n)[k] == s[k]
  {
    if n > 0 {
      var last := first + (n - 1) * CardEntrySize + 4;
      DivModUnique(last - first, CardEntrySize, n - 1, 4);
      DivModUnique(last + 1 - first, CardEntrySize, n - 1, 5);
      assert k != last && k != last + 1;
      OffsetsWrittenKeeps(s, first, offsets, n - 1, k);
    }
  }

  /**
   * Rewriting the name offsets stores each record's offset, masked to 16 bits,
   * little-endian in the record's last two bytes, and changes nothing else.
   */
  lemma OffsetsWrittenLayout(s: seq<Byte>, first: nat, offsets: seq<int>, n: nat)
    requires n <= |offsets| && first + n * CardEntrySize <= |s|
    ensures forall i | 0 <= i < n ::
      var pos := first + i * CardEntrySize + 4;
      DecodeLe16(OffsetsWritten(s, first, offsets, n)[pos..pos + 2]) == offsets[i] % 0x1_0000
    ensures forall k | 0 <= k < |s| && !InNameField(first, n, k) :: OffsetsWritten(s, first, offsets, n)[k] == s[k]
  {
    forall i | 0 <= i < n
      ensures var pos := first + i * CardEntrySize + 4;
        DecodeLe16(OffsetsWritten(s, first, offsets, n)[pos..pos + 2]) == offsets[i] % 0x1_0000
    {
      OffsetFieldAt(s, first, offsets, n, i);
      Le16RoundTrip(offsets[i]);
    }
    forall k | 0 <= k < |s| && !InNameField(first, n, k) ensures OffsetsWritten(s, first, offsets, n)[k] == s[k] {
      OffsetsWrittenKeeps(s, first, offsets, n, k);
    }
  }

  /** `patchCardIndexNameOffsets`: the 722 records from the first card's file offset on, six bytes each. */
  method PatchCardIndexNameOffsets(rom: RomBuffer, fileFirstCardOffset: nat, nameOffsetsInBlob: seq<int>)
    requires |nameOffsetsInBlob| >= ExpectedCardCount
    requires fileFirstCardOffset + ExpectedCardCount * CardEntrySize <= |rom.bytes|
    modifies rom
    ensures rom.bytes == OffsetsWritten(old(rom.bytes), fileFirstCardOffset, nameOffsetsInBlob, ExpectedCardCount)
  {
    for i := 0 to ExpectedCardCount
      invariant |rom.bytes| == |old(rom.bytes)|
      invariant rom.bytes == OffsetsWritten(old(rom.bytes), fileFirstCardOffset, nameOffsetsInBlob, i)
    {
      var entryBase := fileFirstCardOffset + i * CardEntrySize;
      var nameOffPos := entryBase + 4;
      var val := nameOffsetsInBlob[i] % 0x1_0000;
      rom.bytes := rom.bytes[nameOffPos := val % 0x100];
      rom.bytes := rom.bytes[nameOffPos + 1 := (val / 0x100) % 0x100];
    }
  }

  /** The image after `setCardNamePointer(rom, pos, cardNameRomOffset)`. */
  function WithPointer(s: seq<Byte>, pos: nat, cardNameRomOffset: int): seq<Byte>
    requires pos + 4 <= |s|
  {
    s[..pos] + Le32(MemBase + cardNameRomOffset) + s[pos + 4..]
  }

  /** The lookup pointer reads back as the table's address in PocketStation memory, modulo 2^32; nothing else changes. */
  lemma PointerDecodes(s: seq<Byte>, pos: nat, cardNameRomOffset: int)
    requires pos + 4 <= |s|
    ensures var r := WithPointer(s, pos, cardNameRomOffset);
      |r| == |s| && DecodeLe32(r[pos..pos + 4]) == (MemBase + cardNameRomOffset) % 0x1_0000_0000
    ensures var r := WithPointer(s, pos, cardNameRomOffset);
      forall k | 0 <= k < |s| && !(pos <= k < pos + 4) :: r[k] == s[k]
  {
    var r := WithPointer(s, pos, cardNameRomOffset);
    Le32RoundTrip(MemBase + cardNameRomOffset);
    assert r[pos..pos + 4] == Le32(MemBase + cardNameRomOffset);
  }

  /** `setCardNamePointer`: four byte writes of `0x02000000 + cardNameRomOffset`, least significant first. */
  method SetCardNamePointer(rom: RomBuffer, filePointerOffset: nat, cardNameRomOffset: int)
    requires filePointerOffset + 4 <= |rom.bytes|
    modifies rom
    ensures rom.bytes == WithPointer(old(rom.bytes), filePointerOffset, cardNameRomOffset)
  {
    var ptr := MemBase + cardNameRomOffset;
    var p := filePointerOffset;
    rom.bytes := rom.bytes[p := ptr % 0x100];
    rom.bytes := rom.bytes[p + 1 := (ptr / 0x100) % 0x100];
    rom.bytes := rom.bytes[p + 2 := (ptr / 0x1_0000) % 0x100];
    rom.bytes := rom.bytes[p + 3 := (ptr / 0x100_0000) % 0x100];
  }

  /** `updateBlockCountHeader`: the header byte becomes the block count masked to 8 bits. */
  method UpdateBlockCountHeader(rom: RomBuffer, fileHeaderBlockCountPos: nat, effectiveSize: int) returns (newBlocks: int)
    requires fileHeaderBlockCountPos < |rom.bytes|
    modifies rom
    ensures newBlocks == ComputeBlockCount(effectiveSize)
    ensures rom.bytes == old(rom.bytes)[fileHeaderBlockCountPos := newBlocks % 0x100]
  {
    newBlocks := ComputeBlockCount(effectiveSize);
    rom.bytes := rom.bytes[fileHeaderBlockCountPos := newBlocks % 0x100];
  }

  // ---------------------------------------------------------- language list

  /** The card number of one `{number, name}` item, read with `int(item['number'])`. */
  function NumberOf(item: Json): Result<int>
  {
    if !item.JObj? then Err(NotAnObject)
    else
      var n :- Index(item.fields, "number");
      PyIntOf(n)
  }

  /** One iteration of the first loop of `loadLanguageNames`: `byNum[num] = item['name']`. */
  function ByNumberStep(byNum: map<int, Json>, item: Json): Result<map<int, Json>>
  {
    var num :- NumberOf(item);
    var name :- Index(item.fields, "name");
    Ok(byNum[num := name])
  }

  /** The `byNum` map after all of `items`, or the first item's error. */
  function ByNumber(items: seq<Json>): Result<map<int, Json>>
  {
    if items == [] then Ok(map[])
    else match ByNumber(items[..|items| - 1])
      case Err(e) => Err(e)
      case Ok(m) => ByNumberStep(m, items[|items| - 1])
  }

  /** The name an item gives its card number. */
  function NameField(item: Json): Json
    requires item.JObj?
  {
    match Get(item.fields, "name")
    case Some(v) => v
    case None => JNull
  }

  /** What one successful step adds: the item's number with its name; nothing else changes. */
  lemma ByNumberStepFacts(m: map<int, Json>, item: Json)
    requires ByNumberStep(m, item).Ok?
    ensures NumberOf(item).Ok? && item.JObj?
    ensures ByNumberStep(m, item).value == m[NumberOf(item).value := NameField(item)]
  {
  }

  /** Number `num` is in the map after all of `items` iff some item carries it. */
  lemma {:induction false} ByNumberHas(items: seq<Json>, num: int)
    requires ByNumber(items).Ok?
    ensures num in ByNumber(items).value <==> exists i :: 0 <= i < |items| && NumberOf(items[i]) == Ok(num)
  {
    if items != [] {
      var n := |items|;
      var prefix := items[..n - 1];
      var last := items[n - 1];
      ByNumberHas(prefix, num);
      var m := ByNumber(prefix).value;
      assert ByNumber(items) == ByNumberStep(m, last);
      ByNumberStepFacts(m, last);
      if num in ByNumber(items).value {
        if NumberOf(last) == Ok(num) {
          assert NumberOf(items[n - 1]) == Ok(num);
        } else {
          var i :| 0 <= i < n - 1 && NumberOf(prefix[i]) == Ok(num);
          assert prefix[i] == items[i];
        }
      }
      if exists i :: 0 <= i < n && NumberOf(items[i]) == Ok(num) {
        var i :| 0 <= i < n && NumberOf(items[i]) == Ok(num);
        if i < n - 1 {
          assert prefix[i] == items[i];
        }
      }
    }
  }

  /** The value under `num` comes from the last item carrying it. */
  lemma {:induction false} ByNumberLast(items: seq<Json>, num: int, i: nat)
    requires ByNumber(items).Ok? && i < |items| && NumberOf(items[i]) == Ok(num)
    requires forall j | i < j < |items| :: NumberOf(items[j]) != Ok(num)
    ensures num in ByNumber(items).value && ByNumber(items).value[num] == NameField(items[i])
  {
    var n := |items|;
    var prefix := items[..n - 1];
    var last := items[n - 1];
    var m := ByNumber(prefix).value;
    assert ByNumber(items) == ByNumberStep(m, last);
    ByNumberStepFacts(m, last);
    if i < n - 1 {
      assert prefix[i] == items[i];
      assert forall j | i < j < n - 1 :: prefix[j] == items[j];
      ByNumberLast(prefix, num, i);
    }
  }

  /**
   * The map holds exactly the numbers some item carries, each with the name of
   * the LAST item carrying it.
   */
  lemma ByNumberLastWins(items: seq<Json>)
    requires ByNumber(items).Ok?
    ensures forall num :: num in ByNumber(items).value <==>
      exists i :: 0 <= i < |items| && NumberOf(items[i]) == Ok(num)
    ensures forall i | 0 <= i < |items| && NumberOf(items[i]).Ok? ::
      (forall j | i < j < |items| :: NumberOf(items[j]) != NumberOf(items[i])) ==>
        ByNumber(items).value[NumberOf(items[i]).value] == NameField(items[i])
  {
    forall num {
      ByNumberHas(items, num);
    }
    forall i | 0 <= i < |items| && NumberOf(items[i]).Ok? &&
        (forall j | i < j < |items| :: NumberOf(items[j]) != NumberOf(items[i]))
      ensures ByNumber(items).value[NumberOf(items[i]).value] == NameField(items[i])
    {
      ByNumberLast(items, NumberOf(items[i]).value, i);
    }
  }

  /** The name values of cards 1..k in order, or the first card number without one. */
  function NamesUpTo(byNum: map<int, Json>, k: nat): (r: Result<seq<Json>>)
    ensures r.Ok? ==> |r.value| == k
    ensures r.Ok? ==> forall num | 1 <= num <= k :: num in byNum && byNum[num] == r.value[num - 1]
    ensures r.Err? ==> (r.error.MissingCardName? && 1 <= r.error.number <= k && r.error.number !in byNum &&
                        forall num | 1 <= num < r.error.number :: num in byNum)
  {
    if k == 0 then Ok([])
    else
      var prev := NamesUpTo(byNum, k - 1);
      if prev.Err? then prev
      else if k !in byNum then Err(MissingCardName(k))
      else
        Ok(prev.value + [byNum[k]])
  }

  /** `loadLanguageNames`: the 722 names of the language's list, by card number. */
  function LanguageNames(cardsJson: seq<(string, Json)>, language: string): Result<seq<Json>>
  {
    var section :- Index(cardsJson, language);
    var items :- ItemsOf(section);
    var byNum :- ByNumber(items);
    NamesUpTo(byNum, ExpectedCardCount)
  }

  /** Once a prefix of the items fails, the whole list fails with the same error. */
  lemma {:induction false} ByNumberPrefixErr(items: seq<Json>, n: nat)
    requires n <= |items| && ByNumber(items[..n]).Err?
    ensures ByNumber(items) == ByNumber(items[..n])
    decreases |items| - n
  {
    if n < |items| {
      assert items[..n + 1][..n] == items[..n];
      ByNumberPrefixErr(items, n + 1);
    } else {
      assert items[..n] == items;
    }
  }

  /** `loadLanguageNames`: index the items by number, then collect cards 1..722 in order. */
  method LoadLanguageNames(cardsJson: seq<(string, Json)>, language: string) returns (r: Result<seq<Json>>)
    ensures r == LanguageNames(cardsJson, language)
  {
    var section := Index(cardsJson, language);
    if section.Err? {
      return Err(section.error);
    }
    var itemsR := ItemsOf(section.value);
    if itemsR.Err? {
      return Err(itemsR.error);
    }
    var items := itemsR.value;
    var byNum: map<int, Json> := map[];
    for i := 0 to |items|
      invariant ByNumber(items[..i]) == Ok(byNum)
    {
      assert items[..i + 1][..i] == items[..i];
      var step := ByNumberStep(byNum, items[i]);
      if step.Err? {
        ByNumberPrefixErr(items, i + 1);
        return Err(step.error);
      }
      byNum := step.value;
    }
    assert items[..|items|] == items;
    var names: seq<Json> := [];
    for num := 1 to ExpectedCardCount + 1
      invariant NamesUpTo(byNum, num - 1) == Ok(names)
    {
      if num !in byNum {
        NamesUpToErr(byNum, num, ExpectedCardCount);
        return Err(MissingCardName(num));
      }
      names := names + [byNum[num]];
    }
    r := Ok(names);
  }

  /** Once card `k` fails, collecting up to any later card fails with the same error. */
  lemma {:induction false} NamesUpToErr(byNum: map<int, Json>, k: nat, m: nat)
    requires k <= m && NamesUpTo(byNum, k).Err?
    ensures NamesUpTo(byNum, m) == NamesUpTo(byNum, k)
    decreases m - k
  {
    if k < m {
      NamesUpToErr(byNum, k, m - 1);
    }
  }

  // -------------------------------------------------------------- main flow

  /** The base offset `main` selects: 0 for `--raw` or nothing, 0x80 for `--mcs`, else `parseHexInt` of `--offset` (an empty text selects nothing). */
  function BaseOffset(choice: BaseChoice): Result<int>
  {
    match choice
    case Raw => Ok(0)
    case Mcs => Ok(0x80)
    case Offset(t) => if t == "" then Ok(0) else PyNumbers.ParseHexOrInt(t)
    case Unspecified => Ok(0)
  }

  /** `parseHexInt(cardsJson[key])`: the key must exist and hold text. */
  function ManifestAddress(cardsJson: seq<(string, Json)>, key: string): Result<int>
  {
    var v :- Index(cardsJson, key);
    if v.JStr? then PyNumbers.ParseHexOrInt(v.s) else Err(NotAString)
  }

  /** Everything `main` derives before it touches the image. */
  datatype NamePlan = NamePlan(
    base: int, indexRom: int, nameRom: int, lookupRom: int,
    blob: seq<Byte>, nameOffsets: seq<int>)
  {
    /** File offset of the first card record (the index header is skipped). */
    function FirstCardAt(): int { base + indexRom + CardIndexHeaderSize }
    function NamesAt(): int { base + nameRom }
    function PointerAt(): int { base + lookupRom }
    function BlockCountAt(): int { base + TitleBlockCountOffset }
    /** `plannedEndFile`: the image length once the table is injected. */
    function PlannedEnd(romLen: nat): nat { if romLen >= NamesAt() + |blob| then romLen else NamesAt() + |blob| }
    function PlannedEffectiveSize(romLen: nat): int { Max(PlannedEnd(romLen) - base, 0) }
  }

  /** The steps of `main` up to the built table, in its order; the first failure is the result. */
  function PlanOf(cardsJson: seq<(string, Json)>, language: string, choice: BaseChoice): (r: Result<NamePlan>)
    ensures r.Ok? ==> |r.value.nameOffsets| == ExpectedCardCount
  {
    var base :- BaseOffset(choice);
    var indexRom :- ManifestAddress(cardsJson, "card_index_offset");
    var nameRom :- ManifestAddress(cardsJson, "card_name_offset");
    var lookupRom :- ManifestAddress(cardsJson, "card_lookup_address");
    var remap :- RemapFor(cardsJson);
    var names :- LanguageNames(cardsJson, language);
    var built :- BlobAndOffsets(names, remap);
    Ok(NamePlan(base, indexRom, nameRom, lookupRom, built.0, built.1))
  }

  /**
   * Why the writes would fail on an image of `romLen` bytes: a negative file
   * offset, or a record, the pointer or the header byte beyond the image
   * after the table is injected (the source raises `IndexError` there and
   * writes nothing).
   */
  function WriteError(p: NamePlan, romLen: nat): Option<Error>
  {
    var end := p.PlannedEnd(romLen);
    if p.NamesAt() < 0 || p.FirstCardAt() < 0 || p.PointerAt() < 0 || p.BlockCountAt() < 0 then Some(NegativeOffset)
    else if p.FirstCardAt() + ExpectedCardCount * CardEntrySize > end then
      Some(PatchOutOfRange(p.FirstCardAt(), ExpectedCardCount * CardEntrySize, end))
    else if p.PointerAt() + 4 > end then Some(PatchOutOfRange(p.PointerAt(), 4, end))
    else if p.BlockCountAt() >= end then Some(PatchOutOfRange(p.BlockCountAt(), 1, end))
    else None
  }

  /** The image after the injection and the record rewrites. */
  function Recorded(s: seq<Byte>, p: NamePlan): (r: seq<Byte>)
    requires WriteError(p, |s|).None? && |p.nameOffsets| >= ExpectedCardCount
    ensures |r| == p.PlannedEnd(|s|)
  {
    OffsetsWritten(Injected(s, p.NamesAt(), p.blob), p.FirstCardAt(), p.nameOffsets, ExpectedCardCount)
  }

  /** The image before the header byte: table injected, offsets rewritten, pointer set, grown to the planned end. */
  function PatchedBody(s: seq<Byte>, p: NamePlan): (r: seq<Byte>)
    requires WriteError(p, |s|).None? && |p.nameOffsets| >= ExpectedCardCount
    ensures |r| == p.PlannedEnd(|s|)
  {
    var c := WithPointer(Recorded(s, p), p.PointerAt(), p.nameRom);
    Grow(c, p.PlannedEnd(|s|), 0xFF)
  }

  /** The image `main` writes back. */
  function PatchedImage(s: seq<Byte>, p: NamePlan): (r: seq<Byte>)
    requires WriteError(p, |s|).None? && |p.nameOffsets| >= ExpectedCardCount
  {
    var d := PatchedBody(s, p);
    d[p.BlockCountAt() := ComputeBlockCount(Max(|d| - p.base, 0)) % 0x100]
  }

  /** What `main` reports: the planned effective size and block count, and the block count it wrote. */
  datatype NamePatchReport = NamePatchReport(plannedEffectiveSize: int, plannedBlocks: int, finalBlocks: Option<int>)

  /** The outcome of `main` on an image, given its plan: the report and the image written back (a dry run writes nothing). */
  function NamePatchOutcome(s: seq<Byte>, plan: Result<NamePlan>, dryRun: bool): Result<(NamePatchReport, seq<Byte>)>
    requires plan.Ok? ==> |plan.value.nameOffsets| >= ExpectedCardCount
  {
    var p :- plan;
    var eff := p.PlannedEffectiveSize(|s|);
    var planned := NamePatchReport(eff, ComputeBlockCount(eff), None);
    if dryRun then Ok((planned, s))
    else match WriteError(p, |s|)
      case Some(e) => Err(e)
      case None =>
        var body := PatchedBody(s, p);
        Ok((planned.(finalBlocks := Some(ComputeBlockCount(Max(|body| - p.base, 0)))), PatchedImage(s, p)))
  }

  /**
   * The table, the record block, the pointer and the header byte do not overlap.
   * `main` does not check this; where they do overlap, `PatchedByteAt` says which write wins.
   */
  predicate Disjoint(p: NamePlan)
  {
    var n0 := p.NamesAt(); var n1 := n0 + |p.blob|;
    var r0 := p.FirstCardAt(); var r1 := r0 + ExpectedCardCount * CardEntrySize;
    var p0 := p.PointerAt(); var p1 := p0 + 4;
    var h := p.BlockCountAt();
    (n1 <= r0 || r1 <= n0) && (n1 <= p0 || p1 <= n0) && !(n0 <= h < n1) &&
    (r1 <= p0 || p1 <= r0) && !(r0 <= h < r1) && !(p0 <= h < p1)
  }

  /** Byte `k` of the written image, by the last write that reaches it. */
  lemma PatchedByteAt(s: seq<Byte>, p: NamePlan, k: nat)
    requires WriteError(p, |s|).None? && |p.nameOffsets| >= ExpectedCardCount
    requires k < p.PlannedEnd(|s|)
    ensures |PatchedImage(s, p)| == p.PlannedEnd(|s|)
    ensures PatchedImage(s, p)[k] ==
      if k == p.BlockCountAt() then ComputeBlockCount(p.PlannedEffectiveSize(|s|)) % 0x100
      else if p.PointerAt() <= k < p.PointerAt() + 4 then Le32(MemBase + p.nameRom)[k - p.PointerAt()]
      else Recorded(s, p)[k]
  {
    var b := Recorded(s, p);
    var c := WithPointer(b, p.PointerAt(), p.nameRom);
    assert Grow(c, p.PlannedEnd(|s|), 0xFF) == c;
    if p.PointerAt() <= k < p.PointerAt() + 4 {
      assert c[k] == Le32(MemBase + p.nameRom)[k - p.PointerAt()];
    } else if k < p.PointerAt() {
      assert c[k] == b[..p.PointerAt()][k];
    } else {
      assert c[k] == b[p.PointerAt() + 4..][k - p.PointerAt() - 4];
    }
  }

  /** A run of bytes clear of the header and the pointer is as the record step left it. */
  lemma PatchedKeeps(s: seq<Byte>, p: NamePlan, lo: nat, hi: nat)
    requires WriteError(p, |s|).None? && |p.nameOffsets| >= ExpectedCardCount
    requires lo <= hi <= p.PlannedEnd(|s|)
    requires !(lo <= p.BlockCountAt() < hi) && (hi <= p.PointerAt() || p.PointerAt() + 4 <= lo)
    ensures |PatchedImage(s, p)| == p.PlannedEnd(|s|) && PatchedImage(s, p)[lo..hi] == Recorded(s, p)[lo..hi]
  {
    forall k | lo <= k < hi ensures PatchedImage(s, p)[k] == Recorded(s, p)[k] {
      PatchedByteAt(s, p, k);
    }
  }

  /** A table byte survives the record step, which writes only inside the records. */
  lemma RecordedTableByte(s: seq<Byte>, p: NamePlan, k: nat)
    requires WriteError(p, |s|).None? && |p.nameOffsets| >= ExpectedCardCount && Disjoint(p)
    requires p.NamesAt() <= k < p.NamesAt() + |p.blob|
    ensures k < |Recorded(s, p)| && Recorded(s, p)[k] == p.blob[k - p.NamesAt()]
  {
    var a := Injected(s, p.NamesAt(), p.blob);
    InjectedLayout(s, p.NamesAt(), p.blob);
    OffsetsWrittenKeeps(a, p.FirstCardAt(), p.nameOffsets, ExpectedCardCount, k);
    assert a[k] == a[p.NamesAt()..p.NamesAt() + |p.blob|][k - p.NamesAt()];
  }

  /** After the record step the table still lies at its file offset. */
  lemma RecordedTable(s: seq<Byte>, p: NamePlan)
    requires WriteError(p, |s|).None? && |p.nameOffsets| >= ExpectedCardCount && Disjoint(p)
    ensures p.NamesAt() + |p.blob| <= |Recorded(s, p)|
    ensures Recorded(s, p)[p.NamesAt()..p.NamesAt() + |p.blob|] == p.blob
  {
    var b := Recorded(s, p);
    assert |b| == p.PlannedEnd(|s|) >= p.NamesAt() + |p.blob|;
    forall k | p.NamesAt() <= k < p.NamesAt() + |p.blob| ensures b[k] == p.blob[k - p.NamesAt()] {
      RecordedTableByte(s, p, k);
    }
  }

  /** The table lies at its file offset, untouched by the later writes. */
  lemma PatchedTable(s: seq<Byte>, p: NamePlan)
    requires WriteError(p, |s|).None? && |p.nameOffsets| >= ExpectedCardCount && Disjoint(p)
    ensures var img := PatchedImage(s, p);
      p.NamesAt() + |p.blob| <= |img| && img[p.NamesAt()..p.NamesAt() + |p.blob|] == p.blob
  {
    RecordedTable(s, p);
    PatchedKeeps(s, p, p.NamesAt(), p.NamesAt() + |p.blob|);
  }

  /** The four pointer bytes of the written image are `le32` of the table's memory address. */
  lemma PatchedPointerBytes(s: seq<Byte>, p: NamePlan)
    requires WriteError(p, |s|).None? && |p.nameOffsets| >= ExpectedCardCount && Disjoint(p)
    ensures var img := PatchedImage(s, p);
      p.PointerAt() + 4 <= |img| && img[p.PointerAt()..p.PointerAt() + 4] == Le32(MemBase + p.nameRom)
  {
    var img := PatchedImage(s, p);
    forall k | p.PointerAt() <= k < p.PointerAt() + 4 ensures img[k] == Le32(MemBase + p.nameRom)[k - p.PointerAt()] {
      PatchedByteAt(s, p, k);
    }
  }

  /** The pointer reads back as the table's memory address, and the header byte holds the planned block count. */
  lemma PatchedPointerAndHeader(s: seq<Byte>, p: NamePlan)
    requires WriteError(p, |s|).None? && |p.nameOffsets| >= ExpectedCardCount && Disjoint(p)
    ensures var img := PatchedImage(s, p);
      p.PointerAt() + 4 <= |img| &&
      DecodeLe32(img[p.PointerAt()..p.PointerAt() + 4]) == (MemBase + p.nameRom) % 0x1_0000_0000
    ensures var img := PatchedImage(s, p);
      p.BlockCountAt() < |img| && img[p.BlockCountAt()] == ComputeBlockCount(p.PlannedEffectiveSize(|s|)) % 0x100
  {
    PatchedPointerBytes(s, p);
    Le32RoundTrip(MemBase + p.nameRom);
    PatchedByteAt(s, p, p.BlockCountAt());
  }

  /** Byte `j` of record `i` lies inside the table of records. */
  lemma RecordInside(i: nat, j: nat)
    requires i < ExpectedCardCount && j < CardEntrySize
    ensures i * CardEntrySize + j < ExpectedCardCount * CardEntrySize
  {
  }

  /** Record `i`'s name-offset field lies in the record block, clear of the header byte and the pointer. */
  lemma RecordFieldClear(p: NamePlan, i: nat)
    requires Disjoint(p) && i < ExpectedCardCount
    ensures var pos := p.FirstCardAt() + i * CardEntrySize + 4;
      pos + 2 <= p.FirstCardAt() + ExpectedCardCount * CardEntrySize &&
      !(pos <= p.BlockCountAt() < pos + 2) && (pos + 2 <= p.PointerAt() || p.PointerAt() + 4 <= pos)
  {
    RecordInside(i, 5);
  }

  /** Record `i`'s last two bytes read back as its name offset, masked to 16 bits. */
  lemma PatchedRecordField(s: seq<Byte>, p: NamePlan, i: nat)
    requires WriteError(p, |s|).None? && |p.nameOffsets| >= ExpectedCardCount && Disjoint(p)
    requires i < ExpectedCardCount
    ensures var img, pos := PatchedImage(s, p), p.FirstCardAt() + i * CardEntrySize + 4;
      pos + 2 <= |img| && DecodeLe16(img[pos..pos + 2]) == p.nameOffsets[i] % 0x1_0000
  {
    RecordFieldClear(p, i);
    PatchedRecordBytes(s, p, i);
    Le16RoundTrip(p.nameOffsets[i]);
  }

  /** Record `i`'s last two bytes, clear of the header byte and the pointer, are `le16` of its name offset. */
  lemma PatchedRecordBytes(s: seq<Byte>, p: NamePlan, i: nat)
    requires WriteError(p, |s|).None? && |p.nameOffsets| >= ExpectedCardCount
    requires i < ExpectedCardCount
    requires var pos := p.FirstCardAt() + i * CardEntrySize + 4;
      !(pos <= p.BlockCountAt() < pos + 2) && (pos + 2 <= p.PointerAt() || p.PointerAt() + 4 <= pos)
    ensures var img, pos := PatchedImage(s, p), p.FirstCardAt() + i * CardEntrySize + 4;
      pos + 2 <= |img| && img[pos..pos + 2] == Le16(p.nameOffsets[i])
  {
    var pos := p.FirstCardAt() + i * CardEntrySize + 4;
    RecordInside(i, 5);
    PatchedKeeps(s, p, pos, pos + 2);
    RecordedField(s, p, i);
  }

  /** After the record step, record `i`'s last two bytes are `le16` of its name offset. */
  lemma RecordedField(s: seq<Byte>, p: NamePlan, i: nat)
    requires WriteError(p, |s|).None? && |p.nameOffsets| >= ExpectedCardCount
    requires i < ExpectedCardCount
    ensures var pos := p.FirstCardAt() + i * CardEntrySize + 4;
      pos + 2 <= |Recorded(s, p)| && Recorded(s, p)[pos..pos + 2] == Le16(p.nameOffsets[i])
  {
    RecordInside(i, 5);
    OffsetFieldAt(Injected(s, p.NamesAt(), p.blob), p.FirstCardAt(), p.nameOffsets, ExpectedCardCount, i);
  }

  /** Every record's last two bytes read back as its name offset, masked to 16 bits. */
  lemma PatchedRecords(s: seq<Byte>, p: NamePlan)
    requires WriteError(p, |s|).None? && |p.nameOffsets| >= ExpectedCardCount && Disjoint(p)
    ensures var img := PatchedImage(s, p);
      forall i | 0 <= i < ExpectedCardCount ::
        var pos := p.FirstCardAt() + i * CardEntrySize + 4;
        pos + 2 <= |img| && DecodeLe16(img[pos..pos + 2]) == p.nameOffsets[i] % 0x1_0000
  {
    forall i | 0 <= i < ExpectedCardCount {
      PatchedRecordField(s, p, i);
    }
  }

  /** Byte `k`, reached by no write, is as it was, or `FF` where the image grew. */
  lemma PatchedUntouched(s: seq<Byte>, p: NamePlan, k: nat)
    requires WriteError(p, |s|).None? && |p.nameOffsets| >= ExpectedCardCount
    requires k < p.PlannedEnd(|s|) && k != p.BlockCountAt() && !(p.PointerAt() <= k < p.PointerAt() + 4)
    requires !InNameField(p.FirstCardAt(), ExpectedCardCount, k) && !(p.NamesAt() <= k < p.NamesAt() + |p.blob|)
    ensures PatchedImage(s, p)[k] == if k < |s| then s[k] else 0xFF
  {
    InjectedLayout(s, p.NamesAt(), p.blob);
    PatchedByteAt(s, p, k);
    OffsetsWrittenKeeps(Injected(s, p.NamesAt(), p.blob), p.FirstCardAt(), p.nameOffsets, ExpectedCardCount, k);
  }

  /** Every byte no write reaches is as it was, or `FF` where the image grew. */
  lemma PatchedElsewhere(s: seq<Byte>, p: NamePlan)
    requires WriteError(p, |s|).None? && |p.nameOffsets| >= ExpectedCardCount
    ensures var img := PatchedImage(s, p);
      |img| == p.PlannedEnd(|s|) &&
      forall k | 0 <= k < |img| && k != p.BlockCountAt() && !(p.PointerAt() <= k < p.PointerAt() + 4) &&
        !InNameField(p.FirstCardAt(), ExpectedCardCount, k) && !(p.NamesAt() <= k < p.NamesAt() + |p.blob|) ::
        img[k] == if k < |s| then s[k] else 0xFF
  {
    var img := PatchedImage(s, p);
    PatchedByteAt(s, p, p.BlockCountAt());
    forall k | 0 <= k < |img| && k != p.BlockCountAt() && !(p.PointerAt() <= k < p.PointerAt() + 4) &&
        !InNameField(p.FirstCardAt(), ExpectedCardCount, k) && !(p.NamesAt() <= k < p.NamesAt() + |p.blob|)
      ensures img[k] == if k < |s| then s[k] else 0xFF
    {
      PatchedUntouched(s, p, k);
    }
  }

  /** The block count written is the one planned: the final size check never grows the image. */
  lemma FinalBlocksArePlanned(s: seq<Byte>, plan: Result<NamePlan>)
    requires plan.Ok? ==> |plan.value.nameOffsets| >= ExpectedCardCount
    requires NamePatchOutcome(s, plan, false).Ok?
    ensures var report := NamePatchOutcome(s, plan, false).value.0;
      report.finalBlocks == Some(report.plannedBlocks)
    ensures |NamePatchOutcome(s, plan, false).value.1| == plan.value.PlannedEnd(|s|)
  {
    var p := plan.value;
    PatchedByteAt(s, p, p.BlockCountAt());
  }

  /** A dry run reports the plan and leaves the image as it was. */
  lemma DryRunUnchanged(s: seq<Byte>, plan: Result<NamePlan>)
    requires plan.Ok? ==> |plan.value.nameOffsets| >= ExpectedCardCount
    ensures NamePatchOutcome(s, plan, true).Ok? <==> plan.Ok?
    ensures NamePatchOutcome(s, plan, true).Ok? ==>
      NamePatchOutcome(s, plan, true).value.1 == s &&
      NamePatchOutcome(s, plan, true).value.0.finalBlocks.None?
  {
  }

  /** The first half of `main`: base offset, manifest addresses, remap, names and table. */
  method PlanNamePatch(cardsJson: seq<(string, Json)>, language: string, choice: BaseChoice) returns (r: Result<NamePlan>)
    ensures r == PlanOf(cardsJson, language, choice)
  {
    var base := 0;
    match choice {
      case Raw => base := 0;
      case Mcs => base := 0x80;
      case Offset(t) =>
        if t != "" {
          var parsed := PyNumbers.ParseHexOrInt(t);
          if parsed.Err? { return Err(parsed.error); }
          base := parsed.value;
        }
      case Unspecified => base := 0;
    }
    assert BaseOffset(choice) == Ok(base);
    var indexRom := ManifestAddress(cardsJson, "card_index_offset");
    if indexRom.Err? { return Err(indexRom.error); }
    var nameRom := ManifestAddress(cardsJson, "card_name_offset");
    if nameRom.Err? { return Err(nameRom.error); }
    var lookupRom := ManifestAddress(cardsJson, "card_lookup_address");
    if lookupRom.Err? { return Err(lookupRom.error); }
    var remap := BuildRemapTable(cardsJson);
    if remap.Err? { return Err(remap.error); }
    var names := LoadLanguageNames(cardsJson, language);
    if names.Err? { return Err(names.error); }
    var built := BuildNameBlobAndOffsets(names.value, remap.value);
    if built.Err? { return Err(built.error); }
    r := Ok(NamePlan(base, indexRom.value, nameRom.value, lookupRom.value, built.value.0, built.value.1));
  }

  /** The writes of `main`, in its order, once the plan is known to fit. */
  method ApplyNamePlan(rom: RomBuffer, p: NamePlan) returns (finalBlocks: int)
    requires WriteError(p, |rom.bytes|).None? && |p.nameOffsets| >= ExpectedCardCount
    modifies rom
    ensures finalBlocks == ComputeBlockCount(Max(|PatchedBody(old(rom.bytes), p)| - p.base, 0))
    ensures rom.bytes == PatchedImage(old(rom.bytes), p)
  {
    ghost var s := rom.bytes;
    var plannedEndFile := p.PlannedEnd(|rom.bytes|);
    InjectBlob(rom, p.NamesAt(), p.blob);
    PatchCardIndexNameOffsets(rom, p.FirstCardAt(), p.nameOffsets);
    SetCardNamePointer(rom, p.PointerAt(), p.nameRom);
    if |rom.bytes| < plannedEndFile {
      rom.bytes := rom.bytes + Fill(0xFF, plannedEndFile - |rom.bytes|);
    }
    assert rom.bytes == PatchedBody(s, p);
    var effectiveSize := Max(|rom.bytes| - p.base, 0);
    finalBlocks := UpdateBlockCountHeader(rom, p.BlockCountAt(), effectiveSize);
  }

  /**
   * `main`: plan, report the planned block count, then (unless a dry run)
   * apply the writes. On any error the image is left as it was.
   */
  method RunNamePatch(rom: RomBuffer, cardsJson: seq<(string, Json)>, language: string, choice: BaseChoice, dryRun: bool)
    returns (r: Result<NamePatchReport>)
    modifies rom
    ensures var out := NamePatchOutcome(old(rom.bytes), PlanOf(cardsJson, language, choice), dryRun);
      r == (if out.Ok? then Ok(out.value.0) else Err(out.error)) &&
      rom.bytes == (if out.Ok? then out.value.1 else old(rom.bytes))
  {
    var plan := PlanNamePatch(cardsJson, language, choice);
    r := RunPlan(rom, plan, dryRun);
  }

  /** The second half of `main`, once the plan (or its error) is known. */
  method RunPlan(rom: RomBuffer, plan: Result<NamePlan>, dryRun: bool) returns (r: Result<NamePatchReport>)
    requires plan.Ok? ==> |plan.value.nameOffsets| >= ExpectedCardCount
    modifies rom
    ensures var out := NamePatchOutcome(old(rom.bytes), plan, dryRun);
      r == (if out.Ok? then Ok(out.value.0) else Err(out.error)) &&
      rom.bytes == (if out.Ok? then out.value.1 else old(rom.bytes))
  {
    if plan.Err? {
      return Err(plan.error);
    }
    var p := plan.value;
    var plannedEndFile := Max(|rom.bytes|, p.NamesAt() + |p.blob|);
    var plannedEffectiveSize := Max(plannedEndFile - p.base, 0);
    var plannedBlocks := ComputeBlockCount(plannedEffectiveSize);
    var report := NamePatchReport(plannedEffectiveSize, plannedBlocks, None);
    if dryRun {
      return Ok(report);
    }
    var failure := WriteError(p, |rom.bytes|);
    if failure.Some? {
      return Err(failure.value);
    }
    var finalBlocks := ApplyNamePlan(rom, p);
    r := Ok(report.(finalBlocks := Some(finalBlocks)));
  }
}
