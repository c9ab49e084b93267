/**
 * Shared vocabulary of the patch tools: bytes, the error outcomes of the
 * Python tools, Python's slice read and slice assignment on a bytearray,
 * the little-endian encoders, and the mutable image buffer.
 */
module Common {

  /** One element of a Python `bytes`/`bytearray`. */
  type Byte = x: int | 0 <= x < 256

  datatype Option<+T> = None | Some(value: T)

  /** The exceptions the tools raise (or the `sys.exit` calls they make), without their message text. */
  datatype Error =
    | InvalidLiteral(text: string)         // ValueError from int(text, base)
    | NotANumber                           // TypeError from int() on null, a list or an object
    | MissingKey(key: string)              // KeyError
    | NotAnObject                          // AttributeError/TypeError: a JSON value of the wrong kind
    | NotAString                           // AttributeError: .strip() on a value that is not a string
    | Unhashable                           // TypeError: a list or an object used as a dict key
    | NotText                              // TypeError: iterating or joining a name that is not text
    | MissingCardName(number: int)         // loadLanguageNames: no name for a card number
    | UnmappedCharacters(counts: map<char, nat>)  // strict encoding: every unmapped character with its count
    | ByteOutOfRange(value: int)           // ValueError from bytearray.append
    | IndexOutOfRange(index: int)          // IndexError
    | UnsupportedValue                     // TypeError from parse_value_to_bytes
    | PatchOutOfRange(start: int, length: nat, size: nat)  // apply_patches: write past the end of the image
    | BadCount                             // a sequence asset without a positive count
    | UnknownKind                          // an asset kind other than bitmap or sequence
    | WrongTileSize(length: nat)           // mirror8x8TileBytes on a tile that is not 8 bytes
    | NameCountMismatch(expected: nat, got: nat)
    | BlobTooLarge(length: nat)
    | RecordOffsetOutOfRange(card: nat, offset: int)
    | TooManyBlocks(blocks: int)
    | NegativeOffset                       // a negative file position (see README, Left out)

  datatype Result<+T> = Ok(value: T) | Err(error: Error) {
    predicate IsFailure() { Err? }
    function PropagateFailure<U>(): Result<U> requires Err? { Err(error) }
    function Extract(): T requires Ok? { value }
  }

  function Min(a: int, b: int): int { if a <= b then a else b }
  function Max(a: int, b: int): int { if a >= b then a else b }

  /**
   * `s[lo:hi] = d` in Python for non-negative bounds: the clamped range is
   * replaced by `d`, so a range that runs past the end grows the sequence and a
   * range that starts past the end appends `d`.
   */
  function SliceAssign<T>(s: seq<T>, lo: nat, hi: nat, d: seq<T>): seq<T>
  {
    var a := Min(lo, |s|);
    var b := Max(a, Min(hi, |s|));
    s[..a] + d + s[b..]
  }

  /** What `s[lo:hi] = d` keeps and what it puts where. */
  lemma SliceAssignShape<T>(s: seq<T>, lo: nat, hi: nat, d: seq<T>)
    ensures var r := SliceAssign(s, lo, hi, d);
      lo <= |s| ==> (|r| == |s| - Max(0, Min(hi, |s|) - lo) + |d| &&
        r[..lo] == s[..lo] && r[lo..lo + |d|] == d && r[lo + |d|..] == s[Max(lo, Min(hi, |s|))..])
    ensures lo > |s| ==> SliceAssign(s, lo, hi, d) == s + d
  {
    var r := SliceAssign(s, lo, hi, d);
    if lo <= |s| {
      assert r[..lo] == s[..lo];
      assert r[lo..lo + |d|] == d;
    }
  }

  /** `max(0, min(i, n))` after adding `n` to a negative `i`: how Python reads a slice bound. */
  function PyBound(i: int, n: nat): (j: nat)
    ensures j <= n
    ensures 0 <= i <= n ==> j == i
  {
    var j := if i < 0 then i + n else i;
    if j < 0 then 0 else if j > n then n else j
  }

  /** `s[lo:hi]` in Python for any bounds, negative ones counting from the end. */
  function PySlice<T>(s: seq<T>, lo: int, hi: int): (r: seq<T>)
    ensures 0 <= lo <= hi <= |s| ==> r == s[lo..hi]
    ensures |r| <= |s|
  {
    var a := PyBound(lo, |s|);
    var b := PyBound(hi, |s|);
    if b <= a then [] else s[a..b]
  }

  /** A slice assignment of exactly the length of an in-range slice changes those positions and nothing else. */
  lemma SliceAssignInPlace<T>(s: seq<T>, lo: nat, d: seq<T>)
    requires lo + |d| <= |s|
    ensures |SliceAssign(s, lo, lo + |d|, d)| == |s|
    ensures forall k :: 0 <= k < |s| ==>
      SliceAssign(s, lo, lo + |d|, d)[k] == if lo <= k < lo + |d| then d[k - lo] else s[k]
  {
    var r := SliceAssign(s, lo, lo + |d|, d);
    assert r == s[..lo] + d + s[lo + |d|..];
  }

  /** One byte of an in-range slice assignment of exactly the slice's length. */
  lemma SliceAssignAt<T>(s: seq<T>, lo: nat, d: seq<T>, k: nat)
    requires lo + |d| <= |s| && k < |s|
    ensures |SliceAssign(s, lo, lo + |d|, d)| == |s|
    ensures SliceAssign(s, lo, lo + |d|, d)[k] == if lo <= k < lo + |d| then d[k - lo] else s[k]
  {
    SliceAssignInPlace(s, lo, d);
  }

  /** `n` copies of `x` (Python's `bytes([x]) * n`). */
  function Fill<T>(x: T, n: nat): (r: seq<T>)
    ensures |r| == n && forall k :: 0 <= k < n ==> r[k] == x
  {
    seq(n, _ => x)
  }

  /** Pads `s` with `fill` up to `n` elements, or truncates it to its first `n`. */
  function FitTo<T>(s: seq<T>, n: nat, fill: T): (r: seq<T>)
    ensures |r| == n
    ensures forall k :: 0 <= k < n ==> r[k] == if k < |s| then s[k] else fill
  {
    if |s| < n then s + Fill(fill, n - |s|) else s[..n]
  }

  /** Extends `s` with `fill` up to length `n` when it is shorter (bytearray.extend). */
  function Grow<T>(s: seq<T>, n: nat, fill: T): (r: seq<T>)
    ensures |r| == Max(|s|, n)
    ensures forall k :: 0 <= k < |r| ==> r[k] == if k < |s| then s[k] else fill
  {
    if |s| < n then s + Fill(fill, n - |s|) else s
  }

  /** `le16(n)`: the low two bytes of `n`, least significant first (`& 0xFF` of `n` and `n >> 8`). */
  function Le16(n: int): seq<Byte>
  {
    [n % 256, (n / 256) % 256]
  }

  /** `le32(n)`: the low four bytes of `n`, least significant first. */
  function Le32(n: int): seq<Byte>
  {
    [n % 256, (n / 0x100) % 256, (n / 0x1_0000) % 256, (n / 0x100_0000) % 256]
  }

  function DecodeLe16(b: seq<Byte>): nat
    requires |b| == 2
  {
    b[0] as int + 0x100 * (b[1] as int)
  }

  function DecodeLe32(b: seq<Byte>): nat
    requires |b| == 4
  {
    b[0] as int + 0x100 * (b[1] as int) + 0x1_0000 * (b[2] as int) + 0x100_0000 * (b[3] as int)
  }

  /** Quotient and remainder are unique (Dafny's `/` and `%` floor for a positive divisor, as Python's do). */
  lemma DivModUnique(n: int, m: int, q: int, r: int)
    requires m > 0 && 0 <= r < m && n == q * m + r
    ensures n / m == q && n % m == r
  {
    var q', r' := n / m, n % m;
    var k := q' - q;
    assert k * m == r - r' by {
      assert q' * m + r' == q * m + r;
      assert k * m == q' * m - q * m;
    }
  }

  /** Dividing by `d` then by `e` is dividing by `d * e`; the remainder splits into digit and lower part. */
  lemma DivModSplit(n: int, d: int, e: int)
    requires d > 0 && e > 0
    ensures n / (d * e) == (n / d) / e
    ensures n % (d * e) == n % d + d * ((n / d) % e)
  {
    var q, r := n / d, n % d;
    var q2, r2 := q / e, q % e;
    MulRegroup(q2, e, r2, d);
    MulBelow(r2, e, d);
    DivModUnique(n, d * e, q2, d * r2 + r);
  }

  lemma MulRegroup(a: int, b: int, c: int, d: int)
    ensures (a * b + c) * d == a * (d * b) + d * c
  {
  }

  lemma MulBelow(r: int, e: int, d: int)
    requires 0 <= r < e && d > 0
    ensures 0 <= d * r <= d * e - d
  {
    var g := e - 1 - r;
    assert d * g >= 0 && d * r >= 0;
    assert d * e - d - d * r == d * g;
  }

  /** `le16` round-trips: its two bytes decode to `n` modulo 2^16, whatever the sign of `n`. */
  lemma {:induction false} Le16RoundTrip(n: int)
    ensures |Le16(n)| == 2 && DecodeLe16(Le16(n)) == n % 0x1_0000
  {
    DivModSplit(n, 256, 256);
  }

  /** For a 16-bit value the round trip is exact. */
  lemma Le16Decodes(n: int)
    requires 0 <= n <= 0xFFFF
    ensures |Le16(n)| == 2 && DecodeLe16(Le16(n)) == n
  {
    Le16RoundTrip(n);
  }

  /** `le32` round-trips: its four bytes decode to `n` modulo 2^32, whatever the sign of `n`. */
  lemma {:induction false} Le32RoundTrip(n: int)
    ensures |Le32(n)| == 4 && DecodeLe32(Le32(n)) == n % 0x1_0000_0000
  {
    DivModSplit(n, 0x100, 0x100);
    DivModSplit(n, 0x1_0000, 0x100);
    DivModSplit(n, 0x100_0000, 0x100);
  }

  /** The command line's mutually exclusive base-offset options: `--raw`, `--mcs`, `-o/--offset`, or none. */
  datatype BaseChoice = Raw | Mcs | Offset(text: string) | Unspecified

  /** The byte buffer a tool loads, mutates in place and writes back (Python's `bytearray`). */
  class RomBuffer {
    var bytes: seq<Byte>

    constructor (init: seq<Byte>)
      ensures bytes == init
    {
      bytes := init;
    }
  }
}
