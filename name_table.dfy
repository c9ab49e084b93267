/**
 * The layout of the relocated card-name table shared by both name patchers:
 * the marker `FA 21`, then every encoded name followed by one `00`, and the
 * offset each card record stores for its name.
 */
module NameTable {
  import opened Common

  /** `FA 21`, the start-of-text marker at the head of the table. */
  const Marker: seq<Byte> := [0xFA, 0x21]

  /** The encoded names in order, each followed by one `00` terminator. */
  function Join(encs: seq<seq<Byte>>): seq<Byte>
  {
    if encs == [] then [] else Join(encs[..|encs| - 1]) + encs[|encs| - 1] + [0]
  }

  /** The table before padding: the marker, then the terminated names. */
  function Body(encs: seq<seq<Byte>>): seq<Byte>
  {
    Marker + Join(encs)
  }

  /** The sum of `len(enc) + 1` over the names. */
  function TotalLength(encs: seq<seq<Byte>>): nat
  {
    if encs == [] then 0 else TotalLength(encs[..|encs| - 1]) + |encs[|encs| - 1]| + 1
  }

  lemma {:induction false} JoinLength(encs: seq<seq<Byte>>)
    ensures |Join(encs)| == TotalLength(encs)
  {
    if encs != [] {
      JoinLength(encs[..|encs| - 1]);
    }
  }

  /** Where name `i` begins in the table: the table's length just before the name is appended. */
  function NameStart(encs: seq<seq<Byte>>, i: nat): nat
    requires i <= |encs|
  {
    |Marker| + |Join(encs[..i])|
  }

  /** The offset record `i` stores: 0 for the first card (it points at the marker), else its name's start. */
  function RecordOffset(encs: seq<seq<Byte>>, i: nat): nat
    requires i <= |encs|
  {
    if i == 0 then 0 else NameStart(encs, i)
  }

  /** Each name starts one past the previous name's terminator: offsets are `2 + sum(len(enc_j) + 1 for j < i)`. */
  lemma {:induction false} NameStartStep(encs: seq<seq<Byte>>, i: nat)
    requires i < |encs|
    ensures NameStart(encs, 0) == 2
    ensures NameStart(encs, i + 1) == NameStart(encs, i) + |encs[i]| + 1
    ensures NameStart(encs, i) == 2 + TotalLength(encs[..i])
  {
    assert encs[..i + 1][..i] == encs[..i];
    assert encs[..0] == [];
    JoinLength(encs[..i]);
  }

  /** Joining a list is joining its prefix, then its suffix. */
  lemma {:induction false} JoinSplit(encs: seq<seq<Byte>>, i: nat)
    requires i <= |encs|
    ensures Join(encs) == Join(encs[..i]) + Join(encs[i..])
    decreases |encs|
  {
    if i < |encs| {
      var n := |encs|;
      JoinSplit(encs[..n - 1], i);
      assert encs[..n - 1][..i] == encs[..i];
      assert encs[i..][..|encs[i..]| - 1] == encs[..n - 1][i..];
    } else {
      assert encs[i..] == [];
      assert encs[..i] == encs;
    }
  }

  /** The first name of a list comes first in its join. */
  lemma {:induction false} JoinFront(encs: seq<seq<Byte>>)
    requires encs != []
    ensures Join(encs) == encs[0] + [0] + Join(encs[1..])
  {
    JoinSplit(encs, 1);
    assert encs[..1] == [encs[0]];
    assert encs[..1][..0] == [];
  }

  /** Appending a name leaves the starts of the earlier names where they were. */
  lemma NameStartAppend(encs: seq<seq<Byte>>, e: seq<Byte>)
    ensures forall j | 0 <= j <= |encs| :: NameStart(encs + [e], j) == NameStart(encs, j)
    ensures Body(encs + [e]) == Body(encs) + e + [0]
    ensures NameStart(encs + [e], |encs|) == |Body(encs)|
  {
    forall j | 0 <= j <= |encs| ensures (encs + [e])[..j] == encs[..j] {
    }
    assert (encs + [e])[..|encs|] == encs;
    assert encs[..|encs|] == encs;
  }

  /** Name `i` occupies the table from its start offset and is followed by exactly one `00`. */
  lemma {:induction false} NameInTable(encs: seq<seq<Byte>>, i: nat)
    requires i < |encs|
    ensures NameStart(encs, i) + |encs[i]| < |Body(encs)|
    ensures Body(encs)[NameStart(encs, i)..NameStart(encs, i) + |encs[i]|] == encs[i]
    ensures Body(encs)[NameStart(encs, i) + |encs[i]|] == 0
  {
    JoinSplit(encs, i);
    JoinFront(encs[i..]);
    assert encs[i..][0] == encs[i];
    var s := NameStart(encs, i);
    assert Body(encs) == Marker + Join(encs[..i]) + encs[i] + [0] + Join(encs[i..][1..]);
    assert |Marker + Join(encs[..i])| == s;
  }

  /** Every stored offset points inside the unpadded table. */
  lemma {:induction false} OffsetsInside(encs: seq<seq<Byte>>, i: nat)
    requires i < |encs|
    ensures RecordOffset(encs, i) <= |Body(encs)| - 1
  {
    NameInTable(encs, i);
  }

  // ------------------------------------------------------------- reading back

  /** The index of the first `00` in `s`. */
  function FirstZero(s: seq<Byte>): (z: nat)
    requires 0 in s
    ensures z < |s| && s[z] == 0 && 0 !in s[..z]
  {
    if s[0] == 0 then 0 else 1 + FirstZero(s[1..])
  }

  /** Splits a run of terminated names back into the names (anything after the last `00` is dropped). */
  function Scan(s: seq<Byte>): seq<seq<Byte>>
    decreases |s|
  {
    if 0 !in s then [] else [s[..FirstZero(s)]] + Scan(s[FirstZero(s) + 1..])
  }

  /** Reading the table back: when no encoded name contains `00`, scanning the joined names gives the names. */
  lemma {:induction false} ScanJoin(encs: seq<seq<Byte>>)
    requires forall i | 0 <= i < |encs| :: 0 !in encs[i]
    ensures Scan(Join(encs)) == encs
    decreases |encs|
  {
    if encs != [] {
      JoinFront(encs);
      var s := Join(encs);
      var e := encs[0];
      assert s == e + [0] + Join(encs[1..]);
      assert s[|e|] == 0 && s[..|e|] == e;
      var z := FirstZero(s);
      assert z == |e|;
      assert s[z + 1..] == Join(encs[1..]);
      ScanJoin(encs[1..]);
    } else {
      assert Join(encs) == [];
    }
  }

  // ------------------------------------------------------------------ padding

  const BlockSize: nat := 0x2000

  /** `(-n) % 0x2000`: the fill needed to reach the next block boundary. */
  function PadLength(n: nat): (p: nat)
    ensures p < BlockSize && (n + p) % BlockSize == 0
  {
    var m := -(n as int);
    var p := m % BlockSize;
    DivModUnique(n + p, BlockSize, -(m / BlockSize), 0);
    p
  }

  /** `s` padded with `fill` to a multiple of the 8 KiB block size. */
  function PadToBlock(s: seq<Byte>, fill: Byte): (r: seq<Byte>)
    ensures |r| % BlockSize == 0 && |s| <= |r| < |s| + BlockSize
    ensures r[..|s|] == s
    ensures forall k | |s| <= k < |r| :: r[k] == fill
  {
    s + Fill(fill, PadLength(|s|))
  }
}
