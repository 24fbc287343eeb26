/**
 * The Overlay Plane module (src/imageLoader/dcmjs/metaData/getOverlayPlaneModule.js).
 *
 * DICOM PS3.3 section C.9.2 places up to sixteen overlays in the even
 * repeating groups 6000 to 601E; Overlay Data (60xx,3000) packs one bit
 * per pixel, least significant bit first, and Overlay Origin (60xx,0050)
 * gives the 1-based row and column of the overlay's first pixel
 * (section C.9.2.1).
 */
module OverlayPlane {
  import opened Values
  import opened DicomUtils

  /** The last overlay group offset the loader visits. */
  const LastGroupOffset := 0x1e

  /** The number of group offsets 0x00, 0x02, ..., 0x1e. */
  const GroupCount := 16

  datatype Overlay = Overlay(
    rows: Val,
    columns: Val,
    overlayType: Val,
    x: Val,
    y: Val,
    pixelData: seq<int>,
    description: Val,
    overlayLabel: Val,
    roiArea: Val,
    roiMean: Val,
    roiStandardDeviation: Val)

  // ---------------------------------------------------------------------
  // Group keys

  function HexDigit(n: nat): char
    requires n < 16
  {
    if n < 10 then ('0' as int + n) as char else ('a' as int + n - 10) as char
  }

  /** `n.toString(16)`: lower-case hexadecimal without leading zeros. */
  function Hex(n: nat): (s: string)
    ensures |s| >= 1
    ensures n < 16 ==> |s| == 1
    ensures 16 <= n < 256 ==> |s| == 2
  {
    if n < 16 then [HexDigit(n)] else Hex(n / 16) + [HexDigit(n % 16)]
  }

  /** The group string as the loader builds it: "60" + hex, or "600" + hex when that is 4 long. */
  function GroupPrefix(offset: nat): string
  {
    var groupStr := "60" + Hex(offset);
    if |groupStr| == 4 then "600" + Hex(offset) else groupStr
  }

  /**
   * The prefixes are 3 characters long below offset 0x10 and 5 from 0x10
   * on, so a key built from one is 7 or 9 characters long, never the 8 of
   * a tag.
   */
  lemma GroupPrefixLength(offset: nat)
    requires offset <= LastGroupOffset
    ensures offset < 16 ==> |GroupPrefix(offset)| == 3
    ensures offset >= 16 ==> |GroupPrefix(offset)| == 5
    ensures |GroupPrefix(offset) + "3000"| != 8
  {
  }

  lemma GroupPrefixExamples()
    ensures GroupPrefix(0x00) == "600"
    ensures GroupPrefix(0x0e) == "60e"
    ensures GroupPrefix(0x10) == "60010"
  {
    assert Hex(0x10) == "10" by {
      assert Hex(1) == "1" && Hex(0) == "0";
    }
  }

  function UpperHexDigit(n: nat): char
    requires n < 16
  {
    if n < 10 then ('0' as int + n) as char else ('A' as int + n - 10) as char
  }

  /** The evidently intended group string: "60" and two upper-case hexadecimal digits. */
  function CorrectedGroupPrefix(offset: nat): (s: string)
    requires offset < 256
    ensures |s| == 4 && s[..2] == "60"
  {
    "60" + [UpperHexDigit(offset / 16), UpperHexDigit(offset % 16)]
  }

  /** Corrected keys are 8-character tags, one per overlay group, with no two groups sharing one. */
  lemma CorrectedGroupPrefixIsTag(offset: nat, other: nat)
    requires offset <= LastGroupOffset && other <= LastGroupOffset && offset != other
    ensures |CorrectedGroupPrefix(offset) + "3000"| == 8
    ensures CorrectedGroupPrefix(offset) != CorrectedGroupPrefix(other)
  {
    var s := CorrectedGroupPrefix(offset);
    var t := CorrectedGroupPrefix(other);
    if offset / 16 == other / 16 {
      assert offset % 16 != other % 16;
      assert s[3] != t[3];
    } else {
      assert s[2] != t[2];
    }
  }

  lemma CorrectedGroupPrefixExamples()
    ensures CorrectedGroupPrefix(0x00) == "6000"
    ensures CorrectedGroupPrefix(0x1e) == "601E"
  {
  }

  // ---------------------------------------------------------------------
  // Bit unpacking

  /** `byte >> k` for a non-negative byte: k halvings. */
  function ShiftRight(byte: nat, k: nat): nat
  {
    if k == 0 then byte else ShiftRight(byte / 2, k - 1)
  }

  /** `(byte >> k) & 1` */
  function Bit(byte: Byte, k: nat): (b: int)
    ensures b == 0 || b == 1
  {
    ShiftRight(byte, k) % 2
  }

  /** The lowest `m` bits of `x`, least significant first. */
  function LowBits(x: nat, m: nat): (bits: seq<int>)
    ensures |bits| == m
  {
    if m == 0 then [] else [x % 2] + LowBits(x / 2, m - 1)
  }

  /** Entry k of the low bits is `(x >> k) & 1`. */
  lemma {:induction false} LowBitsAt(x: nat, m: nat, k: nat)
    requires k < m
    ensures LowBits(x, m)[k] == ShiftRight(x, k) % 2
  {
    if k > 0 {
      LowBitsAt(x / 2, m - 1, k - 1);
    }
  }

  /** One entry per bit, least significant bit of each byte first. */
  function UnpackBits(bytes: seq<Byte>): (bits: seq<int>)
    ensures |bits| == 8 * |bytes|
  {
    if |bytes| == 0 then []
    else UnpackBits(bytes[..|bytes| - 1]) + LowBits(bytes[|bytes| - 1], 8)
  }

  /** The entries before the last byte's are those of the shorter sequence. */
  lemma UnpackBitsPrefix(bytes: seq<Byte>, j: nat)
    requires 0 < |bytes| && j < 8 * (|bytes| - 1)
    ensures UnpackBits(bytes)[j] == UnpackBits(bytes[..|bytes| - 1])[j]
  {
    var n := |bytes| - 1;
    assert UnpackBits(bytes) == UnpackBits(bytes[..n]) + LowBits(bytes[n], 8);
  }

  /** The last eight entries are the bits of the last byte. */
  lemma UnpackBitsLast(bytes: seq<Byte>, k: nat)
    requires 0 < |bytes| && k < 8
    ensures UnpackBits(bytes)[8 * (|bytes| - 1) + k] == Bit(bytes[|bytes| - 1], k)
  {
    var n := |bytes| - 1;
    assert UnpackBits(bytes) == UnpackBits(bytes[..n]) + LowBits(bytes[n], 8);
    LowBitsAt(bytes[n], 8, k);
  }

  /** Entry 8i+k is bit k of byte i. */
  lemma {:induction false} UnpackBitsAt(bytes: seq<Byte>, i: nat, k: nat)
    requires i < |bytes| && k < 8
    ensures i * 8 + k < 8 * |bytes|
    ensures UnpackBits(bytes)[i * 8 + k] == Bit(bytes[i], k)
  {
    var n := |bytes| - 1;
    if i < n {
      UnpackBitsPrefix(bytes, i * 8 + k);
      UnpackBitsAt(bytes[..n], i, k);
    } else {
      UnpackBitsLast(bytes, k);
    }
  }

  /** Every unpacked entry is 0 or 1. */
  lemma UnpackBitsAreBits(bytes: seq<Byte>)
    ensures IsBits(UnpackBits(bytes))
  {
    forall j | 0 <= j < |UnpackBits(bytes)|
      ensures UnpackBits(bytes)[j] == 0 || UnpackBits(bytes)[j] == 1
    {
      UnpackBitsAt(bytes, j / 8, j % 8);
    }
  }

  /** The outer loop of the loader: one byte of Overlay Data at a time. */
  method UnpackOverlayData(data: Element) returns (pixelData: seq<int>)
    ensures pixelData == UnpackBits(Uint8Items(data.items))
  {
    var n := |data.items|;
    var bits := new int[8 * n];
    ghost var bytes := Uint8Items(data.items);
    for i := 0 to n
      invariant forall j :: 0 <= j < 8 * i ==> bits[j] == Bit(bytes[j / 8], j % 8)
    {
      var byteAsInt := Uint8Items(data.items)[i];
      UnpackByteInto(bits, i, byteAsInt);
      forall j | 8 * i <= j < 8 * i + 8
        ensures bits[j] == Bit(bytes[j / 8], j % 8)
      {
        assert j / 8 == i && j % 8 == j - 8 * i;
      }
    }
    pixelData := bits[..];
    UnpackBitsByIndex(bytes, pixelData);
  }

  /** A sequence whose entry j is bit j % 8 of byte j / 8 is the unpacked sequence. */
  lemma UnpackBitsByIndex(bytes: seq<Byte>, bits: seq<int>)
    requires |bits| == 8 * |bytes|
    requires forall j :: 0 <= j < |bits| ==> bits[j] == Bit(bytes[j / 8], j % 8)
    ensures bits == UnpackBits(bytes)
  {
    forall j | 0 <= j < |bits|
      ensures bits[j] == UnpackBits(bytes)[j]
    {
      UnpackBitsAtIndex(bytes, j);
    }
  }

  /** Entry j is bit j % 8 of byte j / 8. */
  lemma UnpackBitsAtIndex(bytes: seq<Byte>, j: nat)
    requires j < 8 * |bytes|
    ensures UnpackBits(bytes)[j] == Bit(bytes[j / 8], j % 8)
  {
    UnpackBitsAt(bytes, j / 8, j % 8);
  }

  /** The inner loop of the loader: bit k of byte i goes to `pixelData[i * 8 + k]`. */
  method UnpackByteInto(bits: array<int>, i: nat, byteAsInt: Byte)
    requires 8 * i + 8 <= bits.Length
    modifies bits
    ensures forall j :: 0 <= j < bits.Length && !(8 * i <= j < 8 * i + 8) ==> bits[j] == old(bits[j])
    ensures forall j :: 8 * i <= j < 8 * i + 8 ==> bits[j] == Bit(byteAsInt, j - 8 * i)
  {
    for k := 0 to 8
      invariant forall j :: 0 <= j < bits.Length && !(8 * i <= j < 8 * i + k) ==> bits[j] == old(bits[j])
      invariant forall j :: 8 * i <= j < 8 * i + k ==> bits[j] == Bit(byteAsInt, j - 8 * i)
    {
      bits[i * 8 + k] := Bit(byteAsInt, k);
    }
  }

  /** Packing bits, least significant first, into one number. */
  function PackByte(bits: seq<int>): int
  {
    if |bits| == 0 then 0 else bits[0] + 2 * PackByte(bits[1..])
  }

  predicate IsBits(bits: seq<int>)
  {
    forall j :: 0 <= j < |bits| ==> bits[j] == 0 || bits[j] == 1
  }

  lemma {:induction false} PackByteRange(bits: seq<int>)
    requires IsBits(bits)
    ensures 0 <= PackByte(bits) < Pow2(|bits|)
  {
    if |bits| > 0 {
      PackByteRange(bits[1..]);
    }
  }

  /** Taking the low bits of a packed sequence gives the sequence back. */
  lemma {:induction false} LowBitsOfPack(bits: seq<int>)
    requires IsBits(bits)
    ensures PackByte(bits) >= 0
    ensures LowBits(PackByte(bits), |bits|) == bits
  {
    PackByteRange(bits);
    if |bits| > 0 {
      PackByteRange(bits[1..]);
      LowBitsOfPack(bits[1..]);
      var x := PackByte(bits);
      assert x % 2 == bits[0] && x / 2 == PackByte(bits[1..]);
      assert LowBits(x, |bits|) == [bits[0]] + LowBits(PackByte(bits[1..]), |bits| - 1);
    }
  }

  /** Packing the low `m` bits of `x` gives `x` back when it has no higher bits. */
  lemma {:induction false} PackLowBits(x: nat, m: nat)
    requires x < Pow2(m)
    ensures PackByte(LowBits(x, m)) == x
  {
    if m > 0 {
      PackLowBits(x / 2, m - 1);
      assert LowBits(x, m)[1..] == LowBits(x / 2, m - 1);
    }
  }

  /** Unpacking inverts least-significant-bit-first packing. */
  lemma UnpackInvertsPacking(bits: seq<int>)
    requires |bits| == 8 && IsBits(bits)
    ensures 0 <= PackByte(bits) < 256
    ensures UnpackBits([PackByte(bits) as Byte]) == bits
  {
    PackByteRange(bits);
    assert Pow2(8) == 256;
    LowBitsOfPack(bits);
    var bytes := [PackByte(bits) as Byte];
    assert UnpackBits(bytes) == UnpackBits(bytes[..0]) + LowBits(bytes[0], 8);
  }

  /** Packing the unpacked bits of a byte gives the byte back. */
  lemma PackingInvertsUnpacking(byte: Byte)
    ensures PackByte(UnpackBits([byte])) == byte
  {
    assert Pow2(8) == 256;
    var bytes := [byte];
    assert bytes[..0] == [];
    assert UnpackBits(bytes) == LowBits(byte, 8);
    PackLowBits(byte, 8);
  }

  // ---------------------------------------------------------------------
  // The module

  /** `value - 1` in JavaScript: numbers decrease by one, `undefined` gives NaN. */
  function MinusOne(v: Val): (r: Val)
    ensures v.Num? ==> r == Num(v.n - 1)
    ensures v.Undef? ==> r == NaN
  {
    match v
    case Num(n) => Num(n - 1)
    case Dec(x) => Dec(x - 1.0)
    case _ => NaN
  }

  /** The overlay record for a group, given its unpacked bits. */
  function OverlayRecord(d: Dict, groupStr: string, pixelData: seq<int>): (o: Overlay)
    ensures o.pixelData == pixelData
    ensures o.x == MinusOne(GetValue(d, groupStr + "0050", 1))
    ensures o.y == MinusOne(GetValue(d, groupStr + "0050", 0))
  {
    Overlay(
      GetValue(d, groupStr + "0010", 0),
      GetValue(d, groupStr + "0011", 0),
      GetValue(d, groupStr + "0040", 0),
      MinusOne(GetValue(d, groupStr + "0050", 1)),
      MinusOne(GetValue(d, groupStr + "0050", 0)),
      pixelData,
      GetValue(d, groupStr + "0022", 0),
      GetValue(d, groupStr + "1500", 0),
      GetValue(d, groupStr + "1301", 0),
      GetValue(d, groupStr + "1302", 0),
      GetValue(d, groupStr + "1303", 0))
  }

  /** The overlay of a group whose Overlay Data element exists: its record with the unpacked bits. */
  function ReadOverlay(d: Dict, groupStr: string): (o: Overlay)
    requires groupStr + "3000" in d.dict
    ensures o.pixelData == UnpackBits(Uint8Items(d.dict[groupStr + "3000"].items))
  {
    OverlayRecord(d, groupStr, UnpackBits(Uint8Items(d.dict[groupStr + "3000"].items)))
  }

  /** The overlay of one group, if its Overlay Data element exists. */
  function OverlayAt(d: Dict, groupStr: string): (o: Option<Overlay>)
    ensures o.Some? <==> groupStr + "3000" in d.dict
    ensures o.Some? ==> o.value == ReadOverlay(d, groupStr)
  {
    if groupStr + "3000" !in d.dict then None else Some(ReadOverlay(d, groupStr))
  }

  /** How group strings are built: as the loader writes them, or as evidently intended. */
  datatype KeyScheme = AsWritten | Corrected

  function Prefix(scheme: KeyScheme, offset: nat): string
  {
    match scheme
    case AsWritten => GroupPrefix(offset)
    case Corrected => if offset < 256 then CorrectedGroupPrefix(offset) else ""
  }

  /** The group strings of the first `n` offsets, in ascending order, whose Overlay Data element exists. */
  function FoundGroups(d: Dict, scheme: KeyScheme, n: nat): (groups: seq<string>)
    requires n <= GroupCount
    ensures |groups| <= n
    ensures forall i :: 0 <= i < |groups| ==> groups[i] + "3000" in d.dict
  {
    if n == 0 then []
    else
      var groupStr := Prefix(scheme, 2 * (n - 1));
      FoundGroups(d, scheme, n - 1) + if groupStr + "3000" in d.dict then [groupStr] else []
  }

  /** The overlays read from the given groups, one each, in order. */
  function Overlays(d: Dict, groups: seq<string>): (overlays: seq<Overlay>)
    requires forall i :: 0 <= i < |groups| ==> groups[i] + "3000" in d.dict
    ensures |overlays| == |groups|
  {
    seq(|groups|, i requires 0 <= i < |groups| => ReadOverlay(d, groups[i]))
  }

  /** Reading one more group appends its overlay. */
  lemma OverlaysAppend(d: Dict, groups: seq<string>, groupStr: string)
    requires forall i :: 0 <= i < |groups| ==> groups[i] + "3000" in d.dict
    requires groupStr + "3000" in d.dict
    ensures Overlays(d, groups + [groupStr]) == Overlays(d, groups) + [ReadOverlay(d, groupStr)]
  {
    assert (groups + [groupStr])[..|groups|] == groups;
  }

  /** The overlays of the first `n` group offsets, with group strings built by `scheme`. */
  function OverlaysOf(d: Dict, scheme: KeyScheme, n: nat): seq<Overlay>
    requires n <= GroupCount
  {
    Overlays(d, FoundGroups(d, scheme, n))
  }

  /** One more group offset adds that group's overlay when its Overlay Data exists, and nothing otherwise. */
  lemma OverlaysOfStep(d: Dict, scheme: KeyScheme, n: nat)
    requires n < GroupCount
    ensures OverlaysOf(d, scheme, n + 1)
            == OverlaysOf(d, scheme, n)
               + match OverlayAt(d, Prefix(scheme, 2 * n)) case Some(o) => [o] case None => []
  {
    var groupStr := Prefix(scheme, 2 * n);
    var found := FoundGroups(d, scheme, n);
    if groupStr + "3000" in d.dict {
      assert FoundGroups(d, scheme, n + 1) == found + [groupStr];
      OverlaysAppend(d, found, groupStr);
    } else {
      assert FoundGroups(d, scheme, n + 1) == found;
    }
  }

  /** One pass of the loop body: the group string, the skip, the bit unpacking and the record. */
  method ReadOverlayGroup(d: Dict, overlayGroup: nat) returns (overlay: Option<Overlay>)
    ensures overlay == OverlayAt(d, Prefix(AsWritten, overlayGroup))
  {
    var groupStr := "60" + Hex(overlayGroup);
    if |groupStr| == 4 {
      groupStr := "600" + Hex(overlayGroup);
    }
    var key := groupStr + "3000";
    if key !in d.dict {
      return None;
    }
    var pixelData := UnpackOverlayData(d.dict[key]);
    return Some(OverlayRecord(d, groupStr, pixelData));
  }

  /** getOverlayPlaneModule(dicomDict). */
  method GetOverlayPlaneModule(d: Dict) returns (overlays: seq<Overlay>)
    ensures overlays == OverlaysOf(d, AsWritten, GroupCount)
  {
    overlays := [];
    var overlayGroup := 0x00;
    ghost var visited := 0;
    while overlayGroup <= LastGroupOffset
      invariant 0 <= visited <= GroupCount && overlayGroup == 2 * visited
      invariant overlays == OverlaysOf(d, AsWritten, visited)
    {
      var overlay := ReadOverlayGroup(d, overlayGroup);
      OverlaysOfStep(d, AsWritten, visited);
      if overlay.Some? {
        overlays := overlays + [overlay.value];
      }
      overlayGroup := overlayGroup + 0x02;
      visited := visited + 1;
    }
  }

  /** At most one overlay per group offset, every pixel 0 or 1. */
  lemma OverlaysBounded(d: Dict, scheme: KeyScheme, n: nat)
    requires n <= GroupCount
    ensures |OverlaysOf(d, scheme, n)| <= n
    ensures forall i :: 0 <= i < |OverlaysOf(d, scheme, n)| ==> IsBits(OverlaysOf(d, scheme, n)[i].pixelData)
  {
    var groups := FoundGroups(d, scheme, n);
    forall i | 0 <= i < |OverlaysOf(d, scheme, n)|
      ensures IsBits(OverlaysOf(d, scheme, n)[i].pixelData)
    {
      UnpackBitsAreBits(Uint8Items(d.dict[groups[i] + "3000"].items));
    }
  }

  /** With tags of 8 characters, the keys as written never match: no group is found and there are no overlays. */
  lemma {:induction false} AsWrittenFindsNothing(d: Dict, n: nat)
    requires n <= GroupCount
    requires forall key :: key in d.dict ==> |key| == 8
    ensures FoundGroups(d, AsWritten, n) == []
    ensures OverlaysOf(d, AsWritten, n) == []
  {
    if n > 0 {
      AsWrittenFindsNothing(d, n - 1);
      GroupPrefixLength(2 * (n - 1));
    }
  }

  /** With every corrected key present, group g is found at offset 2g. */
  lemma {:induction false} CorrectedFindsGroups(d: Dict, n: nat)
    requires n <= GroupCount
    requires forall g :: 0 <= g < n ==> CorrectedGroupPrefix(2 * g) + "3000" in d.dict
    ensures |FoundGroups(d, Corrected, n)| == n
    ensures forall g :: 0 <= g < n ==> FoundGroups(d, Corrected, n)[g] == CorrectedGroupPrefix(2 * g)
  {
    if n > 0 {
      CorrectedFindsGroups(d, n - 1);
      var offset := 2 * (n - 1);
      var previous := FoundGroups(d, Corrected, n - 1);
      var groups := FoundGroups(d, Corrected, n);
      assert CorrectedGroupPrefix(offset) + "3000" in d.dict;
      assert Prefix(Corrected, offset) == CorrectedGroupPrefix(offset);
      assert groups == previous + [CorrectedGroupPrefix(offset)];
      forall g | 0 <= g < n
        ensures groups[g] == CorrectedGroupPrefix(2 * g)
      {
        if g < n - 1 {
          assert groups[g] == previous[g];
        }
      }
    }
  }

  /** With the corrected keys, every group whose Overlay Data exists yields its overlay, in group order. */
  lemma CorrectedFindsOverlays(d: Dict, n: nat)
    requires n <= GroupCount
    requires forall g :: 0 <= g < n ==> CorrectedGroupPrefix(2 * g) + "3000" in d.dict
    ensures |OverlaysOf(d, Corrected, n)| == n
    ensures forall g :: 0 <= g < n ==> OverlaysOf(d, Corrected, n)[g] == ReadOverlay(d, CorrectedGroupPrefix(2 * g))
  {
    CorrectedFindsGroups(d, n);
  }
}
