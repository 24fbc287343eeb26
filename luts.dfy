/**
 * Modality and VOI lookup tables read from a LUT sequence
 * (src/imageLoader/dcmjs/metaData/getLUTs.js). Each sequence item carries
 * an LUT Descriptor (0028,3002) (entry count, first value mapped, bits per
 * entry) and LUT Data (0028,3006), as in DICOM PS3.3 sections C.11.1 and
 * C.11.2.
 */
module Luts {
  import opened Values
  import opened DicomUtils

  const LutDescriptorTag := "00283002"
  const LutDataTag := "00283006"

  /** The entry count used when the descriptor says 0. */
  const ZeroCountEntries := 65535

  datatype Lut = Lut(id: string, firstValueMapped: Val, numBitsPerEntry: Val, lut: seq<Val>)

  /** The entry count getLUT loops to: a stored 0 is replaced by 65535. */
  function EntryCount(stored: Val): Val
  {
    if IsNum(stored, 0) then Num(ZeroCountEntries) else stored
  }

  /**
   * The table getLUT builds from one sequence item, or the exception it
   * throws: an item that is not a dataset, a missing descriptor, or
   * missing data when there is at least one entry to read.
   */
  function LutOf(item: Val): (r: Result<Lut>)
    ensures r.Failure? ==> r.error == TypeError
    ensures r.Success? <==>
      item.Item? && First(item.d, LutDescriptorTag).Success?
      && !(LoopBound(EntryCount(First(item.d, LutDescriptorTag).value)) > 0
           && GetValue(item.d, LutDataTag, 0).Undef?)
    ensures r.Success? ==>
      item.Item?
      && First(item.d, LutDescriptorTag).Success?
      && r.value.id == "1"
      && |r.value.lut| == LoopBound(EntryCount(First(item.d, LutDescriptorTag).value))
      && r.value.firstValueMapped == At(GetValue(item.d, LutDescriptorTag, 0), 1).value
      && r.value.numBitsPerEntry == At(GetValue(item.d, LutDescriptorTag, 0), 2).value
      && forall i :: 0 <= i < |r.value.lut| ==>
           At(GetValue(item.d, LutDataTag, 0), i) == Success(r.value.lut[i])
  {
    if !item.Item? then Failure(TypeError)
    else
      var d := item.d;
      var stored :- First(d, LutDescriptorTag);
      var count := LoopBound(EntryCount(stored));
      var descriptor := GetValue(d, LutDescriptorTag, 0);
      var data := GetValue(d, LutDataTag, 0);
      if count > 0 && data == Undef then Failure(TypeError)
      else
        Success(Lut("1", At(descriptor, 1).value, At(descriptor, 2).value,
                    if count == 0 then [] else Elements(data, count)))
  }

  /** getLUT(pixelRepresentation, lutDicomDict). */
  method GetLUT(pixelRepresentation: Val, lutDicomDict: Val) returns (r: Result<Lut>)
    ensures r == LutOf(lutDicomDict)
  {
    if !lutDicomDict.Item? {
      return Failure(TypeError);
    }
    var d := lutDicomDict.d;
    var numLUTEntries :- First(d, LutDescriptorTag);
    if IsNum(numLUTEntries, 0) {
      numLUTEntries := Num(ZeroCountEntries);
    }
    var firstValueMapped;
    if IsNum(pixelRepresentation, 0) {
      firstValueMapped := At(GetValue(d, LutDescriptorTag, 0), 1).value;
    } else {
      firstValueMapped := At(GetValue(d, LutDescriptorTag, 0), 1).value;
    }
    var numBitsPerEntry := At(GetValue(d, LutDescriptorTag, 0), 2).value;
    var lut :- ReadEntries(pixelRepresentation, GetValue(d, LutDataTag, 0), LoopBound(numLUTEntries));
    return Success(Lut("1", firstValueMapped, numBitsPerEntry, lut));
  }

  /**
   * The entry loop of getLUT: `lutData[0]` to `lutData[count - 1]`, the
   * first read throwing when the data is `undefined`.
   */
  method ReadEntries(pixelRepresentation: Val, lutData: Val, count: nat) returns (r: Result<seq<Val>>)
    ensures r.Failure? <==> count > 0 && lutData.Undef?
    ensures r.Failure? ==> r.error == TypeError
    ensures r.Success? && count > 0 ==> r.value == Elements(lutData, count)
    ensures r.Success? && count == 0 ==> r.value == []
  {
    var lut: seq<Val> := [];
    for i := 0 to count
      invariant i > 0 ==> !lutData.Undef? && lut == Elements(lutData, i)
      invariant i == 0 ==> lut == []
    {
      var entry;
      if IsNum(pixelRepresentation, 0) {
        entry :- At(lutData, i);
      } else {
        entry :- At(lutData, i);
      }
      lut := lut + [entry];
    }
    return Success(lut);
  }

  /** The tables of the first `k` items, or the first exception among them. */
  function LutsOf(items: seq<Val>, k: nat): (r: Result<seq<Lut>>)
    requires k <= |items|
  {
    if k == 0 then Success([])
    else
      var previous :- LutsOf(items, k - 1);
      var lut :- LutOf(items[k - 1]);
      Success(previous + [lut])
  }

  /** Once a prefix fails, every longer prefix fails with the same exception. */
  lemma {:induction false} LutsOfFailurePersists(items: seq<Val>, j: nat, k: nat)
    requires j <= k <= |items|
    requires LutsOf(items, j).Failure?
    ensures LutsOf(items, k) == LutsOf(items, j)
  {
    if j < k {
      LutsOfFailurePersists(items, j, k - 1);
    }
  }

  /** The items of a sequence value, one per index below its length. */
  function SequenceItems(lutSequence: Val): (items: seq<Val>)
    requires lutSequence != Undef
    requires Length(lutSequence).value.Num?
    ensures |items| == Length(lutSequence).value.n
    ensures forall i :: 0 <= i < |items| ==> At(lutSequence, i) == Success(items[i])
  {
    Elements(lutSequence, Length(lutSequence).value.n)
  }

  /** getLUTs returns `undefined` for a falsy sequence or one whose length is falsy. */
  predicate NoSequence(lutSequence: Val)
  {
    !Truthy(lutSequence) || !Truthy(Length(lutSequence).value)
  }

  /** getLUTs(pixelRepresentation, lutSequence). */
  method GetLUTs(pixelRepresentation: Val, lutSequence: Val) returns (r: Result<Option<seq<Lut>>>)
    ensures NoSequence(lutSequence) ==> r == Success(None)
    ensures !NoSequence(lutSequence) ==>
      var items := SequenceItems(lutSequence);
      match LutsOf(items, |items|)
      case Success(luts) => r == Success(Some(luts))
      case Failure(e) => r == Failure(e)
  {
    if !Truthy(lutSequence) || !Truthy(Length(lutSequence).value) {
      return Success(None);
    }
    var length := Length(lutSequence).value;
    ghost var items := SequenceItems(lutSequence);
    var luts: seq<Lut> := [];
    for i := 0 to length.n
      invariant LutsOf(items, i) == Success(luts)
    {
      var lutDicomDict := At(lutSequence, i).value;
      // a table object is always truthy, so every one is kept
      var lut := GetLUT(pixelRepresentation, lutDicomDict);
      LutsOfStep(items, i, luts, lut);
      if lut.Failure? {
        return Failure(lut.error);
      }
      luts := luts + [lut.value];
    }
    return Success(Some(luts));
  }

  /** One more item either appends its table or ends the whole sequence with its exception. */
  lemma LutsOfStep(items: seq<Val>, i: nat, luts: seq<Lut>, lut: Result<Lut>)
    requires i < |items| && LutsOf(items, i) == Success(luts) && lut == LutOf(items[i])
    ensures lut.Success? ==> LutsOf(items, i + 1) == Success(luts + [lut.value])
    ensures lut.Failure? ==> LutsOf(items, |items|) == Failure(lut.error)
  {
    if lut.Failure? {
      LutsOfFailurePersists(items, i + 1, |items|);
    }
  }

  /** One table per sequence item, in item order. */
  lemma {:induction false} LutsOfItems(items: seq<Val>, k: nat)
    requires k <= |items|
    requires LutsOf(items, k).Success?
    ensures |LutsOf(items, k).value| == k
    ensures forall i :: 0 <= i < k ==> LutOf(items[i]) == Success(LutsOf(items, k).value[i])
  {
    if k > 0 {
      var previous := LutsOf(items, k - 1);
      var last := LutOf(items[k - 1]);
      assert previous.Success? && last.Success?;
      var luts := LutsOf(items, k).value;
      assert luts == previous.value + [last.value];
      LutsOfItems(items, k - 1);
      forall i | 0 <= i < k
        ensures LutOf(items[i]) == Success(luts[i])
      {
        if i < k - 1 {
          assert luts[i] == previous.value[i];
        }
      }
    }
  }

  /** A descriptor count of 0 yields 65535 entries, one short of the 2^16 the standard means. */
  lemma ZeroCountGives65535(item: Val)
    requires item.Item? && First(item.d, LutDescriptorTag).Success?
    requires IsNum(First(item.d, LutDescriptorTag).value, 0)
    requires LutOf(item).Success?
    ensures |LutOf(item).value.lut| == 65535
  {
  }
}
