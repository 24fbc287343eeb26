/**
 * The Image Pixel module record built from a dataset
 * (src/imageLoader/dcmjs/metaData/getImagePixelModule.js), including the
 * palette colour lookup tables of DICOM PS3.3 section C.7.6.3.1.5 and the
 * corrections the loader applies to their descriptors.
 */
module ImagePixel {
  import opened Values
  import opened DicomUtils

  const SamplesPerPixelTag := "00280002"
  const PhotometricInterpretationTag := "00280004"
  const RowsTag := "00280010"
  const ColumnsTag := "00280011"
  const BitsAllocatedTag := "00280100"
  const BitsStoredTag := "00280101"
  const HighBitTag := "00280102"
  const PixelRepresentationTag := "00280103"
  const PlanarConfigurationTag := "00280006"
  const PixelAspectRatioTag := "00280034"
  const SmallestPixelValueTag := "00280106"
  const LargestPixelValueTag := "00280107"

  const RedDescriptorTag := "00281101"
  const GreenDescriptorTag := "00281102"
  const BlueDescriptorTag := "00281103"
  const RedDataTag := "00281201"
  const GreenDataTag := "00281202"
  const BlueDataTag := "00281203"

  /** A descriptor entry count of 0 stands for 2^16 entries. */
  const FullPaletteEntries := 65536

  const PaletteColor := Str("PALETTE COLOR")

  // ---------------------------------------------------------------------
  // Descriptors and table data

  /** getLutDescriptor: the first three values of a six-valued descriptor. */
  function LutDescriptor(d: Dict, tag: string): (r: Option<seq<Val>>)
    ensures r.Some? <==> Truthy(GetValue(d, tag, 0)) && Length(GetValue(d, tag, 0)) == Success(Num(6))
    ensures r.Some? ==> |r.value| == 3
    ensures r.Some? ==> forall i :: 0 <= i < 3 ==> At(GetValue(d, tag, 0), i) == Success(r.value[i])
  {
    var data := GetValue(d, tag, 0);
    if !Truthy(data) || Length(data) != Success(Num(6)) then None
    else Some([At(data, 0).value, At(data, 1).value, At(data, 2).value])
  }

  /** A descriptor stored as an array of values: present iff it has exactly six. */
  lemma LutDescriptorOfArray(d: Dict, tag: string)
    requires GetValue(d, tag, 0).Arr?
    ensures var items := GetValue(d, tag, 0).items;
      LutDescriptor(d, tag) == if |items| == 6 then Some(items[..3]) else None
  {
    var items := GetValue(d, tag, 0).items;
    if |items| == 6 {
      assert Truthy(GetValue(d, tag, 0));
      var r := LutDescriptor(d, tag).value;
      assert r[0] == items[0] && r[1] == items[1] && r[2] == items[2];
      assert r == items[..3];
    } else {
      assert Length(GetValue(d, tag, 0)) == Success(Num(|items|));
    }
  }

  /** Byte `i` of `new Uint8Array(data)`, `undefined` past its end. */
  function ByteAt(view: seq<Byte>, i: nat): Val
  {
    if i < |view| then Num(view[i]) else Undef
  }

  /** Bytes 0 to count - 1 of a byte view, `undefined` past its end. */
  function ViewEntries(view: seq<Byte>, count: nat): (entries: seq<Val>)
    ensures |entries| == count
    ensures forall i :: 0 <= i < count ==> entries[i] == ByteAt(view, i)
  {
    if count == 0 then [] else ViewEntries(view, count - 1) + [ByteAt(view, count - 1)]
  }

  /**
   * getLutData: the stored data itself for 16-bit entries; otherwise one
   * entry per descriptor count, entry i being byte i of the data.
   */
  function LutData(data: Val, descriptor: seq<Val>): (r: Result<Val>)
    requires |descriptor| == 3
    ensures IsNum(descriptor[2], 16) ==> r == Success(data)
    ensures !IsNum(descriptor[2], 16) && r.Success? ==>
      r.value.Arr? && |r.value.items| == LoopBound(descriptor[0])
      && forall i :: 0 <= i < |r.value.items| ==>
           Uint8View(data).Success? && r.value.items[i] == ByteAt(Uint8View(data).value, i)
    ensures r.Failure? ==> r.error == RangeError && LoopBound(descriptor[0]) > 0 && Uint8View(data).Failure?
  {
    if IsNum(descriptor[2], 16) then Success(data)
    else if LoopBound(descriptor[0]) == 0 then Success(Arr([]))
    else
      var view :- Uint8View(data);
      Success(Arr(ViewEntries(view, LoopBound(descriptor[0]))))
  }

  /** getLutData(dicomDict, tag, lutDescriptor), filling the table entry by entry. */
  method GetLutData(d: Dict, tag: string, descriptor: array?<Val>) returns (r: Result<Val>)
    requires descriptor != null ==> descriptor.Length == 3
    ensures descriptor == null ==> r == Failure(TypeError)
    ensures descriptor != null ==> r == LutData(GetValue(d, tag, 0), descriptor[..])
  {
    if descriptor == null {
      return Failure(TypeError);
    }
    var lutData := GetValue(d, tag, 0);
    assert descriptor[..][0] == descriptor[0] && descriptor[..][2] == descriptor[2];
    if IsNum(descriptor[2], 16) {
      return Success(lutData);
    }
    var lut: seq<Val> := [];
    var count := LoopBound(descriptor[0]);
    for i := 0 to count
      invariant |lut| == i
      invariant i > 0 ==> Uint8View(lutData).Success?
      invariant forall j :: 0 <= j < i ==> lut[j] == ByteAt(Uint8View(lutData).value, j)
    {
      var view := Uint8View(lutData);
      if view.Failure? {
        return Failure(view.error);
      }
      lut := lut + [ByteAt(view.value, i)];
    }
    if count > 0 {
      assert lut == ViewEntries(Uint8View(lutData).value, count);
    }
    r := Success(Arr(lut));
  }

  // ---------------------------------------------------------------------
  // Palette colour lookup tables

  /** The three descriptors and the three tables once the loader has corrected them. */
  datatype Palette = Palette(
    red: seq<Val>, green: seq<Val>, blue: seq<Val>,
    redData: Val, greenData: Val, blueData: Val)

  /** Indexing a descriptor that is `undefined` throws. */
  function Present(descriptor: Option<seq<Val>>): (r: Result<seq<Val>>)
    ensures r.Success? <==> descriptor.Some?
    ensures r.Failure? ==> r.error == TypeError
  {
    match descriptor
    case None => Failure(TypeError)
    case Some(values) => Success(values)
  }

  /** The three descriptors as read: red is known to exist, green and blue may be `undefined`. */
  datatype Descriptors = Descriptors(red: seq<Val>, green: Option<seq<Val>>, blue: Option<seq<Val>>)
  {
    predicate WellFormed()
    {
      |red| == 3
      && (green.Some? ==> |green.value| == 3)
      && (blue.Some? ==> |blue.value| == 3)
    }
  }

  /**
   * Writes `v` at position `i` of red, green and blue, in that order; the
   * write into an `undefined` green or blue descriptor throws.
   */
  function SetAll(ds: Descriptors, i: nat, v: Val): (r: Result<Descriptors>)
    requires ds.WellFormed() && i < 3
    ensures r.Success? <==> ds.green.Some? && ds.blue.Some?
    ensures r.Failure? ==> r.error == TypeError
    ensures r.Success? ==>
      r.value.WellFormed()
      && r.value == Descriptors(ds.red[i := v], Some(ds.green.value[i := v]), Some(ds.blue.value[i := v]))
  {
    if ds.green.None? || ds.blue.None? then Failure(TypeError)
    else Success(Descriptors(ds.red[i := v], Some(ds.green.value[i := v]), Some(ds.blue.value[i := v])))
  }

  /** A zero red entry count stands for 65536 entries in all three descriptors. */
  function CorrectEntryCount(ds: Descriptors): (r: Result<Descriptors>)
    requires ds.WellFormed()
    ensures r.Success? ==> r.value.WellFormed()
  {
    if IsNum(ds.red[0], 0) then SetAll(ds, 0, Num(FullPaletteEntries)) else Success(ds)
  }

  /** A red bits-per-entry value other than `bits` is replaced by `bits` in all three. */
  function CorrectBitsPerEntry(ds: Descriptors, bits: int): (r: Result<Descriptors>)
    requires ds.WellFormed()
    ensures r.Success? ==> r.value.WellFormed()
  {
    if !IsNum(ds.red[2], bits) then SetAll(ds, 2, Num(bits)) else Success(ds)
  }

  /** 8 bits per entry when the red data has one value per entry, else 16. */
  function LutBitsAllocated(dataLength: Val, entries: Val): int
  {
    if StrictEq(dataLength, entries) then 8 else 16
  }

  /** The descriptors as stored in the dataset, red being required. */
  function ReadDescriptors(d: Dict): (r: Result<Descriptors>)
    ensures r.Success? <==> LutDescriptor(d, RedDescriptorTag).Some?
    ensures r.Failure? ==> r.error == TypeError
    ensures r.Success? ==>
      r.value.WellFormed()
      && r.value == Descriptors(LutDescriptor(d, RedDescriptorTag).value,
                                LutDescriptor(d, GreenDescriptorTag), LutDescriptor(d, BlueDescriptorTag))
  {
    var red :- Present(LutDescriptor(d, RedDescriptorTag));
    Success(Descriptors(red, LutDescriptor(d, GreenDescriptorTag), LutDescriptor(d, BlueDescriptorTag)))
  }

  /** The descriptors once both corrections are applied, or the exception raised on the way. */
  function CorrectedDescriptors(d: Dict): (r: Result<Descriptors>)
    ensures r.Success? ==> r.value.WellFormed()
  {
    var read :- ReadDescriptors(d);
    var counted :- CorrectEntryCount(read);
    var length :- Length(GetValue(d, RedDataTag, 0));
    CorrectBitsPerEntry(counted, LutBitsAllocated(length, counted.red[0]))
  }

  /**
   * The three tables read against the corrected descriptors, red, green
   * then blue; the first failing read, or indexing an `undefined`
   * descriptor, throws.
   */
  function PaletteTables(d: Dict, ds: Descriptors): (r: Result<Palette>)
    requires ds.WellFormed()
    ensures r.Success? <==>
      ds.green.Some? && ds.blue.Some?
      && LutData(GetValue(d, RedDataTag, 0), ds.red).Success?
      && LutData(GetValue(d, GreenDataTag, 0), ds.green.value).Success?
      && LutData(GetValue(d, BlueDataTag, 0), ds.blue.value).Success?
    ensures r.Success? ==>
      r.value.red == ds.red && r.value.green == ds.green.value && r.value.blue == ds.blue.value
      && r.value.redData == LutData(GetValue(d, RedDataTag, 0), ds.red).value
      && r.value.greenData == LutData(GetValue(d, GreenDataTag, 0), ds.green.value).value
      && r.value.blueData == LutData(GetValue(d, BlueDataTag, 0), ds.blue.value).value
  {
    var redData :- LutData(GetValue(d, RedDataTag, 0), ds.red);
    var green :- Present(ds.green);
    var greenData :- LutData(GetValue(d, GreenDataTag, 0), green);
    var blue :- Present(ds.blue);
    var blueData :- LutData(GetValue(d, BlueDataTag, 0), blue);
    Success(Palette(ds.red, green, blue, redData, greenData, blueData))
  }

  /** What populatePaletteColorLut computes, or the exception it throws. */
  function PaletteColorLut(d: Dict): (r: Result<Palette>)
    ensures r.Success? ==> |r.value.red| == 3 && |r.value.green| == 3 && |r.value.blue| == 3
  {
    var corrected :- CorrectedDescriptors(d);
    PaletteTables(d, corrected)
  }

  /** A zero red entry count becomes 65536 in all three descriptors; any other count is kept. */
  lemma PaletteEntryCount(d: Dict)
    requires PaletteColorLut(d).Success?
    ensures var p := PaletteColorLut(d).value;
      var red := LutDescriptor(d, RedDescriptorTag).value;
      var green := LutDescriptor(d, GreenDescriptorTag).value;
      var blue := LutDescriptor(d, BlueDescriptorTag).value;
      LutDescriptor(d, GreenDescriptorTag).Some? && LutDescriptor(d, BlueDescriptorTag).Some?
      && (IsNum(red[0], 0) ==>
            p.red[0] == p.green[0] == p.blue[0] == Num(FullPaletteEntries))
      && (!IsNum(red[0], 0) ==>
            p.red[0] == red[0] && p.green[0] == green[0] && p.blue[0] == blue[0])
      && p.red[1] == red[1] && p.green[1] == green[1] && p.blue[1] == blue[1]
  {
  }

  /**
   * The bits per entry: 8 iff the red data length equals the (corrected)
   * red entry count, else 16. When red disagrees, all three descriptors
   * take it; otherwise none of them changes.
   */
  lemma PaletteBitsPerEntry(d: Dict)
    requires PaletteColorLut(d).Success?
    ensures var p := PaletteColorLut(d).value;
      var red := LutDescriptor(d, RedDescriptorTag).value;
      var green := LutDescriptor(d, GreenDescriptorTag).value;
      var blue := LutDescriptor(d, BlueDescriptorTag).value;
      var length := Length(GetValue(d, RedDataTag, 0));
      var bits := if StrictEq(length.value, p.red[0]) then 8 else 16;
      LutDescriptor(d, GreenDescriptorTag).Some? && LutDescriptor(d, BlueDescriptorTag).Some?
      && length.Success?
      && IsNum(p.red[2], bits)
      && (IsNum(red[2], bits) ==> p.red[2] == red[2] && p.green[2] == green[2] && p.blue[2] == blue[2])
      && (!IsNum(red[2], bits) ==> p.red[2] == p.green[2] == p.blue[2] == Num(bits))
  {
    var read := ReadDescriptors(d).value;
    var counted := CorrectEntryCount(read).value;
    var length := Length(GetValue(d, RedDataTag, 0)).value;
    var corrected := CorrectedDescriptors(d).value;
    assert corrected == CorrectBitsPerEntry(counted, LutBitsAllocated(length, counted.red[0])).value;
    var p := PaletteColorLut(d).value;
    assert p.red == corrected.red && p.green == corrected.green.value && p.blue == corrected.blue.value;
    assert counted.red[2] == read.red[2] && counted.green.value[2] == read.green.value[2]
      && counted.blue.value[2] == read.blue.value[2];
  }

  /** The red table is the stored data for 16-bit entries, else one byte per entry. */
  lemma PaletteRedData(d: Dict)
    requires PaletteColorLut(d).Success?
    ensures var p := PaletteColorLut(d).value;
      var data := GetValue(d, RedDataTag, 0);
      (IsNum(p.red[2], 16) ==> p.redData == data)
      && (IsNum(p.red[2], 8) ==>
            p.redData.Arr? && |p.redData.items| == LoopBound(p.red[0])
            && forall i :: 0 <= i < |p.redData.items| ==> p.redData.items[i] == ByteAt(Uint8View(data).value, i))
  {
  }

  /**
   * Each table is getLutData of its own data attribute against its own
   * corrected descriptor: the stored data for 16-bit entries, else one
   * byte per entry.
   */
  lemma PaletteData(d: Dict)
    requires PaletteColorLut(d).Success?
    ensures var p := PaletteColorLut(d).value;
      p.redData == LutData(GetValue(d, RedDataTag, 0), p.red).value
      && p.greenData == LutData(GetValue(d, GreenDataTag, 0), p.green).value
      && p.blueData == LutData(GetValue(d, BlueDataTag, 0), p.blue).value
      && (IsNum(p.green[2], 16) ==> p.greenData == GetValue(d, GreenDataTag, 0))
      && (IsNum(p.blue[2], 16) ==> p.blueData == GetValue(d, BlueDataTag, 0))
  {
  }

  // ---------------------------------------------------------------------
  // The module record

  /** The ten attributes copied verbatim into the record. */
  datatype BaseFields = BaseFields(
    samplesPerPixel: Val,
    photometricInterpretation: Val,
    rows: Val,
    columns: Val,
    bitsAllocated: Val,
    bitsStored: Val,
    highBit: Val,
    pixelRepresentation: Val,
    planarConfiguration: Val,
    pixelAspectRatio: Val)

  /** The ten reads of getImagePixelModule, in order; the first `undefined` throws. */
  function ReadBaseFields(d: Dict): (r: Result<BaseFields>)
    ensures r.Success? <==>
      First(d, SamplesPerPixelTag).Success? && First(d, PhotometricInterpretationTag).Success?
      && First(d, RowsTag).Success? && First(d, ColumnsTag).Success?
      && First(d, BitsAllocatedTag).Success? && First(d, BitsStoredTag).Success?
      && First(d, HighBitTag).Success? && First(d, PixelRepresentationTag).Success?
      && First(d, PlanarConfigurationTag).Success? && First(d, PixelAspectRatioTag).Success?
    ensures r.Failure? ==> r.error == TypeError
    ensures r.Success? ==>
      r.value.samplesPerPixel == First(d, SamplesPerPixelTag).value
      && r.value.photometricInterpretation == First(d, PhotometricInterpretationTag).value
      && r.value.rows == First(d, RowsTag).value
      && r.value.columns == First(d, ColumnsTag).value
      && r.value.bitsAllocated == First(d, BitsAllocatedTag).value
      && r.value.bitsStored == First(d, BitsStoredTag).value
      && r.value.highBit == First(d, HighBitTag).value
      && r.value.pixelRepresentation == First(d, PixelRepresentationTag).value
      && r.value.planarConfiguration == First(d, PlanarConfigurationTag).value
      && r.value.pixelAspectRatio == First(d, PixelAspectRatioTag).value
  {
    var samplesPerPixel :- First(d, SamplesPerPixelTag);
    var photometricInterpretation :- First(d, PhotometricInterpretationTag);
    var rows :- First(d, RowsTag);
    var columns :- First(d, ColumnsTag);
    var bitsAllocated :- First(d, BitsAllocatedTag);
    var bitsStored :- First(d, BitsStoredTag);
    var highBit :- First(d, HighBitTag);
    var pixelRepresentation :- First(d, PixelRepresentationTag);
    var planarConfiguration :- First(d, PlanarConfigurationTag);
    var pixelAspectRatio :- First(d, PixelAspectRatioTag);
    Success(BaseFields(samplesPerPixel, photometricInterpretation, rows, columns, bitsAllocated,
                       bitsStored, highBit, pixelRepresentation, planarConfiguration, pixelAspectRatio))
  }

  /** Palette fields are filled only for PALETTE COLOR with a red descriptor present. */
  predicate WantsPalette(base: BaseFields, d: Dict)
  {
    StrictEq(base.photometricInterpretation, PaletteColor) && Truthy(GetValue(d, RedDescriptorTag, 0))
  }

  /** A freshly allocated descriptor array, or null for `undefined`. */
  method NewDescriptor(descriptor: Option<seq<Val>>) returns (a: array?<Val>)
    ensures descriptor.None? ==> a == null
    ensures descriptor.Some? ==> a != null && fresh(a) && a[..] == descriptor.value
  {
    if descriptor.None? {
      return null;
    }
    var values := descriptor.value;
    a := new Val[|values|](i requires 0 <= i < |values| => values[i]);
  }

  class ImagePixelModule {
    const samplesPerPixel: Val
    const photometricInterpretation: Val
    const rows: Val
    const columns: Val
    const bitsAllocated: Val
    const bitsStored: Val
    const highBit: Val
    const pixelRepresentation: Val
    const planarConfiguration: Val
    const pixelAspectRatio: Val
    var smallestPixelValue: Val
    var largestPixelValue: Val
    var redPaletteColorLookupTableDescriptor: array?<Val>
    var greenPaletteColorLookupTableDescriptor: array?<Val>
    var bluePaletteColorLookupTableDescriptor: array?<Val>
    var redPaletteColorLookupTableData: Val
    var greenPaletteColorLookupTableData: Val
    var bluePaletteColorLookupTableData: Val

    /** The ten attributes read once, when the record is built; nothing writes them afterwards. */
    function Base(): BaseFields
    {
      BaseFields(samplesPerPixel, photometricInterpretation, rows, columns, bitsAllocated,
                 bitsStored, highBit, pixelRepresentation, planarConfiguration, pixelAspectRatio)
    }

    /** No palette field has been written. */
    predicate NoPalette()
      reads this
    {
      redPaletteColorLookupTableDescriptor == null
      && greenPaletteColorLookupTableDescriptor == null
      && bluePaletteColorLookupTableDescriptor == null
      && redPaletteColorLookupTableData == Undef
      && greenPaletteColorLookupTableData == Undef
      && bluePaletteColorLookupTableData == Undef
    }

    /** The palette fields hold `p`. */
    predicate HoldsPalette(p: Palette)
      reads this, redPaletteColorLookupTableDescriptor, greenPaletteColorLookupTableDescriptor,
            bluePaletteColorLookupTableDescriptor
    {
      redPaletteColorLookupTableDescriptor != null
      && greenPaletteColorLookupTableDescriptor != null
      && bluePaletteColorLookupTableDescriptor != null
      && redPaletteColorLookupTableDescriptor[..] == p.red
      && greenPaletteColorLookupTableDescriptor[..] == p.green
      && bluePaletteColorLookupTableDescriptor[..] == p.blue
      && redPaletteColorLookupTableData == p.redData
      && greenPaletteColorLookupTableData == p.greenData
      && bluePaletteColorLookupTableData == p.blueData
    }

    /** The object literal of getImagePixelModule: the ten base fields and nothing else. */
    constructor (base: BaseFields)
      ensures Base() == base
      ensures smallestPixelValue == Undef && largestPixelValue == Undef
      ensures NoPalette()
    {
      samplesPerPixel := base.samplesPerPixel;
      photometricInterpretation := base.photometricInterpretation;
      rows := base.rows;
      columns := base.columns;
      bitsAllocated := base.bitsAllocated;
      bitsStored := base.bitsStored;
      highBit := base.highBit;
      pixelRepresentation := base.pixelRepresentation;
      planarConfiguration := base.planarConfiguration;
      pixelAspectRatio := base.pixelAspectRatio;
      smallestPixelValue := Undef;
      largestPixelValue := Undef;
      redPaletteColorLookupTableDescriptor := null;
      greenPaletteColorLookupTableDescriptor := null;
      bluePaletteColorLookupTableDescriptor := null;
      redPaletteColorLookupTableData := Undef;
      greenPaletteColorLookupTableData := Undef;
      bluePaletteColorLookupTableData := Undef;
    }

    /**
     * populateSmallestLargestPixelValues: both values come from (0028,0106)
     * and (0028,0107) whatever the pixel representation.
     */
    method PopulateSmallestLargestPixelValues(d: Dict) returns (r: Result<()>)
      modifies this
      ensures redPaletteColorLookupTableDescriptor == old(redPaletteColorLookupTableDescriptor)
      ensures greenPaletteColorLookupTableDescriptor == old(greenPaletteColorLookupTableDescriptor)
      ensures bluePaletteColorLookupTableDescriptor == old(bluePaletteColorLookupTableDescriptor)
      ensures redPaletteColorLookupTableData == old(redPaletteColorLookupTableData)
      ensures greenPaletteColorLookupTableData == old(greenPaletteColorLookupTableData)
      ensures bluePaletteColorLookupTableData == old(bluePaletteColorLookupTableData)
      ensures r.Success? <==>
        First(d, PixelRepresentationTag).Success? && First(d, SmallestPixelValueTag).Success?
        && First(d, LargestPixelValueTag).Success?
      ensures r.Failure? ==> r.error == TypeError
      ensures r.Success? ==>
        smallestPixelValue == First(d, SmallestPixelValueTag).value
        && largestPixelValue == First(d, LargestPixelValueTag).value
    {
      var pixelRepresentation :- First(d, PixelRepresentationTag);
      if IsNum(pixelRepresentation, 0) {
        var smallest :- First(d, SmallestPixelValueTag);
        smallestPixelValue := smallest;
        var largest :- First(d, LargestPixelValueTag);
        largestPixelValue := largest;
      } else {
        var smallest :- First(d, SmallestPixelValueTag);
        smallestPixelValue := smallest;
        var largest :- First(d, LargestPixelValueTag);
        largestPixelValue := largest;
      }
      return Success(());
    }

    /** populatePaletteColorLut: reads the descriptors and tables and corrects the descriptors in place. */
    method PopulatePaletteColorLut(d: Dict) returns (r: Result<()>)
      modifies this
      ensures smallestPixelValue == old(smallestPixelValue) && largestPixelValue == old(largestPixelValue)
      ensures r.Success? <==> PaletteColorLut(d).Success?
      ensures r.Failure? ==> r.error == PaletteColorLut(d).error
      ensures r.Success? ==>
        HoldsPalette(PaletteColorLut(d).value)
        && fresh(redPaletteColorLookupTableDescriptor)
        && fresh(greenPaletteColorLookupTableDescriptor)
        && fresh(bluePaletteColorLookupTableDescriptor)
    {
      var red, green, blue, palette := ReadPalette(d);
      if palette.Failure? {
        redPaletteColorLookupTableDescriptor := red;
        greenPaletteColorLookupTableDescriptor := green;
        bluePaletteColorLookupTableDescriptor := blue;
        return Failure(palette.error);
      }
      StorePalette(red, green, blue, palette.value);
      return Success(());
    }

    /** The six palette field writes, descriptors first. */
    method StorePalette(red: array?<Val>, green: array?<Val>, blue: array?<Val>, p: Palette)
      requires red != null && green != null && blue != null
      requires red[..] == p.red && green[..] == p.green && blue[..] == p.blue
      modifies this
      ensures smallestPixelValue == old(smallestPixelValue) && largestPixelValue == old(largestPixelValue)
      ensures redPaletteColorLookupTableDescriptor == red
      ensures greenPaletteColorLookupTableDescriptor == green
      ensures bluePaletteColorLookupTableDescriptor == blue
      ensures HoldsPalette(p)
    {
      redPaletteColorLookupTableDescriptor := red;
      greenPaletteColorLookupTableDescriptor := green;
      bluePaletteColorLookupTableDescriptor := blue;
      redPaletteColorLookupTableData := p.redData;
      greenPaletteColorLookupTableData := p.greenData;
      bluePaletteColorLookupTableData := p.blueData;
    }
  }

  /**
   * The body of populatePaletteColorLut on local arrays: reads the three
   * descriptors, corrects them in place and reads the three tables.
   */
  method ReadPalette(d: Dict) returns (red: array?<Val>, green: array?<Val>, blue: array?<Val>, r: Result<Palette>)
    ensures r == PaletteColorLut(d)
    ensures r.Success? ==>
      red != null && green != null && blue != null
      && fresh(red) && fresh(green) && fresh(blue)
      && red[..] == r.value.red && green[..] == r.value.green && blue[..] == r.value.blue
  {
    red := NewDescriptor(LutDescriptor(d, RedDescriptorTag));
    green := NewDescriptor(LutDescriptor(d, GreenDescriptorTag));
    blue := NewDescriptor(LutDescriptor(d, BlueDescriptorTag));
    if red == null {
      return red, green, blue, Failure(TypeError);
    }
    assert ReadDescriptors(d) == Success(DescriptorsOf(red, green, blue));
    var corrected := CorrectDescriptors(d, red, green, blue);
    if corrected.Failure? {
      return red, green, blue, Failure(corrected.error);
    }
    ghost var ds := DescriptorsOf(red, green, blue);
    assert CorrectedDescriptors(d) == Success(ds);
    r := ReadTables(d, red, green, blue);
  }

  /** Descriptor arrays read as a value; a null array is `undefined`. */
  function DescriptorsOf(red: array<Val>, green: array?<Val>, blue: array?<Val>): Descriptors
    reads red, green, blue
  {
    Descriptors(red[..], if green == null then None else Some(green[..]), if blue == null then None else Some(blue[..]))
  }

  /** The in-place corrections of populatePaletteColorLut, on freshly read descriptor arrays. */
  method CorrectDescriptors(d: Dict, red: array<Val>, green: array?<Val>, blue: array?<Val>)
    returns (r: Result<()>)
    requires ReadDescriptors(d).Success? && DescriptorsOf(red, green, blue) == ReadDescriptors(d).value
    requires red != green && red != blue && (green != null ==> green != blue)
    modifies red, green, blue
    ensures (r.Success? <==> CorrectedDescriptors(d).Success?)
    ensures r.Failure? ==> r.error == CorrectedDescriptors(d).error
    ensures r.Success? ==> DescriptorsOf(red, green, blue) == CorrectedDescriptors(d).value
  {
    ghost var read := ReadDescriptors(d).value;
    if IsNum(red[0], 0) {
      var written :- SetAllInPlace(red, green, blue, 0, Num(FullPaletteEntries));
    }
    ghost var counted := CorrectEntryCount(read).value;
    assert DescriptorsOf(red, green, blue) == counted;

    var numLutEntries := red[0];
    var lutData := GetValue(d, RedDataTag, 0);
    var length :- Length(lutData);
    var lutBitsAllocated := LutBitsAllocated(length, numLutEntries);
    if !IsNum(red[2], lutBitsAllocated) {
      var written :- SetAllInPlace(red, green, blue, 2, Num(lutBitsAllocated));
    }
    return Success(());
  }

  /** The three getLutData calls of populatePaletteColorLut, in order. */
  method ReadTables(d: Dict, red: array<Val>, green: array?<Val>, blue: array?<Val>) returns (r: Result<Palette>)
    requires DescriptorsOf(red, green, blue).WellFormed()
    ensures r == PaletteTables(d, DescriptorsOf(red, green, blue))
  {
    var redData :- GetLutData(d, RedDataTag, red);
    var greenData :- GetLutData(d, GreenDataTag, green);
    var blueData :- GetLutData(d, BlueDataTag, blue);
    return Success(Palette(red[..], green[..], blue[..], redData, greenData, blueData));
  }

  /** SetAll on the arrays themselves, one write after the other. */
  method SetAllInPlace(red: array<Val>, green: array?<Val>, blue: array?<Val>, i: nat, v: Val)
    returns (r: Result<()>)
    requires DescriptorsOf(red, green, blue).WellFormed() && i < 3
    requires red != green && red != blue && (green != null ==> green != blue)
    modifies red, green, blue
    ensures var s := SetAll(old(DescriptorsOf(red, green, blue)), i, v);
      (r.Success? <==> s.Success?)
      && (r.Failure? ==> r.error == s.error)
      && (r.Success? ==> DescriptorsOf(red, green, blue) == s.value)
  {
    red[i] := v;
    if green == null {
      return Failure(TypeError);
    }
    green[i] := v;
    if blue == null {
      return Failure(TypeError);
    }
    blue[i] := v;
    return Success(());
  }

  /** getImagePixelModule(dicomDict). */
  method GetImagePixelModule(d: Dict) returns (r: Result<ImagePixelModule>)
    ensures r.Success? <==>
      ReadBaseFields(d).Success?
      && First(d, PixelRepresentationTag).Success?
      && First(d, SmallestPixelValueTag).Success?
      && First(d, LargestPixelValueTag).Success?
      && (WantsPalette(ReadBaseFields(d).value, d) ==> PaletteColorLut(d).Success?)
    ensures r.Success? ==>
      var m := r.value;
      fresh(m)
      && m.Base() == ReadBaseFields(d).value
      && m.smallestPixelValue == First(d, SmallestPixelValueTag).value
      && m.largestPixelValue == First(d, LargestPixelValueTag).value
      && (WantsPalette(m.Base(), d) ==> m.HoldsPalette(PaletteColorLut(d).value))
      && (!WantsPalette(m.Base(), d) ==> m.NoPalette())
  {
    var base :- ReadBaseFields(d);
    var m := new ImagePixelModule(base);
    var populated :- m.PopulateSmallestLargestPixelValues(d);
    if StrictEq(m.photometricInterpretation, PaletteColor) && Truthy(GetValue(d, RedDescriptorTag, 0)) {
      var palette :- m.PopulatePaletteColorLut(d);
    }
    return Success(m);
  }
}
