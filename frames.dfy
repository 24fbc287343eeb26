/**
 * Frame extraction from a parsed dataset
 * (src/imageLoader/dcmjs/getPixelData.js, getUncompressedImageFrame.js,
 * getEncapsulatedImageFrame.js).
 *
 * Pixel data lives under (7FE0,0010), or under Float Pixel Data
 * (7FE0,0008) when the former is absent. An element whose declared value
 * length is the undefined-length marker FFFFFFFFH holds encapsulated
 * (compressed) fragments (DICOM PS3.5 section A.4); otherwise it holds
 * native pixels, frame after frame.
 */
module PixelFrames {
  import opened Values
  import opened DicomUtils

  const PixelDataTag := "7FE00010"
  const FloatPixelDataTag := "7FE00008"
  const BitsAllocatedTag := "00280100"
  const RowsTag := "00280010"
  const ColumnsTag := "00280011"
  const SamplesPerPixelTag := "00280002"
  const PhotometricInterpretationTag := "00280004"

  /** The declared value length of an element of undefined length. */
  const UndefinedLength := 0xFFFF_FFFF

  /** Samples per pixel used for YBR_FULL_422 (DICOM PS3.3 section C.7.6.3). */
  const YbrFull422 := Str("YBR_FULL_422")

  /** The bit unpacker for 1-bit frames: (buffer, byte offset, pixel count) to one byte per pixel. */
  type Unpacker = (seq<Byte>, real, int) -> seq<Byte>

  /** `dict['7FE00010'] || dict['7FE00008']` */
  function PixelDataElement(d: Dict): Option<Element>
  {
    if PixelDataTag in d.dict then Some(d.dict[PixelDataTag])
    else if FloatPixelDataTag in d.dict then Some(d.dict[FloatPixelDataTag])
    else None
  }

  /** `Value[0]` of an element: `undefined` when it has no values. */
  function FirstValue(e: Element): Val
  {
    if |e.items| > 0 then e.items[0] else Undef
  }

  // ---------------------------------------------------------------------
  // Encapsulated frames

  /** getEncapsulatedImageFrame: the fragment at `frameIndex`, `undefined` past the end. */
  function GetEncapsulatedImageFrame(d: Dict, frameIndex: int): (r: Result<Val>)
    ensures r.Failure? <==> PixelDataElement(d).None?
    ensures r.Failure? ==> r.error == TypeError
    ensures r.Success? && 0 <= frameIndex < |PixelDataElement(d).value.items|
            ==> r.value == PixelDataElement(d).value.items[frameIndex]
    ensures r.Success? && !(0 <= frameIndex < |PixelDataElement(d).value.items|) ==> r.value == Undef
  {
    match PixelDataElement(d)
    case None => Failure(TypeError)
    case Some(e) => At(Arr(e.items), frameIndex)
  }

  // ---------------------------------------------------------------------
  // Native frames

  /** The attributes getUncompressedImageFrame reads, in the order it reads them. */
  datatype Header = Header(
    buffer: Val,
    bitsAllocated: Val,
    rows: Val,
    columns: Val,
    storedSamplesPerPixel: Val,
    photometricInterpretation: Val)
  {
    /** Samples per pixel used for frame sizes: 2 for YBR_FULL_422, else the stored value. */
    function SamplesPerPixel(): Val
    {
      if photometricInterpretation == YbrFull422 then Num(2) else storedSamplesPerPixel
    }
  }

  /** All the reads that can throw before the bit depth is examined. */
  predicate HeaderReadable(d: Dict)
  {
    PixelDataElement(d).Some?
    && First(d, BitsAllocatedTag).Success?
    && First(d, RowsTag).Success?
    && First(d, ColumnsTag).Success?
    && First(d, SamplesPerPixelTag).Success?
    && First(d, PhotometricInterpretationTag).Success?
  }

  function ReadHeader(d: Dict): (r: Result<Header>)
    ensures r.Success? <==> HeaderReadable(d)
    ensures r.Failure? ==> r.error == TypeError
    ensures r.Success? ==>
      r.value == Header(FirstValue(PixelDataElement(d).value),
                        First(d, BitsAllocatedTag).value,
                        First(d, RowsTag).value,
                        First(d, ColumnsTag).value,
                        First(d, SamplesPerPixelTag).value,
                        First(d, PhotometricInterpretationTag).value)
  {
    match PixelDataElement(d)
    case None => Failure(TypeError)
    case Some(e) =>
      var bitsAllocated :- First(d, BitsAllocatedTag);
      var rows :- First(d, RowsTag);
      var columns :- First(d, ColumnsTag);
      var samplesPerPixel :- First(d, SamplesPerPixelTag);
      var photometric :- First(d, PhotometricInterpretationTag);
      Success(Header(FirstValue(e), bitsAllocated, rows, columns, samplesPerPixel, photometric))
  }

  /** Bytes per sample of the byte-aligned depths; 0 for every other value. */
  function BytesPerSample(bitsAllocated: Val): (b: nat)
    ensures b == 1 <==> IsNum(bitsAllocated, 8)
    ensures b == 2 <==> IsNum(bitsAllocated, 16)
    ensures b == 4 <==> IsNum(bitsAllocated, 32)
    ensures b == 0 <==> !IsNum(bitsAllocated, 8) && !IsNum(bitsAllocated, 16) && !IsNum(bitsAllocated, 32)
  {
    if IsNum(bitsAllocated, 8) then 1
    else if IsNum(bitsAllocated, 16) then 2
    else if IsNum(bitsAllocated, 32) then 4
    else 0
  }

  predicate SupportedDepth(bitsAllocated: Val)
  {
    BytesPerSample(bitsAllocated) > 0 || IsNum(bitsAllocated, 1)
  }

  /** The pixel buffer as bytes: a byte array as is, a plain array through ToUint8. */
  function FrameBuffer(v: Val): (r: Result<seq<Byte>>)
    ensures r.Success? <==> v.Bytes? || v.Arr?
    ensures v.Bytes? ==> r.value == v.b
    ensures r.Failure? ==> r.error == TypeError
  {
    match v
    case Bytes(b) => Success(b)
    case Arr(_) => Uint8View(v)
    case _ => Failure(TypeError)
  }

  /** rows * columns * samplesPerPixel, when all three are integral. */
  function PixelsPerFrame(h: Header): (r: Result<int>)
    ensures r.Success? <==> AsInt(h.rows).Some? && AsInt(h.columns).Some? && AsInt(h.SamplesPerPixel()).Some?
    ensures r.Failure? ==> r.error == NonIntegerDimension
    ensures r.Success? ==>
      r.value == AsInt(h.rows).value * AsInt(h.columns).value * AsInt(h.SamplesPerPixel()).value
  {
    match (AsInt(h.rows), AsInt(h.columns), AsInt(h.SamplesPerPixel()))
    case (Some(rows), Some(columns), Some(samples)) => Success(rows * columns * samples)
    case _ => Failure(NonIntegerDimension)
  }

  /**
   * Frame `frameIndex` of a native buffer whose frames are `frameBytes`
   * long: the bytes from `frameIndex * frameBytes` on, as far as they go.
   */
  function NativeFrame(buffer: seq<Byte>, frameIndex: int, frameBytes: int): (r: Result<seq<Byte>>)
    ensures r.Failure? <==> frameIndex * frameBytes >= |buffer|
    ensures r.Failure? ==> r.error == FrameExceedsSize
    ensures r.Success? && frameIndex * frameBytes >= 0 && frameBytes >= 0 ==>
      r.value == buffer[frameIndex * frameBytes..Min(frameIndex * frameBytes + frameBytes, |buffer|)]
  {
    var offset := frameIndex * frameBytes;
    if offset >= |buffer| then Failure(FrameExceedsSize)
    else Success(JsSlice(buffer, offset, offset + frameBytes))
  }

  function Min(a: int, b: int): int { if a <= b then a else b }

  /** A 1-bit frame: the byte offset is fractional, the unpacker does the rest. */
  function BinaryFrame(buffer: seq<Byte>, frameIndex: int, pixelsPerFrame: int, unpack: Unpacker)
    : (r: Result<seq<Byte>>)
    ensures r.Failure? <==> (frameIndex * pixelsPerFrame) as real / 8.0 >= |buffer| as real
    ensures r.Failure? ==> r.error == FrameExceedsSize
    ensures r.Success? ==> r.value == unpack(buffer, (frameIndex * pixelsPerFrame) as real / 8.0, pixelsPerFrame)
  {
    var offset := (frameIndex * pixelsPerFrame) as real * 0.125;
    if offset >= |buffer| as real then Failure(FrameExceedsSize)
    else Success(unpack(buffer, offset, pixelsPerFrame))
  }

  /** getUncompressedImageFrame(dicomDict, frameIndex). */
  function GetUncompressedImageFrame(d: Dict, frameIndex: int, unpack: Unpacker): (r: Result<seq<Byte>>)
    ensures !HeaderReadable(d) ==> r == Failure(TypeError)
    ensures r == Failure(UnsupportedPixelFormat)
            <==> HeaderReadable(d) && !SupportedDepth(ReadHeader(d).value.bitsAllocated)
    ensures r.Success? ==>
      var h := ReadHeader(d).value;
      SupportedDepth(h.bitsAllocated) && FrameBuffer(h.buffer).Success? && PixelsPerFrame(h).Success?
    ensures HeaderReadable(d) && SupportedDepth(ReadHeader(d).value.bitsAllocated) ==>
      var h := ReadHeader(d).value;
      (FrameBuffer(h.buffer).Failure? ==> r == Failure(TypeError))
      && (FrameBuffer(h.buffer).Success? && PixelsPerFrame(h).Failure? ==> r == Failure(NonIntegerDimension))
      && (FrameBuffer(h.buffer).Success? && PixelsPerFrame(h).Success? ==>
            (BytesPerSample(h.bitsAllocated) > 0 ==>
               r == NativeFrame(FrameBuffer(h.buffer).value, frameIndex,
                                PixelsPerFrame(h).value * BytesPerSample(h.bitsAllocated)))
            && (IsNum(h.bitsAllocated, 1) ==>
                  r == BinaryFrame(FrameBuffer(h.buffer).value, frameIndex, PixelsPerFrame(h).value, unpack)))
  {
    var h :- ReadHeader(d);
    if !SupportedDepth(h.bitsAllocated) then Failure(UnsupportedPixelFormat)
    else
      var buffer :- FrameBuffer(h.buffer);
      var pixelsPerFrame :- PixelsPerFrame(h);
      var bytesPerSample := BytesPerSample(h.bitsAllocated);
      if bytesPerSample > 0 then NativeFrame(buffer, frameIndex, pixelsPerFrame * bytesPerSample)
      else BinaryFrame(buffer, frameIndex, pixelsPerFrame, unpack)
  }

  // ---------------------------------------------------------------------
  // Dispatch

  datatype PixelData = NoPixelData | Encapsulated(fragment: Val) | Native(frame: seq<Byte>)

  /** getPixelData(dicomDict, frameIndex = 0). */
  function GetPixelData(d: Dict, unpack: Unpacker, frameIndex: int := 0): (r: Result<PixelData>)
    ensures r == Success(NoPixelData) <==> PixelDataElement(d).None?
    ensures PixelDataElement(d).Some? && PixelDataElement(d).value.length == UndefinedLength ==>
      r.Success? && r.value == Encapsulated(GetEncapsulatedImageFrame(d, frameIndex).value)
    ensures PixelDataElement(d).Some? && PixelDataElement(d).value.length != UndefinedLength ==>
      match GetUncompressedImageFrame(d, frameIndex, unpack)
      case Success(frame) => r == Success(Native(frame))
      case Failure(e) => r == Failure(e)
  {
    match PixelDataElement(d)
    case None => Success(NoPixelData)
    case Some(e) =>
      if e.length == UndefinedLength then
        match GetEncapsulatedImageFrame(d, frameIndex)
        case Success(fragment) => Success(Encapsulated(fragment))
        case Failure(error) => Failure(error)
      else
        var frame :- GetUncompressedImageFrame(d, frameIndex, unpack);
        Success(Native(frame))
  }

  // ---------------------------------------------------------------------
  // Properties

  /** The first `count` native frames laid end to end. */
  function Frames(buffer: seq<Byte>, frameBytes: int, count: nat): seq<Byte>
  {
    if count == 0 then []
    else
      var previous := Frames(buffer, frameBytes, count - 1);
      match NativeFrame(buffer, count - 1, frameBytes)
      case Success(frame) => previous + frame
      case Failure(_) => previous
  }

  /**
   * A buffer holding exactly `n` frames of `frameBytes` bytes is the
   * concatenation of frames 0 to n-1, and frame n is past its end.
   */
  lemma {:induction false} FramesTileBuffer(buffer: seq<Byte>, frameBytes: nat, n: nat)
    requires frameBytes > 0 && |buffer| == n * frameBytes
    ensures Frames(buffer, frameBytes, n) == buffer
    ensures NativeFrame(buffer, n, frameBytes) == Failure(FrameExceedsSize)
  {
    FramesPrefix(buffer, frameBytes, n, |buffer|);
  }

  /** The first k frames of a buffer at least k frames long are its first k * frameBytes bytes. */
  lemma {:induction false} FramesPrefix(buffer: seq<Byte>, frameBytes: nat, k: nat, end: nat)
    requires end == k * frameBytes && end <= |buffer|
    ensures Frames(buffer, frameBytes, k) == buffer[..end]
  {
    if k > 0 {
      var offset := end - frameBytes;
      assert 0 <= offset == (k - 1) * frameBytes by {
        MulMonotone(0, k - 1, frameBytes);
        MulSucc(k - 1, frameBytes);
      }
      FramesPrefix(buffer, frameBytes, k - 1, offset);
      FramesStep(buffer, frameBytes, k, offset);
      ConcatSlices(buffer, offset, end);
    }
  }

  /** Frame k-1 extends the first k-1 frames by the bytes at its offset. */
  lemma FramesStep(buffer: seq<Byte>, frameBytes: nat, k: nat, offset: nat)
    requires k > 0 && offset == (k - 1) * frameBytes && offset + frameBytes <= |buffer|
    ensures Frames(buffer, frameBytes, k)
            == Frames(buffer, frameBytes, k - 1) + buffer[offset..offset + frameBytes]
  {
    MulSucc(k - 1, frameBytes);
    FrameSlice(buffer, k - 1, frameBytes);
  }

  lemma ConcatSlices(buffer: seq<Byte>, offset: nat, end: nat)
    requires offset <= end <= |buffer|
    ensures buffer[..offset] + buffer[offset..end] == buffer[..end]
  {
  }

  lemma MulSucc(a: nat, c: nat)
    ensures (a + 1) * c == a * c + c
  {
  }

  lemma MulMonotone(a: nat, b: nat, c: nat)
    requires a <= b
    ensures a * c <= b * c
  {
  }

  /** Frame sizes: 8-, 16- and 32-bit frames of a full buffer are pixels times bytes per sample. */
  lemma NativeFrameSize(d: Dict, frameIndex: nat, unpack: Unpacker)
    requires HeaderReadable(d)
    requires BytesPerSample(ReadHeader(d).value.bitsAllocated) > 0
    requires GetUncompressedImageFrame(d, frameIndex, unpack).Success?
    ensures var h := ReadHeader(d).value;
      var frameBytes := PixelsPerFrame(h).value * BytesPerSample(h.bitsAllocated);
      var buffer := FrameBuffer(h.buffer).value;
      0 <= frameIndex * frameBytes && 0 <= frameBytes && (frameIndex + 1) * frameBytes <= |buffer| ==>
        GetUncompressedImageFrame(d, frameIndex, unpack).value
        == buffer[frameIndex * frameBytes..(frameIndex + 1) * frameBytes]
  {
    var h := ReadHeader(d).value;
    var frameBytes := PixelsPerFrame(h).value * BytesPerSample(h.bitsAllocated);
    var buffer := FrameBuffer(h.buffer).value;
    if 0 <= frameIndex * frameBytes && 0 <= frameBytes && (frameIndex + 1) * frameBytes <= |buffer| {
      FrameSlice(buffer, frameIndex, frameBytes);
    }
  }

  /**
   * For 8, 16 and 32 bits allocated, once the buffer and the frame size are
   * readable, the call throws 'frame exceeds size' exactly when the frame's
   * offset reaches the buffer length, and otherwise returns a frame.
   */
  lemma NativeFrameExceedsSize(d: Dict, frameIndex: int, unpack: Unpacker)
    requires HeaderReadable(d)
    requires BytesPerSample(ReadHeader(d).value.bitsAllocated) > 0
    requires FrameBuffer(ReadHeader(d).value.buffer).Success? && PixelsPerFrame(ReadHeader(d).value).Success?
    ensures var h := ReadHeader(d).value;
      var frameBytes := PixelsPerFrame(h).value * BytesPerSample(h.bitsAllocated);
      var r := GetUncompressedImageFrame(d, frameIndex, unpack);
      (r == Failure(FrameExceedsSize) <==> frameIndex * frameBytes >= |FrameBuffer(h.buffer).value|)
      && (r.Failure? ==> r.error == FrameExceedsSize)
  {
  }

  /** A frame that lies wholly inside the buffer is exactly its bytes. */
  lemma FrameSlice(buffer: seq<Byte>, frameIndex: nat, frameBytes: nat)
    requires (frameIndex + 1) * frameBytes <= |buffer|
    ensures NativeFrame(buffer, frameIndex, frameBytes).Success? ==>
      NativeFrame(buffer, frameIndex, frameBytes).value
      == buffer[frameIndex * frameBytes..(frameIndex + 1) * frameBytes]
  {
    var offset := frameIndex * frameBytes;
    assert offset >= 0 && (frameIndex + 1) * frameBytes == offset + frameBytes by {
      MulMonotone(0, frameIndex, frameBytes);
    }
  }

  /**
   * For YBR_FULL_422 the frame size uses two samples per pixel whatever
   * Samples per Pixel says.
   */
  lemma YbrFull422TwoSamples(d: Dict, frameIndex: int, unpack: Unpacker)
    requires HeaderReadable(d)
    requires First(d, PhotometricInterpretationTag).value == YbrFull422
    requires AsInt(First(d, RowsTag).value).Some? && AsInt(First(d, ColumnsTag).value).Some?
    ensures PixelsPerFrame(ReadHeader(d).value)
            == Success(AsInt(First(d, RowsTag).value).value * AsInt(First(d, ColumnsTag).value).value * 2)
  {
  }

  /** (7FE0,0010) hides (7FE0,0008) from every reader. */
  lemma PixelDataTagWins(d: Dict, e: Element, frameIndex: int, unpack: Unpacker)
    requires PixelDataTag in d.dict
    ensures var d' := Dict(d.dict[FloatPixelDataTag := e]);
      GetPixelData(d', unpack, frameIndex) == GetPixelData(d, unpack, frameIndex)
  {
    var d' := Dict(d.dict[FloatPixelDataTag := e]);
    assert PixelDataElement(d') == PixelDataElement(d);
    assert ReadHeader(d') == ReadHeader(d);
  }

  /** Encapsulated data never throws once the element exists. */
  lemma EncapsulatedNeverThrows(d: Dict, frameIndex: int, unpack: Unpacker)
    requires PixelDataElement(d).Some? && PixelDataElement(d).value.length == UndefinedLength
    ensures GetPixelData(d, unpack, frameIndex).Success?
    ensures 0 <= frameIndex < |PixelDataElement(d).value.items| ==>
      GetPixelData(d, unpack, frameIndex) == Success(Encapsulated(PixelDataElement(d).value.items[frameIndex]))
  {
  }

  /** A one-value attribute as the container parser stores it. */
  function Attribute(v: Val): Element
  {
    Element([Arr([v])], 2)
  }

  /** Two 2x2 monochrome 16-bit frames: frame 1 is bytes 8 to 15, frame 2 does not exist. */
  lemma SixteenBitFrames(buffer: seq<Byte>, unpack: Unpacker)
    requires |buffer| == 16
    ensures var d := Dict(map[
        PixelDataTag := Element([Bytes(buffer)], 16),
        BitsAllocatedTag := Attribute(Num(16)),
        RowsTag := Attribute(Num(2)),
        ColumnsTag := Attribute(Num(2)),
        SamplesPerPixelTag := Attribute(Num(1)),
        PhotometricInterpretationTag := Attribute(Str("MONOCHROME2"))]);
      GetUncompressedImageFrame(d, 1, unpack) == Success(buffer[8..16])
      && GetUncompressedImageFrame(d, 2, unpack) == Failure(FrameExceedsSize)
  {
    var d := Dict(map[
        PixelDataTag := Element([Bytes(buffer)], 16),
        BitsAllocatedTag := Attribute(Num(16)),
        RowsTag := Attribute(Num(2)),
        ColumnsTag := Attribute(Num(2)),
        SamplesPerPixelTag := Attribute(Num(1)),
        PhotometricInterpretationTag := Attribute(Str("MONOCHROME2"))]);
    SixteenBitHeader(buffer, d);
    assert GetUncompressedImageFrame(d, 1, unpack) == NativeFrame(buffer, 1, 8);
    assert GetUncompressedImageFrame(d, 2, unpack) == NativeFrame(buffer, 2, 8);
  }

  lemma SixteenBitHeader(buffer: seq<Byte>, d: Dict)
    requires d == Dict(map[
        PixelDataTag := Element([Bytes(buffer)], 16),
        BitsAllocatedTag := Attribute(Num(16)),
        RowsTag := Attribute(Num(2)),
        ColumnsTag := Attribute(Num(2)),
        SamplesPerPixelTag := Attribute(Num(1)),
        PhotometricInterpretationTag := Attribute(Str("MONOCHROME2"))])
    ensures ReadHeader(d) == Success(Header(Bytes(buffer), Num(16), Num(2), Num(2), Num(1), Str("MONOCHROME2")))
    ensures PixelsPerFrame(ReadHeader(d).value) == Success(4)
  {
    var h := Header(Bytes(buffer), Num(16), Num(2), Num(2), Num(1), Str("MONOCHROME2"));
    assert ReadHeader(d) == Success(h);
    assert Str("MONOCHROME2") != YbrFull422;
  }
}
