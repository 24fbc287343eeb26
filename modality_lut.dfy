/**
 * Signedness of the Modality LUT output
 * (src/imageLoader/dcmjs/metaData/getModalityLUTOutputPixelRepresentation.js):
 * 0 for unsigned output, 1 for signed, following the rescale and Modality
 * LUT Sequence attributes of DICOM PS3.3 section C.11.1.
 */
module ModalityLut {
  import opened Values
  import opened DicomUtils

  const SopClassUidTag := "00080016"
  const RescaleInterceptTag := "00281052"
  const RescaleSlopeTag := "00281053"
  const ModalityLutSequenceTag := "00283000"
  const PixelRepresentationTag := "00280103"
  const BitsStoredTag := "00280101"

  /** CT Image Storage and Enhanced CT Image Storage. */
  const CtImageStorage := Str("1.2.840.10008.5.1.4.1.1.2")
  const EnhancedCtImageStorage := Str("1.2.840.10008.5.1.4.1.1.2.1")

  const TwoTo31 := 0x8000_0000
  const TwoTo32 := 0x1_0000_0000

  /** ToInt32: wrap an integer into the signed 32-bit range. */
  function ToInt32(x: int): (r: int)
    ensures -TwoTo31 <= r < TwoTo31
    ensures (r - x) % TwoTo32 == 0
  {
    (x + TwoTo31) % TwoTo32 - TwoTo31
  }

  /** `x << count` on 32-bit integers: the count is taken modulo 32. */
  function ShiftLeft32(x: int, count: int): int
  {
    ToInt32(x * Pow2(count % 32))
  }

  /** The shift count of `bitsStored - 1` where `bitsStored` is a number; anything else shifts by 0. */
  function ShiftCount(bitsStored: Val): int
  {
    match bitsStored
    case Num(n) => n - 1
    case Dec(r) => Trunc(r - 1.0)
    case _ => 0
  }

  /** getMinStoredPixelValue: 0 for unsigned data, else `-1 << (bitsStored - 1)`. */
  function MinStoredPixelValue(d: Dict): (r: Result<int>)
    ensures r.Success? <==> First(d, PixelRepresentationTag).Success? && First(d, BitsStoredTag).Success?
    ensures r.Failure? ==> r.error == TypeError
    ensures r.Success? ==> -TwoTo31 <= r.value <= 0
    ensures r.Success? && IsNum(First(d, PixelRepresentationTag).value, 0) ==> r.value == 0
  {
    var pixelRepresentation :- First(d, PixelRepresentationTag);
    var bitsStored :- First(d, BitsStoredTag);
    if IsNum(pixelRepresentation, 0) then Success(0)
    else
      MinusOneShift(ShiftCount(bitsStored));
      Success(ShiftLeft32(-1, ShiftCount(bitsStored)))
  }

  lemma {:induction false} Pow2Monotone(j: nat, k: nat)
    requires j <= k
    ensures Pow2(j) <= Pow2(k)
  {
    if j < k {
      Pow2Monotone(j, k - 1);
    }
  }

  lemma Pow2Of31()
    ensures Pow2(31) == TwoTo31
  {
    assert Pow2(8) == 256;
    assert Pow2(16) == 256 * Pow2(8) by { Pow2Add(8, 8); }
    assert Pow2(24) == 256 * Pow2(16) by { Pow2Add(16, 8); }
    assert Pow2(31) == 128 * Pow2(24) by { Pow2Add(24, 7); }
  }

  lemma {:induction false} Pow2Add(j: nat, k: nat)
    ensures Pow2(j + k) == Pow2(j) * Pow2(k)
  {
    if k > 0 {
      Pow2Add(j, k - 1);
    }
  }

  /** `-1 << k` is -2^(k mod 32), which always fits in 32 bits. */
  lemma MinusOneShift(count: int)
    ensures ShiftLeft32(-1, count) == -(Pow2(count % 32) as int)
    ensures -TwoTo31 <= ShiftLeft32(-1, count) <= -1
  {
    var k := count % 32;
    Pow2Monotone(k, 31);
    Pow2Of31();
    assert 0 <= -(Pow2(k) as int) + TwoTo31 < TwoTo32;
  }

  /** For 1 to 32 bits stored, signed data starts at -2^(bitsStored-1). */
  lemma MinStoredPixelValueSigned(d: Dict, bitsStored: int)
    requires First(d, PixelRepresentationTag).Success? && !IsNum(First(d, PixelRepresentationTag).value, 0)
    requires First(d, BitsStoredTag) == Success(Num(bitsStored)) && 1 <= bitsStored <= 32
    ensures MinStoredPixelValue(d) == Success(-(Pow2(bitsStored - 1) as int))
  {
    var count := ShiftCount(Num(bitsStored));
    assert count == bitsStored - 1 && count % 32 == count;
    MinusOneShift(count);
  }

  /** getModalityLUTOutputPixelRepresentation(dicomDict). */
  function ModalityLutOutputPixelRepresentation(d: Dict): (r: Result<Val>)
    ensures r.Success? ==>
      r.value == Num(0) || r.value == Num(1) || r == First(d, PixelRepresentationTag)
  {
    var sopClassUid :- First(d, SopClassUidTag);
    if StrictEq(sopClassUid, CtImageStorage) || StrictEq(sopClassUid, EnhancedCtImageStorage) then
      Success(Num(1))
    else
      var rescaleIntercept :- First(d, RescaleInterceptTag);
      var rescaleSlope :- First(d, RescaleSlopeTag);
      if rescaleIntercept != Undef && rescaleSlope != Undef then
        var minStoredPixelValue :- MinStoredPixelValue(d);
        Success(Num(SignOfRescaled(minStoredPixelValue, rescaleSlope, rescaleIntercept)))
      else if Truthy(GetValue(d, ModalityLutSequenceTag, 0)) then
        Success(Num(0))
      else
        First(d, PixelRepresentationTag)
  }

  /** 1 when `min * slope + intercept` is negative, else 0; a non-number product is never negative. */
  function SignOfRescaled(minStoredPixelValue: int, slope: Val, intercept: Val): (s: int)
    ensures s == 0 || s == 1
    ensures s == 1 <==>
      AsReal(slope).Some? && AsReal(intercept).Some?
      && minStoredPixelValue as real * AsReal(slope).value + AsReal(intercept).value < 0.0
  {
    match (AsReal(slope), AsReal(intercept))
    case (Some(m), Some(b)) => if minStoredPixelValue as real * m + b < 0.0 then 1 else 0
    case _ => 0
  }

  /** CT images are signed whatever else the dataset says. */
  lemma CtIsSigned(d: Dict)
    requires First(d, SopClassUidTag) == Success(CtImageStorage)
          || First(d, SopClassUidTag) == Success(EnhancedCtImageStorage)
    ensures ModalityLutOutputPixelRepresentation(d) == Success(Num(1))
  {
  }

  /**
   * The order of the rules: CT class, then the rescale pair, then the
   * Modality LUT Sequence, then the stored pixel representation.
   */
  lemma Precedence(d: Dict)
    requires First(d, SopClassUidTag).Success?
    requires !StrictEq(First(d, SopClassUidTag).value, CtImageStorage)
    requires !StrictEq(First(d, SopClassUidTag).value, EnhancedCtImageStorage)
    requires First(d, RescaleInterceptTag).Success? && First(d, RescaleSlopeTag).Success?
    ensures var intercept := First(d, RescaleInterceptTag).value;
      var slope := First(d, RescaleSlopeTag).value;
      var r := ModalityLutOutputPixelRepresentation(d);
      (intercept != Undef && slope != Undef ==>
         (r.Success? <==> MinStoredPixelValue(d).Success?)
         && (r.Success? ==> r.value == Num(SignOfRescaled(MinStoredPixelValue(d).value, slope, intercept))))
      && (!(intercept != Undef && slope != Undef) && Truthy(GetValue(d, ModalityLutSequenceTag, 0)) ==>
            r == Success(Num(0)))
      && (!(intercept != Undef && slope != Undef) && !Truthy(GetValue(d, ModalityLutSequenceTag, 0)) ==>
            r == First(d, PixelRepresentationTag))
  {
  }

  /**
   * Outside CT, reading a missing rescale intercept or slope indexes
   * `undefined` and throws before any later rule is tried.
   */
  lemma MissingRescaleThrows(d: Dict)
    requires First(d, SopClassUidTag).Success?
    requires !StrictEq(First(d, SopClassUidTag).value, CtImageStorage)
    requires !StrictEq(First(d, SopClassUidTag).value, EnhancedCtImageStorage)
    ensures GetValue(d, RescaleInterceptTag, 0) == Undef || GetValue(d, RescaleSlopeTag, 0) == Undef ==>
      ModalityLutOutputPixelRepresentation(d) == Failure(TypeError)
  {
  }

  /** With a pixel representation of 0 or 1 the answer is 0 or 1. */
  lemma OutputIsZeroOrOne(d: Dict)
    requires First(d, PixelRepresentationTag) == Success(Num(0))
          || First(d, PixelRepresentationTag) == Success(Num(1))
    requires ModalityLutOutputPixelRepresentation(d).Success?
    ensures ModalityLutOutputPixelRepresentation(d).value in {Num(0), Num(1)}
  {
  }

  /** Unsigned data with a negative intercept and any numeric slope is signed after rescale. */
  lemma NegativeInterceptIsSigned(d: Dict, intercept: int, slope: int)
    requires First(d, SopClassUidTag).Success?
    requires !StrictEq(First(d, SopClassUidTag).value, CtImageStorage)
    requires !StrictEq(First(d, SopClassUidTag).value, EnhancedCtImageStorage)
    requires First(d, RescaleInterceptTag) == Success(Num(intercept)) && intercept < 0
    requires First(d, RescaleSlopeTag) == Success(Num(slope))
    requires First(d, PixelRepresentationTag) == Success(Num(0)) && First(d, BitsStoredTag).Success?
    ensures ModalityLutOutputPixelRepresentation(d) == Success(Num(1))
  {
  }

  /** Signed 16-bit data with the identity rescale is signed. */
  lemma SignedIdentityRescale(d: Dict)
    requires First(d, SopClassUidTag).Success?
    requires !StrictEq(First(d, SopClassUidTag).value, CtImageStorage)
    requires !StrictEq(First(d, SopClassUidTag).value, EnhancedCtImageStorage)
    requires First(d, RescaleInterceptTag) == Success(Num(0))
    requires First(d, RescaleSlopeTag) == Success(Num(1))
    requires First(d, PixelRepresentationTag) == Success(Num(1))
    requires First(d, BitsStoredTag) == Success(Num(16))
    ensures ModalityLutOutputPixelRepresentation(d) == Success(Num(1))
  {
    Precedence(d);
    MinStoredPixelValueSigned(d, 16);
    NegativeMinIsSigned(MinStoredPixelValue(d).value);
  }

  lemma NegativeMinIsSigned(min: int)
    requires min < 0
    ensures SignOfRescaled(min, Num(1), Num(0)) == 1
  {
  }
}
