# cornerstone WADO image loader (dcmjs variant): pixel frames, metadata and dataset cache

This project models two parts of the dcmjs-based DICOM image loader in Dafny.

The first part reads from a parsed DICOM dataset, the "dicom dict" that maps
8-hex-digit tag strings to elements:

- the tag accessor and the DA/TM parsers of DICOM PS3.5 section 6.2;
- frame extraction. This covers encapsulated data, detected by the
  undefined-length sentinel `0xFFFFFFFF` of PS3.5 section A.4. It also covers
  native 1/8/16/32-bit frames, with the YBR_FULL_422 rule of PS3.3 section
  C.7.6.3.
- the metadata builders:
  - the Image Pixel module, with the palette-colour descriptor corrections
    of PS3.3 section C.7.6.3.1.5;
  - the Modality/VOI LUT sequences of PS3.3 sections C.11.1 and C.11.2;
  - the signedness of the Modality LUT output;
  - the Overlay Plane module of PS3.3 section C.9.2.

The second part is the reference-counted cache of loaded datasets. It maps
each URI to one fetch request with a `cacheCount`, and keeps a global byte
counter.

JavaScript values are the datatype `Values.Val`:

- `undefined`, `NaN`, integers and other numbers;
- strings, byte buffers and arrays;
- nested datasets.

An element's items are what `getValue` indexes and what `.Value` holds. Its
`length` is the `.Meta.length` of the element. Throwing is a `Failure` of
`Values.Result`. `getValue(d, t)[0]` is `DicomUtils.First`, which fails when
`getValue` is `undefined`.

The source's own forms are kept:

- Functions stay functions.
- Loops become methods with loop invariants, each proved equal to a
  specification function:
  - `GetLutData`, `GetLUT` and `GetLUTs`;
  - the overlay loops;
  - `GetNumberValues`.
- The Image Pixel module object becomes a class. Its palette descriptors are
  arrays that are corrected in place.
- The cache is a class whose methods update a map of `FetchRequest` objects
  and a counter. Each method is proved against a pure transition function on
  `CacheView`.

## Model

| member | source | states |
|---|---|---|
| DicomUtils.StripX | src/imageLoader/dcmjs/metaData/utils.js:2-4 | one leading `x` is removed from the tag, nothing else changes |
| DicomUtils.GetValue | src/imageLoader/dcmjs/metaData/utils.js:1-15 | `undefined` for a missing tag or an empty element, else item `index` of the element |
| DicomUtils.GetValueStripsOneX | src/imageLoader/dcmjs/metaData/utils.js:2-4 | `getValue(d, "x"+t, i)` looks up `t`, and equals `getValue(d, t, i)` when `t` has no leading `x` |
| DicomUtils.First | src/imageLoader/dcmjs/metaData/getImagePixelModule.js:109 | `getValue(d,t)[0]` throws a TypeError exactly when `getValue` is `undefined` |
| DicomUtils.ParseIntOfDigits | src/imageLoader/dcmjs/metaData/utils.js:50-54 | `parseInt(s, 10)` of a non-empty digit string is its decimal value, below 10^|s| |
| DicomUtils.ParseIntNaN | src/imageLoader/dcmjs/metaData/utils.js:88 | `parseInt` of a string starting with a non-digit, non-sign, non-space character is NaN |
| DicomUtils.DaysInMonth | src/imageLoader/dcmjs/metaData/utils.js:18-31 | month 2 has 29 days in Gregorian leap years and 28 otherwise; months 4, 6, 9 and 11 have 30; all others have 31 (months are 1-based) |
| DicomUtils.YearLength | src/imageLoader/dcmjs/metaData/utils.js:18-31 | the twelve months add up to 366 days in a leap year, else 365 |
| DicomUtils.ParseDA | src/imageLoader/dcmjs/metaData/utils.js:48-73 | a string that is not 8 long gives `undefined`, or throws when validating; an 8-character one gives year/month/day from characters 0-4, 4-6 and 6-8; with validation it throws exactly when the date is invalid |
| DicomUtils.ParseDAValidDigits | src/imageLoader/dcmjs/metaData/utils.js:33-40 | for digit strings, validation accepts exactly months 1-12 and days 1 to the days of that month |
| DicomUtils.ParseDARejects20230229 | src/imageLoader/dcmjs/metaData/utils.js:56-60 | "20230229" throws when validating |
| DicomUtils.ParseDAAccepts20240229 | src/imageLoader/dcmjs/metaData/utils.js:56-66 | "20240229" gives {2024, 2, 29} when validating |
| DicomUtils.ParseDAFeb29 | src/imageLoader/dcmjs/metaData/utils.js:22 | a 29 February date is accepted iff its year is a leap year |
| DicomUtils.DigitsValue2 | src/imageLoader/dcmjs/metaData/utils.js:52-54 | a two-digit field is worth ten times its first digit plus its second |
| DicomUtils.DigitsValue4 | src/imageLoader/dcmjs/metaData/utils.js:50 | a four-digit year field is its positional decimal value |
| DicomUtils.Scale | src/imageLoader/dcmjs/metaData/utils.js:96 | multiplying by 10^k keeps NaN as NaN and scales a number |
| DicomUtils.ParseTM | src/imageLoader/dcmjs/metaData/utils.js:83-128 | under 2 characters gives `undefined`, or throws when validating; otherwise hours from characters 0-2; minutes defined iff the length is at least 4, seconds iff at least 6, the fraction iff at least 8 (characters 7-13, scaled to microseconds); with validation it throws exactly on the invalid-time condition |
| DicomUtils.ParseTMValidation | src/imageLoader/dcmjs/metaData/utils.js:99-113 | validation throws iff the hours are NaN or outside 0-23, or a present minute/second is NaN or outside 0-59, or a present fraction is NaN or outside 0-999999 |
| DicomUtils.ParseTM1015 | src/imageLoader/dcmjs/metaData/utils.js:84-120 | "1015" is 10:15 with seconds and fraction `undefined` |
| DicomUtils.SplitJoin | src/imageLoader/dcmjs/metaData/utils.js:137 | splitting on a separator yields one more part than separators, no part contains it, and joining restores the string |
| DicomUtils.GetNumberValues | src/imageLoader/dcmjs/metaData/utils.js:130-147 | `undefined` for a falsy value, or when a minimum length is given and there are fewer components; otherwise exactly one `parseFloat` per backslash-separated component, in order |
| Values.JsSlice | src/imageLoader/dcmjs/getUncompressedImageFrame.js:57-59 | `slice` clamps both ends at the buffer length |
| Values.LoopBound | src/imageLoader/dcmjs/metaData/getLUTs.js:26 | a `for (i = 0; i < v; i++)` loop runs `v` times for a natural number, never for a negative one, and never for a value that is not a number |
| Values.LoopBoundRoundsUp | src/imageLoader/dcmjs/metaData/getLUTs.js:26 | for a positive fractional bound the loop runs the least integer number of times not below it; for a bound of 0 or less it never runs |
| Values.FractionalLoopBound | src/imageLoader/dcmjs/metaData/getImagePixelModule.js:23 | a bound of 2.5 gives three iterations and 3.0 gives three |
| Values.Uint8Items | src/imageLoader/dcmjs/metaData/getOverlayPlaneModule.js:23 | the byte view of an array has one byte per item, each item taken modulo 256 |
| Values.Elements | src/imageLoader/dcmjs/metaData/getLUTs.js:28 | `v[0]` to `v[count-1]`, each read succeeding |
| Values.Uint8View | src/imageLoader/dcmjs/metaData/getImagePixelModule.js:24 | `new Uint8Array(v)` of a byte buffer is its bytes, of an array one byte per item modulo 256, and only a RangeError can be thrown |
| PixelFrames.GetEncapsulatedImageFrame | src/imageLoader/dcmjs/getEncapsulatedImageFrame.js:1-6 | throws when neither pixel-data element exists; otherwise item `frameIndex` verbatim, or `undefined` outside the items |
| PixelFrames.ReadHeader | src/imageLoader/dcmjs/getUncompressedImageFrame.js:8-16 | the buffer is item 0 of 7FE00010, falling back to 7FE00008; the header reads succeed iff every attribute is present, and then they are those attributes' first values |
| PixelFrames.BytesPerSample | src/imageLoader/dcmjs/getUncompressedImageFrame.js:51-85 | 1, 2 or 4 bytes exactly for 8, 16 or 32 bits allocated, and 0 for any other value |
| PixelFrames.FrameBuffer | src/imageLoader/dcmjs/getUncompressedImageFrame.js:11-59 | a byte buffer is used as it is and an array through its byte view; every other value, a string included, throws a TypeError in the model (see Left out) |
| PixelFrames.PixelsPerFrame | src/imageLoader/dcmjs/getUncompressedImageFrame.js:47 | rows times columns times the samples per pixel after the YBR_FULL_422 rule |
| PixelFrames.NativeFrame | src/imageLoader/dcmjs/getUncompressedImageFrame.js:52-59 | throws 'frame exceeds size' iff the start offset `frameIndex*frameBytes` reaches the buffer length; otherwise the bytes from that offset to the next frame, clamped at the buffer end |
| PixelFrames.BinaryFrame | src/imageLoader/dcmjs/getUncompressedImageFrame.js:69-75 | the 1-bit offset is `frameIndex*pixelsPerFrame/8`; it throws iff that reaches the buffer length, and otherwise hands the buffer's bytes, the offset and the pixel count to the unpacker, a parameter that receives the bytes rather than the raw buffer |
| PixelFrames.GetUncompressedImageFrame | src/imageLoader/dcmjs/getUncompressedImageFrame.js:7-88 | a missing attribute throws a TypeError; 'unsupported pixel format' iff the bits allocated are not 1, 8, 16 or 32; otherwise an unusable buffer or frame size throws, and with both usable the result is exactly the native frame at `pixelsPerFrame*bytesPerSample` bytes per frame, or the 1-bit frame, error included |
| PixelFrames.NativeFrameExceedsSize | src/imageLoader/dcmjs/getUncompressedImageFrame.js:51-85 | for 8, 16 and 32 bits, 'frame exceeds size' is thrown exactly when the frame offset reaches the buffer length, and no other error is possible |
| PixelFrames.GetPixelData | src/imageLoader/dcmjs/getPixelData.js:4-19 | `null` iff neither pixel-data element exists; the encapsulated frame when the length is `0xFFFFFFFF`, else exactly the uncompressed frame or its exception |
| PixelFrames.FramesTileBuffer | src/imageLoader/dcmjs/getUncompressedImageFrame.js:52-59 | for a buffer of exactly n frames, frames 0 to n-1 put together are the buffer, and frame n throws |
| PixelFrames.FramesPrefix | src/imageLoader/dcmjs/getUncompressedImageFrame.js:52-59 | the first k frames put together are the first `k*frameBytes` bytes of the buffer |
| PixelFrames.FramesStep | src/imageLoader/dcmjs/getUncompressedImageFrame.js:52-59 | frame k-1 extends the first k-1 frames by the `frameBytes` bytes at offset `(k-1)*frameBytes` |
| PixelFrames.FrameSlice | src/imageLoader/dcmjs/getUncompressedImageFrame.js:52-59 | a frame lying wholly inside the buffer is exactly its bytes |
| PixelFrames.NativeFrameSize | src/imageLoader/dcmjs/getUncompressedImageFrame.js:51-85 | a frame that lies inside the buffer is exactly `buffer[frameIndex*frameBytes .. (frameIndex+1)*frameBytes]` |
| PixelFrames.YbrFull422TwoSamples | src/imageLoader/dcmjs/getUncompressedImageFrame.js:38-47 | with YBR_FULL_422, pixels per frame are rows times columns times 2, whatever samples per pixel says |
| PixelFrames.PixelDataTagWins | src/imageLoader/dcmjs/getPixelData.js:5-6 | when 7FE00010 exists, 7FE00008 has no effect |
| PixelFrames.EncapsulatedNeverThrows | src/imageLoader/dcmjs/getPixelData.js:12-16 | encapsulated pixel data never throws and gives the item of the frame |
| PixelFrames.SixteenBitFrames | src/imageLoader/dcmjs/getUncompressedImageFrame.js:60-68 | for 16-bit 2x2x1 data in 16 bytes, frame 1 is bytes 8-16 and frame 2 throws |
| ImagePixel.LutDescriptor | src/imageLoader/dcmjs/metaData/getImagePixelModule.js:3-11 | `undefined` unless the value is truthy and has length 6; then its first three entries |
| ImagePixel.LutDescriptorOfArray | src/imageLoader/dcmjs/metaData/getImagePixelModule.js:3-11 | for an array value: the first three items iff there are exactly 6 |
| ImagePixel.LutData | src/imageLoader/dcmjs/metaData/getImagePixelModule.js:13-28 | the data unchanged when the bits per entry are 16; otherwise exactly as many entries as the loop to `descriptor[0]` runs (a fractional count rounds up), entry i being byte i of the data |
| ImagePixel.ViewEntries | src/imageLoader/dcmjs/metaData/getImagePixelModule.js:21-25 | exactly `count` entries, entry i being byte i of the view or `undefined` past its end |
| ImagePixel.GetLutData | src/imageLoader/dcmjs/metaData/getImagePixelModule.js:13-28 | the loop computes `LutData`; a missing descriptor throws |
| ImagePixel.Present | src/imageLoader/dcmjs/metaData/getImagePixelModule.js:47 | indexing a missing descriptor throws a TypeError |
| ImagePixel.SetAll | src/imageLoader/dcmjs/metaData/getImagePixelModule.js:47-51 | one entry is set in all three descriptors, and a missing green or blue descriptor throws |
| ImagePixel.ReadDescriptors | src/imageLoader/dcmjs/metaData/getImagePixelModule.js:31-47 | the three descriptors as read; a missing red descriptor throws at the first correction |
| ImagePixel.PaletteEntryCount | src/imageLoader/dcmjs/metaData/getImagePixelModule.js:47-51 | a red entry count of 0 becomes 65536 in all three descriptors; otherwise the counts stay as read |
| ImagePixel.PaletteBitsPerEntry | src/imageLoader/dcmjs/metaData/getImagePixelModule.js:61-76 | the bits per entry become 8 iff the red data length equals the corrected red count, else 16; they are rewritten in all three only when red differs |
| ImagePixel.PaletteTables | src/imageLoader/dcmjs/metaData/getImagePixelModule.js:78-92 | the tables are read red, green, blue; the call succeeds iff green and blue descriptors exist and all three reads succeed, and each table is then `LutData` of its own data attribute and descriptor |
| ImagePixel.PaletteData | src/imageLoader/dcmjs/metaData/getImagePixelModule.js:78-92 | in the palette the red, green and blue tables are each `getLutData` of their own data and corrected descriptor, the stored data for 16-bit entries |
| ImagePixel.PaletteRedData | src/imageLoader/dcmjs/metaData/getImagePixelModule.js:78-82 | red data is the stored data for 16-bit entries, and a byte-per-entry table for 8-bit ones |
| ImagePixel.ReadBaseFields | src/imageLoader/dcmjs/metaData/getImagePixelModule.js:108-119 | the ten base fields are the first values of their fixed tags, and any missing tag throws |
| ImagePixel.NewDescriptor | src/imageLoader/dcmjs/metaData/getImagePixelModule.js:31-42 | a descriptor becomes a fresh array holding its entries, or `undefined` |
| ImagePixel.ImagePixelModule.constructor | src/imageLoader/dcmjs/metaData/getImagePixelModule.js:108-119 | a module object with the given base fields and no palette |
| ImagePixel.ImagePixelModule.PopulateSmallestLargestPixelValues | src/imageLoader/dcmjs/metaData/getImagePixelModule.js:95-105 | the smallest and largest pixel values are the first values of 00280106 and 00280107 whatever the pixel representation; missing tags throw; palette fields untouched |
| ImagePixel.ImagePixelModule.PopulatePaletteColorLut | src/imageLoader/dcmjs/metaData/getImagePixelModule.js:30-93 | succeeds iff the palette spec does; the fields then hold fresh corrected descriptors and the LUT data |
| ImagePixel.ImagePixelModule.StorePalette | src/imageLoader/dcmjs/metaData/getImagePixelModule.js:31-92 | the module holds the corrected descriptors and the three tables; the smallest and largest values are untouched |
| ImagePixel.ReadPalette | src/imageLoader/dcmjs/metaData/getImagePixelModule.js:30-93 | reading, correcting in place and reading the tables computes exactly the palette spec |
| ImagePixel.CorrectDescriptors | src/imageLoader/dcmjs/metaData/getImagePixelModule.js:47-76 | in-place corrections of the three arrays give the corrected descriptors, or their exception |
| ImagePixel.ReadTables | src/imageLoader/dcmjs/metaData/getImagePixelModule.js:78-92 | the three `getLutData` calls on the descriptor arrays give `PaletteTables`: each table from its own data attribute, or the first exception |
| ImagePixel.SetAllInPlace | src/imageLoader/dcmjs/metaData/getImagePixelModule.js:48-50 | assigning one entry of the three arrays is `SetAll` |
| ImagePixel.GetImagePixelModule | src/imageLoader/dcmjs/metaData/getImagePixelModule.js:107-131 | succeeds iff the base fields, pixel representation, smallest and largest values can be read and, when the palette is wanted, the palette can; palette fields are set only for PALETTE COLOR with 00281101 present |
| ModalityLut.ToInt32 | src/imageLoader/dcmjs/metaData/getModalityLUTOutputPixelRepresentation.js:12 | the result is in the signed 32-bit range and congruent to the input modulo 2^32 |
| ModalityLut.MinStoredPixelValue | src/imageLoader/dcmjs/metaData/getModalityLUTOutputPixelRepresentation.js:4-13 | throws iff either attribute is missing; 0 for pixel representation 0; always within [-2^31, 0] |
| ModalityLut.MinusOneShift | src/imageLoader/dcmjs/metaData/getModalityLUTOutputPixelRepresentation.js:12 | `-1 << k` is -2^(k mod 32), so it stays within [-2^31, -1] |
| ModalityLut.MinStoredPixelValueSigned | src/imageLoader/dcmjs/metaData/getModalityLUTOutputPixelRepresentation.js:8-12 | for signed data with 1 to 32 bits stored the minimum is -2^(bitsStored-1) |
| ModalityLut.ModalityLutOutputPixelRepresentation | src/imageLoader/dcmjs/metaData/getModalityLUTOutputPixelRepresentation.js:16-51 | any result is 0, 1 or the stored pixel representation |
| ModalityLut.SignOfRescaled | src/imageLoader/dcmjs/metaData/getModalityLUTOutputPixelRepresentation.js:33-41 | 1 iff `min*slope + intercept < 0` with numeric slope and intercept, else 0 |
| ModalityLut.CtIsSigned | src/imageLoader/dcmjs/metaData/getModalityLUTOutputPixelRepresentation.js:18-25 | the two CT SOP classes always give 1 |
| ModalityLut.Precedence | src/imageLoader/dcmjs/metaData/getModalityLUTOutputPixelRepresentation.js:27-50 | after the CT test, once both rescale elements exist: the rescale pair decides when both values are defined, else a Modality LUT Sequence gives 0, else the pixel representation |
| ModalityLut.MissingRescaleThrows | src/imageLoader/dcmjs/metaData/getModalityLUTOutputPixelRepresentation.js:27-30 | outside CT, a dataset without a rescale intercept or slope throws a TypeError instead of falling through to the later rules |
| ModalityLut.OutputIsZeroOrOne | src/imageLoader/dcmjs/metaData/getModalityLUTOutputPixelRepresentation.js:16-51 | a pixel representation in {0, 1} gives a result in {0, 1} |
| ModalityLut.NegativeInterceptIsSigned | src/imageLoader/dcmjs/metaData/getModalityLUTOutputPixelRepresentation.js:32-39 | unsigned data with a negative intercept gives 1 |
| ModalityLut.SignedIdentityRescale | src/imageLoader/dcmjs/metaData/getModalityLUTOutputPixelRepresentation.js:32-39 | signed 16-bit data with slope 1 and intercept 0 gives 1 |
| Luts.LutOf | src/imageLoader/dcmjs/metaData/getLUTs.js:3-36 | succeeds iff the item is a dataset with a descriptor and, when there are entries to read, LUT data; the table then has id '1', `firstValueMapped` and bits from descriptor items 1 and 2, and exactly the loop count of entries (a fractional count rounds up), entry i being LUT data item i |
| Luts.GetLUT | src/imageLoader/dcmjs/metaData/getLUTs.js:3-36 | the loop computes `LutOf` for either pixel representation |
| Luts.ReadEntries | src/imageLoader/dcmjs/metaData/getLUTs.js:26-33 | the entry loop gives LUT data items 0 to count-1 in order, and throws iff there is an entry to read and the data is `undefined` |
| Luts.LutsOfStep | src/imageLoader/dcmjs/metaData/getLUTs.js:44-51 | one more item appends its table, or ends `getLUTs` with that item's exception |
| Luts.LutsOfFailurePersists | src/imageLoader/dcmjs/metaData/getLUTs.js:44-51 | an exception from one item ends `getLUTs` with that exception |
| Luts.SequenceItems | src/imageLoader/dcmjs/metaData/getLUTs.js:44-45 | one item per index below the sequence length |
| Luts.GetLUTs | src/imageLoader/dcmjs/metaData/getLUTs.js:38-54 | `undefined` for a missing or empty sequence; otherwise the tables of all items in order, or the first exception |
| Luts.LutsOfItems | src/imageLoader/dcmjs/metaData/getLUTs.js:42-53 | one table per item, table i built from item i |
| Luts.ZeroCountGives65535 | src/imageLoader/dcmjs/metaData/getLUTs.js:6-8 | a descriptor count of 0 gives 65535 entries |
| OverlayPlane.Hex | src/imageLoader/dcmjs/metaData/getOverlayPlaneModule.js:7 | `toString(16)` has one digit below 16 and two below 256 |
| OverlayPlane.GroupPrefixLength | src/imageLoader/dcmjs/metaData/getOverlayPlaneModule.js:7-11 | the group string is 3 characters below 0x10 and 5 from 0x10 on, so no key is 8 long |
| OverlayPlane.GroupPrefixExamples | src/imageLoader/dcmjs/metaData/getOverlayPlaneModule.js:7-11 | offsets 0x00, 0x0e and 0x10 give "600", "60e" and "60010" |
| OverlayPlane.CorrectedGroupPrefix | src/imageLoader/dcmjs/metaData/getOverlayPlaneModule.js:7-11 | the intended group string is "60" and two hex digits |
| OverlayPlane.CorrectedGroupPrefixIsTag | src/imageLoader/dcmjs/metaData/getOverlayPlaneModule.js:13 | corrected keys are 8 long and distinct for distinct groups |
| OverlayPlane.CorrectedGroupPrefixExamples | src/imageLoader/dcmjs/metaData/getOverlayPlaneModule.js:6-13 | groups 0x00 and 0x1e give "6000" and "601E" |
| OverlayPlane.Bit | src/imageLoader/dcmjs/metaData/getOverlayPlaneModule.js:25 | `(byte >> k) & 1` is 0 or 1 |
| OverlayPlane.LowBits | src/imageLoader/dcmjs/metaData/getOverlayPlaneModule.js:25 | the low bits of a value hold exactly the requested number of entries |
| OverlayPlane.LowBitsAt | src/imageLoader/dcmjs/metaData/getOverlayPlaneModule.js:25 | entry k of the low bits is `(x >> k) & 1` |
| OverlayPlane.UnpackBits | src/imageLoader/dcmjs/metaData/getOverlayPlaneModule.js:19-27 | 8 entries per byte |
| OverlayPlane.UnpackBitsPrefix | src/imageLoader/dcmjs/metaData/getOverlayPlaneModule.js:21-26 | the entries before the last byte's are those of the shorter data |
| OverlayPlane.UnpackBitsLast | src/imageLoader/dcmjs/metaData/getOverlayPlaneModule.js:21-26 | the last eight entries are the bits of the last byte |
| OverlayPlane.UnpackBitsAreBits | src/imageLoader/dcmjs/metaData/getOverlayPlaneModule.js:25 | every unpacked entry is 0 or 1 |
| OverlayPlane.UnpackBitsAt | src/imageLoader/dcmjs/metaData/getOverlayPlaneModule.js:25 | entry 8i+k is bit k of byte i |
| OverlayPlane.UnpackOverlayData | src/imageLoader/dcmjs/metaData/getOverlayPlaneModule.js:19-27 | the outer loop, one byte at a time into an array of `8 * length` entries, produces exactly `UnpackBits` of the element's bytes |
| OverlayPlane.UnpackByteInto | src/imageLoader/dcmjs/metaData/getOverlayPlaneModule.js:22-26 | the inner loop writes bit k of the byte to entry `i*8+k`, for k from 0 to 7, and no other entry |
| OverlayPlane.UnpackBitsByIndex | src/imageLoader/dcmjs/metaData/getOverlayPlaneModule.js:21-26 | a sequence whose entry j is bit `j % 8` of byte `j / 8` is the unpacked sequence |
| OverlayPlane.UnpackBitsAtIndex | src/imageLoader/dcmjs/metaData/getOverlayPlaneModule.js:25 | entry j of the unpacked sequence is bit `j % 8` of byte `j / 8` |
| OverlayPlane.PackByteRange | src/imageLoader/dcmjs/metaData/getOverlayPlaneModule.js:21-26 | m bits packed least significant first form a value below 2^m |
| OverlayPlane.LowBitsOfPack | src/imageLoader/dcmjs/metaData/getOverlayPlaneModule.js:25 | the low bits of a packed value are the bits packed |
| OverlayPlane.PackLowBits | src/imageLoader/dcmjs/metaData/getOverlayPlaneModule.js:25 | packing the low m bits of a value below 2^m gives it back |
| OverlayPlane.UnpackInvertsPacking | src/imageLoader/dcmjs/metaData/getOverlayPlaneModule.js:21-26 | packing 8 bits least significant first and unpacking gives the bits back |
| OverlayPlane.PackingInvertsUnpacking | src/imageLoader/dcmjs/metaData/getOverlayPlaneModule.js:21-26 | unpacking a byte and packing its bits gives the byte back |
| OverlayPlane.MinusOne | src/imageLoader/dcmjs/metaData/getOverlayPlaneModule.js:33-34 | `v - 1` lowers a number by one and gives NaN for `undefined` |
| OverlayPlane.OverlayRecord | src/imageLoader/dcmjs/metaData/getOverlayPlaneModule.js:29-41 | x is origin item 1 minus 1 and y is origin item 0 minus 1, converting the 1-based origin to 0-based |
| OverlayPlane.ReadOverlay | src/imageLoader/dcmjs/metaData/getOverlayPlaneModule.js:19-41 | the overlay of a present group carries the unpacked bits of its Overlay Data |
| OverlayPlane.OverlayAt | src/imageLoader/dcmjs/metaData/getOverlayPlaneModule.js:13-27 | an overlay iff the group's Overlay Data key exists, with the unpacked bits of that element |
| OverlayPlane.FoundGroups | src/imageLoader/dcmjs/metaData/getOverlayPlaneModule.js:6-17 | at most one group string per visited offset, each one whose Overlay Data exists |
| OverlayPlane.Overlays | src/imageLoader/dcmjs/metaData/getOverlayPlaneModule.js:29-41 | one overlay per found group |
| OverlayPlane.OverlaysAppend | src/imageLoader/dcmjs/metaData/getOverlayPlaneModule.js:29 | reading one more group appends exactly its overlay |
| OverlayPlane.OverlaysOfStep | src/imageLoader/dcmjs/metaData/getOverlayPlaneModule.js:6-42 | one more offset appends that group's overlay when its Overlay Data exists and nothing otherwise |
| OverlayPlane.ReadOverlayGroup | src/imageLoader/dcmjs/metaData/getOverlayPlaneModule.js:7-41 | one pass of the loop body gives the overlay of the group string as written, or none when its Overlay Data is missing |
| OverlayPlane.GetOverlayPlaneModule | src/imageLoader/dcmjs/metaData/getOverlayPlaneModule.js:3-47 | the loop visits all 16 offsets 0x00, 0x02, ..., 0x1e and yields `OverlaysOf` for the group strings as written: the present groups in ascending order |
| OverlayPlane.OverlaysBounded | src/imageLoader/dcmjs/metaData/getOverlayPlaneModule.js:6-29 | at most one overlay per visited offset, so at most 16, with every pixel of every overlay 0 or 1 |
| OverlayPlane.AsWrittenFindsNothing | src/imageLoader/dcmjs/metaData/getOverlayPlaneModule.js:7-17 | with 8-character tag keys, the keys as written never match: no group is found and there are no overlays |
| OverlayPlane.CorrectedFindsGroups | src/imageLoader/dcmjs/metaData/getOverlayPlaneModule.js:6-17 | with corrected keys all present, group g is found at position g |
| OverlayPlane.CorrectedFindsOverlays | src/imageLoader/dcmjs/metaData/getOverlayPlaneModule.js:6-41 | with corrected keys, every group whose Overlay Data exists yields its overlay, in group order |
| DataSetCache.FetchRequest.constructor | src/imageLoader/internal/fetchRequest.js:5-21 | a new request has `cacheCount` 1, no size and no reader |
| DataSetCache.FetchRequest.Cancel | src/imageLoader/internal/fetchRequest.js:135-139 | the reader is cancelled only if one exists; nothing else changes |
| DataSetCache.DicomDictPromise.constructor | src/imageLoader/internal/fetchRequest.js:18 | the promise stands for the fetch of its URL |
| DataSetCache.LoadSpec | src/imageLoader/dcmjs/dataSetCacheManager.js:28-56 | a cached URI gains exactly one reference; an absent one becomes one entry with count 1 and no size; other entries and the counter are unchanged |
| DataSetCache.UnloadSpec | src/imageLoader/dcmjs/dataSetCacheManager.js:59-78 | an absent URI changes nothing; otherwise one reference less, and at the last the entry goes and its size is subtracted |
| DataSetCache.SizeReportedSpec | src/imageLoader/dcmjs/dataSetCacheManager.js:43-45 | the counter grows by the reported size, and the entry records it while its request is cached |
| DataSetCache.PurgeSpec | src/imageLoader/dcmjs/dataSetCacheManager.js:88-91 | no entries and a zero counter |
| DataSetCache.UnloadUndoesLoad | src/imageLoader/dcmjs/dataSetCacheManager.js:31-77 | an unload right after a load restores the cache |
| DataSetCache.LoadsValid | src/imageLoader/dcmjs/dataSetCacheManager.js:31-55 | loads keep every count at least 1 |
| DataSetCache.LoadsThenUnloads | src/imageLoader/dcmjs/dataSetCacheManager.js:31-77 | N loads and then N unloads of one URI restore entries and counter |
| DataSetCache.LoadsOfNewUri | src/imageLoader/dcmjs/dataSetCacheManager.js:31-55 | n loads of an uncached URI leave one entry with count n |
| DataSetCache.UnloadsKeepEntry | src/imageLoader/dcmjs/dataSetCacheManager.js:62-64 | while references remain, unloads only lower the count |
| DataSetCache.UnloadsSplit | src/imageLoader/dcmjs/dataSetCacheManager.js:59-78 | k+1 unloads are k unloads and one more |
| DataSetCache.LoadSizeUnload | src/imageLoader/dcmjs/dataSetCacheManager.js:31-77 | n loads, a size report while cached, and n unloads restore entries and counter |
| DataSetCache.SizedAfterLoads | src/imageLoader/dcmjs/dataSetCacheManager.js:31-45 | after n fresh loads the size report records the size in the one new entry and adds it to the counter |
| DataSetCache.UnloadsOfSized | src/imageLoader/dcmjs/dataSetCacheManager.js:59-78 | n unloads of an entry with n references and a size remove it and give the size back |
| DataSetCache.LastUnload | src/imageLoader/dcmjs/dataSetCacheManager.js:63-69 | the last unload removes the entry and subtracts its size |
| DataSetCache.LateSizeLeaks | src/imageLoader/dcmjs/dataSetCacheManager.js:43-45 | a size reported after its request was unloaded stays in the counter with nothing cached |
| DataSetCache.CorrectedSizeReportedSpec | src/imageLoader/dcmjs/dataSetCacheManager.js:43-45 | a request no longer cached leaves the cache unchanged |
| DataSetCache.CorrectedSizeNeverLeaks | src/imageLoader/dcmjs/dataSetCacheManager.js:38-69 | with the corrected callback, a load and an unload restore the cache whether the size arrives before or after the unload |
| DataSetCache.DataSetCacheManager.constructor | src/imageLoader/dcmjs/dataSetCacheManager.js:10-12 | the cache starts empty with a zero counter |
| DataSetCache.DataSetCacheManager.IsLoaded | src/imageLoader/dcmjs/dataSetCacheManager.js:15-17 | true iff the URI has an entry |
| DataSetCache.DataSetCacheManager.Get | src/imageLoader/dcmjs/dataSetCacheManager.js:19-25 | the entry's `dicomDict` promise iff the URI is loaded, else `undefined` |
| DataSetCache.DataSetCacheManager.GetInfo | src/imageLoader/dcmjs/dataSetCacheManager.js:80-85 | the counter and the number of cached datasets |
| DataSetCache.DataSetCacheManager.Load | src/imageLoader/dcmjs/dataSetCacheManager.js:28-56 | the new state is `LoadSpec` of the old; a cached URI returns the same request's promise, its count one higher and nothing else about it changed; an absent one gets exactly one fresh request for that URI and image id, with no reader and nothing cancelled; every other request is unchanged |
| DataSetCache.DataSetCacheManager.Unload | src/imageLoader/dcmjs/dataSetCacheManager.js:59-78 | the new state is `UnloadSpec` of the old; the map keeps every URI's request until the last reference, when exactly that URI is removed; the request's count drops by one, its reader is cancelled only at the last unload and only if it exists, and every other request is unchanged |
| DataSetCache.DataSetCacheManager.Evict | src/imageLoader/dcmjs/dataSetCacheManager.js:64-69 | the last unload cancels the reader, subtracts a truthy size from the counter and removes the entry |
| DataSetCache.DataSetCacheManager.SizeReported | src/imageLoader/dcmjs/dataSetCacheManager.js:43-45 | the new state is `SizeReportedSpec` of the old with the same map of requests; the request records its size and opens its reader, its count and cancellation untouched |
| DataSetCache.DataSetCacheManager.Purge | src/imageLoader/dcmjs/dataSetCacheManager.js:88-91 | the new state is empty with a zero counter; requests are not cancelled |

## Left out

- String and array coercions to numbers are not modelled. A string or array
  where a number is expected reads as NaN or as a non-number in arithmetic,
  comparison and shifts. This covers rescale values, the overlay origin and
  loop bounds. `+` on a string rescale value, which concatenates, is also
  not modelled.
- Byte buffers are modelled as typed arrays, which have a `length`. An
  `ArrayBuffer` has none: with one as pixel data, `frameOffset >=
  pixelArrayBuffer.length` is always false and 'frame exceeds size' is never
  thrown, and with one as red palette data `lutData.length` is `undefined`,
  so 16 bits per entry are chosen. The model does not capture either.
- PixelFrames.FrameBuffer: pixel data that is a string throws a TypeError in
  the model. In the source a string has `length` and `slice`, and
  `new Uint8Array` coerces the sliced string; that coercion is not modelled.
- `parseFloat` is a function parameter of `GetNumberValues`.
- `parseInt` is modelled for a sign, digits and the common white space only.
- `unpackBinaryFrame` (src/imageLoader/dcmjs/unpackBinaryFrame.js) is not part
  of this model. It is a function parameter of the 1-bit frame, and it receives the
  buffer's bytes rather than the raw pixel-data value.
- PixelFrames.PixelsPerFrame: rows, columns or samples per pixel that are not
  integral numbers give an error of their own. The source would multiply to
  NaN or a fraction and slice with it.
- Object identity in `===` is not modelled: two objects never compare equal.
- Events (`datasetscachechanged`, load progress) and `console.warn` are left
  out.
- The network side of `FetchRequest` is left out: `fetch`, streaming,
  headers, the progress hooks, the error interceptor and the parsed dataset.
  Only the reference count, the size, the reader's existence and `cancel`
  are modelled. A `NaN` content length is left out: sizes are integers.
- Asynchrony is left out. `load` returns the request's promise, not the
  parsed dataset.
- The size report is a method the environment may call at any time between
  other operations.
- The state left behind when an exception interrupts
  `populatePaletteColorLut` part-way is not stated. The model only says
  that the call fails.
- `loadImage`, `metaDataProvider`, the index files, `externalModules` and
  the JPEG decoders are not part of this model. They dispatch to code that
  is not part of this model.

## Findings

| source | as written | input that shows it | evidently intended | confidence | as-written member | corrected member |
|---|---|---|---|---|---|---|
| src/imageLoader/dcmjs/metaData/getOverlayPlaneModule.js:7-11 | the group string is "60" + `toString(16)`, or "600" + hex when that is 4 long, so keys are 7 or 9 characters long | any dataset with Overlay Data (6000,3000), whose key is "60003000": the loader looks up "6003000" and finds no overlay | "60" plus the group number as two hexadecimal digits, giving the 8-character tag "60003000" ... "601E3000" | not executed; high | OverlayPlane.AsWrittenFindsNothing | OverlayPlane.CorrectedFindsOverlays |
| src/imageLoader/dcmjs/dataSetCacheManager.js:43-45 | the size callback always adds to `cacheSizeInBytes` | load a URI, unload it before the response headers arrive (`cancel` does nothing while there is no reader), then the size arrives: the counter keeps the size with no dataset cached | only a request that is still cached adds its size | not executed; medium | DataSetCache.LateSizeLeaks | DataSetCache.CorrectedSizeNeverLeaks |
