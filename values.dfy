/**
 * JavaScript values as the loader sees them once the (external) DICOM
 * container parser has turned a Part-10 file into a tag dictionary.
 *
 * A dictionary maps 8-hex-digit tag strings to elements; an element is a
 * sequence of values (what `element[i]` and `element.Value[i]` index) plus
 * the declared value length from the element's meta data (`Meta.length`).
 * Values are polymorphic, as in JavaScript: numbers, strings, byte
 * buffers, arrays and nested datasets (sequence items), plus `undefined`
 * and `NaN`.
 */
module Values {

  type Byte = x: int | 0 <= x < 256

  datatype Option<+T> = None | Some(value: T)

  /** The exceptions the loader can raise. */
  datatype Error =
    | TypeError             // property access on `undefined`, or a missing method
    | RangeError            // `new Uint8Array(n)` with a negative length
    | FrameExceedsSize      // 'frame exceeds size of pixelData'
    | UnsupportedPixelFormat  // 'unsupported pixel format'
    | InvalidDA(date: string)
    | InvalidTM(time: string)
    | NonIntegerDimension   // a frame dimension that is not an integral number

  /** A call either returns a value or throws. */
  datatype Result<+T> = Success(value: T) | Failure(error: Error) {
    predicate IsFailure() { Failure? }

    function PropagateFailure<U>(): Result<U>
      requires Failure?
    {
      Failure(error)
    }

    function Extract(): T
      requires Success?
    {
      value
    }
  }

  datatype Val =
    | Undef
    | NaN
    | Num(n: int)        // an integral JavaScript number
    | Dec(r: real)       // a JavaScript number read from a decimal string
    | Str(s: string)
    | Bytes(b: seq<Byte>)  // a typed byte array
    | Arr(items: seq<Val>)
    | Item(d: Dict)      // a nested dataset (one item of a sequence element)

  datatype Element = Element(items: seq<Val>, length: int)

  datatype Dict = Dict(dict: map<string, Element>)

  /** JavaScript truthiness. */
  predicate Truthy(v: Val)
  {
    match v
    case Undef => false
    case NaN => false
    case Num(n) => n != 0
    case Dec(r) => r != 0.0
    case Str(s) => |s| > 0
    case _ => true
  }

  /** `v === k` for a number literal `k`. */
  predicate IsNum(v: Val, k: int)
  {
    (v.Num? && v.n == k) || (v.Dec? && v.r == k as real)
  }

  /**
   * `a === b` on primitive values. Two objects are identical only when they
   * are the same object, which values do not record: they compare unequal.
   */
  predicate StrictEq(a: Val, b: Val)
  {
    match a
    case Undef => b.Undef?
    case NaN => false
    case Num(n) => IsNum(b, n)
    case Dec(r) => (b.Num? && b.n as real == r) || (b.Dec? && b.r == r)
    case Str(s) => b.Str? && b.s == s
    case _ => false
  }

  /** The integer a number value holds, if it holds one. */
  function AsInt(v: Val): (r: Option<int>)
    ensures r.Some? <==> v.Num? || (v.Dec? && v.r == v.r.Floor as real)
    ensures forall k :: r == Some(k) <==> IsNum(v, k)
  {
    match v
    case Num(n) => Some(n)
    case Dec(r) => if r == r.Floor as real then Some(r.Floor) else None
    case _ => None
  }

  /** The real a number value holds, if it holds one. */
  function AsReal(v: Val): Option<real>
  {
    match v
    case Num(n) => Some(n as real)
    case Dec(r) => Some(r)
    case _ => None
  }

  /** ToIntegerOrInfinity on a finite number: truncation toward zero. */
  function Trunc(r: real): (k: int)
    ensures r >= 0.0 ==> 0 <= k && k as real <= r < k as real + 1.0
    ensures r < 0.0 ==> k <= 0 && k as real - 1.0 < r <= k as real
  {
    if r >= 0.0 then r.Floor else -((-r).Floor)
  }

  /** `v[i]`: property access with a numeric key; throws on `undefined`. */
  function At(v: Val, i: int): (r: Result<Val>)
    ensures r.Failure? <==> v.Undef?
    ensures v.Arr? && 0 <= i < |v.items| ==> r == Success(v.items[i])
    ensures v.Arr? && !(0 <= i < |v.items|) ==> r == Success(Undef)
  {
    match v
    case Undef => Failure(TypeError)
    case Str(s) => Success(if 0 <= i < |s| then Str([s[i]]) else Undef)
    case Bytes(b) => Success(if 0 <= i < |b| then Num(b[i]) else Undef)
    case Arr(items) => Success(if 0 <= i < |items| then items[i] else Undef)
    case _ => Success(Undef)
  }

  /** `v.length`: a number for strings, byte arrays and arrays, else `undefined`. */
  function Length(v: Val): (r: Result<Val>)
    ensures r.Failure? <==> v.Undef?
    ensures v.Arr? ==> r == Success(Num(|v.items|))
    ensures r.Success? ==> r.value.Undef? || (r.value.Num? && r.value.n >= 0)
  {
    match v
    case Undef => Failure(TypeError)
    case Str(s) => Success(Num(|s|))
    case Bytes(b) => Success(Num(|b|))
    case Arr(items) => Success(Num(|items|))
    case _ => Success(Undef)
  }

  /** ToUint8: the number modulo 256; values that are not numbers read as 0. */
  function ToUint8(v: Val): Byte
  {
    match v
    case Num(n) => n % 256
    case Dec(r) => Trunc(r) % 256
    case _ => 0
  }

  function Zeros(n: nat): (z: seq<Byte>)
    ensures |z| == n && forall i :: 0 <= i < n ==> z[i] == 0
  {
    seq(n, _ => 0)
  }

  /** Each item as an unsigned 8-bit integer, in order. */
  function Uint8Items(items: seq<Val>): (bytes: seq<Byte>)
    ensures |bytes| == |items|
    ensures forall i :: 0 <= i < |items| ==> bytes[i] == ToUint8(items[i])
  {
    if |items| == 0 then []
    else Uint8Items(items[..|items| - 1]) + [ToUint8(items[|items| - 1])]
  }

  /** `v[0]`, ..., `v[count - 1]`, read from anything but `undefined`. */
  function Elements(v: Val, count: nat): (entries: seq<Val>)
    requires !v.Undef?
    ensures |entries| == count
    ensures forall i :: 0 <= i < count ==> At(v, i) == Success(entries[i])
  {
    if count == 0 then [] else Elements(v, count - 1) + [At(v, count - 1).value]
  }

  /** The bytes of `new Uint8Array(v)`. */
  function Uint8View(v: Val): (r: Result<seq<Byte>>)
    ensures v.Bytes? ==> r == Success(v.b)
    ensures v.Arr? ==> r.Success? && |r.value| == |v.items|
                       && forall i :: 0 <= i < |v.items| ==> r.value[i] == ToUint8(v.items[i])
    ensures r.Failure? ==> r.error == RangeError
  {
    match v
    case Num(n) => if n < 0 then Failure(RangeError) else Success(Zeros(n))
    case Dec(r) => if Trunc(r) < 0 then Failure(RangeError) else Success(Zeros(Trunc(r)))
    case Bytes(b) => Success(b)
    case Arr(items) => Success(Uint8Items(items))
    case _ => Success([])
  }

  /**
   * The number of iterations of `for (let i = 0; i < v; i++)`: the least
   * natural number not below `v`, so a fractional bound rounds up.
   */
  function LoopBound(v: Val): (k: nat)
    ensures v.Num? ==> k == if v.n < 0 then 0 else v.n
    ensures !v.Num? && !v.Dec? ==> k == 0
  {
    match v
    case Num(n) => if n < 0 then 0 else n
    case Dec(r) => if r <= 0.0 then 0 else -((-r).Floor)
    case _ => 0
  }

  /** A positive fractional bound runs the loop up to the first integer not below it. */
  lemma LoopBoundRoundsUp(r: real)
    ensures r > 0.0 ==> (LoopBound(Dec(r)) - 1) as real < r <= LoopBound(Dec(r)) as real
    ensures r <= 0.0 ==> LoopBound(Dec(r)) == 0
  {
  }

  /** A loop bounded by 2.5 runs three times: i = 0, 1 and 2 are all below 2.5. */
  lemma FractionalLoopBound()
    ensures LoopBound(Dec(2.5)) == 3
    ensures LoopBound(Dec(3.0)) == 3
  {
    assert (-2.5).Floor == -3;
    assert (-3.0).Floor == -3;
  }

  function Pow2(k: nat): (p: nat)
    ensures p >= 1
  {
    if k == 0 then 1 else 2 * Pow2(k - 1)
  }

  function Pow10(k: nat): (p: nat)
    ensures p >= 1
  {
    if k == 0 then 1 else 10 * Pow10(k - 1)
  }

  /** Where a relative `slice` argument lands in a sequence of length `len`. */
  function SliceIndex(rel: int, len: nat): (k: nat)
    ensures k <= len
    ensures 0 <= rel <= len ==> k == rel
    ensures rel > len ==> k == len
  {
    if rel < 0 then (if len + rel < 0 then 0 else len + rel)
    else if rel > len then len
    else rel
  }

  /** `s.slice(start, end)`: negative arguments count from the end and both are clamped. */
  function JsSlice<T>(s: seq<T>, start: int, end: int): (r: seq<T>)
    ensures 0 <= start <= end ==> r == s[SliceIndex(start, |s|)..SliceIndex(end, |s|)]
    ensures |r| <= |s|
  {
    var from := SliceIndex(start, |s|);
    var to := SliceIndex(end, |s|);
    if from < to then s[from..to] else []
  }
}
