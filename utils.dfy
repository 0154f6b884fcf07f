/**
 * The payload generator: a byte source that repeats one fill byte forever,
 * and the input stream it opens.
 */
module Utils {
  import opened JavaTypes
  import opened Wrappers

  /** What `InputStream.read()` returns to signal the end of the stream. */
  const EndOfStream: int := -1

  /** The exceptions thrown on bad array bounds. */
  datatype StreamError =
    | IllegalArgument   // `Arrays.fill` with from > to
    | IndexOutOfBounds  // a bound outside the array

  /** `Arrays.fill` on the contents of an array: cells [from, to) become `v`. */
  function Fill(s: seq<int8>, from: nat, to: nat, v: int8): (r: seq<int8>)
    requires from <= to <= |s|
    ensures |r| == |s|
    ensures forall i | 0 <= i < |s| :: r[i] == if from <= i < to then v else s[i]
  {
    s[..from] + seq(to - from, _ => v) + s[to..]
  }

  /** The signed byte whose unsigned value, as `read()` reports it, is `u`. */
  function ToSigned(u: int): (b: int8)
    requires 0 <= u < 256
    ensures b as int % 256 == u
  {
    if u < 128 then u as int8 else (u - 256) as int8
  }

  /** `Utils.infiniteByteSource(fill)`. */
  datatype InfiniteByteSource = InfiniteByteSource(fill: int8) {

    /** Every call opens a new stream over the same fill. */
    function OpenStream(): (s: InfiniteByteStream)
      ensures s.fill == fill
    {
      InfiniteByteStream(fill)
    }

    /**
     * The first `length` bytes of the source, which is what
     * `slice(0, length)` holds: each is the byte a fresh stream reads.
     */
    function Slice(length: nat): (r: seq<int8>)
      ensures |r| == length
      ensures forall i | 0 <= i < length :: r[i] == ToSigned(OpenStream().Read())
    {
      seq(length, _ => fill)
    }

    /**
     * `read()` on the sliced source: open a stream and read `length`
     * bytes of it into a new array.
     */
    method Read(length: nat) returns (bytes: seq<int8>)
      requires length <= MaxInt32
      ensures bytes == Slice(length)
    {
      var stream := OpenStream();
      var b := new int8[length];
      var n := stream.ReadAll(b);
      bytes := b[..];
    }
  }

  /** The stream an `InfiniteByteSource` opens: it never reaches its end. */
  datatype InfiniteByteStream = InfiniteByteStream(fill: int8) {

    /** `read()` as written: the signed fill widened to `int`. */
    function ReadAsWritten(): (r: int)
      ensures r == fill as int
      ensures r != EndOfStream <==> fill != -1
    {
      fill as int
    }

    /**
     * `read()` as the input-stream contract requires it: the fill as an
     * unsigned value in [0, 255], so never the end-of-stream marker.
     */
    function Read(): (r: int)
      ensures 0 <= r <= 255
      ensures r != EndOfStream
      ensures ToSigned(r) == fill
    {
      fill as int % 256
    }

    /**
     * `read(b, off, len)` as written: `Arrays.fill(b, off, len, fill)` and
     * return `len`, so the cells filled are [off, len), not [off, off + len).
     */
    method ReadRangeAsWritten(b: array<int8>, off: int32, len: int32)
      returns (r: Result<int32, StreamError>)
      modifies b
      ensures r == if off > len then Failure(IllegalArgument)
                   else if off < 0 || len as int > b.Length then Failure(IndexOutOfBounds)
                   else Success(len)
      ensures r.Success? ==> b[..] == Fill(old(b[..]), off as nat, len as nat, fill)
      ensures r.Failure? ==> b[..] == old(b[..])
    {
      if off > len {
        return Failure(IllegalArgument);
      }
      if off < 0 || len as int > b.Length {
        return Failure(IndexOutOfBounds);
      }
      forall i | off as int <= i < len as int {
        b[i] := fill;
      }
      r := Success(len);
    }

    /**
     * `read(b, off, len)` as the input-stream contract requires it: reject
     * bounds outside the array, otherwise fill [off, off + len) and
     * report `len` bytes read.
     */
    method ReadRange(b: array<int8>, off: int32, len: int32)
      returns (r: Result<int32, StreamError>)
      modifies b
      ensures r == if off < 0 || len < 0 || off as int + len as int > b.Length
                   then Failure(IndexOutOfBounds) else Success(len)
      ensures r.Success? ==> b[..] == Fill(old(b[..]), off as nat, off as nat + len as nat, fill)
      ensures r.Failure? ==> b[..] == old(b[..])
    {
      if off < 0 || len < 0 || off as int + len as int > b.Length {
        return Failure(IndexOutOfBounds);
      }
      forall i | off as int <= i < off as int + len as int {
        b[i] := fill;
      }
      r := Success(len);
    }

    /** `read(b)`: `read(b, 0, b.length)`, which fills the whole array. */
    method ReadAll(b: array<int8>) returns (n: int32)
      requires b.Length <= MaxInt32
      modifies b
      ensures n as int == b.Length
      ensures forall i | 0 <= i < b.Length :: b[i] == fill
    {
      var r := ReadRange(b, 0, b.Length as int32);
      n := r.value;
    }
  }

  /**
   * With `off > 0` the written `read(b, off, len)` reports `len` bytes read
   * but leaves the reported cells unfilled: on a two-cell array with
   * off = 1 and len = 1 it returns 1 and cell 1 keeps its old value.
   */
  method ReadRangeAsWrittenLosesBytes() returns (reported: int32, cell: int8)
    ensures reported == 1 && cell == 0
    ensures cell != InfiniteByteStream(1).fill
  {
    var stream := InfiniteByteStream(1);
    var b := new int8[2](_ => 0);
    var r := stream.ReadRangeAsWritten(b, 1, 1);
    reported := r.value;
    cell := b[1];
  }

  /** The corrected `read(b, off, len)` on the same input fills cell 1. */
  method ReadRangeFillsReportedBytes() returns (reported: int32, cell: int8)
    ensures reported == 1 && cell == InfiniteByteStream(1).fill
  {
    var stream := InfiniteByteStream(1);
    var b := new int8[2](_ => 0);
    var r := stream.ReadRange(b, 1, 1);
    reported := r.value;
    cell := b[1];
  }

  /** A stream over fill -1 answers `read()` with the end-of-stream marker. */
  lemma ReadAsWrittenSignalsEndOfStream()
    ensures InfiniteByteStream(-1).ReadAsWritten() == EndOfStream
    ensures InfiniteByteStream(-1).Read() == 255
  {
  }

  /** For a non-negative fill, such as 1 and 2, both `read()`s agree. */
  lemma ReadAsWrittenAgrees(s: InfiniteByteStream)
    requires s.fill >= 0
    ensures s.ReadAsWritten() == s.Read()
  {
  }

  /**
   * Sources over different fills give slices that differ at every index,
   * so they are equal exactly when empty.
   */
  lemma SlicesDiffer(a: InfiniteByteSource, b: InfiniteByteSource, n: nat)
    requires a.fill != b.fill
    ensures forall i | 0 <= i < n :: a.Slice(n)[i] != b.Slice(n)[i]
    ensures a.Slice(n) == b.Slice(n) <==> n == 0
  {
    if n > 0 {
      assert a.Slice(n)[0] != b.Slice(n)[0];
    }
  }
}
