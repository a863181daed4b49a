/** iText's position-tracking output stream (`com.itextpdf.io.source.OutputStream`): a wrapper
    around a byte sink that counts, in `currentPos`, every byte it forwards, and adds helpers
    that write single bytes, byte arrays, strings and numbers in ISO (one byte per character)
    form. */
module IoSource {
  import opened JavaNumbers
  import SpaceSeparated

  /** Capacity of the number buffer: 19 digits of a long and 6 fraction digits fit. */
  const NumBufferCapacity: nat := 32

  /** A formatted number; it always fits the number buffer. */
  type NumBytes = s: seq<byte> | |s| <= NumBufferCapacity

  const NewLine: byte := 0x0A

  datatype Option<T> = None | Some(value: T)

  /** The failures the stream reports itself (sink I/O failures are not modelled). */
  datatype Error =
    | IndexOutOfBounds                                  // bad (off, len) given to write(b, off, len)
    | NullPointer                                       // unboxing an unset local precision
    | BytesCanBeAssignedToByteArrayOutputStreamOnly
    | BytesCanBeResetInByteArrayOutputStreamOnly

  datatype Outcome = Pass | Fail(error: Error)

  datatype Result<T> = Success(value: T) | Failure(error: Error)

  /** The conversions the stream delegates: the `ByteUtils.getIsoBytes` overloads for int, long,
      double (with its precision flag) and String, and Java's float-to-double widening. */
  datatype Conversions = Conversions(
    isoInt: int32 -> NumBytes,
    isoLong: int64 -> NumBytes,
    isoDouble: (Double, bool) -> NumBytes,
    isoString: string -> seq<byte>,
    widen: Float -> Double)

  /** The process-wide `ByteUtils.HighPrecision` flag, as an object the caller passes in. */
  class ByteUtilsGlobals {
    var highPrecision: bool

    constructor (highPrecision: bool)
      ensures this.highPrecision == highPrecision
    {
      this.highPrecision := highPrecision;
    }
  }

  /** The precision a float or double is written with: the stream's own setting when it has
      one, the global setting otherwise. */
  function SelectedPrecision(local: Option<bool>, global: bool): bool
  {
    match local
    case Some(v) => v
    case None => global
  }

  /** Once the stream has its own setting, the global one no longer matters. */
  lemma LocalOverridesGlobal(local: bool, global1: bool, global2: bool)
    ensures SelectedPrecision(Some(local), global1) == SelectedPrecision(Some(local), global2) == local
  {
  }

  /** The range check of `java.io.OutputStream.write(b, off, len)`. */
  predicate RangeFits(length: int, off: int32, len: int32)
  {
    0 <= off && 0 <= len && off as int + len as int <= length
  }

  /** The texts `writeFloats` writes for `values`, one per value, in order. */
  function IsoFloats(conv: Conversions, values: seq<Float>, highPrecision: bool): seq<seq<byte>>
  {
    seq(|values|, k requires 0 <= k < |values| => conv.isoDouble(conv.widen(values[k]), highPrecision))
  }

  class OutputStream {
    const conv: Conversions
    /** Whether the sink is a `ByteArrayOutputStream` (the only sink that can be reset). */
    const toByteArray: bool
    const numBuffer: array<byte>
    /** `numBuffer.size()`: the number of bytes at the end of `numBuffer` that hold the number. */
    var numCount: nat
    var localHighPrecision: Option<bool>
    var currentPos: int64
    var closeStream: bool

    /** The bytes forwarded to the sink since the position was last set (by construction,
        `reset` or `assignBytes`). */
    ghost var sent: seq<byte>
    /** The position set at that moment. */
    ghost var origin: int64
    /** How many times the sink was closed. */
    ghost var sinkCloses: nat
    /** Net number of times the `long` position has wrapped around by 2^64. */
    ghost var laps: int

    /** The position is the set position plus the bytes forwarded since, up to the wrap-around
        of a Java `long` (see `PositionIsWrappedCount`). */
    ghost predicate Valid()
      reads this
    {
      numBuffer.Length == NumBufferCapacity &&
      numCount <= NumBufferCapacity &&
      currentPos as int == origin as int + |sent| - laps * TwoTo64
    }

    /** `OutputStream(java.io.OutputStream)`. */
    constructor (toByteArray: bool, conv: Conversions)
      ensures Valid() && fresh(numBuffer)
      ensures this.conv == conv && this.toByteArray == toByteArray
      ensures localHighPrecision == None && closeStream
      ensures currentPos == 0 && sent == [] && origin == 0 && sinkCloses == 0 && laps == 0
    {
      this.conv := conv;
      this.toByteArray := toByteArray;
      numBuffer := new byte[NumBufferCapacity];
      numCount := 0;
      localHighPrecision := None;
      currentPos := 0;
      closeStream := true;
      sent := [];
      origin := 0;
      sinkCloses := 0;
      laps := 0;
    }

    /** `OutputStream(java.io.OutputStream, boolean)`. */
    constructor WithLocalPrecision(toByteArray: bool, conv: Conversions, localHighPrecision: bool)
      ensures Valid() && fresh(numBuffer)
      ensures this.conv == conv && this.toByteArray == toByteArray
      ensures this.localHighPrecision == Some(localHighPrecision) && closeStream
      ensures currentPos == 0 && sent == [] && origin == 0 && sinkCloses == 0 && laps == 0
    {
      this.conv := conv;
      this.toByteArray := toByteArray;
      numBuffer := new byte[NumBufferCapacity];
      numCount := 0;
      this.localHighPrecision := Some(localHighPrecision);
      currentPos := 0;
      closeStream := true;
      sent := [];
      origin := 0;
      sinkCloses := 0;
      laps := 0;
    }

    /** `getHighPrecision()`. */
    static method GetHighPrecision(globals: ByteUtilsGlobals) returns (value: bool)
      ensures value == globals.highPrecision
    {
      value := globals.highPrecision;
    }

    /** `setHighPrecision(boolean)`: affects every stream without a local setting. */
    static method SetHighPrecision(globals: ByteUtilsGlobals, value: bool)
      modifies globals
      ensures globals.highPrecision == value
    {
      globals.highPrecision := value;
    }

    /** `getLocalHighPrecision()`: unboxes the local setting, which fails when there is none. */
    method GetLocalHighPrecision() returns (r: Result<bool>)
      ensures r.Success? <==> localHighPrecision.Some?
      ensures r.Success? ==> r.value == localHighPrecision.value
      ensures r.Failure? ==> r.error == NullPointer
    {
      match localHighPrecision
      case Some(v) => r := Success(v);
      case None => r := Failure(NullPointer);
    }

    /** `setLocalHighPrecision(boolean)`. */
    method SetLocalHighPrecision(value: bool)
      requires Valid()
      modifies this`localHighPrecision
      ensures Valid()
      ensures localHighPrecision == Some(value)
    {
      localHighPrecision := Some(value);
    }

    /** `currentPos += n` on a Java `long`. */
    method Advance(n: nat)
      modifies this`currentPos, this`laps
      ensures currentPos == Wrap64(old(currentPos) as int + n)
      ensures currentPos as int == old(currentPos) as int + n - (laps - old(laps)) * TwoTo64
    {
      var next := Wrap64(currentPos as int + n);
      WrapCongruent(currentPos as int + n);
      ModNegate(next as int - (currentPos as int + n));
      laps := laps + (currentPos as int + n - next as int) / TwoTo64;
      currentPos := next;
    }

    /** `write(int)`: the sink receives the low byte of `b`; the position advances by one. */
    method Write(b: int32)
      requires Valid()
      modifies this`currentPos, this`laps, this`sent
      ensures Valid()
      ensures sent == old(sent) + [LowByte(b)]
      ensures currentPos == Wrap64(old(currentPos) as int + 1)
    {
      sent := sent + [LowByte(b)];
      Advance(1);
    }

    /** `write(byte[])`: the sink receives all of `b`; the position advances by its length. */
    method WriteArray(b: array<byte>)
      requires Valid()
      modifies this`currentPos, this`laps, this`sent
      ensures Valid()
      ensures sent == old(sent) + b[..]
      ensures currentPos == Wrap64(old(currentPos) as int + b.Length)
    {
      sent := sent + b[..];
      Advance(b.Length);
    }

    /** `write(byte[], int, int)`: the sink receives `b[off..off+len]` and the position advances
        by `len`; a range outside `b` is refused by the sink and nothing changes. */
    method WriteRange(b: array<byte>, off: int32, len: int32) returns (o: Outcome)
      requires Valid()
      modifies this`currentPos, this`laps, this`sent
      ensures Valid()
      ensures o.Pass? <==> RangeFits(b.Length, off, len)
      ensures o.Pass? ==> sent == old(sent) + b[off as int..off as int + len as int]
      ensures o.Pass? ==> currentPos == Wrap64(old(currentPos) as int + len as int)
      ensures o.Fail? ==> o.error == IndexOutOfBounds && sent == old(sent) && currentPos == old(currentPos)
    {
      if !RangeFits(b.Length, off, len) {
        return Fail(IndexOutOfBounds);
      }
      sent := sent + b[off as int..off as int + len as int];
      Advance(len as int);
      o := Pass;
    }

    /** `writeByte(byte)`: the sink receives the byte's own bit pattern. */
    method WriteByte(value: int8)
      requires Valid()
      modifies this`currentPos, this`laps, this`sent
      ensures Valid()
      ensures sent == old(sent) + [LowByte(value as int32)]
      ensures currentPos == Wrap64(old(currentPos) as int + 1)
    {
      Write(value as int32);
    }

    /** `writeByte(int)`. */
    method WriteByteInt(value: int32)
      requires Valid()
      modifies this`currentPos, this`laps, this`sent
      ensures Valid()
      ensures sent == old(sent) + [LowByte(value)]
      ensures currentPos == Wrap64(old(currentPos) as int + 1)
    {
      Write(value);
    }

    /** `close()`: the sink is closed exactly when `closeStream` is set. */
    method Close()
      requires Valid()
      modifies this`sinkCloses
      ensures Valid()
      ensures sinkCloses == old(sinkCloses) + if closeStream then 1 else 0
    {
      if closeStream {
        sinkCloses := sinkCloses + 1;
      }
    }

    /** `numBuffer.reset()` followed by `ByteUtils.getIsoBytes(value, numBuffer)`: the number
        ends up right-aligned in the buffer, in `[capacity - size, capacity)`. */
    method FillNumBuffer(digits: NumBytes)
      requires Valid()
      modifies this`numCount, numBuffer
      ensures Valid()
      ensures numCount == |digits| && numBuffer[NumBufferCapacity - numCount..] == digits
    {
      numCount := 0;
      var k := |digits|;
      while k > 0
        invariant 0 <= k <= |digits|
        invariant numCount == |digits| - k
        invariant numBuffer[NumBufferCapacity - numCount..] == digits[k..]
        invariant Valid()
      {
        k := k - 1;
        numCount := numCount + 1;
        numBuffer[NumBufferCapacity - numCount] := digits[k];
      }
    }

    /** Fill the number buffer, then forward its last `size()` bytes, the range
        `[capacity - size, capacity)`. */
    method WriteNumBuffer(digits: NumBytes)
      requires Valid()
      modifies this`numCount, numBuffer, this`currentPos, this`laps, this`sent
      ensures Valid()
      ensures numCount == |digits| && numBuffer[NumBufferCapacity - numCount..] == digits
      ensures sent == old(sent) + digits
      ensures currentPos == Wrap64(old(currentPos) as int + |digits|)
    {
      FillNumBuffer(digits);
      var o := WriteRange(numBuffer, (NumBufferCapacity - numCount) as int32, numCount as int32);
    }

    /** `writeLong(long)`. */
    method WriteLong(value: int64)
      requires Valid()
      modifies this`numCount, numBuffer, this`currentPos, this`laps, this`sent
      ensures Valid()
      ensures numCount == |conv.isoLong(value)|
      ensures numBuffer[NumBufferCapacity - numCount..] == conv.isoLong(value)
      ensures sent == old(sent) + conv.isoLong(value)
      ensures currentPos == Wrap64(old(currentPos) as int + |conv.isoLong(value)|)
    {
      WriteNumBuffer(conv.isoLong(value));
    }

    /** `writeInteger(int)`. */
    method WriteInteger(value: int32)
      requires Valid()
      modifies this`numCount, numBuffer, this`currentPos, this`laps, this`sent
      ensures Valid()
      ensures numCount == |conv.isoInt(value)|
      ensures numBuffer[NumBufferCapacity - numCount..] == conv.isoInt(value)
      ensures sent == old(sent) + conv.isoInt(value)
      ensures currentPos == Wrap64(old(currentPos) as int + |conv.isoInt(value)|)
    {
      WriteNumBuffer(conv.isoInt(value));
    }

    /** `writeDouble(double, boolean)`. */
    method WriteDoubleWithPrecision(value: Double, highPrecision: bool)
      requires Valid()
      modifies this`numCount, numBuffer, this`currentPos, this`laps, this`sent
      ensures Valid()
      ensures numCount == |conv.isoDouble(value, highPrecision)|
      ensures numBuffer[NumBufferCapacity - numCount..] == conv.isoDouble(value, highPrecision)
      ensures sent == old(sent) + conv.isoDouble(value, highPrecision)
      ensures currentPos == Wrap64(old(currentPos) as int + |conv.isoDouble(value, highPrecision)|)
    {
      WriteNumBuffer(conv.isoDouble(value, highPrecision));
    }

    /** `writeDouble(double)`: written with the local precision if set, else the global one. */
    method WriteDouble(value: Double, globals: ByteUtilsGlobals)
      requires Valid()
      modifies this`numCount, numBuffer, this`currentPos, this`laps, this`sent
      ensures Valid()
      ensures sent == old(sent) + conv.isoDouble(value, SelectedPrecision(localHighPrecision, globals.highPrecision))
      ensures currentPos == Wrap64(old(currentPos) as int + |conv.isoDouble(value, SelectedPrecision(localHighPrecision, globals.highPrecision))|)
    {
      WriteDoubleWithPrecision(value, SelectedPrecision(localHighPrecision, globals.highPrecision));
    }

    /** `writeFloat(float, boolean)`: the float is written as the double it widens to. */
    method WriteFloatWithPrecision(value: Float, highPrecision: bool)
      requires Valid()
      modifies this`numCount, numBuffer, this`currentPos, this`laps, this`sent
      ensures Valid()
      ensures sent == old(sent) + conv.isoDouble(conv.widen(value), highPrecision)
      ensures currentPos == Wrap64(old(currentPos) as int + |conv.isoDouble(conv.widen(value), highPrecision)|)
    {
      WriteDoubleWithPrecision(conv.widen(value), highPrecision);
    }

    /** `writeFloat(float)`: written with the local precision if set, else the global one. */
    method WriteFloat(value: Float, globals: ByteUtilsGlobals)
      requires Valid()
      modifies this`numCount, numBuffer, this`currentPos, this`laps, this`sent
      ensures Valid()
      ensures sent == old(sent) + conv.isoDouble(conv.widen(value), SelectedPrecision(localHighPrecision, globals.highPrecision))
      ensures currentPos == Wrap64(old(currentPos) as int + |conv.isoDouble(conv.widen(value), SelectedPrecision(localHighPrecision, globals.highPrecision))|)
    {
      WriteFloatWithPrecision(value, SelectedPrecision(localHighPrecision, globals.highPrecision));
    }

    /** `writeFloats(float[])`: every value in order, a single space between consecutive
        values and none after the last; an empty array writes nothing. */
    method WriteFloats(values: array<Float>, globals: ByteUtilsGlobals)
      requires Valid()
      modifies this`numCount, numBuffer, this`currentPos, this`laps, this`sent
      ensures Valid()
      ensures sent == old(sent) + SpaceSeparated.Join(IsoFloats(conv, old(values[..]), SelectedPrecision(localHighPrecision, globals.highPrecision)))
      ensures currentPos == Wrap64(old(currentPos) as int + (|sent| - |old(sent)|))
    {
      var highPrecision := SelectedPrecision(localHighPrecision, globals.highPrecision);
      var floats := values[..];
      ghost var items := IsoFloats(conv, floats, highPrecision);
      var n := values.Length;
      var i := 0;
      while i < n
        invariant 0 <= i <= n
        invariant Valid()
        invariant sent == old(sent) + SpaceSeparated.Progress(items, i)
      {
        SpaceSeparated.ProgressStep(old(sent), items, i);
        WriteFloat(floats[i], globals);
        if i < n - 1 {
          WriteSpace();
        }
        i := i + 1;
      }
      SpaceSeparated.ProgressDone(items);
      WrapUnique(old(currentPos) as int + (|sent| - |old(sent)|), currentPos as int, laps - old(laps));
    }

    /** `writeSpace()`. */
    method WriteSpace()
      requires Valid()
      modifies this`currentPos, this`laps, this`sent
      ensures Valid()
      ensures sent == old(sent) + [SpaceSeparated.Space]
      ensures currentPos == Wrap64(old(currentPos) as int + 1)
    {
      WriteByteInt(32);
    }

    /** `writeNewLine()`. */
    method WriteNewLine()
      requires Valid()
      modifies this`currentPos, this`laps, this`sent
      ensures Valid()
      ensures sent == old(sent) + [NewLine]
      ensures currentPos == Wrap64(old(currentPos) as int + 1)
    {
      WriteByteInt(10);
    }

    /** `writeString(String)`: the string's ISO bytes. */
    method WriteString(value: string)
      requires Valid()
      modifies this`currentPos, this`laps, this`sent
      ensures Valid()
      ensures sent == old(sent) + conv.isoString(value)
      ensures currentPos == Wrap64(old(currentPos) as int + |conv.isoString(value)|)
    {
      var bytes := conv.isoString(value);
      var b := new byte[|bytes|](k requires 0 <= k < |bytes| => bytes[k]);
      assert b[..] == bytes;
      WriteBytes(b);
    }

    /** `writeBytes(byte[])`. */
    method WriteBytes(b: array<byte>)
      requires Valid()
      modifies this`currentPos, this`laps, this`sent
      ensures Valid()
      ensures sent == old(sent) + b[..]
      ensures currentPos == Wrap64(old(currentPos) as int + b.Length)
    {
      WriteArray(b);
    }

    /** `writeBytes(byte[], int, int)`. */
    method WriteBytesRange(b: array<byte>, off: int32, len: int32) returns (o: Outcome)
      requires Valid()
      modifies this`currentPos, this`laps, this`sent
      ensures Valid()
      ensures o.Pass? <==> RangeFits(b.Length, off, len)
      ensures o.Pass? ==> sent == old(sent) + b[off as int..off as int + len as int]
      ensures o.Pass? ==> currentPos == Wrap64(old(currentPos) as int + len as int)
      ensures o.Fail? ==> o.error == IndexOutOfBounds && sent == old(sent) && currentPos == old(currentPos)
    {
      o := WriteRange(b, off, len);
    }

    /** `getCurrentPos()`: the set position plus the bytes forwarded since, as a Java `long`. */
    method GetCurrentPos() returns (pos: int64)
      requires Valid()
      ensures pos == currentPos
      ensures pos == Wrap64(origin as int + |sent|)
    {
      pos := currentPos;
      WrapUnique(origin as int + |sent|, pos as int, laps);
    }

    /** `isCloseStream()`. */
    method IsCloseStream() returns (r: bool)
      ensures r == closeStream
    {
      r := closeStream;
    }

    /** `setCloseStream(boolean)`. */
    method SetCloseStream(closeStream: bool)
      requires Valid()
      modifies this`closeStream
      ensures Valid()
      ensures this.closeStream == closeStream
    {
      this.closeStream := closeStream;
    }

    /** `assignBytes(byte[], int)`: on a byte-array sink the position becomes `count`; any other
        sink is refused and nothing changes. */
    method AssignBytes(bytes: array<byte>, count: int32) returns (o: Outcome)
      requires Valid()
      modifies this`currentPos, this`laps, this`sent, this`origin
      ensures Valid()
      ensures toByteArray ==> o == Pass && currentPos == count as int64 && sent == [] && origin == count as int64
      ensures !toByteArray ==> o == Fail(BytesCanBeAssignedToByteArrayOutputStreamOnly)
      ensures !toByteArray ==> currentPos == old(currentPos) && sent == old(sent) && origin == old(origin)
    {
      if toByteArray {
        sent := [];
        origin := count as int64;
        laps := 0;
        currentPos := count as int64;
        o := Pass;
      } else {
        o := Fail(BytesCanBeAssignedToByteArrayOutputStreamOnly);
      }
    }

    /** `reset()`: on a byte-array sink the position returns to 0; any other sink is refused
        and nothing changes. */
    method Reset() returns (o: Outcome)
      requires Valid()
      modifies this`currentPos, this`laps, this`sent, this`origin
      ensures Valid()
      ensures toByteArray ==> o == Pass && currentPos == 0 && sent == [] && origin == 0
      ensures !toByteArray ==> o == Fail(BytesCanBeResetInByteArrayOutputStreamOnly)
      ensures !toByteArray ==> currentPos == old(currentPos) && sent == old(sent) && origin == old(origin)
    {
      if toByteArray {
        sent := [];
        origin := 0;
        laps := 0;
        currentPos := 0;
        o := Pass;
      } else {
        o := Fail(BytesCanBeResetInByteArrayOutputStreamOnly);
      }
    }
  }

  /** The position is the set position plus the bytes forwarded since, wrapped to a `long`. */
  lemma PositionIsWrappedCount(s: OutputStream)
    requires s.Valid()
    ensures s.currentPos == Wrap64(s.origin as int + |s.sent|)
  {
    WrapUnique(s.origin as int + |s.sent|, s.currentPos as int, s.laps);
  }

  /** Until the position passes 2^63 - 1, it is exactly the set position plus the number of
      bytes forwarded since; on a fresh stream, exactly the number of bytes written. */
  lemma PositionCountsBytes(s: OutputStream)
    requires s.Valid()
    requires s.origin as int + |s.sent| < TwoTo63
    ensures s.currentPos as int == s.origin as int + |s.sent|
    ensures s.origin == 0 ==> s.currentPos as int == |s.sent|
  {
    PositionIsWrappedCount(s);
  }

  /** After `setLocalHighPrecision(x)`, a later `setHighPrecision` does not change what
      `writeDouble` writes: the value goes out with precision `x`. */
  method LocalPrecisionSurvivesGlobalChange(s: OutputStream, globals: ByteUtilsGlobals, x: bool, later: bool, value: Double)
    requires s.Valid()
    modifies s, s.numBuffer, globals
    ensures s.Valid()
    ensures s.sent == old(s.sent) + s.conv.isoDouble(value, x)
  {
    s.SetLocalHighPrecision(x);
    OutputStream.SetHighPrecision(globals, later);
    s.WriteDouble(value, globals);
  }
}
