# iText position-tracking output stream, in Dafny

This project models `com.itextpdf.io.source.OutputStream`, the byte writer through which iText
emits PDF files. The class wraps a byte sink (`java.io.OutputStream`) and counts every byte it
forwards in the `long` field `currentPos`. All of its `write*` helpers go through three
primitive `write` overloads:

- single bytes, spaces and newlines;
- byte arrays, whole or a range of one;
- strings in ISO form (one byte per character);
- integers, longs, floats and doubles, formatted into a 32-byte number buffer;
- lists of floats, separated by single spaces.

Around the counter the class keeps a little configuration:

- whether `close` also closes the sink (`closeStream`);
- an optional per-stream high-precision setting that wins over the process-wide one;
- `reset` and `assignBytes`, which set the position only when the sink is a byte-array stream.

Files:

- `java_numbers.dfy` (module `JavaNumbers`): Java's `byte`, `int` and `long` as newtypes. It
  also gives the wrap-around of a `long` (`Wrap64`, with the lemmas that a counter advanced step
  by step equals the wrapped total) and the low byte that `write(int)` keeps (`LowByte`).
- `space_separated.dfy` (module `SpaceSeparated`): the text `writeFloats` produces. `Join` puts
  a single space between consecutive items. The lemmas prove:
  - it adds exactly max(n - 1, 0) spaces;
  - appending an item to a non-empty list adds one space and then the item, so no separator
    follows the last item;
  - `Split` recovers a non-empty list of space-free items from its text.
- `output_stream.dfy` (module `IoSource`): the class `OutputStream`. Ghost fields describe the
  sink:
  - `sent` holds the bytes forwarded since the position was last set (at construction, `reset`
    or `assignBytes`);
  - `origin` holds the value the position was set to at that moment;
  - `sinkCloses` counts how many times the sink was closed;
  - `laps` counts how many times the `long` counter wrapped around.

  The object invariant `Valid()` says that the position is `origin` plus the size of `sent`,
  as a wrapped `long`. Every method states exactly what it appends to `sent` and how far it
  advances `currentPos`. Its `modifies` clause lists exactly the fields it may change.

How the model represents things the class relies on:

- Number and string formatting (`ByteUtils.getIsoBytes`) and the float-to-double widening are
  given functions, bundled in a `Conversions` value passed to the constructor. A formatted
  number has type `NumBytes`, whose values are at most 32 bytes long, so it fits the buffer.
- The process-wide `ByteUtils.HighPrecision` flag is a `ByteUtilsGlobals` object. The methods
  that read it take it as a parameter.
- `toByteArray` records whether the sink is a `ByteArrayOutputStream`.
- The range check on `write(b, off, len)` belongs to the `java.io.OutputStream` contract. The
  sink refuses a range outside `b`, nothing is counted, and the model returns
  `Fail(IndexOutOfBounds)`.
- `getLocalHighPrecision` unboxes a `Boolean` field that is `null` until a local setting is
  made. On such a stream the Java call throws `NullPointerException`, and the model returns
  `Failure(NullPointer)`.

## Model

| member | source | states |
|---|---|---|
| `IoSource.OutputStream.constructor` | io/src/main/java/com/itextpdf/io/source/OutputStream.java:104-107 | a new stream formats with the given conversions, has position 0, nothing sent, no local precision, and `closeStream` set |
| `IoSource.OutputStream.WithLocalPrecision` | io/src/main/java/com/itextpdf/io/source/OutputStream.java:126-130 | as the constructor (same conversions, position 0, nothing sent), but the local precision is the given value |
| `IoSource.OutputStream.GetHighPrecision` | io/src/main/java/com/itextpdf/io/source/OutputStream.java:64-66 | returns the process-wide precision flag |
| `IoSource.OutputStream.SetHighPrecision` | io/src/main/java/com/itextpdf/io/source/OutputStream.java:74-76 | sets the process-wide flag and changes nothing in any stream |
| `IoSource.OutputStream.GetLocalHighPrecision` | io/src/main/java/com/itextpdf/io/source/OutputStream.java:83-85 | succeeds exactly when a local setting exists and returns it; otherwise fails with a null-pointer error |
| `IoSource.OutputStream.SetLocalHighPrecision` | io/src/main/java/com/itextpdf/io/source/OutputStream.java:94-96 | the local setting becomes the value; nothing else changes |
| `IoSource.SelectedPrecision` | io/src/main/java/com/itextpdf/io/source/OutputStream.java:219 | the precision `writeFloat` and `writeDouble` (line 259 too) use: the local setting when one is present, otherwise the global one |
| `IoSource.LocalOverridesGlobal` | io/src/main/java/com/itextpdf/io/source/OutputStream.java:87-96 | with a local setting, the selected precision is that setting whatever the global value |
| `IoSource.LocalPrecisionSurvivesGlobalChange` | io/src/main/java/com/itextpdf/io/source/OutputStream.java:87-96 | after `setLocalHighPrecision(x)`, a later `setHighPrecision` does not change what `writeDouble` writes: the value goes out with precision `x` |
| `IoSource.OutputStream.Advance` | io/src/main/java/com/itextpdf/io/source/OutputStream.java:147 | `currentPos += n` on a `long`: the new position is the old one plus `n`, wrapped |
| `IoSource.OutputStream.Write` | io/src/main/java/com/itextpdf/io/source/OutputStream.java:132-136 | appends exactly one byte, the low byte of the argument, and advances the position by 1; nothing else changes |
| `IoSource.OutputStream.WriteArray` | io/src/main/java/com/itextpdf/io/source/OutputStream.java:138-142 | appends all of `b` and advances the position by `b.length` |
| `IoSource.OutputStream.WriteRange` | io/src/main/java/com/itextpdf/io/source/OutputStream.java:144-148 | succeeds exactly when `[off, off+len)` lies inside `b`; then appends `b[off..off+len)` and advances by `len`; otherwise fails with nothing sent and the position unchanged |
| `IoSource.OutputStream.WriteByte` | io/src/main/java/com/itextpdf/io/source/OutputStream.java:157-163 | appends the byte's own bit pattern and advances by 1 |
| `IoSource.OutputStream.Close` | io/src/main/java/com/itextpdf/io/source/OutputStream.java:171-175 | the sink is closed once more exactly when `closeStream` is set, and not otherwise |
| `IoSource.OutputStream.FillNumBuffer` | io/src/main/java/com/itextpdf/io/source/OutputStream.java:186 | after the reset and refill, the number's bytes occupy exactly the last `size` cells of the 32-byte buffer |
| `IoSource.OutputStream.WriteNumBuffer` | io/src/main/java/com/itextpdf/io/source/OutputStream.java:186-187 | forwards the buffer range `[capacity - size, capacity)`, which is exactly the formatted number, and advances by `size` |
| `IoSource.OutputStream.WriteLong` | io/src/main/java/com/itextpdf/io/source/OutputStream.java:184-192 | appends the long's ISO text, which is the last `size` bytes of the number buffer, and advances by its length |
| `IoSource.OutputStream.WriteInteger` | io/src/main/java/com/itextpdf/io/source/OutputStream.java:201-209 | appends the int's ISO text, which is the last `size` bytes of the number buffer, and advances by its length |
| `IoSource.OutputStream.WriteFloat` | io/src/main/java/com/itextpdf/io/source/OutputStream.java:218-220 | appends the float's text (as the double it widens to) in the selected precision |
| `IoSource.OutputStream.WriteFloatWithPrecision` | io/src/main/java/com/itextpdf/io/source/OutputStream.java:230-232 | appends the text of the widened double in the given precision |
| `IoSource.OutputStream.WriteFloats` | io/src/main/java/com/itextpdf/io/source/OutputStream.java:241-249 | appends the elements' texts in order, joined by single spaces; an empty array appends nothing |
| `SpaceSeparated.JoinLength` | io/src/main/java/com/itextpdf/io/source/OutputStream.java:241-249 | the `writeFloats` text is the items' bytes plus exactly max(n - 1, 0) separator bytes |
| `SpaceSeparated.JoinSpaces` | io/src/main/java/com/itextpdf/io/source/OutputStream.java:241-249 | for space-free items, the text holds exactly max(n - 1, 0) spaces |
| `SpaceSeparated.JoinSnoc` | io/src/main/java/com/itextpdf/io/source/OutputStream.java:244-246 | a further item is preceded by one space and followed by none, so the last item is never followed by a space |
| `SpaceSeparated.ProgressStep` | io/src/main/java/com/itextpdf/io/source/OutputStream.java:242-247 | each loop turn (one value, then a space unless it is the last) extends the text of the values written so far by one item |
| `SpaceSeparated.SplitJoin` | io/src/main/java/com/itextpdf/io/source/OutputStream.java:241-249 | the separator rule is unambiguous: cutting the text at its spaces gives back the non-empty list of space-free items |
| `IoSource.OutputStream.WriteDouble` | io/src/main/java/com/itextpdf/io/source/OutputStream.java:258-260 | appends the double's text in the selected precision |
| `IoSource.OutputStream.WriteDoubleWithPrecision` | io/src/main/java/com/itextpdf/io/source/OutputStream.java:270-278 | appends the double's text in the given precision, which is the last `size` bytes of the number buffer, and advances by its length |
| `IoSource.OutputStream.WriteByteInt` | io/src/main/java/com/itextpdf/io/source/OutputStream.java:287-294 | appends the low byte of the int and advances by 1 |
| `IoSource.OutputStream.WriteSpace` | io/src/main/java/com/itextpdf/io/source/OutputStream.java:301-303 | appends the single byte 0x20 and advances by 1 |
| `IoSource.OutputStream.WriteNewLine` | io/src/main/java/com/itextpdf/io/source/OutputStream.java:310-312 | appends the single byte 0x0A and advances by 1 |
| `IoSource.OutputStream.WriteString` | io/src/main/java/com/itextpdf/io/source/OutputStream.java:321-323 | appends the string's ISO bytes and advances by their number |
| `IoSource.OutputStream.WriteBytes` | io/src/main/java/com/itextpdf/io/source/OutputStream.java:334-341 | appends all of `b` and advances by `b.length` |
| `IoSource.OutputStream.WriteBytesRange` | io/src/main/java/com/itextpdf/io/source/OutputStream.java:354-361 | as `write(b, off, len)`: the range is appended and counted, or it is refused and nothing changes |
| `IoSource.OutputStream.GetCurrentPos` | io/src/main/java/com/itextpdf/io/source/OutputStream.java:368-370 | returns `currentPos`, which is the set position plus the number of bytes forwarded since, as a wrapped `long` |
| `IoSource.OutputStream.IsCloseStream` | io/src/main/java/com/itextpdf/io/source/OutputStream.java:387-389 | returns whether `close` will close the sink |
| `IoSource.OutputStream.SetCloseStream` | io/src/main/java/com/itextpdf/io/source/OutputStream.java:396-398 | sets that flag and nothing else; it is the only method that changes it |
| `IoSource.OutputStream.AssignBytes` | io/src/main/java/com/itextpdf/io/source/OutputStream.java:406-413 | on a byte-array sink, succeeds and sets the position to `count`; on any other sink, fails with `BytesCanBeAssignedToByteArrayOutputStreamOnly` and changes nothing |
| `IoSource.OutputStream.Reset` | io/src/main/java/com/itextpdf/io/source/OutputStream.java:421-428 | on a byte-array sink, succeeds and sets the position to 0; on any other sink, fails with `BytesCanBeResetInByteArrayOutputStreamOnly` and changes nothing |
| `JavaNumbers.Wrap64` | io/src/main/java/com/itextpdf/io/source/OutputStream.java:56 | the `long` value of an integer: the integer itself whenever it fits in 64 bits |
| `JavaNumbers.WrapCongruent` | io/src/main/java/com/itextpdf/io/source/OutputStream.java:56 | the wrapped value differs from the integer by a multiple of 2^64 |
| `JavaNumbers.WrapUnique` | io/src/main/java/com/itextpdf/io/source/OutputStream.java:56 | a `long`-range value that differs from the integer by a multiple of 2^64 is its wrapped value |
| `JavaNumbers.WrapAdd` | io/src/main/java/com/itextpdf/io/source/OutputStream.java:135 | incrementing a wrapped counter gives the same `long` as wrapping the grand total |
| `JavaNumbers.LowByte` | io/src/main/java/com/itextpdf/io/source/OutputStream.java:133-134 | the byte sent for `write(int b)` equals `b` modulo 256, and equals `b` itself for 0..255 |
| `JavaNumbers.ByteWidening` | io/src/main/java/com/itextpdf/io/source/OutputStream.java:157-159 | a Java `byte` widened to `int` is sent as its own two's-complement bit pattern |
| `IoSource.PositionIsWrappedCount` | io/src/main/java/com/itextpdf/io/source/OutputStream.java:56 | in every valid state, `currentPos` is the set position plus the bytes forwarded since, wrapped to a `long` |
| `IoSource.PositionCountsBytes` | io/src/main/java/com/itextpdf/io/source/OutputStream.java:135-147 | until 2^63 bytes are reached, `currentPos` equals the set position plus the number of bytes forwarded; on a stream never reset or assigned, it equals the number of bytes written |

## Left out

- Sink failures: a `java.io.IOException` from the sink, and its wrapping into iText's `IOException` with `CannotWriteByte`, `CannotWriteIntNumber`, `CannotWriteFloatNumber` or `CannotWriteBytes`. The model's sink accepts every write.
- `flush`: it only forwards to the sink, and the model keeps no sink state that it would change.
- `getOutputStream`: the sink is not an object in the model. It is represented by the bytes sent to it, the number of times it was closed and whether it is a byte-array stream.
- The protected no-argument constructor. It leaves the sink `null`, so every write on such a stream fails with a null pointer.
- Null array or string arguments, which fail with `NullPointerException` in Java. Dafny arrays and strings are never null.
- `ByteUtils.getIsoBytes` (number and string formatting) and the float-to-double widening. They are not part of this model and enter as given functions. The model assumes only that a formatted number fits the 32-byte buffer.
- `ByteBuffer` is not part of this model. The number buffer is an array plus a count in the stream.
- `ByteArrayOutputStream` is not part of this model.
- IoSource.OutputStream.AssignBytes: states only the new position. It does not say what the byte-array sink then holds, because that is decided by `ByteArrayOutputStream.assignBytes`.
- IoSource.OutputStream.Reset: states only the new position and that nothing is counted as sent. It does not say that the byte-array sink is emptied, for the same reason.
- Sharing of the sink with other writers, and threads that change the process-wide precision flag while a stream writes.
- The generic `(T) this` results of the fluent `write*` helpers. They carry no behaviour.
- The layout engine and its margin-collapsing tests (`layout/src/test/java/com/itextpdf/layout/CollapsingMarginsTest.java`). The tests only compare whole PDF files, and the engine's code is not part of this model.
