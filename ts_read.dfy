/**
 * Recovering source text: `read` seeks a cursor over the source bytes
 * to a span's offset, reads exactly the span's length and checks that
 * the bytes are UTF-8.
 */
module Reader {
  import opened Wrappers
  import opened Utf8
  import opened Locations
  import opened Errors

  /** `usize` offsets are converted to `u64` before seeking. */
  const U64_LIMIT: nat := 0x1_0000_0000_0000_0000

  /** What `TryFromIntError` displays. */
  const OutOfRangeHelp: string := "out of range integral type conversion attempted"

  /** What the `UnexpectedEof` error of a short `read_exact` displays. */
  const ShortReadHelp: string := "failed to fill whole buffer"

  /** A result together with where the cursor stands afterwards. */
  datatype Step<T> = Step(result: Result<T>, pos: nat)

  /**
   * Whether `read_exact` can fill a span's buffer after seeking to its
   * offset: an empty buffer is always filled, even past the end.
   */
  predicate InText(loc: Span, text: seq<byte>) {
    loc.len == 0 || loc.offset + loc.len <= |text|
  }

  /** The bytes a span covers (none for an empty span, wherever it starts). */
  function Covered(loc: Span, text: seq<byte>): (b: seq<byte>)
    requires InText(loc, text)
    ensures |b| == loc.len
  {
    if loc.len == 0 then [] else text[loc.offset..loc.offset + loc.len]
  }

  /**
   * `read(loc, cursor)` over source bytes `text` with the cursor at `pos`.
   * It succeeds exactly when the offset converts to `u64`, the span's
   * buffer can be filled and the bytes are valid UTF-8, and then yields
   * those bytes; a span whose buffer cannot be filled, or whose offset
   * does not convert, is a `Reading` error at that span, invalid bytes an
   * `Encoding` error describing them.
   */
  function ReadAt(loc: Span, text: seq<byte>, pos: nat): (s: Step<seq<byte>>)
    ensures s.result.Ok? <==>
      loc.offset < U64_LIMIT && InText(loc, text) && IsUtf8(Covered(loc, text))
    ensures s.result.Ok? ==>
      s.result.value == Covered(loc, text) && s.pos == loc.offset + loc.len
    ensures s.result.Err? && s.result.error.Reading? <==>
      !(loc.offset < U64_LIMIT && InText(loc, text))
    ensures s.result.Err? ==> match s.result.error
      case Reading(at, _) => at == loc
      case Encoding(e) =>
        InText(loc, text) && e.validUpTo < loc.len && IsUtf8(Covered(loc, text)[..e.validUpTo])
      case _ => false
  {
    if loc.offset >= U64_LIMIT then Step(Err(Reading(loc, OutOfRangeHelp)), pos)
    else if !InText(loc, text) then Step(Err(Reading(loc, ShortReadHelp)), |text|)
    else
      var bytes := Covered(loc, text);
      ValidateAgreesWithRfc3629(bytes, 0);
      assert bytes[0..] == bytes;
      match Validate(bytes, 0)
      case None => Step(Ok(bytes), loc.offset + loc.len)
      case Some(e) =>
        Utf8ErrorDescribesInput(bytes, 0);
        Step(Err(Encoding(e)), loc.offset + loc.len)
  }

  /** `std::io::Cursor` over the source bytes. */
  class Cursor {
    const inner: seq<byte>
    var pos: nat

    /** `Cursor::new`: positioned at the start. */
    constructor (text: seq<byte>)
      ensures inner == text && pos == 0
    {
      inner := text;
      pos := 0;
    }

    /** `seek(SeekFrom::Start(offset))`: always succeeds, even past the end. */
    method Seek(offset: nat) returns (p: nat)
      modifies this`pos
      ensures pos == offset && p == offset
    {
      pos := offset;
      p := pos;
    }

    /**
     * `read_exact` of `len` bytes from what remains after the position:
     * either all of them, moving past them (an empty read always
     * succeeds, even past the end), or an `UnexpectedEof` failure that
     * leaves the cursor at the end.
     */
    method ReadExact(len: nat) returns (buf: Option<seq<byte>>)
      modifies this`pos
      ensures len == 0 || old(pos) + len <= |inner| ==>
        && buf.Some? && |buf.value| == len && pos == old(pos) + len
        && (len > 0 ==> buf.value == inner[old(pos)..old(pos) + len])
      ensures !(len == 0 || old(pos) + len <= |inner|) ==> buf == None && pos == |inner|
    {
      if len == 0 {
        buf := Some([]);
      } else if pos + len <= |inner| {
        buf := Some(inner[pos..pos + len]);
        pos := pos + len;
      } else {
        buf := None;
        pos := |inner|;
      }
    }
  }

  /** `read`: seek, read exactly, decode; only the cursor's position changes. */
  method Read(loc: Span, cursor: Cursor) returns (r: Result<seq<byte>>)
    modifies cursor`pos
    ensures Step(r, cursor.pos) == ReadAt(loc, cursor.inner, old(cursor.pos))
  {
    if loc.offset >= U64_LIMIT {
      return Err(Reading(loc, OutOfRangeHelp));
    }
    var at := cursor.Seek(loc.offset);
    var buf := cursor.ReadExact(loc.len);
    if buf.None? {
      return Err(Reading(loc, ShortReadHelp));
    }
    var bad := Validate(buf.value, 0);
    if bad.Some? {
      return Err(Encoding(bad.value));
    }
    return Ok(buf.value);
  }
}
