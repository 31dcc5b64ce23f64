/** The strict PNG chunk walker (chunk layout of sections 3.1 and 3.2 of RFC 2083). */
module PngWalk {
  import opened Results

  type byte = b: int | 0 <= b < 256

  type Bytes = seq<byte>

  const WORD := 4294967296

  const SIGNATURE: Bytes := [137, 80, 78, 71, 13, 10, 26, 10]
  const IHDR: Bytes := [73, 72, 68, 82]
  const IDAT: Bytes := [73, 68, 65, 84]
  const IEND: Bytes := [73, 69, 78, 68]

  function Ascii(s: string): (b: Bytes)
    requires forall k :: 0 <= k < |s| ==> s[k] < 128 as char
    ensures |b| == |s| && forall k :: 0 <= k < |s| ==> b[k] == s[k] as int
  {
    seq(|s|, k requires 0 <= k < |s| => s[k] as int)
  }

  /** The signature and the kinds spell what the format says. */
  lemma NamesAreSpelled()
    ensures IHDR == Ascii("IHDR") && IDAT == Ascii("IDAT") && IEND == Ascii("IEND")
    ensures SIGNATURE == [0x89] + Ascii("PNG") + [0x0D, 0x0A, 0x1A, 0x0A]
  {
    assert Ascii("PNG") == [80, 78, 71];
  }

  /** A big-endian 32-bit number. */
  function Number(b: Bytes): (n: nat)
    requires |b| == 4
    ensures n < WORD
  {
    ((b[0] as int * 256 + b[1] as int) * 256 + b[2] as int) * 256 + b[3] as int
  }

  function Encode(n: nat): (b: Bytes)
    requires n < WORD
    ensures |b| == 4
  {
    var high := n / 256;
    var higher := high / 256;
    [higher / 256, higher % 256, high % 256, n % 256]
  }

  /** The four bytes of `b` from `k` on, the first weighing most. */
  ghost function BigEndian(b: Bytes, k: nat): nat
    requires k + 4 <= |b|
  {
    b[k] as int * 16777216 + b[k + 1] as int * 65536 + b[k + 2] as int * 256 + b[k + 3] as int
  }

  lemma NumberIsBigEndian(b: Bytes, k: nat)
    requires k + 4 <= |b|
    ensures Number(b[k..k + 4]) == BigEndian(b, k)
  {
  }

  lemma NumberOfEncode(n: nat)
    requires n < WORD
    ensures Number(Encode(n)) == n
  {
    var high := n / 256;
    var higher := high / 256;
    assert higher == higher / 256 * 256 + higher % 256;
    assert high == higher * 256 + high % 256;
    assert n == high * 256 + n % 256;
  }

  /** Dividing takes the last digit off again. */
  lemma LastDigit(high: nat, low: nat)
    requires low < 256
    ensures (high * 256 + low) / 256 == high && (high * 256 + low) % 256 == low
  {
  }

  lemma EncodeOfNumber(b: Bytes)
    requires |b| == 4
    ensures Encode(Number(b)) == b
  {
    var higher := b[0] as int * 256 + b[1] as int;
    var high := higher * 256 + b[2] as int;
    LastDigit(b[0] as int, b[1] as int);
    LastDigit(higher, b[2] as int);
    LastDigit(high, b[3] as int);
  }

  datatype Chunk = Chunk(kind: Bytes, data: Bytes)

  predicate ValidChunk(c: Chunk) {
    |c.kind| == 4 && |c.data| < WORD
  }

  /** `crc` is the CRC-32 function, left uninterpreted, and masked to 32 bits as the source does. */
  function Checksum(crc: Bytes -> int, c: Chunk): (n: nat)
    ensures n < WORD
  {
    crc(c.kind + c.data) % WORD
  }

  function Serialize(crc: Bytes -> int, c: Chunk): (b: Bytes)
    requires ValidChunk(c)
    ensures |b| == 12 + |c.data|
  {
    Encode(|c.data|) + c.kind + c.data + Encode(Checksum(crc, c))
  }

  ghost predicate ValidChunks(chunks: seq<Chunk>) {
    forall i :: 0 <= i < |chunks| ==> ValidChunk(chunks[i])
  }

  ghost function SerializeAll(crc: Bytes -> int, chunks: seq<Chunk>): Bytes
    requires ValidChunks(chunks)
  {
    if chunks == [] then [] else Serialize(crc, chunks[0]) + SerializeAll(crc, chunks[1..])
  }

  /** The chunk at the front of `b`, if it is complete and its checksum is right. */
  function First(crc: Bytes -> int, b: Bytes): Option<Chunk> {
    if |b| < 12 then None
    else
      var end := 8 + Number(b[..4]);
      if end + 4 > |b| then None
      else
        var c := Chunk(b[4..8], b[8..end]);
        if Number(b[end..end + 4]) == Checksum(crc, c) then Some(c) else None
  }

  ghost function Parse(crc: Bytes -> int, b: Bytes): Option<seq<Chunk>>
    decreases |b|
  {
    if b == [] then Some([])
    else match First(crc, b)
      case None => None
      case Some(c) => Prepend([c], Parse(crc, b[12 + |c.data|..]))
  }

  ghost function Prepend(front: seq<Chunk>, rest: Option<seq<Chunk>>): Option<seq<Chunk>> {
    if rest.Some? then Some(front + rest.value) else None
  }

  lemma FirstOfSerialized(crc: Bytes -> int, c: Chunk, tail: Bytes)
    requires ValidChunk(c)
    ensures First(crc, Serialize(crc, c) + tail) == Some(c)
  {
    var b, end := Serialize(crc, c) + tail, 8 + |c.data|;
    NumberOfEncode(|c.data|);
    NumberOfEncode(Checksum(crc, c));
    assert b[..4] == Encode(|c.data|);
    assert b[4..8] == c.kind;
    assert b[8..end] == c.data;
    assert b[end..end + 4] == Encode(Checksum(crc, c));
  }

  lemma FirstIsSerialized(crc: Bytes -> int, b: Bytes)
    requires First(crc, b).Some?
    ensures var c := First(crc, b).value;
            ValidChunk(c) && |b| >= 12 + |c.data| && b[..12 + |c.data|] == Serialize(crc, c)
  {
    var c := First(crc, b).value;
    var end := 8 + |c.data|;
    EncodeOfNumber(b[..4]);
    EncodeOfNumber(b[end..end + 4]);
    assert b[..end + 4] == b[..4] + b[4..8] + b[8..end] + b[end..end + 4];
  }

  /** Parsing undoes serialising. */
  lemma {:induction false} ParseOfSerialized(crc: Bytes -> int, chunks: seq<Chunk>)
    requires ValidChunks(chunks)
    ensures Parse(crc, SerializeAll(crc, chunks)) == Some(chunks)
  {
    if chunks != [] {
      var c, rest := chunks[0], SerializeAll(crc, chunks[1..]);
      FirstOfSerialized(crc, c, rest);
      ParseOfSerialized(crc, chunks[1..]);
      assert (Serialize(crc, c) + rest)[12 + |c.data|..] == rest;
      assert Parse(crc, Serialize(crc, c) + rest) == Prepend([c], Parse(crc, rest));
      assert chunks == [c] + chunks[1..];
    }
  }

  /** Only serialised chunk lists parse. */
  lemma {:induction false} ParsedIsSerialized(crc: Bytes -> int, b: Bytes)
    requires Parse(crc, b).Some?
    ensures ValidChunks(Parse(crc, b).value)
    ensures SerializeAll(crc, Parse(crc, b).value) == b
    decreases |b|
  {
    if b != [] {
      FirstIsSerialized(crc, b);
      var c := First(crc, b).value;
      var n := 12 + |c.data|;
      ParsedIsSerialized(crc, b[n..]);
      var chunks := Parse(crc, b).value;
      assert chunks[1..] == Parse(crc, b[n..]).value;
      assert b == b[..n] + b[n..];
    }
  }

  // ----- What makes a chunk list a picture

  ghost function ImageData(chunks: seq<Chunk>): Bytes {
    if |chunks| <= 1 then []
    else ImageData(chunks[..|chunks| - 1])
         + if chunks[|chunks| - 1].kind == IDAT then chunks[|chunks| - 1].data else []
  }

  ghost predicate HasKind(chunks: seq<Chunk>, kind: Bytes) {
    exists i :: 1 <= i < |chunks| && chunks[i].kind == kind
  }

  /** The list starts with a 13-byte IHDR, has an IDAT, and ends with its only IEND, which is
      empty; anything else may stand in between. */
  ghost predicate WellFormed(chunks: seq<Chunk>) {
    && chunks != [] && chunks[0].kind == IHDR && |chunks[0].data| == 13
    && HasKind(chunks, IDAT)
    && HasKind(chunks, IEND)
    && forall i :: 1 <= i < |chunks| && chunks[i].kind == IEND ==> chunks[i].data == [] && i == |chunks| - 1
  }

  ghost predicate IsPng(raw: Bytes, crc: Bytes -> int, inflate: Bytes -> Option<Bytes>, chunks: seq<Chunk>) {
    && ValidChunks(chunks) && raw == SIGNATURE + SerializeAll(crc, chunks)
    && WellFormed(chunks)
    && inflate(ImageData(chunks)).Some? && inflate(ImageData(chunks)).value != []
  }

  ghost function Dimensions(chunks: seq<Chunk>): (nat, nat)
    requires WellFormed(chunks)
  {
    (Number(chunks[0].data[..4]), Number(chunks[0].data[4..8]))
  }

  datatype PngError =
    | Signature | TruncatedHeader | TruncatedData | Crc | FirstChunk | BadIend
    | Incomplete | BadImageData | EmptyImageData

  /** A chunk list is determined by the bytes. */
  lemma PngIsUnique(raw: Bytes, crc: Bytes -> int, inflate: Bytes -> Option<Bytes>, chunks: seq<Chunk>)
    requires IsPng(raw, crc, inflate, chunks)
    ensures |raw| >= 8 && raw[..8] == SIGNATURE && Parse(crc, raw[8..]) == Some(chunks)
  {
    ParseOfSerialized(crc, chunks);
    assert raw[8..] == SerializeAll(crc, chunks);
  }

  ghost predicate NoPng(raw: Bytes, crc: Bytes -> int, inflate: Bytes -> Option<Bytes>) {
    forall chunks :: !IsPng(raw, crc, inflate, chunks)
  }

  /** What the walker has learned when it stands at `offset` after `parsed`. */
  ghost predicate Walked(raw: Bytes, crc: Bytes -> int, parsed: seq<Chunk>, offset: nat) {
    && 8 <= offset <= |raw| && raw[..8] == SIGNATURE
    && Parse(crc, raw[8..]) == Prepend(parsed, Parse(crc, raw[offset..]))
  }

  /** Everything after `parsed` starts with `parsed`, whatever follows. */
  lemma WalkedPrefix(raw: Bytes, crc: Bytes -> int, inflate: Bytes -> Option<Bytes>,
                     parsed: seq<Chunk>, offset: nat, chunks: seq<Chunk>)
    requires Walked(raw, crc, parsed, offset) && IsPng(raw, crc, inflate, chunks)
    ensures Parse(crc, raw[offset..]).Some? && chunks == parsed + Parse(crc, raw[offset..]).value
  {
    PngIsUnique(raw, crc, inflate, chunks);
  }

  lemma PrependNext(parsed: seq<Chunk>, c: Chunk, rest: Option<seq<Chunk>>)
    ensures Prepend(parsed, Prepend([c], rest)) == Prepend(parsed + [c], rest)
  {
    if rest.Some? {
      assert parsed + ([c] + rest.value) == (parsed + [c]) + rest.value;
    }
  }

  lemma ParseStep(crc: Bytes -> int, b: Bytes, c: Chunk)
    requires First(crc, b) == Some(c)
    ensures 12 + |c.data| <= |b|
    ensures Parse(crc, b) == Prepend([c], Parse(crc, b[12 + |c.data|..]))
  {
  }

  lemma NextChunk(raw: Bytes, crc: Bytes -> int, parsed: seq<Chunk>, offset: nat, c: Chunk, next: nat)
    requires Walked(raw, crc, parsed, offset) && offset < |raw| && First(crc, raw[offset..]) == Some(c)
    requires next == offset + 12 + |c.data|
    ensures Walked(raw, crc, parsed + [c], next)
  {
    ParseStep(crc, raw[offset..], c);
    assert raw[offset..][12 + |c.data|..] == raw[next..];
    PrependNext(parsed, c, Parse(crc, raw[next..]));
  }

  /** What the source's local variables say about the chunks walked so far. */
  ghost predicate Collected(parsed: seq<Chunk>, dimensions: Option<(nat, nat)>, idat: Bytes, hasIdat: bool,
                            sawIend: bool)
  {
    && (dimensions.None? <==> parsed == [])
    && (parsed != [] ==>
          && parsed[0].kind == IHDR && |parsed[0].data| == 13
          && dimensions == Some((Number(parsed[0].data[..4]), Number(parsed[0].data[4..8]))))
    && idat == ImageData(parsed)
    && (hasIdat <==> HasKind(parsed, IDAT))
    && (sawIend <==> HasKind(parsed, IEND))
    && forall i :: 1 <= i < |parsed| && parsed[i].kind == IEND ==> parsed[i].data == [] && i == |parsed| - 1
  }

  lemma CollectFirst(c: Chunk)
    requires c.kind == IHDR && |c.data| == 13
    ensures Collected([c], Some((Number(c.data[..4]), Number(c.data[4..8]))), [], false, false)
  {
  }

  lemma CollectNext(parsed: seq<Chunk>, dimensions: Option<(nat, nat)>, idat: Bytes, hasIdat: bool, c: Chunk)
    requires Collected(parsed, dimensions, idat, hasIdat, false) && parsed != []
    requires c.kind == IEND ==> c.data == []
    ensures Collected(parsed + [c], dimensions, idat + (if c.kind == IDAT then c.data else []),
                      hasIdat || c.kind == IDAT, c.kind == IEND)
  {
    var more := parsed + [c];
    assert more[..|more| - 1] == parsed;
    assert more[|parsed|] == c;
    assert forall i :: 1 <= i < |parsed| ==> more[i] == parsed[i];
    if HasKind(parsed, IDAT) {
      var i :| 1 <= i < |parsed| && parsed[i].kind == IDAT;
      assert more[i].kind == IDAT;
    }
    assert !HasKind(parsed, IEND);
  }

  /** The last chunk of a front that cannot be completed to a well-formed list. */
  ghost predicate Misplaced(parsed: seq<Chunk>, atEnd: bool)
    requires parsed != []
  {
    var c := parsed[|parsed| - 1];
    if |parsed| == 1 then c.kind != IHDR || |c.data| != 13 else c.kind == IEND && (c.data != [] || !atEnd)
  }

  lemma MisplacedIsIllFormed(parsed: seq<Chunk>, tail: seq<Chunk>, atEnd: bool)
    requires parsed != [] && Misplaced(parsed, atEnd) && (!atEnd ==> tail != [])
    ensures !WellFormed(parsed + tail)
  {
    var chunks := parsed + tail;
    assert chunks[|parsed| - 1] == parsed[|parsed| - 1];
  }

  lemma BadFrontIsNoPng(raw: Bytes, crc: Bytes -> int, inflate: Bytes -> Option<Bytes>,
                        parsed: seq<Chunk>, offset: nat)
    requires Walked(raw, crc, parsed, offset) && parsed != [] && Misplaced(parsed, offset == |raw|)
    ensures NoPng(raw, crc, inflate)
  {
    forall chunks ensures !IsPng(raw, crc, inflate, chunks) {
      if IsPng(raw, crc, inflate, chunks) {
        WalkedPrefix(raw, crc, inflate, parsed, offset, chunks);
        MisplacedIsIllFormed(parsed, Parse(crc, raw[offset..]).value, offset == |raw|);
      }
    }
  }

  lemma BadBytesAreNoPng(raw: Bytes, crc: Bytes -> int, inflate: Bytes -> Option<Bytes>,
                         parsed: seq<Chunk>, offset: nat)
    requires Walked(raw, crc, parsed, offset) && offset < |raw| && First(crc, raw[offset..]).None?
    ensures NoPng(raw, crc, inflate)
  {
    forall chunks ensures !IsPng(raw, crc, inflate, chunks) {
      if IsPng(raw, crc, inflate, chunks) {
        WalkedPrefix(raw, crc, inflate, parsed, offset, chunks);
      }
    }
  }

  /** The bytes from `offset` on start with a complete chunk: its length, its kind and data, and the
      checksum of these two. */
  ghost predicate ChunkAt(raw: Bytes, crc: Bytes -> int, offset: nat) {
    && offset + 12 <= |raw|
    && var end := offset + 8 + BigEndian(raw, offset);
       end + 4 <= |raw| && crc(raw[offset + 4..end]) % 4294967296 == BigEndian(raw, end)
  }

  /** Reads the chunk at `offset`, checking its extent and its checksum. */
  method ReadChunk(raw: Bytes, crc: Bytes -> int, offset: nat) returns (r: Result<Chunk, PngError>)
    requires offset < |raw|
    ensures r.Ok? <==> ChunkAt(raw, crc, offset)
    ensures r.Ok? ==> r.value.kind == raw[offset + 4..offset + 8]
                      && r.value.data == raw[offset + 8..offset + 8 + BigEndian(raw, offset)]
    ensures r == Err(TruncatedHeader) <==> offset + 12 > |raw|
    ensures r == Err(TruncatedData) <==>
              offset + 12 <= |raw| && offset + 12 + BigEndian(raw, offset) > |raw|
    ensures r.Err? ==> r.error.TruncatedHeader? || r.error.TruncatedData? || r.error.Crc?
    ensures r.Ok? ==> First(crc, raw[offset..]) == Some(r.value) && offset + 12 + |r.value.data| <= |raw|
    ensures r.Err? ==> First(crc, raw[offset..]).None?
  {
    if |raw| - offset < 12 {
      return Err(TruncatedHeader);
    }
    ghost var b := raw[offset..];
    assert b[..4] == raw[offset..offset + 4] && b[4..8] == raw[offset + 4..offset + 8];
    NumberIsBigEndian(raw, offset);
    var length := Number(raw[offset..offset + 4]);
    var kind := raw[offset + 4..offset + 8];
    var dataEnd := offset + 8 + length;
    if dataEnd + 4 > |raw| {
      return Err(TruncatedData);
    }
    var data := raw[offset + 8..dataEnd];
    assert b[8..8 + length] == data;
    assert b[8 + length..12 + length] == raw[dataEnd..dataEnd + 4];
    NumberIsBigEndian(raw, dataEnd);
    assert kind + data == raw[offset + 4..dataEnd];
    if Number(raw[dataEnd..dataEnd + 4]) != crc(kind + data) % WORD {
      return Err(Crc);
    }
    return Ok(Chunk(kind, data));
  }

  /** The final checks: all three parts were seen, and the image data inflates to something. */
  method Finish(raw: Bytes, crc: Bytes -> int, inflate: Bytes -> Option<Bytes>, ghost parsed: seq<Chunk>,
                dimensions: Option<(nat, nat)>, idat: Bytes, hasIdat: bool, sawIend: bool)
    returns (r: Result<(nat, nat), PngError>)
    requires Walked(raw, crc, parsed, |raw|) && Collected(parsed, dimensions, idat, hasIdat, sawIend)
    ensures r.Ok? ==> IsPng(raw, crc, inflate, parsed) && r.value == Dimensions(parsed)
    ensures r.Err? ==> NoPng(raw, crc, inflate)
    ensures r.Err? ==> Refused(raw, crc, inflate, parsed, |raw|, r.error)
  {
    WholeFileParsed(raw, crc, inflate, parsed);
    if dimensions.None? || !hasIdat || !sawIend {
      return Err(Incomplete);
    }
    var inflated := inflate(idat);
    if inflated.None? {
      return Err(BadImageData);
    }
    if inflated.value == [] {
      return Err(EmptyImageData);
    }
    return Ok(dimensions.value);
  }

  lemma WholeFileIsSerialized(raw: Bytes, crc: Bytes -> int, parsed: seq<Chunk>)
    requires Walked(raw, crc, parsed, |raw|)
    ensures Parse(crc, raw[8..]) == Some(parsed)
    ensures ValidChunks(parsed) && raw == SIGNATURE + SerializeAll(crc, parsed)
  {
    var body := raw[8..];
    assert raw[|raw|..] == [] && parsed + [] == parsed;
    assert raw == SIGNATURE + body;
    ParsedIsSerialized(crc, body);
  }

  /** At the end of the file the chunks walked are the only ones the file can mean. */
  lemma WholeFileParsed(raw: Bytes, crc: Bytes -> int, inflate: Bytes -> Option<Bytes>, parsed: seq<Chunk>)
    requires Walked(raw, crc, parsed, |raw|)
    ensures ValidChunks(parsed) && raw == SIGNATURE + SerializeAll(crc, parsed)
    ensures forall chunks :: IsPng(raw, crc, inflate, chunks) ==> chunks == parsed
  {
    WholeFileIsSerialized(raw, crc, parsed);
    forall chunks | IsPng(raw, crc, inflate, chunks) ensures chunks == parsed {
      PngIsUnique(raw, crc, inflate, chunks);
    }
  }

  lemma WrongSignature(raw: Bytes, crc: Bytes -> int, inflate: Bytes -> Option<Bytes>)
    requires |raw| < 8 || raw[..8] != SIGNATURE
    ensures NoPng(raw, crc, inflate)
  {
    forall chunks ensures !IsPng(raw, crc, inflate, chunks) {
      if IsPng(raw, crc, inflate, chunks) {
        PngIsUnique(raw, crc, inflate, chunks);
      }
    }
  }

  lemma StartWalk(raw: Bytes, crc: Bytes -> int)
    requires |raw| >= 8 && raw[..8] == SIGNATURE
    ensures Walked(raw, crc, [], 8)
  {
    if Parse(crc, raw[8..]).Some? {
      assert [] + Parse(crc, raw[8..]).value == Parse(crc, raw[8..]).value;
    }
  }

  /** What the walker makes of one more chunk: its place is wrong, or it goes on. */
  method TakeChunk(c: Chunk, atEnd: bool, ghost parsed: seq<Chunk>,
                   dimensions: Option<(nat, nat)>, idat: Bytes, hasIdat: bool)
    returns (error: Option<PngError>, size: Option<(nat, nat)>, image: Bytes, hasImage: bool, sawIend: bool,
             ghost grown: seq<Chunk>)
    requires Collected(parsed, dimensions, idat, hasIdat, false)
    ensures grown == parsed + [c]
    ensures error.Some? ==> Misplaced(grown, atEnd)
                            && error.value == if parsed == [] then FirstChunk else BadIend
    ensures error.None? ==> Collected(grown, size, image, hasImage, sawIend) && (sawIend ==> atEnd)
  {
    grown := parsed + [c];
    error, size, image, hasImage, sawIend := None, dimensions, idat, hasIdat, false;
    if dimensions.None? {
      assert parsed + [c] == [c];
      if c.kind != IHDR || |c.data| != 13 {
        error := Some(FirstChunk);
        return;
      }
      size := Some((Number(c.data[..4]), Number(c.data[4..8])));
      CollectFirst(c);
      return;
    }
    if c.kind == IEND && (c.data != [] || !atEnd) {
      error := Some(BadIend);
      return;
    }
    CollectNext(parsed, dimensions, idat, hasIdat, c);
    if c.kind == IDAT {
      image, hasImage := idat + c.data, true;
    } else if c.kind == IEND {
      sawIend := true;
    }
  }

  /** After the signature comes a 13-byte IHDR; its data starts with the width and then the height. */
  ghost predicate HasSize(raw: Bytes, width: nat, height: nat) {
    && |raw| >= 33 && raw[..8] == [137, 80, 78, 71, 13, 10, 26, 10]
    && raw[8..16] == [0, 0, 0, 13, 73, 72, 68, 82]
    && width == BigEndian(raw, 16) && height == BigEndian(raw, 20)
  }

  lemma FirstFields(crc: Bytes -> int, b: Bytes, c: Chunk)
    requires First(crc, b) == Some(c)
    ensures |b| >= 12 + |c.data| && BigEndian(b, 0) == |c.data|
    ensures b[..4] == Encode(|c.data|) && b[4..8] == c.kind && b[8..8 + |c.data|] == c.data
  {
    NumberIsBigEndian(b, 0);
    EncodeOfNumber(b[..4]);
  }

  lemma PngHasSize(raw: Bytes, crc: Bytes -> int, inflate: Bytes -> Option<Bytes>, chunks: seq<Chunk>)
    requires IsPng(raw, crc, inflate, chunks)
    ensures HasSize(raw, Dimensions(chunks).0, Dimensions(chunks).1)
  {
    var c, b := chunks[0], raw[8..];
    PngIsUnique(raw, crc, inflate, chunks);
    assert First(crc, b) == Some(c);
    FirstFields(crc, b, c);
    SizeIsFirst(raw, c);
  }

  lemma SizeIsFirst(raw: Bytes, c: Chunk)
    requires |raw| >= 33 && raw[..8] == SIGNATURE && |c.data| == 13 && c.kind == IHDR
    requires raw[8..][..4] == Encode(13) && raw[8..][4..8] == c.kind && raw[8..][8..21] == c.data
    ensures HasSize(raw, Number(c.data[..4]), Number(c.data[4..8]))
  {
    assert raw[8..12] == raw[8..][..4] && raw[12..16] == raw[8..][4..8] && raw[16..29] == raw[8..][8..21];
    assert raw[8..16] == raw[8..12] + raw[12..16];
    assert c.data[..4] == raw[16..20] && c.data[4..8] == raw[20..24];
    NumberIsBigEndian(raw, 16);
    NumberIsBigEndian(raw, 20);
  }

  /** Why the file is refused, after the chunks of `parsed` and at byte `at`. */
  ghost predicate Refused(raw: Bytes, crc: Bytes -> int, inflate: Bytes -> Option<Bytes>, parsed: seq<Chunk>,
                          at: nat, e: PngError)
  {
    if e.Signature? then |raw| < 8 || raw[..8] != [137, 80, 78, 71, 13, 10, 26, 10]
    else Walked(raw, crc, parsed, at) && RefusedAt(raw, crc, inflate, parsed, at, e)
  }

  ghost predicate RefusedAt(raw: Bytes, crc: Bytes -> int, inflate: Bytes -> Option<Bytes>, parsed: seq<Chunk>,
                            at: nat, e: PngError)
  {
    match e
    case Signature => false
    case TruncatedHeader => at < |raw| < at + 12
    case TruncatedData => at + 12 <= |raw| < at + 12 + BigEndian(raw, at)
    case Crc => at + 12 <= |raw| && at + 12 + BigEndian(raw, at) <= |raw| && !ChunkAt(raw, crc, at)
    case FirstChunk => |parsed| == 1 && (parsed[0].kind != IHDR || |parsed[0].data| != 13)
    case BadIend =>
      && |parsed| > 1 && parsed[|parsed| - 1].kind == IEND
      && (parsed[|parsed| - 1].data != [] || at < |raw|)
    case Incomplete => at == |raw| && !(HasKind(parsed, IDAT) && HasKind(parsed, IEND))
    case BadImageData => at == |raw| && HasKind(parsed, IDAT) && inflate(ImageData(parsed)).None?
    case EmptyImageData => at == |raw| && HasKind(parsed, IDAT) && inflate(ImageData(parsed)) == Some([])
  }

  /** The file is accepted exactly when it is the signature followed by a well-formed list of
      checksummed chunks whose image data inflates to something; the list is then unique, and the
      answer is the size its IHDR gives. A refusal says why. */
  method PngDimensions(raw: Bytes, crc: Bytes -> int, inflate: Bytes -> Option<Bytes>)
    returns (r: Result<(nat, nat), PngError>, ghost parsed: seq<Chunk>, ghost at: nat)
    ensures r.Ok? ==> IsPng(raw, crc, inflate, parsed) && HasSize(raw, r.value.0, r.value.1)
    ensures r.Err? <==> NoPng(raw, crc, inflate)
    ensures r.Err? ==> Refused(raw, crc, inflate, parsed, at, r.error)
  {
    parsed, at := [], 0;
    if |raw| < 8 || raw[..8] != SIGNATURE {
      WrongSignature(raw, crc, inflate);
      return Err(Signature), [], 0;
    }
    StartWalk(raw, crc);
    var offset := 8;
    var dimensions: Option<(nat, nat)> := None;
    var idat: Bytes, hasIdat, sawIend := [], false, false;
    while offset < |raw|
      invariant Walked(raw, crc, parsed, offset)
      invariant Collected(parsed, dimensions, idat, hasIdat, sawIend)
      invariant sawIend ==> offset == |raw|
      decreases |raw| - offset
    {
      var chunk := ReadChunk(raw, crc, offset);
      if chunk.Err? {
        BadBytesAreNoPng(raw, crc, inflate, parsed, offset);
        return Err(chunk.error), parsed, offset;
      }
      var c := chunk.value;
      var next := offset + 12 + |c.data|;
      NextChunk(raw, crc, parsed, offset, c, next);
      offset := next;
      var error;
      error, dimensions, idat, hasIdat, sawIend, parsed :=
        TakeChunk(c, offset == |raw|, parsed, dimensions, idat, hasIdat);
      if error.Some? {
        BadFrontIsNoPng(raw, crc, inflate, parsed, offset);
        return Err(error.value), parsed, offset;
      }
    }
    at := offset;
    r := Finish(raw, crc, inflate, parsed, dimensions, idat, hasIdat, sawIend);
    if r.Ok? {
      PngHasSize(raw, crc, inflate, parsed);
    }
  }

  /** Reading back a picture: its chunks, serialised, are accepted with its own dimensions. */
  lemma SerializedPictureIsPng(crc: Bytes -> int, inflate: Bytes -> Option<Bytes>, chunks: seq<Chunk>,
                               other: seq<Chunk>)
    requires ValidChunks(chunks) && WellFormed(chunks)
    requires inflate(ImageData(chunks)).Some? && inflate(ImageData(chunks)).value != []
    ensures var raw := SIGNATURE + SerializeAll(crc, chunks);
            && !NoPng(raw, crc, inflate)
            && (IsPng(raw, crc, inflate, other) ==> other == chunks)
  {
    var raw := SIGNATURE + SerializeAll(crc, chunks);
    assert IsPng(raw, crc, inflate, chunks);
    PngIsUnique(raw, crc, inflate, chunks);
    if IsPng(raw, crc, inflate, other) {
      PngIsUnique(raw, crc, inflate, other);
    }
  }
}
