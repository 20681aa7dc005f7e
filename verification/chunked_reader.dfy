/**
 The decoder of aws-chunked request bodies: AWS Signature Version 4, "Transferring
 Payload in Multiple Chunks (Chunked Upload)".
 */
module ChunkedReader {
  import opened GoStrings
  import opened Wrappers
  import Numbers

  /** What a signature is computed from besides the data; no verification with an empty key. */
  datatype Env = Env(key: Bytes, date: string, scope: string, sha: Bytes -> string, hmac: (Bytes, Bytes) -> string)

  datatype Error =
    | ShortHeader | HeaderNotCRLF | BadSize | MissingSignature
    | ShortData | ShortCRLF | NotCRLF | SignatureMismatch | ShortTrailer
    | Panicked   // the buffer for a negative size cannot be made

  datatype ChunkHeader = ChunkHeader(size: int, signature: string)

  const CRLF := "\r\n"
  const SIGNATURE := "chunk-signature="
  const EMPTY_HASH := "e3b0c44298fc1c149afbf4c8996fb92427ae41e4649b934ca495991b7852b855"

  // ------------------------------------------------------------ text

  /** strings.Split for a separator of one character */
  function Split(s: string, c: char): (r: seq<string>)
    ensures r != []
    decreases |s|
  {
    var i := Index(s, [c]);
    if i < 0 then [s] else [s[..i]] + Split(s[i + 1..], c)
  }

  function Lower(c: char): char {
    if 'A' <= c <= 'F' then c - 'A' + 'a' else c
  }

  function LowerAll(s: string): string {
    seq(|s|, i requires 0 <= i < |s| => Lower(s[i]))
  }

  /** strconv.ParseInt(s, 16, 64) */
  function ParseInt(s: string): Option<int> {
    var negative := s != [] && s[0] == '-';
    var digits := LowerAll(if s != [] && (s[0] == '+' || s[0] == '-') then s[1..] else s);
    if digits == [] || !Numbers.AllDigits(digits, 16) then None
    else
      var n: int := Numbers.Value(digits, 16);
      if negative then (if n > 0x8000_0000_0000_0000 then None else Some(-n))
      else if n >= 0x8000_0000_0000_0000 then None
      else Some(n)
  }

  /** The signature in the first extension that has one. */
  function SignatureIn(exts: seq<string>): string {
    if exts == [] then ""
    else if SIGNATURE <= TrimSpace(exts[0]) then TrimSpace(TrimSpace(exts[0])[|SIGNATURE|..])
    else SignatureIn(exts[1..])
  }

  function Header(line: string): Result<ChunkHeader, Error> {
    if |line| < 2 || line[|line| - 2..] != CRLF then Err(HeaderNotCRLF)
    else
      var parts := Split(line[..|line| - 2], ';');
      var size := ParseInt(TrimSpace(parts[0]));
      if size.None? then Err(BadSize)
      else
        var sig := SignatureIn(parts[1..]);
        if size.value > 0 && sig == "" then Err(MissingSignature) else Ok(ChunkHeader(size.value, sig))
  }

  /** bufio.Reader.ReadString('\n'): a line and what follows it. */
  function Line(input: Bytes): (r: Option<(string, Bytes)>)
    ensures r.Some? ==> input == r.value.0 + r.value.1 && r.value.0 != []
  {
    var i := Index(input, "\n");
    if i < 0 then None else Some((input[..i + 1], input[i + 1..]))
  }

  /** What follows the empty line that ends the trailing headers. */
  function Trailer(input: Bytes): Option<Bytes>
    decreases |input|
  {
    var l := Line(input);
    if l.None? then None
    else if l.value.0 == CRLF then Some(l.value.1)
    else Trailer(l.value.1)
  }

  // ------------------------------------------------------------ what a body decodes to

  function StringToSign(env: Env, prev: string, data: Bytes): string {
    "AWS4-HMAC-SHA256-PAYLOAD\n" + env.date + "\n" + env.scope + "\n" + prev + "\n" + EMPTY_HASH + "\n" + env.sha(data)
  }

  function Sign(env: Env, prev: string, data: Bytes): string {
    env.hmac(env.key, StringToSign(env, prev, data))
  }

  predicate Accepts(env: Env, prev: string, data: Bytes, sig: string) {
    env.key == [] || sig == Sign(env, prev, data)
  }

  datatype Step = Chunk(data: Bytes, sig: string, rest: Bytes) | Final(sig: string) | Bad(error: Error)

  /** The next chunk of a body, given the signature before it. */
  function Next(env: Env, input: Bytes, prev: string): (r: Step)
    ensures r.Chunk? ==> |r.rest| < |input|
  {
    var l := Line(input);
    if l.None? then Bad(ShortHeader)
    else
      var (line, rest) := l.value;
      var h := Header(line);
      if h.Err? then Bad(h.error)
      else if h.value.size == 0 then
        if !Accepts(env, prev, [], h.value.signature) then Bad(SignatureMismatch)
        else if Trailer(rest).None? then Bad(ShortTrailer)
        else Final(h.value.signature)
      else if h.value.size < 0 then Bad(Panicked)
      else if |rest| < h.value.size then Bad(ShortData)
      else
        var data, after := rest[..h.value.size], rest[h.value.size..];
        if |after| < 2 then Bad(ShortCRLF)
        else if after[..2] != CRLF then Bad(NotCRLF)
        else if !Accepts(env, prev, data, h.value.signature) then Bad(SignatureMismatch)
        else Chunk(data, h.value.signature, after[2..])
  }

  datatype End = Eof | Failed(error: Error)

  /** All that will be delivered, and how it ends. */
  datatype Outcome = Outcome(data: Bytes, end: End)

  function Decode(env: Env, input: Bytes, prev: string): Outcome
    decreases |input|
  {
    match Next(env, input, prev)
    case Bad(e) => Outcome([], Failed(e))
    case Final(_) => Outcome([], Eof)
    case Chunk(data, sig, rest) =>
      var more := Decode(env, rest, sig);
      Outcome(data + more.data, more.end)
  }

  lemma DecodeStep(env: Env, input: Bytes, prev: string)
    ensures match Next(env, input, prev)
      case Bad(e) => Decode(env, input, prev) == Outcome([], Failed(e))
      case Final(_) => Decode(env, input, prev) == Outcome([], Eof)
      case Chunk(data, sig, rest) =>
        Decode(env, input, prev) == Outcome(data + Decode(env, rest, sig).data, Decode(env, rest, sig).end)
  {
  }

  // ------------------------------------------------------------ the reader

  class Reader {
    const env: Env
    var input: Bytes          // what the connection still has to give
    var prevSignature: string
    var buf: Bytes
    var off: nat
    var done: bool
    var err: Option<Error>

    constructor (env: Env, input: Bytes, seed: string)
      ensures Valid() && this.env == env && Pending() == Decode(env, input, seed)
    {
      this.env, this.input, prevSignature := env, input, seed;
      buf, off, done, err := [], 0, false, None;
    }

    ghost predicate Valid()
      reads this
    {
      off <= |buf| && (done || err.Some? ==> off == |buf|)
    }

    /** What the caller has yet to see. */
    ghost function Pending(): Outcome
      reads this
      requires Valid()
    {
      if err.Some? then Outcome([], Failed(err.value))
      else if done then Outcome([], Eof)
      else
        var more := Decode(env, input, prevSignature);
        Outcome(buf[off..] + more.data, more.end)
    }

    /**
     Fills a buffer of `n` bytes as far as the current chunk goes.  Whatever the sizes of
     the caller's buffers, the bytes handed out are those still pending, in order.
     */
    method Read(n: nat) returns (data: Bytes, status: Option<End>)
      requires Valid()
      modifies this
      ensures Valid() && |data| <= n
      ensures old(Pending()) == Outcome(data + Pending().data, Pending().end)
      ensures status.Some? ==> data == [] && Pending() == Outcome([], status.value)
      ensures status.None? && n > 0 ==> data != []
    {
      hide Decode;
      if err.Some? {
        return [], Some(Failed(err.value));
      }
      if done && off >= |buf| {
        return [], Some(Eof);
      }
      if off >= |buf| {
        status := Refill();
        if status.Some? {
          return [], status;
        }
      }
      var k := if n < |buf| - off then n else |buf| - off;
      data := buf[off..off + k];
      off := off + k;
      status := None;
    }

    /** The next chunk, once the current one has been handed out. */
    method Refill() returns (status: Option<End>)
      requires Valid() && !done && err.None? && off == |buf|
      modifies this
      ensures Valid() && Pending() == old(Pending())
      ensures status.Some? ==> Pending() == Outcome([], status.value)
      ensures status.None? ==> !done && err.None? && off < |buf|
    {
      hide Next, Decode;
      DecodeStep(env, input, prevSignature);
      var failed := LoadNextChunk();
      if failed.Some? {
        err := failed;
        return Some(Failed(failed.value));
      }
      return if done then Some(Eof) else None;
    }

    method LoadNextChunk() returns (failed: Option<Error>)
      requires Valid() && !done && err.None? && off == |buf|
      modifies this
      ensures Valid() && err.None?
      ensures match Next(env, old(input), old(prevSignature))
        case Bad(e) => failed == Some(e) && buf == old(buf) && off == old(off)
        case Final(_) => failed.None? && done && buf == old(buf) && off == old(off)
        case Chunk(data, sig, rest) =>
          failed.None? && !done && buf == data && data != [] && off == 0 && prevSignature == sig && input == rest
    {
      hide Header, Line, Trailer, Accepts;
      var hdr := ReadChunkHeader();
      if hdr.Err? { return Some(hdr.error); }
      if hdr.value.size == 0 {
        failed := VerifyChunk([], hdr.value.signature);
        if failed.Some? { return; }
        failed := ReadTrailingHeaders();
        if failed.Some? { return; }
        done := true;
        return None;
      }
      if hdr.value.size < 0 { return Some(Panicked); }
      if |input| < hdr.value.size { return Some(ShortData); }
      var data := input[..hdr.value.size];
      input := input[hdr.value.size..];
      failed := ReadCRLF();
      if failed.Some? { return; }
      failed := VerifyChunk(data, hdr.value.signature);
      if failed.Some? { return; }
      buf, off := data, 0;
      return None;
    }

    method ReadString() returns (line: Option<string>)
      modifies this`input
      ensures var l := Line(old(input));
        if l.None? then line.None? else line == Some(l.value.0) && input == l.value.1
    {
      var i := Index(input, "\n");
      if i < 0 {
        input := [];
        return None;
      }
      line := Some(input[..i + 1]);
      input := input[i + 1..];
    }

    method ReadChunkHeader() returns (r: Result<ChunkHeader, Error>)
      modifies this`input
      ensures var l := Line(old(input));
        if l.None? then r == Err(ShortHeader) else r == Header(l.value.0) && input == l.value.1
    {
      hide Line, Split, TrimSpace, ParseInt, Index;
      var read := ReadString();
      if read.None? { return Err(ShortHeader); }
      var line := read.value;
      if |line| < 2 || line[|line| - 2..] != CRLF { return Err(HeaderNotCRLF); }
      line := line[..|line| - 2];
      var parts := Split(line, ';');
      var size := ParseInt(TrimSpace(parts[0]));
      if size.None? { return Err(BadSize); }
      var sig := "";
      var i := 1;
      while i < |parts|
        invariant 1 <= i <= |parts|
        invariant sig == "" && SignatureIn(parts[1..]) == SignatureIn(parts[i..])
      {
        assert parts[i..][1..] == parts[i + 1..];
        var ext := TrimSpace(parts[i]);
        if SIGNATURE <= ext {
          sig := TrimSpace(ext[|SIGNATURE|..]);
          break;
        }
        i := i + 1;
      }
      assert sig == SignatureIn(parts[1..]);
      if size.value > 0 && sig == "" { return Err(MissingSignature); }
      return Ok(ChunkHeader(size.value, sig));
    }

    method ReadCRLF() returns (failed: Option<Error>)
      modifies this`input
      ensures failed ==
        if |old(input)| < 2 then Some(ShortCRLF) else if old(input)[..2] != CRLF then Some(NotCRLF) else None
      ensures failed.None? ==> input == old(input)[2..]
    {
      if |input| < 2 { return Some(ShortCRLF); }
      var b := input[..2];
      input := input[2..];
      return if b != CRLF then Some(NotCRLF) else None;
    }

    method ReadTrailingHeaders() returns (failed: Option<Error>)
      modifies this`input
      ensures failed == if Trailer(old(input)).None? then Some(ShortTrailer) else None
    {
      while true
        invariant Trailer(input) == Trailer(old(input))
        decreases |input|
      {
        var line := ReadString();
        if line.None? { return Some(ShortTrailer); }
        if line.value == CRLF { return None; }
      }
    }

    /** The signature of an accepted chunk becomes part of the next one's. */
    method VerifyChunk(data: Bytes, sig: string) returns (failed: Option<Error>)
      modifies this`prevSignature
      ensures failed == if Accepts(env, old(prevSignature), data, sig) then None else Some(SignatureMismatch)
      ensures failed.None? ==> prevSignature == sig
    {
      if |env.key| == 0 {
        prevSignature := sig;
        return None;
      }
      var computed := env.hmac(env.key, StringToSign(env, prevSignature, data));
      if computed != sig { return Some(SignatureMismatch); }
      prevSignature := sig;
      return None;
    }
  }

  /** A caller that reads with buffers of these sizes, one after the other, until the end. */
  method Consume(r: Reader, sizes: seq<nat>) returns (out: Bytes, status: Option<End>)
    requires r.Valid()
    modifies r
    ensures r.Valid()
    ensures old(r.Pending()) == Outcome(out + r.Pending().data, r.Pending().end)
    ensures status.Some? ==> old(r.Pending()) == Outcome(out, status.value)
  {
    hide Reader.Pending, Reader.Valid;
    out, status := [], None;
    ghost var all := r.Pending();
    assert [] + all.data == all.data;
    for i := 0 to |sizes|
      invariant status.None? && r.Valid() && all == Outcome(out + r.Pending().data, r.Pending().end)
    {
      ghost var left := r.Pending().data;
      var data;
      data, status := r.Read(sizes[i]);
      assert out + left == (out + data) + r.Pending().data;
      out := out + data;
      if status.Some? {
        assert out + [] == out;
        return;
      }
    }
  }

  // ------------------------------------------------------------ encoding

  /** A chunk and the signature sent with it. */
  datatype Piece = Piece(data: Bytes, sig: string)

  /** A signature as it may stand in a header line: visible, without a semicolon. */
  predicate Plain(s: string) {
    Visible(s) && ';' !in s
  }

  function HeaderLine(size: nat, sig: string): string {
    Numbers.Print(size, 16) + ";" + SIGNATURE + sig + CRLF
  }

  function EncodePiece(p: Piece): Bytes {
    HeaderLine(|p.data|, p.sig) + p.data + CRLF
  }

  /** Trailing headers, each on a line of its own, and the empty line after them. */
  function EncodeTrailers(trailers: seq<string>): Bytes {
    if trailers == [] then CRLF else trailers[0] + CRLF + EncodeTrailers(trailers[1..])
  }

  /** The empty chunk that ends a body, and what trails it. */
  function EncodeEnd(sig: string, trailers: seq<string>): Bytes {
    HeaderLine(0, sig) + EncodeTrailers(trailers)
  }

  function Encode(pieces: seq<Piece>, last: string, trailers: seq<string>): Bytes {
    if pieces == [] then EncodeEnd(last, trailers)
    else EncodePiece(pieces[0]) + Encode(pieces[1..], last, trailers)
  }

  /** Text that fits on a line and does not look like the empty line. */
  predicate TrailerLines(trailers: seq<string>) {
    forall i :: 0 <= i < |trailers| ==> trailers[i] != "" && '\n' !in trailers[i]
  }

  function Contents(pieces: seq<Piece>): Bytes {
    if pieces == [] then [] else pieces[0].data + Contents(pieces[1..])
  }

  /** Non-empty chunks of representable size, each signed after the one before it. */
  ghost predicate Encodable(env: Env, prev: string, pieces: seq<Piece>, last: string)
    decreases |pieces|
  {
    if pieces == [] then Plain(last) && Accepts(env, prev, [], last)
    else
      && 0 < |pieces[0].data| < 0x8000_0000_0000_0000
      && pieces[0].sig != "" && Plain(pieces[0].sig)
      && Accepts(env, prev, pieces[0].data, pieces[0].sig)
      && Encodable(env, pieces[0].sig, pieces[1..], last)
  }

  lemma PrintedSize(n: nat)
    requires n < 0x8000_0000_0000_0000
    ensures var s := Numbers.Print(n, 16); ParseInt(s) == Some(n) && Plain(s) && s != []
  {
    hide Numbers.Print, Numbers.Value;
    var s := Numbers.Print(n, 16);
    Numbers.ValueOfPrint(n, 16);
    forall i | 0 <= i < |s|
      ensures Lower(s[i]) == s[i] && '!' <= s[i] <= '~' && s[i] != ';' && s[i] != '+' && s[i] != '-'
    {
      assert 0 <= Numbers.DigitValue(s[i]) < 16;
    }
    assert LowerAll(s) == s;
  }

  lemma SplitTwo(a: string, b: string)
    requires Plain(a) && Plain(b)
    ensures Split(a + ";" + b, ';') == [a, b]
  {
    var s := a + [';'] + b;
    IndexOfFirst(a, ';', b);
    assert s[..|a|] == a && s[|a| + 1..] == b;
    IndexOfAbsent(b, ';');
    assert a + ";" + b == s;
    assert Split(b, ';') == [b];
  }

  /** A header line is understood as it was meant. */
  lemma HeaderRead(size: nat, sig: string)
    requires size < 0x8000_0000_0000_0000 && Plain(sig) && (size > 0 ==> sig != "")
    ensures Header(HeaderLine(size, sig)) == Ok(ChunkHeader(size, sig))
  {
    hide ParseInt, Split, TrimSpace;
    var s := Numbers.Print(size, 16);
    var ext := SIGNATURE + sig;
    var line := HeaderLine(size, sig);
    PrintedSize(size);
    assert line == s + ";" + ext + CRLF;
    assert line[|line| - 2..] == CRLF && line[..|line| - 2] == s + ";" + ext;
    assert Plain(ext);
    SplitTwo(s, ext);
    assert ext[|SIGNATURE|..] == sig;
    assert [s, ext][1..] == [ext];
    assert SignatureIn([ext]) == sig;
  }

  /** The line break that ends a header line is the first one in it. */
  lemma HeaderLineIsLine(size: nat, sig: string, rest: Bytes)
    requires size < 0x8000_0000_0000_0000 && Plain(sig)
    ensures Line(HeaderLine(size, sig) + rest) == Some((HeaderLine(size, sig), rest))
  {
    hide ParseInt, Numbers.Print, Index;
    var s := Numbers.Print(size, 16);
    PrintedSize(size);
    var before := s + ";" + SIGNATURE + sig + "\r";
    assert HeaderLine(size, sig) + rest == before + ['\n'] + rest;
    assert forall i :: 0 <= i < |before| ==> before[i] != '\n';
    IndexOfFirst(before, '\n', rest);
    assert (before + ['\n'] + rest)[..|before| + 1] == HeaderLine(size, sig);
    assert (before + ['\n'] + rest)[|before| + 1..] == rest;
  }

  lemma NextOfPiece(env: Env, prev: string, p: Piece, rest: Bytes)
    requires 0 < |p.data| < 0x8000_0000_0000_0000 && p.sig != "" && Plain(p.sig) && Accepts(env, prev, p.data, p.sig)
    ensures Next(env, EncodePiece(p) + rest, prev) == Chunk(p.data, p.sig, rest)
  {
    hide Header, Line;
    var line := HeaderLine(|p.data|, p.sig);
    var after := p.data + CRLF + rest;
    assert EncodePiece(p) + rest == line + after;
    HeaderLineIsLine(|p.data|, p.sig, after);
    HeaderRead(|p.data|, p.sig);
    assert after[..|p.data|] == p.data && after[|p.data|..] == CRLF + rest;
    assert (CRLF + rest)[..2] == CRLF && (CRLF + rest)[2..] == rest;
  }

  lemma TextIsLine(text: string, rest: Bytes)
    requires '\n' !in text
    ensures Line(text + CRLF + rest) == Some((text + CRLF, rest))
  {
    var input := text + CRLF + rest;
    assert input == (text + "\r") + ['\n'] + rest;
    IndexOfFirst(text + "\r", '\n', rest);
    assert input[..|text| + 2] == text + CRLF && input[|text| + 2..] == rest;
  }

  lemma {:induction false} TrailersRead(trailers: seq<string>)
    requires TrailerLines(trailers)
    ensures Trailer(EncodeTrailers(trailers)) == Some([])
  {
    hide Line;
    if trailers == [] {
      TextIsLine("", []);
      assert "" + CRLF + [] == CRLF && "" + CRLF == CRLF;
    } else {
      TextIsLine(trailers[0], EncodeTrailers(trailers[1..]));
      TrailersRead(trailers[1..]);
    }
  }

  lemma NextOfEnd(env: Env, prev: string, sig: string, trailers: seq<string>)
    requires Plain(sig) && Accepts(env, prev, [], sig) && TrailerLines(trailers)
    ensures Next(env, EncodeEnd(sig, trailers), prev) == Final(sig)
  {
    hide Header, Line;
    HeaderLineIsLine(0, sig, EncodeTrailers(trailers));
    HeaderRead(0, sig);
    TrailersRead(trailers);
  }

  /** Decoding what was encoded gives the chunks' bytes back, whatever they are. */
  lemma {:induction false} RoundTrip(env: Env, prev: string, pieces: seq<Piece>, last: string, trailers: seq<string>)
    requires Encodable(env, prev, pieces, last) && TrailerLines(trailers)
    ensures Decode(env, Encode(pieces, last, trailers), prev) == Outcome(Contents(pieces), Eof)
    decreases |pieces|
  {
    hide Next;
    if pieces == [] {
      NextOfEnd(env, prev, last, trailers);
    } else {
      NextOfPiece(env, prev, pieces[0], Encode(pieces[1..], last, trailers));
      RoundTrip(env, pieces[0].sig, pieces[1..], last, trailers);
    }
  }

  // ------------------------------------------------------------ truncated bodies

  /** A header line cut short has no line break. */
  lemma CutHeader(size: nat, sig: string, n: nat)
    requires size < 0x8000_0000_0000_0000 && Plain(sig) && n < |HeaderLine(size, sig)|
    ensures Line(HeaderLine(size, sig)[..n]) == None
  {
    PrintedSize(size);
    var line := HeaderLine(size, sig);
    var before := Numbers.Print(size, 16) + ";" + SIGNATURE + sig + "\r";
    assert line == before + ['\n'];
    assert forall i :: 0 <= i < |before| ==> before[i] != '\n';
    assert line[..n] == before[..n];
    IndexOfAbsent(before[..n], '\n');
  }

  lemma CutPiece(env: Env, prev: string, p: Piece, n: nat)
    requires 0 < |p.data| < 0x8000_0000_0000_0000 && p.sig != "" && Plain(p.sig)
    requires n < |EncodePiece(p)|
    ensures Next(env, EncodePiece(p)[..n], prev).Bad?
  {
    hide Header, Line, Accepts, Trailer;
    var line := HeaderLine(|p.data|, p.sig);
    var cut := EncodePiece(p)[..n];
    if n < |line| {
      CutHeader(|p.data|, p.sig, n);
      assert cut == line[..n];
    } else {
      var after := cut[|line|..];
      assert cut == line + after;
      HeaderLineIsLine(|p.data|, p.sig, after);
      HeaderRead(|p.data|, p.sig);
    }
  }

  lemma CutLine(text: string, n: nat)
    requires '\n' !in text && n < |text + CRLF|
    ensures Line((text + CRLF)[..n]) == None
  {
    assert (text + CRLF)[..n] == (text + "\r")[..n];
    IndexOfAbsent((text + "\r")[..n], '\n');
  }

  lemma {:induction false} CutTrailers(trailers: seq<string>, n: nat)
    requires TrailerLines(trailers) && n < |EncodeTrailers(trailers)|
    ensures Trailer(EncodeTrailers(trailers)[..n]) == None
  {
    hide Line;
    if trailers == [] {
      CutLine("", n);
      assert "" + CRLF == CRLF;
    } else {
      var line, more := trailers[0] + CRLF, EncodeTrailers(trailers[1..]);
      var cut := (line + more)[..n];
      if n < |line| {
        CutLine(trailers[0], n);
        assert cut == line[..n];
      } else {
        assert cut == line + more[..n - |line|];
        TextIsLine(trailers[0], more[..n - |line|]);
        CutTrailers(trailers[1..], n - |line|);
      }
    }
  }

  lemma CutEnd(env: Env, prev: string, sig: string, trailers: seq<string>, n: nat)
    requires Plain(sig) && TrailerLines(trailers) && n < |EncodeEnd(sig, trailers)|
    ensures Next(env, EncodeEnd(sig, trailers)[..n], prev).Bad?
  {
    hide Header, Accepts, Line, Trailer;
    var line := HeaderLine(0, sig);
    var cut := EncodeEnd(sig, trailers)[..n];
    if n < |line| {
      CutHeader(0, sig, n);
      assert cut == line[..n];
    } else {
      var after := cut[|line|..];
      assert cut == line + after;
      HeaderLineIsLine(0, sig, after);
      HeaderRead(0, sig);
      assert after == EncodeTrailers(trailers)[..n - |line|];
      CutTrailers(trailers, n - |line|);
    }
  }

  /** A body cut short anywhere ends in an error, after a prefix of the right bytes. */
  lemma {:induction false} TruncationDetected(
    env: Env, prev: string, pieces: seq<Piece>, last: string, trailers: seq<string>, n: nat)
    requires Encodable(env, prev, pieces, last) && TrailerLines(trailers) && n < |Encode(pieces, last, trailers)|
    ensures Decode(env, Encode(pieces, last, trailers)[..n], prev).end.Failed?
    ensures Decode(env, Encode(pieces, last, trailers)[..n], prev).data <= Contents(pieces)
    decreases |pieces|
  {
    hide Next;
    var cut := Encode(pieces, last, trailers)[..n];
    if pieces == [] {
      CutEnd(env, prev, last, trailers, n);
    } else if n < |EncodePiece(pieces[0])| {
      CutPiece(env, prev, pieces[0], n);
      assert cut == EncodePiece(pieces[0])[..n];
    } else {
      var m := n - |EncodePiece(pieces[0])|;
      var rest := Encode(pieces[1..], last, trailers);
      assert cut == EncodePiece(pieces[0]) + rest[..m];
      NextOfPiece(env, prev, pieces[0], rest[..m]);
      TruncationDetected(env, pieces[0].sig, pieces[1..], last, trailers, m);
    }
  }

  // ------------------------------------------------------------ the chain of signatures

  /** The chunks a body delivers, with their signatures. */
  function Delivered(env: Env, input: Bytes, prev: string): seq<Piece>
    decreases |input|
  {
    match Next(env, input, prev)
    case Bad(_) => []
    case Final(_) => []
    case Chunk(data, sig, rest) => [Piece(data, sig)] + Delivered(env, rest, sig)
  }

  /** The signature at the end of a body that decodes cleanly. */
  function LastSignature(env: Env, input: Bytes, prev: string): Option<string>
    decreases |input|
  {
    match Next(env, input, prev)
    case Bad(_) => None
    case Final(sig) => Some(sig)
    case Chunk(_, sig, rest) => LastSignature(env, rest, sig)
  }

  /** The signature that follows from the seed and all chunks so far, and from nothing else. */
  function ChainSignature(env: Env, seed: string, pieces: seq<Piece>): string {
    if pieces == [] then seed
    else Sign(env, ChainSignature(env, seed, pieces[..|pieces| - 1]), pieces[|pieces| - 1].data)
  }

  lemma {:induction false} ChainContinues(env: Env, seed: string, p: Piece, pieces: seq<Piece>)
    ensures ChainSignature(env, seed, [p] + pieces) == ChainSignature(env, Sign(env, seed, p.data), pieces)
    decreases |pieces|
  {
    var all := [p] + pieces;
    if pieces == [] {
      assert all[..0] == [];
    } else {
      assert all[..|all| - 1] == [p] + pieces[..|pieces| - 1];
      ChainContinues(env, seed, p, pieces[..|pieces| - 1]);
    }
  }

  lemma SignedStep(env: Env, input: Bytes, prev: string)
    requires env.key != []
    ensures match Next(env, input, prev)
      case Bad(_) => true
      case Final(sig) => sig == Sign(env, prev, [])
      case Chunk(data, sig, _) => sig == Sign(env, prev, data)
  {
    hide Sign, Header, Line, Trailer;
  }

  lemma ChainExtends(env: Env, seed: string, p: Piece, more: seq<Piece>)
    requires p.sig == Sign(env, seed, p.data)
    requires forall i :: 0 <= i < |more| ==> more[i].sig == ChainSignature(env, p.sig, more[..i + 1])
    ensures var pieces := [p] + more;
      forall i :: 0 <= i < |pieces| ==> pieces[i].sig == ChainSignature(env, seed, pieces[..i + 1])
  {
    hide Sign;
    var pieces := [p] + more;
    forall i | 0 <= i < |pieces|
      ensures pieces[i].sig == ChainSignature(env, seed, pieces[..i + 1])
    {
      assert pieces[..i + 1] == [p] + more[..i];
      ChainContinues(env, seed, p, more[..i]);
      if i == 0 {
        assert more[..0] == [];
      } else {
        assert pieces[i] == more[i - 1] && more[..i] == more[..(i - 1) + 1];
      }
    }
  }

  /**
   With a signing key, every byte delivered belongs to a chunk whose signature is the one
   that follows from the seed and all chunks up to it; a clean end means that the empty
   chunk at the end carried the signature that follows from all of them.
   */
  lemma {:induction false} OnlySignedData(env: Env, input: Bytes, seed: string)
    requires env.key != []
    ensures var pieces := Delivered(env, input, seed);
      && Decode(env, input, seed).data == Contents(pieces)
      && (forall i :: 0 <= i < |pieces| ==> pieces[i].sig == ChainSignature(env, seed, pieces[..i + 1]))
      && (Decode(env, input, seed).end == Eof ==>
        LastSignature(env, input, seed) == Some(ChainSignature(env, seed, pieces + [Piece([], "")])))
    decreases |input|
  {
    hide Sign, Next;
    SignedStep(env, input, seed);
    var pieces := Delivered(env, input, seed);
    match Next(env, input, seed)
    case Bad(_) =>
    case Final(sig) =>
      assert [Piece([], "")][..0] == [] && pieces + [Piece([], "")] == [Piece([], "")];
    case Chunk(data, sig, rest) =>
      OnlySignedData(env, rest, sig);
      var more := Delivered(env, rest, sig);
      assert pieces == [Piece(data, sig)] + more;
      ChainExtends(env, seed, Piece(data, sig), more);
      assert pieces + [Piece([], "")] == [Piece(data, sig)] + (more + [Piece([], "")]);
      ChainContinues(env, seed, Piece(data, sig), more + [Piece([], "")]);
  }
}
