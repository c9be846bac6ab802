/** VM_DOWNLOAD: Iris asks Neo for a program in chunks and stores it when it is complete. */
module VmDownload {
  import opened Wrappers
  import opened WireText

  const PROGRAM_BYTES: nat := 1024
  const CHUNK_BYTES: nat := 128

  // ----- Iris -----

  datatype Failure = Usage | Neo(error: string) | InvalidChunk | InvalidHex | Incomplete | InvalidEof

  /** `Stored` is the call of `storeBytes` with these arguments. */
  datatype Outcome = Failed(why: Failure) | Stored(name: string, bytes: seq<byte>, replace: bool)

  datatype Reply = Refused(error: string) | Accepted(detail: string)

  /** Whatever answers: the reply to request number `k`, which asks for `offset` of the file
      with the given encoded name. It need not be Neo, nor answer twice in the same way. */
  type Server = (nat, nat, string) -> Reply

  /** What Iris sees of a detail text: the announced size, the end mark, the length of the hex
      text and its bytes, if it is hex. */
  datatype RawChunk = RawChunk(size: int, eof: string, length: nat, bytes: Option<seq<byte>>)
  type Chunk = c: RawChunk | c.bytes.Some? ==> 2 * |c.bytes.value| == c.length
    witness RawChunk(0, "", 0, None)

  datatype Answer = No(error: string) | Told(chunk: Chunk)
  type Asker = (nat, nat) -> Answer

  function ChunkOf(f: Fields): Chunk {
    RawChunk(f.size, f.eof, |f.data|, Unhex(f.data))
  }

  function AnswerOf(reply: Reply): Answer {
    match reply
    case Refused(error) => No(error)
    case Accepted(detail) => Told(ChunkOf(ReadFields(detail)))
  }

  function Heard(server: Server, encoded: string): Asker {
    (k: nat, offset: nat) => AnswerOf(server(k, offset, encoded))
  }

  predicate EndsWith(s: string, tail: string) {
    |tail| <= |s| && s[|s| - |tail|..] == tail
  }

  predicate GoodCall(arguments: seq<int>, name: string) {
    && |arguments| <= 1 && (|arguments| == 1 ==> arguments[0] == 0 || arguments[0] == 1)
    && 5 <= |name| <= 80 && EndsWith(name, ".nvm")
  }

  datatype Step = Reject(why: Failure) | More(bytes: seq<byte>) | Done(bytes: seq<byte>)

  predicate BadChunk(size: int, length: nat, offset: nat, expected: nat) {
    || size <= 0 || size > PROGRAM_BYTES || (expected != 0 && expected != size)
    || length % 2 != 0 || length > 2 * CHUNK_BYTES || offset + length / 2 > size
  }

  /** What one reply means when `offset` bytes are in and `expected` was announced (0: nothing yet). */
  function Judge(c: Chunk, offset: nat, expected: nat): Step {
    if BadChunk(c.size, c.length, offset, expected) then Reject(InvalidChunk)
    else if c.bytes.None? then Reject(InvalidHex)
    else if c.eof == "1" then
      if offset + |c.bytes.value| != c.size then Reject(Incomplete) else Done(c.bytes.value)
    else if c.length == 0 || c.eof != "0" then Reject(InvalidEof)
    else More(c.bytes.value)
  }

  datatype Fetched = Lost(why: Failure) | Program(bytes: seq<byte>)

  /** The bytes of the complete program, from request `k` on with `got` already in. */
  function Fetch(ask: Asker, k: nat, got: seq<byte>, expected: nat): Fetched
    requires |got| <= PROGRAM_BYTES
    decreases PROGRAM_BYTES - |got|
  {
    if |got| >= PROGRAM_BYTES then Lost(Incomplete)
    else match ask(k, |got|)
      case No(error) => Lost(Neo(error))
      case Told(chunk) =>
        match Judge(chunk, |got|, expected)
        case Reject(why) => Lost(why)
        case Done(bytes) => Program(got + bytes)
        case More(bytes) => Fetch(ask, k + 1, got + bytes, chunk.size)
  }

  function Result(f: Fetched, arguments: seq<int>, name: string): Outcome
    requires |name| >= 4
  {
    match f
    case Lost(why) => Failed(why)
    case Program(bytes) => Stored(name[..|name| - 4], bytes, arguments == [1])
  }

  function Download(server: Server, arguments: seq<int>, name: string): Outcome {
    if !GoodCall(arguments, name) then Failed(Usage)
    else Result(Fetch(Heard(server, Hex(BytesOf(name))), 0, [], 0), arguments, name)
  }

  // ----- against any server -----

  /** The data of the first `k` replies, each asked for at the length of those before it. */
  ghost function Received(ask: Asker, k: nat): seq<byte> {
    if k == 0 then [] else
    var before := Received(ask, k - 1);
    before + Data(ask(k - 1, |before|))
  }

  ghost function Data(answer: Answer): seq<byte> {
    if answer.Told? && answer.chunk.bytes.Some? then answer.chunk.bytes.value else []
  }

  /** Reply `j` announces `size`, carries at most 128 bytes in hex, some unless it is the last,
      and has this end mark. */
  ghost predicate Announces(ask: Asker, j: nat, size: nat, eof: string) {
    var answer := ask(j, |Received(ask, j)|);
    && answer.Told? && answer.chunk.size == size && answer.chunk.eof == eof && answer.chunk.bytes.Some?
    && |answer.chunk.bytes.value| <= CHUNK_BYTES && (eof == "0" ==> answer.chunk.bytes.value != [])
  }

  ghost predicate IsDownload(ask: Asker, n: nat, bytes: seq<byte>) {
    && n >= 1 && bytes == Received(ask, n) && 1 <= |bytes| <= PROGRAM_BYTES && |Received(ask, n - 1)| < PROGRAM_BYTES
    && (forall j: nat | j < n - 1 :: Announces(ask, j, |bytes|, "0"))
    && Announces(ask, n - 1, |bytes|, "1")
  }

  /** What a fetch from request `k` on has behind it. */
  ghost predicate Behind(ask: Asker, k: nat, got: seq<byte>, expected: nat) {
    && got == Received(ask, k) && (k == 0) == (expected == 0)
    && forall j: nat | j < k :: Announces(ask, j, expected, "0")
  }

  lemma LastReply(ask: Asker, k: nat, got: seq<byte>, expected: nat)
    requires Behind(ask, k, got, expected) && |got| < PROGRAM_BYTES
    requires ask(k, |got|).Told? && Judge(ask(k, |got|).chunk, |got|, expected).Done?
    ensures IsDownload(ask, k + 1, got + Judge(ask(k, |got|).chunk, |got|, expected).bytes)
  {
    var bytes := Received(ask, k + 1);
    forall j: nat | j < k
      ensures Announces(ask, j, |bytes|, "0")
    {
      assert Announces(ask, j, expected, "0");
    }
  }

  lemma {:induction false} FetchIsSound(ask: Asker, k: nat, got: seq<byte>, expected: nat)
    requires |got| <= PROGRAM_BYTES && Behind(ask, k, got, expected)
    ensures var r := Fetch(ask, k, got, expected);
            r.Program? ==> exists n: nat :: IsDownload(ask, n, r.bytes)
    decreases PROGRAM_BYTES - |got|
  {
    if |got| < PROGRAM_BYTES && ask(k, |got|).Told? {
      var chunk := ask(k, |got|).chunk;
      var step := Judge(chunk, |got|, expected);
      if step.More? {
        FetchIsSound(ask, k + 1, got + step.bytes, chunk.size);
      } else if step.Done? {
        LastReply(ask, k, got, expected);
      }
    }
  }

  lemma {:induction false} ReceivedGrows(ask: Asker, k: nat, n: nat)
    requires k <= n
    ensures |Received(ask, k)| <= |Received(ask, n)|
    decreases n - k
  {
    if k < n {
      ReceivedGrows(ask, k, n - 1);
    }
  }

  lemma AnnouncedIsTaken(c: Chunk, offset: nat, expected: nat, size: nat)
    requires c.bytes.Some? && |c.bytes.value| <= CHUNK_BYTES && c.size == size && 1 <= size <= PROGRAM_BYTES
    requires (expected == 0 || expected == size) && offset + |c.bytes.value| <= size
    ensures c.eof == "1" && offset + |c.bytes.value| == size ==> Judge(c, offset, expected) == Done(c.bytes.value)
    ensures c.eof == "0" && c.bytes.value != [] ==> Judge(c, offset, expected) == More(c.bytes.value)
  {
  }

  /** Replies of this kind are not refused. */
  lemma {:induction false} FetchIsComplete(ask: Asker, n: nat, bytes: seq<byte>, k: nat, got: seq<byte>, expected: nat)
    requires IsDownload(ask, n, bytes) && k < n && got == Received(ask, k) && |got| <= PROGRAM_BYTES
    requires expected == if k == 0 then 0 else |bytes|
    ensures Fetch(ask, k, got, expected) == Program(bytes)
    decreases n - k
  {
    assert Announces(ask, k, |bytes|, if k == n - 1 then "1" else "0");
    var data := ask(k, |got|).chunk.bytes.value;
    assert Received(ask, k + 1) == got + data;
    ReceivedGrows(ask, k + 1, n);
    AnnouncedIsTaken(ask(k, |got|).chunk, |got|, expected, |bytes|);
    if k < n - 1 {
      FetchIsComplete(ask, n, bytes, k + 1, got + data, |bytes|);
    }
  }

  ghost predicate Downloads(ask: Asker, bytes: seq<byte>) {
    exists n: nat :: IsDownload(ask, n, bytes)
  }

  lemma FetchExactly(ask: Asker, bytes: seq<byte>)
    ensures Fetch(ask, 0, [], 0) == Program(bytes) <==> Downloads(ask, bytes)
  {
    FetchIsSound(ask, 0, [], 0);
    if n: nat :| IsDownload(ask, n, bytes) {
      FetchIsComplete(ask, n, bytes, 0, [], 0);
    }
  }

  /** Against any replies at all, exactly what is stored: the data of the replies in order, as
      long as every one of them announced, not empty, at most 1024 bytes, in pieces of at most
      128, and closed by the only end mark. */
  lemma DownloadIsSound(server: Server, arguments: seq<int>, name: string, bytes: seq<byte>)
    ensures var r := Download(server, arguments, name);
            && (r.Stored? ==> GoodCall(arguments, name) && r.name + ".nvm" == name && (r.replace <==> arguments == [1]))
            && (r.Stored? && r.bytes == bytes <==>
                  GoodCall(arguments, name) && Downloads(Heard(server, Hex(BytesOf(name))), bytes))
  {
    if GoodCall(arguments, name) {
      var ask := Heard(server, Hex(BytesOf(name)));
      FetchExactly(ask, bytes);
      var r, f := Download(server, arguments, name), Fetch(ask, 0, [], 0);
      assert r == Result(f, arguments, name);
      assert name == name[..|name| - 4] + name[|name| - 4..];
    }
  }

  // ----- Neo -----

  predicate NameChar(c: char) {
    'a' <= c <= 'z' || 'A' <= c <= 'Z' || '0' <= c <= '9' || c == '_' || c == '-' || c == '.'
  }

  predicate BasenameOk(name: string) {
    && name != "" && name[0] != '.'
    && (forall k | 0 <= k < |name| - 1 :: name[k] != '.' || name[k + 1] != '.')
    && forall k | 0 <= k < |name| :: NameChar(name[k])
  }

  type Directory = map<string, seq<byte>>

  predicate Servable(dir: Directory, name: string) {
    && BasenameOk(name) && |name| >= 5 && EndsWith(name, ".nvm")
    && name in dir && 1 <= |dir[name]| <= PROGRAM_BYTES
  }

  /** How much `pread` gives of what is left when it would give `limit`: at most a chunk, at
      least one byte unless the end is reached. */
  function Given(limit: nat, left: nat): (got: nat)
    ensures got <= left && got <= CHUNK_BYTES && (got == 0 <==> left == 0)
  {
    if left == 0 then 0
    else if limit == 0 then 1
    else if limit <= left && limit <= CHUNK_BYTES then limit
    else if left <= CHUNK_BYTES then left
    else CHUNK_BYTES
  }

  datatype Sent = Refusal(error: string) | Sent(size: nat, last: bool, bytes: seq<byte>)

  /** The VM_READ branch for a decoded name, over an unchanging directory. */
  function Serve(dir: Directory, limit: nat, offset: nat, name: Option<string>): Sent {
    if name.None? || !BasenameOk(name.value) then Refusal("BAD_REQUEST")
    else if |name.value| < 5 || !EndsWith(name.value, ".nvm") then Refusal("BAD_PATH")
    else if !Servable(dir, name.value) || offset > |dir[name.value]| then Refusal("VM_FILE")
    else
      var file := dir[name.value];
      var got := Given(limit, |file| - offset);
      Sent(|file|, offset + got == |file|, file[offset..offset + got])
  }

  function Print(x: Sent): Reply {
    match x
    case Refusal(error) => Refused(error)
    case Sent(size, last, bytes) => Accepted(ReplyText(|bytes|, size, last, bytes))
  }

  /** Neo with reads that get as far as `limit` says, request by request. */
  function NeoServer(dir: Directory, limit: nat -> nat): Server {
    (k: nat, offset: nat, hex: string) => Print(Serve(dir, limit(k), offset, NameOf(hex)))
  }

  function Understood(x: Sent): Answer {
    match x
    case Refusal(error) => No(error)
    case Sent(size, last, bytes) => Told(RawChunk(size, if last then "1" else "0", 2 * |bytes|, Some(bytes)))
  }

  lemma PrintIsUnderstood(x: Sent)
    ensures AnswerOf(Print(x)) == Understood(x)
  {
    if x.Sent? {
      ReplyIsRead(|x.bytes|, x.size, x.last, x.bytes);
      HexRoundTrip(x.bytes);
      assert ChunkOf(Fields(x.size, Hex(x.bytes), if x.last then "1" else "0")) == Understood(x).chunk;
    }
  }

  /** An answer that gives `n` bytes of the file at `offset`. */
  ghost predicate Tells(answer: Answer, file: seq<byte>, offset: nat, n: nat) {
    && offset + n <= |file| && answer.Told?
    && answer.chunk.size == |file| && answer.chunk.length == 2 * n
    && answer.chunk.eof == (if offset + n == |file| then "1" else "0")
    && answer.chunk.bytes == Some(file[offset..offset + n])
  }

  lemma NeoTells(dir: Directory, limit: nat, offset: nat, name: string)
    requires Servable(dir, name) && offset <= |dir[name]|
    ensures Tells(Understood(Serve(dir, limit, offset, Some(name))), dir[name], offset, Given(limit, |dir[name]| - offset))
  {
  }

  ghost predicate TellsAll(ask: Asker, file: seq<byte>, limit: nat -> nat) {
    forall k: nat, offset: nat | offset < |file| ::
      Tells(ask(k, offset), file, offset, Given(limit(k), |file| - offset))
  }

  lemma NeoTellsAll(dir: Directory, limit: nat -> nat, name: string)
    requires Servable(dir, name) && |name| < 192
    ensures TellsAll(Heard(NeoServer(dir, limit), Hex(BytesOf(name))), dir[name], limit)
  {
    var encoded := Hex(BytesOf(name));
    assert NameOf(encoded) == Some(name) by {
      assert forall k | 0 <= k < |name| :: NameChar(name[k]);
      NameRoundTrip(name);
    }
    forall k: nat, offset: nat | offset < |dir[name]|
      ensures Tells(Heard(NeoServer(dir, limit), encoded)(k, offset), dir[name], offset, Given(limit(k), |dir[name]| - offset))
    {
      NeoTells(dir, limit(k), offset, name);
      PrintIsUnderstood(Serve(dir, limit(k), offset, Some(name)));
    }
  }

  lemma {:induction false} FetchWholeFile(ask: Asker, limit: nat -> nat, file: seq<byte>, k: nat, got: seq<byte>, expected: nat)
    requires TellsAll(ask, file, limit) && |got| < |file| <= PROGRAM_BYTES && got == file[..|got|]
    requires expected == 0 || expected == |file|
    ensures Fetch(ask, k, got, expected) == Program(file)
    decreases |file| - |got|
  {
    var n := Given(limit(k), |file| - |got|);
    assert Tells(ask(k, |got|), file, |got|, n);
    assert got + file[|got|..|got| + n] == file[..|got| + n];
    if |got| + n < |file| {
      FetchWholeFile(ask, limit, file, k + 1, file[..|got| + n], |file|);
    }
  }

  lemma NotServed(dir: Directory, limit: nat -> nat, name: string)
    requires !Servable(dir, name) && IsBytes(name)
    ensures Fetch(Heard(NeoServer(dir, limit), Hex(BytesOf(name))), 0, [], 0).Lost?
  {
    NameReadBack(name);
    PrintIsUnderstood(Serve(dir, limit(0), 0, NameOf(Hex(BytesOf(name)))));
  }

  /** Main theorem: however short Neo's reads are, a download from an unchanging directory
      ends, and it stores something exactly when the call and the file are acceptable; it
      then stores exactly that file. */
  lemma NeoDownloadStoresTheFile(dir: Directory, limit: nat -> nat, arguments: seq<int>, name: string)
    requires IsBytes(name)
    ensures var r := Download(NeoServer(dir, limit), arguments, name);
            && (r.Stored? <==> GoodCall(arguments, name) && Servable(dir, name))
            && (r.Stored? ==> r == Stored(name[..|name| - 4], dir[name], arguments == [1]))
  {
    if GoodCall(arguments, name) {
      if Servable(dir, name) {
        NeoTellsAll(dir, limit, name);
        FetchWholeFile(Heard(NeoServer(dir, limit), Hex(BytesOf(name))), limit, dir[name], 0, [], 0);
      } else {
        NotServed(dir, limit, name);
      }
    }
  }

  // ----- the loops -----

  /** The inner loop of `vmDownload`. */
  method DecodeInto(data: string, bytes: array<byte>, offset: nat) returns (ok: bool, end: nat)
    requires |data| % 2 == 0 && offset + |data| / 2 <= bytes.Length
    modifies bytes
    ensures ok == Unhex(data).Some?
    ensures ok ==> end == offset + |data| / 2 && bytes[..end] == old(bytes[..offset]) + Unhex(data).value
  {
    end := offset;
    var i := 0;
    assert data[0..] == data;
    while i < |data|
      invariant 0 <= i <= |data| && i % 2 == 0 && end == offset + i / 2
      invariant bytes[..offset] == old(bytes[..offset])
      invariant Continues(Unhex(data), bytes[offset..end], Unhex(data[i..]))
    {
      var high, low := Nibble(data[i]), Nibble(data[i + 1]);
      UnhexStep(data, i);
      if high < 0 || low < 0 {
        return false, end;
      }
      ghost var done := bytes[offset..end];
      bytes[end] := high * 16 + low;
      assert bytes[offset..end + 1] == done + [high * 16 + low];
      OneByteOn(Unhex(data), done, Unhex(data[i..]), Unhex(data[i + 2..]), high * 16 + low);
      end := end + 1;
      i := i + 2;
    }
    assert bytes[..end] == bytes[..offset] + bytes[offset..end];
    return true, end;
  }

  /** `vmDownload`: the loop over a buffer of 1024 bytes. */
  method RunDownload(server: Server, arguments: seq<int>, name: string) returns (r: Outcome)
    ensures r == Download(server, arguments, name)
  {
    if !GoodCall(arguments, name) {
      return Failed(Usage);
    }
    var encoded := HexText(name);
    var fetched := Collect(server, encoded);
    r := Result(fetched, arguments, name);
  }

  method Collect(server: Server, encoded: string) returns (r: Fetched)
    ensures r == Fetch(Heard(server, encoded), 0, [], 0)
  {
    var bytes := new byte[PROGRAM_BYTES];
    var offset: nat, expected: nat, k: nat := 0, 0, 0;
    ghost var ask := Heard(server, encoded);
    assert bytes[..0] == [];
    while offset < bytes.Length
      invariant offset <= bytes.Length == PROGRAM_BYTES
      invariant Fetch(ask, 0, [], 0) == Fetch(ask, k, bytes[..offset], expected)
      decreases bytes.Length - offset
    {
      var reply := server(k, offset, encoded);
      assert ask(k, offset) == AnswerOf(reply);
      k := k + 1;
      if reply.Refused? {
        return Lost(Neo(reply.error));
      }
      var f := ReadFields(reply.detail);
      if BadChunk(f.size, |f.data|, offset, expected) {
        return Lost(InvalidChunk);
      }
      expected := f.size;
      var ok;
      ok, offset := DecodeInto(f.data, bytes, offset);
      if !ok {
        return Lost(InvalidHex);
      }
      if f.eof == "1" {
        if offset != expected {
          return Lost(Incomplete);
        }
        return Program(bytes[..offset]);
      }
      if f.data == "" || f.eof != "0" {
        return Lost(InvalidEof);
      }
    }
    return Lost(Incomplete);
  }
}
