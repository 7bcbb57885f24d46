/** The download helper: the worker that streams a response into a file, the
    `Download` object that runs it and turns failures into a boolean, and the check
    of a downloaded file's MD5 digest against the server's ETag.

    HTTP is given as data: the first GET yields a status and the `Content-length`
    header, the second a stream of chunks that ends cleanly or with an exception.
    The user's cancel is given as the number of reads of the `killed` flag that
    happen before it is set. */
module Downloads {
  import opened Wrappers
  import opened Strings

  newtype Byte = b: int | 0 <= b < 256
  type Chunk = seq<Byte>

  /** The exceptions the code raises or catches by kind. */
  datatype Error =
    | ChunkedEncoding          // requests.exceptions.ChunkedEncodingError
    | Connection               // requests.exceptions.ConnectionError
    | Timeout                  // requests.exceptions.Timeout
    | DownloadError(message: string)
    | Other(name: string)      // any other exception, by class name

  /** `int(resp.headers['Content-length'])`, or why it raises. */
  datatype ContentLength = Absent | NotAnInteger | Length(n: int)

  datatype Reply = Reply(status: int, contentLength: ContentLength)

  /** The chunks `iter_content` yields, then `None` for a clean end or the exception
      it raises when asked for the next chunk. */
  datatype Stream = Stream(chunks: seq<Chunk>, end: Option<Error>)

  /** `work()` returns True, returns None, or raises. */
  datatype Outcome = Completed | Cancelled | Raised(error: Error)

  /** What a run leaves at the output path. */
  datatype FileEffect = Untouched | Written(content: seq<Byte>) | Deleted

  datatype Report = Report(outcome: Outcome, file: FileEffect)

  const StatusOk: int := 200

  function StartFailure(url: string): Error {
    DownloadError("Unable to start download of " + url)
  }

  function SizeFailure(url: string): Error {
    DownloadError("Final file size of " + url + " does not match expected")
  }

  /** The `t`-th read of `killed` (counting from 0) sees it set. */
  predicate KilledAt(killFrom: Option<nat>, t: nat) {
    killFrom.Some? && killFrom.value <= t
  }

  /** How many chunks the loop takes before it stops: the first read that sees
      `killed`, or all of them. */
  function Cut(n: nat, killFrom: Option<nat>): (r: nat)
    ensures r <= n
    ensures r < n ==> KilledAt(killFrom, r)
    ensures forall t :: 0 <= t < r ==> !KilledAt(killFrom, t)
  {
    if killFrom.Some? && killFrom.value < n then killFrom.value else n
  }

  /** The bytes of the chunks, in order. */
  function Concat(cs: seq<Chunk>): seq<Byte> {
    if cs == [] then [] else Concat(cs[..|cs| - 1]) + cs[|cs| - 1]
  }

  /** The sum of the lengths of the non-empty chunks. */
  function ByteCount(cs: seq<Chunk>): nat {
    if cs == [] then 0
    else ByteCount(cs[..|cs| - 1]) + (if cs[|cs| - 1] != [] then |cs[|cs| - 1]| else 0)
  }

  /** The position of the first non-empty chunk. */
  function FirstNonEmpty(cs: seq<Chunk>): (r: Option<nat>)
    ensures r.None? <==> forall k :: 0 <= k < |cs| ==> cs[k] == []
    ensures r.Some? ==> r.value < |cs| && cs[r.value] != [] && forall k :: 0 <= k < r.value ==> cs[k] == []
  {
    if cs == [] then None
    else if cs[0] != [] then Some(0)
    else match FirstNonEmpty(cs[1..])
      case None => None
      case Some(k) => Some(k + 1)
  }

  /** The effect of `DownloadWorker.work()`, in closed form. */
  function WorkSpec(url: string, reply: Result<Reply, Error>, stream: Result<Stream, Error>,
                    killFrom: Option<nat>): (r: Report)
    ensures r.file != Untouched ==>
      reply.Ok? && reply.value.status == StatusOk && reply.value.contentLength.Length? && stream.Ok?
    ensures r.outcome == Completed ==>
      r.file.Written? && |r.file.content| == reply.value.contentLength.n
  {
    match reply
    case Err(e) => Report(Raised(e), Untouched)
    case Ok(rp) =>
      if rp.status != StatusOk then Report(Raised(StartFailure(url)), Untouched)
      else match rp.contentLength
        case Absent => Report(Raised(Other("KeyError")), Untouched)
        case NotAnInteger => Report(Raised(Other("ValueError")), Untouched)
        case Length(total) =>
          match stream
          case Err(e) => Report(Raised(e), Untouched)
          case Ok(st) => StreamSpec(url, total, st, killFrom)
  }

  /** The effect of the part of `work()` that runs once the output file is opened. */
  function StreamSpec(url: string, total: int, st: Stream, killFrom: Option<nat>): (r: Report)
    ensures r.file != Untouched
    ensures r.outcome == Completed ==>
      r.file == Written(Concat(st.chunks[..Cut(|st.chunks|, killFrom)])) && |r.file.content| == total
    ensures r.file == Deleted ==> r.outcome == Cancelled || r.outcome == Raised(SizeFailure(url))
  {
    var n := Cut(|st.chunks|, killFrom);
    var got := st.chunks[..n];
    var first := FirstNonEmpty(got);
    if total == 0 && first.Some? then
      // the progress percentage divides by the total size
      Report(Raised(Other("ZeroDivisionError")), Written(Concat(got[..first.value + 1])))
    else if n == |st.chunks| && st.end.Some? then
      Report(Raised(st.end.value), Written(Concat(got)))
    else if |Concat(got)| != total then
      Report(if KilledAt(killFrom, n) then Cancelled else Raised(SizeFailure(url)), Deleted)
    else
      Report(Completed, Written(Concat(got)))
  }

  /** The files on disk, by path. */
  class Disk {
    var files: map<string, seq<Byte>>

    constructor(files: map<string, seq<Byte>>)
      ensures this.files == files
    {
      this.files := files;
    }
  }

  function Apply(files: map<string, seq<Byte>>, path: string, effect: FileEffect): map<string, seq<Byte>> {
    match effect
    case Untouched => files
    case Written(content) => files[path := content]
    case Deleted => files - {path}
  }

  class DownloadWorker {
    const url: string
    const outfile: string
    /** When `kill()` sets `killed`, counted in reads of the flag. */
    const killFrom: Option<nat>

    constructor(url: string, outfile: string, killFrom: Option<nat>)
      ensures this.url == url && this.outfile == outfile && this.killFrom == killFrom
    {
      this.url := url;
      this.outfile := outfile;
      this.killFrom := killFrom;
    }

    /** `work()`: refuses a status other than 200 before touching the file, writes
        the non-empty chunks until the first one seen after `killed` is set, and
        compares the byte count with the announced size. */
    method Work(disk: Disk, reply: Result<Reply, Error>, stream: Result<Stream, Error>) returns (outcome: Outcome)
      modifies disk
      ensures var spec := WorkSpec(url, reply, stream, killFrom);
        outcome == spec.outcome && disk.files == Apply(old(disk.files), outfile, spec.file)
    {
      if reply.Err? {
        return Raised(reply.error);
      }
      if reply.value.status != StatusOk {
        return Raised(StartFailure(url));
      }
      var total: int;
      match reply.value.contentLength {
        case Absent => return Raised(Other("KeyError"));
        case NotAnInteger => return Raised(Other("ValueError"));
        case Length(n) => total := n;
      }
      if stream.Err? {
        return Raised(stream.error);
      }
      outcome := WriteStream(disk, total, stream.value);
    }

    /** The part of `work()` from opening the output file on. */
    method WriteStream(disk: Disk, total: int, st: Stream) returns (outcome: Outcome)
      modifies disk
      ensures var spec := StreamSpec(url, total, st, killFrom);
        outcome == spec.outcome && disk.files == Apply(old(disk.files), outfile, spec.file)
    {
      var i, bytesDl, zeroDivision := WriteChunks(disk, total, st.chunks);
      if zeroDivision {
        return Raised(Other("ZeroDivisionError"));
      }
      if i == |st.chunks| && st.end.Some? {
        return Raised(st.end.value);
      }
      if bytesDl != total {
        disk.files := disk.files - {outfile};
        if !KilledAt(killFrom, i) {
          return Raised(SizeFailure(url));
        }
        return Cancelled;
      }
      return Completed;
    }

    /** The chunk loop of `work()`: opens the output file, then writes each non-empty
        chunk until `killed` is seen. With a total size of 0 the first non-empty
        chunk makes the progress computation divide by zero. */
    method WriteChunks(disk: Disk, total: int, chunks: seq<Chunk>) returns (i: nat, bytesDl: nat, zeroDivision: bool)
      modifies disk
      ensures var n := Cut(|chunks|, killFrom);
        if zeroDivision then
          total == 0 && i < n && FirstNonEmpty(chunks[..n]) == Some(i) &&
          disk.files == old(disk.files)[outfile := Concat(chunks[..n][..i + 1])]
        else
          i == n && (total == 0 ==> FirstNonEmpty(chunks[..n]).None?) &&
          bytesDl == |Concat(chunks[..n])| &&
          disk.files == old(disk.files)[outfile := Concat(chunks[..n])]
    {
      ghost var n := Cut(|chunks|, killFrom);
      disk.files := disk.files[outfile := []];
      bytesDl, i, zeroDivision := 0, 0, false;
      while i < |chunks|
        invariant 0 <= i <= n
        invariant disk.files == old(disk.files)[outfile := Concat(chunks[..i])]
        invariant bytesDl == |Concat(chunks[..i])|
        invariant total == 0 ==> forall k :: 0 <= k < i ==> chunks[k] == []
      {
        if KilledAt(killFrom, i) {
          break;
        }
        var chunk := chunks[i];
        assert chunks[..i + 1][..i] == chunks[..i];
        assert Concat(chunks[..i + 1]) == Concat(chunks[..i]) + chunk;
        if chunk != [] {
          disk.files := disk.files[outfile := disk.files[outfile] + chunk];
          bytesDl := bytesDl + |chunk|;
          if total == 0 {
            FirstNonEmptyAt(chunks[..n], i);
            assert chunks[..n][..i + 1] == chunks[..i + 1];
            zeroDivision := true;
            return;
          }
        } else {
          assert Concat(chunks[..i]) + chunk == Concat(chunks[..i]);
        }
        i := i + 1;
      }
      assert chunks[..i] == chunks[..n];
      assert total == 0 ==> forall k :: 0 <= k < n ==> chunks[..n][k] == [];
    }
  }

  /** A chunk preceded only by empty chunks is the first non-empty one of any
      longer prefix. */
  lemma FirstNonEmptyAt(cs: seq<Chunk>, i: nat)
    requires i < |cs| && cs[i] != [] && forall k :: 0 <= k < i ==> cs[k] == []
    ensures FirstNonEmpty(cs) == Some(i)
  {
  }

  /** Empty chunks add no bytes: the count is the length of what was written. */
  lemma {:induction false} ByteCountIsLength(cs: seq<Chunk>)
    ensures ByteCount(cs) == |Concat(cs)|
  {
    if cs != [] {
      ByteCountIsLength(cs[..|cs| - 1]);
    }
  }

  /** A response with a status other than 200 raises `DownloadError` before the
      output file is opened. */
  lemma RefusesNon200(url: string, status: int, length: ContentLength, stream: Result<Stream, Error>, killFrom: Option<nat>)
    requires status != StatusOk
    ensures WorkSpec(url, Ok(Reply(status, length)), stream, killFrom) == Report(Raised(StartFailure(url)), Untouched)
  {
  }

  /** Once the flag is set at read `k`, chunk `k` and every later chunk stay out of
      the file: whatever is written is the concatenation of chunks before `k`. */
  lemma KilledChunksNotWritten(url: string, reply: Result<Reply, Error>, st: Stream, k: nat)
    requires WorkSpec(url, reply, Ok(st), Some(k)).file.Written?
    ensures exists j :: (0 <= j <= k && j <= |st.chunks| &&
      WorkSpec(url, reply, Ok(st), Some(k)).file.content == Concat(st.chunks[..j]))
  {
    var n := Cut(|st.chunks|, Some(k));
    var got := st.chunks[..n];
    var first := FirstNonEmpty(got);
    var content := WorkSpec(url, reply, Ok(st), Some(k)).file.content;
    if reply.value.contentLength.n == 0 && first.Some? {
      assert got[..first.value + 1] == st.chunks[..first.value + 1];
      assert content == Concat(st.chunks[..first.value + 1]);
    } else {
      assert content == Concat(st.chunks[..n]);
    }
  }

  /** After a clean, uncut transfer of a 200 response: `work` returns True exactly
      when the bytes received (the non-empty chunks before the kill) add up to the
      Content-length, whether or not `killed` is set by then, and the file then
      holds them. On a mismatch the file is removed, and `work` returns None if
      `killed` was set and raises `DownloadError` otherwise. */
  lemma OutcomeBySize(url: string, total: int, st: Stream, killFrom: Option<nat>)
    requires var got := st.chunks[..Cut(|st.chunks|, killFrom)];
      !(total == 0 && FirstNonEmpty(got).Some?) && !(|got| == |st.chunks| && st.end.Some?)
    ensures var got := st.chunks[..Cut(|st.chunks|, killFrom)];
      var spec := WorkSpec(url, Ok(Reply(StatusOk, Length(total))), Ok(st), killFrom);
      (spec.outcome == Completed <==> ByteCount(got) == total) &&
      (spec.outcome == Completed ==> spec.file == Written(Concat(got))) &&
      (spec.outcome == Cancelled <==> ByteCount(got) != total && KilledAt(killFrom, |got|)) &&
      (spec.outcome == Raised(SizeFailure(url)) <==> ByteCount(got) != total && !KilledAt(killFrom, |got|)) &&
      (ByteCount(got) != total ==> spec.file == Deleted)
  {
    ByteCountIsLength(st.chunks[..Cut(|st.chunks|, killFrom)]);
  }

  /** A stream that breaks before the user cancels raises its exception and leaves
      the partly written file on disk. */
  lemma BrokenStreamKeepsPartialFile(url: string, total: int, chunks: seq<Chunk>, e: Error)
    requires total != 0 || FirstNonEmpty(chunks).None?
    ensures WorkSpec(url, Ok(Reply(StatusOk, Length(total))), Ok(Stream(chunks, Some(e))), None) ==
      Report(Raised(e), Written(Concat(chunks)))
  {
    assert chunks[..|chunks|] == chunks;
  }

  /** `Download.start()`'s result for the exception the worker reported, if any. */
  datatype StartResult = Returned(ok: bool) | Propagated(error: Error)

  /** The handled failures: a broken chunked transfer, a connection error, a timeout
      or a `DownloadError`. */
  predicate Handled(e: Error) {
    e.ChunkedEncoding? || e.Connection? || e.Timeout? || e.DownloadError?
  }

  function StartResultFor(exception: Option<Error>): (r: StartResult)
    ensures r == Returned(true) <==> exception.None?
    ensures r == Returned(false) <==> exception.Some? && Handled(exception.value)
    ensures r.Propagated? <==> exception.Some? && !Handled(exception.value)
    ensures r.Propagated? ==> r.error == exception.value
  {
    match exception
    case None => Returned(true)
    case Some(e) =>
      match e
      case ChunkedEncoding => Returned(false)
      case Connection => Returned(false)
      case Timeout => Returned(false)
      case DownloadError(_) => Returned(false)
      case Other(_) => Propagated(e)
  }

  class Download {
    var resp: Option<bool>
    var exception: Option<Error>
    const url: string
    const outfile: string

    constructor(url: string, outfile: string)
      ensures resp == None && exception == None && this.url == url && this.outfile == outfile
    {
      resp := None;
      exception := None;
      this.url := url;
      this.outfile := outfile;
    }

    /** `save_resp`: the slot for the worker's `successfully_finished` signal. */
    method SaveResp(r: bool)
      modifies this`resp
      ensures resp == Some(r)
    {
      resp := Some(r);
    }

    method GetResp() returns (r: Option<bool>)
      ensures r == resp
    {
      r := resp;
    }

    /** `save_exception`: the slot for the worker's `error` signal. */
    method SaveException(e: Error)
      modifies this`exception
      ensures exception == Some(e)
    {
      exception := Some(e);
    }

    method GetException() returns (e: Option<Error>)
      ensures e == exception
    {
      e := exception;
    }

    /** `start()`: runs a worker to completion, records what it reports, then
        re-raises a recorded exception and maps it to the result. The fields are
        never cleared, so an exception from an earlier run is raised again. */
    method Start(disk: Disk, killFrom: Option<nat>, reply: Result<Reply, Error>, stream: Result<Stream, Error>)
      returns (r: StartResult)
      modifies this, disk
      ensures var spec := WorkSpec(url, reply, stream, killFrom);
        disk.files == Apply(old(disk.files), outfile, spec.file) &&
        resp == (if spec.outcome == Completed then Some(true) else old(resp)) &&
        exception == (if spec.outcome.Raised? then Some(spec.outcome.error) else old(exception))
      ensures r == StartResultFor(exception)
      ensures old(exception).Some? ==> r != Returned(true)
    {
      var worker := new DownloadWorker(url, outfile, killFrom);
      var outcome := worker.Work(disk, reply, stream);
      match outcome {
        case Completed => SaveResp(true);
        case Cancelled =>
        case Raised(e) => SaveException(e);
      }
      var e := GetException();
      r := StartResultFor(e);
    }
  }

  /** `check_hash_against_etag`: the expected digest is the ETag header with its
      surrounding double quotes stripped, or empty when there is no header. */
  function ExpectedHash(etag: Option<string>): (r: string)
    ensures IsStripped(r, {'"'})
    ensures etag.None? ==> r == []
  {
    Strip(etag.GetOr(""), {'"'})
  }

  function HashVerified(etag: Option<string>, md5hex: string): (r: bool)
    ensures r ==> IsStripped(md5hex, {'"'})
  {
    md5hex == ExpectedHash(etag)
  }

  function Quotes(n: nat): (r: string)
    ensures |r| == n && AllIn(r, {'"'})
  {
    if n == 0 then [] else "\"" + Quotes(n - 1)
  }

  /** A digest wrapped in any number of quotes on either side verifies. */
  lemma QuotedDigestVerifies(digest: string, i: nat, j: nat)
    requires IsStripped(digest, {'"'})
    ensures HashVerified(Some(Quotes(i) + digest + Quotes(j)), digest)
  {
    StripPadded(Quotes(i), digest, Quotes(j), {'"'});
  }

  /** Conversely, an ETag verifies a digest only if it is that digest wrapped in quotes. */
  lemma VerifiedMeansQuoted(etag: string, digest: string) returns (i: nat, j: nat)
    requires HashVerified(Some(etag), digest)
    ensures etag == Quotes(i) + digest + Quotes(j)
  {
    var t := TrimStart(etag, {'"'});
    TrimStartCuts(etag, {'"'});
    TrimEndCuts(t, {'"'});
    i, j := |etag| - |t|, |t| - |digest|;
    assert etag[..i] == Quotes(i);
    assert t[|digest|..] == Quotes(j);
    assert etag == etag[..i] + t;
    assert t == digest + t[|digest|..];
  }

  /** Without an ETag header nothing but the empty string verifies, so no MD5 digest does. */
  lemma MissingEtagRejects(digest: string)
    requires digest != []
    ensures !HashVerified(None, digest)
  {
  }

  /** An MD5 hex digest: 32 lower-case hexadecimal digits. */
  predicate IsMd5Hex(s: string) {
    |s| == 32 && forall k :: 0 <= k < 32 ==> s[k] in "0123456789abcdef"
  }

  /** A weak ETag (`W/"..."`) never verifies an MD5 digest, not even its own. */
  lemma WeakEtagRejects(digest: string)
    requires IsMd5Hex(digest)
    ensures !HashVerified(Some("W/\"" + digest + "\""), digest)
  {
    var etag := "W/\"" + digest + "\"";
    assert etag[0] == 'W';
    StripKeepsFirst(etag, {'"'});
    assert ExpectedHash(Some(etag))[0] == 'W';
    assert digest[0] in "0123456789abcdef";
  }
}
