/**
 * The `Downloader` of src/pyscar/download.py.
 *
 * `GetArtifact` probes the artifact with a HEAD request, reads the expected size from
 * its Content-Length header, streams the body with a GET request into an output file
 * chunk by chunk while reporting progress, and declares success exactly when the number
 * of bytes received equals the expected size. `Md5` reads a file in 4096-byte blocks
 * and feeds them to an MD5 state.
 *
 * The network is a `Server` object that answers with fixed replies and records the
 * requests it receives; the output file, the progress callback, the input file and the
 * MD5 state are objects whose contents the methods extend in place.
 */
module Download {
  import opened PyInt
  import opened Transfer

  /** The parts of the HEAD response that are read: the status and the Content-Length header, if present. */
  datatype HeadReply = HeadReply(status: int, contentLength: Option<string>)

  /** The parts of the streamed GET response that are read: the status and the chunks of the body. */
  datatype GetReply = GetReply(status: int, chunks: seq<Chunk>)

  datatype Verb = HEAD | GET

  datatype Request = Request(verb: Verb, url: string)

  /** The exceptions `get_artifact` lets escape. */
  datatype Error =
    | KeyError                // the HEAD response has no Content-Length header
    | ValueError              // the Content-Length header is not an integer
    | HttpError(status: int)  // `raise_for_status` on the GET response
    | OverflowError           // `float(file_size)` is out of the double range
    | ZeroDivisionError       // the expected size is 0

  /** The returned `ret` dictionary: the value of 'result' and whether 'time_get' and 'time_download' are present. */
  datatype Report = Report(result: bool, timed: bool)

  /** How a call ends: it returns `ret`, or it raises. */
  datatype Outcome = Returned(report: Report) | Raised(error: Error)

  datatype Result<T> = Success(value: T) | Failure(error: Error)

  /** The keys of the `ret` dictionary. */
  function Keys(r: Report): set<string> {
    {"result"} + (if r.timed then {"time_get", "time_download"} else {})
  }

  /** The statuses for which `raise_for_status` raises: client and server errors. */
  predicate IsHttpError(status: int): (b: bool)
    ensures 100 <= status < 400 ==> !b
  {
    400 <= status < 600
  }

  /** `int(response.headers["Content-Length"])`. */
  function ContentLength(header: Option<string>): (r: Result<int>)
    ensures r.Failure? ==> r.error == KeyError || r.error == ValueError
    ensures r == Failure(KeyError) <==> header.None?
    ensures r.Success? <==> header.Some? && ParseInt(header.value).Some?
    ensures r.Success? ==> ParseInt(header.value) == Some(r.value)
  {
    match header
    case None => Failure(KeyError)
    case Some(text) =>
      match ParseInt(text)
      case None => Failure(ValueError)
      case Some(n) => Success(n)
  }

  /**
   * Everything one call does: the requests it sends, the bytes it appends to the output
   * file, the values it passes to the progress callback (when there is one) and how it ends.
   */
  datatype Effect = Effect(requests: seq<Request>, written: seq<byte>, progress: seq<Fraction>, outcome: Outcome)

  /** The effect of `get_artifact(url, file_handle, cb_progress, timed)` against a server giving `head` and `get`. */
  function Expected(url: string, head: HeadReply, get: GetReply, timed: bool): (e: Effect)
    ensures e.requests == [Request(HEAD, url)] || e.requests == [Request(HEAD, url), Request(GET, url)]
    ensures e.outcome.Raised? ==> e.written == [] && e.progress == []
  {
    var probe := [Request(HEAD, url)];
    if head.status != 200 then Effect(probe, [], [], Returned(Report(false, false)))
    else match ContentLength(head.contentLength)
      case Failure(e) => Effect(probe, [], [], Raised(e))
      case Success(size) =>
        var both := probe + [Request(GET, url)];
        if IsHttpError(get.status) then Effect(both, [], [], Raised(HttpError(get.status)))
        else if !FloatConvertible(size) then Effect(both, [], [], Raised(OverflowError))
        else if size == 0 then Effect(both, [], [], Raised(ZeroDivisionError))
        else
          var body := Concat(get.chunks);
          Effect(both, body, Trace(get.chunks, 0, size), Returned(Report(|body| == size, timed)))
  }

  /** The remote server: the replies it gives and the requests it has received so far. */
  class Server {
    const head: HeadReply
    const get: GetReply
    var requests: seq<Request>

    constructor(head: HeadReply, get: GetReply)
      ensures this.head == head && this.get == get && requests == []
    {
      this.head := head;
      this.get := get;
      requests := [];
    }

    /** `requests.head(url, ...)`. */
    method Head(url: string) returns (reply: HeadReply)
      modifies this
      ensures reply == head
      ensures requests == old(requests) + [Request(HEAD, url)]
    {
      requests := requests + [Request(HEAD, url)];
      reply := head;
    }

    /** `requests.get(url, stream=True)`. */
    method Get(url: string) returns (reply: GetReply)
      modifies this
      ensures reply == get
      ensures requests == old(requests) + [Request(GET, url)]
    {
      requests := requests + [Request(GET, url)];
      reply := get;
    }
  }

  /** A file handle opened for binary writing: the bytes written to it so far. */
  class OutputFile {
    var contents: seq<byte>

    constructor()
      ensures contents == []
    {
      contents := [];
    }

    method Write(chunk: Chunk)
      modifies this
      ensures contents == old(contents) + chunk
    {
      contents := contents + chunk;
    }
  }

  /** A progress callback that records every value it is called with. */
  class ProgressCallback {
    var values: seq<Fraction>

    constructor()
      ensures values == []
    {
      values := [];
    }

    method Call(value: Fraction)
      modifies this
      ensures values == old(values) + [value]
    {
      values := values + [value];
    }
  }

  /** A file handle opened for binary reading: the file's bytes and the read position. */
  class InputFile {
    const data: seq<byte>
    var position: nat

    ghost predicate Valid()
      reads this
    {
      position <= |data|
    }

    constructor(data: seq<byte>)
      ensures Valid() && this.data == data && position == 0
    {
      this.data := data;
      position := 0;
    }

    /** `read(n)`: the next `n` bytes, or what is left when fewer remain. */
    method Read(n: nat) returns (block: seq<byte>)
      requires Valid()
      modifies this
      ensures Valid()
      ensures position == if old(position) + n <= |data| then old(position) + n else |data|
      ensures block == data[old(position)..position]
      ensures |block| < n ==> position == |data|
    {
      var stop := if position + n <= |data| then position + n else |data|;
      block := data[position..stop];
      position := stop;
    }
  }

  /** The incremental state of `hashlib.md5()`: the bytes fed to it so far. */
  class Md5State {
    var absorbed: seq<byte>

    constructor()
      ensures absorbed == []
    {
      absorbed := [];
    }

    method Update(block: seq<byte>)
      modifies this
      ensures absorbed == old(absorbed) + block
    {
      absorbed := absorbed + block;
    }

    /** `hexdigest()`, for the digest function `md5` on whole byte strings. */
    function HexDigest(md5: seq<byte> -> string): string
      reads this
    {
      md5(absorbed)
    }
  }

  /** The block size `md5` reads with. */
  const BlockSize := 4096

  class Downloader {

    constructor()
    {
    }

    /**
     * `get_artifact(url, file_handle, cb_progress, timed)`; a null `callback` is an
     * absent or falsy `cb_progress`, which `if cb_progress:` never calls.
     */
    method GetArtifact(url: string, server: Server, file: OutputFile, callback: ProgressCallback?, timed: bool)
      returns (outcome: Outcome)
      modifies server, file, callback
      ensures var e := Expected(url, server.head, server.get, timed);
        && outcome == e.outcome
        && server.requests == old(server.requests) + e.requests
        && file.contents == old(file.contents) + e.written
        && (callback != null ==> callback.values == old(callback.values) + e.progress)
    {
      var head := server.Head(url);
      if head.status != 200 {
        return Returned(Report(false, false));
      }
      var size: int;
      match ContentLength(head.contentLength) {
        case Failure(e) =>
          return Raised(e);
        case Success(n) =>
          size := n;
      }
      var get := server.Get(url);
      if IsHttpError(get.status) {
        return Raised(HttpError(get.status));
      }
      if !FloatConvertible(size) {
        return Raised(OverflowError);
      }
      if size == 0 {
        return Raised(ZeroDivisionError);
      }
      var done := StreamBody(get.chunks, size, file, callback);
      outcome := Returned(Report(done == size, timed));
    }

    /**
     * The chunk loop: every non-empty chunk is appended to `file`, added to the running
     * total, and reported to `callback` as `done / size`; empty chunks are skipped.
     */
    method StreamBody(chunks: seq<Chunk>, size: int, file: OutputFile, callback: ProgressCallback?)
      returns (done: nat)
      modifies file, callback
      ensures done == |Concat(chunks)|
      ensures file.contents == old(file.contents) + Concat(chunks)
      ensures callback != null ==> callback.values == old(callback.values) + Trace(chunks, 0, size)
    {
      done := 0;
      for i := 0 to |chunks|
        invariant done == |Concat(chunks[..i])|
        invariant file.contents == old(file.contents) + Concat(chunks[..i])
        invariant callback != null ==> callback.values == old(callback.values) + Trace(chunks[..i], 0, size)
      {
        var chunk := chunks[i];
        ChunkStep(chunks[..i], chunk, 0, size);
        assert chunks[..i + 1] == chunks[..i] + [chunk];
        if chunk != [] {
          done := done + |chunk|;
          file.Write(chunk);
          if callback != null {
            callback.Call(Fraction(done, size));
          }
        }
      }
      assert chunks[..|chunks|] == chunks;
    }

    /**
     * `md5(file_handle)`: the digest of everything from the read position to the end of
     * the file, whatever the block size; `md5` is the digest function itself.
     */
    method Md5(file: InputFile, md5: seq<byte> -> string) returns (hex: string)
      requires file.Valid()
      modifies file
      ensures file.Valid() && file.position == |file.data|
      ensures hex == md5(file.data[old(file.position)..])
    {
      var start := file.position;
      var state := new Md5State();
      var block := file.Read(BlockSize);
      while block != []
        invariant file.Valid() && start <= file.position
        invariant state.absorbed + block == file.data[start..file.position]
        invariant block == [] ==> file.position == |file.data|
        decreases |file.data| - file.position + |block|
      {
        state.Update(block);
        block := file.Read(BlockSize);
      }
      assert state.absorbed == file.data[start..];
      hex := state.HexDigest(md5);
    }
  }

  /**
   * A HEAD status other than 200 ends the call with 'result' False and no timing keys:
   * no GET is sent, nothing is written and the callback is never called.
   */
  lemma HeadRejected(url: string, head: HeadReply, get: GetReply, timed: bool)
    requires head.status != 200
    ensures var e := Expected(url, head, get, timed);
      && e.outcome == Returned(Report(false, false))
      && Keys(e.outcome.report) == {"result"}
      && e.requests == [Request(HEAD, url)]
      && e.written == [] && e.progress == []
  {
  }

  /** The GET request is sent exactly when the probe passes and the Content-Length header parses. */
  lemma GetSentIffProbePasses(url: string, head: HeadReply, get: GetReply, timed: bool)
    ensures var e := Expected(url, head, get, timed);
      && e.requests[..1] == [Request(HEAD, url)]
      && (Request(GET, url) in e.requests <==> head.status == 200 && ContentLength(head.contentLength).Success?)
  {
    var e := Expected(url, head, get, timed);
    if head.status == 200 && ContentLength(head.contentLength).Success? {
      assert e.requests == [Request(HEAD, url), Request(GET, url)];
    } else {
      assert e.requests == [Request(HEAD, url)];
    }
  }

  /**
   * Each exception arises from exactly one condition, in the order the code checks them,
   * and none of them leaves a byte written or a callback value behind.
   */
  lemma RaisedCases(url: string, head: HeadReply, get: GetReply, timed: bool)
    ensures var e := Expected(url, head, get, timed);
      && (e.outcome.Raised? ==> e.written == [] && e.progress == [])
      && (e.outcome == Raised(KeyError) <==> head.status == 200 && head.contentLength.None?)
      && (e.outcome == Raised(ValueError) <==>
            head.status == 200 && head.contentLength.Some? && ParseInt(head.contentLength.value).None?)
      && (e.outcome.Raised? && e.outcome.error.HttpError? <==>
            head.status == 200 && ContentLength(head.contentLength).Success? && IsHttpError(get.status))
      && (e.outcome == Raised(OverflowError) <==>
            head.status == 200 && ContentLength(head.contentLength).Success? && !IsHttpError(get.status)
            && !FloatConvertible(ContentLength(head.contentLength).value))
      && (e.outcome == Raised(ZeroDivisionError) <==>
            head.status == 200 && ContentLength(head.contentLength) == Success(0) && !IsHttpError(get.status))
  {
    var e := Expected(url, head, get, timed);
    if head.status != 200 {
      assert e.outcome.Returned?;
    } else if head.contentLength.None? {
      assert e.outcome == Raised(KeyError);
    } else if ParseInt(head.contentLength.value).None? {
      assert e.outcome == Raised(ValueError);
    } else {
      var size := ParseInt(head.contentLength.value).value;
      assert ContentLength(head.contentLength) == Success(size);
      if IsHttpError(get.status) {
        assert e.outcome == Raised(HttpError(get.status));
      } else if !FloatConvertible(size) {
        assert e.outcome == Raised(OverflowError);
      } else if size == 0 {
        assert e.outcome == Raised(ZeroDivisionError);
      } else {
        assert e.outcome.Returned?;
      }
    }
  }

  /** 'result' is True exactly when the number of bytes received equals the Content-Length. */
  lemma {:induction false} ResultIffSizeMatches(url: string, head: HeadReply, get: GetReply, timed: bool)
    ensures var e := Expected(url, head, get, timed);
      && (e.outcome.Returned? && e.outcome.report.result <==>
            && head.status == 200
            && ContentLength(head.contentLength) == Success(|Concat(NonEmpty(get.chunks))|)
            && !IsHttpError(get.status)
            && FloatConvertible(|Concat(get.chunks)|)
            && |Concat(get.chunks)| > 0)
  {
    ConcatNonEmpty(get.chunks);
    var e := Expected(url, head, get, timed);
    if head.status == 200 && ContentLength(head.contentLength).Success? {
      var size := ContentLength(head.contentLength).value;
      var body := Concat(get.chunks);
      if !IsHttpError(get.status) && FloatConvertible(size) && size != 0 {
        assert e.outcome == Returned(Report(|body| == size, timed));
      } else {
        assert e.outcome.Raised?;
      }
    }
  }

  /**
   * A stream shorter or longer than the Content-Length still returns, with 'result' False,
   * after writing everything it received.
   */
  lemma SizeMismatchFails(url: string, head: HeadReply, get: GetReply, timed: bool, size: int)
    requires head.status == 200 && ContentLength(head.contentLength) == Success(size)
    requires !IsHttpError(get.status) && FloatConvertible(size) && size != 0
    requires |Concat(get.chunks)| != size
    ensures var e := Expected(url, head, get, timed);
      && e.outcome == Returned(Report(false, timed))
      && e.written == Concat(get.chunks)
  {
  }

  /**
   * After a passed probe, the file gains the non-empty chunks in arrival order, the
   * callback sees one value per non-empty chunk with strictly increasing running totals
   * over the Content-Length, and the last value carries the total written.
   */
  lemma {:induction false} StreamEffects(url: string, head: HeadReply, get: GetReply, timed: bool)
    requires head.status == 200
    requires Expected(url, head, get, timed).outcome.Returned?
    ensures var e := Expected(url, head, get, timed);
      && e.written == Concat(NonEmpty(get.chunks))
      && |e.progress| == |NonEmpty(get.chunks)|
      && StrictlyIncreasing(e.progress)
      && (e.progress != [] ==> e.progress[|e.progress| - 1].done == |e.written|)
      && ContentLength(head.contentLength).Success?
      && TotalsWithin(e.progress, 0, |e.written|, ContentLength(head.contentLength).value)
  {
    var size := ContentLength(head.contentLength).value;
    ConcatNonEmpty(get.chunks);
    TraceCount(get.chunks, 0, size);
    TraceIncreasing(get.chunks, 0, size);
    TraceLast(get.chunks, 0, size);
  }

  /** The last callback value is 1 exactly when 'result' is True; the values never decrease for a positive size. */
  lemma {:induction false} FinalProgressIsOneIffSuccess(url: string, head: HeadReply, get: GetReply, timed: bool)
    requires Expected(url, head, get, timed).outcome.Returned?
    ensures var e := Expected(url, head, get, timed);
      && (e.outcome.report.result <==> e.progress != [] && e.progress[|e.progress| - 1].IsOne())
      && (forall i, j :: 0 <= i < j < |e.progress| && e.progress[i].size > 0 ==> e.progress[i].AtMost(e.progress[j]))
  {
    var e := Expected(url, head, get, timed);
    if head.status == 200 {
      var size := ContentLength(head.contentLength).value;
      var body, t := Concat(get.chunks), Trace(get.chunks, 0, size);
      assert !IsHttpError(get.status) && FloatConvertible(size) && size != 0;
      assert e == Effect([Request(HEAD, url), Request(GET, url)], body, t, Returned(Report(|body| == size, timed)));
      TraceLast(get.chunks, 0, size);
      TraceAtMost(get.chunks, 0, size);
    } else {
      assert e.progress == [] && !e.outcome.report.result;
    }
  }

  /** 'result' is always a key; 'time_get' and 'time_download' are keys exactly when timing was asked for and the probe passed. */
  lemma TimingKeys(url: string, head: HeadReply, get: GetReply, timed: bool)
    requires Expected(url, head, get, timed).outcome.Returned?
    ensures var keys := Keys(Expected(url, head, get, timed).outcome.report);
      && "result" in keys
      && ("time_get" in keys <==> timed && head.status == 200)
      && ("time_download" in keys <==> timed && head.status == 200)
  {
  }

  /** A Content-Length header written the usual way, `str(n)`, gives the expected size n. */
  lemma ContentLengthOfShow(n: int)
    ensures ContentLength(Some(Show(n))) == Success(n)
  {
    ParseShow(n);
  }

  /**
   * A server that announces size n > 0 and then streams exactly n bytes, in whatever
   * chunks: 'result' is True, the file holds those bytes and the last callback value is n / n.
   */
  lemma {:induction false} ExactDownload(url: string, head: HeadReply, get: GetReply, timed: bool, n: int)
    requires head.status == 200 && ContentLength(head.contentLength) == Success(n)
    requires 0 < n < FloatOverflowBound && !IsHttpError(get.status)
    requires |Concat(get.chunks)| == n
    ensures var e := Expected(url, head, get, timed);
      && e.outcome == Returned(Report(true, timed))
      && e.written == Concat(get.chunks)
      && e.progress != [] && e.progress[|e.progress| - 1] == Fraction(n, n)
  {
    TraceLast(get.chunks, 0, n);
  }

  /** Removing an empty chunk from the stream changes nothing the call does. */
  lemma EmptyChunkSkipped(url: string, head: HeadReply, status: int, a: seq<Chunk>, b: seq<Chunk>, timed: bool)
    ensures Expected(url, head, GetReply(status, a + [[]] + b), timed) == Expected(url, head, GetReply(status, a + b), timed)
  {
    forall size: int {
      EmptyChunkInvisible(a, b, 0, size);
    }
  }
}
