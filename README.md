# pyscar download core, modelled in Dafny

pyscar is a command-line tool that downloads one artifact over HTTP into a local file.
Its only logic is the `Downloader` class:

- `get_artifact` sends a HEAD request to learn the expected size from `Content-Length`.
- It then streams the body with a GET request into an open file, chunk by chunk.
- After each non-empty chunk it calls an optional progress callback with `done / file_size`.
- It reports success exactly when the bytes received equal the expected size.
- When asked, the returned dictionary also carries timing keys.
- `md5` reads a file in 4096-byte blocks and feeds them to an MD5 state.

The model has three modules:

- `PyInt` (`pyint.dfy`): the Python 3.6+ conversions the size goes through (underscore grouping in `int()` follows PEP 515, new in 3.6).
  - `int(value)` on the header text: surrounding whitespace, an optional sign, and digits with single underscores between them.
  - `float(size)`, which raises OverflowError from 2^1024 - 2^970 upward.
- `Transfer` (`transfer.dfy`): what the chunk loop accumulates, as functions of the chunk sequence.
  - `Concat`: the bytes written.
  - `NonEmpty`: the chunks that carry data.
  - `Trace`: the callback values, as exact `Fraction(done, size)` pairs.
  - Lemmas about these three.
- `Download` (`download.dfy`): the network, the files, the callback and the `Downloader`.
  - The network is a `Server` object. It answers with a fixed HEAD reply and a fixed GET reply, and records the requests it receives.
  - The output file, the progress callback, the input file and the MD5 state are objects that the methods extend in place.
  - `Expected` gives the whole effect of one `get_artifact` call: the requests sent, the bytes written, the callback values and the outcome.
  - `Downloader.GetArtifact` is proved to have exactly that effect. The lemmas beside it state the download's properties about `Expected`.

The returned dictionary is a `Report`: the value of `'result'`, plus one flag for whether `'time_get'` and `'time_download'` are present.
Each exception the call lets escape is an `Error`:

| error | raised when | where |
|---|---|---|
| `KeyError` | no `Content-Length` header | line 53 |
| `ValueError` | the header is not an integer | line 53 |
| `HttpError` | `raise_for_status` on a 4xx or 5xx GET status | line 62 |
| `OverflowError` | `float(file_size)` fails | line 66 |
| `ZeroDivisionError` | `file_size == 0`; the debug message always divides by the size | line 66 |

## Behaviour worth noting

- `raise_for_status` raises only for GET statuses 400-599. Other statuses, a 3xx for example, go on to the chunk loop.
- A `Content-Length` of 0 raises ZeroDivisionError at line 66. It does not download an empty file.
- A negative `Content-Length` is accepted. The progress values are then negative and 'result' is always False.

## Model

| member | source | states |
|---|---|---|
| `Download.Expected` | src/pyscar/download.py:16-85 | The call sends HEAD alone or HEAD then GET, and nothing else. An exception leaves no bytes written and no callback values. |
| `Download.ContentLength` | src/pyscar/download.py:53 | The header lookup and `int()` fail only with KeyError or ValueError. KeyError happens exactly when the header is missing. A size is produced exactly when the header text parses, and it is the parsed value. |
| `Download.IsHttpError` | src/pyscar/download.py:62 | `raise_for_status` does not raise for informational, success or redirect statuses (100-399). |
| `Download.Keys` | src/pyscar/download.py:50-84 | Defines the keys of the returned dictionary: 'result' always (lines 50, 82-84), plus 'time_get' and 'time_download' when the timing keys were set (lines 61, 80). |
| `Download.Server.Head` | src/pyscar/download.py:46 | `requests.head(url, ...)` returns the server's HEAD reply, and the server's request log gains exactly one HEAD request for the url. |
| `Download.Server.Get` | src/pyscar/download.py:59 | `requests.get(url, stream=True)` returns the server's GET reply, and the server's request log gains exactly one GET request for the url. |
| `Download.OutputFile.Write` | src/pyscar/download.py:73 | `file_handle.write(chunk)`: the file's contents gain the chunk at the end. |
| `Download.ProgressCallback.Call` | src/pyscar/download.py:76 | `cb_progress(value)`: the recorded values gain this value at the end. |
| `PyInt.ParseInt` | src/pyscar/download.py:53 | Accepted text, once stripped, starts with a sign or a digit and ends with a digit. A negative result needs a leading minus sign. |
| `PyInt.FloatConvertible` | src/pyscar/download.py:66 | Every integer up to the largest finite double (2^1024 - 2^971) in magnitude converts without OverflowError. |
| `Download.Downloader.GetArtifact` | src/pyscar/download.py:16-85 | The outcome, the requests sent, the bytes appended to the file and the values passed to the callback are exactly those of `Expected` for the server's replies. |
| `Download.Downloader.StreamBody` | src/pyscar/download.py:65-78 | After the chunk loop, `done` is the number of bytes in all chunks. The file has gained the chunks' concatenation. The callback has received one running total per non-empty chunk. |
| `Download.Downloader.Md5` | src/pyscar/download.py:88-100 | Reads to the end of the file. Returns the digest of exactly the bytes from the starting position to the end, whatever the block boundaries. |
| `Download.InputFile.Read` | src/pyscar/download.py:98 | `read(n)` returns the next n bytes, or all that is left when fewer remain, and advances the position past them. A short read leaves the file at its end. |
| `Download.Md5State.Update` | src/pyscar/download.py:99 | `update(chunk)` appends the chunk to the bytes the hash has absorbed. |
| `Download.Md5State.HexDigest` | src/pyscar/download.py:100 | Defines `hexdigest()` as the digest function applied to every byte absorbed so far, in order. |
| `Download.HeadRejected` | src/pyscar/download.py:49-51 | A HEAD status other than 200 returns 'result' False with only the 'result' key. Only the HEAD request is sent, nothing is written and the callback is not called. |
| `Download.GetSentIffProbePasses` | src/pyscar/download.py:46-59 | HEAD always comes first. The GET is sent if and only if the HEAD status is 200 and Content-Length parses as an integer. |
| `Download.RaisedCases` | src/pyscar/download.py:53-66 | Gives each exception's exact triggering condition, in the order the code checks them. No exception leaves bytes written or callback values behind. |
| `Download.ResultIffSizeMatches` | src/pyscar/download.py:81-84 | 'result' is True if and only if the probe passed, the GET did not fail and Content-Length equals the (positive, float-convertible) number of bytes in the non-empty chunks. |
| `Download.SizeMismatchFails` | src/pyscar/download.py:68-84 | A truncated or over-long stream still returns, with 'result' False, after writing everything it received. |
| `Download.StreamEffects` | src/pyscar/download.py:68-78 | After a passed probe, the file gains the non-empty chunks in order. The callback is called once per non-empty chunk, with denominators equal to Content-Length and numerators that strictly increase, stay within the bytes written and end at the total. |
| `Download.FinalProgressIsOneIffSuccess` | src/pyscar/download.py:75-84 | 'result' is True if and only if the callback was called and its last value is 1. For a positive size the values never decrease. |
| `Download.TimingKeys` | src/pyscar/download.py:60-85 | 'result' is always a key. 'time_get' and 'time_download' are keys if and only if timing was requested and the probe passed. |
| `Download.ExactDownload` | src/pyscar/download.py:53-84 | A passed probe announcing n > 0, then a GET that streams exactly n bytes in any chunking, gives 'result' True. The file holds those bytes and the last callback value is n/n. |
| `Download.ContentLengthOfShow` | src/pyscar/download.py:53 | A Content-Length header holding `str(n)` yields the expected size n, for every integer n. |
| `Download.EmptyChunkSkipped` | src/pyscar/download.py:68-78 | Removing an empty chunk from the stream changes no part of the call's effect. |
| `Transfer.Concat` | src/pyscar/download.py:68-73 | Defines the bytes `file_handle.write(chunk)` appends over the loop: the chunks laid end to end, in arrival order. |
| `Transfer.Trace` | src/pyscar/download.py:68-76 | Defines the values passed to `cb_progress`: one exact fraction per non-empty chunk, whose numerator is the running total `done` after that chunk and whose denominator is the Content-Length. |
| `Transfer.NonEmpty` | src/pyscar/download.py:69 | The kept chunks are all non-empty chunks of the stream, and there are no more of them than chunks. |
| `Transfer.NonEmptyKeepsAll` | src/pyscar/download.py:69 | `if chunk:` keeps every non-empty chunk, as often as it occurs, and drops only the empty ones: the kept chunks are the stream's chunks minus its empty ones, as a multiset and in number. |
| `Transfer.ConcatSplit` | src/pyscar/download.py:68-73 | Writing two runs of chunks one after the other writes the first run's bytes followed by the second's. |
| `Transfer.TraceSplit` | src/pyscar/download.py:68-76 | The callback values of two runs are the first run's values followed by the second run's, with running totals continuing from the first run's total. |
| `Transfer.ChunkStep` | src/pyscar/download.py:68-78 | One more chunk appends its bytes. A non-empty chunk adds one callback value holding the new total. An empty chunk adds none. |
| `Transfer.ConcatNonEmpty` | src/pyscar/download.py:69-73 | The bytes written are those of the non-empty chunks alone. |
| `Transfer.EmptyChunkInvisible` | src/pyscar/download.py:68-78 | An empty chunk anywhere changes neither the bytes written nor the callback values. |
| `Transfer.TraceCount` | src/pyscar/download.py:75-76 | The callback is called exactly once per non-empty chunk. |
| `Transfer.TraceIncreasing` | src/pyscar/download.py:70-76 | Every callback value has the expected size as denominator. Running totals strictly increase, lie above the starting count and never exceed the bytes received. |
| `Transfer.TraceLast` | src/pyscar/download.py:70-76 | The callback is called at all if and only if some byte arrives, and its last value carries the total received. |
| `Transfer.TraceNonDecreasing` | src/pyscar/download.py:76 | For a positive expected size, the progress values never decrease. |
| `Transfer.TraceAtMost` | src/pyscar/download.py:76 | For a positive expected size, a progress value is at most every later value. For size 0 or below the premise never holds, since every value's denominator is the size. |
| `PyInt.IsSpace` | src/pyscar/download.py:53 | Defines the whitespace `int()` strips within Latin-1: tab to carriage return (0x09-0x0D), space, 0x85 and 0xA0. It excludes 0x1C-0x1F, which `str.isspace()` accepts but `int()` rejects. |
| `PyInt.IsGroupedDigits` | src/pyscar/download.py:53 | Defines the digit grammar `int()` accepts since PEP 515: ASCII digits, with an underscore allowed only singly between two digits, and leading zeros allowed. |
| `PyInt.Value` | src/pyscar/download.py:53 | Defines the base-10 value of such a digit run. Underscores carry no value. |
| `PyInt.ParseNumeral` | src/pyscar/download.py:53 | Defines `int()` on text already stripped of whitespace: an optional `+` or `-` and then grouped digits, negated after `-`. Anything else is a ValueError (`None`). |
| `PyInt.TrimStart` | src/pyscar/download.py:53 | `int()` drops exactly the leading whitespace. The result is a suffix of the input and does not start with whitespace. |
| `PyInt.TrimEnd` | src/pyscar/download.py:53 | `int()` drops exactly the trailing whitespace. The result is a prefix of the input and does not end with whitespace. |
| `PyInt.ParseShow` | src/pyscar/download.py:53 | A Content-Length written as `str(n)` parses back to n, for every integer n. |
| `PyInt.ParsePadded` | src/pyscar/download.py:53 | Whitespace around the numeral does not change the parsed value. |
| `PyInt.ParseBlank` | src/pyscar/download.py:53 | An empty or all-whitespace Content-Length is a ValueError. |
| `PyInt.ParseLeadingZeros` | src/pyscar/download.py:53 | For every n >= 0, any number of leading zeros before `str(n)` is accepted, and the value is still n. |
| `PyInt.ParseDigits` | src/pyscar/download.py:53 | A non-empty run of plain decimal digits parses to its decimal value. |

## Left out

- Network I/O: `requests.head` and `requests.get` are replaced by a server with fixed replies.
  - The `Accept-Encoding: deflate` header is not recorded.
  - Redirects and connection errors are not modelled.
  - Errors raised while iterating over the body are not modelled.
  - The header lookup (case-insensitive in the HTTP library) is given directly as the header's value or its absence.
- The chunk sequence is an input. The 32 KiB `chunk_size` asked of the HTTP client does not constrain it, because decoded content may arrive in other sizes.
- `time.time()`: only whether the timing keys are present is modelled, not the durations.
- `file_handle.flush()` and every `self.log` call are not modelled. The debug message at line 66 counts only for the division errors it raises.
- Write errors on the output file (disk full, permissions) are not modelled.
- The MD5 algorithm is not modelled. `Md5` takes the digest function as a parameter and proves which bytes it is applied to.
- The progress callback only records its values. Any other effect an arbitrary callback could have, such as raising or touching the file, is not modelled.
- `Download.FinalProgressIsOneIffSuccess`: progress values are exact pairs rather than doubles. For sizes beyond 2^53, `done / float(file_size)` can round to 1.0 with `done != file_size`, and the lemma does not cover that rounding.
- `Download.Downloader.StreamBody`: the running total is not checked against the double range. A total of 2^1024 - 2^970 bytes or more would make the progress division raise OverflowError, but no real stream can deliver that many bytes.
- `PyInt.ParsePadded`: only Latin-1 characters are covered, the range an HTTP header value can hold. Unicode digits and whitespace beyond Latin-1 are not modelled.
- A falsy but non-`None` `cb_progress` (one whose `__bool__` or `__len__` makes it false) is never called at line 75. The model covers it only when the caller passes a null `callback`, as for an absent one. A non-null `ProgressCallback` is always truthy.
- Python versions before 3.6 are not modelled. There `int()` rejects underscores, so `int("1_0")` is a ValueError rather than 10.
- `PyInt.ParseShow`: the model has no limit on the number of digits `int()` accepts. Newer Python versions raise ValueError beyond 4300 digits.
- `src/pyscar/cli.py`, the argument parsing and log-level setup, is not part of this model.
