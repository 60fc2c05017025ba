# downloader: counting reader and progress state

The program downloads a file over HTTP and shows a progress bar while it
copies the response body to disk. This model covers its sequential core in
`main.go`:

- `passThru`, the reader that wraps the response body and adds the size of
  every successful read to a running `uint64` total (module `Reading`);
- the progress state of a `downloader` (status, content length, the bar's
  denominator, the counter and the bar value) and how `newDownloader`,
  `start` and `output` change it (module `Download`);
- Go's `uint64`/`int64`/`int` conversions and wrap-around addition, written out
  (module `GoInts`).

The wrapped reader is not a field of the model: each call of
`PassThru.Read` receives what that reader returned, a byte count and one of
nil, `io.EOF` or another error. `io.Copy` in `output` becomes a loop of such
reads over a list of results, ending at the first error. The `done` channel
becomes the field `donePending`, and the `select` loop of `start` becomes
separate calls of `Tick` and `OnDone`. A Go panic (the division in a tick
when the denominator is 0) is returned as a flag and is not a precondition.
`RunJob` runs one job of `main` in a fixed order: request, copy, ticks, done
handler.

Notes on the code's behaviour, which the model keeps as written:

- there is no failed status: when the file cannot be created or the copy
  fails, no done signal is sent, the status stays `downloading` and the tick
  loop never ends;
- the done handler overwrites the counter with the declared length, so
  without a Content-Length header the final total is 0, not the bytes read;
- `statusReady` is declared but never assigned (`Valid` excludes it);
- a read that returns bytes together with `io.EOF` is written to the file but
  never counted;
- without a Content-Length header, or with one below 100, the first tick
  divides by zero; a negative header wraps to a huge length and does not;
- the tick value `total / (contentLength / 100)` stays below 200, and it can
  exceed 100 before the copy ends only when the length's remainder by 100 is
  at least its quotient by 100, which needs a length below 10000 bytes (a
  length of 199 gives 199; a length of 1001 never exceeds 100).

## Model

| member | source | states |
|---|---|---|
| GoInts.ToUint64 | main.go:117 | `uint64(size)` keeps a non-negative value and adds 2^64 to a negative one |
| GoInts.ToInt | main.go:136 | `int(u)` is the signed reading of the same bits: `uint64` of it gives `u` back, and it is non-negative exactly when `u < 2^63` |
| GoInts.AddUint64 | main.go:40 | `total += uint64(n)` is the exact sum below 2^64 and wraps by 2^64 otherwise |
| Reading.PassThru.constructor | main.go:62 | a new `passThru` has total 0 and denominator 0 |
| Reading.PassThru.Read | main.go:37-43 | returns the wrapped reader's `(n, err)` unchanged; adds `n` modulo 2^64 to `total` when `err` is nil and leaves `total` unchanged otherwise, also when bytes come with EOF or another error |
| Reading.TotalAfterIsSum | main.go:33-41 | after any sequence of reads the total is the starting total plus the bytes of the error-free reads, modulo 2^64 |
| Reading.ErrorFreeTotal | main.go:39-40 | for error-free reads of sizes n1..nk starting from 0, the total is n1 + ... + nk modulo 2^64 |
| Reading.TotalNeverDecreases | main.go:39-40 | without wrap-around the total after a prefix of the reads never exceeds the total after a longer prefix |
| Download.Denominator | main.go:118 | `contentLength / barLength` is the quotient by 100: it brackets the length between `d*100` and `(d+1)*100` and is 0 exactly when the length is below 100 |
| Download.TickPanicsIff | main.go:114-136 | a tick divides by zero exactly when the header was absent or gave a length from 0 to 99 |
| Download.TickBarBound | main.go:136 | while the total has not passed the declared length the tick value is `total / denominator` with no sign wrap, stays below 200, and is at most 100 exactly when the total is below 101 denominators |
| Download.TickOvershoot | main.go:136 | a tick value above 100 before the end needs the length's remainder by 100 to be at least its quotient by 100, so a length below 10000; for such a length the full total gives a value above 100 |
| Download.FirstError | main.go:154 | the index where `io.Copy` stops: every read before it is error-free and the read at it, if any, returns an error |
| Download.FinalReadNotCounted | main.go:154 | after the copy the counter holds the sum of the reads before the first error modulo 2^64; the bytes of the read that ends the copy are not counted |
| Download.Downloader.constructor | main.go:57-70 | `newDownloader` starts in status preparing with zero length, zero counter and denominator, empty bar and no pending done signal |
| Download.Downloader.SetContentLength | main.go:114-121 | a present header sets the length to `uint64(size)` and the denominator to length / 100; an absent header changes neither |
| Download.Downloader.BeginDownload | main.go:123-125 | records the start time and moves preparing to downloading |
| Download.Downloader.Connect | main.go:92-125 | a request error, a transport error or a status other than 200 returns with nothing changed; a 200 reply takes the header's length and moves to downloading |
| Download.Downloader.Tick | main.go:135-136 | panics exactly when the denominator is 0 and then changes nothing; otherwise sets the bar to `int(total / denominator)` |
| Download.Downloader.OnDone | main.go:137-142 | runs only after a done signal; sets the bar to 100, the counter to the declared length and the status to done, records the end time, and consumes the signal |
| Download.Downloader.Output | main.go:147-161 | the done signal is sent exactly when the file was created and the copy ended in io.EOF; a create error leaves the counter alone, otherwise the counter advances by the reads performed |
| Download.RunJob | main.go:127-144 | one job: status is never ready; done exactly when the reply was 200, no tick panicked and the copy ended in io.EOF, and then the counter equals the declared length (0 without a header) and the bar is 100; a tick panics exactly when the denominator is 0; a failed request leaves the job preparing; otherwise it stays downloading with the counter the copy produced |

The invariant `Download.Downloader.Valid`, kept by every operation, states
the lifecycle: the status is never ready, the denominator is always the
length divided by 100, nothing is counted while preparing, a done signal is
pending only while downloading, and when done the counter equals the
declared length and the bar is full.

## Left out

- The HTTP client, request construction, the User-Agent header and closing the body: reduced to the `Response` input of `Connect`.
- Parsing of the Content-Length header by `strconv.ParseInt`: the parsed `int64` is an input; a malformed header arrives as the value the parser returns.
- `os.Create` and the writes of `io.Copy`: creation is a boolean input, and a write error to the file is not modelled (only read errors end the copy).
- `io.Copy` reading more after the given read results: a list that runs out before any error gives `StillCopying`.
- The goroutines, the `done` channel's blocking, `select` with `time.After` and the `sync.WaitGroup` in `main`: calls are sequential, and `RunJob` places all ticks after the copy's reads, so ticks interleaved with reads (and the data race on the counter) are not modelled.
- Download.Downloader.Tick: `bar` records the value passed to the bar's Set; the progress library's refusal of values above its total is library code and is not modelled.
- The progress bar's rendering, its prepended and appended text, byte humanising and elapsed-time display.
- The error messages printed with `fmt.Println` (request, transport, HTTP status, missing Content-Length, copy errors): printing is not modelled; each of those paths is modelled by its effect on the state.
- Wall-clock time: `Time` is an opaque number passed in; the model only records it.
- Running several jobs from `main`: each job is independent, so `RunJob` models one.
