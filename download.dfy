/** The per-download progress state: the status lifecycle, the declared
    length and the bar's denominator, the tick that sets the bar, and the
    done handler that reconciles the total. */
module Download {
  import opened GoInts
  import opened Reading

  /** The bar's total: the bar counts from 0 to 100. */
  const BarLength: int := 100

  datatype Option<T> = None | Some(value: T)

  /** The `downloadStatus` values. `Ready` is declared but never assigned. */
  datatype Status = Preparing | Ready | Downloading | Done

  /** An opaque wall-clock instant. */
  type Time = nat

  /** What `start` gets back from building and sending the GET request.
      `header` is None when the Content-Length header is empty, and otherwise
      the value `strconv.ParseInt` produced from it (its error is ignored, so
      a malformed header arrives here as its zero result). */
  datatype Response =
    | RequestError
    | GetError
    | Reply(statusCode: int, header: Option<Int64>)

  /** `start` goes on past the request only for a reply with status 200. */
  predicate Accepted(resp: Response)
  {
    resp.Reply? && resp.statusCode == 200
  }

  /** The content length the header leaves behind: `uint64(size)` when the
      header is present, the zero value when it is absent. */
  function ContentLengthOf(header: Option<Int64>): Uint64
  {
    match header
    case None => 0
    case Some(size) => ToUint64(size)
  }

  /** `contentLength / barLength`: how many bytes one step of the bar stands
      for. It is 0 exactly when the length is below 100. */
  function Denominator(contentLength: Uint64): (d: Uint64)
    ensures d * BarLength <= contentLength < (d + 1) * BarLength
    ensures d == 0 <==> contentLength < BarLength
  {
    contentLength / BarLength
  }

  /** The value one tick passes to the bar, `int(total / denominator)`, or
      None when the division by zero panics. */
  function TickValue(total: Uint64, denominator: Uint64): Option<Int64>
  {
    if denominator == 0 then None else Some(ToInt(total / denominator))
  }

  /** A tick panics exactly when the Content-Length header was absent or gave
      a length from 0 to 99; a negative header value wraps to a huge length
      and does not panic. */
  lemma TickPanicsIff(header: Option<Int64>, total: Uint64)
    ensures TickValue(total, Denominator(ContentLengthOf(header))) == None
        <==> header.None? || 0 <= header.value < BarLength
  {
  }

  lemma DivisionBounds(x: nat, d: nat, q: nat)
    requires d > 0
    ensures x / d <= q <==> x < (q + 1) * d
  {
    var k, r := x / d, x % d;
    assert x == k * d + r && 0 <= r < d;
    if k <= q {
      assert k * d <= q * d;
    } else {
      assert (q + 1) * d <= k * d;
    }
  }

  /** While the total has not passed the declared length, a tick sets the bar
      to `total / denominator` without any sign wrap-around; that value stays
      below 200, and it exceeds 100 exactly when the total has reached 101
      denominators. */
  lemma TickBarBound(contentLength: Uint64, total: Uint64)
    requires Denominator(contentLength) > 0 && total <= contentLength
    ensures TickValue(total, Denominator(contentLength)).Some?
    ensures var v := TickValue(total, Denominator(contentLength)).value;
      v == total / Denominator(contentLength) && 0 <= v < 2 * BarLength
      && (v <= BarLength <==> total < (BarLength + 1) * Denominator(contentLength))
  {
    var d := Denominator(contentLength);
    assert contentLength < 2 * BarLength * d;
    DivisionBounds(total, d, 2 * BarLength - 1);
    DivisionBounds(total, d, BarLength);
  }

  /** The tick value can exceed 100 before the copy ends only for a length
      whose remainder by 100 is at least its quotient by 100, hence only for
      a length below 10000 bytes (for a length of 199 the bar would be set to
      199); for such a length the full total does exceed 100. */
  lemma TickOvershoot(contentLength: Uint64, total: Uint64)
    requires Denominator(contentLength) > 0 && total <= contentLength
    ensures TickValue(total, Denominator(contentLength)).value > BarLength ==>
      contentLength % BarLength >= Denominator(contentLength) && contentLength < BarLength * BarLength
    ensures TickValue(contentLength, Denominator(contentLength)).value > BarLength
      <==> contentLength % BarLength >= Denominator(contentLength)
  {
    var d := Denominator(contentLength);
    TickBarBound(contentLength, total);
    TickBarBound(contentLength, contentLength);
    assert contentLength == d * BarLength + contentLength % BarLength;
  }

  /** The outcome of `output`: `os.Create` failed, `io.Copy` failed, the copy
      finished and the done signal was sent, or the copy has not finished
      after the reads given to the model. */
  datatype OutputResult = CreateError | CopyError | Copied | StillCopying

  /** The index of the first read that returns an error; `io.Copy` stops
      right after it. It is `|results|` when every read is error-free. */
  function FirstError(results: seq<ReadResult>): (k: nat)
    ensures k <= |results|
    ensures forall i :: 0 <= i < k ==> results[i].err == NoError
    ensures k < |results| ==> results[k].err != NoError
  {
    if results == [] || results[0].err != NoError then 0
    else 1 + FirstError(results[1..])
  }

  /** How many reads `io.Copy` performs: up to and including the first one
      that returns an error. */
  function Consumed(results: seq<ReadResult>): nat
  {
    var k := FirstError(results);
    if k < |results| then k + 1 else k
  }

  /** What `output` returns when the file is created or not, and the wrapped
      reader returns `results`: io.EOF ends the copy successfully, any other
      error ends it with that error. */
  function OutputOf(created: bool, results: seq<ReadResult>): OutputResult
  {
    if !created then CreateError
    else
      var k := FirstError(results);
      if k == |results| then StillCopying
      else if results[k].err == EOF then Copied
      else CopyError
  }

  /** The counter after `output` has copied what it copies, from zero. */
  function CopiedTotal(created: bool, results: seq<ReadResult>): Uint64
  {
    if created then TotalAfter(0, results[..Consumed(results)]) else 0
  }

  /** What `output` leaves in the counter is the sum of the reads before the
      first error, modulo 2^64: the bytes of the read that ends the copy are
      written to the file but never counted, even when that read is io.EOF. */
  lemma FinalReadNotCounted(results: seq<ReadResult>)
    ensures CopiedTotal(true, results) == AllBytes(results[..FirstError(results)]) % Two64
  {
    var k := FirstError(results);
    var done := results[..Consumed(results)];
    if k < |results| {
      assert done[..|done| - 1] == results[..k];
    } else {
      assert done == results[..k];
    }
    ErrorFreeTotal(results[..k]);
  }

  /** The `downloader` record. `pt`, `url` and `filename` are never
      reassigned. `bar` is the value last passed to the bar's Set.
      `donePending` stands for the `done` channel holding a value that the
      done handler has not yet received. */
  class Downloader {
    const pt: PassThru
    const url: string
    const filename: string
    var contentLength: Uint64
    var bar: Int64
    var timeStarted: Time
    var timeEnded: Time
    var status: Status
    var donePending: bool

    /** What holds of the record between any two of its operations. */
    ghost predicate Valid()
      reads this, pt
    {
      && status != Ready
      && pt.denominator == Denominator(contentLength)
      && (status == Preparing ==> pt.total == 0 && bar == 0 && !donePending)
      && (donePending ==> status == Downloading)
      && (status == Done ==> pt.total == contentLength && bar == BarLength)
    }

    /** `newDownloader`: a fresh counter, an empty bar, status preparing. */
    constructor (url: string, filename: string)
      ensures Valid() && fresh(pt)
      ensures this.url == url && this.filename == filename
      ensures status == Preparing && contentLength == 0 && bar == 0 && !donePending
      ensures pt.total == 0 && pt.denominator == 0
    {
      pt := new PassThru();
      this.url := url;
      this.filename := filename;
      contentLength := 0;
      bar := 0;
      timeStarted := 0;
      timeEnded := 0;
      status := Preparing;
      donePending := false;
    }

    /** The Content-Length branch of `start`: a present header sets the
        length and the denominator; an absent one leaves both alone. */
    method SetContentLength(header: Option<Int64>)
      requires Valid() && status == Preparing
      modifies this`contentLength, pt`denominator
      ensures Valid()
      ensures header.Some? ==> contentLength == ToUint64(header.value)
      ensures header.None? ==> contentLength == old(contentLength)
      ensures pt.denominator == contentLength / BarLength
    {
      match header {
        case Some(size) =>
          contentLength := ToUint64(size);
          pt.denominator := contentLength / BarLength;
        case None =>
      }
    }

    /** The switch to downloading: the start time is recorded. */
    method BeginDownload(now: Time)
      requires Valid() && status == Preparing
      modifies this`timeStarted, this`status
      ensures Valid()
      ensures status == Downloading && timeStarted == now
    {
      timeStarted := now;
      status := Downloading;
    }

    /** `start` up to launching the copy: every failed request, and every
        reply other than 200, returns with nothing changed; a 200 reply takes
        its Content-Length and moves to downloading. */
    method Connect(resp: Response, now: Time) returns (ok: bool)
      requires Valid() && status == Preparing
      modifies this`contentLength, pt`denominator, this`timeStarted, this`status
      ensures Valid()
      ensures ok == Accepted(resp)
      ensures !ok ==> unchanged(this) && unchanged(pt)
      ensures ok ==> status == Downloading && timeStarted == now
      ensures ok && resp.header.Some? ==> contentLength == ContentLengthOf(resp.header)
      ensures ok && resp.header.None? ==> contentLength == old(contentLength)
    {
      if !Accepted(resp) {
        return false;
      }
      SetContentLength(resp.header);
      BeginDownload(now);
      ok := true;
    }

    /** One tick of the loop in `start`: the bar is set to `total /
        denominator`, or, when the denominator is 0, the division panics
        and nothing changes. */
    method Tick() returns (panicked: bool)
      requires Valid() && status == Downloading
      modifies this`bar
      ensures Valid()
      ensures panicked <==> pt.denominator == 0
      ensures panicked ==> bar == old(bar)
      ensures TickValue(pt.total, pt.denominator) == if panicked then None else Some(bar)
    {
      if pt.denominator == 0 {
        return true;
      }
      bar := ToInt(pt.total / pt.denominator);
      panicked := false;
    }

    /** The done handler in `start`: it runs only once a value has been sent
        on `done`; it fills the bar, overwrites the counter with the declared
        length (0 when there was no header), and marks the download done. */
    method OnDone(now: Time)
      requires Valid() && status == Downloading && donePending
      modifies this`bar, pt`total, this`status, this`timeEnded, this`donePending
      ensures Valid()
      ensures bar == BarLength && pt.total == contentLength
      ensures status == Done && timeEnded == now && !donePending
    {
      bar := BarLength;
      pt.total := contentLength;
      status := Done;
      timeEnded := now;
      donePending := false;
    }

    /** `output`: unless the file cannot be created, it copies through the
        counting reader, calling Read until a read returns an error. Only
        when that error is io.EOF does it send the done signal. It has a value
        receiver, so of the record it changes only what the pointer and the
        channel reach: the counter and the done signal. */
    method Output(created: bool, results: seq<ReadResult>) returns (result: OutputResult)
      requires Valid() && status == Downloading && !donePending
      modifies this`donePending, pt`total
      ensures Valid()
      ensures result == OutputOf(created, results)
      ensures donePending <==> result == Copied
      ensures !created ==> pt.total == old(pt.total)
      ensures created ==> pt.total == TotalAfter(old(pt.total), results[..Consumed(results)])
    {
      if !created {
        return CreateError;
      }
      var i := 0;
      while i < |results|
        invariant i <= FirstError(results)
        invariant pt.total == TotalAfter(old(pt.total), results[..i])
        invariant Valid() && !donePending
      {
        var n, err := pt.Read(results[i]);
        assert results[..i + 1][..i] == results[..i];
        if err == EOF {
          donePending := true;
          return Copied;
        } else if err == OtherError {
          return CopyError;
        }
        i := i + 1;
      }
      assert results[..i] == results;
      result := StillCopying;
    }
  }

  /** One job of `main`: `newDownloader(url, filename).start()`, with the copy
      goroutine's reads followed by `ticks` ticks of the loop in `start`, and
      then the done handler if the done signal was sent. The outcome is the
      record's final status, counter and bar, and whether a tick panicked. */
  method RunJob(url: string, filename: string, resp: Response, started: Time,
                created: bool, results: seq<ReadResult>, ticks: nat, ended: Time)
    returns (panicked: bool, status: Status, total: Uint64, bar: Int64)
    ensures status != Ready
    ensures !Accepted(resp) ==> !panicked && status == Preparing && total == 0 && bar == 0
    ensures Accepted(resp) ==>
      (panicked <==> ticks > 0 && Denominator(ContentLengthOf(resp.header)) == 0)
    ensures status == Done <==> Accepted(resp) && !panicked && OutputOf(created, results) == Copied
    ensures panicked ==> status == Downloading
    ensures status == Done ==> total == ContentLengthOf(resp.header) && bar == BarLength
    ensures Accepted(resp) && !panicked && status != Done ==>
      status == Downloading && total == CopiedTotal(created, results)
    ensures Accepted(resp) && !panicked && status != Done && ticks > 0 ==>
      TickValue(total, Denominator(ContentLengthOf(resp.header))) == Some(bar)
  {
    var d := new Downloader(url, filename);
    var ok := d.Connect(resp, started);
    if !ok {
      return false, d.status, d.pt.total, d.bar;
    }
    assert d.contentLength == ContentLengthOf(resp.header);
    var result := d.Output(created, results);
    ghost var copied := d.pt.total;
    assert copied == CopiedTotal(created, results);
    var i := 0;
    panicked := false;
    while i < ticks && !panicked
      invariant i <= ticks
      invariant d.Valid() && d.status == Downloading
      invariant d.contentLength == ContentLengthOf(resp.header)
      invariant d.pt.total == copied
      invariant d.donePending <==> result == Copied
      invariant panicked <==> i > 0 && d.pt.denominator == 0
      invariant i > 0 && !panicked ==> TickValue(d.pt.total, d.pt.denominator) == Some(d.bar)
    {
      panicked := d.Tick();
      i := i + 1;
    }
    if !panicked && result == Copied {
      d.OnDone(ended);
    }
    return panicked, d.status, d.pt.total, d.bar;
  }

  /** Two runs worked through from the contracts above. */
  method Scenarios()
  {
    var body := [ReadResult(300, NoError), ReadResult(300, NoError), ReadResult(300, NoError),
                 ReadResult(100, EOF)];
    var panicked, status, total, bar := RunJob("u", "f", Reply(200, Some(1000)), 0, true, body, 3, 5);
    assert OutputOf(true, body) == Copied;
    // The last 100 bytes came with io.EOF and were not counted; the done
    // handler still reports the declared 1000.
    assert !panicked && status == Done && total == 1000 && bar == BarLength;

    var short := [ReadResult(4096, NoError), ReadResult(0, EOF)];
    panicked, status, total, bar := RunJob("u", "f", Reply(200, None), 0, true, short, 0, 1);
    assert OutputOf(true, short) == Copied;
    // Without a Content-Length the done handler resets the counter to 0.
    assert status == Done && total == 0;
    panicked, status, total, bar := RunJob("u", "f", Reply(200, None), 0, true, short, 1, 1);
    // A single tick without a Content-Length divides by zero.
    assert panicked && status == Downloading;
  }
}
