/** The counting pass-through reader: a wrapper around the response body
    that adds to a running total the size of every read that succeeds. */
module Reading {
  import opened GoInts

  /** The error a Read returns beside its byte count: nil, io.EOF, or any
      other error. */
  datatype ReadError = NoError | EOF | OtherError

  /** A byte count returned by Read: a non-negative Go `int`. */
  type ByteCount = n: int | 0 <= n < 0x8000_0000_0000_0000

  /** One result of the wrapped reader's Read: `n` bytes placed in the
      buffer and the error returned together with them. */
  datatype ReadResult = ReadResult(n: ByteCount, err: ReadError)

  /** The running total after one read: the bytes of a read count only
      when that read returned no error. */
  function Count(total: Uint64, r: ReadResult): Uint64
  {
    if r.err == NoError then AddUint64(total, r.n) else total
  }

  /** The running total after the reads that returned `results`, in order,
      starting from `total`. */
  function TotalAfter(total: Uint64, results: seq<ReadResult>): Uint64
  {
    if results == [] then total
    else Count(TotalAfter(total, results[..|results| - 1]), results[|results| - 1])
  }

  /** The exact number of bytes delivered by the reads that returned no
      error, without any wrap-around. */
  function CountedBytes(results: seq<ReadResult>): nat
  {
    if results == [] then 0
    else
      var last := results[|results| - 1];
      CountedBytes(results[..|results| - 1]) + (if last.err == NoError then last.n else 0)
  }

  /** The exact number of bytes delivered by all the reads. */
  function AllBytes(results: seq<ReadResult>): nat
  {
    if results == [] then 0 else AllBytes(results[..|results| - 1]) + results[|results| - 1].n
  }

  /** The total is the starting total plus every byte of every error-free
      read, modulo 2^64. */
  lemma {:induction false} TotalAfterIsSum(total: Uint64, results: seq<ReadResult>)
    ensures TotalAfter(total, results) == (total + CountedBytes(results)) % Two64
  {
    if results != [] {
      var init := results[..|results| - 1];
      TotalAfterIsSum(total, init);
    }
  }

  /** For reads that all return no error, of sizes n1..nk, the total is
      n1 + ... + nk modulo 2^64. */
  lemma {:induction false} ErrorFreeTotal(results: seq<ReadResult>)
    requires forall i :: 0 <= i < |results| ==> results[i].err == NoError
    ensures TotalAfter(0, results) == AllBytes(results) % Two64
  {
    AllCounted(results);
    TotalAfterIsSum(0, results);
  }

  lemma {:induction false} AllCounted(results: seq<ReadResult>)
    requires forall i :: 0 <= i < |results| ==> results[i].err == NoError
    ensures CountedBytes(results) == AllBytes(results)
  {
    if results != [] {
      AllCounted(results[..|results| - 1]);
    }
  }

  lemma {:induction false} CountedBytesPrefix(results: seq<ReadResult>, i: nat)
    requires i <= |results|
    ensures CountedBytes(results[..i]) <= CountedBytes(results)
    decreases |results|
  {
    if i < |results| {
      var init := results[..|results| - 1];
      assert results[..i] == init[..i];
      CountedBytesPrefix(init, i);
    } else {
      assert results[..i] == results;
    }
  }

  /** As long as the total does not wrap around, it never decreases: the
      total after a prefix of the reads is at most the total after a longer
      prefix. */
  lemma TotalNeverDecreases(total: Uint64, results: seq<ReadResult>, i: nat, j: nat)
    requires i <= j <= |results|
    requires total + CountedBytes(results) < Two64
    ensures TotalAfter(total, results[..i]) <= TotalAfter(total, results[..j])
  {
    CountedBytesPrefix(results, j);
    CountedBytesPrefix(results[..j], i);
    assert results[..j][..i] == results[..i];
    TotalAfterIsSum(total, results[..i]);
    TotalAfterIsSum(total, results[..j]);
  }

  /** The `passThru` wrapper. The wrapped reader itself is not a field of
      the model: what it returns on each call is the argument of Read. */
  class PassThru {
    var total: Uint64
    var denominator: Uint64

    /** The zero value `&passThru{}`. */
    constructor ()
      ensures total == 0 && denominator == 0
    {
      total := 0;
      denominator := 0;
    }

    /** Read forwards one call of the wrapped reader, whose result is
        `underlying`. It returns that result unchanged and adds its byte
        count to `total` only when the error is nil; a read that returns
        bytes together with io.EOF or another error is not counted. */
    method Read(underlying: ReadResult) returns (n: ByteCount, err: ReadError)
      modifies this`total
      ensures n == underlying.n && err == underlying.err
      ensures err == NoError ==> total == AddUint64(old(total), n)
      ensures err != NoError ==> total == old(total)
      ensures total == Count(old(total), underlying)
    {
      n, err := underlying.n, underlying.err;
      if err == NoError {
        total := AddUint64(total, n);
      }
    }
  }
}
