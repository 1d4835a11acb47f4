/**
 * The byte-budget read loop of `axiosGetWithPartialResponse`
 * (static/feeder.js:32-97). The network is replaced by what it delivers: a
 * finite sequence of chunks (each its raw byte count and its decoded text)
 * followed by either the end of the stream or a read error.
 */
module Stream {
  import opened Wrappers

  /** One `reader.read()` value: `value.length` and `decoder.decode(value, { stream: true })`. */
  datatype Chunk = Chunk(byteLength: nat, text: string)

  /** How the stream stops once the chunks run out: `done`, or a rejected read. */
  datatype StreamEnd = Done | ReadError

  /** The resolved object: `data`, `status`, `statusText` and `truncated` (headers, config and request are not modelled). */
  datatype Response = Response(data: string, status: int, statusText: string, truncated: bool)

  /** The decoded text of a run of chunks, in order. */
  function Texts(cs: seq<Chunk>): string
  {
    if cs == [] then "" else Texts(cs[..|cs| - 1]) + cs[|cs| - 1].text
  }

  /** The raw bytes of a run of chunks. */
  function Bytes(cs: seq<Chunk>): nat
  {
    if cs == [] then 0 else Bytes(cs[..|cs| - 1]) + cs[|cs| - 1].byteLength
  }

  /** The running byte count once chunk `k` has been read: chunks 0 to `k` included. */
  function Received(cs: seq<Chunk>, k: nat): nat
    requires k < |cs|
  {
    Bytes(cs[..k + 1])
  }

  /** Chunk `k` is where the running byte count first reaches `limit`. */
  predicate StopsAt(cs: seq<Chunk>, limit: int, k: nat)
  {
    k < |cs| && (k == 0 || Received(cs, k - 1) < limit) && limit <= Received(cs, k)
  }

  /** Line 68: the byte budget, in decimal kilobytes of 1000 bytes each. */
  function Budget(maxKB: int): (r: int)
    ensures r % 1000 == 0 && r / 1000 == maxKB
  {
    maxKB * 1000
  }

  /**
   * The chunk at which the loop stops: the first `k` whose running byte
   * count, chunks 0 to `k` included, reaches `limit`.
   */
  function FirstReach(cs: seq<Chunk>, limit: int): (r: Option<nat>)
    ensures r.Some? ==> r.value < |cs| && Received(cs, r.value) >= limit
    ensures r.Some? ==> forall j :: 0 <= j < r.value ==> Received(cs, j) < limit
    ensures r.None? ==> forall j :: 0 <= j < |cs| ==> Received(cs, j) < limit
  {
    if cs == [] then None
    else
      var init := cs[..|cs| - 1];
      assert forall j :: 0 <= j < |init| ==> Received(init, j) == Received(cs, j) by {
        forall j | 0 <= j < |init| ensures Received(init, j) == Received(cs, j) {
          assert init[..j + 1] == cs[..j + 1];
        }
      }
      assert cs[..|cs|] == cs;
      match FirstReach(init, limit)
      case Some(k) => Some(k)
      case None => if Bytes(cs) >= limit then Some(|cs| - 1) else None
  }

  /**
   * What the promise settles to: truncated, with the text of every chunk up
   * to the one that reached the budget; otherwise, when the stream ends,
   * untruncated with all the text; or rejected when a read fails first.
   * The status is passed through either way.
   */
  function PartialRead(cs: seq<Chunk>, end: StreamEnd, maxKB: int, status: int, statusText: string): (r: Result<Response>)
    ensures r.Ok? ==> r.value.status == status && r.value.statusText == statusText
    ensures r.Ok? && r.value.truncated ==>
      exists k :: 0 <= k < |cs| && Received(cs, k) >= Budget(maxKB) && r.value.data == Texts(cs[..k + 1]) &&
        forall j :: 0 <= j < k ==> Received(cs, j) < Budget(maxKB)
    ensures r.Err? <==> end == ReadError && forall j :: 0 <= j < |cs| ==> Received(cs, j) < Budget(maxKB)
    ensures r.Ok? && !r.value.truncated ==>
      r.value.data == Texts(cs) && forall j :: 0 <= j < |cs| ==> Received(cs, j) < Budget(maxKB)
  {
    match FirstReach(cs, Budget(maxKB))
    case Some(k) => Ok(Response(Texts(cs[..k + 1]), status, statusText, true))
    case None => if end == ReadError then Err else Ok(Response(Texts(cs), status, statusText, false))
  }

  /** A stop found within the first `n` chunks is the stop for all of them. */
  lemma {:induction false} FirstReachExtend(cs: seq<Chunk>, n: nat, limit: int)
    requires n <= |cs| && FirstReach(cs[..n], limit).Some?
    ensures FirstReach(cs, limit) == FirstReach(cs[..n], limit)
    decreases |cs| - n
  {
    if n < |cs| {
      var longer := cs[..n + 1];
      assert longer[..n] == cs[..n];
      assert FirstReach(longer, limit) == FirstReach(cs[..n], limit);
      FirstReachExtend(cs, n + 1, limit);
    } else {
      assert cs[..n] == cs;
    }
  }

  /**
   * Lines 47-83, with `readStream`'s recursion as a loop: append each chunk's
   * text, add its bytes, and resolve as truncated once the count reaches the
   * budget; resolve untruncated when the stream is done.
   */
  method ReadStream(cs: seq<Chunk>, end: StreamEnd, maxKB: int, status: int, statusText: string)
    returns (r: Result<Response>)
    ensures r == PartialRead(cs, end, maxKB, status, statusText)
  {
    var accumulatedData := "";
    var receivedBytes := 0;
    var i := 0;
    while i < |cs|
      invariant 0 <= i <= |cs|
      invariant accumulatedData == Texts(cs[..i])
      invariant receivedBytes == Bytes(cs[..i])
      invariant FirstReach(cs[..i], Budget(maxKB)).None?
    {
      var value := cs[i];
      assert cs[..i + 1][..i] == cs[..i];
      accumulatedData := accumulatedData + value.text;
      receivedBytes := receivedBytes + value.byteLength;
      if receivedBytes >= maxKB * 1000 {
        FirstReachExtend(cs, i + 1, Budget(maxKB));
        return Ok(Response(accumulatedData, status, statusText, true));
      }
      i := i + 1;
    }
    assert cs[..i] == cs;
    if end == ReadError {
      return Err;
    }
    return Ok(Response(accumulatedData, status, statusText, false));
  }

  lemma {:induction false} TextsPrefix(cs: seq<Chunk>, n: nat)
    requires n <= |cs|
    ensures Texts(cs[..n]) <= Texts(cs)
    decreases |cs| - n
  {
    if n < |cs| {
      TextsPrefix(cs, n + 1);
      assert cs[..n + 1][..n] == cs[..n];
    } else {
      assert cs[..n] == cs;
    }
  }

  /** A truncated body is a prefix of the whole stream's text. */
  lemma TruncatedIsPrefix(cs: seq<Chunk>, end: StreamEnd, maxKB: int, status: int, statusText: string)
    requires PartialRead(cs, end, maxKB, status, statusText).Ok?
    ensures PartialRead(cs, end, maxKB, status, statusText).value.data <= Texts(cs)
  {
    var r := PartialRead(cs, end, maxKB, status, statusText);
    if r.value.truncated {
      var k := FirstReach(cs, Budget(maxKB)).value;
      TextsPrefix(cs, k + 1);
    }
  }

  /**
   * An untruncated read never reached the budget, unless there was nothing
   * to read at all (with a budget of zero or less an empty stream still ends
   * untruncated).
   */
  lemma UntruncatedUnderBudget(cs: seq<Chunk>, end: StreamEnd, maxKB: int, status: int, statusText: string)
    requires PartialRead(cs, end, maxKB, status, statusText).Ok?
    requires !PartialRead(cs, end, maxKB, status, statusText).value.truncated
    ensures cs == [] || Bytes(cs) < Budget(maxKB)
  {
    if cs != [] {
      assert Received(cs, |cs| - 1) < Budget(maxKB);
      assert cs[..|cs|] == cs;
    }
  }

  /** A truncated read stopped at the first chunk that reached the budget: the bytes before it fell short. */
  lemma TruncatedAtBudget(cs: seq<Chunk>, end: StreamEnd, maxKB: int, status: int, statusText: string)
    requires PartialRead(cs, end, maxKB, status, statusText).Ok?
    requires PartialRead(cs, end, maxKB, status, statusText).value.truncated
    ensures exists k :: StopsAt(cs, Budget(maxKB), k)
  {
    var stop := FirstReach(cs, Budget(maxKB));
    assert stop.Some?;
    var k := stop.value;
    assert k == 0 || Received(cs, k - 1) < Budget(maxKB);
    assert Budget(maxKB) <= Received(cs, k);
    assert StopsAt(cs, Budget(maxKB), k);
  }
}
