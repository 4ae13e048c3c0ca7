/** The chunked download engine: handle setup (`setCurlOpt`), reassembly
    (`saveToFile`) and the two download modes (`serialDownload`,
    `parallelDownload`). The transport and `curl_easy_init` are oracles. */
module MultiGet {
  import opened Common
  import opened RangePlan
  import opened ChunkBuffer
  import opened Transfers

  /** A configured range request: the target URL and the range text. */
  datatype Request = Request(url: string, range: string)

  /** What `setCurlOpt` returns, and the request the handle now carries. */
  datatype Setup = Setup(code: int, request: Option<Request>)

  /** Everything outside the program: whether `curl_easy_init` hands out a
      handle for chunk `i`, and how the transport answers each request. */
  datatype Env = Env(handleOk: int -> bool, transport: Request -> Response)

  /** A written output file: the path `saveToFile` opens and the bytes it
      writes there. */
  datatype File = File(path: string, bytes: seq<byte>)

  /** The result of one download: the C return value, the ranges whose
      requests were actually performed (in issue order), and the output
      file, `None` when the file is never written. */
  datatype Download = Download(code: int, requested: seq<Range>, output: Option<File>)

  /** The request configured for range `r`. */
  function RequestFor(url: string, r: Range): Request
  {
    Request(url, RangeText(r.lo, r.hi))
  }

  /** `setCurlOpt(curlHandle, lowerBound, upperBound, url, chunk)`, with
      `handleOk` standing for a non-NULL handle. */
  function SetCurlOpt(handleOk: bool, lo: int, hi: int, url: string): (r: Setup)
    ensures r.code == (if handleOk then 1 else 0)
    ensures r.request.Some? <==> handleOk
    ensures handleOk ==> r.request.value == RequestFor(url, Range(lo, hi))
  {
    if handleOk then Setup(1, Some(RequestFor(url, Range(lo, hi)))) else Setup(0, None)
  }

  /** The range a configured handle carries reads back as the bounds it was
      configured with, when they are non-negative. */
  lemma SetCurlOptRangeReadsBack(lo: int, hi: int, url: string)
    requires 0 <= lo && 0 <= hi
    ensures ParseRange(SetCurlOpt(true, lo, hi, url).request.value.range) == Some(Range(lo, hi))
  {
    RangeTextRoundTrip(lo, hi);
  }

  predicate AllValid(chunks: seq<MemoryStruct>) {
    forall i :: 0 <= i < |chunks| ==> ChunkBuffer.Valid(chunks[i])
  }

  function Contents(chunks: seq<MemoryStruct>): (cs: seq<seq<byte>>)
    requires AllValid(chunks)
    ensures |cs| == |chunks|
    ensures forall i :: 0 <= i < |chunks| ==> cs[i] == Content(chunks[i])
  {
    seq(|chunks|, i requires 0 <= i < |chunks| => Content(chunks[i]))
  }

  /** The `fwrite` loop of `saveToFile` from chunk `i` on, `file` being what
      has been written so far. */
  function SaveFrom(chunks: seq<MemoryStruct>, i: nat, file: seq<byte>): (r: seq<byte>)
    requires AllValid(chunks) && i <= |chunks|
    ensures r == file + Flatten(Contents(chunks)[i..])
    decreases |chunks| - i
  {
    if i == |chunks| then file
    else
      var cs := Contents(chunks);
      assert cs[i..][1..] == cs[i + 1..];
      SaveFrom(chunks, i + 1, file + Content(chunks[i]))
  }

  /** `saveToFile`: the bytes of the freshly truncated output file. */
  function SaveToFile(chunks: seq<MemoryStruct>): (file: seq<byte>)
    requires AllValid(chunks)
    ensures file == Flatten(Contents(chunks))
  {
    assert Contents(chunks)[0..] == Contents(chunks);
    SaveFrom(chunks, 0, [])
  }

  /** The file holds exactly the chunks' bytes: chunk `i` occupies the
      positions right after the bytes of chunks `0..i-1`, with nothing
      between or after them. */
  lemma SaveToFileLayout(chunks: seq<MemoryStruct>)
    requires AllValid(chunks)
    ensures var file := SaveToFile(chunks);
      && |file| == TotalLength(Contents(chunks))
      && forall i :: 0 <= i < |chunks| ==>
           var off := TotalLength(Contents(chunks)[..i]);
           off + chunks[i].size <= |file| && file[off..off + chunks[i].size] == Content(chunks[i])
  {
    var file := SaveToFile(chunks);
    FlattenLength(Contents(chunks));
    forall i | 0 <= i < |chunks|
      ensures var off := TotalLength(Contents(chunks)[..i]);
        off + chunks[i].size <= |file| && file[off..off + chunks[i].size] == Content(chunks[i])
    {
      FlattenSegment(Contents(chunks), i);
    }
  }

  /** Chunk `j`'s transfer, run to its end on its own. */
  function ChunkTransfer(env: Env, url: string, plan: seq<Range>, j: int): (t: Transfer)
    requires 0 <= j < |plan|
    ensures Transfers.Valid(t) && t.status.Finished?
  {
    Perform(Start(env.transport(RequestFor(url, plan[j]))))
  }

  /** The buffers of all chunks once every transfer has ended. */
  function Buffers(env: Env, url: string, plan: seq<Range>): (bs: seq<MemoryStruct>)
    ensures |bs| == |plan| && AllValid(bs)
    ensures forall j :: 0 <= j < |plan| ==> bs[j] == ChunkTransfer(env, url, plan, j).mem
  {
    seq(|plan|, j requires 0 <= j < |plan| => ChunkTransfer(env, url, plan, j).mem)
  }

  datatype ChunkOutcome = SetupFailed | TransferFailed | Fetched(mem: MemoryStruct)

  /** One iteration of the serial loop for chunk `j`: configure a handle and,
      when that works, perform its request to the end. */
  function FetchChunk(env: Env, url: string, plan: seq<Range>, j: int): (c: ChunkOutcome)
    requires 0 <= j < |plan|
    ensures c.SetupFailed? <==> !env.handleOk(j)
    ensures c.Fetched? <==> env.handleOk(j) && ChunkTransfer(env, url, plan, j).status.ok
    ensures c.Fetched? ==> c.mem == ChunkTransfer(env, url, plan, j).mem
  {
    var setup := SetCurlOpt(env.handleOk(j), plan[j].lo, plan[j].hi, url);
    if setup.code != 1 then SetupFailed
    else
      var t := Perform(Start(env.transport(setup.request.value)));
      if t.status.ok then Fetched(t.mem) else TransferFailed
  }

  /** The outcome of every chunk's iteration, in index order. Each depends
      only on the environment and the chunk's range, so the loop below may
      read chunk `i`'s outcome when it reaches iteration `i`. */
  function Outcomes(env: Env, url: string, plan: seq<Range>): (os: seq<ChunkOutcome>)
    ensures |os| == |plan|
    ensures forall j :: 0 <= j < |plan| ==> os[j] == FetchChunk(env, url, plan, j)
  {
    seq(|plan|, j requires 0 <= j < |plan| => FetchChunk(env, url, plan, j))
  }

  /** The first chunk from `i` on that fails, or `|os|` when none does. */
  function FirstFailure(os: seq<ChunkOutcome>, i: nat): (k: nat)
    requires i <= |os|
    ensures i <= k <= |os|
    ensures forall j :: i <= j < k ==> os[j].Fetched?
    ensures k < |os| ==> !os[k].Fetched?
    decreases |os| - i
  {
    if i == |os| || !os[i].Fetched? then i else FirstFailure(os, i + 1)
  }

  /** How many chunks from `i` on have their request performed: all of
      them, or up to the failing chunk, that chunk included when its
      request was performed. */
  function Issued(os: seq<ChunkOutcome>, i: nat): (m: nat)
    requires i <= |os|
    ensures i <= m <= |os|
  {
    var k := FirstFailure(os, i);
    if k < |os| && os[k].TransferFailed? then k + 1 else k
  }

  /** How the serial loop ends: at a failing chunk, or with the buffers of
      all chunks it fetched. Either way with the ranges it requested. */
  datatype Loop = Stopped(requested: seq<Range>) | Completed(requested: seq<Range>, buffers: seq<MemoryStruct>)

  /** What the serial loop from chunk `i` ends with: it completes exactly
      when no chunk from `i` on fails, and then holds those chunks' buffers
      in order; its requests are the ranges from `i` up to the first failing
      chunk, that chunk included when its transfer was attempted. */
  predicate LoopOutcome(plan: seq<Range>, os: seq<ChunkOutcome>, i: nat, r: Loop)
    requires |os| == |plan| && i <= |plan|
  {
    && (r.Completed? <==> FirstFailure(os, i) == |os|)
    && (r.Completed? ==> |r.buffers| == |os| - i && forall j :: i <= j < |os| ==> os[j].Fetched? && r.buffers[j - i] == os[j].mem)
    && r.requested == plan[i..Issued(os, i)]
  }

  /** The `for` loop of `serialDownload` from chunk `i`: configure a handle,
      perform its request, and return at the first failure. */
  function SerialLoop(plan: seq<Range>, os: seq<ChunkOutcome>, i: nat): (r: Loop)
    requires |os| == |plan| && i <= |plan|
    ensures LoopOutcome(plan, os, i, r)
    decreases |plan| - i
  {
    if i == |plan| then
      assert plan[i..i] == [];
      Completed([], [])
    else
      match os[i]
      case SetupFailed =>
        assert plan[i..i] == [];
        Stopped([])
      case TransferFailed =>
        assert plan[i..i + 1] == [plan[i]];
        Stopped([plan[i]])
      case Fetched(mem) =>
        var r := SerialLoop(plan, os, i + 1);
        LoopStep(plan, os, i, r);
        match r
        case Stopped(q) => Stopped([plan[i]] + q)
        case Completed(q, b) => Completed([plan[i]] + q, [mem] + b)
  }

  /** The loop after fetching chunk `i`: its outcome from `i + 1` on becomes
      its outcome from `i` with chunk `i`'s request and buffer in front. */
  lemma LoopStep(plan: seq<Range>, os: seq<ChunkOutcome>, i: nat, r: Loop)
    requires |os| == |plan| && i < |plan| && os[i].Fetched?
    requires LoopOutcome(plan, os, i + 1, r)
    ensures var front := [plan[i]] + r.requested;
      LoopOutcome(plan, os, i, match r
        case Stopped(_) => Stopped(front)
        case Completed(_, b) => Completed(front, [os[i].mem] + b))
  {
    assert FirstFailure(os, i) == FirstFailure(os, i + 1);
    SliceCons(plan, i, Issued(os, i));
  }

  /** The serial mode over a whole plan (`serialDownload` after its
      allocations): the loop, then `saveToFile` when the loop completes. It
      returns 0 and writes every chunk in order exactly when every chunk
      succeeds; otherwise it returns 1, never writes the file and performs
      no request after the failing chunk's. */
  function SerialRun(env: Env, dest: string, url: string, plan: seq<Range>): (d: Download)
    ensures d.code == 0 <==> forall j :: 0 <= j < |plan| ==> FetchChunk(env, url, plan, j).Fetched?
    ensures d.code == 0 ==> d.output == Some(File(dest, SaveToFile(Buffers(env, url, plan))))
    ensures d.code != 0 ==> d.code == 1 && d.output == None
    ensures d.requested == plan[..Issued(Outcomes(env, url, plan), 0)]
  {
    var os := Outcomes(env, url, plan);
    var r := SerialLoop(plan, os, 0);
    LoopEnds(env, url, plan, r);
    match r
    case Stopped(q) => Download(1, q, None)
    case Completed(q, b) => Download(0, q, Some(File(dest, SaveToFile(b))))
  }

  /** The whole loop stops exactly when some chunk is not fetched, and when
      it completes its buffers are those of the chunks' transfers. */
  lemma LoopEnds(env: Env, url: string, plan: seq<Range>, r: Loop)
    requires LoopOutcome(plan, Outcomes(env, url, plan), 0, r)
    ensures r.Completed? <==> forall j :: 0 <= j < |plan| ==> FetchChunk(env, url, plan, j).Fetched?
    ensures r.Completed? ==> r.buffers == Buffers(env, url, plan)
  {
    var os := Outcomes(env, url, plan);
    if r.Completed? {
      assert forall j :: 0 <= j < |plan| ==> r.buffers[j] == FetchChunk(env, url, plan, j).mem;
      assert r.buffers == Buffers(env, url, plan);
    } else {
      var k := FirstFailure(os, 0);
      assert !FetchChunk(env, url, plan, k).Fetched?;
    }
  }

  /** The `for` loop of `serialDownload` as the C code runs it: iteration
      `i` sets up and performs chunk `i`'s request only when it reaches it. */
  function FetchLoop(env: Env, url: string, plan: seq<Range>, i: nat): (r: Loop)
    requires i <= |plan|
    decreases |plan| - i
  {
    if i == |plan| then Completed([], [])
    else
      match FetchChunk(env, url, plan, i)
      case SetupFailed => Stopped([])
      case TransferFailed => Stopped([plan[i]])
      case Fetched(mem) =>
        match FetchLoop(env, url, plan, i + 1)
        case Stopped(q) => Stopped([plan[i]] + q)
        case Completed(q, b) => Completed([plan[i]] + q, [mem] + b)
  }

  /** Reading the outcomes from `Outcomes` is the same as fetching each chunk
      when the loop reaches it: the loop over the precomputed outcomes ends
      exactly as the C loop does, from every iteration on. */
  lemma {:induction false} PrecomputedOutcomes(env: Env, url: string, plan: seq<Range>, i: nat)
    requires i <= |plan|
    ensures FetchLoop(env, url, plan, i) == SerialLoop(plan, Outcomes(env, url, plan), i)
    decreases |plan| - i
  {
    if i < |plan| {
      PrecomputedOutcomes(env, url, plan, i + 1);
    }
  }

  /** The transfers added to the multi handle for `ranges`, in order, none
      of them started yet. */
  function StartAll(env: Env, url: string, ranges: seq<Range>): (ts: seq<Transfer>)
    ensures |ts| == |ranges|
    ensures forall j :: 0 <= j < |ranges| ==> ts[j] == Start(env.transport(RequestFor(url, ranges[j])))
  {
    seq(|ranges|, j requires 0 <= j < |ranges| => Start(env.transport(RequestFor(url, ranges[j]))))
  }

  lemma StartAllSnoc(env: Env, url: string, ranges: seq<Range>, r: Range)
    ensures StartAll(env, url, ranges + [r]) == StartAll(env, url, ranges) + [Start(env.transport(RequestFor(url, r)))]
  {
    var a := StartAll(env, url, ranges + [r]);
    var b := StartAll(env, url, ranges) + [Start(env.transport(RequestFor(url, r)))];
    assert forall j :: 0 <= j < |a| ==> a[j] == b[j] by {
      assert forall j :: 0 <= j < |ranges| ==> (ranges + [r])[j] == ranges[j];
    }
  }

  /** One iteration of the planning loop extends the ranges planned so far
      by the next range of the plan, whose upper bound plus one is the next
      lower bound. */
  lemma PlanNext(n: int, s: int, i: int, lowerBound: int, ranges: seq<Range>)
    requires PlanFits(n, s) && 0 <= i < n
    requires lowerBound == Plan(n, s)[i].lo && ranges == Plan(n, s)[..i]
    ensures var r := Range(lowerBound, s * (i + 1) - 1);
      && Plan(n, s)[..i + 1] == ranges + [r]
      && (i + 1 < |Plan(n, s)| ==> Plan(n, s)[i + 1].lo == r.hi + 1)
  {
    var plan := Plan(n, s);
    assert plan[i] == Range(lowerBound, s * (i + 1) - 1);
    assert plan[..i + 1] == plan[..i] + [plan[i]];
  }

  /** The handle loop of `parallelDownload`: chunk `i` gets the range
      `lowerBound..sizeOfChunk * (i + 1) - 1`, its handle is configured, and
      its transfer is added to the multi handle, not yet started. It stops
      at the first handle that cannot be configured. */
  method SetupTransfers(env: Env, url: string, n: int, s: int) returns (ok: bool, ranges: seq<Range>, transfers: seq<Transfer>)
    requires PlanFits(n, s)
    ensures ok <==> forall j :: 0 <= j < |Plan(n, s)| ==> env.handleOk(j)
    ensures ok ==> ranges == Plan(n, s) && transfers == StartAll(env, url, ranges)
  {
    ghost var plan := Plan(n, s);
    ranges := [];
    transfers := [];
    var lowerBound := 0;
    var i := 0;
    while i < n
      invariant 0 <= i <= |plan|
      invariant i < |plan| ==> lowerBound == plan[i].lo
      invariant ranges == plan[..i]
      invariant transfers == StartAll(env, url, ranges)
      invariant forall j :: 0 <= j < i ==> env.handleOk(j)
    {
      var upperBound := s * (i + 1) - 1;
      var setup := SetCurlOpt(env.handleOk(i), lowerBound, upperBound, url);
      if setup.code != 1 {
        return false, ranges, transfers;
      }
      var r := Range(lowerBound, upperBound);
      PlanNext(n, s, i, lowerBound, ranges);
      StartAllSnoc(env, url, ranges, r);
      ranges := ranges + [r];
      transfers := transfers + [Start(env.transport(setup.request.value))];
      lowerBound := upperBound + 1;
      i := i + 1;
    }
    assert ranges == plan;
    return true, ranges, transfers;
  }

  /** The `curl_multi_perform` polling loop, with `schedule` naming, entry by
      entry, the chunk whose transfer the transport advances next (entries
      naming no chunk do nothing). Each fragment goes to its own chunk's
      transfer only, so no chunk's eventual outcome changes. */
  method Poll(transfers: seq<Transfer>, schedule: seq<int>) returns (polled: seq<Transfer>)
    requires forall j :: 0 <= j < |transfers| ==> Transfers.Valid(transfers[j])
    ensures |polled| == |transfers|
    ensures forall j :: 0 <= j < |polled| ==> Transfers.Valid(polled[j])
    ensures forall j :: 0 <= j < |polled| ==> Perform(polled[j]) == Perform(transfers[j])
  {
    polled := transfers;
    var k := 0;
    while k < |schedule|
      invariant |polled| == |transfers|
      invariant forall j :: 0 <= j < |polled| ==> Transfers.Valid(polled[j])
      invariant forall j :: 0 <= j < |polled| ==> Perform(polled[j]) == Perform(transfers[j])
    {
      var c := schedule[k];
      if 0 <= c < |polled| {
        PerformStep(polled[c]);
        polled := polled[c := Step(polled[c])];
      }
      k := k + 1;
    }
  }

  /** Polling continues until no transfer is still running: every transfer
      reaches its terminal state, the same one it would reach on its own. */
  method Drain(transfers: seq<Transfer>) returns (done: seq<Transfer>)
    requires forall j :: 0 <= j < |transfers| ==> Transfers.Valid(transfers[j])
    ensures |done| == |transfers|
    ensures forall j :: 0 <= j < |done| ==> done[j] == Perform(transfers[j]) && done[j].status.Finished?
  {
    done := transfers;
    var j := 0;
    while j < |done|
      invariant j <= |done| == |transfers|
      invariant forall m :: 0 <= m < j ==> done[m] == Perform(transfers[m])
      invariant forall m :: j <= m < |done| ==> done[m] == transfers[m]
    {
      done := done[j := Perform(done[j])];
      j := j + 1;
    }
  }

  /** What the parallel mode promises: with any handle missing it returns 1
      before any request runs and writes nothing; otherwise it performs every
      request, waits for all of them, and writes every chunk's buffer in
      index order whatever the individual transfers' outcomes, returning 0. */
  predicate IsParallelResult(env: Env, dest: string, url: string, n: int, s: int, d: Download)
    requires PlanFits(n, s)
  {
    var plan := Plan(n, s);
    && (d.code == 1 <==> exists i :: 0 <= i < |plan| && !env.handleOk(i))
    && (d.code == 1 ==> d.requested == [] && d.output == None)
    && (d.code != 1 ==> d.code == 0 && d.requested == plan
                        && d.output == Some(File(dest, SaveToFile(Buffers(env, url, plan)))))
  }

  /** `parallelDownload(destFile, url, numOfChunks, sizeOfChunk)`: set up
      every handle, poll until all transfers have ended, then write every
      chunk. The result does not depend on the polling schedule. */
  method ParallelDownload(env: Env, dest: string, url: string, n: int, s: int, schedule: seq<int>) returns (d: Download)
    requires PlanFits(n, s)
    ensures IsParallelResult(env, dest, url, n, s, d)
  {
    var ok, ranges, transfers := SetupTransfers(env, url, n, s);
    if !ok {
      return Download(1, [], None);
    }
    var polled := Poll(transfers, schedule);
    var done := Drain(polled);
    var buffers := seq(|done|, m requires 0 <= m < |done| => done[m].mem);
    assert buffers == Buffers(env, url, ranges);
    d := Download(0, ranges, Some(File(dest, SaveToFile(buffers))));
  }

  /** When every handle is created and every transfer succeeds, both modes
      perform the same requests and write byte-identical files to the same path. */
  lemma SerialMatchesParallel(env: Env, dest: string, url: string, n: int, s: int, d: Download)
    requires PlanFits(n, s) && IsParallelResult(env, dest, url, n, s, d)
    requires forall j :: 0 <= j < |Plan(n, s)| ==> FetchChunk(env, url, Plan(n, s), j).Fetched?
    ensures SerialRun(env, dest, url, Plan(n, s)) == d
  {
    var plan := Plan(n, s);
    var os := Outcomes(env, url, plan);
    assert FirstFailure(os, 0) == |plan|;
    assert Issued(os, 0) == |plan|;
    assert plan[..|plan|] == plan;
    forall j | 0 <= j < |plan|
      ensures env.handleOk(j)
    {
      assert FetchChunk(env, url, plan, j).Fetched?;
    }
    assert d.code == 0;
    var e := SerialRun(env, dest, url, Plan(n, s));
    assert e.code == 0 && e.requested == d.requested && e.output == d.output;
  }

  /** In serial mode no range after the failing chunk's is ever requested:
      every performed request is for a chunk no later than the first failing
      one. */
  lemma SerialStopsAtFailure(env: Env, dest: string, url: string, n: int, s: int)
    requires PlanFits(n, s)
    ensures var plan := Plan(n, s);
      var d := SerialRun(env, dest, url, Plan(n, s));
      var k := FirstFailure(Outcomes(env, url, plan), 0);
      forall j :: 0 <= j < |d.requested| ==> j <= k && d.requested[j] == plan[j]
  {
  }
}
