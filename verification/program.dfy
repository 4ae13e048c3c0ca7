/** The program's entry point `main`: parse the command line into the
    defaults, run the chosen download mode when the command is accepted,
    and release the transport's global resources afterwards. */
module Program {
  import opened Common
  import opened RangePlan
  import opened MultiGet
  import opened CommandLine

  const DEFAULT_NUM_CHUNKS: int := 4
  const DEFAULT_SIZE_CHUNK: int := 1000000

  /** The values `main` initialises its locals with before parsing. */
  function Defaults(): (opts: Options)
    ensures opts.isParallel == 0 && opts.url == []
    ensures PlanFits(opts.numOfChunks, opts.sizeOfChunk)
  {
    Options("384MB.jar", 0, "", DEFAULT_NUM_CHUNKS, DEFAULT_SIZE_CHUNK)
  }

  /** Whether the chunk arithmetic of the accepted options stays within C
      `int`; beyond it the C program's behaviour is undefined. */
  predicate FitsWhenAccepted(argv: seq<string>) {
    var v := CheckCommand(argv, Defaults());
    v.code == 1 ==> PlanFits(v.opts.numOfChunks, v.opts.sizeOfChunk)
  }

  /** What one run of the program does: its exit status, the download it
      ran (if any) and whether it released the global transport resources
      (`cleanCurlResource`). */
  datatype Run = Run(exitCode: int, download: Option<Download>, cleaned: bool)

  /** `main(argc, argv)`. The environment and the polling schedule stand for
      the transport and the order in which parallel transfers progress. */
  method RunProgram(env: Env, argv: seq<string>, schedule: seq<int>) returns (run: Run)
    requires FitsWhenAccepted(argv)
    ensures run.exitCode == 0
    ensures run.cleaned <==> CheckCommand(argv, Defaults()).code == 1
    ensures run.download.Some? <==> run.cleaned
    ensures var o := CheckCommand(argv, Defaults()).opts;
      run.cleaned && o.isParallel == 1 ==>
        IsParallelResult(env, o.destFile, o.url, o.numOfChunks, o.sizeOfChunk, run.download.value)
    ensures var o := CheckCommand(argv, Defaults()).opts;
      run.cleaned && o.isParallel != 1 ==>
        run.download.value == SerialRun(env, o.destFile, o.url, Plan(o.numOfChunks, o.sizeOfChunk))
    ensures var o := CheckCommand(argv, Defaults()).opts;
      run.cleaned && run.download.value.output.Some? ==> run.download.value.output.value.path == o.destFile
  {
    var v := CheckCommand(argv, Defaults());
    if v.code != 1 {
      return Run(0, None, false);
    }
    var o := v.opts;
    var d;
    if o.isParallel == 1 {
      d := ParallelDownload(env, o.destFile, o.url, o.numOfChunks, o.sizeOfChunk, schedule);
    } else {
      d := SerialRun(env, o.destFile, o.url, Plan(o.numOfChunks, o.sizeOfChunk));
    }
    run := Run(0, Some(d), true);
  }

  /** With only a URL, the program downloads `DEFAULT_NUM_CHUNKS` chunks of
      `DEFAULT_SIZE_CHUNK` bytes serially into `384MB.jar`. */
  lemma UrlOnlyUsesDefaults(prog: string, url: string)
    requires !StartsWithDash(url)
    ensures var v := CheckCommand([prog, url], Defaults());
      && v.code == 1
      && v.opts == Options("384MB.jar", 0, url, DEFAULT_NUM_CHUNKS, DEFAULT_SIZE_CHUNK)
      && Plan(v.opts.numOfChunks, v.opts.sizeOfChunk) ==
           [Range(0, 999999), Range(1000000, 1999999), Range(2000000, 2999999), Range(3000000, 3999999)]
  {
    AcceptsRendered(prog, [], url, Defaults());
    assert [prog] + Render([]) + [url] == [prog, url];
    var p := Plan(DEFAULT_NUM_CHUNKS, DEFAULT_SIZE_CHUNK);
    assert p[0] == Range(0, 999999) && p[1] == Range(1000000, 1999999);
    assert p[2] == Range(2000000, 2999999) && p[3] == Range(3000000, 3999999);
  }

  /** The file an accepted command writes is named by its last `-o`, so
      `RunProgram` hands that path to `saveToFile`. */
  lemma WritesToLastOutput(prog: string, a: seq<Opt>, file: string, b: seq<Opt>, url: string)
    requires AllWellFormed(a + [Output(file)] + b) && !StartsWithDash(url)
    requires forall k :: 0 <= k < |b| ==> !b[k].Output?
    ensures var v := CheckCommand([prog] + Render(a + [Output(file)] + b) + [url], Defaults());
      v.code == 1 && v.opts.destFile == file
  {
    AcceptsRendered(prog, a + [Output(file)] + b, url, Defaults());
    LastOutputWins(Defaults(), a, file, b);
  }

  /** An accepted command selects the parallel mode exactly when
      `-parallel` is among its options. */
  lemma ParallelExactlyWhenRequested(prog: string, toks: seq<Opt>, url: string)
    requires AllWellFormed(toks) && !StartsWithDash(url)
    ensures CheckCommand([prog] + Render(toks) + [url], Defaults()).opts.isParallel == 1 <==> Parallel in toks
  {
    AcceptsRendered(prog, toks, url, Defaults());
    ParallelFlag(Defaults(), toks);
  }
}
