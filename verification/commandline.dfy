/** The command-line parser `checkCommand`: `[OPTIONS] url`, where the last
    argument is always the URL and the options `-o file`, `-parallel`,
    `-n number` and `-s number` may appear in any order and any number of
    times between the program name and the URL. */
module CommandLine {
  import opened Common
  import opened Decimal

  const MIN_ARGS: int := 2

  /** The output parameters `checkCommand` writes through its pointers. */
  datatype Options = Options(destFile: string, isParallel: int, url: string, numOfChunks: int, sizeOfChunk: int)

  /** The return value of `checkCommand` together with its output parameters. */
  datatype Verdict = Verdict(code: int, opts: Options)

  /** `usageInfo`: prints the usage text, which is not modelled, and returns 0. */
  function UsageInfo(): int
  {
    0
  }

  /** `*arg == '-'`: the first character is a dash (an empty argument starts
      with the terminating NUL instead). */
  predicate StartsWithDash(arg: string) {
    |arg| > 0 && arg[0] == '-'
  }

  /** `sscanf(arg, "%d", p)` applied to the value `*p` currently holds. */
  function Sscanf(arg: string, current: int): (r: int)
    ensures ScanInt(arg).None? ==> r == current
    ensures ScanInt(arg).Some? ==> r == ScanInt(arg).value
  {
    ScanInt(arg).GetOr(current)
  }

  /** One option as a user writes it. */
  datatype Opt = Output(file: string) | Parallel | Chunks(count: string) | ChunkSize(bytes: string)

  /** An option whose value, if it has one, does not start with a dash. */
  predicate WellFormed(o: Opt) {
    match o
    case Output(v) => !StartsWithDash(v)
    case Parallel => true
    case Chunks(v) => !StartsWithDash(v)
    case ChunkSize(v) => !StartsWithDash(v)
  }

  predicate AllWellFormed(toks: seq<Opt>) {
    forall k :: 0 <= k < |toks| ==> WellFormed(toks[k])
  }

  /** The arguments spelling one option. */
  function Words(o: Opt): seq<string>
  {
    match o
    case Output(v) => ["-o", v]
    case Parallel => ["-parallel"]
    case Chunks(v) => ["-n", v]
    case ChunkSize(v) => ["-s", v]
  }

  /** The arguments spelling a list of options, in order. */
  function Render(toks: seq<Opt>): seq<string>
  {
    if toks == [] then [] else Words(toks[0]) + Render(toks[1..])
  }

  /** The effect of one option on the output parameters. */
  function Set(opts: Options, o: Opt): Options
  {
    match o
    case Output(v) => opts.(destFile := v)
    case Parallel => opts.(isParallel := 1)
    case Chunks(v) => opts.(numOfChunks := Sscanf(v, opts.numOfChunks))
    case ChunkSize(v) => opts.(sizeOfChunk := Sscanf(v, opts.sizeOfChunk))
  }

  /** The effect of a list of options, applied left to right. */
  function Apply(opts: Options, toks: seq<Opt>): Options
    decreases |toks|
  {
    if toks == [] then opts else Apply(Set(opts, toks[0]), toks[1..])
  }

  /** What one iteration of the option loop does: reject the command, or
      read one option. */
  datatype Move = Reject | Advance(o: Opt)

  /** One iteration of the option loop of `checkCommand`, given the
      arguments from the loop index `i` up to but excluding the URL. An
      option that takes a value needs one before the URL (`i + 1 <
      numOfArgs`) that does not start with a dash. */
  function Iteration(args: seq<string>): (m: Move)
    requires args != []
    ensures m.Advance? ==> |Words(m.o)| <= |args|
  {
    var hasValue := |args| > 1 && !StartsWithDash(args[1]);
    if args[0] == "-o" then
      if hasValue then Advance(Output(args[1])) else Reject
    else if args[0] == "-parallel" then
      Advance(Parallel)
    else if args[0] == "-n" then
      if hasValue then Advance(Chunks(args[1])) else Reject
    else if args[0] == "-s" then
      if hasValue then Advance(ChunkSize(args[1])) else Reject
    else Reject
  }

  /** How the option loop stops: at an argument it rejects, with the
      arguments from there on, or having consumed every argument before the
      URL. Either way with the options read so far; the output parameters
      hold those options applied in order. */
  datatype Scan = Rejected(read: seq<Opt>, rest: seq<string>) | Scanned(read: seq<Opt>)

  /** The option loop of `checkCommand` over the arguments from the loop
      index up to but excluding the URL. */
  function ScanOptions(args: seq<string>): (r: Scan)
    ensures r.Rejected? ==> r.rest != [] && |r.rest| <= |args|
    decreases |args|
  {
    if args == [] then Scanned([])
    else
      match Iteration(args)
      case Reject => Rejected([], args)
      case Advance(o) =>
        var r := ScanOptions(args[|Words(o)|..]);
        r.(read := [o] + r.read)
  }

  /** The arguments the loop did not consume. */
  function Unread(r: Scan): seq<string>
  {
    if r.Rejected? then r.rest else []
  }

  /** `checkCommand(argc, argv, ...)` with `argc == |argv|`: 1 when the
      command is accepted, 0 (from `usageInfo`) when it is not. The output
      parameters start as `opts`. */
  function CheckCommand(argv: seq<string>, opts: Options): (v: Verdict)
    ensures v.code == 0 || v.code == 1
    ensures |argv| < MIN_ARGS ==> v == Verdict(0, opts)
    ensures v.code == 1 ==> |argv| >= MIN_ARGS && v.opts.url == argv[|argv| - 1] && !StartsWithDash(argv[|argv| - 1])
  {
    if |argv| < MIN_ARGS then Verdict(UsageInfo(), opts)
    else CheckUrl(argv, ScanOptions(argv[1..|argv| - 1]), opts)
  }

  /** What `checkCommand` does once the option loop has stopped with `r`:
      a rejected loop has already returned; otherwise the URL is checked,
      with the loop index one past the program name plus the arguments
      consumed. */
  function CheckUrl(argv: seq<string>, r: Scan, opts: Options): (v: Verdict)
    requires |argv| >= MIN_ARGS
    ensures v.code == 0 || v.code == 1
    ensures v.code == 1 ==> v.opts.url == argv[|argv| - 1] && !StartsWithDash(argv[|argv| - 1])
  {
    var numOfArgs := |argv| - 1;
    var o := Apply(opts, r.read);
    if r.Rejected? then Verdict(UsageInfo(), o)
    else
      var i := 1 + |Render(r.read)|;
      if StartsWithDash(argv[numOfArgs]) || i > numOfArgs then Verdict(UsageInfo(), o)
      else Verdict(1, o.(url := argv[numOfArgs]))
  }

  lemma RenderCons(o: Opt, toks: seq<Opt>)
    ensures Render([o] + toks) == Words(o) + Render(toks)
  {
    assert ([o] + toks)[1..] == toks;
  }

  /** An option one iteration reads is well-formed and is what the
      arguments in front spell. */
  lemma IterationSpells(args: seq<string>)
    requires args != [] && Iteration(args).Advance?
    ensures var o := Iteration(args).o;
      WellFormed(o) && args == Words(o) + args[|Words(o)|..]
  {
    var o := Iteration(args).o;
    if |Words(o)| == 1 {
      assert args == [args[0]] + args[1..];
    } else {
      assert args == [args[0], args[1]] + args[2..];
    }
  }

  /** One iteration reads exactly the well-formed option spelled in front. */
  lemma IterationReads(o: Opt, rest: seq<string>)
    requires WellFormed(o)
    ensures Iteration(Words(o) + rest) == Advance(o)
  {
    var args := Words(o) + rest;
    assert args[0] == Words(o)[0];
    match o {
      case Output(v) =>
        assert args[1] == v;
      case Parallel =>
        assert args[0] != "-o";
      case Chunks(v) =>
        assert args[1] == v;
        assert args[0] != "-o" && args[0] != "-parallel";
      case ChunkSize(v) =>
        assert args[1] == v;
        assert args[0] != "-o" && args[0] != "-parallel" && args[0] != "-n";
    }
  }

  /** The options the loop reads are well-formed, and the arguments are
      their spelling followed by what the loop did not consume. */
  lemma {:induction false} ScanReads(args: seq<string>)
    ensures var r := ScanOptions(args);
      AllWellFormed(r.read) && args == Render(r.read) + Unread(r)
    decreases |args|
  {
    if args != [] && Iteration(args).Advance? {
      ScanReads(args[|Words(Iteration(args).o)|..]);
      ScanReadsStep(args);
    }
  }

  /** The inductive step of `ScanReads`: one option read in front. */
  lemma ScanReadsStep(args: seq<string>)
    requires args != [] && Iteration(args).Advance?
    requires var t := ScanOptions(args[|Words(Iteration(args).o)|..]);
      AllWellFormed(t.read) && args[|Words(Iteration(args).o)|..] == Render(t.read) + Unread(t)
    ensures var r := ScanOptions(args);
      AllWellFormed(r.read) && args == Render(r.read) + Unread(r)
  {
    var o := Iteration(args).o;
    var tail := args[|Words(o)|..];
    var t := ScanOptions(tail);
    var r := ScanOptions(args);
    assert r == t.(read := [o] + t.read);
    assert Unread(r) == Unread(t);
    IterationSpells(args);
    RenderCons(o, t.read);
    AppendAssoc(Words(o), Render(t.read), Unread(t));
    WellFormedCons(o, t.read);
  }

  lemma WellFormedCons(o: Opt, toks: seq<Opt>)
    requires WellFormed(o) && AllWellFormed(toks)
    ensures AllWellFormed([o] + toks)
  {
    assert forall k :: 1 <= k < |[o] + toks| ==> ([o] + toks)[k] == toks[k - 1];
  }

  /** A rejected loop stops at an argument the iteration rejects. */
  lemma {:induction false} ScanStops(args: seq<string>)
    ensures var r := ScanOptions(args);
      r.Rejected? ==> Iteration(r.rest).Reject?
    decreases |args|
  {
    if args != [] && Iteration(args).Advance? {
      ScanStops(args[|Words(Iteration(args).o)|..]);
    }
  }

  /** The option loop reads a rendered option list back token by token and
      then carries on as it would have from the arguments after it. */
  lemma {:induction false} ScanRendered(toks: seq<Opt>, rest: seq<string>)
    requires AllWellFormed(toks)
    ensures var r := ScanOptions(rest);
      ScanOptions(Render(toks) + rest) == r.(read := toks + r.read)
    decreases |toks|
  {
    if toks == [] {
      var r := ScanOptions(rest);
      assert Render(toks) + rest == rest;
      assert toks + r.read == r.read;
    } else {
      assert AllWellFormed(toks[1..]);
      ScanRendered(toks[1..], rest);
      var r := ScanOptions(rest);
      ScanRenderedStep(toks, rest, r, ScanOptions(Render(toks[1..]) + rest));
    }
  }

  /** The inductive step of `ScanRendered`: one more option in front, `t`
      being what the loop reads from the options after it. */
  lemma ScanRenderedStep(toks: seq<Opt>, rest: seq<string>, r: Scan, t: Scan)
    requires toks != [] && WellFormed(toks[0])
    requires t == ScanOptions(Render(toks[1..]) + rest) && t == r.(read := toks[1..] + r.read)
    ensures ScanOptions(Render(toks) + rest) == r.(read := toks + r.read)
  {
    RenderFront(toks, rest);
    ScanFront(toks[0], Render(toks[1..]) + rest);
    UpdateFront(r, t, toks);
  }

  /** Putting the first option back in front of the options read after it. */
  lemma UpdateFront(r: Scan, t: Scan, toks: seq<Opt>)
    requires toks != [] && t == r.(read := toks[1..] + r.read)
    ensures t.(read := [toks[0]] + t.read) == r.(read := toks + r.read)
  {
    AppendAssoc([toks[0]], toks[1..], r.read);
    assert [toks[0]] + toks[1..] == toks;
  }

  /** Splitting the first option's words off a rendered list. */
  lemma RenderFront(toks: seq<Opt>, rest: seq<string>)
    requires toks != []
    ensures Render(toks) + rest == Words(toks[0]) + (Render(toks[1..]) + rest)
  {
    assert [toks[0]] + toks[1..] == toks;
    RenderCons(toks[0], toks[1..]);
    AppendAssoc(Words(toks[0]), Render(toks[1..]), rest);
  }

  /** The loop reads a well-formed option in front and goes on after it. */
  lemma ScanFront(o: Opt, tail: seq<string>)
    requires WellFormed(o)
    ensures var t := ScanOptions(tail);
      ScanOptions(Words(o) + tail) == t.(read := [o] + t.read)
  {
    IterationReads(o, tail);
    DropAppend(Words(o), tail);
    ScanAdvance(Words(o) + tail, o);
  }

  /** The loop reading option `o` goes on after its arguments. */
  lemma ScanAdvance(args: seq<string>, o: Opt)
    requires args != [] && Iteration(args) == Advance(o)
    ensures var t := ScanOptions(args[|Words(o)|..]);
      ScanOptions(args) == t.(read := [o] + t.read)
  {
  }

  /** Every list of well-formed options followed by a URL that does not
      start with a dash is accepted, with the options applied in order. */
  lemma AcceptsRendered(prog: string, toks: seq<Opt>, url: string, opts: Options)
    requires AllWellFormed(toks) && !StartsWithDash(url)
    ensures CheckCommand([prog] + Render(toks) + [url], opts) == Verdict(1, Apply(opts, toks).(url := url))
  {
    var argv := [prog] + Render(toks) + [url];
    assert argv[1..|argv| - 1] == Render(toks) + [];
    ScanRendered(toks, []);
    assert toks + [] == toks;
  }

  /** Conversely, every accepted command line is a list of well-formed
      options between the program name and the URL, and the output
      parameters are those options applied in order. */
  lemma AcceptedIsRendered(argv: seq<string>, opts: Options) returns (toks: seq<Opt>)
    requires CheckCommand(argv, opts).code == 1
    ensures AllWellFormed(toks)
    ensures argv == [argv[0]] + Render(toks) + [argv[|argv| - 1]]
    ensures CheckCommand(argv, opts).opts == Apply(opts, toks).(url := argv[|argv| - 1])
  {
    var args := argv[1..|argv| - 1];
    toks := ScanOptions(args).read;
    ScanReads(args);
    assert args == Render(toks);
    FirstMiddleLast(argv);
  }

  /** When the option loop consumes every argument before the URL, the loop
      index ends exactly at the URL, so the `i > numOfArgs` test never
      rejects a command. */
  lemma LoopEndsAtUrl(argv: seq<string>)
    requires |argv| >= MIN_ARGS && ScanOptions(argv[1..|argv| - 1]).Scanned?
    ensures 1 + |Render(ScanOptions(argv[1..|argv| - 1]).read)| == |argv| - 1
  {
    ScanReads(argv[1..|argv| - 1]);
  }

  /** A command whose option loop rejects is rejected whatever the URL. */
  lemma RejectedScanRejects(prog: string, toks: seq<Opt>, bad: seq<string>, url: string, opts: Options)
    requires AllWellFormed(toks) && bad != [] && Iteration(bad).Reject?
    ensures CheckCommand([prog] + Render(toks) + bad + [url], opts).code == 0
  {
    var argv := [prog] + Render(toks) + bad + [url];
    AppendAssoc([prog], Render(toks), bad);
    Interior(prog, Render(toks) + bad, url);
    assert ScanOptions(bad) == Rejected([], bad);
    ScanRendered(toks, bad);
    RejectedLoopRejects(argv, opts);
  }

  /** A command whose option loop stops at a rejected argument is rejected. */
  lemma RejectedLoopRejects(argv: seq<string>, opts: Options)
    requires |argv| >= MIN_ARGS && ScanOptions(argv[1..|argv| - 1]).Rejected?
    ensures CheckCommand(argv, opts).code == 0
  {
  }

  /** `-o`, `-n` and `-s` need a value before the URL: one directly in front
      of the URL is rejected. */
  lemma RejectsMissingValue(prog: string, toks: seq<Opt>, flag: string, url: string, opts: Options)
    requires AllWellFormed(toks)
    requires flag == "-o" || flag == "-n" || flag == "-s"
    ensures CheckCommand([prog] + Render(toks) + [flag, url], opts).code == 0
  {
    assert [prog] + Render(toks) + [flag, url] == [prog] + Render(toks) + [flag] + [url];
    RejectedScanRejects(prog, toks, [flag], url, opts);
  }

  /** A value that starts with a dash is rejected. */
  lemma RejectsDashValue(prog: string, toks: seq<Opt>, flag: string, value: string, rest: seq<string>, url: string, opts: Options)
    requires AllWellFormed(toks)
    requires flag == "-o" || flag == "-n" || flag == "-s"
    requires StartsWithDash(value)
    ensures CheckCommand([prog] + Render(toks) + [flag, value] + rest + [url], opts).code == 0
  {
    var bad := [flag, value] + rest;
    assert bad[0] == flag && bad[1] == value;
    assert [prog] + Render(toks) + [flag, value] + rest + [url] == [prog] + Render(toks) + bad + [url];
    RejectedScanRejects(prog, toks, bad, url, opts);
  }

  /** Any argument before the URL other than the four options (or an
      option's value) is rejected. */
  lemma RejectsUnknownOption(prog: string, toks: seq<Opt>, arg: string, rest: seq<string>, url: string, opts: Options)
    requires AllWellFormed(toks)
    requires arg != "-o" && arg != "-parallel" && arg != "-n" && arg != "-s"
    ensures CheckCommand([prog] + Render(toks) + [arg] + rest + [url], opts).code == 0
  {
    var bad := [arg] + rest;
    assert bad[0] == arg;
    assert [prog] + Render(toks) + [arg] + rest + [url] == [prog] + Render(toks) + bad + [url];
    RejectedScanRejects(prog, toks, bad, url, opts);
  }

  lemma {:induction false} ApplyAppend(opts: Options, a: seq<Opt>, b: seq<Opt>)
    ensures Apply(opts, a + b) == Apply(Apply(opts, a), b)
    decreases |a|
  {
    if a == [] {
      assert a + b == b;
    } else {
      assert (a + b)[1..] == a[1..] + b;
      ApplyAppend(Set(opts, a[0]), a[1..], b);
    }
  }

  lemma {:induction false} ApplyKeepsDestFile(opts: Options, b: seq<Opt>)
    requires forall k :: 0 <= k < |b| ==> !b[k].Output?
    ensures Apply(opts, b).destFile == opts.destFile
    decreases |b|
  {
    if b != [] {
      ApplyKeepsDestFile(Set(opts, b[0]), b[1..]);
    }
  }

  /** Repeated `-o` options overwrite each other: the last one wins. */
  lemma LastOutputWins(opts: Options, a: seq<Opt>, file: string, b: seq<Opt>)
    requires forall k :: 0 <= k < |b| ==> !b[k].Output?
    ensures Apply(opts, a + [Output(file)] + b).destFile == file
  {
    ApplyAppend(opts, a + [Output(file)], b);
    ApplyAppend(opts, a, [Output(file)]);
    ApplyKeepsDestFile(Apply(opts, a + [Output(file)]), b);
  }

  /** Options whose `-n` values `sscanf` cannot convert leave the chunk
      count as it was. */
  lemma {:induction false} ApplyKeepsChunks(opts: Options, b: seq<Opt>)
    requires forall k :: 0 <= k < |b| ==> b[k].Chunks? ==> ScanInt(b[k].count).None?
    ensures Apply(opts, b).numOfChunks == opts.numOfChunks
    decreases |b|
  {
    if b != [] {
      ApplyKeepsChunks(Set(opts, b[0]), b[1..]);
    }
  }

  /** The chunk count comes from the last `-n` whose value `sscanf`
      converts: a later `-n` without a number does not undo it. */
  lemma LastChunksWins(opts: Options, a: seq<Opt>, v: string, b: seq<Opt>)
    requires ScanInt(v).Some?
    requires forall k :: 0 <= k < |b| ==> b[k].Chunks? ==> ScanInt(b[k].count).None?
    ensures Apply(opts, a + [Chunks(v)] + b).numOfChunks == ScanInt(v).value
  {
    ApplyAppend(opts, a + [Chunks(v)], b);
    ApplyAppend(opts, a, [Chunks(v)]);
    ApplyKeepsChunks(Apply(opts, a + [Chunks(v)]), b);
  }

  /** Options whose `-s` values `sscanf` cannot convert leave the chunk
      size as it was. */
  lemma {:induction false} ApplyKeepsChunkSize(opts: Options, b: seq<Opt>)
    requires forall k :: 0 <= k < |b| ==> b[k].ChunkSize? ==> ScanInt(b[k].bytes).None?
    ensures Apply(opts, b).sizeOfChunk == opts.sizeOfChunk
    decreases |b|
  {
    if b != [] {
      ApplyKeepsChunkSize(Set(opts, b[0]), b[1..]);
    }
  }

  /** The chunk size comes from the last `-s` whose value `sscanf`
      converts: a later `-s` without a number does not undo it. */
  lemma LastChunkSizeWins(opts: Options, a: seq<Opt>, v: string, b: seq<Opt>)
    requires ScanInt(v).Some?
    requires forall k :: 0 <= k < |b| ==> b[k].ChunkSize? ==> ScanInt(b[k].bytes).None?
    ensures Apply(opts, a + [ChunkSize(v)] + b).sizeOfChunk == ScanInt(v).value
  {
    ApplyAppend(opts, a + [ChunkSize(v)], b);
    ApplyAppend(opts, a, [ChunkSize(v)]);
    ApplyKeepsChunkSize(Apply(opts, a + [ChunkSize(v)]), b);
  }

  /** `-parallel` sets the flag to 1 and nothing else ever changes it. */
  lemma {:induction false} ParallelFlag(opts: Options, toks: seq<Opt>)
    ensures Apply(opts, toks).isParallel == if Parallel in toks then 1 else opts.isParallel
    decreases |toks|
  {
    if toks != [] {
      ParallelFlag(Set(opts, toks[0]), toks[1..]);
      assert Parallel in toks <==> toks[0] == Parallel || Parallel in toks[1..];
    }
  }

  /** `-n` with a number written in decimal sets the chunk count to it. */
  lemma ChunksReadsNumber(opts: Options, n: nat)
    ensures Set(opts, Chunks(NatToText(n))).numOfChunks == n
  {
    ScanIntRoundTrip(n);
  }

  /** A value with no digit in it leaves the chunk size as it was. */
  lemma ChunkSizeWithoutDigits(opts: Options, v: string)
    requires NoDigit(v)
    ensures Set(opts, ChunkSize(v)) == opts
  {
    ScanIntNeedsDigit(v);
  }
}
