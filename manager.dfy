/** `MPlayerManager`: the session gate in front of one engine process. Operations wait
    for the process to be ready, write their commands, and then read the process's output
    line by line until their `processData` callback settles them. Promises are modelled by
    single-settlement result cells, and every callback the runtime would invoke (a spawn
    completing, a chunk of output, the process exiting or failing, a timer firing, the
    writes of an operation completing or failing) is an event method. */
module Manager {
  import opened Wrappers
  import opened JsString
  import opened Command

  /* ---------------- Results ---------------- */

  /** A rejection reason: a message string, or an `Error` object, kept by its message. */
  datatype Reason = Text(text: string) | Failure(message: string)

  /** The state of a promise: still pending, or settled with a value or a reason. */
  datatype Cell<T> = Pending | Resolved(value: T) | Rejected(reason: Reason)

  /** What `processData` does with one line: nothing, `resolve(value)` or `reject(reason)`. */
  datatype Verdict<T> = NoMatch | Resolve(value: T) | Reject(reason: Reason)

  /** Calling the promise's `resolve`/`reject`: only the first settlement counts. */
  function Settle<T>(c: Cell<T>, v: Verdict<T>): Cell<T>
  {
    if !c.Pending? then c
    else match v
      case NoMatch => c
      case Resolve(x) => Resolved(x)
      case Reject(e) => Rejected(e)
  }

  /** A settled promise stays as it is, whatever is called on it later; a pending one is
      settled by the first resolve or reject, with that value or reason. */
  lemma SettleOnce<T>(c: Cell<T>, v: Verdict<T>, w: Verdict<T>)
    ensures !c.Pending? ==> Settle(c, v) == c
    ensures c.Pending? && v.Resolve? ==> Settle(c, v) == Resolved(v.value)
    ensures c.Pending? && v.Reject? ==> Settle(c, v) == Rejected(v.reason)
    ensures !v.NoMatch? ==> Settle(Settle(c, v), w) == Settle(c, v)
  {
  }

  /* ---------------- Messages ---------------- */

  const BusyMessage: string := "Busy - cannot execute operation"
  const TimedOutMessage: string := "Timed out"
  const ExitPrefix: string := "MPLAYER exited ("

  /** `${x}` of a number that may be `null`. */
  function CodeText(code: Option<int>): string
  {
    match code
    case None => "null"
    case Some(n) => Decimal(n)
  }

  /** `${x}` of a string that may be `null`. */
  function SignalText(signal: Option<string>): string
  {
    match signal
    case None => "null"
    case Some(s) => s
  }

  /** `MPLAYER exited (${code} - ${signal})`. */
  function ExitMessage(code: Option<int>, signal: Option<string>): string
  {
    ExitPrefix + CodeText(code) + " - " + SignalText(signal) + ")"
  }

  /** The exit code can be read back from the rejection message: what follows the prefix
      parses to the code. */
  lemma ExitCodeReadBack(n: int, signal: Option<string>)
    ensures var m := ExitMessage(Some(n), signal);
            |ExitPrefix| <= |m| && m[..|ExitPrefix|] == ExitPrefix
            && ParseInt(m[|ExitPrefix|..]) == Int(n)
  {
    var d := Decimal(n);
    var rest := " - " + SignalText(signal) + ")";
    var m := ExitMessage(Some(n), signal);
    assert m == ExitPrefix + (d + rest);
    assert m[|ExitPrefix|..] == d + rest;
    ParseIntDecimal(n, rest);
  }

  /* ---------------- The line dispatch of an operation ---------------- */

  /** Reference definition of offering `lines[i..]` in order: the verdict of the first line
      that settles the operation, and the number of lines offered by then (all of them
      when none settles it). */
  function FirstVerdict<T>(lines: seq<string>, matcher: string -> Verdict<T>, i: nat): (Verdict<T>, nat)
    requires i <= |lines|
    decreases |lines| - i
  {
    if i == |lines| then (NoMatch, |lines|)
    else if !matcher(lines[i]).NoMatch? then (matcher(lines[i]), i + 1)
    else FirstVerdict(lines, matcher, i + 1)
  }

  /** The dispatch stops at the first settling line: every line before it was offered and
      did nothing, and no line after it is offered. */
  lemma {:induction false} FirstVerdictSpec<T>(lines: seq<string>, matcher: string -> Verdict<T>, i: nat)
    requires i <= |lines|
    ensures var r := FirstVerdict(lines, matcher, i);
            i <= r.1 <= |lines|
            && (r.0.NoMatch? ==> r.1 == |lines|
                                 && forall j :: i <= j < |lines| ==> matcher(lines[j]).NoMatch?)
            && (!r.0.NoMatch? ==> i < r.1 && r.0 == matcher(lines[r.1 - 1])
                                  && forall j :: i <= j < r.1 - 1 ==> matcher(lines[j]).NoMatch?)
    decreases |lines| - i
  {
    if i < |lines| && matcher(lines[i]).NoMatch? {
      FirstVerdictSpec(lines, matcher, i + 1);
    }
  }

  /** The `for ... of chunk.split('\n')` loop of an operation's `onData`: offers the lines
      to `processData` in order and breaks out once a line has settled the operation.
      Returns that line's verdict and how many lines were offered. */
  method OfferLines<T>(lines: seq<string>, matcher: string -> Verdict<T>)
    returns (verdict: Verdict<T>, offered: nat)
    ensures (verdict, offered) == FirstVerdict(lines, matcher, 0)
  {
    verdict := NoMatch;
    offered := 0;
    var done := false;
    var i := 0;
    while i < |lines|
      invariant i <= |lines|
      invariant offered == i && verdict.NoMatch?
      invariant FirstVerdict(lines, matcher, 0) == FirstVerdict(lines, matcher, i)
    {
      var v := matcher(lines[i]);
      offered := i + 1;
      if !v.NoMatch? {
        verdict := v;
        done := true;
      }
      if done {
        break;
      }
      i := i + 1;
    }
  }

  /** Some line carries the readiness banner. */
  predicate HasBanner(lines: seq<string>)
  {
    exists i :: 0 <= i < |lines| && Contains(lines[i], ReadyBanner)
  }

  /** The readiness `onData` loop: scans the lines and breaks at the first one that
      contains the banner. */
  method FindBanner(lines: seq<string>) returns (found: bool)
    ensures found <==> HasBanner(lines)
  {
    found := false;
    var i := 0;
    while i < |lines|
      invariant i <= |lines|
      invariant forall j :: 0 <= j < i ==> !Contains(lines[j], ReadyBanner)
    {
      if Contains(lines[i], ReadyBanner) {
        found := true;
        break;
      }
      i := i + 1;
    }
  }

  /* ---------------- Operations ---------------- */

  /** Where an operation is in its life:
      waiting for the previous process to go away, waiting for a new one to be spawned,
      waiting for the readiness banner, writing its commands, listening to the output,
      or detached from the process (all its listeners removed). */
  datatype Stage = AwaitingShutdown | AwaitingSpawn | AwaitingBanner | Writing | Listening | Detached

  /** One `doOperation` call: the commands its `op` body writes, its `processData`
      callback, its timeout in milliseconds (0 for none), whether a timer is armed, and
      its promise. */
  datatype Op<T> = Op(
    critical: bool,
    commands: seq<seq<Arg>>,
    matcher: string -> Verdict<T>,
    timeout: nat,
    stage: Stage,
    timer: bool,
    result: Cell<T>)

  /** The lines an operation's commands write, in order. */
  function CommandLines(commands: seq<seq<Arg>>): seq<string>
  {
    seq(|commands|, i requires 0 <= i < |commands| => CommandLine(RenderAll(commands[i])))
  }

  /** An event leaves what an operation is (its flag, commands, callback and timeout)
      alone, and a settled promise stays settled with the same outcome. */
  ghost predicate Keeps<T>(op: Op<T>, r: Op<T>)
  {
    r.critical == op.critical && r.commands == op.commands && r.matcher == op.matcher
    && r.timeout == op.timeout
    && (!op.result.Pending? ==> r.result == op.result)
  }

  /** The stage a new operation starts in: `readyMPlayer` resolves at once when the
      process is ready; otherwise it shuts down the current process first, if any. */
  function StartStage(ready: bool, hasProc: bool): (s: Stage)
    ensures s == Writing <==> ready && hasProc
    ensures s == AwaitingShutdown <==> !ready && hasProc
    ensures s == AwaitingSpawn <==> !hasProc
  {
    if ready && hasProc then Writing
    else if hasProc then AwaitingShutdown
    else AwaitingSpawn
  }

  /** The process exited or failed with `reason`: operations waiting for that process to
      go away move on to spawning a new one; operations waiting for its banner, writing
      to it or listening to it are rejected (if still pending) and detached. */
  function EndOp<T>(op: Op<T>, reason: Reason): (r: Op<T>)
    ensures Keeps(op, r)
    ensures op.stage == AwaitingShutdown ==> r == op.(stage := AwaitingSpawn)
    ensures op.stage in {AwaitingBanner, Writing, Listening} ==>
              r.stage == Detached && !r.timer
              && (op.result.Pending? ==> r.result == Rejected(reason))
    ensures op.stage in {AwaitingSpawn, Detached} ==> r == op
  {
    match op.stage
    case AwaitingShutdown => op.(stage := AwaitingSpawn)
    case AwaitingBanner => op.(stage := Detached, timer := false, result := Settle(op.result, Reject(reason)))
    case Writing => op.(stage := Detached, timer := false, result := Settle(op.result, Reject(reason)))
    case Listening => op.(stage := Detached, timer := false, result := Settle(op.result, Reject(reason)))
    case _ => op
  }

  /** A chunk of output reached an operation: if it waits for the banner and the banner
      arrived on standard output, it starts writing; if it listens, the chunk's lines are
      dispatched and, once one settles it, it is detached and its timer cleared. */
  function ChunkOp<T>(op: Op<T>, banner: bool, lines: seq<string>): (r: Op<T>)
    ensures Keeps(op, r)
    ensures op.stage == AwaitingBanner ==> r == (if banner then op.(stage := Writing) else op)
    ensures op.stage == Listening ==>
              var v := FirstVerdict(lines, op.matcher, 0).0;
              r == (if v.NoMatch? then op
                    else op.(stage := Detached, timer := false, result := Settle(op.result, v)))
    ensures op.stage !in {AwaitingBanner, Listening} ==> r == op
  {
    if op.stage == AwaitingBanner && banner then op.(stage := Writing)
    else if op.stage == Listening then
      var v := FirstVerdict(lines, op.matcher, 0).0;
      if v.NoMatch? then op
      else op.(stage := Detached, timer := false, result := Settle(op.result, v))
    else op
  }

  /** The lines written when the banner lets the waiting operations run: the commands of
      each operation waiting for it, in the order the operations were started. */
  function BannerWrites<T>(ops: seq<Op<T>>): seq<string>
    decreases |ops|
  {
    if |ops| == 0 then []
    else
      var last := ops[|ops| - 1];
      BannerWrites(ops[..|ops| - 1])
      + (if last.stage == AwaitingBanner then CommandLines(last.commands) else [])
  }

  /** Some operation is at `stage`. */
  predicate AnyAt<T>(ops: seq<Op<T>>, stage: Stage)
  {
    exists i :: 0 <= i < |ops| && ops[i].stage == stage
  }

  /** The operation is a critical one whose promise is still pending. */
  predicate PendingCritical<T>(op: Op<T>)
  {
    op.critical && op.result.Pending?
  }

  predicate HasPendingCritical<T>(ops: seq<Op<T>>)
  {
    exists i :: 0 <= i < |ops| && PendingCritical(ops[i])
  }

  ghost predicate AtMostOnePendingCritical<T>(ops: seq<Op<T>>)
  {
    forall i, j ::
      (0 <= i < |ops| && 0 <= j < |ops| && PendingCritical(ops[i]) && PendingCritical(ops[j]))
      ==> i == j
  }

  /** What holds of every operation, given whether the manager is ready and whether it
      has a process. */
  ghost predicate OpWf<T>(op: Op<T>, ready: bool, hasProc: bool)
  {
    (op.stage == AwaitingShutdown ==> hasProc)
    && (op.stage == AwaitingSpawn ==> !hasProc)
    && (op.stage == AwaitingBanner ==> hasProc && !ready)
    && (op.stage in {Writing, Listening} ==> hasProc && ready)
    && (op.stage !in {Listening, Detached} ==> op.result.Pending?)
    && (op.stage == Detached ==> !op.result.Pending?)
    && (op.timer ==> op.stage == Listening && op.result.Pending?)
  }

  /** Events only ever settle promises; so a pending critical operation afterwards was
      one before, and there is still at most one. */
  lemma PendingCriticalShrinks<T>(ops: seq<Op<T>>, ops': seq<Op<T>>)
    requires |ops'| == |ops|
    requires forall i :: 0 <= i < |ops| ==> Keeps(ops[i], ops'[i])
    requires AtMostOnePendingCritical(ops)
    ensures HasPendingCritical(ops') ==> HasPendingCritical(ops)
    ensures AtMostOnePendingCritical(ops')
  {
    assert forall i :: 0 <= i < |ops| && PendingCritical(ops'[i]) ==> PendingCritical(ops[i]);
  }

  /** The outcome of `doCriticalOperation`: refused at once, or started as an operation. */
  datatype Launch = Refused(reason: Reason) | Started(id: nat)

  /* ---------------- The manager ---------------- */

  class MPlayerManager<T> {
    /** A critical operation is outstanding. */
    var busy: bool
    /** The current process has shown its banner. */
    var ready: bool
    /** The current process, by id, if any. */
    var proc: Option<nat>
    /** The id the next spawned process gets. */
    var nextPid: nat
    /** Every operation started, in order. */
    var ops: seq<Op<T>>
    /** Every `shutdown` call's promise, in order. */
    var shutdowns: seq<Cell<()>>
    /** The lines written to the processes' standard input, in order. */
    var written: seq<string>
    /** The processes `kill` was called on, in order. */
    var kills: seq<nat>

    ghost predicate Valid()
      reads this
    {
      (ready ==> proc.Some?)
      && (proc.Some? ==> proc.value < nextPid)
      && (forall i :: 0 <= i < |ops| ==> OpWf(ops[i], ready, proc.Some?))
      && (busy <==> HasPendingCritical(ops))
      && AtMostOnePendingCritical(ops)
    }

    constructor()
      ensures Valid()
      ensures !busy && !ready && proc == None && nextPid == 0
      ensures ops == [] && shutdowns == [] && written == [] && kills == []
    {
      busy := false;
      ready := false;
      proc := None;
      nextPid := 0;
      ops := [];
      shutdowns := [];
      written := [];
      kills := [];
    }

    /** `doOperation`: starts an operation. When the process is ready its commands are
        written at once; otherwise the current process, if any, is shut down (`kill`) and
        the operation waits for a new one. */
    method DoOperation(commands: seq<seq<Arg>>, matcher: string -> Verdict<T>, timeout: nat)
      returns (id: nat)
      requires Valid()
      modifies this
      ensures Valid()
      ensures id == |old(ops)|
      ensures ops == old(ops)
                     + [Op(false, commands, matcher, timeout, StartStage(old(ready), old(proc).Some?), false, Pending)]
      ensures written == old(written) + (if old(ready) then CommandLines(commands) else [])
      ensures kills == old(kills) + (if !old(ready) && old(proc).Some? then [old(proc).value] else [])
      ensures busy == old(busy) && ready == old(ready) && proc == old(proc)
      ensures nextPid == old(nextPid) && shutdowns == old(shutdowns)
    {
      id := Begin(false, commands, matcher, timeout);
    }

    /** `doCriticalOperation`: refused with the busy message while a critical operation is
        outstanding (nothing else happens); otherwise marks the manager busy and starts the
        operation as a critical one. */
    method DoCriticalOperation(commands: seq<seq<Arg>>, matcher: string -> Verdict<T>, timeout: nat)
      returns (launch: Launch)
      requires Valid()
      modifies this
      ensures Valid()
      ensures old(busy) ==>
                launch == Refused(Text(BusyMessage)) && busy
                && ops == old(ops) && written == old(written) && kills == old(kills)
      ensures !old(busy) ==>
                launch == Started(|old(ops)|) && busy
                && ops == old(ops)
                          + [Op(true, commands, matcher, timeout, StartStage(old(ready), old(proc).Some?), false, Pending)]
                && written == old(written) + (if old(ready) then CommandLines(commands) else [])
                && kills == old(kills) + (if !old(ready) && old(proc).Some? then [old(proc).value] else [])
      ensures ready == old(ready) && proc == old(proc)
      ensures nextPid == old(nextPid) && shutdowns == old(shutdowns)
    {
      if busy {
        launch := Refused(Text(BusyMessage));
        return;
      }
      var id := Begin(true, commands, matcher, timeout);
      launch := Started(id);
    }

    /** The body both entry points share; a critical operation also marks the manager
        busy. */
    method Begin(critical: bool, commands: seq<seq<Arg>>, matcher: string -> Verdict<T>, timeout: nat)
      returns (id: nat)
      requires Valid()
      requires critical ==> !busy
      modifies this
      ensures Valid()
      ensures id == |old(ops)|
      ensures ops == old(ops)
                     + [Op(critical, commands, matcher, timeout, StartStage(old(ready), old(proc).Some?), false, Pending)]
      ensures written == old(written) + (if old(ready) then CommandLines(commands) else [])
      ensures kills == old(kills) + (if !old(ready) && old(proc).Some? then [old(proc).value] else [])
      ensures busy == (old(busy) || critical) && ready == old(ready) && proc == old(proc)
      ensures nextPid == old(nextPid) && shutdowns == old(shutdowns)
    {
      var stage := StartStage(ready, proc.Some?);
      var op := Op(critical, commands, matcher, timeout, stage, false, Pending);
      if stage == Writing {
        written := written + CommandLines(commands);
      } else if stage == AwaitingShutdown {
        kills := kills + [proc.value];
      }
      ghost var ops0 := ops;
      id := |ops|;
      ops := ops + [op];
      assert forall i :: 0 <= i < id ==> ops[i] == ops0[i];
      assert PendingCritical(ops[id]) <==> critical;
      if critical {
        assert !HasPendingCritical(ops0);
      }
      busy := busy || critical;
    }

    /** `shutdown`: resolves at once when there is no process; otherwise calls `kill` on
        it and stays pending until the process exits (resolved) or fails (rejected). */
    method Shutdown() returns (id: nat)
      requires Valid()
      modifies this
      ensures Valid()
      ensures id == |old(shutdowns)|
      ensures old(proc).None? ==> shutdowns == old(shutdowns) + [Resolved(())] && kills == old(kills)
      ensures old(proc).Some? ==>
                shutdowns == old(shutdowns) + [Pending] && kills == old(kills) + [old(proc).value]
      ensures busy == old(busy) && ready == old(ready) && proc == old(proc)
      ensures nextPid == old(nextPid) && ops == old(ops) && written == old(written)
    {
      id := |shutdowns|;
      if proc.None? {
        shutdowns := shutdowns + [Resolved(())];
      } else {
        shutdowns := shutdowns + [Pending];
        kills := kills + [proc.value];
      }
    }

    /** The spawn that readiness was waiting for: a new process starts, and every
        operation waiting for it now waits for its banner. */
    method Spawn()
      requires Valid() && proc.None? && AnyAt(ops, AwaitingSpawn)
      modifies this
      ensures Valid()
      ensures proc == Some(old(nextPid)) && nextPid == old(nextPid) + 1 && !ready
      ensures |ops| == |old(ops)|
      ensures forall i :: 0 <= i < |ops| ==>
                ops[i] == if old(ops)[i].stage == AwaitingSpawn then old(ops)[i].(stage := AwaitingBanner)
                          else old(ops)[i]
      ensures busy == old(busy) && shutdowns == old(shutdowns) && written == old(written)
      ensures kills == old(kills)
    {
      proc := Some(nextPid);
      nextPid := nextPid + 1;
      var ops0 := ops;
      ops := seq(|ops0|, i requires 0 <= i < |ops0| =>
                   if ops0[i].stage == AwaitingSpawn then ops0[i].(stage := AwaitingBanner) else ops0[i]);
      assert forall i :: 0 <= i < |ops| ==> PendingCritical(ops[i]) == PendingCritical(ops0[i]);
    }

    /** A chunk of text from the process on `stream`: the readiness listeners (standard
        output only) look for the banner, and the operations that listen get the chunk's
        lines. */
    method Chunk(stream: Stream, text: string)
      requires Valid() && proc.Some?
      modifies this
      ensures Valid()
      ensures var lines := Split(text, '\n');
              var banner := stream == Stdout && HasBanner(lines);
              |ops| == |old(ops)|
              && (forall i :: 0 <= i < |ops| ==> ops[i] == ChunkOp(old(ops)[i], banner, lines))
              && ready == (old(ready) || (banner && AnyAt(old(ops), AwaitingBanner)))
              && written == old(written) + (if banner then BannerWrites(old(ops)) else [])
      ensures busy == (old(busy) && HasPendingCritical(ops))
      ensures proc == old(proc) && nextPid == old(nextPid) && shutdowns == old(shutdowns)
      ensures kills == old(kills)
    {
      var lines := Split(text, '\n');
      var found := FindBanner(lines);
      var banner := stream == Stdout && found;
      var waiting := banner && AnyAt(ops, AwaitingBanner);
      var ops0 := ops;
      var next, out := DispatchChunk(ops0, banner, lines);
      ChunkKeepsValid(ops0, next, ready, ready || waiting, proc.Some?, banner, lines);
      PendingCriticalShrinks(ops0, next);
      ops := next;
      written := written + out;
      if waiting {
        ready := true;
      }
      busy := busy && HasPendingCritical(ops);
    }

    /** The process exited with `code` and `signal` (either may be null). */
    method Exit(code: Option<int>, signal: Option<string>)
      requires Valid() && proc.Some?
      modifies this
      ensures Valid()
      ensures |ops| == |old(ops)|
      ensures forall i :: 0 <= i < |ops| ==>
                ops[i] == EndOp(old(ops)[i], Text(ExitMessage(code, signal)))
      ensures |shutdowns| == |old(shutdowns)|
      ensures forall i :: 0 <= i < |shutdowns| ==>
                shutdowns[i] == Settle(old(shutdowns)[i], Resolve(()))
      ensures proc == None && !ready
      ensures busy == (old(busy) && HasPendingCritical(ops))
      ensures nextPid == old(nextPid) && written == old(written) && kills == old(kills)
    {
      End(Text(ExitMessage(code, signal)), Resolve(()));
    }

    /** The process emitted `error` with an `Error` whose message is `message`. */
    method Error(message: string)
      requires Valid() && proc.Some?
      modifies this
      ensures Valid()
      ensures |ops| == |old(ops)|
      ensures forall i :: 0 <= i < |ops| ==> ops[i] == EndOp(old(ops)[i], Failure(message))
      ensures |shutdowns| == |old(shutdowns)|
      ensures forall i :: 0 <= i < |shutdowns| ==>
                shutdowns[i] == Settle(old(shutdowns)[i], Reject(Failure(message)))
      ensures proc == None && !ready
      ensures busy == (old(busy) && HasPendingCritical(ops))
      ensures nextPid == old(nextPid) && written == old(written) && kills == old(kills)
    {
      End(Failure(message), Reject(Failure(message)));
    }

    /** What exit and error have in common: `handleProcCompletion` drops the process and
        the readiness, every operation's listener reacts, and pending shutdowns settle. */
    method End(reason: Reason, shutdownVerdict: Verdict<()>)
      requires Valid() && proc.Some?
      modifies this
      ensures Valid()
      ensures |ops| == |old(ops)|
      ensures forall i :: 0 <= i < |ops| ==> ops[i] == EndOp(old(ops)[i], reason)
      ensures |shutdowns| == |old(shutdowns)|
      ensures forall i :: 0 <= i < |shutdowns| ==>
                shutdowns[i] == Settle(old(shutdowns)[i], shutdownVerdict)
      ensures proc == None && !ready
      ensures busy == (old(busy) && HasPendingCritical(ops))
      ensures nextPid == old(nextPid) && written == old(written) && kills == old(kills)
    {
      var ops0 := ops;
      var shutdowns0 := shutdowns;
      ops := seq(|ops0|, i requires 0 <= i < |ops0| => EndOp(ops0[i], reason));
      shutdowns := seq(|shutdowns0|, i requires 0 <= i < |shutdowns0| => Settle(shutdowns0[i], shutdownVerdict));
      proc := None;
      ready := false;
      PendingCriticalShrinks(ops0, ops);
      busy := busy && HasPendingCritical(ops);
      forall i | 0 <= i < |ops|
        ensures OpWf(ops[i], ready, proc.Some?)
      {
        assert OpWf(ops0[i], old(ready), true);
      }
    }

    /** The timer of operation `id` fires: its promise is rejected with `Timed out`
        (its listeners stay attached). */
    method TimerFires(id: nat)
      requires Valid() && id < |ops| && ops[id].timer
      modifies this
      ensures Valid()
      ensures ops == old(ops)[id := old(ops)[id].(timer := false, result := Rejected(Text(TimedOutMessage)))]
      ensures busy == (old(busy) && HasPendingCritical(ops))
      ensures ready == old(ready) && proc == old(proc) && nextPid == old(nextPid)
      ensures shutdowns == old(shutdowns) && written == old(written) && kills == old(kills)
    {
      var op := ops[id];
      ghost var ops0 := ops;
      ops := ops[id := op.(timer := false, result := Settle(op.result, Reject(Text(TimedOutMessage))))];
      assert forall i :: 0 <= i < |ops| ==> Keeps(ops0[i], ops[i]);
      PendingCriticalShrinks(ops0, ops);
      busy := busy && HasPendingCritical(ops);
    }

    /** The `op` body of operation `id` completed its writes: the timer is armed when
        the timeout is nonzero, and the operation starts listening. */
    method WritesDone(id: nat)
      requires Valid() && id < |ops| && ops[id].stage == Writing
      modifies this
      ensures Valid()
      ensures ops == old(ops)[id := old(ops)[id].(stage := Listening, timer := old(ops)[id].timeout != 0)]
      ensures busy == old(busy) && ready == old(ready) && proc == old(proc)
      ensures nextPid == old(nextPid) && shutdowns == old(shutdowns)
      ensures written == old(written) && kills == old(kills)
    {
      var op := ops[id];
      ghost var ops0 := ops;
      ops := ops[id := op.(stage := Listening, timer := op.timeout != 0)];
      assert forall i :: 0 <= i < |ops| ==> PendingCritical(ops[i]) == PendingCritical(ops0[i]);
    }

    /** The `op` body of operation `id` failed with `reason`: its exit and error listeners
        are removed and its promise is rejected. */
    method WritesFailed(id: nat, reason: Reason)
      requires Valid() && id < |ops| && ops[id].stage == Writing
      modifies this
      ensures Valid()
      ensures ops == old(ops)[id := old(ops)[id].(stage := Detached, result := Rejected(reason))]
      ensures busy == (old(busy) && HasPendingCritical(ops))
      ensures ready == old(ready) && proc == old(proc) && nextPid == old(nextPid)
      ensures shutdowns == old(shutdowns) && written == old(written) && kills == old(kills)
    {
      var op := ops[id];
      ghost var ops0 := ops;
      ops := ops[id := op.(stage := Detached, result := Settle(op.result, Reject(reason)))];
      assert forall i :: 0 <= i < |ops| ==> Keeps(ops0[i], ops[i]);
      PendingCriticalShrinks(ops0, ops);
      busy := busy && HasPendingCritical(ops);
    }
  }

  /** A chunk handed to every operation's listeners, in the order the operations were
      started: each waiting operation's commands are written once the banner has arrived,
      and each listening operation runs its line dispatch. */
  method DispatchChunk<T>(ops: seq<Op<T>>, banner: bool, lines: seq<string>)
    returns (next: seq<Op<T>>, writes: seq<string>)
    ensures |next| == |ops|
    ensures forall i :: 0 <= i < |ops| ==> next[i] == ChunkOp(ops[i], banner, lines)
    ensures writes == if banner then BannerWrites(ops) else []
  {
    next := ops;
    writes := [];
    var i := 0;
    while i < |next|
      invariant i <= |next| == |ops|
      invariant forall j :: 0 <= j < i ==> next[j] == ChunkOp(ops[j], banner, lines)
      invariant forall j :: i <= j < |next| ==> next[j] == ops[j]
      invariant writes == if banner then BannerWrites(ops[..i]) else []
    {
      var op := next[i];
      var r := op;
      if op.stage == AwaitingBanner && banner {
        writes := writes + CommandLines(op.commands);
        r := op.(stage := Writing);
      } else if op.stage == Listening {
        var verdict, offered := OfferLines(lines, op.matcher);
        if !verdict.NoMatch? {
          r := op.(stage := Detached, timer := false, result := Settle(op.result, verdict));
        }
      }
      assert r == ChunkOp(ops[i], banner, lines);
      BannerWritesStep(ops, i);
      next := next[i := r];
      i := i + 1;
    }
    assert ops[..|ops|] == ops;
  }

  /** The banner writes of one more operation are those of the earlier ones followed by
      its own. */
  lemma BannerWritesStep<T>(ops: seq<Op<T>>, i: nat)
    requires i < |ops|
    ensures BannerWrites(ops[..i + 1])
            == BannerWrites(ops[..i]) + (if ops[i].stage == AwaitingBanner then CommandLines(ops[i].commands) else [])
  {
    assert ops[..i + 1][..i] == ops[..i];
  }

  /** Which output stream a chunk came from. */
  datatype Stream = Stdout | Stderr

  /** A chunk preserves what holds of every operation. */
  lemma ChunkKeepsValid<T>(ops: seq<Op<T>>, ops': seq<Op<T>>, ready: bool, ready': bool,
                           hasProc: bool, banner: bool, lines: seq<string>)
    requires |ops'| == |ops| && hasProc && (ready ==> ready')
    requires forall i :: 0 <= i < |ops| ==> OpWf(ops[i], ready, hasProc)
    requires forall i :: 0 <= i < |ops| ==> ops'[i] == ChunkOp(ops[i], banner, lines)
    requires ready' == (ready || (banner && AnyAt(ops, AwaitingBanner)))
    ensures forall i :: 0 <= i < |ops| ==> OpWf(ops'[i], ready', hasProc)
    ensures forall i :: 0 <= i < |ops| ==> Keeps(ops[i], ops'[i])
  {
    forall i | 0 <= i < |ops|
      ensures OpWf(ops'[i], ready', hasProc)
    {
      if ops[i].stage == AwaitingBanner && !banner {
        assert !ready';
      }
    }
  }
}
