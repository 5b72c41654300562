/** Whole runs of the two classes, from construction through a sequence of events, with
    what the caller observes at the end. */
module Scenarios {
  import opened Wrappers
  import opened JsString
  import opened Command
  import Manager
  import Player

  /** A `processData` that resolves with 7 on an `ANS_x` line and ignores everything else. */
  function AnswerSeven(line: string): Manager.Verdict<int>
  {
    if line == "ANS_x" then Manager.Resolve(7) else Manager.NoMatch
  }

  /** A `processData` that rejects with `boo!` on any line. */
  function Boo(line: string): Manager.Verdict<int>
  {
    Manager.Reject(Manager.Text("boo!"))
  }

  /** A one-line chunk that includes the banner is a chunk with the banner. */
  lemma {:induction false} BannerChunk(chunk: string)
    requires '\n' !in chunk && Contains(chunk, ReadyBanner)
    ensures Split(chunk, '\n') == [chunk]
    ensures Manager.HasBanner(Split(chunk, '\n'))
  {
    SplitWithoutSeparator(chunk, '\n');
    assert Split(chunk, '\n')[0] == chunk;
  }

  /** Every string includes itself. */
  lemma ContainsItself(s: string)
    ensures Contains(s, s)
  {
    assert s[..|s|] == s;
  }

  /** A string that includes `sub` holds each of its characters. */
  lemma {:induction false} ContainedCharacter(s: string, sub: string, k: nat)
    requires k < |sub|
    ensures Contains(s, sub) ==> sub[k] in s
  {
    ContainsIff(s, sub);
    if Contains(s, sub) {
      var i: nat :| OccursAt(s, sub, i);
      assert s[i + k] == s[i..i + |sub|][k];
    }
  }

  /** The playback banner holds no capital M, so it does not include the readiness banner. */
  lemma PlaybackIsNotReady()
    ensures !Contains(Player.PlaybackBanner, ReadyBanner)
  {
    assert forall i :: 0 <= i < |Player.PlaybackBanner| ==> Player.PlaybackBanner[i] != 'M';
    ContainedCharacter(Player.PlaybackBanner, ReadyBanner, 9);
    assert ReadyBanner[9] == 'M';
  }

  /** While one critical operation is outstanding, a second one is refused with the busy
      message and the first keeps the gate. */
  method SecondCriticalIsRefused() returns (first: Manager.Launch, second: Manager.Launch, busy: bool)
    ensures first == Manager.Started(0)
    ensures second == Manager.Refused(Manager.Text(Manager.BusyMessage))
    ensures busy
  {
    var m := new Manager.MPlayerManager<int>();
    first := m.DoCriticalOperation([], AnswerSeven, 0);
    second := m.DoCriticalOperation([], AnswerSeven, 0);
    busy := m.busy;
  }

  /** A critical operation on a fresh manager, taken to the point where its commands
      have been written: the process is spawned and shows its banner. */
  method ReachWriting(m: Manager.MPlayerManager<int>, commands: seq<seq<Arg>>,
                      matcher: string -> Manager.Verdict<int>, timeout: nat, chunk: string)
    requires m.Valid() && !m.busy && !m.ready && m.proc == None
    requires m.ops == [] && m.written == []
    requires '\n' !in chunk && Contains(chunk, ReadyBanner)
    modifies m
    ensures m.Valid() && m.busy && m.ready && m.proc.Some?
    ensures m.ops == [Manager.Op(true, commands, matcher, timeout, Manager.Writing, false, Manager.Pending)]
    ensures m.written == Manager.CommandLines(commands)
  {
    var launch := m.DoCriticalOperation(commands, matcher, timeout);
    assert m.ops[0].stage == Manager.AwaitingSpawn;
    m.Spawn();
    BannerChunk(chunk);
    ghost var waiting := m.ops;
    m.Chunk(Manager.Stdout, chunk);
    assert waiting[..0] == [];
  }

  /** A one-line chunk the operation listens to, for a manager with one operation. */
  method Answer(m: Manager.MPlayerManager<int>, line: string)
    requires m.Valid() && m.proc.Some? && |m.ops| == 1 && m.ops[0].stage == Manager.Listening
    requires '\n' !in line && !Contains(line, ReadyBanner)
    modifies m
    ensures m.Valid() && |m.ops| == 1
    ensures var op := old(m.ops[0]);
            var v := op.matcher(line);
            m.ops[0] == (if v.NoMatch? then op
                         else op.(stage := Manager.Detached, timer := false,
                                  result := Manager.Settle(op.result, v)))
    ensures m.busy == (old(m.busy) && Manager.HasPendingCritical(m.ops))
    ensures m.written == old(m.written)
  {
    SplitWithoutSeparator(line, '\n');
    assert Split(line, '\n') == [line];
    assert !Manager.HasBanner([line]);
    ghost var op := m.ops[0];
    assert Manager.FirstVerdict([line], op.matcher, 1) == (Manager.NoMatch, 1);
    assert Manager.FirstVerdict([line], op.matcher, 0).0 == op.matcher(line);
    m.Chunk(Manager.Stdout, line);
  }

  /** A critical operation on a fresh manager: the process is spawned, its banner lets
      the commands be written, the answer line resolves the operation, the gate opens and
      the next critical operation is accepted; no timer was armed. */
  method CriticalResolvesAndFreesTheGate(commands: seq<seq<Arg>>, chunk: string)
    returns (written: seq<string>, result: Manager.Cell<int>, busy: bool, next: Manager.Launch)
    requires '\n' !in chunk && Contains(chunk, ReadyBanner)
    ensures written == Manager.CommandLines(commands)
    ensures result == Manager.Resolved(7)
    ensures !busy
    ensures next == Manager.Started(1)
  {
    var m := new Manager.MPlayerManager<int>();
    ReachWriting(m, commands, AnswerSeven, 0, chunk);
    m.WritesDone(0);
    assert !m.ops[0].timer;
    Answer(m, "ANS_x");
    assert !Manager.HasPendingCritical(m.ops);
    written := m.written;
    result := m.ops[0].result;
    busy := m.busy;
    next := m.DoCriticalOperation([], AnswerSeven, 0);
  }

  /** A critical operation whose `processData` rejects: the promise is rejected with that
      reason and the gate opens. */
  method CriticalRejectsAndFreesTheGate(chunk: string) returns (result: Manager.Cell<int>, busy: bool)
    requires '\n' !in chunk && Contains(chunk, ReadyBanner)
    ensures result == Manager.Rejected(Manager.Text("boo!"))
    ensures !busy
  {
    var m := new Manager.MPlayerManager<int>();
    ReachWriting(m, [], Boo, 0, chunk);
    m.WritesDone(0);
    Answer(m, "ANS_x");
    assert !Manager.HasPendingCritical(m.ops);
    result := m.ops[0].result;
    busy := m.busy;
  }

  /** An operation with a nonzero timeout arms its timer once its commands are written;
      the timer rejects it with `Timed out` and opens the gate. */
  method TimeoutRejects(chunk: string) returns (result: Manager.Cell<int>, busy: bool)
    requires '\n' !in chunk && Contains(chunk, ReadyBanner)
    ensures result == Manager.Rejected(Manager.Text(Manager.TimedOutMessage))
    ensures !busy
  {
    var m := new Manager.MPlayerManager<int>();
    ReachWriting(m, [], AnswerSeven, 500, chunk);
    m.WritesDone(0);
    assert m.ops[0].timer;
    m.TimerFires(0);
    assert !Manager.HasPendingCritical(m.ops);
    result := m.ops[0].result;
    busy := m.busy;
  }

  /** `shutdown` without a process resolves at once and kills nothing. */
  method ShutdownWithoutProcess() returns (result: Manager.Cell<()>, kills: seq<nat>)
    ensures result == Manager.Resolved(())
    ensures kills == []
  {
    var m := new Manager.MPlayerManager<int>();
    var id := m.Shutdown();
    result := m.shutdowns[id];
    kills := m.kills;
  }

  /** `shutdown` of a running process kills it once and resolves when it exits; the
      operation still waiting for its banner is rejected with the exit message. */
  method ShutdownThenExit() returns (result: Manager.Cell<()>, kills: seq<nat>, op: Manager.Cell<int>)
    ensures result == Manager.Resolved(())
    ensures kills == [0]
    ensures op == Manager.Rejected(Manager.Text(Manager.ExitMessage(Some(1), Some("signal"))))
  {
    var m := new Manager.MPlayerManager<int>();
    var id := m.DoOperation([], AnswerSeven, 0);
    assert m.ops[id].stage == Manager.AwaitingSpawn;
    m.Spawn();
    var s := m.Shutdown();
    m.Exit(Some(1), Some("signal"));
    result := m.shutdowns[s];
    kills := m.kills;
    op := m.ops[id].result;
  }

  /** `shutdown` of a running process that then fails: killed once, rejected with the
      failure. */
  method ShutdownThenError() returns (result: Manager.Cell<()>, kills: seq<nat>)
    ensures result == Manager.Rejected(Manager.Failure("failed to shutdown"))
    ensures kills == [0]
  {
    var m := new Manager.MPlayerManager<int>();
    var id := m.DoOperation([], AnswerSeven, 0);
    assert m.ops[id].stage == Manager.AwaitingSpawn;
    m.Spawn();
    var s := m.Shutdown();
    m.Error("failed to shutdown");
    result := m.shutdowns[s];
    kills := m.kills;
  }

  /** An `openFile` issued before the engine is ready: nothing is written until a chunk
      with the readiness banner, then its `loadfile` line; a later chunk announcing
      playback resolves it. The two banners themselves are such chunks. */
  method OpenBeforeReady(fileName: string, readyChunk: string, playChunk: string)
    returns (before: seq<string>, after: seq<string>, playing: bool, stage: Player.OpenStage)
    requires Contains(readyChunk, ReadyBanner)
    requires !Contains(playChunk, ReadyBanner) && Contains(playChunk, Player.PlaybackBanner)
    ensures before == []
    ensures after == [Player.LoadfilePrefix + fileName + Player.LoadfileSuffix]
    ensures playing && stage == Player.Started
  {
    var p := new Player.MPlayer();
    var id := p.OpenFile(fileName);
    before := p.written;
    p.OnData(readyChunk);
    Player.LoadfileCommandText(fileName);
    after := p.written;
    assert p.playSlot == Some(0);
    p.OnData(playChunk);
    playing := p.isPlaying;
    stage := p.opens[id].stage;
  }

  /** The playback banner is a chunk that announces playback without the readiness
      banner, and the readiness banner is a chunk that carries it. */
  lemma BannersAreChunks()
    ensures Contains(ReadyBanner, ReadyBanner)
    ensures !Contains(Player.PlaybackBanner, ReadyBanner)
    ensures Contains(Player.PlaybackBanner, Player.PlaybackBanner)
  {
    ContainsItself(ReadyBanner);
    PlaybackIsNotReady();
    ContainsItself(Player.PlaybackBanner);
  }
}
