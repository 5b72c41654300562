/** The early `MPlayer` wrapper: a process started once, a readiness promise resolved by
    the engine's banner, and `openFile` requests that write a `loadfile` command once
    the engine is ready and resolve when playback starts. Only the most recent request
    can be resolved, because each one overwrites the single pending slot. */
module Player {
  import opened Wrappers
  import opened JsString
  import opened Command

  const PlaybackBanner: string := "CPLAYER: Starting playback..."
  const LoadfilePrefix: string := "loadfile \""
  const LoadfileSuffix: string := "\"\n"

  /** The line `openFile` has `exec` write: the `loadfile` command with the file name
      in double quotes. */
  function LoadfileCommand(fileName: string): string
  {
    CommandLine(["loadfile", "\"" + fileName + "\""])
  }

  /** The command line is exactly `loadfile "<name>"` followed by a line feed. */
  lemma LoadfileCommandText(fileName: string)
    ensures LoadfileCommand(fileName) == LoadfilePrefix + fileName + LoadfileSuffix
  {
    var parts := ["loadfile", "\"" + fileName + "\""];
    assert parts[1..] == ["\"" + fileName + "\""];
    assert Join(parts, " ") == "loadfile" + " " + ("\"" + fileName + "\"");
  }

  /** The file name a `loadfile` command line asks for, if the line is one. */
  function LoadfileName(line: string): Option<string>
  {
    var p := |LoadfilePrefix|;
    if |line| >= p + |LoadfileSuffix| && line[..p] == LoadfilePrefix
       && line[|line| - |LoadfileSuffix|..] == LoadfileSuffix
    then Some(line[p..|line| - |LoadfileSuffix|])
    else None
  }

  /** Reading the file name back from the command line gives the name it was built from,
      and a line that reads back to a name is that name's command line. */
  lemma LoadfileRoundTrip(fileName: string, line: string)
    ensures LoadfileName(LoadfileCommand(fileName)) == Some(fileName)
    ensures LoadfileName(line) == Some(fileName) ==> LoadfileCommand(fileName) == line
  {
    LoadfileCommandText(fileName);
    var c := LoadfilePrefix + fileName + LoadfileSuffix;
    assert c[..|LoadfilePrefix|] == LoadfilePrefix;
    assert c[|c| - |LoadfileSuffix|..] == LoadfileSuffix;
    assert c[|LoadfilePrefix|..|c| - |LoadfileSuffix|] == fileName;
    if LoadfileName(line) == Some(fileName) {
      var p := |LoadfilePrefix|;
      var q := |line| - |LoadfileSuffix|;
      assert line == line[..p] + line[p..q] + line[q..];
    }
  }

  /** Where an `openFile` request is: waiting for readiness, loading (its command was
      written and its promise is pending), or started (its promise resolved). */
  datatype OpenStage = WaitingReady | Loading | Started

  datatype Open = Open(fileName: string, stage: OpenStage)

  /** The `loadfile` lines of the given requests, in order. */
  function LoadLines(opens: seq<Open>): seq<string>
  {
    seq(|opens|, i requires 0 <= i < |opens| => LoadfileCommand(opens[i].fileName))
  }

  class MPlayer {
    /** Playback has started. */
    var isPlaying: bool
    /** The readiness promise has resolved. */
    var readyResolved: bool
    /** The request whose `resolve` sits in `playResolve`, if any. */
    var playSlot: Option<nat>
    /** Every `openFile` request, in order. */
    var opens: seq<Open>
    /** The lines written to the process's standard input, in order. */
    var written: seq<string>

    /** Before readiness every request waits and nothing has been written; afterwards every
        request's command has been written, in request order. Only the latest request
        can sit in the slot, and playing means some request has started. */
    ghost predicate Valid()
      reads this
    {
      (playSlot.Some? ==> playSlot.value == |opens| - 1 && opens[playSlot.value].stage == Loading)
      && (forall i :: 0 <= i < |opens| ==> (opens[i].stage == WaitingReady <==> !readyResolved))
      && written == (if readyResolved then LoadLines(opens) else [])
      && (isPlaying ==> exists i :: 0 <= i < |opens| && opens[i].stage == Started)
    }

    /** The constructor: nothing is playing and the engine is not ready yet. */
    constructor()
      ensures Valid()
      ensures !isPlaying && !readyResolved && playSlot == None
      ensures opens == [] && written == []
    {
      isPlaying := false;
      readyResolved := false;
      playSlot := None;
      opens := [];
      written := [];
    }

    /** `openFile`: once ready, writes `loadfile "<name>"` and puts the new request in the
        slot; before that, the request waits for readiness. */
    method OpenFile(fileName: string) returns (id: nat)
      requires Valid()
      modifies this
      ensures Valid()
      ensures id == |old(opens)|
      ensures opens == old(opens) + [Open(fileName, if readyResolved then Loading else WaitingReady)]
      ensures old(readyResolved) ==>
                written == old(written) + [LoadfileCommand(fileName)] && playSlot == Some(id)
      ensures !old(readyResolved) ==> written == old(written) && playSlot == old(playSlot)
      ensures isPlaying == old(isPlaying) && readyResolved == old(readyResolved)
    {
      id := |opens|;
      ghost var opens0 := opens;
      if readyResolved {
        opens := opens + [Open(fileName, Loading)];
        written := written + [LoadfileCommand(fileName)];
        playSlot := Some(id);
        assert LoadLines(opens) == LoadLines(opens0) + [LoadfileCommand(fileName)];
      } else {
        opens := opens + [Open(fileName, WaitingReady)];
      }
      assert forall i :: 0 <= i < |opens0| ==> opens[i] == opens0[i];
      if isPlaying {
        ghost var k :| 0 <= k < |opens0| && opens0[k].stage == Started;
        assert opens[k].stage == Started;
      }
    }

    /** `onData`: a chunk with the readiness banner resolves readiness (the first time),
        which lets every waiting request write its command, the last one ending in the
        slot; nothing else happens, even if the chunk also announces playback. Otherwise
        a chunk announcing playback resolves the request in the slot, empties the slot and
        marks the player as playing; with an empty slot it changes nothing. */
    method OnData(chunk: string)
      requires Valid()
      modifies this
      ensures Valid()
      ensures Contains(chunk, ReadyBanner) ==>
                readyResolved && isPlaying == old(isPlaying)
                && |opens| == |old(opens)|
                && (forall i :: 0 <= i < |opens| ==>
                      opens[i] == (if old(opens)[i].stage == WaitingReady
                                   then old(opens)[i].(stage := Loading) else old(opens)[i]))
                && (old(readyResolved) ==> written == old(written) && playSlot == old(playSlot))
                && (!old(readyResolved) ==>
                      written == LoadLines(old(opens))
                      && playSlot == (if |opens| > 0 then Some(|opens| - 1) else None))
      ensures !Contains(chunk, ReadyBanner) && Contains(chunk, PlaybackBanner) && old(playSlot).Some? ==>
                opens == old(opens)[old(playSlot).value := old(opens)[old(playSlot).value].(stage := Started)]
                && playSlot == None && isPlaying
                && readyResolved == old(readyResolved) && written == old(written)
      ensures !Contains(chunk, ReadyBanner) && (!Contains(chunk, PlaybackBanner) || old(playSlot).None?) ==>
                opens == old(opens) && playSlot == old(playSlot) && isPlaying == old(isPlaying)
                && readyResolved == old(readyResolved) && written == old(written)
    {
      if Contains(chunk, ReadyBanner) {
        ResolveReady();
      } else if Contains(chunk, PlaybackBanner) {
        if playSlot.Some? {
          ResolvePlayback();
        }
      }
    }

    /** `readyResolve()`: the first call lets every waiting request write its command, in
        order, each overwriting the slot; later calls change nothing. */
    method ResolveReady()
      requires Valid()
      modifies this
      ensures Valid()
      ensures readyResolved && isPlaying == old(isPlaying)
      ensures |opens| == |old(opens)|
      ensures forall i :: 0 <= i < |opens| ==>
                opens[i] == (if old(opens)[i].stage == WaitingReady
                             then old(opens)[i].(stage := Loading) else old(opens)[i])
      ensures old(readyResolved) ==> written == old(written) && playSlot == old(playSlot)
      ensures !old(readyResolved) ==>
                written == LoadLines(old(opens))
                && playSlot == (if |opens| > 0 then Some(|opens| - 1) else None)
    {
      if !readyResolved {
        // Before the banner every request is still waiting, so none has started and
        // nothing is in the slot or written yet.
        assert !isPlaying && playSlot.None? && written == [];
        var opens0 := opens;
        readyResolved := true;
        opens := seq(|opens0|, i requires 0 <= i < |opens0| => opens0[i].(stage := Loading));
        written := written + LoadLines(opens0);
        playSlot := if |opens| > 0 then Some(|opens| - 1) else None;
        assert LoadLines(opens) == LoadLines(opens0);
      }
    }

    /** `playResolve()` on the request in the slot, which is then emptied; the player is
        now playing. */
    method ResolvePlayback()
      requires Valid() && playSlot.Some?
      modifies this
      ensures Valid()
      ensures opens == old(opens)[old(playSlot).value := old(opens)[old(playSlot).value].(stage := Started)]
      ensures playSlot == None && isPlaying
      ensures readyResolved == old(readyResolved) && written == old(written)
    {
      var slot := playSlot.value;
      ghost var opens0 := opens;
      opens := opens[slot := opens[slot].(stage := Started)];
      playSlot := None;
      isPlaying := true;
      assert opens[slot].stage == Started;
      assert LoadLines(opens) == LoadLines(opens0);
    }
  }
}
