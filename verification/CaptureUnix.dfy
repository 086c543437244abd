/**
 Stdio capture on Unix. The descriptor table maps descriptors to open file
 descriptions. Which system calls fail is an input, the set of failing calls;
 each of them is made at most once between `begin` and `end`. A failed call
 changes nothing, and an abort ends the process.
 */
module CaptureUnix {
  import opened Instance
  import opened FreshNumbers

  datatype Saved = Saved(stdout: nat, stderr: nat)

  predicate Slot(fd: nat) { fd == 1 || fd == 2 }

  datatype Call =
    | DupOut | DupErr             // the snapshot
    | MakePipe
    | MoveOut | MoveErr           // a slot goes to the pipe
    | UndoOut                     // and back, when the other one failed
    | Spawn                       // the drain thread
    | BackOut | BackErr           // the restore

  /** How `begin` ends. */
  datatype Begun = SaveFailed | PipeFailed | RedirectFailed | SpawnFailed | Capturing

  // ---- Which failures lead where

  predicate Saves(faults: set<Call>) { DupOut !in faults && DupErr !in faults }

  predicate Redirects(faults: set<Call>) { MoveOut !in faults && MoveErr !in faults }

  /** The first slot has moved, the second does not, and the first does not move back. */
  predicate RedirectAborts(faults: set<Call>) {
    MoveOut !in faults && MoveErr in faults && UndoOut in faults
  }

  predicate Captures(faults: set<Call>) {
    Saves(faults) && MakePipe !in faults && Redirects(faults) && Spawn !in faults
  }

  predicate LeaksSnapshot(faults: set<Call>) { Saves(faults) && MakePipe in faults }

  predicate LeavesRedirected(faults: set<Call>) {
    Saves(faults) && MakePipe !in faults && Redirects(faults) && Spawn in faults
  }

  predicate RestoreFails(faults: set<Call>) { BackOut in faults || BackErr in faults }

  lemma OneFailure(faults: set<Call>, a: Call, b: Call)
    requires |faults| <= 1 && a != b
    ensures a !in faults || b !in faults
  {
    if a in faults && b in faults { SubsetCount({a, b}, faults); }
  }

  lemma SubsetCount(few: set<Call>, all: set<Call>)
    requires few <= all
    ensures |few| <= |all|
  {
    assert all == few + (all - few);
  }

  function MapSlot(fds: map<nat, nat>, slot: nat, from: nat, failed: bool): map<nat, nat>
    requires from in fds
  {
    if failed then fds else fds[slot := fds[from]]
  }

  /** The process, with the fields of its one capture guard. */
  class Process {
    var fds: map<nat, nat>
    var children: set<nat>        // descriptions held open by other processes
    var aborted: bool
    var saved: Option<Saved>
    var reader: Option<nat>       // owned by the drain thread
    var pipe: nat                 // description of the pipe's write end

    constructor (fds: map<nat, nat>, children: set<nat>)
      ensures this.fds == fds && this.children == children && !aborted && saved.None? && reader.None?
    {
      this.fds, this.children, aborted, saved, reader, pipe := fds, children, false, None, None, 0;
    }

    // ---- System calls

    method Dup(fd: nat, fails: bool) returns (r: Option<nat>)
      requires fd in fds
      modifies this`fds
      ensures r.None? <==> fails
      ensures r.None? ==> fds == old(fds)
      ensures r.Some? ==> r.value !in old(fds) && fds == old(fds)[r.value := old(fds)[fd]]
    {
      if fails { return None; }
      ghost var n := UnusedNumber(fds.Keys);
      var free: nat :| free !in fds;
      fds := fds[free := fds[fd]];
      return Some(free);
    }

    method Dup2(from: nat, to: nat, fails: bool) returns (ok: bool)
      requires from in fds
      modifies this`fds
      ensures ok <==> !fails
      ensures fds == MapSlot(old(fds), to, from, fails)
    {
      if fails { return false; }
      fds := fds[to := fds[from]];
      return true;
    }

    method Close(fd: nat)
      modifies this`fds
      ensures fds == old(fds) - {fd}
    {
      fds := fds - {fd};
    }

    /** Reader and writer descriptors; the write end is a description nobody else has. */
    method Pipe(fails: bool) returns (r: Option<(nat, nat)>)
      modifies this`fds, this`pipe
      ensures r.None? <==> fails
      ensures r.None? ==> fds == old(fds)
      ensures r.Some? ==> r.value.0 !in old(fds) && r.value.1 !in old(fds) && r.value.0 != r.value.1
                          && pipe !in old(fds).Values && pipe !in children
                          && r.value.0 in fds && fds[r.value.0] != pipe
                          && fds == old(fds)[r.value.0 := fds[r.value.0]][r.value.1 := pipe]
    {
      if fails { return None; }
      ghost var n := UnusedNumber(fds.Keys);
      var rd: nat :| rd !in fds;
      n := UnusedNumber(fds.Keys + {rd});
      var wr: nat :| wr !in fds.Keys + {rd};
      n := UnusedNumber(fds.Values + children);
      var dout: nat :| dout !in fds.Values + children;
      n := UnusedNumber(fds.Values + children + {dout});
      var din: nat :| din !in fds.Values + children + {dout};
      fds := fds[rd := din][wr := dout];
      pipe := dout;
      return Some((rd, wr));
    }

    // ---- Save, redirect, restore

    /** The source takes both slots to be open. */
    method Save(faults: set<Call>) returns (r: Option<Saved>)
      requires 1 in fds && 2 in fds
      modifies this`fds
      ensures r.Some? <==> Saves(faults)
      ensures r.None? ==> fds == old(fds)
      ensures r.Some? ==>
                && r.value.stdout !in old(fds) && r.value.stderr !in old(fds) && r.value.stdout != r.value.stderr
                && fds == old(fds)[r.value.stdout := old(fds)[1]][r.value.stderr := old(fds)[2]]
    {
      var stdout := Dup(1, DupOut in faults);
      if stdout.None? { return None; }
      var stderr := Dup(2, DupErr in faults);
      if stderr.None? {
        Close(stdout.value);
        assert fds == old(fds);
        return None;
      }
      return Some(Saved(stdout.value, stderr.value));
    }

    /** The snapshot still holds what the two slots refer to. */
    predicate Snapshot(s: Saved)
      reads this
    {
      && 1 in fds && 2 in fds && s.stdout in fds && s.stderr in fds
      && !Slot(s.stdout) && !Slot(s.stderr) && s.stdout != s.stderr
      && fds[s.stdout] == fds[1] && fds[s.stderr] == fds[2]
    }

    /** All or nothing, or abort, and exactly when; the writer descriptor is consumed unless the process aborts. */
    method RedirectToPipe(writer: nat, s: Saved, faults: set<Call>) returns (ok: bool)
      requires Snapshot(s) && writer in fds && !Slot(writer) && writer != s.stdout && writer != s.stderr && !aborted
      modifies this`fds, this`aborted
      ensures ok <==> Redirects(faults)
      ensures aborted <==> RedirectAborts(faults)
      ensures ok ==> fds == old(fds)[1 := old(fds)[writer]][2 := old(fds)[writer]] - {writer}
      ensures !ok && !aborted ==> fds == old(fds) - {writer}
    {
      ok := Dup2(writer, 1, MoveOut in faults);
      if !ok {
        Close(writer);
        return;
      }
      ok := Dup2(writer, 2, MoveErr in faults);
      if !ok {
        var undone := Dup2(s.stdout, 1, UndoOut in faults);
        if !undone {
          aborted := true;
          return;
        }
        Close(writer);
        return;
      }
      Close(writer);
    }

    /** Both slots are attempted even when the first fails. */
    method Restore(s: Saved, faults: set<Call>) returns (ok: bool)
      requires !Slot(s.stdout) && !Slot(s.stderr) && s.stdout in fds && s.stderr in fds
      modifies this`fds
      ensures ok <==> !RestoreFails(faults)
      ensures fds == MapSlot(MapSlot(old(fds), 1, s.stdout, BackOut in faults), 2, s.stderr, BackErr in faults)
    {
      var first := Dup2(s.stdout, 1, BackOut in faults);
      var second := Dup2(s.stderr, 2, BackErr in faults);
      ok := first && second;
    }

    method CloseSaved(s: Saved)
      modifies this`fds
      ensures fds == old(fds) - {s.stdout, s.stderr}
    {
      Close(s.stdout);
      Close(s.stderr);
    }

    // ---- The guard

    /** What the guard needs of the table; the test body may have changed everything else. */
    ghost predicate InCapture()
      reads this
    {
      && saved.Some? && reader.Some?
      && !Slot(saved.value.stdout) && !Slot(saved.value.stderr) && saved.value.stdout != saved.value.stderr
      && saved.value.stdout in fds && saved.value.stderr in fds
      && reader.value in fds && !Slot(reader.value)
      && reader.value != saved.value.stdout && reader.value != saved.value.stderr
    }

    /** Two new descriptors hold what the slots referred to in `before`; the rest is `base`. */
    ghost predicate Leaked(before: map<nat, nat>, base: map<nat, nat>)
      requires 1 in before && 2 in before
      reads this
    {
      exists a: nat, b: nat ::
        a !in before && b !in before && a != b && fds == base[a := before[1]][b := before[2]]
    }

    /** From this table, the slots have moved to a pipe that nothing referred to. */
    ghost predicate Redirected(before: map<nat, nat>, s: Saved, rd: nat)
      reads this
    {
      && 1 in before && 2 in before && s.stdout !in before && s.stderr !in before && s.stdout != s.stderr
      && rd !in before && rd != s.stdout && rd != s.stderr && rd in fds && fds[rd] != pipe
      && pipe !in before.Values && pipe !in children
      && fds == before[s.stdout := before[1]][s.stderr := before[2]][1 := pipe][2 := pipe][rd := fds[rd]]
    }

    /** Everything `begin` does before it spawns the drain thread. */
    method Redirect(faults: set<Call>) returns (r: Begun, s: Saved, rd: nat)
      requires !aborted && 1 in fds && 2 in fds
      modifies this`fds, this`aborted, this`pipe
      ensures r.SaveFailed? <==> !Saves(faults)
      ensures r.PipeFailed? <==> LeaksSnapshot(faults)
      ensures r.Capturing? <==> Saves(faults) && MakePipe !in faults && Redirects(faults)
      ensures aborted <==> Saves(faults) && MakePipe !in faults && RedirectAborts(faults)
      ensures !r.SpawnFailed?
      ensures r.SaveFailed? || (r.RedirectFailed? && !aborted) ==> fds == old(fds)
      ensures r.PipeFailed? ==> Leaked(old(fds), old(fds))
      ensures r.Capturing? ==> Redirected(old(fds), s, rd)
    {
      ghost var before: map<nat, nat> := fds;
      s, rd := Saved(0, 0), 0;
      var sv := Save(faults);
      if sv.None? { return SaveFailed, s, rd; }
      s := sv.value;
      forall k | k in before ensures before[k] in fds.Values { assert fds[k] == before[k]; }
      var p := Pipe(MakePipe in faults);
      if p.None? { return PipeFailed, s, rd; }
      rd := p.value.0;
      var ok := RedirectToPipe(p.value.1, s, faults);
      if aborted { return RedirectFailed, s, rd; }
      if !ok {
        Close(rd);
        CloseSaved(s);
        assert fds == before;
        return RedirectFailed, s, rd;
      }
      assert fds == before[s.stdout := before[1]][s.stderr := before[2]][1 := pipe][2 := pipe][rd := fds[rd]];
      r := Begun.Capturing;
    }

    /**
     The outcome for every set of failing calls, and the table it leaves. Where
     nothing is captured and the process lives on, the table is as it was unless
     it was the pipe or the spawn that failed.
     */
    method Begin(faults: set<Call>) returns (r: Begun)
      requires !aborted && saved.None? && reader.None? && 1 in fds && 2 in fds
      modifies this
      ensures children == old(children)
      ensures r.SaveFailed? <==> !Saves(faults)
      ensures r.PipeFailed? <==> LeaksSnapshot(faults)
      ensures r.SpawnFailed? <==> LeavesRedirected(faults)
      ensures r.Capturing? <==> Captures(faults)
      ensures aborted <==> Saves(faults) && MakePipe !in faults && RedirectAborts(faults)
      ensures |faults| <= 1 ==> !aborted
      ensures faults == {MoveOut} || faults == {MoveErr} ==> r.RedirectFailed? && fds == old(fds)
      ensures faults == {MoveErr, UndoOut} ==> aborted
      ensures !aborted && !r.Capturing? ==>
                (fds == old(fds) <==> !LeaksSnapshot(faults) && !LeavesRedirected(faults))
      ensures LeaksSnapshot(faults) ==> Leaked(old(fds), old(fds))
      ensures LeavesRedirected(faults) ==>
                pipe !in old(fds).Values && 1 in fds && 2 in fds && fds[1] == fds[2] == pipe
                && Leaked(old(fds), BothTo(old(fds), pipe))
      ensures r.Capturing? ==> InCapture() && Redirected(old(fds), saved.value, reader.value)
      ensures !r.Capturing? ==> saved.None? && reader.None?
    {
      if |faults| <= 1 { OneFailure(faults, MoveErr, UndoOut); }
      var s, rd;
      r, s, rd := Redirect(faults);
      if !r.Capturing? { return; }
      if Spawn in faults {
        Close(rd);
        ghost var before: map<nat, nat> := old(fds);
        assert fds == before[1 := pipe][2 := pipe][s.stdout := before[1]][s.stderr := before[2]];
        assert s.stdout in fds;
        return SpawnFailed;
      }
      saved, reader := Some(s), Some(rd);
    }

    /** Restores both slots, then releases the snapshot; aborts exactly when a restoring call fails. */
    method PutBack(s: Saved, faults: set<Call>)
      requires !aborted && !Slot(s.stdout) && !Slot(s.stderr) && s.stdout != s.stderr
      requires s.stdout in fds && s.stderr in fds
      modifies this`fds, this`aborted
      ensures aborted <==> RestoreFails(faults)
      ensures !aborted ==>
                fds == old(fds)[1 := old(fds)[s.stdout]][2 := old(fds)[s.stderr]] - {s.stdout, s.stderr}
    {
      var ok := Restore(s, faults);
      if !ok {
        aborted := true;
        return;
      }
      CloseSaved(s);
    }

    /**
     The slots are back or, exactly on a failing restore, the process aborts.
     Whatever else refers to the pipe did so before. The drain ends at EOF.
     */
    method End(faults: set<Call>) returns (drained: bool)
      requires !aborted && InCapture()
      modifies this
      ensures children == old(children) && pipe == old(pipe) && saved.None? && reader.None?
      ensures aborted <==> RestoreFails(faults)
      ensures (faults == {} ==> !aborted) && (faults == {BackOut} || faults == {BackErr} ==> aborted)
      ensures !aborted ==>
                var s, rd := old(saved).value, old(reader).value;
                && fds == old(fds)[1 := old(fds)[s.stdout]][2 := old(fds)[s.stderr]] - {s.stdout, s.stderr}
                          - (if drained then {rd} else {})
                && (drained <==> pipe !in children && OthersFree(old(fds), s, pipe))
    {
      var s := saved.value;
      saved := None;
      PutBack(s, faults);
      if aborted { reader := None; return false; }
      ghost var was := old(fds);
      SlotsOnly(was, s, pipe, fds);
      drained := Joined();
      if drained { Close(reader.value); }
      reader := None;
      Drop(faults);
    }

    /** End of file: nobody holds the write end. */
    method Joined() returns (eof: bool)
      ensures eof <==> pipe !in children && pipe !in fds.Values
    {
      eof := pipe !in children && pipe !in fds.Values;
    }

    /** A no-op after `End`; otherwise the same restore, without waiting for the drain. */
    method Drop(faults: set<Call>)
      requires saved.Some? ==> !aborted && InCapture()
      modifies this
      ensures children == old(children) && pipe == old(pipe) && saved.None?
      ensures old(saved).None? ==> fds == old(fds) && aborted == old(aborted) && reader == old(reader)
      ensures old(saved).Some? ==>
                var s := old(saved).value;
                && reader.None? && (aborted <==> RestoreFails(faults))
                && (!aborted ==>
                      fds == old(fds)[1 := old(fds)[s.stdout]][2 := old(fds)[s.stderr]] - {s.stdout, s.stderr})
    {
      if saved.None? { return; }
      var s := saved.value;
      saved := None;
      PutBack(s, faults);
      reader := None;
    }

    /**
     A capture around a body that leaves the table alone: with no failing call it
     captures, drains and changes nothing, and a failing restore aborts.
     */
    method Cycle(faults: set<Call>) returns (r: Begun, drained: bool)
      requires !aborted && saved.None? && reader.None? && 1 in fds && 2 in fds
      modifies this
      ensures r.Capturing? <==> Captures(faults)
      ensures Captures(faults) ==> (aborted <==> RestoreFails(faults))
      ensures Captures(faults) && !aborted ==> drained && fds == old(fds)
      ensures faults == {} ==> r.Capturing? && !aborted && drained && fds == old(fds)
      ensures saved.None? && reader.None?
    {
      r := Begin(faults);
      drained := false;
      if r.Capturing? {
        ghost var during := fds;
        ghost var s := saved.value;
        assert OthersFree(during, s, pipe);
        drained := End(faults);
        assert aborted || fds == old(fds);
      }
    }
  }

  function BothTo(fds: map<nat, nat>, target: nat): map<nat, nat> {
    fds[1 := target][2 := target]
  }

  // ---- `begin` is not all or nothing

  /** A failing pipe: no capture, no abort, and two descriptors more than before. */
  method PipeFailureLeaks(before: map<nat, nat>) returns (r: Begun, aborted: bool, after: map<nat, nat>)
    requires 1 in before && 2 in before
    ensures r.PipeFailed? && !aborted && after != before && |after| == |before| + 2
  {
    var p := new Process(before, {});
    r := p.Begin({MakePipe});
    aborted := p.aborted;
    after := p.fds;
    ghost var a: nat, b: nat :|
      a !in before && b !in before && a != b && after == before[a := before[1]][b := before[2]];
    assert after.Keys == before.Keys + {a, b};
  }

  /** A failing spawn: no capture, no abort, and both slots on a pipe nobody had. */
  method SpawnFailureLeavesRedirected(before: map<nat, nat>) returns (r: Begun, aborted: bool, after: map<nat, nat>)
    requires 1 in before && 2 in before
    ensures r.SpawnFailed? && !aborted && 1 in after && 2 in after && after[1] == after[2] && after[1] !in before.Values
  {
    var p := new Process(before, {});
    r := p.Begin({Spawn});
    aborted := p.aborted;
    after := p.fds;
  }

  /** No descriptor but the two slots and the snapshot's refers to this description, nor does the snapshot. */
  ghost predicate OthersFree(fds: map<nat, nat>, s: Saved, pipe: nat) {
    && (forall fd :: fd in fds && fd != 1 && fd != 2 && fd != s.stdout && fd != s.stderr ==> fds[fd] != pipe)
    && (s.stdout in fds ==> fds[s.stdout] != pipe) && (s.stderr in fds ==> fds[s.stderr] != pipe)
  }

  lemma SlotsOnly(was: map<nat, nat>, s: Saved, pipe: nat, now: map<nat, nat>)
    requires !Slot(s.stdout) && !Slot(s.stderr) && s.stdout in was && s.stderr in was
    requires now == was[1 := was[s.stdout]][2 := was[s.stderr]] - {s.stdout, s.stderr}
    ensures pipe !in now.Values <==> OthersFree(was, s, pipe)
  {
    if pipe !in now.Values {
      assert now[1] in now.Values && now[2] in now.Values;
      forall fd | fd in was && fd != 1 && fd != 2 && fd != s.stdout && fd != s.stderr ensures was[fd] != pipe {
        assert now[fd] in now.Values;
      }
    }
  }
}
