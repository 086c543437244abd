/**
 Stdio capture on Windows, where Rust writes through the two Win32 slots and C
 code through the C runtime's descriptors 1 and 2, so that four slots move
 together. A Win32 slot holds a handle value, which dangles once the handle is
 closed; a C runtime descriptor has a reference of its own. Which calls fail is
 an input, as on Unix.
 */
module CaptureWindows {
  import opened Instance
  import opened FreshNumbers

  /** The handle values are borrowed, the two C runtime descriptors owned. */
  datatype Saved = Saved(outHandle: nat, errHandle: nat, outCrt: nat, errCrt: nat)

  /** The steps of a redirect that have been taken. */
  datatype Rollback = Rollback(outHandleSet: bool, errHandleSet: bool, outCrtSet: bool, errCrtSet: bool)

  datatype Begun = SaveFailed | PipeFailed | RedirectFailed | SpawnFailed | Capturing

  /** The writers that back the Win32 slots during a capture. */
  datatype Live = Live(outWriter: nat, errWriter: nat)

  datatype Call =
    | GetOut | GetErr | DupOut | DupErr                            // the snapshot
    | MakePipe
    | Clone1 | Clone2 | Clone3 | Clone4 | OpenOut | OpenErr        // what the redirect acquires
    | SetOut | SetErr | MoveOut | MoveErr                          // the four slots, in order
    | UndoSetOut | UndoSetErr | UndoMoveOut | UndoMoveErr          // and back
    | Spawn                                                        // the drain thread
    | BackSetOut | BackSetErr | BackMoveOut | BackMoveErr          // the restore

  predicate Slot(fd: nat) { fd == 1 || fd == 2 }

  // ---- Which failures lead where

  predicate Saves(faults: set<Call>) {
    GetOut !in faults && GetErr !in faults && DupOut !in faults && DupErr !in faults
  }

  predicate Clones(faults: set<Call>) {
    Clone1 !in faults && Clone2 !in faults && Clone3 !in faults && Clone4 !in faults
  }

  predicate Acquires(faults: set<Call>) { Clones(faults) && OpenOut !in faults && OpenErr !in faults }

  /** The slots that move before the first one that does not. */
  function Taken(faults: set<Call>): Rollback {
    var one := SetOut !in faults;
    var two := one && SetErr !in faults;
    var three := two && MoveOut !in faults;
    Rollback(one, two, three, three && MoveErr !in faults)
  }

  predicate Moves(faults: set<Call>) { Taken(faults).errCrtSet }

  /** Undoing one of these steps fails. */
  predicate UndoFails(steps: Rollback, faults: set<Call>) {
    || (steps.errCrtSet && UndoMoveErr in faults) || (steps.outCrtSet && UndoMoveOut in faults)
    || (steps.errHandleSet && UndoSetErr in faults) || (steps.outHandleSet && UndoSetOut in faults)
  }

  predicate Redirects(faults: set<Call>) { Acquires(faults) && Moves(faults) }

  /** Some slot had moved, a later one does not, and one that had moved does not move back. */
  predicate RedirectAborts(faults: set<Call>) {
    Acquires(faults) && !Moves(faults) && UndoFails(Taken(faults), faults)
  }

  predicate Captures(faults: set<Call>) {
    Saves(faults) && MakePipe !in faults && Redirects(faults) && Spawn !in faults
  }

  predicate LeaksSnapshot(faults: set<Call>) { Saves(faults) && MakePipe in faults }

  predicate LeavesRedirected(faults: set<Call>) {
    Saves(faults) && MakePipe !in faults && Redirects(faults) && Spawn in faults
  }

  predicate RestoreFails(faults: set<Call>) {
    BackSetOut in faults || BackSetErr in faults || BackMoveOut in faults || BackMoveErr in faults
  }

  /** The calls by which a redirect acquires and moves. */
  predicate RedirectCall(c: Call) {
    || c.Clone1? || c.Clone2? || c.Clone3? || c.Clone4? || c.OpenOut? || c.OpenErr?
    || c.SetOut? || c.SetErr? || c.MoveOut? || c.MoveErr?
  }

  /** The calls of a restore. */
  predicate RestoreCall(c: Call) { c.BackSetOut? || c.BackSetErr? || c.BackMoveOut? || c.BackMoveErr? }

  /** An abort takes two failures: of a move, and of an undo. */
  lemma OneFailure(faults: set<Call>)
    requires |faults| <= 1
    ensures !RedirectAborts(faults)
  {
    forall a, b | a in faults && b in faults ensures a == b {
      if a != b { SubsetCount({a, b}, faults); }
    }
  }

  /**
   Single failures: one call of the redirect only makes the redirect fail, one
   call of the restore makes it fail, and no other call does either. With a failing
   move, failing to undo an earlier one aborts.
   */
  lemma SingleFailures(c: Call)
    ensures Saves({c}) <==> !(c.GetOut? || c.GetErr? || c.DupOut? || c.DupErr?)
    ensures Redirects({c}) <==> !RedirectCall(c)
    ensures RestoreFails({c}) <==> RestoreCall(c)
    ensures !RedirectAborts({c}) && Captures({}) && !RestoreFails({})
    ensures RedirectAborts({SetErr, UndoSetOut}) && RedirectAborts({MoveOut, UndoSetErr})
    ensures RedirectAborts({MoveOut, UndoSetOut}) && RedirectAborts({MoveErr, UndoMoveOut})
    ensures !RedirectAborts({SetOut, UndoSetOut}) && !RedirectAborts({SetErr, UndoSetErr})
  {
    OneFailure({c});
  }

  lemma SubsetCount(few: set<Call>, all: set<Call>)
    requires few <= all
    ensures |few| <= |all|
  {
    assert all == few + (all - few);
  }

  function BothTo(crt: map<nat, nat>, target: nat): map<nat, nat> {
    crt[1 := target][2 := target]
  }

  function MapSlot(crt: map<nat, nat>, slot: nat, from: nat, failed: bool): map<nat, nat>
    requires from in crt
  {
    if failed then crt else crt[slot := crt[from]]
  }

  class Process {
    var handles: map<nat, nat>     // open handles and the objects behind them
    var crt: map<nat, nat>         // C runtime descriptors and the objects behind them
    var stdOut: nat                // STD_OUTPUT_HANDLE
    var stdErr: nat                // STD_ERROR_HANDLE
    var children: set<nat>         // objects held open by other processes
    var aborted: bool
    var saved: Option<Saved>
    var live: Option<Live>
    var reader: Option<nat>        // owned by the drain thread
    var pipe: nat                  // the pipe's write end

    constructor (handles: map<nat, nat>, crt: map<nat, nat>, stdOut: nat, stdErr: nat, children: set<nat>)
      ensures this.handles == handles && this.crt == crt && this.stdOut == stdOut && this.stdErr == stdErr
      ensures this.children == children && !aborted && saved.None? && live.None? && reader.None?
    {
      this.handles, this.crt, this.stdOut, this.stdErr, this.children := handles, crt, stdOut, stdErr, children;
      aborted, saved, live, reader, pipe := false, None, None, None, 0;
    }

    // ---- System calls

    method SetStdOut(h: nat, fails: bool) returns (ok: bool)
      modifies this`stdOut
      ensures ok <==> !fails
      ensures stdOut == if ok then h else old(stdOut)
    {
      if !fails { stdOut := h; }
      ok := !fails;
    }

    method SetStdErr(h: nat, fails: bool) returns (ok: bool)
      modifies this`stdErr
      ensures ok <==> !fails
      ensures stdErr == if ok then h else old(stdErr)
    {
      if !fails { stdErr := h; }
      ok := !fails;
    }

    method Clone(h: nat, fails: bool) returns (r: Option<nat>)
      requires h in handles
      modifies this`handles
      ensures r.None? <==> fails
      ensures r.None? ==> handles == old(handles)
      ensures r.Some? ==> r.value !in old(handles) && handles == old(handles)[r.value := old(handles)[h]]
    {
      if fails { return None; }
      ghost var n := UnusedNumber(handles.Keys);
      var free: nat :| free !in handles;
      handles := handles[free := handles[h]];
      return Some(free);
    }

    method CloseHandle(h: nat)
      modifies this`handles
      ensures handles == old(handles) - {h}
    {
      handles := handles - {h};
    }

    method Dup(fd: nat, fails: bool) returns (r: Option<nat>)
      requires fd in crt
      modifies this`crt
      ensures r.None? <==> fails
      ensures r.None? ==> crt == old(crt)
      ensures r.Some? ==> r.value !in old(crt) && crt == old(crt)[r.value := old(crt)[fd]]
    {
      if fails { return None; }
      ghost var n := UnusedNumber(crt.Keys);
      var free: nat :| free !in crt;
      crt := crt[free := crt[fd]];
      return Some(free);
    }

    method Dup2(from: nat, to: nat, fails: bool) returns (ok: bool)
      requires from in crt
      modifies this`crt
      ensures ok <==> !fails
      ensures crt == MapSlot(old(crt), to, from, fails)
    {
      if fails { return false; }
      crt := crt[to := crt[from]];
      return true;
    }

    method Close(fd: nat)
      modifies this`crt
      ensures crt == old(crt) - {fd}
    {
      crt := crt - {fd};
    }

    /** Moves a handle's reference into a new C runtime descriptor. */
    method OpenOsHandle(h: nat, fails: bool) returns (r: Option<nat>)
      requires h in handles
      modifies this`handles, this`crt
      ensures r.None? <==> fails
      ensures r.None? ==> handles == old(handles) && crt == old(crt)
      ensures r.Some? ==> r.value !in old(crt) && handles == old(handles) - {h}
                          && crt == old(crt)[r.value := old(handles)[h]]
    {
      if fails { return None; }
      ghost var n := UnusedNumber(crt.Keys);
      var free: nat :| free !in crt;
      crt := crt[free := handles[h]];
      handles := handles - {h};
      return Some(free);
    }

    method Pipe(fails: bool) returns (r: Option<(nat, nat)>)
      modifies this`handles, this`pipe
      ensures r.None? <==> fails
      ensures r.None? ==> handles == old(handles)
      ensures r.Some? ==> r.value.0 !in old(handles) && r.value.1 !in old(handles) && r.value.0 != r.value.1
                          && pipe !in old(handles).Values && pipe !in crt.Values && pipe !in children
                          && r.value.0 in handles && handles[r.value.0] != pipe
                          && handles == old(handles)[r.value.0 := handles[r.value.0]][r.value.1 := pipe]
    {
      if fails { return None; }
      ghost var n := UnusedNumber(handles.Keys);
      var rd: nat :| rd !in handles;
      n := UnusedNumber(handles.Keys + {rd});
      var wr: nat :| wr !in handles.Keys + {rd};
      var objects := handles.Values + crt.Values + children;
      n := UnusedNumber(objects);
      var dout: nat :| dout !in objects;
      n := UnusedNumber(objects + {dout});
      var din: nat :| din !in objects + {dout};
      handles := handles[rd := din][wr := dout];
      pipe := dout;
      return Some((rd, wr));
    }

    // ---- Save

    method Save(faults: set<Call>) returns (r: Option<Saved>)
      requires 1 in crt && 2 in crt
      modifies this`crt
      ensures r.Some? <==> Saves(faults)
      ensures r.None? ==> crt == old(crt)
      ensures r.Some? ==>
                && r.value.outHandle == stdOut && r.value.errHandle == stdErr
                && r.value.outCrt !in old(crt) && r.value.errCrt !in old(crt) && r.value.outCrt != r.value.errCrt
                && crt == old(crt)[r.value.outCrt := old(crt)[1]][r.value.errCrt := old(crt)[2]]
    {
      if GetOut in faults || GetErr in faults { return None; }
      var out := Dup(1, DupOut in faults);
      if out.None? { return None; }
      var err := Dup(2, DupErr in faults);
      if err.None? {
        Close(out.value);
        assert crt == old(crt);
        return None;
      }
      return Some(Saved(stdOut, stdErr, out.value, err.value));
    }

    predicate Snapshot(s: Saved)
      reads this
    {
      && stdOut == s.outHandle && stdErr == s.errHandle
      && 1 in crt && 2 in crt && s.outCrt in crt && s.errCrt in crt
      && !Slot(s.outCrt) && !Slot(s.errCrt) && s.outCrt != s.errCrt
      && crt[s.outCrt] == crt[1] && crt[s.errCrt] == crt[2]
    }

    // ---- Redirect, phase 1: acquire everything, touch no slot

    /** Four clones replace the writer, or nothing is left of it. */
    method FourClones(writer: nat, faults: set<Call>) returns (r: Option<(nat, nat, nat, nat)>)
      requires writer in handles
      modifies this`handles
      ensures r.Some? <==> Clones(faults)
      ensures r.None? ==> handles == old(handles) - {writer}
      ensures r.Some? ==>
                var (a, b, c, d) := r.value;
                var w := old(handles)[writer];
                && a !in old(handles) && b !in old(handles) && c !in old(handles) && d !in old(handles)
                && a != b && a != c && a != d && b != c && b != d && c != d
                && handles == (old(handles) - {writer})[a := w][b := w][c := w][d := w]
    {
      ghost var before: map<nat, nat> := handles;
      var a := Clone(writer, Clone1 in faults);
      if a.None? { CloseHandle(writer); return None; }
      var b := Clone(writer, Clone2 in faults);
      if b.None? {
        CloseHandle(a.value); CloseHandle(writer);
        assert handles == before - {writer};
        return None;
      }
      var c := Clone(writer, Clone3 in faults);
      if c.None? {
        CloseHandle(b.value); CloseHandle(a.value); CloseHandle(writer);
        assert handles == before - {writer};
        return None;
      }
      var d := Clone(writer, Clone4 in faults);
      if d.None? {
        CloseHandle(c.value); CloseHandle(b.value); CloseHandle(a.value); CloseHandle(writer);
        assert handles == before - {writer};
        return None;
      }
      CloseHandle(writer);
      return Some((a.value, b.value, c.value, d.value));
    }

    /** Two handles become C runtime descriptors, or both are closed. */
    method ToDescriptors(c: nat, d: nat, faults: set<Call>) returns (r: Option<(nat, nat)>)
      requires c in handles && d in handles && c != d
      modifies this`handles, this`crt
      ensures r.Some? <==> OpenOut !in faults && OpenErr !in faults
      ensures handles == old(handles) - {c, d}
      ensures r.None? ==> crt == old(crt)
      ensures r.Some? ==> r.value.0 !in old(crt) && r.value.1 !in old(crt) && r.value.0 != r.value.1
                          && crt == old(crt)[r.value.0 := old(handles)[c]][r.value.1 := old(handles)[d]]
    {
      var out := OpenOsHandle(c, OpenOut in faults);
      if out.None? {
        CloseHandle(c); CloseHandle(d);
        return None;
      }
      var err := OpenOsHandle(d, OpenErr in faults);
      if err.None? {
        Close(out.value); CloseHandle(d);
        assert crt == old(crt);
        return None;
      }
      return Some((out.value, err.value));
    }

    // ---- Redirect, phase 2: move the four slots

    /** Undoes the taken steps in reverse; aborts exactly when undoing one of them fails. */
    method Undo(s: Saved, steps: Rollback, faults: set<Call>)
      requires !aborted && !Slot(s.outCrt) && !Slot(s.errCrt) && s.outCrt in crt && s.errCrt in crt
      modifies this`crt, this`stdOut, this`stdErr, this`aborted
      ensures aborted <==> UndoFails(steps, faults)
      ensures !aborted ==>
              && stdOut == (if steps.outHandleSet then s.outHandle else old(stdOut))
              && stdErr == (if steps.errHandleSet then s.errHandle else old(stdErr))
              && (var half := if steps.errCrtSet then old(crt)[2 := old(crt)[s.errCrt]] else old(crt);
                  crt == if steps.outCrtSet then half[1 := old(crt)[s.outCrt]] else half)
    {
      var ok := true;
      if steps.errCrtSet {
        ok := Dup2(s.errCrt, 2, UndoMoveErr in faults);
        if !ok { aborted := true; return; }
      }
      if steps.outCrtSet {
        ok := Dup2(s.outCrt, 1, UndoMoveOut in faults);
        if !ok { aborted := true; return; }
      }
      if steps.errHandleSet {
        ok := SetStdErr(s.errHandle, UndoSetErr in faults);
        if !ok { aborted := true; return; }
      }
      if steps.outHandleSet {
        ok := SetStdOut(s.outHandle, UndoSetOut in faults);
        if !ok { aborted := true; return; }
      }
    }

    /** Close the two intermediate descriptors and run the rollback guard. */
    method Fail(s: Saved, steps: Rollback, out: nat, err: nat, faults: set<Call>, ghost before: map<nat, nat>)
      requires !aborted && out in crt && err in crt && out != err && !Slot(out) && !Slot(err)
      requires !Slot(s.outCrt) && !Slot(s.errCrt) && s.outCrt != s.errCrt
      requires out != s.outCrt && out != s.errCrt && err != s.outCrt && err != s.errCrt
      requires 1 in before && 2 in before && s.outCrt in before && s.errCrt in before
      requires before[s.outCrt] == before[1] && before[s.errCrt] == before[2]
      requires steps.outHandleSet || stdOut == s.outHandle
      requires steps.errHandleSet || stdErr == s.errHandle
      requires forall fd :: fd in crt <==> fd in before
      requires forall fd :: fd in before && !(fd == 1 && steps.outCrtSet) && !(fd == 2 && steps.errCrtSet)
                            ==> crt[fd] == before[fd]
      modifies this`crt, this`stdOut, this`stdErr, this`aborted
      ensures aborted <==> UndoFails(steps, faults)
      ensures !aborted ==> stdOut == s.outHandle && stdErr == s.errHandle && crt == before - {out, err}
    {
      Close(out);
      Close(err);
      Undo(s, steps, faults);
      assert aborted || crt == before - {out, err};
    }

    method Commit(s: Saved, h1: nat, h2: nat, out: nat, err: nat, faults: set<Call>) returns (ok: bool)
      requires !aborted && Snapshot(s) && out in crt && err in crt && out != err && !Slot(out) && !Slot(err)
      requires out != s.outCrt && out != s.errCrt && err != s.outCrt && err != s.errCrt
      modifies this`crt, this`stdOut, this`stdErr, this`aborted
      ensures ok <==> Moves(faults)
      ensures aborted <==> !Moves(faults) && UndoFails(Taken(faults), faults)
      ensures ok ==> stdOut == h1 && stdErr == h2
                     && crt == old(crt)[1 := old(crt)[out]][2 := old(crt)[err]] - {out, err}
      ensures !ok && !aborted ==> stdOut == old(stdOut) && stdErr == old(stdErr) && crt == old(crt) - {out, err}
    {
      ghost var before: map<nat, nat> := crt;
      var steps := Rollback(false, false, false, false);
      ok := SetStdOut(h1, SetOut in faults);
      if !ok { Fail(s, steps, out, err, faults, before); return; }
      steps := steps.(outHandleSet := true);
      ok := SetStdErr(h2, SetErr in faults);
      if !ok { Fail(s, steps, out, err, faults, before); return; }
      steps := steps.(errHandleSet := true);
      ok := Dup2(out, 1, MoveOut in faults);
      if !ok { Fail(s, steps, out, err, faults, before); return; }
      steps := steps.(outCrtSet := true);
      ok := Dup2(err, 2, MoveErr in faults);
      if !ok { Fail(s, steps, out, err, faults, before); return; }
      Close(out);
      Close(err);
      assert crt == before[1 := before[out]][2 := before[err]] - {out, err};
    }

    /**
     All four slots move and stay backed by open handles, or nothing is left of
     the writer, or abort; and exactly when.
     */
    method RedirectToPipe(writer: nat, s: Saved, faults: set<Call>) returns (r: Option<Live>)
      requires !aborted && Snapshot(s) && writer in handles
      modifies this`handles, this`crt, this`stdOut, this`stdErr, this`aborted
      ensures r.Some? <==> Redirects(faults)
      ensures aborted <==> RedirectAborts(faults)
      ensures r.None? && !aborted ==>
                handles == old(handles) - {writer} && crt == old(crt) && stdOut == old(stdOut) && stdErr == old(stdErr)
      ensures r.Some? ==>
                var w := old(handles)[writer];
                && stdOut == r.value.outWriter && stdErr == r.value.errWriter
                && stdOut !in old(handles) && stdErr !in old(handles) && stdOut != stdErr
                && handles == (old(handles) - {writer})[stdOut := w][stdErr := w]
                && crt == old(crt)[1 := w][2 := w]
    {
      var clones := FourClones(writer, faults);
      if clones.None? { return None; }
      var (a, b, c, d) := clones.value;
      var fds := ToDescriptors(c, d, faults);
      if fds.None? {
        CloseHandle(a); CloseHandle(b);
        assert handles == old(handles) - {writer};
        return None;
      }
      var ok := Commit(s, a, b, fds.value.0, fds.value.1, faults);
      if aborted { return None; }
      if !ok {
        CloseHandle(a); CloseHandle(b);
        assert handles == old(handles) - {writer};
        assert crt == old(crt);
        return None;
      }
      ghost var w := old(handles)[writer];
      assert handles == (old(handles) - {writer})[a := w][b := w];
      assert crt == old(crt)[1 := w][2 := w];
      return Some(Live(a, b));
    }

    /** All four are attempted even when some fail. */
    method Restore(s: Saved, faults: set<Call>) returns (ok: bool)
      requires !Slot(s.outCrt) && !Slot(s.errCrt) && s.outCrt in crt && s.errCrt in crt
      modifies this`crt, this`stdOut, this`stdErr
      ensures ok <==> !RestoreFails(faults)
      ensures stdOut == (if BackSetOut in faults then old(stdOut) else s.outHandle)
      ensures stdErr == (if BackSetErr in faults then old(stdErr) else s.errHandle)
      ensures crt == MapSlot(MapSlot(old(crt), 1, s.outCrt, BackMoveOut in faults), 2, s.errCrt, BackMoveErr in faults)
    {
      var one := SetStdOut(s.outHandle, BackSetOut in faults);
      var two := SetStdErr(s.errHandle, BackSetErr in faults);
      var three := Dup2(s.outCrt, 1, BackMoveOut in faults);
      var four := Dup2(s.errCrt, 2, BackMoveErr in faults);
      ok := one && two && three && four;
    }

    method CloseSaved(s: Saved)
      modifies this`crt
      ensures crt == old(crt) - {s.outCrt, s.errCrt}
    {
      Close(s.outCrt);
      Close(s.errCrt);
    }

    // ---- The guard

    /** What the guard needs of the tables; the test body may have changed everything else. */
    ghost predicate InCapture()
      reads this
    {
      && saved.Some? && reader.Some? && live.Some?
      && !Slot(saved.value.outCrt) && !Slot(saved.value.errCrt)
      && saved.value.outCrt in crt && saved.value.errCrt in crt
      && reader.value in handles && live.value.outWriter in handles && live.value.errWriter in handles
      && reader.value != live.value.outWriter && reader.value != live.value.errWriter
    }

    /** The slots refer to what they referred to before. */
    twostate predicate SlotsKept()
      reads this
    {
      stdOut == old(stdOut) && stdErr == old(stdErr) && crt == old(crt) && handles == old(handles)
    }

    /** From these tables, the four slots have moved to the pipe, backed by the live writers. */
    ghost predicate Redirected(handles0: map<nat, nat>, crt0: map<nat, nat>, s: Saved, rd: nat, l: Live)
      reads this
    {
      && 1 in crt0 && 2 in crt0 && s.outCrt !in crt0 && s.errCrt !in crt0 && s.outCrt != s.errCrt
      && crt == crt0[s.outCrt := crt0[1]][s.errCrt := crt0[2]][1 := pipe][2 := pipe]
      && stdOut == l.outWriter && stdErr == l.errWriter && stdOut != stdErr
      && rd !in handles0 && stdOut !in handles0 && stdErr !in handles0 && rd != stdOut && rd != stdErr
      && rd in handles && handles[rd] != pipe
      && handles == handles0[rd := handles[rd]][stdOut := pipe][stdErr := pipe]
      && pipe !in handles0.Values && pipe !in crt0.Values && pipe !in children
    }

    ghost predicate Leaked(crt0: map<nat, nat>, base: map<nat, nat>)
      requires 1 in crt0 && 2 in crt0
      reads this
    {
      exists a: nat, b: nat :: a !in crt0 && b !in crt0 && a != b && crt == base[a := crt0[1]][b := crt0[2]]
    }

    /** Everything `begin` does before it spawns the drain thread. */
    method Redirect(faults: set<Call>) returns (r: Begun, s: Saved, rd: nat, l: Live)
      requires !aborted && 1 in crt && 2 in crt
      modifies this`handles, this`crt, this`stdOut, this`stdErr, this`aborted, this`pipe
      ensures r.SaveFailed? <==> !Saves(faults)
      ensures r.PipeFailed? <==> LeaksSnapshot(faults)
      ensures r.Capturing? <==> Saves(faults) && MakePipe !in faults && Redirects(faults)
      ensures aborted <==> Saves(faults) && MakePipe !in faults && RedirectAborts(faults)
      ensures !r.SpawnFailed?
      ensures r.SaveFailed? || (r.RedirectFailed? && !aborted) ==> SlotsKept()
      ensures r.PipeFailed? ==> stdOut == old(stdOut) && stdErr == old(stdErr) && handles == old(handles)
                                && Leaked(old(crt), old(crt))
      ensures r.Capturing? ==> Redirected(old(handles), old(crt), s, rd, l)
                               && s.outHandle == old(stdOut) && s.errHandle == old(stdErr)
    {
      ghost var crt0: map<nat, nat> := crt;
      ghost var handles0: map<nat, nat> := handles;
      s, rd, l := Saved(0, 0, 0, 0), 0, Live(0, 0);
      var sv := Save(faults);
      if sv.None? { return SaveFailed, s, rd, l; }
      s := sv.value;
      forall k | k in crt0 ensures crt0[k] in crt.Values { assert crt[k] == crt0[k]; }
      var p := Pipe(MakePipe in faults);
      if p.None? { return PipeFailed, s, rd, l; }
      rd := p.value.0;
      var lw := RedirectToPipe(p.value.1, s, faults);
      if aborted { return RedirectFailed, s, rd, l; }
      if lw.None? {
        CloseHandle(rd);
        CloseSaved(s);
        assert handles == handles0 && crt == crt0;
        return RedirectFailed, s, rd, l;
      }
      l := lw.value;
      assert handles == handles0[rd := handles[rd]][stdOut := pipe][stdErr := pipe];
      r := Begun.Capturing;
    }

    /**
     The outcome for every set of failing calls, and the tables it leaves. A
     failed pipe leaks the snapshot. A failed spawn leaks it too, and drops the
     live writers while both Win32 slots still hold their handle values. On every
     other way out that is no abort, the tables are as they were.
     */
    method Begin(faults: set<Call>) returns (r: Begun)
      requires !aborted && saved.None? && reader.None? && live.None? && 1 in crt && 2 in crt
      modifies this
      ensures children == old(children)
      ensures r.SaveFailed? <==> !Saves(faults)
      ensures r.PipeFailed? <==> LeaksSnapshot(faults)
      ensures r.SpawnFailed? <==> LeavesRedirected(faults)
      ensures r.Capturing? <==> Captures(faults)
      ensures aborted <==> Saves(faults) && MakePipe !in faults && RedirectAborts(faults)
      ensures !aborted && !r.Capturing? ==>
                (SlotsKept() <==> !LeaksSnapshot(faults) && !LeavesRedirected(faults))
      ensures LeaksSnapshot(faults) ==> stdOut == old(stdOut) && stdErr == old(stdErr) && handles == old(handles)
                                        && Leaked(old(crt), old(crt))
      ensures LeavesRedirected(faults) ==> stdOut !in handles && stdErr !in handles && handles == old(handles)
                                           && Leaked(old(crt), BothTo(old(crt), pipe))
      ensures r.Capturing? ==>
                && InCapture() && Redirected(old(handles), old(crt), saved.value, reader.value, live.value)
                && saved.value.outHandle == old(stdOut) && saved.value.errHandle == old(stdErr)
      ensures !r.Capturing? ==> saved.None? && reader.None? && live.None?
    {
      var s, rd, l;
      r, s, rd, l := Redirect(faults);
      if !r.Capturing? { return; }
      if Spawn in faults {
        CloseHandle(rd);
        CloseHandle(l.outWriter);
        CloseHandle(l.errWriter);
        assert handles == old(handles);
        ghost var crt0: map<nat, nat> := old(crt);
        assert crt == crt0[1 := pipe][2 := pipe][s.outCrt := crt0[1]][s.errCrt := crt0[2]];
        assert s.outCrt in crt;
        return SpawnFailed;
      }
      saved, reader, live := Some(s), Some(rd), Some(l);
    }

    /** The saved targets are back, and nothing of the capture but its reader is left. */
    twostate predicate PutBackFrom(s: Saved, l: Live)
      requires s.outCrt in old(crt) && s.errCrt in old(crt)
      reads this
    {
      && stdOut == s.outHandle && stdErr == s.errHandle
      && crt == old(crt)[1 := old(crt)[s.outCrt]][2 := old(crt)[s.errCrt]] - {s.outCrt, s.errCrt}
      && handles == old(handles) - {l.outWriter, l.errWriter}
    }

    /** Restores, then the snapshot and the live writers go; aborts exactly when a restoring call fails. */
    method PutBack(s: Saved, l: Live, faults: set<Call>)
      requires !aborted && !Slot(s.outCrt) && !Slot(s.errCrt) && s.outCrt in crt && s.errCrt in crt
      modifies this`handles, this`crt, this`stdOut, this`stdErr, this`aborted
      ensures aborted <==> RestoreFails(faults)
      ensures !aborted ==> PutBackFrom(s, l)
    {
      var ok := Restore(s, faults);
      if !ok {
        aborted := true;
        return;
      }
      CloseSaved(s);
      CloseHandle(l.outWriter);
      CloseHandle(l.errWriter);
    }

    /** End of file: nobody holds the write end. */
    method Joined() returns (eof: bool)
      ensures eof <==> pipe !in children && pipe !in handles.Values && pipe !in crt.Values
    {
      eof := pipe !in children && pipe !in handles.Values && pipe !in crt.Values;
    }

    method End(faults: set<Call>) returns (drained: bool)
      requires !aborted && InCapture()
      modifies this
      ensures children == old(children) && pipe == old(pipe) && saved.None? && reader.None? && live.None?
      ensures aborted <==> RestoreFails(faults)
      ensures !aborted ==>
              var s, l, rd := old(saved).value, old(live).value, old(reader).value;
              && stdOut == s.outHandle && stdErr == s.errHandle
              && crt == old(crt)[1 := old(crt)[s.outCrt]][2 := old(crt)[s.errCrt]] - {s.outCrt, s.errCrt}
              && handles == old(handles) - {l.outWriter, l.errWriter} - (if drained then {rd} else {})
              && (drained <==> pipe !in children && pipe !in crt.Values
                               && pipe !in (old(handles) - {l.outWriter, l.errWriter}).Values)
    {
      var s, l := saved.value, live.value;
      saved := None;
      PutBack(s, l, faults);
      live := None;
      if aborted { reader := None; return false; }
      drained := Joined();
      if drained { CloseHandle(reader.value); }
      reader := None;
      Drop(faults);
    }

    /** A no-op after `End`; otherwise the same restore, without waiting for the drain. */
    method Drop(faults: set<Call>)
      requires saved.Some? ==> !aborted && InCapture()
      modifies this
      ensures children == old(children) && pipe == old(pipe) && saved.None?
      ensures old(saved).None? ==> SlotsKept() && aborted == old(aborted) && reader == old(reader) && live == old(live)
      ensures old(saved).Some? ==>
                && reader.None? && live.None? && (aborted <==> RestoreFails(faults))
                && (!aborted ==> PutBackFrom(old(saved).value, old(live).value))
    {
      if saved.None? { return; }
      var s, l := saved.value, live.value;
      saved := None;
      PutBack(s, l, faults);
      live, reader := None, None;
    }

    /**
     A capture around a body that leaves the tables alone: with no failing call it
     captures, drains and changes nothing, and a failing restore aborts.
     */
    method Cycle(faults: set<Call>) returns (r: Begun, drained: bool)
      requires !aborted && saved.None? && reader.None? && live.None? && 1 in crt && 2 in crt
      modifies this
      ensures r.Capturing? <==> Captures(faults)
      ensures Captures(faults) ==> (aborted <==> RestoreFails(faults))
      ensures Captures(faults) && !aborted ==> drained && SlotsKept()
      ensures faults == {} ==> r.Capturing? && !aborted && drained && SlotsKept()
      ensures saved.None? && reader.None? && live.None?
    {
      r := Begin(faults);
      drained := false;
      if r.Capturing? {
        ghost var rd, s, l := reader.value, saved.value, live.value;
        ghost var handles1: map<nat, nat> := handles;
        ghost var crt1: map<nat, nat> := crt;
        assert handles1 - {l.outWriter, l.errWriter} == old(handles)[rd := handles1[rd]];
        assert crt1[1 := crt1[s.outCrt]][2 := crt1[s.errCrt]] - {s.outCrt, s.errCrt} == old(crt);
        drained := End(faults);
        assert !aborted && drained ==> handles == old(handles);
      }
    }
  }

  // ---- `begin` is not all or nothing

  /** A failing pipe: no capture, no abort, and two C runtime descriptors more than before. */
  method PipeFailureLeaks(handles: map<nat, nat>, crt: map<nat, nat>, out: nat, err: nat)
    returns (r: Begun, aborted: bool, after: map<nat, nat>)
    requires 1 in crt && 2 in crt
    ensures r.PipeFailed? && !aborted && after != crt && |after| == |crt| + 2
  {
    var p := new Process(handles, crt, out, err, {});
    r := p.Begin({MakePipe});
    aborted := p.aborted;
    after := p.crt;
    ghost var a: nat, b: nat :| a !in crt && b !in crt && a != b && after == crt[a := crt[1]][b := crt[2]];
    assert after.Keys == crt.Keys + {a, b};
  }

  /** A failing spawn: no capture, no abort, and both Win32 slots hold handles that are closed. */
  method SpawnFailureDangles(handles: map<nat, nat>, crt: map<nat, nat>, out: nat, err: nat)
    returns (r: Begun, aborted: bool, open: set<nat>, out': nat, err': nat)
    requires 1 in crt && 2 in crt
    ensures r.SpawnFailed? && !aborted && open == handles.Keys && out' !in open && err' !in open
  {
    var p := new Process(handles, crt, out, err, {});
    r := p.Begin({Spawn});
    aborted := p.aborted;
    open, out', err' := p.handles.Keys, p.stdOut, p.stdErr;
  }
}
