/** The table scans of xv6-public/proc.c, each run with ptable.lock held, as code that changes the
    table slot by slot. Each is one step of Proc. */
module ProcCode {
  import opened Proc
  import opened Options

  class Ptable {
    var procs: seq<Proc>
    var nextpid: nat
    ghost var exits: map<nat, int>
    ghost var reaps: seq<Reap>

    ghost function Abs(): Table
      reads this
    {
      Table(procs, nextpid, exits, reaps)
    }

    method Wakeup1(chan: Chan)
      modifies this`procs
      ensures procs == WakeAll(old(procs), chan)
    {
      ghost var was := procs;
      var i := 0;
      while i < |procs|
        invariant 0 <= i <= |procs| == |was|
        invariant forall j :: 0 <= j < i ==> procs[j] == Woken(was[j], chan)
        invariant forall j :: i <= j < |was| ==> procs[j] == was[j]
      {
        if procs[i].state == Sleeping && procs[i].chan == chan {
          procs := procs[i := procs[i].(state := Runnable)];
        }
        i := i + 1;
      }
      assert procs == WakeAll(was, chan);
    }

    /** The scan of allocproc, called by fork in slot p: None when the table is full. */
    method Allocproc(p: nat) returns (r: Option<nat>)
      requires Enabled(Abs(), ForkAlloc(p))
      modifies this`procs, this`nextpid
      ensures Abs() == Apply(old(Abs()), ForkAlloc(p))
      ensures r == FirstUnused(old(procs), 0) && (r.Some? ==> procs[r.value].pid == old(nextpid))
    {
      var i := 0;
      while i < |procs|
        invariant 0 <= i <= |procs| && FirstUnused(procs, 0) == FirstUnused(procs, i)
      {
        if procs[i].state == Unused {
          var pid := nextpid;
          procs := procs[i := procs[i].(state := Embryo, pid := pid)];
          nextpid := nextpid + 1;
          procs := procs[p := procs[p].(at := Forking(i))];
          return Some(i);
        }
        i := i + 1;
      }
      return None;
    }

    /** exit of the process in slot p, from the lock on. */
    method ExitLocked(p: nat)
      requires Enabled(Abs(), ExitFinish(p))
      modifies this`procs
      ensures Abs() == Apply(old(Abs()), ExitFinish(p))
    {
      Wakeup1(ChanOf(procs[p].parent));
      ghost var w := procs;
      var i := 0;
      assert procs == Adopt(w, p, INIT, 0);
      while i < |procs|
        invariant 0 <= i <= |procs| == |w| && procs == Adopt(w, p, INIT, i)
      {
        AdoptAt(w, p, i);
        AdoptNext(w, p, i);
        if procs[i].parent == Some(p) {
          var zombie := procs[i].state == Zombie;
          procs := procs[i := procs[i].(parent := Some(INIT))];
          if zombie {
            Wakeup1(OnProc(INIT));
          }
        }
        i := i + 1;
      }
      procs := procs[p := procs[p].(state := Zombie, at := Elsewhere)];
    }

    /** One pass of wait's loop for the process in slot p: Some(Some((pid, status))) for a child that
        exited, Some(None) for -1, None when it goes to sleep. */
    method WaitPass(p: nat) returns (r: Option<Option<Reap>>)
      requires Enabled(Abs(), Wait(p))
      modifies this`procs, this`reaps
      ensures Abs() == Apply(old(Abs()), Wait(p))
      ensures r.Some? && r.value.Some? <==> FirstZombie(old(procs), p, 0).Some?
      ensures r.Some? && r.value.Some? ==> reaps == old(reaps) + [r.value.value]
      ensures r == Some(None) <==>
          FirstZombie(old(procs), p, 0).None? && (!HasChild(old(procs), p, |old(procs)|) || old(procs)[p].killed)
    {
      var havekids := false;
      var i := 0;
      while i < |procs|
        invariant 0 <= i <= |procs| && procs == old(procs) && reaps == old(reaps)
        invariant FirstZombie(procs, p, 0) == FirstZombie(procs, p, i)
        invariant havekids <==> HasChild(procs, p, i)
      {
        if procs[i].parent == Some(p) {
          havekids := true;
          if procs[i].state == Zombie {
            var found := Reap(procs[i].pid, procs[i].status);
            procs := procs[i := procs[i].(pid := 0)];
            procs := procs[i := procs[i].(parent := None)];
            procs := procs[i := procs[i].(killed := false)];
            procs := procs[i := procs[i].(state := Unused)];
            reaps := reaps + [found];
            return Some(Some(found));
          }
        }
        i := i + 1;
      }
      if !havekids || procs[p].killed {
        return Some(None);
      }
      procs := procs[p := procs[p].(chan := OnProc(p))];
      procs := procs[p := procs[p].(state := Sleeping)];
      return None;
    }

    method KillPid(pid: nat) returns (r: int)
      modifies this`procs
      ensures Abs() == Apply(old(Abs()), Kill(pid))
      ensures r == if FirstPid(old(procs), pid, 0).Some? then 0 else -1
    {
      var i := 0;
      while i < |procs|
        invariant 0 <= i <= |procs| && procs == old(procs) && FirstPid(procs, pid, 0) == FirstPid(procs, pid, i)
      {
        if procs[i].pid == pid {
          procs := procs[i := procs[i].(killed := true)];
          if procs[i].state == Sleeping {
            procs := procs[i := procs[i].(state := Runnable)];
          }
          return 0;
        }
        i := i + 1;
      }
      return -1;
    }
  }

  /** Slot i before exit's pass reaches it: only its state can have changed, by a wakeup. */
  lemma AdoptAt(procs: seq<Proc>, p: nat, i: nat)
    requires i < |procs|
    ensures var q := Adopt(procs, p, INIT, i)[i];
            q.parent == procs[i].parent && (q.state.Zombie? <==> procs[i].state.Zombie?)
  {
  }

  /** Exit's pass over one more slot. */
  lemma AdoptNext(procs: seq<Proc>, p: nat, i: nat)
    requires i < |procs|
    ensures var a, q := Adopt(procs, p, INIT, i), Adopt(procs, p, INIT, i)[i];
            Adopt(procs, p, INIT, i + 1) ==
            if q.parent != Some(p) then a
            else if q.state.Zombie? then WakeAll(a[i := q.(parent := Some(INIT))], OnProc(INIT))
            else a[i := q.(parent := Some(INIT))]
  {
    AdoptAt(procs, p, i);
    assert ZombieChild(procs, p, i + 1) <==>
           ZombieChild(procs, p, i) || (procs[i].parent == Some(p) && procs[i].state.Zombie?);
  }
}
