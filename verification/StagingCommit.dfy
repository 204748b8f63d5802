/** apps/client/staging.cpp: the rename-based commit of a staged runtime and its recovery. Every
    operation on the file system is free to fail. */
module StagingCommit {

  /** A directory tree: none; the runtime of before; an incomplete or foreign tree; the verified new
      runtime. The last two are `pure` when nothing but this run wrote into them. */
  datatype Tree = Absent | Old | Partial(pure: bool) | New(pure: bool)

  datatype Layout = Layout(target: Tree, incoming: Tree, backup: Tree)

  /** A complete runtime is where a user or a recovery finds it. */
  predicate Safe(l: Layout) { l.target == Old || l.target.New? || l.backup == Old }

  ghost predicate AlwaysSafe(trace: seq<Layout>) { forall i :: 0 <= i < |trace| ==> Safe(trace[i]) }

  /** How a staging run ended. */
  datatype Ending =
    | Untouched // the incoming directory could not be created
    | RolledBack // failed before the commit, and the recovery reported success
    | Stranded // failed before the commit, and the recovery reported a failure
    | Lingering // committed, but the backup could not be removed
    | Done

  class RuntimeRoot {
    var target: Tree
    var incoming: Tree
    var backup: Tree
    /** Every layout since the run began. */
    ghost var trace: seq<Layout>
    /** How many operations on the file system have failed. */
    ghost var failures: nat

    ghost function Now(): Layout
      reads this`target, this`incoming, this`backup
    {
      Layout(target, incoming, backup)
    }

    /** The trace ends here, and if it began with a runtime there always was one. */
    ghost predicate Kept()
      reads this`target, this`incoming, this`backup, this`trace
    {
      && trace != [] && trace[|trace| - 1] == Now()
      && (trace[0].target == Old ==> AlwaysSafe(trace))
    }

    constructor (target: Tree, incoming: Tree, backup: Tree)
      ensures Kept() && trace == [Layout(target, incoming, backup)] && failures == 0
    {
      this.target, this.incoming, this.backup := target, incoming, backup;
      trace, failures := [Layout(target, incoming, backup)], 0;
    }

    ghost method Log()
      requires trace != [] && (trace[0].target == Old ==> AlwaysSafe(trace) && Safe(Now()))
      modifies this`trace
      ensures Kept() && trace == old(trace) + [Now()]
    {
      trace := trace + [Now()];
    }

    ghost method Count(ok: bool)
      modifies this`failures
      ensures failures == old(failures) + if ok then 0 else 1
    {
      failures := failures + if ok then 0 else 1;
    }

    /** A query fails or answers truly. */
    method Exists(tree: Tree) returns (failed: bool, answer: bool)
      modifies this`failures
      ensures answer <==> !failed && tree != Absent
      ensures failures == old(failures) + if failed then 1 else 0
    {
      failed := *;
      answer := !failed && tree != Absent;
      Count(!failed);
    }

    /** create_directory is content with a directory that exists already. */
    method CreateIncoming() returns (ok: bool, created: bool)
      requires Kept()
      modifies this
      ensures Kept() && trace[0] == old(trace)[0]
      ensures created <==> ok && old(incoming) == Absent
      ensures Now() == old(Now()).(incoming := if created then Partial(true) else old(incoming))
      ensures failures == old(failures) + if ok then 0 else 1
    {
      ok := *;
      created := ok && incoming == Absent;
      if created {
        incoming := Partial(true);
      }
      Log();
      Count(ok);
    }

    /** The copying loop, the three verifications and the manifest. A failure anywhere leaves an
        incomplete tree. */
    method FillIncoming(created: bool) returns (ok: bool)
      requires Kept()
      modifies this
      ensures Kept() && trace[0] == old(trace)[0]
      ensures Now() == old(Now()).(incoming := if ok then New(created) else Partial(created))
      ensures failures == old(failures) + if ok then 0 else 1
    {
      incoming := Partial(created);
      Log();
      ok := *;
      if ok {
        incoming := New(created);
        Log();
      }
      Count(ok);
    }

    /** rename of a directory: the destination must not exist. */
    method BackUpTarget() returns (ok: bool)
      requires Kept() && target != Absent && (trace[0].target == Old ==> target == Old)
      modifies this
      ensures Kept() && trace[0] == old(trace)[0]
      ensures ok ==> old(backup) == Absent && Now() == Layout(Absent, old(incoming), old(target))
      ensures !ok ==> Now() == old(Now())
      ensures failures == old(failures) + if ok then 0 else 1
    {
      ok := *;
      ok := ok && backup == Absent;
      if ok {
        target, backup := Absent, target;
        Log();
      }
      Count(ok);
    }

    method CommitIncoming() returns (ok: bool)
      requires Kept() && incoming.New? && (trace[0].target == Old ==> target == Absent)
      modifies this
      ensures Kept() && trace[0] == old(trace)[0]
      ensures ok ==> old(target) == Absent && Now() == Layout(old(incoming), Absent, old(backup))
      ensures !ok ==> Now() == old(Now())
      ensures failures == old(failures) + if ok then 0 else 1
    {
      ok := *;
      ok := ok && target == Absent;
      if ok {
        target, incoming := incoming, Absent;
        Log();
      }
      Count(ok);
    }

    method RestoreBackup() returns (ok: bool)
      requires Kept() && target == Absent
      modifies this
      ensures Kept() && trace[0] == old(trace)[0]
      ensures Now() == if ok then Layout(old(backup), old(incoming), Absent) else old(Now())
      ensures failures == old(failures) + if ok then 0 else 1
    {
      ok := *;
      if ok {
        target, backup := backup, Absent;
        Log();
      }
      Count(ok);
    }

    /** remove_runtime_tree: refused, broken off or complete. */
    static method Removed(tree: Tree) returns (ok: bool, rest: Tree)
      ensures ok ==> rest == Absent
    {
      ok := *;
      var begun: bool := *;
      rest := if ok then Absent else if begun then Partial(false) else tree;
    }

    method RemoveIncoming() returns (ok: bool)
      requires Kept()
      modifies this
      ensures Kept() && trace[0] == old(trace)[0]
      ensures Now() == old(Now()).(incoming := incoming) && (ok ==> incoming == Absent)
      ensures failures == old(failures) + if ok then 0 else 1
    {
      var rest;
      ok, rest := Removed(incoming);
      incoming := rest;
      Log();
      Count(ok);
    }

    method RemoveBackup() returns (ok: bool)
      requires Kept() && target.New?
      modifies this
      ensures Kept() && trace[0] == old(trace)[0]
      ensures Now() == old(Now()).(backup := backup) && (ok ==> backup == Absent)
      ensures failures == old(failures) + if ok then 0 else 1
    {
      var rest;
      ok, rest := Removed(backup);
      backup := rest;
      Log();
      Count(ok);
    }

    /** recover_failed_transaction. Success means the layout of before, without the incoming tree, and
        that none of its queries, the removal and the rename failed; if none does it succeeds, when
        the backup it is to restore is there and its place is free. */
    method Recover(backedUp: bool) returns (ok: bool)
      requires Kept()
      modifies this
      ensures Kept() && trace[0] == old(trace)[0]
      ensures ok ==> incoming == Absent
      ensures !backedUp ==> target == old(target) && backup == old(backup)
      ensures backedUp && ok ==> old(target) == Absent && target == old(backup) && backup == Absent
      ensures backedUp && !ok ==> (target, backup) == (old(target), old(backup))
                                  || (old(target) == Absent && target == old(backup) && backup == Absent)
      ensures failures >= old(failures)
      ensures ok <==> failures == old(failures) && (backedUp ==> old(backup) != Absent && old(target) == Absent)
    {
      var failed, present := Exists(incoming);
      var clean := !failed;
      if present {
        clean := RemoveIncoming();
      }
      if !backedUp {
        return clean;
      }
      failed, present := Exists(backup);
      if failed || !present {
        return false;
      }
      failed, present := Exists(target);
      if failed || present {
        return false;
      }
      ok := RestoreBackup();
      ok := ok && clean;
    }

    /** The recovery of a run that failed before the commit: it strands exactly when one of its own
        operations fails. */
    method RollBack(backedUp: bool) returns (ghost ending: Ending)
      requires Kept() && (backedUp ==> backup != Absent && target == Absent)
      modifies this
      ensures Kept() && trace[0] == old(trace)[0]
      ensures ending in {RolledBack, Stranded}
      ensures failures >= old(failures) && (ending == Stranded <==> failures > old(failures))
      ensures ending == RolledBack ==> Now() == if backedUp then Layout(old(backup), Absent, Absent)
                                                else old(Now()).(incoming := Absent)
      ensures ending == Stranded ==> (target, backup) == (old(target), old(backup))
                                     || (backedUp && (target, backup) == (old(backup), Absent))
    {
      var ok := Recover(backedUp);
      ending := if ok then RolledBack else Stranded;
    }

    /** The transaction of stage_game. It succeeds exactly when no operation fails; after a single failure
        the runtime of before is at the target, or the new one; only a second one can strand it. */
    method Stage() returns (ok: bool, ghost ending: Ending)
      requires Kept() && trace == [Now()]
      modifies this
      ensures Kept() && trace[0] == old(Now())
      ensures ok <==> ending == Done
      ensures failures >= old(failures)
      ensures ending == Done <==> failures == old(failures)
      ensures ending == Stranded <==> failures >= old(failures) + 2
      ensures ending == Done ==> target == New(old(incoming) == Absent) && incoming == Absent
      ensures ending == Done && old(target) != Absent ==> backup == Absent && old(backup) == Absent
      ensures ending == Lingering ==> target == New(old(incoming) == Absent) && old(target) != Absent
      ensures ending == Untouched ==> Now() == old(Now())
      ensures ending == RolledBack ==> Now() == old(Now()).(incoming := Absent)
      ensures ending == Stranded ==> target == old(target) || (target == Absent && backup == old(target))
    {
      var created;
      ok, created := CreateIncoming();
      if !ok {
        ending := Untouched;
        return;
      }
      ok := FillIncoming(created);
      if !ok {
        ending := RollBack(false);
        return;
      }
      var failed, present := Exists(target);
      if failed {
        ending := RollBack(false);
        return false, ending;
      }
      var backedUp := false;
      if present {
        backedUp := BackUpTarget();
        if !backedUp {
          ending := RollBack(false);
          return false, ending;
        }
      }
      ok, ending := Commit(backedUp);
    }

    /** From the commit on. */
    method Commit(backedUp: bool) returns (ok: bool, ghost ending: Ending)
      requires Kept() && incoming.New? && target == Absent && (backedUp ==> backup != Absent)
      modifies this
      ensures Kept() && trace[0] == old(trace)[0]
      ensures ok <==> ending == Done
      ensures ending in {Done, Lingering, RolledBack, Stranded}
      ensures failures >= old(failures)
      ensures ending == Done <==> failures == old(failures)
      ensures ending == Stranded <==> failures >= old(failures) + 2
      ensures ending == Done ==>
                target == old(incoming) && incoming == Absent && backup == if backedUp then Absent else old(backup)
      ensures ending == Lingering ==> backedUp && target == old(incoming) && incoming == Absent
      ensures ending == RolledBack ==>
                Now() == if backedUp then Layout(old(backup), Absent, Absent) else Layout(Absent, Absent, old(backup))
      ensures ending == Stranded ==>
                (target, backup) == (Absent, old(backup))
                || (backedUp && (target, backup) == (old(backup), Absent))
    {
      ok := CommitIncoming();
      if !ok {
        ending := RollBack(backedUp);
        return;
      }
      if backedUp {
        ok := RemoveBackup();
        ending := if ok then Done else Lingering;
        return;
      }
      ending := Done;
    }
  }
}
