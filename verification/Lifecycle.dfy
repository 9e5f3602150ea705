/** A queue of operations: created forward until the first failure, deleted
    backward as best it can (deployer/lifecycle.py). */
module Lifecycle {
  import opened Common
  import opened HostState
  import opened Primitives
  import opened Undo

  /** The command that fails for a reason of its own, if any: a command may fail
      at any point, also where it would apply. */
  datatype Fault = Fault(operation: nat, command: nat)

  /** How far a list of commands got. */
  datatype Partial = Partial(host: Host, applied: nat)

  function CreateOne(h: Host, cmds: seq<Cmd>, faults: set<Fault>, at: nat, from: nat): Partial
    requires from <= |cmds|
    decreases |cmds| - from
  {
    if from == |cmds| || Fault(at, from) in faults then Partial(h, from)
    else
      var r := Exec(h, cmds[from]);
      if r.None? then Partial(h, from) else CreateOne(r.value, cmds, faults, at, from + 1)
  }

  /** How far a queue got: `done` operations, and `applied` commands of the one
      that failed. */
  datatype Outcome = Outcome(host: Host, done: nat, applied: nat)

  function CreateQueue(h: Host, queue: seq<HostOp>, faults: set<Fault>, from: nat): Outcome
    requires from <= |queue|
    decreases |queue| - from
  {
    if from == |queue| then Outcome(h, from, 0)
    else
      var p := CreateOne(h, CreateCmds(queue[from]), faults, from, 0);
      if p.applied < |CreateCmds(queue[from])| then Outcome(p.host, from, p.applied)
      else CreateQueue(p.host, queue, faults, from + 1)
  }

  ghost function DeleteQueue(h: Host, queue: seq<HostOp>): Host
    decreases queue
  {
    if queue == [] then h
    else DeleteQueue(Deleted(h, queue[|queue| - 1]), queue[..|queue| - 1])
  }

  /** The controller: operations are declared first and run by `Execute`. */
  class LifecycleController {
    var queue: seq<HostOp>
    var host: Host
    const creating: bool

    constructor (creating: bool, host: Host)
      ensures queue == [] && this.host == host && this.creating == creating
    {
      queue := [];
      this.host, this.creating := host, creating;
    }

    /** `run`: nothing executes yet. */
    method Declare(op: HostOp)
      modifies `queue
      ensures queue == old(queue) + [op]
    {
      queue := queue + [op];
    }

    /** The create commands of one operation, up to the first that fails. */
    method Create(at: nat, faults: set<Fault>) returns (applied: nat)
      requires at < |queue|
      modifies `host
      ensures Partial(host, applied) == CreateOne(old(host), CreateCmds(queue[at]), faults, at, 0)
    {
      var cmds := CreateCmds(queue[at]);
      applied := 0;
      while applied < |cmds|
        invariant applied <= |cmds|
        invariant CreateOne(old(host), cmds, faults, at, 0) == CreateOne(host, cmds, faults, at, applied)
      {
        var r := Exec(host, cmds[applied]);
        if r.None? || Fault(at, applied) in faults {
          return;
        }
        host := r.value;
        applied := applied + 1;
      }
    }

    /** Every delete command of one operation, each failure passed over. */
    method Delete(at: nat)
      requires at < |queue|
      modifies `host
      ensures host == Deleted(old(host), queue[at])
    {
      var cmds := DeleteCmds(queue[at]);
      DeletedIs(host, queue[at]);
      for i := 0 to |cmds|
        invariant TryAll(old(host), cmds) == TryAll(host, cmds[i..])
      {
        var r := Exec(host, cmds[i]);
        assert cmds[i..][1..] == cmds[i + 1..];
        if r.Some? {
          host := r.value;
        }
      }
    }

    /** Forward when creating, stopping at the first failure; reversed when
        deleting, whatever fails. */
    method Execute(faults: set<Fault>) returns (done: nat)
      modifies `host
      ensures creating ==>
                var o := CreateQueue(old(host), queue, faults, 0); host == o.host && done == o.done
      ensures !creating ==> host == DeleteQueue(old(host), queue)
    {
      done := 0;
      if creating {
        while done < |queue|
          invariant done <= |queue|
          invariant CreateQueue(old(host), queue, faults, 0) == CreateQueue(host, queue, faults, done)
        {
          var applied := Create(done, faults);
          if applied < |CreateCmds(queue[done])| {
            return;
          }
          done := done + 1;
        }
      } else {
        var left := |queue|;
        assert queue[..left] == queue;
        while left > 0
          invariant left <= |queue|
          invariant DeleteQueue(old(host), queue) == DeleteQueue(host, queue[..left])
        {
          assert queue[..left][..left - 1] == queue[..left - 1];
          Delete(left - 1);
          left := left - 1;
        }
        done := |queue|;
      }
    }
  }
}
