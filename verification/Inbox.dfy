/**
 * The stack around one subscriber, statement by statement: the inbox lookup, the attempts, the
 * audit write, the inbox row, and the dead-letter publish, each changing the world. Every
 * method is the like-named middleware of the composed stack.
 */
module Inbox {
  import opened Errors
  import opened Delivery
  import opened Pipeline

  class Subscription {
    const oracle: Oracle
    const name: string
    const maxRetries: nat
    var world: World

    constructor (oracle: Oracle, name: string, maxRetries: nat, world: World)
      ensures this.oracle == oracle && this.name == name && this.maxRetries == maxRetries && this.world == world
    {
      this.oracle := oracle;
      this.name := name;
      this.maxRetries := maxRetries;
      this.world := world;
    }

    /** One attempt of the handler; a panic becomes an error. */
    method Attempt(m: string) returns (r: Outcome)
      modifies this
      ensures (world, r) == Recoverer(Subscriber(oracle, name))(m, old(world))
    {
      var a := oracle(world.tick).attempt;
      world := World(world.tick + 1, world.inbox, world.dead, world.audits, world.runs + [Run(Item(m, name), a)]);
      match a {
        case Succeeds => return Returned(Nil);
        case Fails(e) => return Returned(Some(e));
        case Panics(text) => return Returned(Some(Plain("panic occurred: " + text)));
      }
    }

    /** Attempts until one succeeds, may not be retried, or was the last allowed. */
    method AttemptWithRetries(m: string) returns (r: Outcome)
      modifies this
      ensures (world, r) == Retry(maxRetries, oracle, Recoverer(Subscriber(oracle, name)))(m, old(world))
    {
      ghost var h := Recoverer(Subscriber(oracle, name));
      var n := 0;
      while true
        invariant n <= maxRetries
        invariant RetryFrom(maxRetries, oracle, h, m, old(world), 0) == RetryFrom(maxRetries, oracle, h, m, world, n)
        decreases maxRetries - n
      {
        var tick := world.tick;
        r := Attempt(m);
        if !(r.Returned? && r.err.Some? && Retries(maxRetries, n, r.err.err, oracle(tick).cancelled)) {
          return;
        }
        n := n + 1;
      }
    }

    /** One audit write after the last attempt. */
    method Audited(m: string) returns (r: Outcome)
      modifies this
      ensures (world, r) == Inner(oracle, maxRetries, name)(m, old(world))
    {
      r := AttemptWithRetries(m);
      if !r.Panicked? {
        world := World(world.tick + 1, world.inbox, world.dead, world.audits + [AuditEntry(Item(m, name), r.err.Nil?)], world.runs);
      }
    }

    /** Check, run, insert on success. */
    method Receive(m: string) returns (r: Outcome)
      modifies this
      ensures (world, r) == Idempotency(oracle, name, Inner(oracle, maxRetries, name))(m, old(world))
    {
      var look := oracle(world.tick).io;
      var processed := Item(m, name) in world.inbox;
      world := Ticked(world);
      if !look.Done? {
        return Returned(Some(Wrap("inbox: lookup", [look.err])));
      }
      if processed {
        return Returned(Nil);
      }
      r := Audited(m);
      if r != Returned(Nil) {
        return;
      }
      var insert := oracle(world.tick).io;
      world := Ticked(world);
      if !insert.Broken? {
        world := world.(inbox := world.inbox + {Item(m, name)});
      }
      if !insert.Done? {
        return Returned(Some(Wrap("inbox: record", [insert.err])));
      }
    }

    /** The whole stack: what fails goes to the dead-letter topic. */
    method Handle(m: string) returns (r: Outcome)
      modifies this
      ensures (world, r) == Stack(oracle, maxRetries, name)(m, old(world))
    {
      r := Receive(m);
      if r == Returned(Nil) || r.Panicked? {
        return;
      }
      var publish := oracle(world.tick).io;
      var canceled := IsCanceled(r.err.err);
      world := Ticked(world);
      if canceled {
        return;
      }
      if !publish.Broken? {
        world := world.(dead := world.dead + [Item(m, name)]);
      }
      r := if publish.Done? then Returned(Nil) else Returned(Some(Wrap("cannot publish", [r.err.err, publish.err])));
    }
  }
}
