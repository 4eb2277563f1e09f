/**
 * The logger's record pool and pending queue as a sequential state
 * machine.  Records are identified by the order in which they were
 * created (0, 1, 2, ...).  The pool lends records to producers
 * (`PopUnit`), producers hand formatted records to the pending queue
 * (`PushUnit`), and the consumer swaps the whole queue into a batch,
 * writes each record and returns it to the free list (`ConsumerStep`).
 * Waiting on a condition variable is represented by an outcome that
 * says the caller would block; the caller retries by calling again.
 */
module Loggers {
  import opened LogLevels

  /** What `PopUnit` gives a producer: no record, a record, or "would wait for one". */
  datatype PopResult = None | Unit(id: nat) | WouldBlock

  /**
   * Where the consumer is in its loop: about to test the loop condition,
   * blocked waiting for the pending queue, or out of the loop for good.
   */
  datatype Phase = Running | Waiting | Exited

  /** What one step of the consumer did. */
  datatype StepResult = Idle | Drained(batch: seq<nat>) | Finished

  /** The records created so far. */
  ghost function Units(n: nat): set<nat>
  {
    if n == 0 then {} else Units(n - 1) + {n - 1}
  }

  /** The records created so far are exactly the identities below the count, and there are that many. */
  lemma {:induction false} UnitsCard(n: nat)
    ensures |Units(n)| == n
    ensures forall u: nat :: u in Units(n) <==> u < n
  {
    if n > 0 {
      UnitsCard(n - 1);
      forall u: nat ensures u in Units(n) <==> u < n {
        assert u in Units(n) <==> u in Units(n - 1) || u == n - 1;
      }
      assert n - 1 !in Units(n - 1);
    }
  }

  /**
   * Ownership: every created record is in exactly one place: the free
   * list, the pending queue, the consumer's batch, or the hands of a
   * producer, and nothing else is anywhere.
   */
  ghost predicate Owned(free: seq<nat>, queue: seq<nat>, batch: seq<nat>, held: set<nat>, created: nat)
  {
    multiset(free) + multiset(queue) + multiset(batch) + multiset(held) == multiset(Units(created))
  }

  /** Under the ownership invariant, each record has exactly one owner, and only created records have one. */
  lemma OwnedExactlyOnce(free: seq<nat>, queue: seq<nat>, batch: seq<nat>, held: set<nat>, created: nat, u: nat)
    requires Owned(free, queue, batch, held, created)
    ensures multiset(free)[u] + multiset(queue)[u] + multiset(batch)[u] + (if u in held then 1 else 0)
            == if u < created then 1 else 0
  {
    UnitsCard(created);
    assert multiset(held)[u] == if u in held then 1 else 0;
    assert multiset(Units(created))[u] == if u < created then 1 else 0;
  }

  /** Records are never duplicated: the live ones number exactly as many as were created. */
  lemma LiveBound(free: seq<nat>, queue: seq<nat>, batch: seq<nat>, held: set<nat>, created: nat)
    requires Owned(free, queue, batch, held, created)
    ensures |free| + |queue| + |batch| + |held| == created
  {
    UnitsCard(created);
    assert |multiset(Units(created))| == created;
    assert |multiset(free) + multiset(queue) + multiset(batch) + multiset(held)|
        == |free| + |queue| + |batch| + |held|;
  }

  /** Handing out the last free record moves it into a producer's hands; it was held by nobody before. */
  lemma TakeLast(free: seq<nat>, queue: seq<nat>, held: set<nat>, created: nat)
    requires Owned(free, queue, [], held, created) && |free| > 0
    ensures free[|free| - 1] !in held
    ensures Owned(free[..|free| - 1], queue, [], held + {free[|free| - 1]}, created)
    ensures |free[..|free| - 1]| + |queue| + |held + {free[|free| - 1]}| == created
  {
    var id := free[|free| - 1];
    OwnedExactlyOnce(free, queue, [], held, created, id);
    assert free == free[..|free| - 1] + [id];
    assert multiset(free) == multiset(free[..|free| - 1]) + multiset{id};
    assert multiset(held + {id}) == multiset(held) + multiset{id};
    LiveBound(free[..|free| - 1], queue, [], held + {id}, created);
  }

  /** Creating a record puts the new identity into a producer's hands. */
  lemma CreateOne(free: seq<nat>, queue: seq<nat>, held: set<nat>, created: nat)
    requires Owned(free, queue, [], held, created)
    ensures created !in held
    ensures Owned(free, queue, [], held + {created}, created + 1)
    ensures |free| + |queue| + |held + {created}| == created + 1
  {
    OwnedExactlyOnce(free, queue, [], held, created, created);
    assert Units(created + 1) == Units(created) + {created};
    UnitsCard(created);
    assert multiset(Units(created + 1)) == multiset(Units(created)) + multiset{created};
    assert multiset(held + {created}) == multiset(held) + multiset{created};
    LiveBound(free, queue, [], held + {created}, created + 1);
  }

  /** Pushing a held record moves it to the end of the queue. */
  lemma PushOne(free: seq<nat>, queue: seq<nat>, held: set<nat>, created: nat, id: nat)
    requires Owned(free, queue, [], held, created) && id in held
    ensures Owned(free, queue + [id], [], held - {id}, created)
  {
    assert multiset(held) == multiset(held - {id}) + multiset{id};
    assert multiset(queue + [id]) == multiset(queue) + multiset{id};
  }

  /** Writing the next record of the batch and returning it to the free list keeps every record owned once. */
  lemma ReturnOne(free: seq<nat>, batch: seq<nat>, held: set<nat>, created: nat, i: nat)
    requires i < |batch| && Owned(free, [], batch[i..], held, created)
    ensures Owned(free + [batch[i]], [], batch[i + 1..], held, created)
  {
    assert batch[i..] == [batch[i]] + batch[i + 1..];
    assert multiset(batch[i..]) == multiset{batch[i]} + multiset(batch[i + 1..]);
    assert multiset(free + [batch[i]]) == multiset(free) + multiset{batch[i]};
  }

  class Logger {
    /** The severity threshold. */
    const level: Level
    /** Most records the pool will ever create (the reserved capacity of the free list). */
    const maxCnt: nat
    /** Records created so far. */
    var created: nat
    /** Returned records; the last one is handed out first. */
    var free: seq<nat>
    /** Formatted records waiting for the consumer, oldest first. */
    var task: seq<nat>
    var stopASAP: bool
    var consumer: Phase
    /** Records popped by producers and not yet pushed. */
    ghost var held: set<nat>
    /** Every record ever pushed, in push order. */
    ghost var pushed: seq<nat>
    /** Every record the consumer has written to the file, in write order. */
    ghost var written: seq<nat>

    ghost predicate Valid()
      reads this
    {
      && created <= maxCnt
      && Owned(free, task, [], held, created)
      && |free| + |task| + |held| == created
      && pushed == written + task
      && (consumer == Exited ==> stopASAP)
    }

    constructor (level: Level, maxCnt: nat := 50)
      ensures Valid()
      ensures this.level == level && this.maxCnt == maxCnt
      ensures created == 0 && free == [] && task == [] && !stopASAP && consumer == Running
      ensures held == {} && pushed == [] && written == []
    {
      this.level := level;
      this.maxCnt := maxCnt;
      created := 0;
      free := [];
      task := [];
      stopASAP := false;
      consumer := Running;
      held := {};
      pushed := [];
      written := [];
    }

    /**
     * Get a record for a message of level `lv`: nothing if the level is
     * below the threshold or the logger is stopping; otherwise the most
     * recently returned record, or a newly created one while fewer than
     * `maxCnt` exist; otherwise the caller would wait.
     */
    method PopUnit(lv: Level) returns (r: PopResult)
      requires Valid()
      modifies this`free, this`created, this`held
      ensures Valid()
      ensures r == if Below(lv, level) || old(stopASAP) then None
                   else if |old(free)| > 0 then Unit(old(free)[|old(free)| - 1])
                   else if old(created) < maxCnt then Unit(old(created))
                   else WouldBlock
      ensures free == if r.Unit? && |old(free)| > 0 then old(free)[..|old(free)| - 1] else old(free)
      ensures created == if r.Unit? && |old(free)| == 0 then old(created) + 1 else old(created)
      ensures held == if r.Unit? then old(held) + {r.id} else old(held)
      ensures r.Unit? ==> r.id !in old(held)
    {
      if Below(lv, level) {
        return None;
      }
      if stopASAP {
        return None;
      }
      if |free| > 0 {
        var id := free[|free| - 1];
        TakeLast(free, task, held, created);
        free := free[..|free| - 1];
        held := held + {id};
        r := Unit(id);
      } else if created < maxCnt {
        var id := created;
        CreateOne(free, task, held, created);
        created := created + 1;
        held := held + {id};
        r := Unit(id);
      } else {
        return WouldBlock;
      }
    }

    /** Hand a popped and formatted record to the consumer: it joins the end of the pending queue. */
    method PushUnit(id: nat)
      requires Valid() && id in held
      modifies this`task, this`held, this`pushed
      ensures Valid()
      ensures task == old(task) + [id]
      ensures held == old(held) - {id}
      ensures pushed == old(pushed) + [id]
    {
      PushOne(free, task, held, created, id);
      task := task + [id];
      held := held - {id};
      pushed := pushed + [id];
      LiveBound(free, task, [], held, created);
    }

    /** Ask the logger to stop.  Only the consumer is woken; a producer waiting for a free record is not. */
    method Stop()
      requires Valid()
      modifies this`stopASAP
      ensures Valid() && stopASAP
      ensures consumer == old(consumer) && task == old(task) && free == old(free) && written == old(written)
    {
      stopASAP := true;
    }

    /**
     * One step of the consumer loop.  Out of the loop, nothing happens.
     * At the top of the loop a stop request ends the loop without looking
     * at the queue.  Otherwise the consumer waits while the queue is empty
     * and no stop is requested; once either changes it swaps the whole
     * queue into its batch, writes the batch's records in order, returns
     * each to the free list in the same order, and goes back to the top.
     */
    method ConsumerStep() returns (r: StepResult)
      requires Valid()
      modifies this`task, this`free, this`written, this`consumer
      ensures Valid()
      ensures stopASAP == old(stopASAP) && created == old(created) && held == old(held)
      ensures r == if old(consumer) == Exited || (old(consumer) == Running && old(stopASAP)) then Finished
                   else if old(task) == [] && !old(stopASAP) then Idle
                   else Drained(old(task))
      ensures r.Finished? ==> consumer == Exited && task == old(task) && free == old(free) && written == old(written)
      ensures r.Idle? ==> consumer == Waiting && task == old(task) && free == old(free) && written == old(written)
      ensures r.Drained? ==>
                && consumer == Running
                && task == []
                && written == old(written) + r.batch
                && free == old(free) + r.batch
    {
      if consumer == Exited {
        return Finished;
      }
      if consumer == Running && stopASAP {
        consumer := Exited;
        return Finished;
      }
      if task == [] && !stopASAP {
        consumer := Waiting;
        return Idle;
      }
      var batch := task;
      task := [];
      WriteBatch(batch);
      consumer := Running;
      r := Drained(batch);
      LiveBound(free, task, [], held, created);
    }

    /**
     * The consumer's loop over a swapped-out batch: each record in turn
     * is written to the file and returned to the end of the free list.
     * Throughout, every record is owned once, the rest of the batch being
     * one of its owners.
     */
    method WriteBatch(batch: seq<nat>)
      requires Owned(free, [], batch, held, created)
      modifies this`free, this`written
      ensures free == old(free) + batch && written == old(written) + batch
      ensures Owned(free, [], [], held, created)
    {
      assert batch[0..] == batch;
      var i := 0;
      while i < |batch|
        invariant 0 <= i <= |batch|
        invariant free == old(free) + batch[..i]
        invariant written == old(written) + batch[..i]
        invariant Owned(free, [], batch[i..], held, created)
      {
        ReturnOne(free, batch, held, created, i);
        written := written + [batch[i]];
        free := free + [batch[i]];
        i := i + 1;
      }
      assert batch[..i] == batch;
      assert batch[i..] == [];
    }
  }

  /**
   * A pool of two records: a message below the threshold takes nothing,
   * and two held records exhaust the pool, so a third request would wait.
   */
  method BackpressureScenario()
  {
    var logger := new Logger(Notice, 2);
    var a := logger.PopUnit(Info);
    assert a == None;
    var u := logger.PopUnit(Warning);
    assert u == Unit(0) && logger.created == 1 && logger.free == [];
    var v := logger.PopUnit(Error);
    assert v == Unit(1) && logger.created == 2 && logger.free == [];
    var w := logger.PopUnit(Notice);
    assert w == WouldBlock;
  }

  /**
   * A stop that reaches a waiting consumer: the queue is swapped and
   * written once more, the loop then ends, and records are no longer
   * handed out.
   */
  method StopWhileWaitingScenario()
  {
    var logger := new Logger(Debug, 2);
    var step := logger.ConsumerStep();
    assert step == Idle && logger.consumer == Waiting;
    var a := logger.PopUnit(Info);
    assert a == Unit(0) && logger.consumer == Waiting;
    logger.PushUnit(0);
    logger.Stop();
    assert logger.task == [0] && logger.written == [] && logger.consumer == Waiting && logger.stopASAP;
    step := logger.ConsumerStep();
    assert step == Drained([0]) && logger.written == [0];
    assert logger.consumer == Running && logger.stopASAP;
    step := logger.ConsumerStep();
    assert step == Finished && logger.consumer == Exited;
    var b := logger.PopUnit(Error);
    assert b == None;
  }

  /**
   * A record held when the logger stops and pushed once the consumer has
   * left its loop stays queued for good: it is never written.
   */
  method PushAfterExitScenario()
  {
    var logger := new Logger(Debug, 1);
    var a := logger.PopUnit(Info);
    assert a == Unit(0) && logger.held == {0};
    logger.Stop();
    var step := logger.ConsumerStep();
    assert step == Finished && logger.consumer == Exited && logger.written == [];
    logger.PushUnit(0);
    assert logger.task == [0] && logger.written == [];
    step := logger.ConsumerStep();
    assert logger.task == [0] && logger.written == [] && logger.consumer == Exited;
  }
}
