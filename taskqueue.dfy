/**
 * The task queue (taskqueue.go): a table of entries by id that keeps a
 * second post with the same id from running, in front of a bounded FIFO
 * buffer (a Go channel of capacity queueLen) that a dispatcher drains.
 *
 * The dispatcher goroutine, its semaphore and the locking are not modelled.
 * Whether the dispatcher is waiting to receive is a parameter of a post;
 * such a receiver takes the entry straight away, as a Go channel does,
 * which is how a queue of capacity zero accepts anything at all.
 */
module TaskQueue {

  /** A posted task; `done` models the closing of its done channel. */
  class QueueEntry {
    const id: string
    var done: bool

    constructor (id: string)
      ensures this.id == id && !done
    {
      this.id := id;
      done := false;
    }
  }

  class Queue {
    /** queueLen, the capacity of the buffer. */
    const capacity: nat
    /** Entries posted and not yet received by the dispatcher, oldest first. */
    var buffer: seq<QueueEntry>
    /** Entries the dispatcher has received, in order. */
    var received: seq<QueueEntry>
    /** The entries table: a posted entry with a non-empty id until it finishes. */
    var entries: map<string, QueueEntry>

    /** The buffer never holds more than its capacity, the empty id is never
        a key, and every entry sits under its own id. */
    ghost predicate Valid()
      reads this
    {
      && |buffer| <= capacity
      && "" !in entries
      && forall id :: id in entries ==> entries[id].id == id
    }

    /** NewTaskQueue, without starting the dispatcher. */
    constructor (queueLen: nat)
      ensures Valid() && capacity == queueLen
      ensures buffer == [] && received == [] && entries == map[]
    {
      capacity := queueLen;
      buffer := [];
      received := [];
      entries := map[];
    }

    /** No field of the queue changed. */
    twostate predicate Unchanged()
      reads this
    {
      buffer == old(buffer) && received == old(received) && entries == old(entries)
    }

    /** Whether a send on the channel can complete now: there is room, or
        the buffer is empty and the dispatcher is waiting to receive. */
    predicate CanSend(receiverWaiting: bool)
      reads this
    {
      |buffer| < capacity || (receiverWaiting && buffer == [])
    }

    /** The channel send: a waiting receiver takes the entry from an empty
        buffer, otherwise it joins the end of the buffer. */
    method Send(e: QueueEntry, receiverWaiting: bool)
      requires Valid() && CanSend(receiverWaiting)
      modifies this
      ensures Valid() && entries == old(entries)
      ensures if receiverWaiting && old(buffer) == []
              then buffer == [] && received == old(received) + [e]
              else buffer == old(buffer) + [e] && received == old(received)
    {
      if receiverWaiting && buffer == [] {
        received := received + [e];
      } else {
        buffer := buffer + [e];
      }
    }

    /** PostTask: a blocking post waits until the send can complete, which
        is the state it is called in here; a non-blocking one gives up and
        answers false when the send cannot complete. */
    method PostTask(e: QueueEntry, block: bool, receiverWaiting: bool) returns (ok: bool)
      requires Valid() && (block ==> CanSend(receiverWaiting))
      modifies this
      ensures Valid() && entries == old(entries)
      ensures ok <==> old(CanSend(receiverWaiting))
      ensures !ok ==> buffer == old(buffer) && received == old(received)
      ensures ok && receiverWaiting && old(buffer) == [] ==> buffer == [] && received == old(received) + [e]
      ensures ok && !(receiverWaiting && old(buffer) == []) ==> buffer == old(buffer) + [e] && received == old(received)
    {
      if !block && !CanSend(receiverWaiting) {
        return false;
      }
      Send(e, receiverWaiting);
      return true;
    }

    /** addTaskState: an id that is already in the table gives back its
        entry and false, changing nothing. Otherwise a new entry is made,
        recorded under a non-empty id and posted; when a non-blocking post
        fails, the record is taken back and the answer is (null, false). */
    method AddTaskState(id: string, block: bool, receiverWaiting: bool) returns (ts: QueueEntry?, ok: bool)
      requires Valid() && (block ==> CanSend(receiverWaiting))
      modifies this
      ensures Valid()
      ensures id in old(entries) ==> ts == old(entries)[id] && !ok && Unchanged()
      ensures id !in old(entries) && !old(CanSend(receiverWaiting)) ==>
        ts == null && !ok && Unchanged()
      ensures id !in old(entries) && old(CanSend(receiverWaiting)) ==>
        && ok && ts != null && fresh(ts) && ts.id == id && !ts.done
        && entries == (if id == "" then old(entries) else old(entries)[id := ts])
        && (if receiverWaiting && old(buffer) == []
            then buffer == [] && received == old(received) + [ts]
            else buffer == old(buffer) + [ts] && received == old(received))
    {
      if id in entries {
        return entries[id], false;
      }
      ts := new QueueEntry(id);
      var saved := entries;
      if id != "" {
        entries := entries[id := ts];
      }
      if !block {
        var sent := PostTask(ts, block, receiverWaiting);
        if !sent {
          entries := entries - {id};
          assert entries == saved == old(entries);
          assert buffer == old(buffer) && received == old(received);
          return null, false;
        }
      } else {
        var _ := PostTask(ts, block, receiverWaiting);
      }
      return ts, true;
    }

    /** PostWithId: the blocking post. */
    method PostWithId(id: string, receiverWaiting: bool) returns (ts: QueueEntry?, ok: bool)
      requires Valid() && CanSend(receiverWaiting)
      modifies this
      ensures Valid()
      ensures id in old(entries) ==> ts == old(entries)[id] && !ok && Unchanged()
      ensures id !in old(entries) ==>
        && ok && ts != null && fresh(ts) && ts.id == id && !ts.done
        && entries == (if id == "" then old(entries) else old(entries)[id := ts])
        && (if receiverWaiting && old(buffer) == []
            then buffer == [] && received == old(received) + [ts]
            else buffer == old(buffer) + [ts] && received == old(received))
    {
      ts, ok := AddTaskState(id, true, receiverWaiting);
    }

    /** TryPostWithId: the non-blocking post. */
    method TryPostWithId(id: string, receiverWaiting: bool) returns (ts: QueueEntry?, ok: bool)
      requires Valid()
      modifies this
      ensures Valid()
      ensures id in old(entries) ==> ts == old(entries)[id] && !ok && Unchanged()
      ensures id !in old(entries) && !old(CanSend(receiverWaiting)) ==>
        ts == null && !ok && Unchanged()
      ensures id !in old(entries) && old(CanSend(receiverWaiting)) ==>
        && ok && ts != null && fresh(ts) && ts.id == id && !ts.done
        && entries == (if id == "" then old(entries) else old(entries)[id := ts])
        && (if receiverWaiting && old(buffer) == []
            then buffer == [] && received == old(received) + [ts]
            else buffer == old(buffer) + [ts] && received == old(received))
    {
      ts, ok := AddTaskState(id, false, receiverWaiting);
    }

    /** The dispatcher's receive: the oldest buffered entry leaves the buffer. */
    method Take() returns (e: QueueEntry)
      requires Valid() && buffer != []
      modifies this
      ensures Valid() && entries == old(entries)
      ensures e == old(buffer)[0] && buffer == old(buffer)[1..] && received == old(received) + [e]
    {
      e := buffer[0];
      buffer := buffer[1..];
      received := received + [e];
    }

    /** QueueEntry.finish: the entry is done and its id leaves the table, so
        the id may be posted again. Closing a closed channel panics in Go,
        so an entry finishes once. */
    method Finish(e: QueueEntry)
      requires Valid() && !e.done
      modifies this, e
      ensures Valid() && e.done
      ensures entries == old(entries) - {e.id}
      ensures buffer == old(buffer) && received == old(received)
    {
      e.done := true;
      entries := entries - {e.id};
    }
  }

  /** Two non-blocking posts under one id and one under another: the second
      gets the first's entry back and is not queued, so the id runs once. */
  method DuplicateIdRunsOnce() returns (ok1: bool, ok2: bool, ok3: bool, same: bool, queued: nat)
    ensures ok1 && !ok2 && ok3 && same && queued == 2
  {
    var q := new Queue(10);
    var t1, t2, t3;
    t1, ok1 := q.TryPostWithId("TaskA", false);
    t2, ok2 := q.TryPostWithId("TaskA", false);
    t3, ok3 := q.TryPostWithId("TaskB", false);
    same := t1 == t2;
    queued := |q.buffer|;
  }

  /** Posts without an id are never matched against each other: all three
      are queued and the table stays empty. */
  method AnonymousPostsAllRun() returns (ok1: bool, ok2: bool, ok3: bool, queued: nat, recorded: nat)
    ensures ok1 && ok2 && ok3 && queued == 3 && recorded == 0
  {
    var q := new Queue(10);
    var t1, t2, t3;
    t1, ok1 := q.PostWithId("", false);
    t2, ok2 := q.PostWithId("", false);
    t3, ok3 := q.PostWithId("", false);
    queued := |q.buffer|;
    recorded := |q.entries|;
  }

  /** With a buffer of capacity zero, a non-blocking post succeeds only
      when the dispatcher is waiting to receive. */
  method ZeroCapacity() returns (first: bool, second: bool, secondIsNull: bool)
    ensures first && !second && secondIsNull
  {
    var q := new Queue(0);
    var t1, t2;
    t1, first := q.TryPostWithId("", true);
    t2, second := q.TryPostWithId("", false);
    secondIsNull := t2 == null;
  }

  /** Once an entry finishes, its id is accepted again. */
  method FinishAllowsRepost() returns (before: bool, again: bool, after: bool)
    ensures !before && again && after
  {
    var q := new Queue(10);
    var t1, t2, t3, ok1;
    t1, ok1 := q.TryPostWithId("A", false);
    t2, before := q.TryPostWithId("A", false);
    var e := q.Take();
    q.Finish(e);
    t3, again := q.TryPostWithId("A", false);
    after := "A" in q.entries;
  }
}
