/**
  The queue object itself: the critical sections of `MessageQueue`, updating its fields in place. Each
  method is tied to the state function of the same name; the lemmas of module MessageQueue say what those
  functions keep, and module QueueMonitor runs them from any number of threads.
 */
module MessageQueueClass {
  import opened Common
  import opened Expiry
  import MQ = MessageQueue

  class MessageQueue {
    const config: MQ.Config
    var queue: seq<MQ.Entry>
    var totalBytes: int
    var closed: bool
    // How often each condition variable has been signalled.
    var notEmptyOne: nat
    var notFullOne: nat
    var notEmptyAll: nat
    var notFullAll: nat
    ghost var clock: nat
    ghost var enqueued: seq<MQ.Entry>
    ghost var fates: seq<MQ.Fate>
    ghost var popped: seq<Message>

    ghost function View(): MQ.State
      reads this
    {
      MQ.State(queue, totalBytes, closed, clock, enqueued, fates, popped)
    }

    /** The calls on the condition variables since the old state are exactly `sig`. */
    twostate predicate Signalled(sig: MQ.Signals)
      reads this
    {
      && notEmptyOne == old(notEmptyOne) + sig.notEmptyOne
      && notFullOne == old(notFullOne) + sig.notFullOne
      && notFullAll == old(notFullAll) + (if sig.notFullAll then 1 else 0)
      && notEmptyAll == old(notEmptyAll)
    }

    constructor (hwmBytes: nat, policy: Policy, ttl: int)
      ensures View() == MQ.START && config == MQ.Config(hwmBytes, policy, ttl)
    {
      config := MQ.Config(hwmBytes, policy, ttl);
      queue, totalBytes, closed := [], 0, false;
      notEmptyOne, notFullOne, notEmptyAll, notFullAll := 0, 0, 0, 0;
      clock, enqueued, fates, popped := 0, [], [], [];
    }

    /** Removes the front message; its history records why. */
    method DropFront(ghost fate: MQ.Fate)
      requires queue != []
      modifies `queue, `totalBytes, `fates
      ensures View() == MQ.DropFront(old(View()), fate)
    {
      totalBytes := totalBytes - |queue[0].msg|;
      queue := queue[1..];
      fates := fates + [fate];
    }

    /** The enqueueing tail of `push`. */
    method Append(msg: Message, now: nat)
      modifies `queue, `totalBytes, `clock, `enqueued, `notEmptyOne
      ensures View() == MQ.Enqueue(config, old(View()), msg, now)
      ensures notEmptyOne == old(notEmptyOne) + 1
    {
      var e := MQ.Entry(msg, if config.ttl > 0 then now + config.ttl else 0);
      queue := queue + [e];
      totalBytes := totalBytes + |msg|;
      clock, enqueued := now, enqueued + [e];
      notEmptyOne := notEmptyOne + 1;
    }

    /** kDropOld's loop: drop the oldest message until there is space. */
    method DropUntilSpace()
      modifies `queue, `totalBytes, `fates
      ensures View() == MQ.Evict(config, old(View()))
    {
      while !MQ.HasSpace(config, totalBytes) && queue != []
        invariant MQ.Evict(config, View()) == MQ.Evict(config, old(View()))
        decreases |queue|
      {
        DropFront(MQ.Evicted);
      }
    }

    /** `PushMustWait` stands for falling asleep on `not_full_cv_`. */
    method Push(msg: Message, now: nat) returns (r: MQ.PushOutcome)
      modifies this
      ensures View() == MQ.Push(config, old(View()), msg, now).0
      ensures r == MQ.Push(config, old(View()), msg, now).1
      ensures Signalled(MQ.Push(config, old(View()), msg, now).2)
    {
      if closed {
        return MQ.PushClosed;
      }
      var size := |msg|;
      if !MQ.HasSpace(config, totalBytes) || (totalBytes + size > config.hwm && config.hwm > 0) {
        match config.policy {
          case Block =>
            if !(closed || MQ.HasSpace(config, totalBytes) || config.hwm == 0 || totalBytes + size <= config.hwm) {
              return MQ.PushMustWait;
            }
          case DropNew =>
            return MQ.DroppedNew;
          case DropOld =>
            DropUntilSpace();
          case FailFast =>
            return MQ.WouldBlock;
        }
      }
      Append(msg, now);
      return MQ.Enqueued;
    }

    /** A kBlock push that has woken up and holds the lock again; it goes on as a new push would. */
    method PushAwake(msg: Message, now: nat) returns (r: MQ.PushOutcome)
      requires config.policy == Block
      modifies this
      ensures View() == MQ.Push(config, old(View()), msg, now).0
      ensures r == MQ.Push(config, old(View()), msg, now).1
      ensures Signalled(MQ.Push(config, old(View()), msg, now).2)
    {
      if !(closed || MQ.HasSpace(config, totalBytes) || config.hwm == 0 || totalBytes + |msg| <= config.hwm) {
        return MQ.PushMustWait;
      }
      if closed {
        return MQ.PushClosed;
      }
      Append(msg, now);
      return MQ.Enqueued;
    }

    /** The loop that `pop` and `try_pop` share; only `pop` signals for every message it skips. */
    method SkipFrontExpired(now: nat, signal: bool)
      modifies `queue, `totalBytes, `fates, `notFullOne
      ensures View() == MQ.SkipExpired(old(View()), now)
      ensures |queue| <= |old(queue)|
      ensures notFullOne == old(notFullOne) + if signal then |old(queue)| - |queue| else 0
    {
      while queue != []
        invariant MQ.SkipExpired(View(), now) == MQ.SkipExpired(old(View()), now)
        invariant |queue| <= |old(queue)|
        invariant notFullOne == old(notFullOne) + if signal then |old(queue)| - |queue| else 0
        decreases |queue|
      {
        if !(queue[0].deadline != 0 && now > queue[0].deadline) {
          break;
        }
        DropFront(MQ.Expired(now));
        if signal { notFullOne := notFullOne + 1; }
      }
    }

    /** `PopMustWait` stands for falling asleep on `not_empty_cv_`. */
    method Pop(now: nat) returns (r: MQ.PopOutcome)
      modifies this
      ensures View() == MQ.Pop(old(View()), now).0
      ensures r == MQ.Pop(old(View()), now).1
      ensures Signalled(MQ.Pop(old(View()), now).2)
    {
      if queue == [] {
        return if closed then MQ.PopClosed else MQ.PopMustWait;
      }
      clock := now;
      SkipFrontExpired(now, true);
      if queue == [] {
        return if closed then MQ.PopClosed else MQ.AllExpired;
      }
      var result := queue[0].msg;
      DropFront(MQ.Popped(now));
      popped := popped + [result];
      notFullOne := notFullOne + 1;
      return MQ.Delivered(result);
    }

    method TryPop(now: nat) returns (r: Option<Message>)
      modifies this
      ensures View() == MQ.TryPop(old(View()), now).0
      ensures r == MQ.TryPop(old(View()), now).1
      ensures Signalled(MQ.TryPop(old(View()), now).2)
    {
      if queue == [] {
        return None;
      }
      clock := now;
      SkipFrontExpired(now, false);
      if queue == [] {
        return None;
      }
      var result := queue[0].msg;
      DropFront(MQ.Popped(now));
      popped := popped + [result];
      notFullOne := notFullOne + 1;
      return Some(result);
    }

    /** Walks an iterator along the queue and erases what it finds expired. */
    method EraseExpired(now: nat) returns (purged: nat)
      modifies `queue, `totalBytes
      ensures queue == Keep(old(queue), MQ.DeadAt(now))
      ensures purged == |old(queue)| - |queue|
      ensures totalBytes == old(totalBytes) - (MQ.Bytes(old(queue)) - MQ.Bytes(queue))
    {
      purged := 0;
      var it := 0;
      while it < |queue|
        invariant 0 <= it <= |queue| <= |old(queue)|
        invariant forall i | 0 <= i < it :: !MQ.IsExpired(queue[i], now)
        invariant Keep(queue, MQ.DeadAt(now)) == Keep(old(queue), MQ.DeadAt(now))
        invariant purged == |old(queue)| - |queue|
        invariant totalBytes - MQ.Bytes(queue) == old(totalBytes) - MQ.Bytes(old(queue))
        decreases |queue| - it
      {
        if queue[it].deadline != 0 && now > queue[it].deadline {
          KeepErasing(queue, it, MQ.DeadAt(now));
          BytesErasing(queue, it);
          totalBytes := totalBytes - |queue[it].msg|;
          queue := queue[..it] + queue[it + 1..];
          purged := purged + 1;
        } else {
          it := it + 1;
        }
      }
      KeepAll(queue, MQ.DeadAt(now));
    }

    method PurgeExpired(now: nat) returns (purged: nat)
      modifies this
      ensures View() == MQ.Purge(config, old(View()), now).0
      ensures purged == MQ.Purge(config, old(View()), now).1
      ensures Signalled(MQ.Purge(config, old(View()), now).2)
    {
      if config.ttl == 0 {
        return 0;
      }
      purged := EraseExpired(now);
      clock := now;
      fates := fates + Repeat(purged, MQ.Expired(now));
      if purged > 0 {
        notFullAll := notFullAll + 1;
      }
    }

    static lemma BytesErasing(q: seq<MQ.Entry>, i: nat)
      requires i < |q|
      ensures MQ.Bytes(q) == MQ.Bytes(q[..i] + q[i + 1..]) + |q[i].msg|
    {
      var front, rest := q[..i], q[i + 1..];
      assert q == front + ([q[i]] + rest);
      MQ.BytesConcat(front, rest);
      MQ.BytesConcat(front, [q[i]] + rest);
    }

    method Close()
      modifies this
      ensures View() == MQ.Close(old(View())) && closed && queue == old(queue) && totalBytes == old(totalBytes)
      ensures notFullAll == old(notFullAll) + 1 && notEmptyAll == old(notEmptyAll) + 1
      ensures notFullOne == old(notFullOne) && notEmptyOne == old(notEmptyOne)
    {
      closed := true;
      notFullAll := notFullAll + 1;
      notEmptyAll := notEmptyAll + 1;
    }
  }
}
