/** The message queue of ipc.c.  Copying a message into or out of its node happens with
    interrupts enabled, between two regions with interrupts disabled; each region and each copy
    is one method, so any sequence of calls is an interleaving of any number of threads. */
module MessageQueue {
  import opened Lists
  import opened WaitLists
  import opened MessageNodes

  datatype Outcome = Done | TooLong | NoRoom | TimedOut | Blocked

  /** The free list of rt_mq_init: every node, the last one first. */
  method BuildFree(maxMsgs: nat) returns (links: array<int>, start: int, ghost nodes: seq<nat>)
    ensures fresh(links) && links.Length == maxMsgs && Chain(links[..], start, nodes)
    ensures Once(nodes) && Ids(nodes) == Nodes(maxMsgs) && |nodes| == maxMsgs
  {
    links, start, nodes := new int[maxMsgs], NULL, [];
    var temp := 0;
    while temp < maxMsgs
      invariant temp <= maxMsgs && Chain(links[..], start, nodes)
      invariant Once(nodes) && Ids(nodes) == Nodes(temp) && |nodes| == temp
    {
      ChainPushed(links[..], start, nodes, temp);
      Prepended(nodes, temp);
      links[temp] := start;
      start := temp;
      nodes := [temp] + nodes;
      temp := temp + 1;
    }
  }

  class MessageQueue {
    const byPriority: bool
    const maxMsgs: nat
    const msgSize: nat
    const next: array<int>
    const payload: array<seq<nat>>
    var head: int
    var tail: int
    var free: int
    var entry: nat
    var receivers: seq<nat>
    var senders: seq<nat>

    /** The nodes in the queue and in the free list, those taken by senders and by receivers for
        copying, and among the senders' those that are ready to be linked at the end. */
    ghost var queue: seq<nat>
    ghost var freeList: seq<nat>
    ghost var sending: set<nat>
    ghost var receiving: set<nat>
    ghost var copied: set<nat>
    ghost var wokenReceivers: set<nat>
    ghost var wokenSenders: set<nat>

    ghost predicate Linked()
      reads this, next, payload
    {
      && next.Length == payload.Length == maxMsgs
      && Chain(next[..], head, queue) && Chain(next[..], free, freeList)
      && tail == (if queue == [] then NULL else queue[|queue| - 1])
      && Partition(maxMsgs, queue, freeList, sending, receiving)
      && copied <= sending && (forall x :: x in copied ==> x < maxMsgs && next[x] == NULL)
    }

    ghost predicate Sized()
      reads payload
    {
      payload.Length == maxMsgs && forall x :: 0 <= x < maxMsgs ==> |payload[x]| == msgSize
    }

    ghost predicate Valid()
      reads this, next, payload
    {
      && Linked() && Sized() && entry == |queue|
      && NoneLost(Channel(receivers, wokenReceivers), entry)
      && NoneLost(Channel(senders, wokenSenders), |freeList|)
    }

    /** The messages in the order they will be received. */
    ghost function Messages(): seq<seq<nat>>
      requires Linked()
      reads this, next, payload
    {
      Payloads(payload[..], queue)
    }

    /** rt_mq_init, on a pool of messages that the caller provides. */
    constructor (pool: array<seq<nat>>, msgSize: nat, byPriority: bool)
      requires forall x :: 0 <= x < pool.Length ==> |pool[x]| == msgSize
      ensures Valid() && Messages() == [] && |freeList| == maxMsgs == pool.Length
      ensures payload == pool && this.msgSize == msgSize && this.byPriority == byPriority && fresh(next)
      ensures sending == receiving == {} && receivers == senders == [] && wokenReceivers == wokenSenders == {}
    {
      var links, start, nodes := BuildFree(pool.Length);
      this.maxMsgs, this.msgSize, this.byPriority := pool.Length, msgSize, byPriority;
      next, payload := links, pool;
      head, tail, free, entry := NULL, NULL, start, 0;
      receivers, senders := [], [];
      queue, freeList, sending, receiving, copied := [], nodes, {}, {}, {};
      wokenReceivers, wokenSenders := {}, {};
      AllFree(pool.Length, nodes);
    }

    /** Taking a free node, first or again after having been resumed (rt_mq_send_wait). */
    method SendBegin(t: nat, size: nat, timeout: int, priority: nat -> nat) returns (r: Outcome, msg: int)
      requires Valid() && t !in Ids(senders) && size > 0 && (size > msgSize ==> t !in wokenSenders)
      modifies this`free, this`senders, this`freeList, this`sending, this`wokenSenders
      ensures Valid() && Messages() == old(Messages())
      ensures r == TooLong <==> size > msgSize
      ensures r == Done <==> size <= msgSize && old(freeList) != []
      ensures r == Done ==>
        msg == old(freeList)[0] && freeList == old(freeList)[1..] && sending == old(sending) + {old(freeList)[0]}
      ensures r == Done ==> senders == old(senders) && wokenSenders == old(wokenSenders) - {t}
      ensures r == NoRoom <==> size <= msgSize && old(freeList) == [] && timeout == 0
      ensures r == NoRoom ==> senders == old(senders) && wokenSenders == old(wokenSenders) - {t}
      ensures r != TimedOut && (r != Done ==> sending == old(sending) && freeList == old(freeList))
      ensures r == TooLong ==> senders == old(senders) && wokenSenders == old(wokenSenders)
      ensures r == Blocked ==>
        exists p: nat ::
          SuspendPlace(old(senders), byPriority, priority, t, p) && senders == Inserted(old(senders), p, t)
    {
      msg := free;
      if size > msgSize {
        r := TooLong;
      } else if msg != NULL {
        TakeFree(t);
        r := Done;
      } else {
        var blocked;
        blocked, senders := GiveUpOrSleep(senders, wokenSenders, byPriority, priority, t, timeout);
        wokenSenders := wokenSenders - {t};
        r := if blocked then Blocked else NoRoom;
      }
    }

    /** mq->msg_queue_free = msg->next */
    method TakeFree(t: nat)
      requires Valid() && free != NULL
      modifies this`free, this`freeList, this`sending, this`wokenSenders
      ensures Valid() && old(freeList) != [] && old(free) == old(freeList)[0]
      ensures freeList == old(freeList)[1..] && sending == old(sending) + {old(freeList)[0]}
      ensures wokenSenders == old(wokenSenders) - {t}
    {
      assert freeList[0] in Ids(freeList);
      OnceTail(freeList);
      TookOk(Channel(senders, wokenSenders), |freeList|, t);
      free := next[free];
      sending := sending + {freeList[0]};
      freeList := freeList[1..];
      wokenSenders := wokenSenders - {t};
    }

    /** rt_memcpy into a node that nobody else sees. */
    method Copy(msg: nat, buffer: seq<nat>)
      requires Valid() && msg in sending && 0 < |buffer| <= msgSize
      modifies payload
      ensures Valid() && Messages() == old(Messages())
      ensures msg < maxMsgs && payload[msg][..|buffer|] == buffer
      ensures forall x :: 0 <= x < maxMsgs && x != msg ==> payload[x] == old(payload[x])
    {
      assert msg in Nodes(maxMsgs);
      PayloadsElsewhere(payload[..], queue, msg, buffer + payload[msg][|buffer|..]);
      payload[msg] := buffer + payload[msg][|buffer|..];
    }

    /** The copy of rt_mq_send_wait, which also ends the chain at the node. */
    method SendCopy(msg: nat, buffer: seq<nat>)
      requires Valid() && msg in sending && 0 < |buffer| <= msgSize
      modifies next, payload, this`copied
      ensures Valid() && Messages() == old(Messages()) && copied == old(copied) + {msg}
      ensures msg < maxMsgs && payload[msg][..|buffer|] == buffer
      ensures forall x :: 0 <= x < maxMsgs && x != msg ==> payload[x] == old(payload[x])
    {
      assert msg in Nodes(maxMsgs);
      ChainElsewhere(next[..], head, queue, msg, NULL);
      ChainElsewhere(next[..], free, freeList, msg, NULL);
      next[msg] := NULL;
      copied := copied + {msg};
      Copy(msg, buffer);
    }

    /** A receiver is resumed for a new message. */
    method ResumeReceiver(ghost before: nat)
      requires NoneLost(Channel(receivers, wokenReceivers), before)
      modifies this`receivers, this`wokenReceivers
      ensures NoneLost(Channel(receivers, wokenReceivers), before + 1)
      ensures FirstWakes(old(receivers), old(wokenReceivers), receivers, wokenReceivers)
    {
      receivers, wokenReceivers := ResumeFirst(receivers, wokenReceivers, before);
    }

    /** The second region of rt_mq_send_wait: the message goes to the end of the queue. */
    method SendLink(msg: nat)
      requires Valid() && msg in copied
      modifies next, this`head, this`tail, this`entry
      modifies this`receivers, this`queue, this`sending, this`copied, this`wokenReceivers
      ensures Valid() && Messages() == old(Messages()) + [payload[msg]]
      ensures sending == old(sending) - {msg} && queue == old(queue) + [msg]
      ensures FirstWakes(old(receivers), old(wokenReceivers), receivers, wokenReceivers)
    {
      Append(msg);
      entry := entry + 1;
      ResumeReceiver(entry - 1);
    }

    method Append(msg: nat)
      requires Linked() && msg in copied
      modifies next, this`head, this`tail, this`queue, this`sending, this`copied
      ensures Linked() && Messages() == old(Messages()) + [payload[msg]]
      ensures sending == old(sending) - {msg} && queue == old(queue) + [msg]
    {
      PayloadsAppended(payload[..], queue, msg);
      ChainAppended(next[..], head, queue, msg);
      OnceAppended(queue, msg);
      if tail != NULL {
        assert tail in Ids(queue);
        ChainElsewhere(next[..], free, freeList, tail, msg);
        next[tail] := msg;
      }
      tail := msg;
      if head == NULL {
        head := msg;
      }
      queue, sending, copied := queue + [msg], sending - {msg}, copied - {msg};
    }

    /** The second region of rt_mq_urgent: the message goes to the front. */
    method UrgentLink(msg: nat)
      requires Valid() && msg in sending
      modifies next, this`head, this`tail, this`entry
      modifies this`receivers, this`queue, this`sending, this`copied, this`wokenReceivers
      ensures Valid() && msg < maxMsgs && Messages() == [payload[msg]] + old(Messages())
      ensures sending == old(sending) - {msg} && queue == [msg] + old(queue)
      ensures FirstWakes(old(receivers), old(wokenReceivers), receivers, wokenReceivers)
    {
      Prepend(msg);
      entry := entry + 1;
      ResumeReceiver(entry - 1);
    }

    method Prepend(msg: nat)
      requires Linked() && msg in sending
      modifies next, this`head, this`tail, this`queue, this`sending, this`copied
      ensures Linked() && msg < maxMsgs && Messages() == [payload[msg]] + old(Messages())
      ensures sending == old(sending) - {msg} && queue == [msg] + old(queue)
    {
      assert msg in Nodes(maxMsgs);
      ChainPushed(next[..], head, queue, msg);
      ChainElsewhere(next[..], free, freeList, msg, head);
      Prepended(queue, msg);
      assert ([msg] + queue)[1..] == queue;
      next[msg] := head;
      head := msg;
      if tail == NULL {
        tail := msg;
      }
      queue, sending, copied := [msg] + queue, sending - {msg}, copied - {msg};
    }

    /** The first region of rt_mq_urgent, which never waits. */
    method UrgentBegin(size: nat) returns (r: Outcome, msg: int)
      requires Valid() && size > 0
      modifies this`free, this`freeList, this`sending
      ensures Valid() && Messages() == old(Messages())
      ensures r == if size > msgSize then TooLong else if old(freeList) == [] then NoRoom else Done
      ensures r != Done ==> sending == old(sending) && freeList == old(freeList)
      ensures r == Done ==>
        msg == old(freeList)[0] && freeList == old(freeList)[1..] && sending == old(sending) + {old(freeList)[0]}
    {
      msg := free;
      r := if size > msgSize then TooLong else if msg == NULL then NoRoom else Done;
      if r == Done {
        assert freeList[0] in Ids(freeList);
        OnceTail(freeList);
        free := next[free];
        sending := sending + {freeList[0]};
        freeList := freeList[1..];
      }
    }

    /** The first region of rt_mq_recv, entered first or again after having been resumed. */
    method ReceiveBegin(t: nat, timeout: int, priority: nat -> nat) returns (r: Outcome, msg: int)
      requires Valid() && t !in Ids(receivers)
      modifies this`head, this`tail, this`entry, this`receivers, this`queue, this`receiving, this`wokenReceivers
      ensures Valid()
      ensures r == Done <==> old(queue) != []
      ensures r == Done ==> msg == old(queue)[0] && 0 <= msg < maxMsgs && old(Messages()) == [payload[msg]] + Messages()
      ensures r == Done ==>
        && receiving == old(receiving) + {old(queue)[0]}
        && receivers == old(receivers)
        && wokenReceivers == old(wokenReceivers) - {t}
      ensures r == TimedOut <==> old(queue) == [] && timeout == 0
      ensures r == TimedOut ==> receivers == old(receivers) && wokenReceivers == old(wokenReceivers) - {t}
      ensures r in {TimedOut, Blocked, Done}
      ensures (r != Done ==> Messages() == old(Messages()) && receiving == old(receiving))
      ensures r == Blocked ==>
        exists p: nat ::
          SuspendPlace(old(receivers), byPriority, priority, t, p) && receivers == Inserted(old(receivers), p, t)
    {
      msg := NULL;
      if entry > 0 {
        msg := Unlink(t);
        r := Done;
      } else {
        var blocked;
        blocked, receivers := GiveUpOrSleep(receivers, wokenReceivers, byPriority, priority, t, timeout);
        wokenReceivers := wokenReceivers - {t};
        r := if blocked then Blocked else TimedOut;
      }
    }

    /** The first message leaves the queue. */
    method Unlink(t: nat) returns (msg: int)
      requires Valid() && entry > 0
      modifies this`head, this`tail, this`entry, this`queue, this`receiving, this`wokenReceivers
      ensures Valid() && msg == old(queue)[0] && 0 <= msg < maxMsgs && old(Messages()) == [payload[msg]] + Messages()
      ensures queue == old(queue)[1..] && receiving == old(receiving) + {old(queue)[0]}
      ensures wokenReceivers == old(wokenReceivers) - {t}
    {
      TookOk(Channel(receivers, wokenReceivers), entry, t);
      msg := Pop();
      entry := entry - 1;
      wokenReceivers := wokenReceivers - {t};
    }

    method Pop() returns (msg: int)
      requires Linked() && queue != []
      modifies this`head, this`tail, this`queue, this`receiving
      ensures Linked() && msg == old(queue)[0] && 0 <= msg < maxMsgs && old(Messages()) == [payload[msg]] + Messages()
      ensures queue == old(queue)[1..] && receiving == old(receiving) + {old(queue)[0]}
    {
      assert queue[0] in Ids(queue) && queue[|queue| - 1] in Ids(queue);
      OnceTail(queue);
      msg := head;
      head := next[msg];
      if tail == msg {
        tail := NULL;
      }
      receiving := receiving + {queue[0]};
      queue := queue[1..];
    }

    /** The copy of a receiver. */
    method ReceiveCopy(msg: nat, size: nat) returns (bytes: seq<nat>)
      requires Valid() && msg in receiving && size > 0 && msg < maxMsgs
      ensures bytes == payload[msg][..if size > msgSize then msgSize else size]
    {
      bytes := payload[msg][..if size > msgSize then msgSize else size];
    }

    /** The second region of rt_mq_recv: the node becomes free, and a sender is resumed. */
    method ReceiveEnd(msg: nat)
      requires Valid() && msg in receiving
      modifies next, this`free, this`senders, this`freeList, this`receiving, this`wokenSenders
      ensures Valid() && Messages() == old(Messages())
      ensures receiving == old(receiving) - {msg} && freeList == [msg] + old(freeList)
      ensures FirstWakes(old(senders), old(wokenSenders), senders, wokenSenders)
    {
      Release(msg);
      senders, wokenSenders := ResumeFirst(senders, wokenSenders, |freeList| - 1);
    }

    method Release(msg: nat)
      requires Linked() && msg in receiving
      modifies next, this`free, this`freeList, this`receiving
      ensures Linked() && Messages() == old(Messages())
      ensures receiving == old(receiving) - {msg} && freeList == [msg] + old(freeList)
    {
      assert msg in Nodes(maxMsgs);
      ChainElsewhere(next[..], head, queue, msg, free);
      ChainPushed(next[..], free, freeList, msg);
      Prepended(freeList, msg);
      assert ([msg] + freeList)[1..] == freeList;
      next[msg] := free;
      free := msg;
      freeList, receiving := [msg] + freeList, receiving - {msg};
    }

    /** The timer of a suspended thread runs out. */
    method Expire(t: nat)
      requires Valid()
      modifies this`receivers, this`senders
      ensures Valid() && Messages() == old(Messages())
      ensures receivers == Unlinked(old(receivers), t) && senders == Unlinked(old(senders), t)
    {
      LeftOk(Channel(receivers, wokenReceivers), entry, t);
      LeftOk(Channel(senders, wokenSenders), |freeList|, t);
      receivers, senders := Unlinked(receivers, t), Unlinked(senders, t);
    }

    /** rt_mq_control with RT_IPC_CMD_RESET: all suspended threads return with an error, and all
        queued messages are dropped; copies under way are not disturbed. */
    method Reset()
      requires Valid()
      modifies next, this`head, this`tail, this`free, this`entry
      modifies this`receivers, this`senders, this`queue, this`freeList, this`receiving
      ensures Valid() && Messages() == [] && entry == 0
      ensures receivers == senders == [] && sending == old(sending) && receiving == old(receiving)
      ensures |freeList| == |old(freeList)| + |old(queue)|
    {
      receivers, senders := [], [];
      ghost var count := |freeList| + |queue|;
      while head != NULL
        invariant Linked() && sending == old(sending) && receiving == old(receiving) && |freeList| + |queue| == count
        invariant receivers == senders == []
        decreases |queue|
      {
        DropFirst();
      }
      entry := 0;
    }

    /** The first message is dropped. */
    method DropFirst()
      requires Linked() && queue != []
      modifies next, this`head, this`tail, this`free, this`queue, this`freeList, this`receiving
      ensures Linked() && receiving == old(receiving)
      ensures |queue| == |old(queue)| - 1 && |freeList| == |old(freeList)| + 1
    {
      assert queue[0] in Ids(queue);
      var msg := Pop();
      Release(msg);
      assert receiving == old(receiving);
    }

    /** Once every resumed thread has looked again, a suspended receiver means an empty queue, and
        a suspended sender means that no node is free. */
    lemma NobodySleepsInVain()
      requires Valid() && wokenReceivers == wokenSenders == {}
      ensures receivers != [] ==> Messages() == []
      ensures senders != [] ==> free == NULL
    {
      if entry > 0 {
        Quiescent(Channel(receivers, wokenReceivers), entry);
      }
      if |freeList| > 0 {
        Quiescent(Channel(senders, wokenSenders), |freeList|);
      }
    }

    /** No node is ever lost: messages, free nodes and copies under way add up. */
    lemma NodesConserved()
      requires Valid()
      ensures |Messages()| + |freeList| + |sending| + |receiving| == maxMsgs
      ensures entry == |Messages()| && (head == NULL <==> tail == NULL) && (head == NULL <==> entry == 0)
    {
      Conserved(maxMsgs, queue, freeList, sending, receiving);
    }
  }
}
