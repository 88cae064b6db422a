/** The blocking map and the send window as objects: every method performs one operation of UtpSendWindow. */
module UtpWindowObjects {
  import opened Results
  import opened UtpSeq
  import opened UtpSendWindow

  class BlockingMap<V> {
    var entries: map<nat, V>
    var capacity: nat
    var waitingSetters: seq<Setter<V>>
    /** The promises handed out and the settling calls made on them. */
    var settled: seq<Settlement>
    var issued: nat

    function View(): Blocking<V>
      reads this
    {
      Blocking(entries, capacity, waitingSetters, settled, issued)
    }

    constructor (capacity: nat)
      ensures View() == Blocking(map[], capacity, [], [], 0)
    {
      entries, this.capacity, waitingSetters, settled, issued := map[], capacity, [], [], 0;
    }

    method ResolveNextSetter()
      modifies this`entries, this`waitingSetters, this`settled
      ensures View() == Admit(old(View()))
    {
      while waitingSetters != [] && |entries| < capacity
        invariant Admit(View()) == old(Admit(View()))
        decreases |waitingSetters|
      {
        var first := waitingSetters[0];
        waitingSetters := waitingSetters[1..];
        entries := entries[first.key := first.value];
        settled := settled + [Settlement(first.ticket, true)];
      }
    }

    /** Returns the number of the promise, which may be settled already. */
    method Set(key: nat, value: V) returns (ticket: nat)
      modifies this
      ensures View() == UtpSendWindow.Set(old(View()), key, value) && ticket == old(issued)
    {
      ticket := issued;
      issued := issued + 1;
      if |entries| < capacity {
        entries := entries[key := value];
        settled := settled + [Settlement(ticket, true)];
        ResolveNextSetter();
      } else {
        waitingSetters := waitingSetters + [Setter(key, value, ticket)];
      }
    }

    method Delete(key: nat) returns (deleted: bool)
      modifies this`entries, this`waitingSetters, this`settled
      ensures View() == UtpSendWindow.Delete(old(View()), key) && (deleted <==> key in old(entries))
    {
      deleted := key in entries;
      if deleted {
        entries := entries - {key};
        ResolveNextSetter();
      }
    }

    method Clear()
      modifies this`entries, this`waitingSetters, this`settled
      ensures View() == UtpSendWindow.Clear(old(View()))
    {
      entries := map[];
      ResolveNextSetter();
    }

    method Abort()
      modifies this`entries, this`waitingSetters, this`settled
      ensures View() == UtpSendWindow.Abort(old(View()))
    {
      entries := map[];
      var setters := waitingSetters;
      waitingSetters := [];
      ghost var before := settled;
      assert setters[0..] == setters;
      for k := 0 to |setters|
        invariant entries == map[] && waitingSetters == []
        invariant settled + Rejections(setters[k..]) == before + Rejections(setters)
      {
        assert setters[k..][0] == setters[k] && setters[k..][1..] == setters[k + 1..];
        settled := settled + [Settlement(setters[k].ticket, false)];
      }
    }

    method UpdateCapacity(capacity: nat)
      modifies this`capacity, this`entries, this`waitingSetters, this`settled
      ensures View() == UtpSendWindow.UpdateCapacity(old(View()), capacity)
    {
      this.capacity := capacity;
      ResolveNextSetter();
    }
  }

  class SendWindow<V> {
    const packetMap: BlockingMap<V>
    var latestCumulativeAck: Option<nat>
    var remoteWindowBytes: Option<nat>
    var deliveryError: bool
    var flushWaiters: seq<nat>
    /** The flush promises handed out and the settling calls made on them. */
    var flushSettled: seq<Settlement>
    var flushIssued: nat

    function View(): Window<V>
      reads this, packetMap
    {
      Window(packetMap.View(), latestCumulativeAck, remoteWindowBytes, deliveryError, flushWaiters, flushSettled, flushIssued)
    }

    constructor ()
      ensures View() == Initial() && fresh(packetMap)
    {
      packetMap := new BlockingMap(MIN_WINDOW);
      latestCumulativeAck, remoteWindowBytes, deliveryError := None, None, false;
      flushWaiters, flushSettled, flushIssued := [], [], 0;
    }

    method ApplyWindowSize(congestion: int, mtu: nat)
      requires mtu > 0
      modifies packetMap
      ensures View() == UtpSendWindow.ApplyWindowSize(old(View()), congestion, mtu)
    {
      packetMap.UpdateCapacity(WindowSize(remoteWindowBytes, congestion, mtu));
    }

    /** Settles every waiting flush. */
    method SettleFlushWaiters(resolved: bool)
      modifies this`flushWaiters, this`flushSettled
      ensures flushWaiters == [] && flushSettled == old(flushSettled) + Outcomes(old(flushWaiters), resolved)
    {
      var waiters := flushWaiters;
      flushWaiters := [];
      ghost var before := flushSettled;
      for k := 0 to |waiters|
        invariant flushWaiters == [] && flushSettled == before + Outcomes(waiters[..k], resolved)
      {
        assert waiters[..k + 1][..k] == waiters[..k];
        flushSettled := flushSettled + [Settlement(waiters[k], resolved)];
      }
      assert waiters[..|waiters|] == waiters;
    }

    method Fail()
      modifies this`deliveryError, this`flushWaiters, this`flushSettled, packetMap
      ensures View() == UtpSendWindow.Fail(old(View()))
    {
      hide Outcomes;
      if deliveryError {
        return;
      }
      deliveryError := true;
      packetMap.Abort();
      SettleFlushWaiters(false);
    }

    method Submit(key: nat, value: V) returns (ticket: Option<nat>)
      modifies packetMap
      ensures View() == Step(old(View()), Event.Submit(key, value))
      ensures ticket == if old(deliveryError) then None else Some(old(packetMap.issued))
    {
      if deliveryError {
        return None;
      }
      var issued := packetMap.Set(key, value);
      ticket := Some(issued);
    }

    method Flush() returns (ticket: nat)
      modifies this
      ensures View() == UtpSendWindow.Flush(old(View())) && ticket == old(flushIssued)
    {
      ticket := flushIssued;
      flushIssued := flushIssued + 1;
      if deliveryError {
        flushSettled := flushSettled + [Settlement(ticket, false)];
      } else if packetMap.entries == map[] {
        flushSettled := flushSettled + [Settlement(ticket, true)];
      } else {
        flushWaiters := flushWaiters + [ticket];
      }
    }

    method DeleteAcked(keys: seq<nat>)
      modifies packetMap
      ensures packetMap.View() == DeleteAll(old(packetMap.View()), keys)
    {
      hide Delete;
      assert keys[0..] == keys;
      for k := 0 to |keys|
        invariant DeleteAll(packetMap.View(), keys[k..]) == old(DeleteAll(packetMap.View(), keys))
      {
        assert keys[k..][0] == keys[k] && keys[k..][1..] == keys[k + 1..];
        var deleted := packetMap.Delete(keys[k]);
      }
    }

    method DeleteUpTo(latest: nat, keys: seq<nat>)
      modifies packetMap
      ensures packetMap.View() == DeleteAll(old(packetMap.View()), Acked(latest, keys))
    {
      hide Delete, Ge;
      assert keys[0..] == keys;
      for k := 0 to |keys|
        invariant DeleteAll(packetMap.View(), Acked(latest, keys[k..])) == old(DeleteAll(packetMap.View(), Acked(latest, keys)))
      {
        ghost var rest := Acked(latest, keys[k + 1..]);
        assert keys[k..][0] == keys[k] && keys[k..][1..] == keys[k + 1..];
        if Ge(latest, keys[k]) {
          assert Acked(latest, keys[k..]) == [keys[k]] + rest && ([keys[k]] + rest)[1..] == rest;
          var deleted := packetMap.Delete(keys[k]);
        } else {
          assert Acked(latest, keys[k..]) == [] + rest == rest;
        }
      }
    }

    method HandleAck(ackNr: nat, remoteBytes: nat, sack: seq<nat>, order: seq<nat>, congestion: int, mtu: nat)
      requires mtu > 0
      modifies this, packetMap
      ensures View() == UtpSendWindow.HandleAck(old(View()), ackNr, remoteBytes, sack, order, congestion, mtu)
    {
      hide DeleteAll, Acked, Gt, Outcomes, WindowSize, UtpSendWindow.UpdateCapacity;
      remoteWindowBytes := Some(remoteBytes);
      if latestCumulativeAck.None? || Gt(ackNr, latestCumulativeAck.value) {
        latestCumulativeAck := Some(ackNr);
      }
      DeleteAcked(sack);
      DeleteUpTo(latestCumulativeAck.value, order);
      ApplyWindowSize(congestion, mtu);
      if packetMap.entries == map[] && !deliveryError {
        SettleFlushWaiters(true);
      }
    }

    /** A packet that has been sent again as often as allowed. */
    method GiveUp(key: nat, congestion: int, mtu: nat)
      requires mtu > 0
      modifies this`deliveryError, this`flushWaiters, this`flushSettled, packetMap
      ensures View() == Loss(old(View()), key, congestion, mtu)
    {
      hide UtpSendWindow.Fail, WindowSize, Delete, UtpSendWindow.UpdateCapacity;
      if key in packetMap.entries {
        ApplyWindowSize(congestion, mtu);
        var deleted := packetMap.Delete(key);
        Fail();
      }
    }

    method Reset(withError: bool)
      modifies this, packetMap
      ensures View() == UtpSendWindow.Reset(old(View()), withError)
    {
      hide UtpSendWindow.Fail, UtpSendWindow.UpdateCapacity, UtpSendWindow.Clear;
      if withError {
        Fail();
      } else {
        packetMap.Clear();
      }
      latestCumulativeAck := None;
      remoteWindowBytes := None;
      packetMap.UpdateCapacity(MIN_WINDOW);
    }
  }
}
