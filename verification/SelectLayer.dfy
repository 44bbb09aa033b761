/** The critical sections of lwip_select and event_callback as they run on the socket
    array and the list of waiting tasks (src/api/sockets.c). */
module SelectLayer {
  import opened SelectProtocol

  function Signalled(w: Waiter): Waiter {
    w.(signalled := true, sem := w.sem + 1, signals := w.signals + 1)
  }

  /** Waiters that a callback could still signal; the measure of its loop. */
  function Unsignalled(list: seq<Waiter>): nat {
    if list == [] then 0 else (if list[0].signalled then 0 else 1) + Unsignalled(list[1..])
  }

  lemma {:induction false} SignalDecreases(list: seq<Waiter>, k: nat)
    requires k < |list| && !list[k].signalled
    ensures Unsignalled(Signal(list, k)) == Unsignalled(list) - 1
  {
    var list' := Signal(list, k);
    if k == 0 {
      assert list'[1..] == list[1..];
    } else {
      assert list'[1..] == Signal(list[1..], k - 1);
      SignalDecreases(list[1..], k - 1);
    }
  }

  /** `before` with the waiters that match socket s signalled. */
  predicate AllSignalled(sock: Socket, s: int, before: seq<Waiter>, after: seq<Waiter>) {
    |after| == |before| &&
    forall k :: 0 <= k < |before| ==>
      after[k] == if Matches(sock, s, before[k]) then Signalled(before[k]) else before[k]
  }

  /** The sockets below i, which the scan has got to. */
  function Below(ready: set<int>, i: int): set<int> {
    set s | s in ready && s < i
  }

  lemma OneMoreBelow(ready: set<int>, i: int)
    ensures Below(ready, i + 1) == if i in ready then Below(ready, i) + {i} else Below(ready, i)
    ensures |Below(ready, i + 1)| == |Below(ready, i)| + if i in ready then 1 else 0
  {
    assert Below(ready, i + 1) == if i in ready then Below(ready, i) + {i} else Below(ready, i);
  }

  lemma ScanBounds(sockets: seq<Socket>, want: Request, i: int)
    ensures Below(Readable(sockets, want), 0) == Below(Writable(sockets, want), 0) == {}
    ensures i >= want.maxfdp1 ==> Below(Readable(sockets, want), i) == Readable(sockets, want)
    ensures i >= want.maxfdp1 ==> Below(Writable(sockets, want), i) == Writable(sockets, want)
  {
  }

  lemma ReadyAt(sockets: seq<Socket>, want: Request, i: nat)
    requires i < want.maxfdp1
    ensures i in Readable(sockets, want) <==>
            i in want.readset && i < |sockets| && sockets[i].open && (sockets[i].lastdata || sockets[i].rcvevent > 0)
    ensures i in Writable(sockets, want) <==>
            i in want.writeset && i < |sockets| && sockets[i].open && sockets[i].sendevent
  {
  }

  class SelectState {
    const sockets: array<Socket>
    var list: seq<Waiter>

    constructor (numSockets: nat)
      ensures fresh(sockets) && sockets.Length == numSockets && list == []
      ensures forall s :: 0 <= s < numSockets ==> sockets[s] == Socket(false, false, 0, false)
    {
      sockets := new Socket[numSockets](_ => Socket(false, false, 0, false));
      list := [];
    }

    /** lwip_selscan: which of the sockets asked for have events, and how many. */
    method SelScan(want: Request) returns (nready: nat, readset: set<int>, writeset: set<int>)
      ensures readset == Readable(sockets[..], want) && writeset == Writable(sockets[..], want)
      ensures nready == |readset| + |writeset|
    {
      hide Readable, Writable, Below;
      nready, readset, writeset := 0, {}, {};
      var i := 0;
      ScanBounds(sockets[..], want, i);
      while i < want.maxfdp1
        invariant 0 <= i && (i <= want.maxfdp1 || i == 0)
        invariant readset == Below(Readable(sockets[..], want), i)
        invariant writeset == Below(Writable(sockets[..], want), i)
        invariant nready == |readset| + |writeset|
      {
        ReadyAt(sockets[..], want, i);
        OneMoreBelow(Readable(sockets[..], want), i);
        OneMoreBelow(Writable(sockets[..], want), i);
        if i in want.readset && i < sockets.Length && sockets[i].open &&
           (sockets[i].lastdata || sockets[i].rcvevent > 0) {
          readset := readset + {i};
          nready := nready + 1;
        }
        if i in want.writeset && i < sockets.Length && sockets[i].open && sockets[i].sendevent {
          writeset := writeset + {i};
          nready := nready + 1;
        }
        i := i + 1;
      }
      ScanBounds(sockets[..], want, i);
    }

    /** lwip_select up to the release of selectsem: scan, and enter the list if nothing is ready. */
    method Enter(id: nat, want: Request) returns (nready: nat, waits: bool)
      modifies this`list
      ensures nready == |Readable(sockets[..], want)| + |Writable(sockets[..], want)|
      ensures waits == (nready == 0 && !want.poll)
      ensures list == if waits then [Waiter(id, want, false, 0, 0)] + old(list) else old(list)
    {
      var r, w;
      nready, r, w := SelScan(want);
      waits := false;
      if nready == 0 {
        if want.poll {
          return;
        }
        waits := true;
        list := [Waiter(id, want, false, 0, 0)] + list;
      }
    }

    /** The second section of lwip_select: walk the list to the own entry and unlink it. */
    method Unlink(id: nat)
      modifies this`list
      ensures list == Remove(old(list), id)
    {
      if list != [] && list[0].id == id {
        list := list[1..];
      } else {
        var p := 0;
        while p + 1 < |list|
          invariant 0 <= p && (p < |list| || list == [])
          invariant list == old(list)
          invariant forall j :: 0 <= j <= p && j < |list| ==> list[j].id != id
        {
          if list[p + 1].id == id {
            RemoveAt(list, p + 1);
            list := list[..p + 1] + list[p + 2..];
            return;
          }
          p := p + 1;
        }
        NothingToRemove(list, id);
      }
    }

    /** The first section of event_callback. */
    method RecordEvent(s: int, evt: Event) returns (found: bool)
      modifies sockets
      ensures found == IsOpen(old(sockets[..]), s)
      ensures sockets[..] == if found then old(sockets[..])[s := Apply(old(sockets[..])[s], evt)] else old(sockets[..])
    {
      found := 0 <= s < sockets.Length && sockets[s].open;
      if found {
        sockets[s] := Apply(sockets[s], evt);
      }
    }

    /** One round of event_callback's loop: find a task to wake and signal it. */
    method SignalNext(s: int) returns (found: bool)
      requires 0 <= s < sockets.Length
      modifies this`list
      ensures found == (FirstMatch(sockets[s], s, old(list)) < |old(list)|)
      ensures list == if found then Signal(old(list), FirstMatch(sockets[s], s, old(list))) else old(list)
    {
      var k := 0;
      while k < |list| && !Matches(sockets[s], s, list[k])
        invariant 0 <= k <= |list|
        invariant forall j :: 0 <= j < k ==> !Matches(sockets[s], s, list[j])
      {
        k := k + 1;
      }
      found := k < |list|;
      if found {
        list := Signal(list, k);
      }
    }

    /** event_callback when nothing interferes: every task that waits for the event is
        signalled, exactly once, and no other task is. */
    method EventCallback(s: int, evt: Event)
      modifies this`list, sockets
      ensures var now := old(sockets[..]);
              if IsOpen(now, s)
              then sockets[..] == now[s := Apply(now[s], evt)] && AllSignalled(Apply(now[s], evt), s, old(list), list)
              else sockets[..] == now && list == old(list)
    {
      var found := RecordEvent(s, evt);
      if !found {
        return;
      }
      ghost var sock := sockets[s];
      ghost var set0 := sockets[..];
      var more := true;
      while more
        invariant 0 <= s < sockets.Length && sockets[..] == set0 && sock == sockets[s]
        invariant |list| == |old(list)|
        invariant forall k :: 0 <= k < |list| ==>
          list[k] == old(list)[k] || (Matches(sock, s, old(list)[k]) && list[k] == Signalled(old(list)[k]))
        invariant !more ==> forall k :: 0 <= k < |list| ==> !Matches(sock, s, list[k])
        decreases more, Unsignalled(list)
      {
        ghost var k := FirstMatch(sock, s, list);
        if k < |list| {
          SignalDecreases(list, k);
        }
        more := SignalNext(s);
      }
    }
  }

  lemma {:induction false} NothingToRemove(list: seq<Waiter>, id: nat)
    requires forall j :: 0 <= j < |list| ==> list[j].id != id
    ensures Remove(list, id) == list
  {
    if list != [] {
      NothingToRemove(list[1..], id);
    }
  }
}
