/** A table of 61 slots that gives native socket handles small descriptors, as a POSIX program
    expects them. */
module SocketTable {
  import opened Base

  const FIRST: int := 3
  const COUNT: int := 61
  const INVALID: int := -1

  /** What a native handle stands for; a duplicated handle stands for the same endpoint. */
  type Endpoint = nat

  datatype Errno = Fine | EBADF | EMFILE | System

  // ---- the table as a map from descriptors to endpoints ------------------------

  predicate InOneSlot(slots: seq<int>) {
    forall i, j :: 0 <= i < j < |slots| && slots[i] != INVALID ==> slots[i] != slots[j]
  }

  predicate SameHandles(slots: seq<int>, native: map<int, Endpoint>) {
    && INVALID !in native
    && (forall i :: 0 <= i < |slots| && slots[i] != INVALID ==> slots[i] in native)
    && (forall h :: h in native ==> h in slots)
  }

  /** The open native sockets are exactly those in the slots, and none is in two slots. */
  predicate Sound(slots: seq<int>, native: map<int, Endpoint>) {
    |slots| == COUNT && SameHandles(slots, native) && InOneSlot(slots)
  }

  type View = map<int, Endpoint>

  /** What a descriptor stands for. */
  function At(slots: seq<int>, native: map<int, Endpoint>, descriptor: int): Option<Endpoint> {
    var i := descriptor - FIRST;
    if 0 <= i < |slots| && slots[i] != INVALID && slots[i] in native then Some(native[slots[i]]) else None
  }

  function ViewOf(slots: seq<int>, native: map<int, Endpoint>): View {
    map d | FIRST <= d < FIRST + |slots| && At(slots, native, d).Some? :: At(slots, native, d).value
  }

  /** The lowest descriptor not in use from `d` on, if there is one. */
  function LowestFree(view: View, d: int): (r: Option<int>)
    requires FIRST <= d <= FIRST + COUNT
    ensures r.Some? ==> d <= r.value < FIRST + COUNT && r.value !in view
    ensures r.Some? ==> forall e :: d <= e < r.value ==> e in view
    ensures r.None? ==> forall e :: d <= e < FIRST + COUNT ==> e in view
    decreases FIRST + COUNT - d
  {
    if d == FIRST + COUNT then None
    else if d !in view then Some(d)
    else LowestFree(view, d + 1)
  }

  /** What opening or duplicating does to the table: the lowest free descriptor, or nothing. */
  function Opened(view: View, endpoint: Endpoint): View {
    var d := LowestFree(view, FIRST);
    if d.Some? then view[d.value := endpoint] else view
  }

  function DescriptorFor(view: View): int {
    var d := LowestFree(view, FIRST);
    if d.Some? then d.value else -1
  }

  lemma FilledHandles(slots: seq<int>, native: map<int, Endpoint>, i: int, h: int, endpoint: Endpoint)
    requires SameHandles(slots, native) && 0 <= i < |slots| && slots[i] == INVALID && h != INVALID
    ensures SameHandles(slots[i := h], native[h := endpoint])
  {
    var now, open := slots[i := h], native[h := endpoint];
    forall x | x in open ensures x in now {
      if x == h {
        assert now[i] == h;
      } else {
        var j :| 0 <= j < |slots| && slots[j] == x;
        assert now[j] == x;
      }
    }
  }

  lemma EmptiedHandles(slots: seq<int>, native: map<int, Endpoint>, i: int)
    requires SameHandles(slots, native) && InOneSlot(slots) && 0 <= i < |slots| && slots[i] != INVALID
    ensures SameHandles(slots[i := INVALID], native - {slots[i]})
  {
    var now, open := slots[i := INVALID], native - {slots[i]};
    forall x | x in open ensures x in now {
      var j :| 0 <= j < |slots| && slots[j] == x;
      assert now[j] == x;
    }
    forall j | 0 <= j < |now| && now[j] != INVALID ensures now[j] in open {
      assert j != i && slots[j] == now[j];
      assert slots[i] != slots[j];
    }
  }

  lemma StillInOneSlot(slots: seq<int>, i: int, h: int)
    requires InOneSlot(slots) && 0 <= i < |slots| && (h == INVALID || h !in slots)
    ensures InOneSlot(slots[i := h])
  {
  }

  lemma Filled(slots: seq<int>, native: map<int, Endpoint>, i: int, h: int, endpoint: Endpoint)
    requires Sound(slots, native) && 0 <= i < COUNT && slots[i] == INVALID
    requires h != INVALID && h !in native
    ensures Sound(slots[i := h], native[h := endpoint])
    ensures ViewOf(slots[i := h], native[h := endpoint]) == ViewOf(slots, native)[i + FIRST := endpoint]
  {
    FilledHandles(slots, native, i, h, endpoint);
    StillInOneSlot(slots, i, h);
    OthersKept(slots, native, i, h, native[h := endpoint]);
    SlotChanged(slots, native, i, h, native[h := endpoint]);
  }

  lemma Emptied(slots: seq<int>, native: map<int, Endpoint>, i: int)
    requires Sound(slots, native) && 0 <= i < COUNT && slots[i] != INVALID
    ensures Sound(slots[i := INVALID], native - {slots[i]})
    ensures ViewOf(slots[i := INVALID], native - {slots[i]}) == ViewOf(slots, native) - {i + FIRST}
  {
    EmptiedHandles(slots, native, i);
    StillInOneSlot(slots, i, INVALID);
    OthersKept(slots, native, i, INVALID, native - {slots[i]});
    SlotChanged(slots, native, i, INVALID, native - {slots[i]});
  }

  /** The handles outside slot `i` stand for the same endpoints before and after. */
  predicate KeepsOthers(slots: seq<int>, native: map<int, Endpoint>, i: int, open: map<int, Endpoint>)
    requires 0 <= i < |slots|
  {
    forall j :: 0 <= j < |slots| && j != i && slots[j] != INVALID ==>
                  slots[j] in native && slots[j] in open && open[slots[j]] == native[slots[j]]
  }

  lemma OthersKept(slots: seq<int>, native: map<int, Endpoint>, i: int, h: int, open: map<int, Endpoint>)
    requires SameHandles(slots, native) && InOneSlot(slots) && 0 <= i < |slots| && h !in native
    requires forall x :: x in native && x != slots[i] && x != h ==> x in open && open[x] == native[x]
    ensures KeepsOthers(slots, native, i, open)
  {
    forall j | 0 <= j < |slots| && j != i && slots[j] != INVALID
      ensures slots[j] in native && slots[j] in open && open[slots[j]] == native[slots[j]]
    {
      OtherHandle(slots, i, j);
    }
  }

  /** What one slot's change does to the view. */
  lemma SlotChanged(slots: seq<int>, native: map<int, Endpoint>, i: int, h: int, open: map<int, Endpoint>)
    requires 0 <= i < |slots| && INVALID !in open
    requires KeepsOthers(slots, native, i, open) && (h != INVALID ==> h in open)
    ensures ViewOf(slots[i := h], open)
            == if h == INVALID then ViewOf(slots, native) - {i + FIRST}
               else ViewOf(slots, native)[i + FIRST := open[h]]
  {
    var now := slots[i := h];
    forall d ensures At(now, open, d)
                     == if d != i + FIRST then At(slots, native, d) else if h == INVALID then None else Some(open[h])
    {
      SlotAt(slots, native, i, h, open, d);
    }
  }

  lemma SlotAt(slots: seq<int>, native: map<int, Endpoint>, i: int, h: int, open: map<int, Endpoint>, d: int)
    requires 0 <= i < |slots| && INVALID !in open
    requires KeepsOthers(slots, native, i, open) && (h != INVALID ==> h in open)
    ensures At(slots[i := h], open, d)
            == if d != i + FIRST then At(slots, native, d) else if h == INVALID then None else Some(open[h])
  {
    if 0 <= d - FIRST < |slots| && d != i + FIRST {
      assert slots[i := h][d - FIRST] == slots[d - FIRST];
    }
  }

  lemma OtherHandle(slots: seq<int>, i: int, j: int)
    requires InOneSlot(slots) && 0 <= i < |slots| && 0 <= j < |slots| && i != j && slots[j] != INVALID
    ensures slots[i] != slots[j]
  {
  }

  /** The new handle comes in before the old one is closed. */
  lemma Exchanged(slots: seq<int>, native: map<int, Endpoint>, i: int, h: int, endpoint: Endpoint)
    requires Sound(slots, native) && 0 <= i < COUNT && slots[i] != INVALID
    requires h != INVALID && h !in native
    ensures Sound(slots[i := h], native[h := endpoint] - {slots[i]})
    ensures ViewOf(slots[i := h], native[h := endpoint] - {slots[i]}) == ViewOf(slots, native)[i + FIRST := endpoint]
  {
    EmptiedHandles(slots, native, i);
    FilledHandles(slots[i := INVALID], native - {slots[i]}, i, h, endpoint);
    assert slots[i := INVALID][i := h] == slots[i := h];
    assert (native - {slots[i]})[h := endpoint] == native[h := endpoint] - {slots[i]};
    StillInOneSlot(slots, i, h);
    OthersKept(slots, native, i, h, native[h := endpoint] - {slots[i]});
    SlotChanged(slots, native, i, h, native[h := endpoint] - {slots[i]});
  }

  // ---- counting ---------------------------------------------------------------

  function Handles(slots: seq<int>): set<int> {
    set h | h in slots && h != INVALID
  }

  function UsedSlots(slots: seq<int>): nat {
    if slots == [] then 0
    else UsedSlots(slots[..|slots| - 1]) + if slots[|slots| - 1] == INVALID then 0 else 1
  }

  lemma HandlesOfPrefix(slots: seq<int>, n: nat)
    requires |slots| == n + 1
    ensures Handles(slots) == Handles(slots[..n]) + (if slots[n] == INVALID then {} else {slots[n]})
  {
    assert slots == slots[..n] + [slots[n]];
  }

  lemma LastHandleIsNew(slots: seq<int>, n: nat)
    requires InOneSlot(slots) && |slots| == n + 1 && slots[n] != INVALID
    ensures slots[n] !in Handles(slots[..n])
  {
  }

  lemma {:induction false} OneHandleASlot(slots: seq<int>)
    requires InOneSlot(slots)
    ensures |Handles(slots)| == UsedSlots(slots) <= |slots|
    ensures UsedSlots(slots) == |slots| <==> INVALID !in slots
  {
    if slots != [] {
      var n := |slots| - 1;
      OneHandleASlot(slots[..n]);
      HandlesOfPrefix(slots, n);
      if slots[n] != INVALID {
        LastHandleIsNew(slots, n);
      }
    }
  }

  /** There are never more than 61 native sockets open, and a new one is refused if and only if
      61 are. */
  lemma RefusedIffFull(slots: seq<int>, native: map<int, Endpoint>)
    requires Sound(slots, native)
    ensures |native| <= COUNT
    ensures DescriptorFor(ViewOf(slots, native)) == -1 <==> |native| == COUNT
  {
    OneHandleASlot(slots);
    forall h ensures h in native.Keys <==> h in Handles(slots) {
      if h in Handles(slots) {
        var i :| 0 <= i < |slots| && slots[i] == h;
      }
    }
    assert native.Keys == Handles(slots);
    if i :| 0 <= i < |slots| && slots[i] == INVALID {
      assert i + FIRST !in ViewOf(slots, native);
    }
    if INVALID !in slots {
      forall d | FIRST <= d < FIRST + COUNT ensures d in ViewOf(slots, native) {
        assert slots[d - FIRST] in native;
      }
    }
  }

  class Table {
    const sockets: array<int>
    var native: map<int, Endpoint>
    var errno: Errno

    ghost predicate Valid()
      reads this, sockets
    {
      Sound(sockets[..], native)
    }

    ghost function Contents(): View
      requires Valid()
      reads this, sockets
    {
      ViewOf(sockets[..], native)
    }

    constructor ()
      ensures Valid() && Contents() == map[] && native == map[] && fresh(sockets)
    {
      sockets := new int[COUNT](_ => INVALID);
      native := map[];
      errno := Fine;
    }

    method Lookup(descriptor: int) returns (handle: int)
      requires Valid()
      ensures handle != INVALID <==> descriptor in Contents()
      ensures descriptor in Contents() ==>
                handle == sockets[descriptor - FIRST] && native[handle] == Contents()[descriptor]
    {
      var index := descriptor - FIRST;
      if index < 0 || index >= COUNT {
        return INVALID;
      }
      return sockets[index];
    }

    /** Puts an open handle that is in no slot into the first empty one. */
    method Adopt(value: int, endpoint: Endpoint) returns (descriptor: int)
      requires Valid() && value != INVALID && value !in native
      modifies this`errno, sockets
      ensures descriptor == DescriptorFor(old(Contents()))
      ensures descriptor == -1 ==> sockets[..] == old(sockets[..]) && errno == EMFILE
      ensures descriptor != -1 ==>
                && Sound(sockets[..], native[value := endpoint])
                && ViewOf(sockets[..], native[value := endpoint]) == old(Contents())[descriptor := endpoint]
                && errno == old(errno)
    {
      ghost var view := Contents();
      ghost var slots := sockets[..];
      var index := 0;
      while index < COUNT
        invariant 0 <= index <= COUNT
        invariant LowestFree(view, FIRST) == LowestFree(view, FIRST + index)
      {
        if sockets[index] == INVALID {
          Filled(slots, native, index, value, endpoint);
          sockets[index] := value;
          assert sockets[..] == slots[index := value];
          return index + FIRST;
        }
        assert FIRST + index in view;
        index := index + 1;
      }
      errno := EMFILE;
      return -1;
    }

    /** `made` is the handle the system gave, if it gave one; it is new.  `configured`: the
        handle could be made non-blocking. */
    method Socket(made: Option<int>, endpoint: Endpoint, configured: bool) returns (descriptor: int)
      requires Valid()
      requires made.Some? ==> made.value != INVALID && made.value !in native
      modifies this, sockets
      ensures Valid()
      ensures made.Some? && configured ==>
                descriptor == DescriptorFor(old(Contents())) && Contents() == Opened(old(Contents()), endpoint)
      ensures !(made.Some? && configured) ==> descriptor == -1 && errno == System && Contents() == old(Contents())
      ensures descriptor == -1 ==> native == old(native) && sockets[..] == old(sockets[..])
    {
      if made.None? {
        errno := System;
        return -1;
      }
      if !configured {
        errno := System;
        return -1;
      }
      descriptor := Adopt(made.value, endpoint);
      if descriptor >= 0 {
        native := native[made.value := endpoint];
      }
    }

    method CloseSocket(descriptor: int) returns (code: int)
      requires Valid()
      modifies this, sockets
      ensures Valid() && Contents() == old(Contents()) - {descriptor}
      ensures code == if descriptor in old(Contents()) then 0 else -1
      ensures code == -1 ==> errno == EBADF && native == old(native) && sockets[..] == old(sockets[..])
    {
      var value := Lookup(descriptor);
      if value == INVALID {
        errno := EBADF;
        return -1;
      }
      var index := descriptor - FIRST;
      Emptied(sockets[..], native, index);
      ghost var slots := sockets[..];
      sockets[index] := INVALID;
      native := native - {value};
      assert sockets[..] == slots[index := INVALID];
      return 0;
    }

    method DupSocket(descriptor: int, made: Option<int>) returns (copy: int)
      requires Valid()
      requires made.Some? ==> made.value != INVALID && made.value !in native
      modifies this, sockets
      ensures Valid()
      ensures descriptor in old(Contents()) && made.Some? ==>
                && copy == DescriptorFor(old(Contents()))
                && Contents() == Opened(old(Contents()), old(Contents())[descriptor])
      ensures !(descriptor in old(Contents()) && made.Some?) ==> copy == -1 && Contents() == old(Contents())
      ensures copy == -1 ==> native == old(native) && sockets[..] == old(sockets[..])
      ensures descriptor !in old(Contents()) ==> errno == EBADF
    {
      var source := Lookup(descriptor);
      if source == INVALID {
        errno := EBADF;
        return -1;
      }
      if made.None? {
        errno := System;
        return -1;
      }
      copy := Adopt(made.value, native[source]);
      if copy >= 0 {
        native := native[made.value := native[source]];
      }
    }

    /** Onto an empty, an occupied or the same descriptor. */
    method Dup2Socket(descriptor: int, destination: int, made: Option<int>) returns (copy: int)
      requires Valid()
      requires made.Some? ==> made.value != INVALID && made.value !in native
      modifies this, sockets
      ensures Valid()
      ensures var done := descriptor in old(Contents()) && FIRST <= destination < FIRST + COUNT && made.Some?;
              && copy == (if done then destination else -1)
              && (if done then Contents() == old(Contents())[destination := old(Contents())[descriptor]]
                  else native == old(native) && sockets[..] == old(sockets[..]))
      ensures !(descriptor in old(Contents()) && FIRST <= destination < FIRST + COUNT) ==> errno == EBADF
    {
      var source := Lookup(descriptor);
      var index := destination - FIRST;
      if source == INVALID || index < 0 || index >= COUNT {
        errno := EBADF;
        return -1;
      }
      if made.None? {
        errno := System;
        return -1;
      }
      var endpoint := native[source];
      var was := sockets[index];
      ghost var slots := sockets[..];
      if was == INVALID {
        Filled(slots, native, index, made.value, endpoint);
      } else {
        Exchanged(slots, native, index, made.value, endpoint);
      }
      sockets[index] := made.value;
      assert sockets[..] == slots[index := made.value];
      native := native[made.value := endpoint];
      if was != INVALID {
        native := native - {was};
      }
      return destination;
    }
  }
}
