/**
 The pool of commands in flight of one entity (avdecc/avdecc.c).

 Every entry of `storage` sits on exactly one list: the free list or the in-flight list of one of the
 three users (ACMP, AECP towards the network, AECP towards the application).  The lists hold indices into
 `storage`; they are intrusive in the original, so insertion is at the head.
 */
module InflightPool {

  const HEADS: nat := 3
  const ACMP_HEAD: nat := 0

  /** What an entry remembers of the command it tracks. */
  datatype Command = Command(msgType: nat, sequenceId: nat, listenerUid: nat,
                             talker: nat, talkerUid: nat, retried: bool)

  datatype Entry = Entry(command: Command, timerRunning: bool)

  /** Where an entry is: on the free list, taken by a caller that has not queued it yet, or in flight. */
  datatype Place = Free | Held | Listed(head: nat)

  datatype Verdict = TimerRestart | TimerStop

  ghost predicate NoDup(s: seq<nat>) {
    forall i, j :: 0 <= i < j < |s| ==> s[i] != s[j]
  }

  /** The lists agree with the place of every entry, so no entry is on two lists or twice on one. */
  ghost predicate Placed(place: seq<Place>, free: seq<nat>, lists: seq<seq<nat>>) {
    && |lists| == HEADS
    && NoDup(free)
    && (forall i :: 0 <= i < |free| ==> free[i] < |place| && place[free[i]] == Free)
    && (forall k :: 0 <= k < |place| && place[k] == Free ==> k in free)
    && (forall h :: 0 <= h < HEADS ==> NoDup(lists[h]))
    && (forall h, i :: 0 <= h < HEADS && 0 <= i < |lists[h]| ==>
          lists[h][i] < |place| && place[lists[h][i]] == Listed(h))
    && (forall k :: 0 <= k < |place| && place[k].Listed? ==> place[k].head < HEADS && k in lists[place[k].head])
  }

  /** The commands that a list of indices denotes. */
  ghost function Commands(list: seq<nat>, entries: seq<Entry>): (cs: seq<Command>)
    requires forall p :: 0 <= p < |list| ==> list[p] < |entries|
    ensures |cs| == |list|
  {
    seq(|list|, p requires 0 <= p < |list| => entries[list[p]].command)
  }

  /** Drop the first command that carries the given sequence id. */
  ghost function RemoveFirst(cs: seq<Command>, sequenceId: nat): seq<Command> {
    if cs == [] then []
    else if cs[0].sequenceId == sequenceId then cs[1..]
    else [cs[0]] + RemoveFirst(cs[1..], sequenceId)
  }

  lemma {:induction false} RemoveFirstAt(cs: seq<Command>, sequenceId: nat, p: nat)
    requires p < |cs| && cs[p].sequenceId == sequenceId
    requires forall q :: 0 <= q < p ==> cs[q].sequenceId != sequenceId
    ensures RemoveFirst(cs, sequenceId) == cs[..p] + cs[p + 1..]
  {
    if p > 0 {
      RemoveFirstAt(cs[1..], sequenceId, p - 1);
      assert cs[..p] + cs[p + 1..] == [cs[0]] + (cs[1..][..p - 1] + cs[1..][p..]);
    }
  }

  lemma {:induction false} RemoveFirstMiss(cs: seq<Command>, sequenceId: nat)
    requires forall c :: c in cs ==> c.sequenceId != sequenceId
    ensures RemoveFirst(cs, sequenceId) == cs
  {
    if cs != [] {
      RemoveFirstMiss(cs[1..], sequenceId);
      assert cs == [cs[0]] + cs[1..];
    }
  }

  // ---------------------------------------------------------------- counting

  ghost function Elements(s: seq<nat>): set<nat> {
    set k | k in s
  }

  lemma {:induction false} NoDupCount(s: seq<nat>)
    requires NoDup(s)
    ensures |Elements(s)| == |s|
  {
    if s != [] {
      NoDupCount(s[1..]);
      assert Elements(s) == {s[0]} + Elements(s[1..]);
      assert s[0] !in s[1..];
    }
  }

  ghost function Below(n: nat): (r: set<nat>)
    ensures |r| == n
    ensures forall k: nat :: k in r <==> k < n
  {
    if n == 0 then {} else Below(n - 1) + {n - 1}
  }

  ghost function At(place: seq<Place>, where: Place): set<nat> {
    set k: nat | k < |place| && place[k] == where
  }

  lemma AtGrows(place: seq<Place>, last: Place, where: Place)
    ensures |At(place + [last], where)| == |At(place, where)| + if last == where then 1 else 0
  {
    var n := |place|;
    if last == where {
      assert At(place + [last], where) == At(place, where) + {n};
    } else {
      assert At(place + [last], where) == At(place, where);
    }
  }

  lemma ListIsPlace(place: seq<Place>, list: seq<nat>, where: Place)
    requires NoDup(list)
    requires forall i :: 0 <= i < |list| ==> list[i] < |place| && place[list[i]] == where
    requires forall k :: 0 <= k < |place| && place[k] == where ==> k in list
    ensures Elements(list) == At(place, where)
    ensures |list| == |At(place, where)|
  {
    NoDupCount(list);
  }

  lemma {:induction false} PlacesCover(place: seq<Place>)
    requires forall k :: 0 <= k < |place| && place[k].Listed? ==> place[k].head < HEADS
    ensures |At(place, Free)| + |At(place, Listed(0))| + |At(place, Listed(1))| + |At(place, Listed(2))|
            + |At(place, Held)| == |place|
  {
    if place == [] {
      assert forall w :: At(place, w) == {};
    } else {
      var rest, last := place[..|place| - 1], place[|place| - 1];
      assert place == rest + [last];
      PlacesCover(rest);
      AtGrows(rest, last, Free);
      AtGrows(rest, last, Listed(0));
      AtGrows(rest, last, Listed(1));
      AtGrows(rest, last, Listed(2));
      AtGrows(rest, last, Held);
      assert last in {Free, Held, Listed(0), Listed(1), Listed(2)};
    }
  }

  /** The free list, the three in-flight lists and the entries held by a caller partition the storage. */
  lemma Partition(place: seq<Place>, free: seq<nat>, lists: seq<seq<nat>>)
    requires Placed(place, free, lists)
    ensures |free| + |lists[0]| + |lists[1]| + |lists[2]| + |At(place, Held)| == |place|
    ensures forall k: nat ::
              k < |place| <==> k in free || k in lists[0] || k in lists[1] || k in lists[2] || k in At(place, Held)
    ensures forall k :: k in free ==> k !in lists[0] && k !in lists[1] && k !in lists[2]
    ensures forall k :: k in lists[0] ==> k !in lists[1] && k !in lists[2]
    ensures forall k :: k in lists[1] ==> k !in lists[2]
    ensures forall k :: k in At(place, Held) ==> k !in free && k !in lists[0] && k !in lists[1] && k !in lists[2]
  {
    PartitionCount(place, free, lists);
    forall k: nat | k < |place|
      ensures k in free || k in lists[0] || k in lists[1] || k in lists[2] || k in At(place, Held)
    {
      assert place[k] in {Free, Held, Listed(0), Listed(1), Listed(2)};
    }
  }

  /** Nothing is lost: what is neither free nor in flight is held. */
  lemma PartitionCount(place: seq<Place>, free: seq<nat>, lists: seq<seq<nat>>)
    requires Placed(place, free, lists)
    ensures |free| + |lists[0]| + |lists[1]| + |lists[2]| + |At(place, Held)| == |place|
    ensures (forall k :: 0 <= k < |place| ==> place[k] != Held) ==> |At(place, Held)| == 0
  {
    ListIsPlace(place, free, Free);
    ListIsPlace(place, lists[0], Listed(0));
    ListIsPlace(place, lists[1], Listed(1));
    ListIsPlace(place, lists[2], Listed(2));
    PlacesCover(place);
    if forall k :: 0 <= k < |place| ==> place[k] != Held {
      assert At(place, Held) == {};
    }
  }

  lemma NoDupWithout(s: seq<nat>, p: nat)
    requires NoDup(s) && p < |s|
    ensures NoDup(s[..p] + s[p + 1..]) && s[p] !in s[..p] + s[p + 1..]
  {
    var rest := s[..p] + s[p + 1..];
    assert forall i :: 0 <= i < |rest| ==> rest[i] == s[if i < p then i else i + 1];
  }

  /** Moving one entry from an in-flight list to the free list keeps every entry in exactly one place. */
  lemma RemoveKeepsPlaced(place: seq<Place>, free: seq<nat>, lists: seq<seq<nat>>, h: nat, p: nat)
    requires Placed(place, free, lists) && h < HEADS && p < |lists[h]|
    ensures Placed(place[lists[h][p] := Free], [lists[h][p]] + free, lists[h := lists[h][..p] + lists[h][p + 1..]])
  {
    var k := lists[h][p];
    var rest := lists[h][..p] + lists[h][p + 1..];
    NoDupWithout(lists[h], p);
    assert NoDup([k] + free) by { assert k !in free; }
    forall j | 0 <= j < |place| && place[j] == Listed(h) && j != k ensures j in rest {
      InWithout(lists[h], p, j);
    }
  }

  lemma InWithout(s: seq<nat>, p: nat, j: nat)
    requires p < |s| && j in s && j != s[p]
    ensures j in s[..p] + s[p + 1..]
  {
    var i :| 0 <= i < |s| && s[i] == j;
    assert (s[..p] + s[p + 1..])[if i < p then i else i - 1] == j;
  }

  // ---------------------------------------------------------------- the pool

  class Pool {
    const storage: array<Entry>
    var free: seq<nat>
    var lists: seq<seq<nat>>
    ghost var place: seq<Place>
    /** The entry whose timer has expired and whose callback has not returned yet, or -1. */
    ghost var firing: int

    /** An entry's timer runs iff it is in flight and is not the one being timed out right now. */
    ghost predicate Inv()
      reads this, storage
    {
      && |place| == storage.Length
      && Placed(place, free, lists)
      && (forall k :: 0 <= k < storage.Length ==> (storage[k].timerRunning <==> place[k].Listed? && k != firing))
    }

    /** Between two calls: no entry is held by a caller and no callback is running. */
    ghost predicate AtRest()
      reads this, storage
    {
      Inv() && firing == -1 && forall k :: 0 <= k < |place| ==> place[k] != Held
    }

    /** The commands of one list, most recent first. */
    ghost function Flight(h: nat): (cs: seq<Command>)
      requires Inv() && h < HEADS
      reads this, storage
    {
      Commands(lists[h], storage[..])
    }

    /** avdecc_inflight_init: every entry starts on the free list. */
    constructor (n: nat)
      ensures AtRest() && storage.Length == n && fresh(storage)
      ensures lists == [[], [], []] && |free| == n
    {
      storage := new Entry[n](_ => Entry(Command(0, 0, 0, 0, 0, false), false));
      lists := [[], [], []];
      free := [];
      firing := -1;
      place := seq(n, _ => Free);
      new;
      var i := 0;
      while i < n
        invariant 0 <= i <= n && |free| == i
        invariant forall j :: 0 <= j < i ==> free[j] == i - 1 - j
        modifies `free
      {
        free := [i] + free;
        i := i + 1;
      }
      forall k | 0 <= k < n ensures k in free {
        assert free[n - 1 - k] == k;
      }
    }

    /** avdecc_inflight_get: the head of the free list, if there is one. */
    method Get() returns (found: bool, k: nat)
      requires Inv()
      modifies this
      ensures Inv() && firing == old(firing) && lists == old(lists)
      ensures found <==> old(free) != []
      ensures !found ==> free == old(free) && place == old(place)
      ensures found ==> k < storage.Length && old(place)[k] == Free
                        && place == old(place)[k := Held] && free == old(free)[1..]
    {
      found, k := free != [], 0;
      if found {
        k := free[0];
        free := free[1..];
        place := place[k := Held];
        assert old(free) == [k] + free;
      }
    }

    /** avdecc_inflight_start: queue a held entry at the head of a list and start its timer. */
    method Start(h: nat, k: nat, command: Command)
      requires Inv() && h < HEADS && k < storage.Length && place[k] == Held && k != firing
      modifies this, storage
      ensures Inv() && firing == old(firing) && free == old(free)
      ensures place == old(place)[k := Listed(h)]
      ensures lists == old(lists)[h := [k] + old(lists)[h]]
      ensures Flight(h) == [command] + old(Flight(h))
      ensures forall g :: 0 <= g < HEADS && g != h ==> Flight(g) == old(Flight(g))
    {
      storage[k] := Entry(command, true);
      lists := lists[h := [k] + lists[h]];
      place := place[k := Listed(h)];
    }

    /** avdecc_inflight_abort: give a held entry back. */
    method Abort(k: nat)
      requires Inv() && k < storage.Length && place[k] == Held
      modifies this
      ensures Inv() && firing == old(firing) && lists == old(lists)
      ensures free == [k] + old(free) && place == old(place)[k := Free]
    {
      free := [k] + free;
      place := place[k := Free];
    }

    /** avdecc_inflight_find: the first entry of the list with this sequence id. */
    method Find(h: nat, sequenceId: nat) returns (found: bool, p: nat)
      requires Inv() && h < HEADS
      ensures found ==> p < |lists[h]| && Flight(h)[p].sequenceId == sequenceId
      ensures found ==> forall q :: 0 <= q < p ==> Flight(h)[q].sequenceId != sequenceId
      ensures !found ==> forall c :: c in Flight(h) ==> c.sequenceId != sequenceId
    {
      p := 0;
      found := false;
      while p < |lists[h]|
        invariant 0 <= p <= |lists[h]|
        invariant forall q :: 0 <= q < p ==> Flight(h)[q].sequenceId != sequenceId
      {
        assert Flight(h)[p] == storage[lists[h][p]].command;
        if storage[lists[h][p]].command.sequenceId == sequenceId {
          found := true;
          return;
        }
        p := p + 1;
      }
    }

    /** avdecc_inflight_remove: stop the timer and move the entry to the free list. */
    method Remove(h: nat, p: nat)
      requires Inv() && h < HEADS && p < |lists[h]|
      modifies this, storage
      ensures Inv() && firing == old(firing)
      ensures free == [old(lists)[h][p]] + old(free)
      ensures place == old(place)[old(lists)[h][p] := Free]
      ensures lists == old(lists)[h := old(lists)[h][..p] + old(lists)[h][p + 1..]]
      ensures Flight(h) == old(Flight(h))[..p] + old(Flight(h))[p + 1..]
      ensures forall g :: 0 <= g < HEADS && g != h ==> Flight(g) == old(Flight(g))
    {
      var k := lists[h][p];
      var rest := lists[h][..p] + lists[h][p + 1..];
      RemoveKeepsPlaced(place, free, lists, h, p);
      storage[k] := storage[k].(timerRunning := false);
      lists := lists[h := rest];
      free := [k] + free;
      place := place[k := Free];
    }

    /** avdecc_inflight_cancel. */
    method Cancel(h: nat, sequenceId: nat) returns (found: bool)
      requires Inv() && h < HEADS
      modifies this, storage
      ensures Inv() && firing == old(firing)
      ensures found <==> exists c :: c in old(Flight(h)) && c.sequenceId == sequenceId
      ensures Flight(h) == RemoveFirst(old(Flight(h)), sequenceId)
      ensures forall g :: 0 <= g < HEADS && g != h ==> lists[g] == old(lists)[g]
      ensures forall g :: 0 <= g < HEADS && g != h ==> Flight(g) == old(Flight(g))
      ensures |free| == |old(free)| + if found then 1 else 0
      ensures (forall k :: 0 <= k < |place| ==> old(place)[k] != Held) ==>
                forall k :: 0 <= k < |place| ==> place[k] != Held
    {
      var p;
      found, p := Find(h, sequenceId);
      if found {
        RemoveFirstAt(Flight(h), sequenceId, p);
        assert Flight(h)[p] in Flight(h);
        Remove(h, p);
      } else {
        RemoveFirstMiss(Flight(h), sequenceId);
      }
    }

    /** The timer service stops a one-shot timer before it runs the callback. */
    method Expire(h: nat, p: nat)
      requires AtRest() && h < HEADS && p < |lists[h]|
      modifies this, storage
      ensures Inv() && firing == old(lists)[h][p]
      ensures free == old(free) && lists == old(lists) && place == old(place)
      ensures forall g :: 0 <= g < HEADS ==> Flight(g) == old(Flight(g))
    {
      var k := lists[h][p];
      storage[k] := storage[k].(timerRunning := false);
      firing := k;
    }

    /** The callback marks the command as sent a second time. */
    method MarkRetried(h: nat, p: nat)
      requires Inv() && h < HEADS && p < |lists[h]|
      modifies storage
      ensures Inv()
      ensures Flight(h) == old(Flight(h))[p := old(Flight(h))[p].(retried := true)]
      ensures forall g :: 0 <= g < HEADS && g != h ==> Flight(g) == old(Flight(g))
    {
      var k := lists[h][p];
      storage[k] := storage[k].(command := storage[k].command.(retried := true));
    }

    /** The tail of avdecc_inflight_timeout: act on what the callback returned. */
    method Complete(h: nat, p: nat, verdict: Verdict)
      requires Inv() && h < HEADS && p < |lists[h]| && firing == lists[h][p]
      requires forall k :: 0 <= k < |place| ==> place[k] != Held
      modifies this, storage
      ensures AtRest() && forall g :: 0 <= g < HEADS && g != h ==> lists[g] == old(lists)[g]
      ensures verdict == TimerRestart ==> free == old(free) && Flight(h) == old(Flight(h))
      ensures verdict == TimerStop ==>
                |free| == |old(free)| + 1 && Flight(h) == old(Flight(h))[..p] + old(Flight(h))[p + 1..]
      ensures forall g :: 0 <= g < HEADS && g != h ==> Flight(g) == old(Flight(g))
    {
      match verdict
      case TimerStop =>
        Remove(h, p);
        firing := -1;
      case TimerRestart =>
        var k := lists[h][p];
        storage[k] := storage[k].(timerRunning := true);
        firing := -1;
    }
  }
}
