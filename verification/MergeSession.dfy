/**
 A merged directory listed in several calls: the lower entries are presented in order until the
 actor refuses one, and the next call begins with that entry.
 */
module MergeSession {
  import opened Bytes
  import opened ConflictName
  import opened MergeListing

  /** An entry of a lower directory, before anyone knows whether the caller's buffer will take it */
  datatype Lower = Lower(dev: nat, name: string, kind: FileType)

  function Shows(e: Lower, accepted: bool): Presented {
    Presented(e.dev, e.name, e.kind, accepted)
  }

  /** Whether the iteration goes on after an entry, and what decides it */
  lemma GoesOnIff(seen: Seen, p: Presented)
    ensures Actor(seen, p).goOn <==> IsDot(p.name) || Repeated(seen, p) || (p.accepted && Fitting(seen, p))
    ensures Actor(seen, p).item.Some? <==> !IsDot(p.name) && !Repeated(seen, p) && p.accepted && Fitting(seen, p)
  {
  }

  /** The two names that every directory has are never shown and stop nothing. */
  lemma DotsAreHidden(seen: Seen, dev: nat, kind: FileType, accepted: bool)
    ensures Actor(seen, Presented(dev, ".", kind, accepted)) == Outcome(seen, None, true)
    ensures Actor(seen, Presented(dev, "..", kind, accepted)) == Outcome(seen, None, true)
  {
  }

  /** What a call leaves: the tree, the items shown, and the entry the next call begins with */
  datatype Stop = Stop(seen: Seen, items: seq<Shown>, at: nat)

  /** A call from entry `i` on with a buffer for `room` items */
  function Call(seen: Seen, es: seq<Lower>, i: nat, room: nat): Stop
    decreases |es| - i
  {
    if i >= |es| then Stop(seen, [], i)
    else
      var r := Actor(seen, Shows(es[i], room > 0));
      if !r.goOn then Stop(r.seen, [], i)
      else if r.item.None? then Call(r.seen, es, i + 1, room)
      else
        var rest := Call(r.seen, es, i + 1, if room > 0 then room - 1 else 0);
        Stop(rest.seen, [r.item.value] + rest.items, rest.at)
  }

  /** The same with a buffer for everything, which stops only at a name that does not fit */
  function Whole(seen: Seen, es: seq<Lower>, i: nat): seq<Shown>
    decreases |es| - i
  {
    if i >= |es| then []
    else
      var r := Actor(seen, Shows(es[i], true));
      if !r.goOn then []
      else if r.item.None? then Whole(r.seen, es, i + 1)
      else [r.item.value] + Whole(r.seen, es, i + 1)
  }

  /** No entry from `i` on needs a name that does not fit. */
  predicate Flows(seen: Seen, es: seq<Lower>, i: nat)
    decreases |es| - i
  {
    i >= |es| || (var r := Actor(seen, Shows(es[i], true)); r.goOn && Flows(r.seen, es, i + 1))
  }

  lemma {:induction false} SameWhole(a: Seen, b: Seen, es: seq<Lower>, i: nat)
    requires Equivalent(a, b)
    ensures Whole(a, es, i) == Whole(b, es, i) && (Flows(a, es, i) <==> Flows(b, es, i))
    decreases |es| - i
  {
    if i < |es| {
      EquivalentShowsSame(a, b, Shows(es[i], true));
      SameWhole(Actor(a, Shows(es[i], true)).seen, Actor(b, Shows(es[i], true)).seen, es, i + 1);
    }
  }

  /** A refused entry leaves an equivalent tree; one that is passed over does so whatever the buffer. */
  lemma EntryStep(seen: Seen, e: Lower)
    ensures !Actor(seen, Shows(e, false)).goOn ==> Equivalent(Actor(seen, Shows(e, false)).seen, seen)
    ensures Actor(seen, Shows(e, false)).item.None?
    ensures Actor(seen, Shows(e, false)).goOn ==> Actor(seen, Shows(e, false)) == Actor(seen, Shows(e, true))
    ensures !Actor(seen, Shows(e, true)).goOn ==> Actor(seen, Shows(e, true)).item.None?
    ensures !Actor(seen, Shows(e, true)).goOn ==> Equivalent(Actor(seen, Shows(e, true)).seen, seen)
    ensures Actor(seen, Shows(e, false)).goOn ==> Actor(seen, Shows(e, true)).item.None?
  {
  }

  /**
   What a call shows and what is shown from where it stopped make up what a single call would show;
   it shows no more than its buffer takes, and less only at the end or at a name that does not fit.
   */
  predicate Splits(seen: Seen, es: seq<Lower>, i: nat, room: nat, r: Stop) {
    && i <= r.at <= |es| && |r.items| <= room
    && r.items + Whole(r.seen, es, r.at) == Whole(seen, es, i)
    && (Flows(r.seen, es, r.at) <==> Flows(seen, es, i))
    && (|r.items| < room ==> Whole(r.seen, es, r.at) == [] && (Flows(seen, es, i) ==> r.at == |es|))
  }

  lemma Refuses(seen: Seen, es: seq<Lower>, i: nat, room: nat)
    requires i < |es| && !Actor(seen, Shows(es[i], room > 0)).goOn
    ensures Splits(seen, es, i, room, Stop(Actor(seen, Shows(es[i], room > 0)).seen, [], i))
  {
    EntryStep(seen, es[i]);
    SameWhole(Actor(seen, Shows(es[i], room > 0)).seen, seen, es, i);
    if room > 0 {
      assert !Flows(seen, es, i);
    }
  }

  lemma PassesOver(seen: Seen, es: seq<Lower>, i: nat, room: nat, next: Seen, r: Stop)
    requires i < |es| && Actor(seen, Shows(es[i], true)).goOn && Actor(seen, Shows(es[i], true)).item.None?
    requires next == Actor(seen, Shows(es[i], true)).seen && Splits(next, es, i + 1, room, r)
    ensures Splits(seen, es, i, room, r)
  {
  }

  lemma Takes(seen: Seen, es: seq<Lower>, i: nat, room: nat, next: Seen, it: Shown, r: Stop)
    requires i < |es| && room > 0 && Splits(next, es, i + 1, room - 1, r)
    requires Whole(seen, es, i) == [it] + Whole(next, es, i + 1) && (Flows(seen, es, i) <==> Flows(next, es, i + 1))
    ensures Splits(seen, es, i, room, Stop(r.seen, [it] + r.items, r.at))
  {
    var whole := Whole(r.seen, es, r.at);
    assert [it] + r.items + whole == [it] + (r.items + whole);
  }

  lemma {:induction false} CallSplits(seen: Seen, es: seq<Lower>, i: nat, room: nat)
    requires i <= |es|
    ensures Splits(seen, es, i, room, Call(seen, es, i, room))
    decreases |es| - i
  {
    if i < |es| {
      EntryStep(seen, es[i]);
      var p := Actor(seen, Shows(es[i], room > 0));
      if !p.goOn {
        Refuses(seen, es, i, room);
      } else if p.item.None? {
        CallSplits(p.seen, es, i + 1, room);
        PassesOver(seen, es, i, room, p.seen, Call(p.seen, es, i + 1, room));
      } else {
        CallSplits(p.seen, es, i + 1, room - 1);
        Takes(seen, es, i, room, p.seen, p.item.value, Call(p.seen, es, i + 1, room - 1));
      }
    }
  }

  /** Calls with the given buffers, the first from entry `i`, each next one from where the last stopped */
  function Session(seen: Seen, es: seq<Lower>, i: nat, rooms: seq<nat>): Stop
    decreases |rooms|
  {
    if rooms == [] then Stop(seen, [], i)
    else
      var first := Call(seen, es, i, rooms[0]);
      var rest := Session(first.seen, es, first.at, rooms[1..]);
      Stop(rest.seen, first.items + rest.items, rest.at)
  }

  function Sum(rooms: seq<nat>): nat
    decreases |rooms|
  {
    if rooms == [] then 0 else rooms[0] + Sum(rooms[1..])
  }

  /**
   For every pattern of buffers: the calls show the items of a single call with room for everything, in
   order, as many as the buffers take together, nothing twice and nothing skipped.
   */
  lemma {:induction false} SessionShowsWhole(seen: Seen, es: seq<Lower>, i: nat, rooms: seq<nat>)
    requires i <= |es|
    ensures var r := Session(seen, es, i, rooms);
            var whole := Whole(seen, es, i);
            && r.items == (if Sum(rooms) < |whole| then whole[..Sum(rooms)] else whole)
            && i <= r.at <= |es| && r.items + Whole(r.seen, es, r.at) == whole
            && (Flows(r.seen, es, r.at) <==> Flows(seen, es, i))
    decreases |rooms|
  {
    if rooms == [] {
      assert Whole(seen, es, i)[..0] == [];
    } else {
      var first := Call(seen, es, i, rooms[0]);
      CallSplits(seen, es, i, rooms[0]);
      SessionShowsWhole(first.seen, es, first.at, rooms[1..]);
      var rest := Session(first.seen, es, first.at, rooms[1..]);
      Joined(Whole(seen, es, i), first.items, Whole(first.seen, es, first.at), rest.items,
             Whole(rest.seen, es, rest.at), rooms[0], Sum(rooms[1..]));
    }
  }

  /** The items of one call, and then those of the rest */
  lemma Joined(all: seq<Shown>, a: seq<Shown>, b: seq<Shown>, rest: seq<Shown>, tail: seq<Shown>, n: nat, m: nat)
    requires all == a + b && |a| <= n && (|a| < n ==> b == [])
    requires rest == (if m < |b| then b[..m] else b) && rest + tail == b
    ensures a + rest == (if n + m < |all| then all[..n + m] else all) && a + rest + tail == all
  {
  }

  /** A call with room for everything reaches the end if and only if every name it needs fits. */
  lemma {:induction false} EndReachedIff(seen: Seen, es: seq<Lower>, i: nat, room: nat)
    requires i <= |es| && room >= |es| - i
    ensures Call(seen, es, i, room).at == |es| <==> Flows(seen, es, i)
    decreases |es| - i
  {
    if i < |es| {
      EntryStep(seen, es[i]);
      var p := Actor(seen, Shows(es[i], true));
      if p.goOn {
        EndReachedIff(p.seen, es, i + 1, if p.item.None? then room else room - 1);
      }
    }
  }

  /** All entries, as if each were accepted */
  function AllAccepted(es: seq<Lower>): seq<Presented> {
    seq(|es|, k requires 0 <= k < |es| => Shows(es[k], true))
  }

  lemma {:induction false} WholeIsListing(es: seq<Lower>, i: nat)
    requires i <= |es|
    requires Flows(map[], es, 0)
    ensures var (seen, items) := Listing(AllAccepted(es)[..i]);
            Flows(seen, es, i) && items + Whole(seen, es, i) == Whole(map[], es, 0)
  {
    var ps := AllAccepted(es);
    if i > 0 {
      WholeIsListing(es, i - 1);
      assert ps[..i][..i - 1] == ps[..i - 1];
    } else {
      assert ps[..0] == [];
    }
  }

  /**
   So the calls of any session together show each accepted name as the listing theorems say: once their
   buffers hold everything, exactly the listing of all entries.
   */
  lemma SessionIsListing(es: seq<Lower>, rooms: seq<nat>)
    requires Flows(map[], es, 0) && Sum(rooms) >= |es|
    ensures Session(map[], es, 0, rooms).items == Listing(AllAccepted(es)).1
  {
    SessionShowsWhole(map[], es, 0, rooms);
    WholeIsListing(es, |es|);
    assert AllAccepted(es)[..|es|] == AllAccepted(es);
    WholeSize(map[], es, 0);
  }

  lemma {:induction false} WholeSize(seen: Seen, es: seq<Lower>, i: nat)
    requires i <= |es|
    ensures |Whole(seen, es, i)| <= |es| - i
    decreases |es| - i
  {
    if i < |es| {
      WholeSize(Actor(seen, Shows(es[i], true)).seen, es, i + 1);
    }
  }
}
