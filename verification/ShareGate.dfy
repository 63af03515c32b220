/** The hysteresis of a shared device: `gpu::contention::ShareGate`. */
module ShareGates {
  import opened Prelude

  const RESUME_NS: int := 30_000_000_000

  /** What other processes took of the device, and when that was seen. */
  datatype Sighting = Sighting(at: int, share: real)

  // ----- The simple meaning: the largest share of the last 30 seconds

  predicate Expired(s: Sighting, now: int) {
    now - s.at >= 30_000_000_000
  }

  function Recent(h: seq<Sighting>, now: int): seq<Sighting> {
    if h == [] then []
    else if Expired(h[0], now) then Recent(h[1..], now)
    else [h[0]] + Recent(h[1..], now)
  }

  function Largest(h: seq<Sighting>): Option<real> {
    if h == [] then None
    else match Largest(h[1..])
      case None => Some(h[0].share)
      case Some(x) => Some(MaxReal(h[0].share, x))
  }

  ghost predicate InOrder(h: seq<Sighting>) {
    forall i, j :: 0 <= i < j < |h| ==> h[i].at <= h[j].at
  }

  /** Whether none after the first sighting comes up to it. */
  predicate Leads(h: seq<Sighting>)
    requires h != []
  {
    forall i :: 1 <= i < |h| ==> h[i].share < h[0].share
  }

  /** The sightings that no later one comes up to. */
  function Peaks(h: seq<Sighting>): seq<Sighting> {
    if h == [] then []
    else if Leads(h) then [h[0]] + Peaks(h[1..])
    else Peaks(h[1..])
  }

  /** Those of them that are above a share. */
  function Above(h: seq<Sighting>, share: real): seq<Sighting> {
    if h == [] then []
    else if h[0].share > share then [h[0]] + Above(h[1..], share)
    else Above(h[1..], share)
  }

  ghost predicate Descending(h: seq<Sighting>) {
    forall i, j :: 0 <= i < j < |h| ==> h[i].share > h[j].share
  }

  lemma {:induction false} PeaksAreFrom(h: seq<Sighting>)
    ensures forall i :: 0 <= i < |Peaks(h)| ==> Peaks(h)[i] in h
  {
    if h != [] {
      PeaksAreFrom(h[1..]);
    }
  }

  lemma {:induction false} PeaksDescend(h: seq<Sighting>)
    ensures Descending(Peaks(h))
  {
    if h != [] {
      PeaksDescend(h[1..]);
      PeaksAreFrom(h[1..]);
    }
  }

  /** The first peak is the largest share. */
  lemma {:induction false} FirstPeakIsLargest(h: seq<Sighting>)
    ensures Largest(h) == if Peaks(h) == [] then None else Some(Peaks(h)[0].share)
    ensures forall i :: 0 <= i < |h| ==> Largest(h).Some? && h[i].share <= Largest(h).value
    ensures Largest(h).Some? ==> exists i :: 0 <= i < |h| && h[i].share == Largest(h).value
  {
    if h != [] {
      FirstPeakIsLargest(h[1..]);
      if h[1..] != [] && h[0].share <= Largest(h[1..]).value {
        var i :| 0 <= i < |h[1..]| && h[1..][i].share == Largest(h[1..]).value;
        assert h[i + 1].share == Largest(h).value;
      } else {
        assert h[0].share == Largest(h).value;
      }
    }
  }

  lemma {:induction false} RecentHas(h: seq<Sighting>, now: int, s: Sighting)
    ensures s in Recent(h, now) <==> s in h && !Expired(s, now)
  {
    if h != [] {
      RecentHas(h[1..], now, s);
      assert s in h <==> s == h[0] || s in h[1..];
    }
  }

  /** The gate's level is the largest share seen less than 30 seconds ago; there is one just if there
      has been such a sighting. */
  lemma LargestTells(h: seq<Sighting>, now: int)
    ensures var level := Largest(Recent(h, now));
            && (level == None <==> forall k :: 0 <= k < |h| ==> now - h[k].at >= 30_000_000_000)
            && (level.Some? ==>
                  && (exists k :: 0 <= k < |h| && now - h[k].at < 30_000_000_000 && h[k].share == level.value)
                  && (forall k :: 0 <= k < |h| && now - h[k].at < 30_000_000_000 ==> h[k].share <= level.value))
  {
    hide Largest, Recent;
    var recent := Recent(h, now);
    FirstPeakIsLargest(recent);
    forall s: Sighting
      ensures s in recent <==> s in h && !Expired(s, now)
    {
      RecentHas(h, now, s);
    }
    forall k | 0 <= k < |h| && now - h[k].at < 30_000_000_000
      ensures Largest(recent).Some? && h[k].share <= Largest(recent).value
    {
      assert h[k] in h && !Expired(h[k], now);
      var m :| 0 <= m < |recent| && recent[m] == h[k];
    }
    if Largest(recent).Some? {
      var i :| 0 <= i < |recent| && recent[i].share == Largest(recent).value;
      assert recent[i] in h;
      var k :| 0 <= k < |h| && h[k] == recent[i];
      assert !Expired(h[k], now);
    }
  }

  lemma LeadsAlone(s: Sighting)
    ensures Leads([s])
  {
  }

  lemma LeadsAppend(h: seq<Sighting>, s: Sighting)
    requires h != []
    ensures Leads(h + [s]) == (Leads(h) && s.share < h[0].share)
  {
    if Leads(h + [s]) {
      assert (h + [s])[|h|] == s;
      forall i | 1 <= i < |h|
        ensures h[i].share < h[0].share
      {
        assert (h + [s])[i] == h[i];
      }
    }
  }

  /** A new sighting hides the peaks that do not rise above it. */
  lemma {:induction false} PeaksAppend(h: seq<Sighting>, s: Sighting)
    ensures Peaks(h + [s]) == Above(Peaks(h), s.share) + [s]
  {
    hide Leads;
    if h == [] {
      assert h + [s] == [s];
      LeadsAlone(s);
    } else {
      PeaksAppend(h[1..], s);
      assert (h + [s])[1..] == h[1..] + [s];
      LeadsAppend(h, s);
      if Leads(h) {
        assert Peaks(h)[0] == h[0] && Peaks(h)[1..] == Peaks(h[1..]);
      }
    }
  }

  lemma {:induction false} RecentAll(h: seq<Sighting>, now: int)
    requires forall i :: 0 <= i < |h| ==> !Expired(h[i], now)
    ensures Recent(h, now) == h
  {
    if h != [] {
      RecentAll(h[1..], now);
    }
  }

  lemma {:induction false} RecentAppend(h: seq<Sighting>, s: Sighting, now: int)
    requires !Expired(s, now)
    ensures Recent(h + [s], now) == Recent(h, now) + [s]
  {
    if h == [] {
      assert h + [s] == [s];
    } else {
      assert (h + [s])[1..] == h[1..] + [s];
      RecentAppend(h[1..], s, now);
    }
  }

  lemma {:induction false} RecentLater(h: seq<Sighting>, earlier: int, now: int)
    requires earlier <= now
    ensures Recent(Recent(h, earlier), now) == Recent(h, now)
  {
    if h != [] {
      RecentLater(h[1..], earlier, now);
      if !Expired(h[0], earlier) {
        assert Recent(h, earlier)[1..] == Recent(h[1..], earlier);
      }
    }
  }

  /** Sightings in the order of their times expire from the front, so dropping the expired ones
      and taking the peaks can be done in either order. */
  lemma {:induction false} PeaksOfRecent(h: seq<Sighting>, now: int)
    requires InOrder(h)
    ensures Peaks(Recent(h, now)) == Recent(Peaks(h), now)
  {
    if h != [] {
      if Expired(h[0], now) {
        PeaksOfRecent(h[1..], now);
        if Peaks(h) != Peaks(h[1..]) {
          assert Peaks(h)[1..] == Peaks(h[1..]);
        }
      } else {
        RecentAll(h, now);
        PeaksAreFrom(h);
        RecentAll(Peaks(h), now);
      }
    }
  }

  // ----- The object

  class ShareGate {
    var seen: seq<Sighting>
    /** Every sighting so far, and the time of the last update. */
    ghost var history: seq<Sighting>
    ghost var clock: int

    ghost predicate Valid()
      reads this
    {
      && InOrder(history)
      && (forall i :: 0 <= i < |history| ==> history[i].at <= clock)
      && seen == Peaks(Recent(history, clock))
    }

    constructor ()
      ensures Valid() && history == []
    {
      seen, history, clock := [], [], 0;
    }

    /** What has expired is popped off the front; the rest are the peaks of what is still recent. */
    method DropExpired(now: int)
      requires Valid() && (history != [] ==> clock <= now)
      modifies `seen
      ensures seen == Peaks(Recent(history, now))
    {
      hide Peaks, Recent, InOrder;
      ghost var before := seen;
      RecentInOrder(history, clock);
      PeaksInOrder(Recent(history, clock));
      while seen != [] && now - seen[0].at >= RESUME_NS
        invariant InOrder(seen) && Recent(seen, now) == Recent(before, now)
      {
        ExpireFirst(seen, now);
        seen := seen[1..];
      }
      SeenAfterExpiry(history, clock, before, seen, now);
    }

    /** What the new sighting dominates is popped off the back before it is pushed. */
    method PushPeak(s: Sighting, ghost recent: seq<Sighting>)
      requires seen == Peaks(recent)
      modifies `seen
      ensures seen == Peaks(recent + [s])
    {
      hide Peaks, Above, Descending;
      PeaksDescend(recent);
      while seen != [] && seen[|seen| - 1].share <= s.share
        invariant Descending(seen) && Above(seen, s.share) == Above(Peaks(recent), s.share)
      {
        AboveDropLast(seen, s.share);
        FrontDescends(seen);
        seen := seen[..|seen| - 1];
      }
      AboveAll(seen, s.share);
      seen := seen + [s];
      PeaksAppend(recent, s);
    }

    /** The deque, for all its popping, is exactly the peaks of the last 30 seconds, and what comes
        back is the largest share seen in them. */
    method Update(others: Option<real>, now: int) returns (level: Option<real>)
      requires Valid() && (history != [] ==> clock <= now)
      modifies this
      ensures Valid() && clock == now
      ensures history == old(history) + if others.Some? then [Sighting(now, others.value)] else []
      ensures level == Largest(Recent(history, now))
    {
      hide Peaks, Largest, Recent, Above, InOrder, Descending;
      DropExpired(now);
      if others.Some? {
        var s := Sighting(now, others.value);
        PushPeak(s, Recent(history, now));
        RecentAppend(history, s, now);
        AppendInOrder(history, s);
        history := history + [s];
      }
      clock := now;
      FirstPeakIsLargest(Recent(history, now));
      if seen == [] {
        return None;
      }
      return Some(seen[0].share);
    }
  }

  lemma {:induction false} AboveDropLast(h: seq<Sighting>, share: real)
    requires h != [] && h[|h| - 1].share <= share
    ensures Above(h[..|h| - 1], share) == Above(h, share)
  {
    if |h| > 1 {
      AboveDropLast(h[1..], share);
      assert h[1..][..|h| - 2] == h[..|h| - 1][1..];
    }
  }

  lemma FrontDescends(h: seq<Sighting>)
    requires h != [] && Descending(h)
    ensures Descending(h[..|h| - 1])
  {
  }

  lemma AppendInOrder(h: seq<Sighting>, s: Sighting)
    requires InOrder(h) && forall i :: 0 <= i < |h| ==> h[i].at <= s.at
    ensures InOrder(h + [s])
  {
  }

  lemma {:induction false} AboveAll(h: seq<Sighting>, share: real)
    requires Descending(h) && (h == [] || h[|h| - 1].share > share)
    ensures Above(h, share) == h
  {
    if h != [] {
      AboveAll(h[1..], share);
    }
  }

  lemma ExpireFirst(h: seq<Sighting>, now: int)
    requires h != [] && Expired(h[0], now) && InOrder(h)
    ensures Recent(h, now) == Recent(h[1..], now) && InOrder(h[1..])
  {
  }

  /** Popping the expired front of the old peaks leaves the peaks of what is still recent. */
  lemma SeenAfterExpiry(history: seq<Sighting>, clock: int, before: seq<Sighting>, seen: seq<Sighting>, now: int)
    requires InOrder(history) && (history != [] ==> clock <= now) && before == Peaks(Recent(history, clock))
    requires InOrder(seen) && Recent(seen, now) == Recent(before, now)
    requires seen != [] ==> !Expired(seen[0], now)
    ensures seen == Peaks(Recent(history, now))
  {
    hide Peaks, Recent;
    RecentInOrder(history, clock);
    PeaksOfRecent(Recent(history, clock), now);
    RecentEmpty();
    if history != [] {
      RecentLater(history, clock, now);
    }
    RecentAll(seen, now);
  }

  lemma RecentEmpty()
    ensures forall now :: Recent([], now) == []
  {
  }

  lemma {:induction false} RecentInOrder(h: seq<Sighting>, now: int)
    requires InOrder(h)
    ensures InOrder(Recent(h, now)) && forall i :: 0 <= i < |Recent(h, now)| ==> Recent(h, now)[i] in h
  {
    if h != [] {
      var rest := Recent(h[1..], now);
      RecentInOrder(h[1..], now);
      assert Recent(h, now) == if Expired(h[0], now) then rest else [h[0]] + rest;
      hide Recent;
      PrependInOrder(h, rest);
    }
  }

  lemma PrependInOrder(h: seq<Sighting>, rest: seq<Sighting>)
    requires h != [] && InOrder(h) && InOrder(rest) && forall i :: 0 <= i < |rest| ==> rest[i] in h[1..]
    ensures InOrder([h[0]] + rest)
  {
    forall i | 0 <= i < |rest|
      ensures h[0].at <= rest[i].at
    {
      var j :| 0 <= j < |h[1..]| && rest[i] == h[1..][j];
      assert h[1..][j] == h[j + 1];
    }
  }

  lemma {:induction false} PeaksInOrder(h: seq<Sighting>)
    requires InOrder(h)
    ensures InOrder(Peaks(h))
  {
    if h != [] {
      PeaksInOrder(h[1..]);
      PeaksAreFrom(h[1..]);
    }
  }
}
