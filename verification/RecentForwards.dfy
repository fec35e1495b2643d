/** The loop guard: a bounded time-to-live set kept in insertion order, against the
    plain history of what was forwarded. */
module RecentForwards {
  type Digest = string

  /** One remembered packet and the time its entry runs out. */
  datatype Entry = Entry(digest: Digest, expiry: real)

  /** Everything ever remembered, oldest first. */
  type History = seq<Entry>

  function Without(es: seq<Entry>, digest: Digest): seq<Entry> {
    if es == [] then []
    else if es[0].digest == digest then Without(es[1..], digest)
    else [es[0]] + Without(es[1..], digest)
  }

  function Unexpired(es: seq<Entry>, now: real): (r: seq<Entry>)
    ensures |r| <= |es|
  {
    if es == [] then []
    else if es[0].expiry > now then [es[0]] + Unexpired(es[1..], now)
    else Unexpired(es[1..], now)
  }

  /** The last `n`. */
  function Newest(es: seq<Entry>, n: nat): seq<Entry> {
    if n >= |es| then es else es[|es| - n..]
  }

  /** The most recent entry of each digest, in the order they were last remembered. */
  function Latest(h: History): seq<Entry> {
    if h == [] then []
    else Without(Latest(h[..|h| - 1]), h[|h| - 1].digest) + [h[|h| - 1]]
  }

  /** Specification: unexpired and among the `maximum` most recently remembered
      distinct digests. */
  ghost predicate Seen(h: History, maximum: nat, digest: Digest, now: real) {
    exists e :: e in Newest(Latest(h), maximum) && e.digest == digest && e.expiry > now
  }

  ghost predicate Sorted(es: seq<Entry>) {
    es == [] || (Sorted(es[1..]) && forall e :: e in es[1..] ==> es[0].expiry <= e.expiry)
  }

  ghost predicate Distinct(es: seq<Entry>) {
    es == [] || (Distinct(es[1..]) && forall e :: e in es[1..] ==> e.digest != es[0].digest)
  }

  ghost predicate Within(es: seq<Entry>, t: real) {
    forall e :: e in es ==> e.expiry <= t
  }

  // ----- filters on ordered lists -----

  lemma {:induction false} WithoutMembers(es: seq<Entry>, digest: Digest)
    ensures forall e :: e in Without(es, digest) <==> e in es && e.digest != digest
  {
    if es != [] {
      WithoutMembers(es[1..], digest);
      assert forall e :: e in es <==> e == es[0] || e in es[1..];
    }
  }

  lemma {:induction false} UnexpiredMembers(es: seq<Entry>, now: real)
    ensures forall e :: e in Unexpired(es, now) <==> e in es && e.expiry > now
  {
    if es != [] {
      UnexpiredMembers(es[1..], now);
      assert forall e :: e in es <==> e == es[0] || e in es[1..];
    }
  }

  lemma {:induction false} WithoutKeeps(es: seq<Entry>, digest: Digest)
    ensures Sorted(es) ==> Sorted(Without(es, digest))
    ensures Distinct(es) ==> Distinct(Without(es, digest))
  {
    if es != [] {
      WithoutKeeps(es[1..], digest);
      WithoutMembers(es[1..], digest);
    }
  }

  lemma {:induction false} AppendKeeps(es: seq<Entry>, e: Entry)
    ensures Sorted(es) && Within(es, e.expiry) ==> Sorted(es + [e])
    ensures Distinct(es) && e.digest !in (set x | x in es :: x.digest) ==> Distinct(es + [e])
  {
    if es != [] {
      AppendKeeps(es[1..], e);
      assert (es + [e])[1..] == es[1..] + [e];
      assert forall x :: x in es[1..] ==> x in es;
    }
  }

  lemma {:induction false} UnexpiredKeeps(es: seq<Entry>, now: real)
    ensures Sorted(es) ==> Sorted(Unexpired(es, now))
    ensures Distinct(es) ==> Distinct(Unexpired(es, now))
  {
    if es != [] {
      UnexpiredKeeps(es[1..], now);
      UnexpiredMembers(es[1..], now);
    }
  }

  /** Once the front entry is alive, so is the whole list: popping expired entries off
      the front is enough. */
  lemma {:induction false} FrontDecides(es: seq<Entry>, now: real)
    requires Sorted(es) && es != [] && es[0].expiry > now
    ensures Unexpired(es, now) == es
  {
    if |es| > 1 {
      assert es[1] in es[1..];
      FrontDecides(es[1..], now);
    }
  }

  /** On a sorted list, filtering by time and cutting to the newest commute. */
  lemma {:induction false} FilterCut(es: seq<Entry>, n: nat, now: real)
    requires Sorted(es)
    ensures Unexpired(Newest(es, n), now) == Newest(Unexpired(es, now), n)
  {
    if n < |es| {
      FilterCut(es[1..], n, now);
      assert Newest(es, n) == Newest(es[1..], n);
      if es[0].expiry > now {
        FrontDecides(es, now);
        assert Unexpired(es[1..], now) == es[1..];
      }
    }
  }

  lemma {:induction false} FilterTwice(es: seq<Entry>, before: real, now: real)
    requires before <= now
    ensures Unexpired(Unexpired(es, before), now) == Unexpired(es, now)
  {
    if es != [] {
      FilterTwice(es[1..], before, now);
    }
  }

  lemma {:induction false} FilterWithout(es: seq<Entry>, digest: Digest, now: real)
    ensures Unexpired(Without(es, digest), now) == Without(Unexpired(es, now), digest)
  {
    if es != [] {
      FilterWithout(es[1..], digest, now);
    }
  }

  lemma {:induction false} FilterAppend(es: seq<Entry>, e: Entry, now: real)
    requires e.expiry > now
    ensures Unexpired(es + [e], now) == Unexpired(es, now) + [e]
  {
    if es != [] {
      FilterAppend(es[1..], e, now);
      assert (es + [e])[1..] == es[1..] + [e];
    }
  }

  lemma {:induction false} AbsentWithout(es: seq<Entry>, digest: Digest)
    requires forall e :: e in es ==> e.digest != digest
    ensures Without(es, digest) == es
  {
    if es != [] {
      AbsentWithout(es[1..], digest);
    }
  }

  lemma {:induction false} RemovesAtMostOne(es: seq<Entry>, digest: Digest)
    requires Distinct(es)
    ensures |Without(es, digest)| >= |es| - 1
  {
    if es != [] {
      if es[0].digest == digest {
        AbsentWithout(es[1..], digest);
      } else {
        RemovesAtMostOne(es[1..], digest);
      }
    }
  }

  /** Cutting before or after a removal leaves the same newest `n`, because at most one
      entry of a distinct list is removed. */
  lemma {:induction false} CutWithout(es: seq<Entry>, n: nat, digest: Digest)
    requires Distinct(es)
    ensures Newest(Without(Newest(es, n + 1), digest), n) == Newest(Without(es, digest), n)
  {
    if n + 1 < |es| {
      CutWithout(es[1..], n, digest);
      assert Newest(es, n + 1) == Newest(es[1..], n + 1);
      if es[0].digest != digest {
        RemovesAtMostOne(es[1..], digest);
        assert Without(es, digest) == [es[0]] + Without(es[1..], digest);
      }
    }
  }

  lemma {:induction false} LatestOrdered(h: History, t: real)
    requires Sorted(h) && Within(h, t)
    ensures Sorted(Latest(h)) && Distinct(Latest(h)) && Within(Latest(h), t)
    decreases |h|
  {
    if h != [] {
      var init, last := h[..|h| - 1], h[|h| - 1];
      assert h == init + [last];
      SortedPrefix(init, last);
      LatestOrdered(init, last.expiry);
      WithoutKeeps(Latest(init), last.digest);
      WithoutMembers(Latest(init), last.digest);
      AppendKeeps(Without(Latest(init), last.digest), last);
    }
  }

  lemma {:induction false} SortedPrefix(es: seq<Entry>, e: Entry)
    requires Sorted(es + [e])
    ensures Sorted(es) && Within(es, e.expiry)
  {
    if es != [] {
      assert (es + [e])[1..] == es[1..] + [e];
      SortedPrefix(es[1..], e);
      assert e in (es + [e])[1..];
    }
  }

  /** Entries that can still make `seen` answer yes. */
  function Live(h: History, maximum: nat, now: real): seq<Entry> {
    Unexpired(Newest(Latest(h), maximum), now)
  }

  lemma ReplacedIsSorted(l: seq<Entry>, e: Entry)
    requires Sorted(l) && Within(l, e.expiry)
    ensures Sorted(Without(l, e.digest) + [e]) && Within(Without(l, e.digest) + [e], e.expiry)
  {
    WithoutKeeps(l, e.digest);
    WithoutMembers(l, e.digest);
    AppendKeeps(Without(l, e.digest), e);
  }

  lemma LiveStep(l: seq<Entry>, maximum: nat, e: Entry, now: real)
    requires Sorted(l) && Distinct(l) && Within(l, e.expiry) && maximum >= 1 && e.expiry > now
    ensures Newest(Without(Unexpired(Newest(l, maximum), now), e.digest) + [e], maximum)
            == Unexpired(Newest(Without(l, e.digest) + [e], maximum), now)
  {
    var x, w := Unexpired(l, now), Without(l, e.digest);
    ReplacedIsSorted(l, e);
    FilterCut(w + [e], maximum, now);
    FilterAppend(w, e, now);
    FilterWithout(l, e.digest, now);
    assert Unexpired(Newest(w + [e], maximum), now) == Newest(Without(x, e.digest) + [e], maximum);
    UnexpiredKeeps(l, now);
    CutWithout(x, maximum - 1, e.digest);
    CutAppend(Without(x, e.digest), e, maximum);
    CutAppend(Without(Newest(x, maximum), e.digest), e, maximum);
    FilterCut(l, maximum, now);
  }

  /** Replacing the digest's entry in the live list, then cutting to the bound, gives
      the live list of the longer history. */
  lemma LiveAfterRemember(h: History, maximum: nat, e: Entry, now: real)
    requires Sorted(h) && Within(h, e.expiry) && maximum >= 1 && e.expiry > now
    ensures Newest(Without(Live(h, maximum, now), e.digest) + [e], maximum) == Live(h + [e], maximum, now)
  {
    assert (h + [e])[..|h|] == h;
    LatestOrdered(h, e.expiry);
    LiveStep(Latest(h), maximum, e, now);
  }

  /** The live list meets everything the guard keeps about its table. */
  lemma {:induction false} LiveIsTable(h: History, maximum: nat, now: real, t: real)
    requires Sorted(h) && Within(h, t)
    ensures var live := Live(h, maximum, now);
            Sorted(live) && Within(live, t) && |live| <= maximum && Unexpired(live, now) == live
  {
    LatestOrdered(h, t);
    var l := Latest(h);
    FilterCut(l, maximum, now);
    FilterTwice(Newest(l, maximum), now, now);
    CutSorted(l, maximum);
    UnexpiredKeeps(Newest(l, maximum), now);
    UnexpiredMembers(Newest(l, maximum), now);
  }

  lemma {:induction false} CutSorted(es: seq<Entry>, n: nat)
    requires Sorted(es)
    ensures Sorted(Newest(es, n))
  {
    if n < |es| {
      CutSorted(es[1..], n);
      assert Newest(es, n) == Newest(es[1..], n);
    }
  }

  lemma CutAppend(es: seq<Entry>, e: Entry, n: nat)
    requires n >= 1
    ensures Newest(es + [e], n) == Newest(es, n - 1) + [e]
  {
  }

  // ----- the guard -----

  /** What the guard keeps about its table and the history it stands for. */
  ghost predicate Consistent(ttl: real, maximum: nat, entries: seq<Entry>, history: History, lastCall: real) {
    && ttl > 0.0 && 1 <= maximum <= 4096
    && Sorted(history) && Within(history, lastCall + ttl)
    && Sorted(entries) && Within(entries, lastCall + ttl) && |entries| <= maximum
    && Unexpired(entries, lastCall) == Live(history, maximum, lastCall)
  }

  lemma RememberConsistent(ttl: real, maximum: nat, live: seq<Entry>, history: History, e: Entry, now: real, entries: seq<Entry>)
    requires ttl > 0.0 && 1 <= maximum <= 4096 && e.expiry == now + ttl
    requires Sorted(history) && Within(history, e.expiry) && live == Live(history, maximum, now)
    requires entries == Newest(Without(live, e.digest) + [e], maximum)
    ensures Consistent(ttl, maximum, entries, history + [e], now)
  {
    LiveAfterRemember(history, maximum, e, now);
    AppendKeeps(history, e);
    LiveIsTable(history + [e], maximum, now, e.expiry);
  }

  class Guard {
    const ttl: real
    const maximum: nat
    var entries: seq<Entry>
    ghost var history: History
    ghost var lastCall: real

    ghost predicate Valid()
      reads this
    {
      Consistent(ttl, maximum, entries, history, lastCall)
    }

    constructor (ttl: real, maximum: nat, now: real)
      requires ttl > 0.0 && 1 <= maximum <= 4096
      ensures Valid() && history == [] && lastCall == now && this.ttl == ttl && this.maximum == maximum
    {
      this.ttl, this.maximum := ttl, maximum;
      entries, history, lastCall := [], [], now;
    }

    /** Pop from the front while the front entry has expired; nothing expired is left. */
    method Expire(now: real)
      requires Valid() && now >= lastCall
      modifies this
      ensures Valid() && history == old(history) && lastCall == now
      ensures entries == Live(history, maximum, now)
    {
      ghost var before := entries;
      while entries != [] && entries[0].expiry <= now
        invariant Sorted(entries) && Within(entries, lastCall + ttl) && |entries| <= maximum
        invariant Unexpired(entries, now) == Unexpired(before, now)
        invariant history == old(history) && lastCall == old(lastCall)
        decreases |entries|
      {
        entries := entries[1..];
      }
      if entries != [] {
        FrontDecides(entries, now);
      }
      FilterTwice(before, lastCall, now);
      FilterTwice(Newest(Latest(history), maximum), lastCall, now);
      lastCall := now;
    }

    /** Exactly the specification, on a clock that never runs backwards. */
    method SeenBefore(digest: Digest, now: real) returns (r: bool)
      requires Valid() && now >= lastCall
      modifies this
      ensures Valid() && history == old(history) && lastCall == now
      ensures r == Seen(history, maximum, digest, now)
    {
      Expire(now);
      UnexpiredMembers(Newest(Latest(history), maximum), now);
      r := exists e :: e in entries && e.digest == digest && e.expiry > now;
    }

    method Remember(digest: Digest, now: real)
      requires Valid() && now >= lastCall
      modifies this
      ensures Valid() && history == old(history) + [Entry(digest, now + ttl)] && lastCall == now
    {
      hide Without, Newest;
      Expire(now);
      var e := Entry(digest, now + ttl);
      ghost var live, past := entries, history;
      entries := Without(entries, digest) + [e];
      Trim();
      RememberConsistent(ttl, maximum, live, past, e, now, entries);
      history := history + [e];
    }

    /** Pop from the front while the table is too long. */
    method Trim()
      modifies this`entries
      ensures entries == Newest(old(entries), maximum)
    {
      while |entries| > maximum
        invariant Newest(entries, maximum) == Newest(old(entries), maximum)
        decreases |entries|
      {
        entries := entries[1..];
      }
    }
  }
}
