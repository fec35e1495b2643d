/** Cursor paging over the sync event log. */
module SyncChanges {
  import opened SyncLedger
  import opened Texts

  const MAX_CHANGE_PAGE := 500

  predicate Visible(e: Event, device: string, scopes: set<Scope>) {
    e.key.device == device && e.key.scope in scopes
  }

  /** Cursors above `after` of the events this device may see, in log order. */
  function Matching(events: seq<Event>, device: string, scopes: set<Scope>, after: nat): seq<nat>
    decreases |events| - after
  {
    if after >= |events| then []
    else if Visible(events[after], device, scopes)
    then [after + 1] + Matching(events, device, scopes, after + 1)
    else Matching(events, device, scopes, after + 1)
  }

  function PageSize(limit: int): (n: nat)
    ensures 1 <= n <= MAX_CHANGE_PAGE
    ensures 1 <= limit <= MAX_CHANGE_PAGE ==> n == limit
  {
    if limit < 1 then 1 else if limit > MAX_CHANGE_PAGE then MAX_CHANGE_PAGE else limit
  }

  function Page(events: seq<Event>, device: string, scopes: set<Scope>, cursor: nat, limit: int): seq<nat> {
    Take(Matching(events, device, scopes, cursor), PageSize(limit))
  }

  function NextCursor(page: seq<nat>, cursor: nat): nat {
    if page == [] then cursor else page[|page| - 1]
  }

  /** The cursors a client collects by following the returned cursor through
      successive states of the log. */
  function Follow(logs: seq<seq<Event>>, device: string, scopes: set<Scope>, cursor: nat, limit: int): seq<nat>
    decreases |logs|
  {
    if logs == [] then []
    else
      var page := Page(logs[0], device, scopes, cursor, limit);
      page + Follow(logs[1..], device, scopes, NextCursor(page, cursor), limit)
  }

  ghost predicate OnlyGrows(logs: seq<seq<Event>>) {
    forall i, j :: 0 <= i <= j < |logs| ==> logs[i] <= logs[j]
  }

  /** Exactly the visible cursors above `after`, each once, increasing. */
  lemma {:induction false} MatchingExact(events: seq<Event>, device: string, scopes: set<Scope>, after: nat)
    ensures forall c :: c in Matching(events, device, scopes, after) <==>
              after < c <= |events| && Visible(events[c - 1], device, scopes)
    ensures forall i, j :: 0 <= i < j < |Matching(events, device, scopes, after)| ==>
              Matching(events, device, scopes, after)[i] < Matching(events, device, scopes, after)[j]
    decreases |events| - after
  {
    if after < |events| {
      MatchingExact(events, device, scopes, after + 1);
      var rest := Matching(events, device, scopes, after + 1);
      assert forall j :: 0 <= j < |rest| ==> rest[j] in rest;
    }
  }

  lemma {:induction false} MatchingGrows(events: seq<Event>, more: seq<Event>, device: string, scopes: set<Scope>, after: nat)
    requires events <= more
    ensures Matching(events, device, scopes, after) <= Matching(more, device, scopes, after)
    decreases |events| - after
  {
    if after < |events| {
      MatchingGrows(events, more, device, scopes, after + 1);
    }
  }

  /** Resuming at the n-th returned cursor continues exactly after the n-th item. */
  lemma {:induction false} MatchingResumes(events: seq<Event>, device: string, scopes: set<Scope>, after: nat, n: nat)
    requires n <= |Matching(events, device, scopes, after)|
    ensures var all := Matching(events, device, scopes, after);
            Matching(events, device, scopes, NextCursor(all[..n], after)) == all[n..]
    decreases |events| - after
  {
    var all := Matching(events, device, scopes, after);
    if n > 0 {
      var rest := Matching(events, device, scopes, after + 1);
      if Visible(events[after], device, scopes) {
        MatchingResumes(events, device, scopes, after + 1, n - 1);
        assert all[1..] == rest;
        assert n > 1 ==> rest[..n - 1][n - 2] == all[..n][n - 1];
        assert all[n..] == rest[n - 1..];
      } else {
        MatchingResumes(events, device, scopes, after + 1, n);
      }
    }
  }

  /** Cursor completeness: however the log grows between pages, the collected cursors
      are a gap-free beginning of the visible cursors above the start, and all of them
      as soon as one page comes back short. */
  lemma {:induction false} FollowIsGapFree(logs: seq<seq<Event>>, device: string, scopes: set<Scope>, cursor: nat, limit: int)
    requires logs != [] && OnlyGrows(logs)
    ensures var last := logs[|logs| - 1];
            Follow(logs, device, scopes, cursor, limit) <= Matching(last, device, scopes, cursor)
    decreases |logs|
  {
    hide Matching, PageSize;
    var last := logs[|logs| - 1];
    var page := Page(logs[0], device, scopes, cursor, limit);
    assert logs[0] <= last;
    MatchingGrows(logs[0], last, device, scopes, cursor);
    var all := Matching(last, device, scopes, cursor);
    assert page == all[..|page|];
    MatchingResumes(last, device, scopes, cursor, |page|);
    if |logs| > 1 {
      FollowIsGapFree(logs[1..], device, scopes, NextCursor(page, cursor), limit);
    }
  }

  lemma FollowStep(logs: seq<seq<Event>>, device: string, scopes: set<Scope>, cursor: nat, limit: int)
    requires logs != []
    ensures var page := Page(logs[0], device, scopes, cursor, limit);
            Follow(logs, device, scopes, cursor, limit)
            == page + Follow(logs[1..], device, scopes, NextCursor(page, cursor), limit)
  {
    hide Matching, PageSize;
  }

  lemma FollowNothing(device: string, scopes: set<Scope>, cursor: nat, limit: int)
    ensures Follow([], device, scopes, cursor, limit) == []
  {
  }

  /** The cursor after two pages is the cursor after the second. */
  lemma CursorAfter(first: seq<nat>, rest: seq<nat>, cursor: nat)
    ensures NextCursor(first + rest, cursor) == NextCursor(rest, NextCursor(first, cursor))
  {
    if rest == [] {
      assert first + rest == first;
    }
  }

  /** A short last page means nothing visible is left. */
  lemma {:induction false} ShortPageEnds(logs: seq<seq<Event>>, device: string, scopes: set<Scope>, cursor: nat, limit: int)
    requires logs != [] && OnlyGrows(logs)
    requires var before := Follow(logs[..|logs| - 1], device, scopes, cursor, limit);
             |Page(logs[|logs| - 1], device, scopes, NextCursor(before, cursor), limit)| < PageSize(limit)
    ensures Follow(logs, device, scopes, cursor, limit) == Matching(logs[|logs| - 1], device, scopes, cursor)
    decreases |logs|
  {
    hide Matching, PageSize, Follow;
    var last := logs[|logs| - 1];
    var page := Page(logs[0], device, scopes, cursor, limit);
    assert logs[0] <= last;
    MatchingGrows(logs[0], last, device, scopes, cursor);
    var all := Matching(last, device, scopes, cursor);
    assert page == all[..|page|];
    MatchingResumes(last, device, scopes, cursor, |page|);
    FollowStep(logs, device, scopes, cursor, limit);
    FollowNothing(device, scopes, cursor, limit);
    if |logs| > 1 {
      var rest, next := logs[1..], NextCursor(page, cursor);
      assert logs[..|logs| - 1][1..] == rest[..|rest| - 1];
      FollowStep(logs[..|logs| - 1], device, scopes, cursor, limit);
      CursorAfter(page, Follow(rest[..|rest| - 1], device, scopes, next, limit), cursor);
      ShortPageEnds(rest, device, scopes, next, limit);
    } else {
      assert logs[..0] == [] && logs[1..] == [];
      FollowNothing(device, scopes, NextCursor(page, cursor), limit);
    }
  }

  /** Once the log stops growing, `k` pages collect `k * limit` cursors or everything. */
  lemma {:induction false} PagesMakeProgress(events: seq<Event>, device: string, scopes: set<Scope>, cursor: nat, limit: int, k: nat)
    ensures var all := Matching(events, device, scopes, cursor);
            Follow(Repeated(events, k), device, scopes, cursor, limit) == Take(all, k * PageSize(limit))
    decreases k
  {
    hide Matching, NextCursor, PageSize;
    var all := Matching(events, device, scopes, cursor);
    if k > 0 {
      var n := PageSize(limit);
      var page := Page(events, device, scopes, cursor, limit);
      MatchingResumes(events, device, scopes, cursor, |page|);
      assert page == all[..|page|];
      PagesMakeProgress(events, device, scopes, NextCursor(page, cursor), limit, k - 1);
      TakeMore(all, n, k);
    }
  }

  /** The page that comes after `k` pages of a log that stands still. */
  function PageAfter(events: seq<Event>, device: string, scopes: set<Scope>, cursor: nat, limit: int, k: nat): seq<nat> {
    Page(events, device, scopes, NextCursor(Follow(Repeated(events, k), device, scopes, cursor, limit), cursor), limit)
  }

  lemma PageAfterSize(events: seq<Event>, device: string, scopes: set<Scope>, cursor: nat, limit: int, k: nat)
    requires k * PageSize(limit) <= |Matching(events, device, scopes, cursor)|
    ensures var all, n := Matching(events, device, scopes, cursor), PageSize(limit);
            && Follow(Repeated(events, k), device, scopes, cursor, limit) == all[..k * n]
            && PageAfter(events, device, scopes, cursor, limit, k) == Take(all[k * n..], n)
  {
    hide Matching, Follow, PageSize, Repeated;
    PagesMakeProgress(events, device, scopes, cursor, limit, k);
    MatchingResumes(events, device, scopes, cursor, k * PageSize(limit));
  }

  /** How many full pages `m` items make. */
  function FullPages(m: nat, n: nat): (k: nat)
    requires n > 0
    ensures k * n <= m < k * n + n
  {
    m / n
  }

  /** Paging a log that stands still: full pages first, */
  lemma FullPage(events: seq<Event>, device: string, scopes: set<Scope>, cursor: nat, limit: int, j: nat)
    requires j < FullPages(|Matching(events, device, scopes, cursor)|, PageSize(limit))
    ensures |PageAfter(events, device, scopes, cursor, limit, j)| == PageSize(limit)
  {
    hide Matching, Follow, PageSize, Repeated, PageAfter, FullPages;
    PagesBefore(|Matching(events, device, scopes, cursor)|, PageSize(limit), j);
    PageAfterSize(events, device, scopes, cursor, limit, j);
  }

  /** and then one that is not full and ends it. */
  lemma LastPage(events: seq<Event>, device: string, scopes: set<Scope>, cursor: nat, limit: int)
    ensures var all, n := Matching(events, device, scopes, cursor), PageSize(limit);
            var k := FullPages(|all|, n);
            && |PageAfter(events, device, scopes, cursor, limit, k)| < n
            && Follow(Repeated(events, k), device, scopes, cursor, limit)
               + PageAfter(events, device, scopes, cursor, limit, k) == all
  {
    hide Matching, Follow, PageSize, Repeated, PageAfter, FullPages;
    var all, n := Matching(events, device, scopes, cursor), PageSize(limit);
    var k := FullPages(|all|, n);
    var m := k * n;
    PageAfterSize(events, device, scopes, cursor, limit, k);
    Halves(all, m, n);
  }

  lemma Halves(all: seq<nat>, m: nat, n: nat)
    requires m <= |all| < m + n
    ensures |Take(all[m..], n)| < n && all[..m] + Take(all[m..], n) == all
  {
  }

  /** A client that follows the cursor while the log grows, and on while it stands still,
      comes to an end: the first page that is not full is the one after `left / limit`
      full ones, where `left` events were still to come when the log stopped.  By then it
      has collected every visible cursor above its start. */
  lemma PagingStops(logs: seq<seq<Event>>, events: seq<Event>, device: string, scopes: set<Scope>, cursor: nat, limit: int)
    requires OnlyGrows(logs) && (logs != [] ==> logs[|logs| - 1] <= events)
    ensures var n, first := PageSize(limit), Follow(logs, device, scopes, cursor, limit);
            var next := NextCursor(first, cursor);
            var k := FullPages(|Matching(events, device, scopes, next)|, n);
            && (forall j: nat :: j < k ==> |PageAfter(events, device, scopes, next, limit, j)| == n)
            && |PageAfter(events, device, scopes, next, limit, k)| < n
            && first + (Follow(Repeated(events, k), device, scopes, next, limit)
                        + PageAfter(events, device, scopes, next, limit, k))
               == Matching(events, device, scopes, cursor)
  {
    hide Matching, Follow, PageSize, Repeated, PageAfter, Page, FullPages;
    var first := Follow(logs, device, scopes, cursor, limit);
    FollowNothing(device, scopes, cursor, limit);
    if logs != [] {
      FollowIsGapFree(logs, device, scopes, cursor, limit);
      MatchingGrows(logs[|logs| - 1], events, device, scopes, cursor);
    }
    var all := Matching(events, device, scopes, cursor);
    assert first == all[..|first|];
    MatchingResumes(events, device, scopes, cursor, |first|);
    assert first + all[|first|..] == all;
    var next := NextCursor(first, cursor);
    LastPage(events, device, scopes, next, limit);
    forall j: nat | j < FullPages(|Matching(events, device, scopes, next)|, PageSize(limit))
      ensures |PageAfter(events, device, scopes, next, limit, j)| == PageSize(limit)
    {
      FullPage(events, device, scopes, next, limit, j);
    }
  }

  lemma PagesBefore(m: nat, n: nat, j: nat)
    requires n > 0 && j < FullPages(m, n)
    ensures j * n + n <= m
  {
    assert (j + 1) * n <= FullPages(m, n) * n;
  }

  function Repeated(events: seq<Event>, k: nat): (logs: seq<seq<Event>>)
    ensures |logs| == k
  {
    if k == 0 then [] else [events] + Repeated(events, k - 1)
  }

  lemma TakeMore(all: seq<nat>, n: nat, k: nat)
    requires k > 0
    ensures Take(all, n) + Take(all[|Take(all, n)|..], (k - 1) * n) == Take(all, k * n)
  {
    assert k * n == n + (k - 1) * n;
  }

  /** Completeness needs the grants to stay fixed: an event of a scope granted only
      after the cursor has passed it is in no later page. */
  lemma LateGrantMissesEarlierEvents(events: seq<Event>, device: string, before: set<Scope>, added: Scope, cursor: nat, limit: int, missed: nat)
    requires added !in before && 0 < missed <= |events|
    requires Visible(events[missed - 1], device, {added})
    ensures missed in Matching(events, device, before + {added}, 0)
    ensures missed in Matching(events, device, before + {added}, cursor) <==> cursor < missed
  {
    MatchingExact(events, device, before + {added}, 0);
    MatchingExact(events, device, before + {added}, cursor);
  }
}
