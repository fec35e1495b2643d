/** Principals in the order OMV lists are kept in, and the privilege lists built from them. */
module Privileges {
  import opened Texts
  import opened Wrappers

  datatype Role = User | Group

  datatype Principal = Principal(role: Role, name: string)

  /** One row of `getPrivileges`; no permission means that the share default applies. */
  datatype Entry = Entry(who: Principal, id: int, perms: Option<int>)

  /** One row of `setPrivileges`. */
  datatype Setting = Setting(who: Principal, perms: int)

  const MAX_PRIVILEGES: nat := 2048

  predicate TextBefore(a: string, b: string) {
    b != [] && (a == [] || a[0] < b[0] || (a[0] == b[0] && TextBefore(a[1..], b[1..])))
  }

  /** The order of `_privilege_sort_key`: users first, then by name. */
  predicate Before(p: Principal, q: Principal) {
    if p.role == q.role then TextBefore(p.name, q.name) else p.role == User
  }

  lemma {:induction false} TextOrder(a: string, b: string, c: string)
    ensures !TextBefore(a, a)
    ensures TextBefore(a, b) && TextBefore(b, c) ==> TextBefore(a, c)
    ensures TextBefore(a, b) || TextBefore(b, a) || a == b
  {
    if a != [] && b != [] {
      TextOrder(a[1..], b[1..], if c == [] then c else c[1..]);
      assert a == [a[0]] + a[1..] && b == [b[0]] + b[1..];
    } else if a != [] {
      TextOrder(a[1..], b, c);
    }
  }

  lemma BeforeOrder(p: Principal, q: Principal, r: Principal)
    ensures !Before(p, p)
    ensures Before(p, q) && Before(q, r) ==> Before(p, r)
    ensures Before(p, q) || Before(q, p) || p == q
  {
    TextOrder(p.name, q.name, r.name);
  }

  predicate Distinct(ps: seq<Principal>) {
    forall i, j :: 0 <= i < j < |ps| ==> ps[i] != ps[j]
  }

  function Names<T>(xs: seq<T>, key: T -> Principal): (ps: seq<Principal>)
    ensures |ps| == |xs| && forall i :: 0 <= i < |xs| ==> ps[i] == key(xs[i])
  {
    seq(|xs|, i requires 0 <= i < |xs| => key(xs[i]))
  }

  /** Insert after every element that does not come later. */
  function InsertBy<T>(x: T, xs: seq<T>, key: T -> Principal): (r: seq<T>)
    ensures multiset(r) == multiset(xs) + multiset{x}
  {
    if xs == [] then [x]
    else if Before(key(x), key(xs[0])) then [x] + xs
    else
      assert xs == [xs[0]] + xs[1..];
      [xs[0]] + InsertBy(x, xs[1..], key)
  }

  /** `sorted`, which is stable. */
  function SortBy<T>(xs: seq<T>, key: T -> Principal): (r: seq<T>)
    ensures multiset(r) == multiset(xs)
  {
    if xs == [] then []
    else
      assert xs == xs[..|xs| - 1] + [xs[|xs| - 1]];
      InsertBy(xs[|xs| - 1], SortBy(xs[..|xs| - 1], key), key)
  }

  lemma SameMembers<T>(a: seq<T>, b: seq<T>)
    requires multiset(a) == multiset(b)
    ensures |a| == |b| && forall x :: x in a <==> x in b
  {
    assert |a| == |multiset(a)| == |b|;
    forall x ensures x in a <==> x in b {
      assert x in a <==> x in multiset(a);
    }
  }

  predicate AscendingBy<T>(xs: seq<T>, key: T -> Principal) {
    forall i, j :: 0 <= i < j < |xs| ==> Before(key(xs[i]), key(xs[j]))
  }

  lemma PrependAscending<T>(x: T, xs: seq<T>, key: T -> Principal)
    requires AscendingBy(xs, key) && forall y :: y in xs ==> Before(key(x), key(y))
    ensures AscendingBy([x] + xs, key)
  {
  }

  lemma SameMember<T>(a: seq<T>, b: seq<T>, x: T)
    requires multiset(a) == multiset(b)
    ensures x in a <==> x in b
  {
    assert x in a <==> x in multiset(a);
  }

  lemma {:induction false} InsertAscending<T>(x: T, xs: seq<T>, key: T -> Principal)
    requires AscendingBy(xs, key) && forall y :: y in xs ==> key(y) != key(x)
    ensures AscendingBy(InsertBy(x, xs, key), key)
  {
    if xs != [] {
      BeforeOrder(key(x), key(xs[0]), key(x));
      if Before(key(x), key(xs[0])) {
        forall y | y in xs ensures Before(key(x), key(y)) {
          BeforeOrder(key(x), key(xs[0]), key(y));
        }
        PrependAscending(x, xs, key);
      } else {
        InsertAscending(x, xs[1..], key);
        var tail := InsertBy(x, xs[1..], key);
        forall y | y in tail ensures Before(key(xs[0]), key(y)) {
          BeforeOrder(key(xs[0]), key(x), key(x));
          SameMember(tail, xs[1..] + [x], y);
        }
        PrependAscending(xs[0], tail, key);
      }
    }
  }

  lemma {:induction false} SortAscending<T>(xs: seq<T>, key: T -> Principal)
    requires forall i, j :: 0 <= i < j < |xs| ==> key(xs[i]) != key(xs[j])
    ensures AscendingBy(SortBy(xs, key), key)
  {
    if xs != [] {
      var n := |xs| - 1;
      SortAscending(xs[..n], key);
      forall y | y in SortBy(xs[..n], key) ensures key(y) != key(xs[n]) {
        SameMember(SortBy(xs[..n], key), xs[..n], y);
      }
      InsertAscending(xs[n], SortBy(xs[..n], key), key);
    }
  }

  /** A list in order is left as it is. */
  lemma {:induction false} SortStable<T>(xs: seq<T>, key: T -> Principal)
    requires AscendingBy(xs, key)
    ensures SortBy(xs, key) == xs
  {
    if xs != [] {
      var n := |xs| - 1;
      SortStable(xs[..n], key);
      InsertLast(xs[n], xs[..n], key);
    }
  }

  lemma {:induction false} InsertLast<T>(x: T, xs: seq<T>, key: T -> Principal)
    requires forall y :: y in xs ==> Before(key(y), key(x))
    ensures InsertBy(x, xs, key) == xs + [x]
  {
    if xs != [] {
      BeforeOrder(key(x), key(xs[0]), key(x));
      InsertLast(x, xs[1..], key);
    }
  }

  lemma AscendingDistinct<T>(xs: seq<T>, key: T -> Principal)
    requires AscendingBy(xs, key)
    ensures Distinct(Names(xs, key))
  {
    forall i, j | 0 <= i < j < |xs| ensures key(xs[i]) != key(xs[j]) {
      BeforeOrder(key(xs[i]), key(xs[i]), key(xs[i]));
    }
  }

  // ----- privilege lists -----

  function SettingKey(s: Setting): Principal { s.who }

  function EntryKey(e: Entry): Principal { e.who }

  predicate ValidName(s: string) {
    1 <= |s| <= 255 && TrimmedName(s) && forall i :: 0 <= i < |s| ==> s[i] >= ' '
  }

  predicate ValidPerms(perms: Option<int>) {
    perms.None? || perms.value in {0, 5, 7}
  }

  predicate ValidEntry(e: Entry) {
    ValidName(e.who.name) && 0 <= e.id < 0x8000_0000 && ValidPerms(e.perms)
  }

  /** The inventory as every caller sees it: valid rows, in order, bounded. */
  predicate ValidInventory(es: seq<Entry>) {
    && |es| <= MAX_PRIVILEGES
    && (forall e :: e in es ==> ValidEntry(e))
    && AscendingBy(es, EntryKey)
  }

  /** `_configured_privileges`. */
  function Configured(es: seq<Entry>): (r: seq<Setting>)
    ensures |r| <= |es|
    ensures forall s :: s in r <==> Lists(es, s)
  {
    if es == [] then []
    else if es[0].perms.Some? then [Setting(es[0].who, es[0].perms.value)] + Configured(es[1..])
    else Configured(es[1..])
  }

  predicate Lists(es: seq<Entry>, s: Setting) {
    exists i :: 0 <= i < |es| && es[i].who == s.who && es[i].perms == Some(s.perms)
  }

  /** What the runner lets through: at most 2,048 valid rows that are their own sorted,
      duplicate-free form. */
  predicate RunnerAccepts(ss: seq<Setting>) {
    && |ss| <= MAX_PRIVILEGES
    && (forall s :: s in ss ==> ValidName(s.who.name) && s.perms in {0, 5, 7})
    && SortBy(Names(ss, SettingKey), p => p) == Names(ss, SettingKey)
    && Distinct(Names(ss, SettingKey))
  }

  lemma {:induction false} ConfiguredAscending(es: seq<Entry>)
    requires AscendingBy(es, EntryKey)
    ensures AscendingBy(Configured(es), SettingKey)
  {
    if es != [] {
      ConfiguredAscending(es[1..]);
      var rest := Configured(es[1..]);
      forall s | s in rest ensures Before(es[0].who, s.who) {
        var i :| 0 <= i < |es[1..]| && es[1..][i].who == s.who;
        assert es[i + 1].who == s.who;
      }
    }
  }

  lemma AscendingAccepted(ss: seq<Setting>)
    requires |ss| <= MAX_PRIVILEGES && AscendingBy(ss, SettingKey)
    requires forall s :: s in ss ==> ValidName(s.who.name) && s.perms in {0, 5, 7}
    ensures RunnerAccepts(ss)
  {
    var ps := Names(ss, SettingKey);
    SortStable(ps, p => p);
    AscendingDistinct(ss, SettingKey);
  }

  /** The rollback list passes the runner. */
  lemma OriginalAccepted(es: seq<Entry>)
    requires ValidInventory(es)
    ensures RunnerAccepts(Configured(es))
  {
    ConfiguredAscending(es);
    forall s | s in Configured(es) ensures ValidName(s.who.name) && s.perms in {0, 5, 7} {
      var i :| 0 <= i < |es| && es[i].who == s.who && es[i].perms == Some(s.perms);
      assert es[i] in es;
    }
    AscendingAccepted(Configured(es));
  }

  function Except(ss: seq<Setting>, p: Principal): (r: seq<Setting>)
    ensures |r| <= |ss|
    ensures forall s :: s in r <==> s in ss && s.who != p
  {
    if ss == [] then [] else if ss[0].who == p then Except(ss[1..], p) else [ss[0]] + Except(ss[1..], p)
  }

  /** The list to request: the configured one with this principal's permission replaced. */
  function Wanted(original: seq<Setting>, p: Principal, perms: Option<int>): seq<Setting> {
    SortBy(Except(original, p) + (if perms.Some? then [Setting(p, perms.value)] else []), SettingKey)
  }

  lemma {:induction false} ExceptAscending(ss: seq<Setting>, p: Principal)
    requires AscendingBy(ss, SettingKey)
    ensures AscendingBy(Except(ss, p), SettingKey)
  {
    if ss != [] {
      ExceptAscending(ss[1..], p);
      var rest := Except(ss[1..], p);
      forall s | s in rest ensures Before(ss[0].who, s.who) {
        var i :| 0 <= i < |ss[1..]| && ss[1..][i] == s;
        assert ss[i + 1] == s;
      }
    }
  }

  /** The request grants exactly the wanted permission to the principal and leaves every
      other principal's setting alone. */
  lemma WantedMeaning(original: seq<Setting>, p: Principal, perms: Option<int>)
    ensures forall s :: s in Wanted(original, p, perms) <==>
              if s.who == p then perms == Some(s.perms) else s in original
  {
    var unsorted := Except(original, p) + if perms.Some? then [Setting(p, perms.value)] else [];
    SameMembers(Wanted(original, p, perms), unsorted);
  }

  /** The forward list passes the runner whenever the principal is in the inventory. */
  lemma WantedAccepted(es: seq<Entry>, p: Principal, perms: Option<int>)
    requires ValidInventory(es) && ValidPerms(perms) && p in Names(es, EntryKey)
    ensures RunnerAccepts(Wanted(Configured(es), p, perms))
  {
    var original := Configured(es);
    ConfiguredAscending(es);
    OthersShorter(es, p);
    OriginalAccepted(es);
    assert ValidName(p.name) by {
      var i :| 0 <= i < |es| && Names(es, EntryKey)[i] == p;
      assert es[i] in es;
    }
    WantedMeaning(original, p, perms);
    WantedAscending(original, p, perms);
    AscendingAccepted(Wanted(original, p, perms));
  }

  lemma WantedAscending(original: seq<Setting>, p: Principal, perms: Option<int>)
    requires AscendingBy(original, SettingKey)
    ensures AscendingBy(Wanted(original, p, perms), SettingKey)
    ensures |Wanted(original, p, perms)| <= |Except(original, p)| + 1
  {
    var rest := Except(original, p);
    var unsorted := rest + if perms.Some? then [Setting(p, perms.value)] else [];
    ExceptAscending(original, p);
    AscendingDistinct(rest, SettingKey);
    forall i, j | 0 <= i < j < |unsorted| ensures SettingKey(unsorted[i]) != SettingKey(unsorted[j]) {
      assert Names(rest, SettingKey)[i] == rest[i].who && rest[i] in rest;
      assert j < |rest| ==> Names(rest, SettingKey)[j] == rest[j].who;
    }
    SortAscending(unsorted, SettingKey);
    SameMembers(Wanted(original, p, perms), unsorted);
  }

  /** Leaving out a listed principal leaves room for one more row. */
  lemma {:induction false} OthersShorter(es: seq<Entry>, p: Principal)
    requires p in Names(es, EntryKey)
    ensures |Except(Configured(es), p)| < |es|
  {
    if es[0].who == p {
      if es[0].perms.Some? {
        assert Configured(es)[1..] == Configured(es[1..]);
      }
    } else {
      assert Names(es[1..], EntryKey) == Names(es, EntryKey)[1..];
      OthersShorter(es[1..], p);
      if es[0].perms.Some? {
        assert Configured(es)[1..] == Configured(es[1..]);
      }
    }
  }
}
