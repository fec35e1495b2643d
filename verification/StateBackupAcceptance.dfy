/** Which archives are accepted, and that the order of their entries plays no part. */
module StateBackupAcceptance {
  import opened ArchivePaths
  import opened StateBackup
  import opened Wrappers

  /** An entry is a file, a directory or a link, its name is relative, without backslashes
      and parent parts, and a link stays inside by its depth count. */
  predicate Acceptable(m: Member) {
    && m.name != "" && m.name[0] != '/' && '\\' !in m.name && (forall i :: 0 <= i < |Parts(m.name)| ==> Parts(m.name)[i] != "..")
    && (m.kind == IsFile || m.kind == IsDir || (m.kind == IsLink && PortableMember(m)))
  }

  lemma ValidIs(m: Member)
    ensures ValidMember(m) <==> Acceptable(m)
  {
  }

  lemma {:induction false} SizeAppend(a: seq<Member>, b: seq<Member>)
    ensures Size(a + b) == Size(a) + Size(b)
  {
    if b == [] {
      assert a + b == a;
    } else {
      assert (a + b)[..|a + b| - 1] == a + b[..|b| - 1];
      SizeAppend(a, b[..|b| - 1]);
    }
  }

  /** One more entry adds its bytes, and none if their number is negative. */
  lemma SizeInsert(a: seq<Member>, m: Member, b: seq<Member>)
    ensures Size([]) == 0 && Size(a + [m] + b) == Size(a + b) + if m.bytes > 0 then m.bytes else 0
  {
    SizeAppend(a + [m], b);
    SizeAppend(a, [m]);
    SizeAppend(a, b);
    assert [m][..0] == [];
  }

  lemma Without(a: seq<Member>, m: Member, b: seq<Member>)
    ensures multiset(a + b) == multiset(a + [m] + b) - multiset{m}
  {
  }

  lemma TakeOut(ms: seq<Member>, m: Member) returns (a: seq<Member>, b: seq<Member>)
    requires m in multiset(ms)
    ensures ms == a + [m] + b
  {
    var i :| 0 <= i < |ms| && ms[i] == m;
    a, b := ms[..i], ms[i + 1..];
  }

  lemma {:induction false} SizeIgnoresOrder(ms: seq<Member>, ns: seq<Member>)
    requires multiset(ms) == multiset(ns)
    ensures Size(ms) == Size(ns)
    decreases |ms|
  {
    hide Size;
    if ms == [] {
      assert |multiset(ns)| == |multiset(ms)| == 0;
      assert ns == [];
    } else {
      var m, rest := ms[0], ms[1..];
      assert [] + [m] + rest == ms && [] + rest == rest;
      assert ms[0] in multiset(ms);
      var a, b := TakeOut(ns, m);
      Without([], m, rest);
      Without(a, m, b);
      SizeIgnoresOrder(rest, a + b);
      SizeInsert([], m, rest);
      SizeInsert(a, m, b);
    }
  }

  /** Some entry is a link with just this name. */
  ghost predicate LinkOf(ms: seq<Member>, name: string) {
    exists m :: m in ms && m.name == name && m.kind == IsLink
  }

  ghost predicate Once(ms: seq<Member>) {
    forall m, n :: m in ms && n in ms && m.name == n.name ==> m == n && multiset(ms)[m] == 1
  }

  /** One of the folders on the way to the entry has the name of a link. */
  ghost predicate BelowLink(ms: seq<Member>, m: Member) {
    exists k :: 0 < k < |Parts(m.name)| && LinkOf(ms, Joined(Parts(m.name)[..k]))
  }

  /** An archive is accepted exactly by its entries: at most a million of them, of at most
      100 GiB, all acceptable, no name twice, a compatible manifest, and no entry below a
      name that is the name of a link. */
  lemma AcceptedIff(ms: seq<Member>)
    ensures Inspected(ms) <==>
            && |ms| <= 1_000_000 && Size(ms) <= 100 * 1024 * 1024 * 1024
            && (forall m :: m in ms ==> Acceptable(m)) && Once(ms)
            && (exists m :: m in ms && m.name == "echo-backup-manifest.json" && m.manifest == Compatible)
            && forall m :: m in ms ==> !BelowLink(ms, m)
  {
    hide Acceptable, Size, Once, BelowLink, ValidMember, UnderLink, Parts, MANIFEST;
    AllAcceptable(ms);
    OnceIs(ms);
    ManifestIs(ms);
    NoneBelow(ms);
  }

  lemma AllAcceptable(ms: seq<Member>)
    ensures (forall i :: 0 <= i < |ms| ==> ValidMember(ms[i])) <==> forall m :: m in ms ==> Acceptable(m)
  {
    hide Acceptable, ValidMember;
    forall m: Member ensures ValidMember(m) <==> Acceptable(m) {
      ValidIs(m);
    }
    assert forall i :: 0 <= i < |ms| ==> ms[i] in ms;
  }

  lemma ManifestIs(ms: seq<Member>)
    ensures (exists i :: 0 <= i < |ms| && ms[i].name == MANIFEST && ms[i].manifest.Compatible?)
            <==> exists m :: m in ms && m.name == "echo-backup-manifest.json" && m.manifest == Compatible
  {
    if i :| 0 <= i < |ms| && ms[i].name == MANIFEST && ms[i].manifest.Compatible? {
      assert ms[i] in ms;
    }
  }

  lemma NoneBelow(ms: seq<Member>)
    ensures (forall i :: 0 <= i < |ms| ==> !UnderLink(ms, Parts(ms[i].name))) <==> forall m :: m in ms ==> !BelowLink(ms, m)
  {
    hide UnderLink, BelowLink, Parts;
    forall m: Member ensures UnderLink(ms, Parts(m.name)) <==> BelowLink(ms, m) {
      UnderIs(ms, m);
    }
    assert forall i :: 0 <= i < |ms| ==> ms[i] in ms;
  }

  lemma UnderIs(ms: seq<Member>, m: Member)
    ensures UnderLink(ms, Parts(m.name)) <==> BelowLink(ms, m)
  {
    hide Joined;
    forall name ensures LinkNamed(ms, name) <==> LinkOf(ms, name) {
    }
  }

  lemma OnceIs(ms: seq<Member>)
    ensures Once(ms) <==> forall i, j :: 0 <= i < j < |ms| ==> ms[i].name != ms[j].name
  {
    if forall i, j :: 0 <= i < j < |ms| ==> ms[i].name != ms[j].name {
      forall m, n | m in ms && n in ms && m.name == n.name ensures m == n && multiset(ms)[m] == 1 {
        var i :| 0 <= i < |ms| && ms[i] == m;
        assert ms == ms[..i] + [m] + ms[i + 1..];
        assert m !in ms[..i] && m !in ms[i + 1..];
        assert multiset(ms[..i])[m] == 0 && multiset(ms[i + 1..])[m] == 0;
      }
    }
    if Once(ms) {
      forall i, j | 0 <= i < j < |ms| ensures ms[i].name != ms[j].name {
        TwiceIn(ms, i, j);
        assert ms[i] in ms && ms[j] in ms;
      }
    }
  }

  lemma TwiceIn(ms: seq<Member>, i: nat, j: nat)
    requires i < j < |ms|
    ensures ms[i] == ms[j] ==> multiset(ms)[ms[i]] >= 2
  {
    assert ms == ms[..j] + ms[j..];
    assert ms[..j][i] == ms[i] && ms[j..][0] == ms[j];
    assert ms[i] in multiset(ms[..j]) && ms[j] in multiset(ms[j..]);
  }

  /** So the order of the entries plays no part. */
  lemma AcceptanceIgnoresOrder(ms: seq<Member>, ns: seq<Member>)
    requires multiset(ms) == multiset(ns)
    ensures Inspected(ms) <==> Inspected(ns)
  {
    hide Inspected, Acceptable, Size, Once, LinkOf, BelowLink;
    AcceptedIff(ms);
    AcceptedIff(ns);
    SizeIgnoresOrder(ms, ns);
    assert |ms| == |multiset(ms)| == |multiset(ns)| == |ns|;
    forall m: Member ensures m in ms <==> m in ns {
      assert m in multiset(ms) <==> m in multiset(ns);
    }
    SameOnce(ms, ns);
    forall m ensures BelowLink(ms, m) <==> BelowLink(ns, m) {
      SameBelow(ms, ns, m);
    }
  }

  lemma SameOnce(ms: seq<Member>, ns: seq<Member>)
    requires multiset(ms) == multiset(ns) && forall m :: m in ms <==> m in ns
    ensures Once(ms) <==> Once(ns)
  {
  }

  lemma SameBelow(ms: seq<Member>, ns: seq<Member>, m: Member)
    requires forall x :: x in ms <==> x in ns
    ensures BelowLink(ms, m) <==> BelowLink(ns, m)
  {
    hide Joined, Parts;
    forall name ensures LinkOf(ms, name) <==> LinkOf(ns, name) {
    }
  }
}
