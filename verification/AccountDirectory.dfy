/** The stored login directory and what makes it valid. */
module AccountDirectory {
  import opened Texts
  import opened Wrappers

  const ADMIN := "admin"
  const MAX_ACCOUNTS: nat := 32

  datatype Role = Admin | Member | Unknown

  datatype Account = Account(displayName: string, role: Role, hash: string, omv: Option<string>, active: bool)

  /** The credential file: the administrator, the directory if it was ever written, and
      the earliest issue time that sessions may have, for everybody and per account. */
  datatype Store = Store(
    username: string, adminHash: string, accounts: Option<map<string, Account>>, floor: int, floors: map<string, int>)

  predicate NameChar(c: char) {
    'a' <= c <= 'z' || '0' <= c <= '9' || c in "_-"
  }

  predicate Username(s: string) {
    1 <= |s| <= 32 && 'a' <= s[0] <= 'z' && forall i :: 0 <= i < |s| ==> NameChar(s[i])
  }

  predicate GoodHash(h: string) {
    1 <= |h| <= 4096
  }

  predicate GoodText(rec: Account) {
    Strip(rec.displayName) != "" && |Strip(rec.displayName)| <= 64 && !rec.role.Unknown? && GoodHash(rec.hash)
    && (rec.omv.Some? ==> Username(rec.omv.value))
  }

  /** The administrator is the owner of the file; every member is mapped to itself. */
  predicate GoodRecord(name: string, rec: Account, adminHash: string) {
    && Username(name) && GoodText(rec)
    && if name == ADMIN then rec.role == Admin && rec.omv.None? && rec.active && rec.hash == adminHash
       else rec.role == Member && rec.omv == Some(name)
  }

  predicate GoodDirectory(m: map<string, Account>, adminHash: string) {
    1 <= |m| <= MAX_ACCOUNTS && ADMIN in m && forall n :: n in m ==> GoodRecord(n, m[n], adminHash)
  }

  function Clean(rec: Account): Account {
    rec.(displayName := Strip(rec.displayName))
  }

  function Cleaned(m: map<string, Account>): map<string, Account> {
    map n | n in m :: Clean(m[n])
  }

  function AdminAccount(hash: string): Account {
    Account("\U{7BA1}\U{7406}\U{5458}", Admin, hash, None, true)
  }

  /** `normalized_accounts`. */
  function Normalized(p: Store): Option<map<string, Account>> {
    if p.username != ADMIN || !GoodHash(p.adminHash) then None
    else if p.accounts.None? then Some(map[ADMIN := AdminAccount(p.adminHash)])
    else if GoodDirectory(p.accounts.value, p.adminHash) then Some(Cleaned(p.accounts.value))
    else None
  }

  lemma {:induction false} LStripped(s: string)
    ensures LStrip(s) != "" ==> !IsSpace(LStrip(s)[0]) && LStrip(s)[|LStrip(s)| - 1] == s[|s| - 1]
  {
    if s != "" && IsSpace(s[0]) {
      LStripped(s[1..]);
    }
  }

  lemma {:induction false} RStripped(s: string)
    ensures RStrip(s) != "" ==> !IsSpace(RStrip(s)[|RStrip(s)| - 1])
  {
    if s != "" && IsSpace(s[|s| - 1]) {
      RStripped(s[..|s| - 1]);
    }
  }

  lemma StripTwice(s: string)
    ensures Strip(Strip(s)) == Strip(s)
  {
    RStripped(s);
    LStripped(RStrip(s));
    StripFixed(Strip(s));
  }

  lemma CleanGood(name: string, rec: Account, adminHash: string)
    requires GoodRecord(name, rec, adminHash)
    ensures GoodRecord(name, Clean(rec), adminHash) && Clean(Clean(rec)) == Clean(rec)
  {
    StripTwice(rec.displayName);
  }

  lemma CleanedKeys(m: map<string, Account>)
    ensures Cleaned(m).Keys == m.Keys && |Cleaned(m)| == |m|
  {
    assert Cleaned(m).Keys == m.Keys;
    assert |Cleaned(m)| == |Cleaned(m).Keys| && |m| == |m.Keys|;
  }

  /** A directory that has been normalized is valid and stays as it is. */
  lemma NormalizedIsStable(p: Store)
    requires Normalized(p).Some?
    ensures var n := Normalized(p).value;
            && GoodDirectory(n, p.adminHash)
            && Normalized(p.(accounts := Some(n))) == Some(n)
            && forall x :: x in n ==> Clean(n[x]) == n[x]
  {
    hide GoodRecord, Clean, AdminAccount;
    if p.accounts.Some? {
      var m := p.accounts.value;
      CleanedKeys(m);
      forall x | x in m ensures GoodRecord(x, Clean(m[x]), p.adminHash) && Clean(Clean(m[x])) == Clean(m[x]) {
        CleanGood(x, m[x], p.adminHash);
      }
      assert Cleaned(Cleaned(m)) == Cleaned(m);
    } else {
      AdminIsGood(p.adminHash);
    }
  }

  lemma AdminIsGood(hash: string)
    requires GoodHash(hash)
    ensures var m := map[ADMIN := AdminAccount(hash)];
            GoodDirectory(m, hash) && Cleaned(m) == m && Clean(AdminAccount(hash)) == AdminAccount(hash)
  {
    StripFixed(AdminAccount(hash).displayName);
  }

  lemma LowerUsername(s: string)
    requires Username(s)
    ensures Lower(s) == s
  {
  }

  method NormalizedAccounts(p: Store) returns (r: Option<map<string, Account>>)
    ensures r == Normalized(p)
  {
    hide GoodRecord, Cleaned;
    if p.username != ADMIN || !GoodHash(p.adminHash) {
      return None;
    }
    if p.accounts.None? {
      return Some(map[ADMIN := AdminAccount(p.adminHash)]);
    }
    var raw := p.accounts.value;
    if !(1 <= |raw| <= MAX_ACCOUNTS) {
      return None;
    }
    var accounts := Records(raw, p.adminHash);
    r := if accounts.Some? && ADMIN in raw then accounts else None;
  }

  method Records(raw: map<string, Account>, adminHash: string) returns (r: Option<map<string, Account>>)
    ensures r.Some? <==> forall n :: n in raw ==> GoodRecord(n, raw[n], adminHash)
    ensures r.Some? ==> r.value == Cleaned(raw)
  {
    hide GoodRecord, Clean;
    var accounts: map<string, Account>, owners: set<string>, left := map[], {}, raw.Keys;
    while left != {}
      invariant left <= raw.Keys
      invariant accounts.Keys == raw.Keys - left
      invariant forall n :: n in accounts ==> GoodRecord(n, raw[n], adminHash) && accounts[n] == Clean(raw[n])
      invariant owners <= accounts.Keys
      decreases |left|
    {
      var name :| name in left;
      var good := Checked(name, raw[name], adminHash, owners);
      if !good {
        return None;
      }
      owners := if name == ADMIN then owners else owners + {name};
      accounts := accounts[name := Clean(raw[name])];
      left := left - {name};
    }
    r := Some(accounts);
  }

  /** The check that no two members map to the same OMV user, ignoring case, never
      decides: each member maps to its own, lower-case name. */
  method Checked(name: string, rec: Account, adminHash: string, owners: set<string>) returns (ok: bool)
    requires name !in owners
    ensures ok == GoodRecord(name, rec, adminHash)
  {
    if !Username(name) || !GoodText(rec) {
      return false;
    }
    if name == ADMIN {
      return rec.role == Admin && rec.omv.None? && rec.active && rec.hash == adminHash;
    }
    if rec.role != Member || rec.omv != Some(name) {
      return false;
    }
    LowerUsername(name);
    ok := Lower(rec.omv.value) !in owners;
  }
}
