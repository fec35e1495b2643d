/** One-shot step-up tokens: what the replay memory guarantees over whole runs. */
module ApprovalTokens {
  import opened Texts
  import opened Wrappers

  const MAX_ENTRIES: nat := 10_000

  datatype Payload = Payload(
    version: int, jti: string, actor: string, action: string, target: string,
    iat: int, exp: int, intent: Option<string>)

  /** An HMAC is determined by the key it was made with, counted by rotations, and by
      the payload. */
  datatype Mac = Mac(epoch: nat, payload: Payload)

  datatype Token = Garbled | Token(payload: Payload, mac: Mac)

  /** A consumed token id and the expiry that lets it be forgotten. */
  datatype Used = Used(jti: string, exp: int)

  /** Key epoch and the replay memory, oldest entry first. */
  datatype State = State(epoch: nat, consumed: seq<Used>)

  datatype Claim = Claim(actor: string, action: string, target: string, intent: Option<string>)

  datatype Verdict = Accepted | Denied | AuditFailed

  predicate ValidIntent(s: string) {
    1 <= |s| <= 128 && Alnum(s[0]) && forall i :: 0 <= i < |s| ==> Alnum(s[i]) || s[i] in "._:-"
  }

  /** Everything `consume` checks before it looks at the replay memory. */
  predicate Fits(epoch: nat, t: Token, c: Claim, now: int) {
    && t.Token? && t.mac == Mac(epoch, t.payload)
    && t.payload.version == 1 && t.payload.jti != ""
    && t.payload.iat <= now + 5 && t.payload.exp > now
    && (t.payload.intent.Some? ==> ValidIntent(t.payload.intent.value))
    && t.payload.actor == c.actor && t.payload.action == c.action && t.payload.target == c.target
    && (t.payload.intent.Some? ==> t.payload.intent == c.intent)
  }

  function Alive(us: seq<Used>, now: int): (r: seq<Used>)
    ensures |r| <= |us|
    ensures forall u :: u in r <==> u in us && u.exp > now
  {
    if us == [] then []
    else if us[0].exp > now then [us[0]] + Alive(us[1..], now)
    else Alive(us[1..], now)
  }

  function Newest(us: seq<Used>): (r: seq<Used>)
    ensures |r| <= MAX_ENTRIES
  {
    if |us| > MAX_ENTRIES then us[|us| - MAX_ENTRIES..] else us
  }

  function Prune(us: seq<Used>, now: int): seq<Used> {
    Newest(Alive(us, now))
  }

  predicate Replayed(us: seq<Used>, jti: string) {
    exists i :: 0 <= i < |us| && us[i].jti == jti
  }

  /** `consume` as one atomic step. */
  function Consume(s: State, t: Token, c: Claim, now: int, audit: bool): (State, Verdict) {
    if !Fits(s.epoch, t, c, now) then (s, if audit then Denied else AuditFailed)
    else
      var pruned := Prune(s.consumed, now);
      if Replayed(pruned, t.payload.jti) then
        (s.(consumed := pruned), if audit then Denied else AuditFailed)
      else
        (s.(consumed := Prune(pruned + [Used(t.payload.jti, t.payload.exp)], now)),
         if audit then Accepted else AuditFailed)
  }

  function Issue(s: State, c: Claim, jti: string, ttl: nat, now: int): Token {
    var p := Payload(1, jti, c.actor, c.action, c.target, now, now + ttl, c.intent);
    Token(p, Mac(s.epoch, p))
  }

  function Rotate(s: State): State {
    State(s.epoch + 1, [])
  }

  // ----- runs -----

  datatype Op =
    | OpIssue(claim: Claim, jti: string, ttl: nat, now: int)
    | OpConsume(token: Token, claim: Claim, now: int, audit: bool)
    | OpRotate(now: int)

  datatype Acceptance = Acceptance(token: Token, claim: Claim, now: int)

  /** A token was asked for, at this time and for so many seconds. */
  datatype Asked = Asked(token: Token, claim: Claim, ttl: nat, at: int)

  /** The service, with everything it issued and accepted so far. */
  datatype World = World(s: State, issued: set<Token>, asked: set<Asked>, accepted: seq<Acceptance>, now: int)

  function Step(w: World, op: Op): World {
    match op
    case OpIssue(c, jti, ttl, now) =>
      var t := Issue(w.s, c, jti, ttl, now);
      w.(issued := w.issued + {t}, asked := w.asked + {Asked(t, c, ttl, now)}, now := now)
    case OpConsume(t, c, now, audit) =>
      var (s, verdict) := Consume(w.s, t, c, now, audit);
      w.(s := s, accepted := w.accepted + (if verdict == Accepted then [Acceptance(t, c, now)] else []), now := now)
    case OpRotate(now) => w.(s := Rotate(w.s), now := now)
  }

  function Run(w: World, ops: seq<Op>): World
    decreases |ops|
  {
    if ops == [] then w else Run(Step(w, ops[0]), ops[1..])
  }

  const START := World(State(0, []), {}, {}, [], 0)

  /** The clock does not run backwards, and a newly consumed id still finds room among
      the unexpired ones. */
  predicate Ordinary(w: World, op: Op) {
    && op.now >= w.now
    && (op.OpConsume? && Fits(w.s.epoch, op.token, op.claim, op.now)
          && !Replayed(Alive(w.s.consumed, op.now), op.token.payload.jti) ==>
          |Alive(w.s.consumed, op.now)| < MAX_ENTRIES)
  }

  /** The MAC verifies under a key that has existed. */
  predicate Genuine(t: Token, epoch: nat)
    requires t.Token?
  {
    t.mac.payload == t.payload && t.mac.epoch <= epoch
  }

  /** Nobody makes a MAC without the key: a token whose MAC verifies under a key that
      has existed was issued. */
  predicate Unforged(w: World, op: Op) {
    op.OpConsume? && op.token.Token? && Genuine(op.token, w.s.epoch) ==> op.token in w.issued
  }

  predicate AllSteps(w: World, ops: seq<Op>, p: (World, Op) -> bool)
    decreases |ops|
  {
    ops == [] || (p(w, ops[0]) && AllSteps(Step(w, ops[0]), ops[1..], p))
  }

  // ----- at most once -----

  ghost predicate Remembers(w: World) {
    && |w.s.consumed| <= MAX_ENTRIES
    && forall a :: a in w.accepted ==>
      && a.token.Token? && a.token.mac.epoch <= w.s.epoch
      && (a.token.mac.epoch == w.s.epoch && a.token.payload.exp > w.now ==>
            Used(a.token.payload.jti, a.token.payload.exp) in w.s.consumed)
  }

  ghost predicate NoDuplicates(taken: seq<Acceptance>) {
    forall i, j :: 0 <= i < j < |taken| ==> taken[i].token != taken[j].token
  }

  lemma RemembersStep(w: World, op: Op)
    requires Remembers(w) && NoDuplicates(w.accepted) && Ordinary(w, op)
    ensures Remembers(Step(w, op)) && NoDuplicates(Step(w, op).accepted)
  {
    if op.OpConsume? && Fits(w.s.epoch, op.token, op.claim, op.now) {
      var p := op.token.payload;
      var pruned := Prune(w.s.consumed, op.now);
      assert pruned == Alive(w.s.consumed, op.now);
      if !Replayed(pruned, p.jti) {
        var u := Used(p.jti, p.exp);
        assert u !in pruned;
        assert forall a :: a in w.accepted ==> a.token != op.token;
        var after := Step(w, op).s.consumed;
        assert |pruned + [u]| <= MAX_ENTRIES;
        assert after == Alive(pruned + [u], op.now);
        assert u in pruned + [u];
        assert forall x :: x in pruned ==> x in pruned + [u];
      }
    }
  }

  /** No token is accepted twice in any run with a clock that never runs backwards and
      never more than 10,000 unexpired consumed ids. */
  lemma {:induction false} AtMostOnce(w: World, ops: seq<Op>)
    requires Remembers(w) && NoDuplicates(w.accepted)
    requires AllSteps(w, ops, (v, op) => Ordinary(v, op))
    ensures Remembers(Run(w, ops)) && NoDuplicates(Run(w, ops).accepted)
    decreases |ops|
  {
    if ops != [] {
      RemembersStep(w, ops[0]);
      AtMostOnce(Step(w, ops[0]), ops[1..]);
    }
  }

  /** Rotation alone protects too: whatever the memory holds, a token of an earlier key
      is never accepted. */
  lemma RotatedTokenRefused(s: State, t: Token, c: Claim, now: int, audit: bool)
    requires t.Token? && t.mac.epoch < s.epoch
    ensures Consume(s, t, c, now, audit).0 == s && Consume(s, t, c, now, audit).1 != Accepted
  {
  }

  lemma ConsumeFresh(s: State, t: Token, c: Claim, now: int)
    requires Fits(s.epoch, t, c, now) && |s.consumed| <= MAX_ENTRIES
    requires !Replayed(Alive(s.consumed, now), t.payload.jti)
    ensures var after := Newest(Alive(s.consumed, now) + [Used(t.payload.jti, t.payload.exp)]);
            && Consume(s, t, c, now, true) == (s.(consumed := after), Accepted)
            && Prune(after, now) == after
  {
    var alive, u := Alive(s.consumed, now), Used(t.payload.jti, t.payload.exp);
    assert Prune(s.consumed, now) == alive;
    AllAlive(alive + [u], now);
    AllAlive(Newest(alive + [u]), now);
  }

  /** Round trip: an issued token is accepted for its own claim until it expires, and
      not a second time. */
  lemma IssuedIsAcceptedOnce(s: State, c: Claim, jti: string, ttl: nat, now: int, later: int)
    requires jti != "" && now <= later + 5 && later < now + ttl && (c.intent.Some? ==> ValidIntent(c.intent.value))
    requires |s.consumed| <= MAX_ENTRIES && !Replayed(Alive(s.consumed, later), jti)
    ensures var t := Issue(s, c, jti, ttl, now);
            var (s1, first) := Consume(s, t, c, later, true);
            && first == Accepted && s1.epoch == s.epoch
            && Consume(s1, t, c, later, true).1 == Denied
  {
    hide ValidIntent, Alive, Newest, Prune, Replayed;
    var t := Issue(s, c, jti, ttl, now);
    ConsumeFresh(s, t, c, later);
    LastIsReplayed(Alive(s.consumed, later) + [Used(jti, now + ttl)]);
  }

  /** From `now + ttl` on an issued token is never accepted, whatever has happened. */
  lemma ExpiredIsRefused(s: State, c: Claim, jti: string, ttl: nat, now: int, s1: State, claim: Claim, later: int, audit: bool)
    requires later >= now + ttl
    ensures Consume(s1, Issue(s, c, jti, ttl, now), claim, later, audit).1 != Accepted
    ensures Consume(s1, Issue(s, c, jti, ttl, now), claim, later, audit).0 == s1
  {
  }

  /** Letters, digits, and after the first character also ".", "_", ":" and "-". */
  predicate WellFormed(s: string) {
    && s != "" && |s| <= 128 && s[0] !in {'.', '_', ':', '-'}
    && forall c :: c in s ==>
         '0' <= c <= '9' || 'A' <= c <= 'Z' || 'a' <= c <= 'z' || c in {'.', '_', ':', '-'}
  }

  lemma WellFormedIs(s: string)
    ensures ValidIntent(s) <==> WellFormed(s)
  {
    assert forall i :: 0 <= i < |s| ==> s[i] in s;
  }

  /** So a token that was not used yet is accepted, by a service with the same key and a
      working audit log, exactly for its own actor, action, target and bound intent and
      exactly in its time: from five seconds before it was issued until `ttl` seconds after. */
  lemma IssuedIsAcceptedIff(s: State, c: Claim, jti: string, ttl: nat, now: int, s1: State, claim: Claim, later: int)
    requires jti != ""
    requires s1.epoch == s.epoch && |s1.consumed| <= MAX_ENTRIES && !Replayed(Alive(s1.consumed, later), jti)
    ensures Consume(s1, Issue(s, c, jti, ttl, now), claim, later, true).1 == Accepted <==>
            && now - 5 <= later < now + ttl
            && claim.actor == c.actor && claim.action == c.action && claim.target == c.target
            && (c.intent.Some? ==> claim.intent == c.intent && WellFormed(c.intent.value))
  {
    if c.intent.Some? {
      WellFormedIs(c.intent.value);
    }
    hide ValidIntent, Alive, Newest, Prune, Replayed;
    if Fits(s1.epoch, Issue(s, c, jti, ttl, now), claim, later) {
      ConsumeFresh(s1, Issue(s, c, jti, ttl, now), claim, later);
    }
  }

  /** The newest entry is never the one that is dropped. */
  lemma LastIsReplayed(us: seq<Used>)
    requires us != []
    ensures Replayed(Newest(us), us[|us| - 1].jti)
  {
    var kept := Newest(us);
    assert kept[|kept| - 1] == us[|us| - 1];
  }

  /** The bound is exact.  When a new valid token is consumed, the token behind the
      oldest unexpired entry can be used again precisely if the memory was full. */
  lemma ReplayIffFull(s: State, earlier: Token, oldClaim: Claim, t: Token, c: Claim, now: int)
    requires |s.consumed| <= MAX_ENTRIES && Alive(s.consumed, now) != []
    requires forall i :: 0 < i < |Alive(s.consumed, now)| ==>
               Alive(s.consumed, now)[i].jti != Alive(s.consumed, now)[0].jti
    requires Fits(s.epoch, earlier, oldClaim, now) && Fits(s.epoch, t, c, now)
    requires Alive(s.consumed, now)[0] == Used(earlier.payload.jti, earlier.payload.exp)
    requires !Replayed(Alive(s.consumed, now), t.payload.jti)
    ensures var (s1, verdict) := Consume(s, t, c, now, true);
            && verdict == Accepted
            && (Consume(s1, earlier, oldClaim, now, true).1 == Accepted <==> |Alive(s.consumed, now)| == 10_000)
  {
    hide Alive;
    ConsumeFresh(s, t, c, now);
    var alive := Alive(s.consumed, now);
    var u := Used(t.payload.jti, t.payload.exp);
    var after := Newest(alive + [u]);
    assert Replayed(after, alive[0].jti) <==> |alive| < MAX_ENTRIES by {
      if |alive| == MAX_ENTRIES {
        assert after == alive[1..] + [u];
        assert alive[0].jti != u.jti;
      } else {
        assert after[0] == alive[0];
      }
    }
  }

  lemma {:induction false} AllAlive(us: seq<Used>, now: int)
    requires forall u :: u in us ==> u.exp > now
    ensures Alive(us, now) == us
  {
    if us != [] {
      AllAlive(us[1..], now);
    }
  }

  // ----- every acceptance was asked for -----

  ghost predicate Matched(w: World) {
    && (forall a :: a in w.accepted ==> a.token in w.issued && a.token.Token? && Fits(a.token.mac.epoch, a.token, a.claim, a.now))
    && (forall t :: t in w.issued ==> t.Token? && t.mac.payload == t.payload && t.mac.epoch <= w.s.epoch)
    && (forall t :: t in w.issued ==> exists x :: x in w.asked && AskedFor(x, t))
  }

  /** The token is the answer to this request. */
  predicate AskedFor(x: Asked, t: Token) {
    && x.token == t && t.Token? && t.payload.exp == x.at + x.ttl && t.payload.iat == x.at
    && t.payload.actor == x.claim.actor && t.payload.action == x.claim.action
    && t.payload.target == x.claim.target && t.payload.intent == x.claim.intent
  }

  /** The acceptance answers this request: in its time, and for what it was asked. */
  predicate Answers(a: Acceptance, x: Asked) {
    && a.token == x.token && x.at - 5 <= a.now < x.at + x.ttl
    && a.claim.actor == x.claim.actor && a.claim.action == x.claim.action && a.claim.target == x.claim.target
    && (x.claim.intent.Some? ==> a.claim.intent == x.claim.intent)
  }

  lemma MatchedStep(w: World, op: Op)
    requires Matched(w) && Unforged(w, op)
    ensures Matched(Step(w, op))
  {
    hide ValidIntent, Alive, Newest, Prune, Replayed;
    var next := Step(w, op);
    forall t | t in next.issued ensures exists x :: x in next.asked && AskedFor(x, t) {
      if t in w.issued {
        var x :| x in w.asked && AskedFor(x, t);
        assert x in next.asked;
      } else {
        assert AskedFor(Asked(t, op.claim, op.ttl, op.now), t);
      }
    }
  }

  /** Without forgery, every acceptance presents an issued, unexpired token for exactly
      the actor, action, target and bound intent it was issued for. */
  lemma {:induction false} AcceptedWasIssued(w: World, ops: seq<Op>)
    requires Matched(w)
    requires AllSteps(w, ops, (v, op) => Unforged(v, op))
    ensures Matched(Run(w, ops))
    decreases |ops|
  {
    if ops != [] {
      MatchedStep(w, ops[0]);
      AcceptedWasIssued(Step(w, ops[0]), ops[1..]);
    }
  }

  /** From the start of the service: both properties of every run. */
  lemma ApprovalsAreOneShot(ops: seq<Op>)
    requires AllSteps(START, ops, (w, op) => Ordinary(w, op))
    requires AllSteps(START, ops, (w, op) => Unforged(w, op))
    ensures var accepted := Run(START, ops).accepted;
            && (forall i, j :: 0 <= i < j < |accepted| ==> accepted[i].token != accepted[j].token)
            && (forall a :: a in accepted ==>
                  && a.token in Run(START, ops).issued && a.token.Token? && a.now < a.token.payload.exp
                  && a.claim.actor == a.token.payload.actor && a.claim.action == a.token.payload.action
                  && a.claim.target == a.token.payload.target
                  && (a.token.payload.intent.Some? ==> a.claim.intent == a.token.payload.intent))
            && (forall a :: a in accepted ==> exists x :: x in Run(START, ops).asked && Answers(a, x))
  {
    AtMostOnce(START, ops);
    AcceptedWasIssued(START, ops);
    var w := Run(START, ops);
    forall a | a in w.accepted ensures exists x :: x in w.asked && Answers(a, x) {
      var x :| x in w.asked && AskedFor(x, a.token);
      assert Answers(a, x);
    }
  }
}
