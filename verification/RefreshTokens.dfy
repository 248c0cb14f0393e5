/**
 Refresh-token rotation.

 `rotate_tokens` mints an access token and stores a fresh refresh token with its claims;
 `refresh_access` takes the stored entry out and, when it is good, rotates again.  The
 random token is an input that has never been used before; signing is not modelled, an
 access token is its claims.
 */
module RefreshTokens {
  import opened Wrappers

  datatype Claims = Claims(sub: string, tenant: string, role: string, audience: Option<string>, name: Option<string>)

  datatype Entry = Entry(secret: string, claims: Claims, expiresAt: real)

  /** The claims a minted JWT carries: empty audience and name are left out. */
  datatype Access = Access(sub: string, tenant: string, role: string, aud: Option<string>, name: Option<string>, secret: string)

  datatype AuthError = InvalidToken | Expired | InvalidClaims

  datatype Reply = Pair(access: Access, refresh: string) | Rejected(error: AuthError)

  const DEFAULT_REFRESH_TTL := 604800.0

  function NonEmpty(s: Option<string>): Option<string> {
    if s == Some("") then None else s
  }

  function Mint(c: Claims, secret: string): Access {
    Access(c.sub, c.tenant, c.role, NonEmpty(c.audience), NonEmpty(c.name), secret)
  }

  /** A login through `rotate_tokens`, or a use of a refresh token; `drawn` is the random token drawn. */
  datatype Event =
    | Login(claims: Claims, secret: string, ttl: real, now: real, drawn: string)
    | Refresh(token: string, secret: string, now: real, drawn: string)

  type Store = map<string, Entry>

  /** Why an entry is turned down, in the order the code checks. */
  function Flaw(entry: Option<Entry>, secret: string, now: real): Option<AuthError> {
    if entry.None? then Some(InvalidToken)
    else if secret != entry.value.secret then Some(InvalidToken)
    else if now > entry.value.expiresAt then Some(Expired)
    else if entry.value.claims.sub == "" || entry.value.claims.tenant == "" || entry.value.claims.role == "" then Some(InvalidClaims)
    else None
  }

  function Get(store: Store, token: string): Option<Entry> {
    if token in store then Some(store[token]) else None
  }

  function Apply(store: Store, e: Event): Store {
    match e
    case Login(claims, secret, ttl, now, drawn) => store[drawn := Entry(secret, claims, now + ttl)]
    case Refresh(token, secret, now, drawn) =>
      var entry, rest := Get(store, token), store - {token};
      if Flaw(entry, secret, now).Some? then rest
      else rest[drawn := Entry(secret, entry.value.claims, now + DEFAULT_REFRESH_TTL)]
  }

  function Answer(store: Store, e: Event): Reply {
    match e
    case Login(claims, secret, _, _, drawn) => Pair(Mint(claims, secret), drawn)
    case Refresh(token, secret, now, drawn) =>
      var entry := Get(store, token);
      if Flaw(entry, secret, now).Some? then Rejected(Flaw(entry, secret, now).value)
      else Pair(Mint(entry.value.claims, secret), drawn)
  }

  /** The access token shows these claims, an empty audience or name being left out, and is signed with this secret. */
  ghost predicate Carries(a: Access, c: Claims, secret: string) {
    && a.sub == c.sub && a.tenant == c.tenant && a.role == c.role && a.secret == secret
    && a.aud == (if c.audience == Some("") then None else c.audience)
    && a.name == (if c.name == Some("") then None else c.name)
  }

  class RefreshStore {
    var store: Store

    constructor ()
      ensures store == map[]
    {
      store := map[];
    }

    method RotateTokens(claims: Claims, secret: string, refreshTtl: real, now: real, token: string) returns (r: Reply)
      modifies this
      ensures store == Apply(old(store), Login(claims, secret, refreshTtl, now, token))
      ensures r == Answer(old(store), Login(claims, secret, refreshTtl, now, token))
      // the pair and the entry carry what was asked for
      ensures r.Pair? && r.refresh == token && Carries(r.access, claims, secret)
      ensures token in store && store[token].secret == secret && store[token].claims == claims && store[token].expiresAt == now + refreshTtl
    {
      var access := Mint(claims, secret);
      store := store[token := Entry(secret, claims, now + refreshTtl)];
      r := Pair(access, token);
    }

    method RefreshAccess(refreshToken: string, secret: string, now: real, token: string) returns (r: Reply)
      modifies this
      ensures store == Apply(old(store), Refresh(refreshToken, secret, now, token))
      ensures r == Answer(old(store), Refresh(refreshToken, secret, now, token))
      // the old token is gone; a new pair carries what the old entry did, for seven days
      ensures refreshToken != token ==> refreshToken !in store
      ensures r.Pair? ==>
        && refreshToken in old(store) && Carries(r.access, old(store)[refreshToken].claims, old(store)[refreshToken].secret)
        && r.refresh == token && token in store && store[token] == old(store)[refreshToken].(expiresAt := now + 7.0 * 86400.0)
    {
      if refreshToken !in store {
        assert store - {refreshToken} == store;
        return Rejected(InvalidToken);
      }
      var entry := store[refreshToken];
      store := store - {refreshToken};
      if secret != entry.secret {
        return Rejected(InvalidToken);
      }
      if now > entry.expiresAt {
        return Rejected(Expired);
      }
      if entry.claims.sub == "" || entry.claims.tenant == "" || entry.claims.role == "" {
        return Rejected(InvalidClaims);
      }
      r := RotateTokens(entry.claims, secret, DEFAULT_REFRESH_TTL, now, token);
    }
  }

  // ---------- runs ----------

  function After(events: seq<Event>): Store {
    if events == [] then map[] else Apply(After(events[..|events| - 1]), events[|events| - 1])
  }

  function ReplyAt(events: seq<Event>, i: nat): Reply
    requires i < |events|
  {
    Answer(After(events[..i]), events[i])
  }

  /** Every drawn token is new: never drawn before, and never presented before it was drawn. */
  ghost predicate FreshTokens(events: seq<Event>) {
    && (forall i, j :: 0 <= i < j < |events| ==> events[j].drawn != events[i].drawn)
    && (forall i, j :: 0 <= i <= j < |events| && events[i].Refresh? ==> events[j].drawn != events[i].token)
  }

  predicate PresentedAt(events: seq<Event>, i: int, token: string) {
    0 <= i < |events| && events[i].Refresh? && events[i].token == token
  }

  /** The login each live token descends from: its own, or that of the token it was exchanged for. */
  function Owner(events: seq<Event>): map<string, nat> {
    if events == [] then map[] else
      var init, e := events[..|events| - 1], events[|events| - 1];
      Passed(Owner(init), Answer(After(init), e), e, |init|)
  }

  function Passed(owner: map<string, nat>, reply: Reply, e: Event, n: nat): map<string, nat> {
    match e
    case Login(_, _, _, _, drawn) => owner[drawn := n]
    case Refresh(token, _, _, drawn) =>
      if reply.Pair? && token in owner then (owner - {token})[drawn := owner[token]] else owner - {token}
  }

  /** Index of the login `token` descends from, or -1 when it is not live. */
  function Root(events: seq<Event>, token: string): int {
    if token in Owner(events) then Owner(events)[token] else -1
  }

  ghost predicate IsLogin(events: seq<Event>, r: int, claims: Claims, secret: string) {
    0 <= r < |events| && events[r].Login? && events[r].claims == claims && events[r].secret == secret
  }

  ghost predicate Good(events: seq<Event>, store: Store, owner: map<string, nat>) {
    && (forall t :: t in store <==> t in owner)
    && (forall t :: t in store && t in owner ==> IsLogin(events, owner[t], store[t].claims, store[t].secret))
    && (forall t, u :: t in owner && u in owner && owner[t] == owner[u] ==> t == u)
  }

  lemma StepKeepsGood(events: seq<Event>, store: Store, owner: map<string, nat>, e: Event)
    requires Good(events, store, owner) && e.drawn !in store && (e.Refresh? ==> e.drawn != e.token)
    ensures Good(events + [e], Apply(store, e), Passed(owner, Answer(store, e), e, |events|))
  {
    assert forall r, claims, secret :: IsLogin(events, r, claims, secret) ==> IsLogin(events + [e], r, claims, secret);
    assert forall t :: t in owner ==> IsLogin(events, owner[t], store[t].claims, store[t].secret);
  }

  lemma FreshPrefix(events: seq<Event>, n: nat)
    requires FreshTokens(events) && n <= |events|
    ensures FreshTokens(events[..n])
  {
  }

  /** Event `i` drew this token, and the entry expires the event's own lifetime later: the login's, or
      seven days after an exchange. */
  ghost predicate DrewAt(events: seq<Event>, i: int, token: string, expiresAt: real) {
    0 <= i < |events| && events[i].drawn == token
    && expiresAt == events[i].now + if events[i].Login? then events[i].ttl else 7.0 * 86400.0
  }

  lemma {:induction false} LiveTokensWereDrawn(events: seq<Event>, token: string)
    requires token in After(events)
    ensures exists i :: DrewAt(events, i, token, After(events)[token].expiresAt)
  {
    var n := |events| - 1;
    var past := After(events[..n]);
    if token in past && past[token] == After(events)[token] {
      LiveTokensWereDrawn(events[..n], token);
      var i :| DrewAt(events[..n], i, token, past[token].expiresAt);
      assert DrewAt(events, i, token, past[token].expiresAt);
    } else {
      assert DrewAt(events, n, token, After(events)[token].expiresAt);
    }
  }

  lemma {:induction false} RunIsGood(events: seq<Event>)
    requires FreshTokens(events)
    ensures Good(events, After(events), Owner(events))
  {
    if events != [] {
      var n := |events| - 1;
      var init, e := events[..n], events[n];
      FreshPrefix(events, n);
      RunIsGood(init);
      if e.drawn in After(init) {
        LiveTokensWereDrawn(init, e.drawn);
        var i :| DrewAt(init, i, e.drawn, After(init)[e.drawn].expiresAt);
        assert false;
      }
      StepKeepsGood(init, After(init), Owner(init), e);
      assert init + [e] == events;
    }
  }

  /** Every login has at most one live refresh token, and that token's entry still carries the login's
      claims and secret. */
  lemma OneLiveTokenPerLogin(events: seq<Event>, t: string, u: string)
    requires FreshTokens(events) && t in After(events) && u in After(events)
    ensures IsLogin(events, Root(events, t), After(events)[t].claims, After(events)[t].secret)
    ensures Root(events, t) == Root(events, u) ==> t == u
  {
    RunIsGood(events);
  }

  /** Every pair handed out carries the claims and the secret of the login it descends from, field by field, an empty
      audience or name being left out; and its refresh token descends from the same login. */
  lemma PairsKeepTheLogin(events: seq<Event>, i: nat)
    requires FreshTokens(events) && i < |events| && ReplyAt(events, i).Pair?
    ensures var r, reply := if events[i].Login? then i else Root(events[..i], events[i].token), ReplyAt(events, i);
      && 0 <= r <= i && events[r].Login?
      && Carries(reply.access, events[r].claims, events[r].secret) && events[r].secret == events[i].secret
      && reply.refresh == events[i].drawn && Root(events[..i + 1], events[i].drawn) == r
  {
    FreshPrefix(events, i);
    RunIsGood(events[..i]);
    assert events[..i + 1][..i] == events[..i];
  }

  lemma {:induction false} StaysDead(events: seq<Event>, i: nat, token: string, n: nat)
    requires FreshTokens(events) && PresentedAt(events, i, token) && i < n <= |events|
    ensures token !in After(events[..n])
    decreases n
  {
    var m := n - 1;
    assert events[..n][..m] == events[..m];
    if m > i {
      StaysDead(events, i, token, m);
    }
    assert events[m].drawn != token;
  }

  /** Once presented, accepted or not, a refresh token is rejected ever after: it is accepted at most once. */
  lemma AcceptedAtMostOnce(events: seq<Event>, i: nat, j: nat, token: string)
    requires FreshTokens(events) && i < j && PresentedAt(events, i, token) && PresentedAt(events, j, token)
    ensures ReplyAt(events, j) == Rejected(InvalidToken)
  {
    StaysDead(events, i, token, j);
  }

  /** Where the root of a token after event `m` comes from. */
  lemma RootStep(events: seq<Event>, m: nat, t: string)
    requires m < |events|
    ensures var after, before := Root(events[..m + 1], t), Root(events[..m], t);
      || after == -1
      || after == before
      || (events[m].Login? && after == m)
      || (events[m].Refresh? && after == Root(events[..m], events[m].token))
    ensures events[m].Refresh? && ReplyAt(events, m).Rejected? ==>
      Root(events[..m + 1], t) == if t == events[m].token then -1 else Root(events[..m], t)
  {
    assert events[..m + 1][..m] == events[..m];
  }

  /** A rejected attempt on a live token ends its chain: no token of that login is live ever again, so no
      later pair descends from it. */
  lemma {:induction false} RejectionEndsTheChain(events: seq<Event>, i: nat, n: nat, t: string)
    requires FreshTokens(events) && i < n <= |events|
    requires events[i].Refresh? && ReplyAt(events, i).Rejected? && events[i].token in After(events[..i])
    ensures Root(events[..i], events[i].token) >= 0
    ensures Root(events[..n], t) != Root(events[..i], events[i].token)
    decreases n
  {
    hide Owner, After, Apply, Answer, Passed, ReplyAt;
    var m := n - 1;
    var token := events[i].token;
    var r := Root(events[..i], token);
    FreshPrefix(events, i);
    RunIsGood(events[..i]);
    assert 0 <= r < i by {
      RunIsGood(events[..i]);
    }
    RootStep(events, m, t);
    if m > i {
      RejectionEndsTheChain(events, i, m, t);
      if events[m].Refresh? {
        RejectionEndsTheChain(events, i, m, events[m].token);
      }
    } else if t != token && r == Root(events[..i], t) {
      SameRootSameToken(events[..i], t, token);
    }
  }

  lemma SameRootSameToken(events: seq<Event>, t: string, u: string)
    requires FreshTokens(events) && Root(events, t) == Root(events, u) >= 0
    ensures t == u
  {
    RunIsGood(events);
  }

  /** A refresh is accepted exactly when the token is live, the secret is the login's, the entry has not
      expired and the login named a subject, a tenant and a role. */
  lemma AcceptedExactly(events: seq<Event>, i: nat)
    requires FreshTokens(events) && i < |events| && events[i].Refresh?
    ensures var store, token := After(events[..i]), events[i].token;
      var r := Root(events[..i], token);
      ReplyAt(events, i).Pair? <==>
        && token in store && events[i].now <= store[token].expiresAt
        && 0 <= r < i && events[r].Login? && events[r].secret == events[i].secret
        && events[r].claims.sub != "" && events[r].claims.tenant != "" && events[r].claims.role != ""
  {
    FreshPrefix(events, i);
    RunIsGood(events[..i]);
  }

  /** Why an exchange is turned down: unknown token or another secret, else too late, else missing claims. */
  lemma RejectedExactly(events: seq<Event>, i: nat)
    requires FreshTokens(events) && i < |events| && events[i].Refresh?
    ensures var store, e := After(events[..i]), events[i];
      var known := e.token in store && store[e.token].secret == e.secret;
      var late := known && e.now > store[e.token].expiresAt;
      var r := Root(events[..i], e.token);
      && (known ==> 0 <= r < i && events[r].Login?)
      && (ReplyAt(events, i) == Rejected(InvalidToken) <==> !known)
      && (ReplyAt(events, i) == Rejected(Expired) <==> late)
      && (ReplyAt(events, i) == Rejected(InvalidClaims) <==>
            known && !late && (events[r].claims.sub == "" || events[r].claims.tenant == "" || events[r].claims.role == ""))
  {
    FreshPrefix(events, i);
    RunIsGood(events[..i]);
  }
}
