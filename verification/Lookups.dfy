/**
 What a lookup finds and what a recall reuses, exactly: not only that an answer is right, but
 when there is one.
 */
module Lookups {
  import opened Wrappers
  import opened Placeholders
  import opened Store
  import opened Pruning
  import opened Sessions
  import opened StoreRuns

  // ----------------------------------------------------------------- when a lookup hits

  /** The session holds the token for the original. */
  predicate HeldFor(w: World, sid: string, token: string, orig: string) {
    sid in w.sessions && token in w.sessions[sid].rev && w.sessions[sid].rev[token] == orig
  }

  /** A session may have met the token as a text of its own; then it stands for itself there. */
  predicate StandsForItself(w: World, sid: string, token: string) { HeldFor(w, sid, token, token) }

  predicate Expired(w: World, token: string, now: int)
    requires token in w.t.rev
  {
    now - w.t.rev[token].ts > w.ttl
  }

  /** A configured word has had the token, or still has it. */
  predicate WordToken(w: World, token: string) {
    token in w.t.customRev || (token in w.t.rev && IsCustom(w.t, w.t.rev[token].other))
  }

  /**
   Exactly when a lookup gives the original of a token: if the session holds it, or a
   configured word has it, or the recent table has it and it is not expired. Otherwise, for an
   expired ordinary token say, it gives nothing.
   */
  lemma {:induction false} LookupIff(w: World, owner: Owner, token: string, sid: string, now: int)
    requires SafeWorld(w, owner) && !HasPlaceholder(owner(token)) && !StandsForItself(w, sid, token)
    ensures Lookup(w, token, sid, now) == Some(owner(token)) <==>
              || HeldFor(w, sid, token, owner(token)) || WordToken(w, token)
              || (token in w.t.rev && !Expired(w, token, now))
    ensures Lookup(w, token, sid, now) != Some(owner(token)) ==> Lookup(w, token, sid, now) == None
  {
    if SessionHas(w, sid, token) {
      assert SessionOwned(w.sessions[sid], owner);
      assert HeldFor(w, sid, token, w.sessions[sid].rev[token]);
    }
    DirectIs(w, owner, token, sid, now);
  }

  lemma {:induction false} DirectIs(w: World, owner: Owner, token: string, sid: string, now: int)
    requires Owned(w.t, owner) && (SessionHas(w, sid, token) ==> HeldFor(w, sid, token, owner(token)))
    ensures Direct(w, token, sid, now) ==
              if HeldFor(w, sid, token, owner(token)) || WordToken(w, token) || (token in w.t.rev && !Expired(w, token, now))
              then Some(owner(token)) else None
  {
  }

  /** A token that stands for itself in a session is nobody's there. */
  lemma {:induction false} ItselfIsNothing(w: World, token: string, sid: string, now: int)
    requires StandsForItself(w, sid, token) && HasPlaceholder(token)
    ensures Lookup(w, token, sid, now) == None
  {
    SelfLoop(w, token, sid, now);
  }

  /** In every reachable state, so for any session, however late. */
  lemma {:induction false} ReachableLookupIff(ws: seq<World>, ops: seq<Op>, owner: Owner, i: nat, token: string, sid: string, now: int)
    requires StoreRuns.Run(ws, ops) && SafeWorld(ws[0], owner) && i < |ws|
    requires forall j :: 0 <= j < |ops| ==> Conforms(ws[j], ops[j], owner)
    requires !HasPlaceholder(owner(token)) && !StandsForItself(ws[i], sid, token)
    ensures Lookup(ws[i], token, sid, now) == Some(owner(token)) <==>
              || HeldFor(ws[i], sid, token, owner(token)) || WordToken(ws[i], token)
              || (token in ws[i].t.rev && !Expired(ws[i], token, now))
  {
    ReachableSafe(ws, ops, owner);
    LookupIff(ws[i], owner, token, sid, now);
  }

  lemma {:induction false} ReachableWords(ws: seq<World>, ops: seq<Op>, i: nat)
    requires StoreRuns.Run(ws, ops) && WordsInto(ws[0].t) && i < |ws|
    ensures WordsInto(ws[i].t)
  {
    for j := 0 to i
      invariant WordsInto(ws[j].t)
    {
      StepWords(ws[j], ops[j], ws[j + 1]);
    }
  }

  /** The token of a configured word is restored in every session at any time, asked for or not. */
  lemma {:induction false} WordResolves(ws: seq<World>, ops: seq<Op>, owner: Owner, i: nat, word: string, sid: string, now: int)
    requires StoreRuns.Run(ws, ops) && SafeWorld(ws[0], owner) && WordsInto(ws[0].t) && i < |ws|
    requires forall j :: 0 <= j < |ops| ==> Conforms(ws[j], ops[j], owner)
    requires word in ws[i].t.customFwd && !HasPlaceholder(word) && !StandsForItself(ws[i], sid, ws[i].t.customFwd[word])
    ensures Lookup(ws[i], ws[i].t.customFwd[word], sid, now) == Some(word)
  {
    var token := ws[i].t.customFwd[word];
    ReachableSafe(ws, ops, owner);
    ReachableWords(ws, ops, i);
    assert owner(token) == word && token in ws[i].t.customRev;
    LookupIff(ws[i], owner, token, sid, now);
  }

  /** A look at the element gives the next one, and every element but the first is a placeholder. */
  ghost predicate Link(w: World, c: seq<string>, i: nat, sid: string, now: int)
    requires i + 1 < |c|
  {
    Direct(w, c[i], sid, now) == Some(c[i + 1]) && c[i + 1] != c[i] && (i > 0 ==> HasPlaceholder(c[i]))
  }

  /** Each look gives the next element; only the last is no placeholder. */
  ghost predicate Chain(w: World, c: seq<string>, sid: string, now: int) {
    |c| >= 2 && !HasPlaceholder(c[|c| - 1]) && forall i :: 0 <= i < |c| - 1 ==> Link(w, c, i, sid, now)
  }

  lemma {:induction false} UnwrapOne(w: World, h: string, v: string, sid: string, now: int, depth: nat)
    requires HasPlaceholder(h) && depth < 5 && Direct(w, h, sid, now) == Some(v) && v != h
    ensures Unwrap(w, h, sid, now, depth) == Unwrap(w, v, sid, now, depth + 1)
  {
  }

  lemma {:induction false} UnwrapStops(w: World, h: string, sid: string, now: int, depth: nat)
    requires depth <= 5 && (!HasPlaceholder(h) || depth == 5)
    ensures Unwrap(w, h, sid, now, depth) == h
  {
  }

  lemma {:induction false} ChainAt(w: World, c: seq<string>, sid: string, now: int, i: nat)
    requires Chain(w, c, sid, now) && i < |c| - 1
    ensures Direct(w, c[i], sid, now) == Some(c[i + 1]) && c[i + 1] != c[i] && (i > 0 ==> HasPlaceholder(c[i]))
  {
    assert Link(w, c, i, sid, now);
  }

  lemma {:induction false} UnwrapChain(w: World, c: seq<string>, sid: string, now: int, i: nat, depth: nat) returns (h: string)
    requires Chain(w, c, sid, now) && 0 < i < |c| && depth <= 5
    ensures h == if |c| - 1 - i <= 5 - depth then c[|c| - 1] else c[i + 5 - depth]
    ensures Unwrap(w, c[i], sid, now, depth) == h
    decreases 5 - depth
  {
    h := c[i];
    if i < |c| - 1 { ChainAt(w, c, sid, now, i); }
    if i < |c| - 1 && depth < 5 {
      UnwrapOne(w, c[i], c[i + 1], sid, now, depth);
      h := UnwrapChain(w, c, sid, now, i + 1, depth + 1);
    } else {
      UnwrapStops(w, c[i], sid, now, depth);
    }
  }

  lemma {:induction false} LookupBy(w: World, token: string, v: string, h: string, sid: string, now: int)
    requires Direct(w, token, sid, now) == Some(v) && Unwrap(w, v, sid, now, 0) == h
    ensures Lookup(w, token, sid, now) == if HasPlaceholder(h) then None else Some(h)
  {
  }

  /** Originals that are placeholders themselves are unwrapped, five of them at most; deeper ones give nothing. */
  lemma {:induction false} LookupUnwraps(w: World, c: seq<string>, sid: string, now: int)
    requires Chain(w, c, sid, now)
    ensures Lookup(w, c[0], sid, now) == if |c| <= 7 then Some(c[|c| - 1]) else None
  {
    ChainAt(w, c, sid, now, 0);
    var h := UnwrapChain(w, c, sid, now, 1, 0);
    LookupBy(w, c[0], c[1], h, sid, now);
    if |c| > 7 { ChainAt(w, c, sid, now, 6); }
  }

  /** A lookup that is answered by the recent table makes both rows of the binding as new. */
  lemma {:induction false} LookupRenews(w: World, token: string, sid: string, now: int)
    requires Into(w.t.rev, w.t.fwd) && !SessionHas(w, sid, token)
    requires token in w.t.rev && (WordToken(w, token) || !Expired(w, token, now))
    ensures var t, o := LookupTouch(w, token, sid, now), w.t.rev[token].other;
            && t.rev[token] == Row(o, w.t.rev[token].kind, now) && t.fwd[o] == Row(token, w.t.fwd[o].kind, now)
            && (forall k :: k in t.rev && k != token ==> k in w.t.rev && t.rev[k] == w.t.rev[k])
            && (forall p :: p in t.fwd && p != o ==> p in w.t.fwd && t.fwd[p] == w.t.fwd[p])
  {
    assert w.t.rev[token].other in w.t.fwd;
  }

  // --------------------------------------------------------------- what a recall reuses

  /** The original has a token that may be given out again. */
  predicate Bound(t: Tables, ttl: int, orig: string, now: int) {
    orig in t.customFwd || (orig in t.fwd && now - t.fwd[orig].ts <= ttl)
  }

  /**
   Without storage: a recall reuses the token of the original if and only if that belongs to a
   configured word or is not expired; otherwise the token is one that nobody had.
   */
  lemma {:induction false} RecallReusesIff(t: Tables, ttl: int, orig: string, kind: string, now: int, db: Db, draws: Draws)
    requires Exact(t) && !HasPlaceholder(orig) && db(orig).None? && !AllTaken(t, kind, draws)
    ensures var r := Recall(t, ttl, orig, kind, now, db, draws);
            && (Live(t, r.token) <==> Bound(t, ttl, orig, now))
            && (orig in t.customFwd ==> r.token == t.customFwd[orig])
            && (orig !in t.customFwd && Bound(t, ttl, orig, now) ==> r.token == t.fwd[orig].other)
  {
    if orig in t.customFwd {
      assert t.customFwd[orig] in t.customRev;
    } else if Bound(t, ttl, orig, now) {
      assert t.fwd[orig].other in t.rev;
    } else {
      NewTokenTakenIff(t, kind, draws);
    }
  }

  /** Reused or new, an ordinary binding is as new afterwards, both ways. */
  lemma {:induction false} RecallRenews(t: Tables, ttl: int, orig: string, kind: string, now: int, db: Db, draws: Draws)
    requires Into(t.fwd, t.rev) && !HasPlaceholder(orig) && orig !in t.customFwd
    ensures var r := Recall(t, ttl, orig, kind, now, db, draws);
            && orig in r.t.fwd && r.t.fwd[orig].other == r.token && r.t.fwd[orig].ts == now
            && r.token in r.t.rev && r.t.rev[r.token].other == orig && r.t.rev[r.token].ts == now
  {
  }

  /**
   What is recalled is found: whichever way an ordinary original came to its token - reused, out
   of storage or new - a session that asked for nothing of the kind resolves it at once, and a
   token out of storage is the stored one.
   */
  lemma {:induction false} RecallResolves(t: Tables, ttl: int, orig: string, kind: string, now: int, db: Db, draws: Draws,
                                          w: World, sid: string)
    requires Into(t.fwd, t.rev) && !HasPlaceholder(orig) && orig !in t.customFwd && ttl >= 0
    requires w.t == Recall(t, ttl, orig, kind, now, db, draws).t && w.ttl == ttl
    requires !SessionHas(w, sid, Recall(t, ttl, orig, kind, now, db, draws).token)
    ensures Lookup(w, Recall(t, ttl, orig, kind, now, db, draws).token, sid, now) == Some(orig)
    ensures !Bound(t, ttl, orig, now) && db(orig).Some? ==> Recall(t, ttl, orig, kind, now, db, draws).token == db(orig).value.0
  {
    RecallRenews(t, ttl, orig, kind, now, db, draws);
  }
}
