/** The SessionStore object of src/mask/session.rs: its methods, each proved to be one step of the state machine. */
module SessionStores {
  import opened Wrappers
  import opened Placeholders
  import opened Store
  import opened Pruning
  import opened Sessions
  import Runs = StoreRuns

  class SessionStore {
    var recentFwd: map<string, Row>
    var recentRev: map<string, Row>
    var recentSuffix: Index
    var customFwd: map<string, string>
    var customRev: map<string, Row>
    var sessions: map<string, Session>
    var ttl: nat

    function Here(): Tables reads this { Tables(recentFwd, recentRev, recentSuffix, customFwd, customRev) }

    function Now(): World reads this { World(Here(), sessions, ttl) }

    constructor ()
      ensures Now() == Runs.EMPTY
    {
      recentFwd, recentRev, recentSuffix, customFwd, customRev := map[], map[], map[], map[], map[];
      sessions, ttl := map[], 24 * 3600;
    }

    method SuffixIndexAdd(token: string)
      modifies this`recentSuffix
      ensures recentSuffix == IndexAdd(old(recentSuffix), token)
    {
      var s := TokenSuffix(token);
      if !Indexable(s) { return; }
      if s !in recentSuffix {
        recentSuffix := recentSuffix[s := Only(token)];
      } else if recentSuffix[s] != Only(token) {
        recentSuffix := recentSuffix[s := Ambiguous];
      }
    }

    method SuffixIndexDel(token: string)
      modifies this`recentSuffix
      ensures recentSuffix == IndexDel(old(recentSuffix), token)
    {
      var s := TokenSuffix(token);
      if s != "" && s in recentSuffix && recentSuffix[s] == Only(token) {
        recentSuffix := recentSuffix - {s};
      }
    }

    method TouchRecent(token: string, orig: string, now: int)
      modifies this`recentFwd, this`recentRev
      ensures Here() == Touch(old(Here()), token, orig, now)
    {
      if token in recentRev { recentRev := recentRev[token := recentRev[token].(ts := now)]; }
      if orig in recentFwd { recentFwd := recentFwd[orig := recentFwd[orig].(ts := now)]; }
    }

    /** rehydrate, also known as remember_rev. */
    method Rehydrate(orig: string, token: string, kind: string, now: int)
      modifies this`recentFwd, this`recentRev, this`recentSuffix
      ensures Here() == Bind(old(Here()), orig, token, kind, now)
    {
      recentFwd := recentFwd[orig := Row(token, kind, now)];
      recentRev := recentRev[token := Row(orig, kind, now)];
      SuffixIndexAdd(token);
    }

    method DropRecent(orig: string)
      requires orig in recentFwd
      modifies this`recentFwd, this`recentRev, this`recentSuffix
      ensures Here() == Drop(old(Here()), orig)
    {
      var token := recentFwd[orig].other;
      recentFwd := recentFwd - {orig};
      recentRev := recentRev - {token};
      SuffixIndexDel(token);
    }

    method DropCustom(word: string)
      requires word in customFwd
      modifies this`customFwd, this`customRev, this`recentSuffix
      ensures Here() == DropWord(old(Here()), word)
    {
      var token := customFwd[word];
      customFwd := customFwd - {word};
      customRev := customRev - {token};
      SuffixIndexDel(token);
    }

    /** new_token of src/mask/placeholder.rs with this store's `taken`. */
    method FreshToken(kind: string, draws: Draws) returns (token: string)
      ensures token == NewToken(Here(), kind, draws)
    {
      var lab := SafeLabel(kind);
      for i := 0 to 20
        invariant DrawIndex(Here(), kind, draws, 0) == DrawIndex(Here(), kind, draws, i)
      {
        token := Token(lab, draws[i]);
        if !Taken(Here(), token, draws[i]) { return; }
      }
      token := Token(lab, draws[20]);
    }

    method RecallToken(orig: string, kind: string, now: int, db: Db, draws: Draws) returns (token: string, reused: bool)
      modifies this`recentFwd, this`recentRev, this`recentSuffix
      ensures var r := Recall(old(Here()), ttl, orig, kind, now, db, draws);
              token == r.token && reused == r.reused && AfterRecall(r, Here(), now, ttl)
    {
      if HasPlaceholder(orig) { return orig, false; }
      if orig in customFwd {
        token := customFwd[orig];
        TouchRecent(token, orig, now);
        SuffixIndexAdd(token);
        return token, false;
      }
      if orig in recentFwd && (IsCustom(Here(), orig) || now - recentFwd[orig].ts <= ttl) {
        token := recentFwd[orig].other;
        SuffixIndexAdd(token);
        TouchRecent(token, orig, now);
        return token, true;
      }
      var hit := db(orig);
      if hit.Some? {
        token := hit.value.0;
        Rehydrate(orig, token, hit.value.1, now);
        return token, true;
      }
      token := FreshToken(kind, draws);
      if orig in recentFwd && recentFwd[orig].other != token { DropRecent(orig); }
      Rehydrate(orig, token, kind, now);
      MaybePruneRecent(now);
      reused := false;
    }

    method Remember(sid: string, orig: string, kind: string, now: int, db: Db, draws: Draws) returns (reused: bool)
      requires sid in sessions
      modifies this`recentFwd, this`recentRev, this`recentSuffix, this`sessions
      ensures Runs.Step(old(Now()), Runs.Remember(sid, orig, kind, now, db, draws), Now())
    {
      var s := sessions[sid];
      if orig in s.fwd { return false; }
      var token;
      token, reused := RecallToken(orig, kind, now, db, draws);
      sessions := sessions[sid := Session(s.fwd[orig := token], s.rev[token := orig])];
    }

    method LookupToken(token: string, sid: string, now: int) returns (found: Option<string>)
      modifies this`recentFwd, this`recentRev
      ensures found == Lookup(old(Now()), token, sid, now)
      ensures Runs.Step(old(Now()), Runs.Look(token, sid, now), Now())
    {
      ghost var w := Now();
      var hit := None;
      if SessionHas(Now(), sid, token) {
        hit := Some(sessions[sid].rev[token]);
      } else if Usable(Here(), ttl, token, now) {
        var orig := recentRev[token].other;
        TouchRecent(token, orig, now);
        hit := Some(orig);
      } else if token in customRev {
        hit := Some(customRev[token].other);
      }
      if hit.None? { return None; }
      TouchedSame(w, Now(), token, sid, now);
      var cur, depth := hit.value, 0;
      while HasPlaceholder(cur) && depth < 5
        invariant depth <= 5
        invariant Unwrap(w, hit.value, sid, now, 0) == Unwrap(w, cur, sid, now, depth)
        decreases 5 - depth
      {
        var inner := Direct(Now(), cur, sid, now);
        assert inner == Direct(w, cur, sid, now);
        if inner.None? || inner.value == cur { break; }
        cur, depth := inner.value, depth + 1;
      }
      found := if HasPlaceholder(cur) then None else Some(cur);
    }

    /** deterministic_suffix of src/mask/placeholder.rs; it also marks the suffix as used. */
    static method DeterministicSuffix(derive: Derive, word: string, used: set<string>)
        returns (suffix: Option<string>, used': set<string>)
      ensures suffix == FirstUnused(derive, word, used, 0)
      ensures used' == if suffix.Some? then used + {suffix.value} else used
    {
      var counter := 0;
      while counter < COUNTERS
        invariant counter <= COUNTERS
        invariant FirstUnused(derive, word, used, 0) == FirstUnused(derive, word, used, counter)
      {
        var s := derive(word, counter);
        if s !in used { return Some(s), used + {s}; }
        counter := counter + 1;
      }
      return None, used;
    }

    /** seed_custom_words; false if the suffix counter of a word runs out. */
    method SeedCustomWords(words: seq<(string, string)>, derive: Derive, now: int) returns (ok: bool)
      modifies this`customFwd, this`customRev, this`recentSuffix
      ensures ok <==> Seed(old(Here()), words, derive, now).Some?
      ensures ok ==> Runs.Step(old(Now()), Runs.Configure(words, derive, now), Now())
    {
      DropRemoved(words);
      ok := SettleAll(words, UsedSuffixes(Here()), derive, now);
      if ok { SeedIsStep(old(Now()), words, derive, now, Here()); }
    }

    /** Step 3 of seeding: the words in turn. */
    method SettleAll(words: seq<(string, string)>, used: set<string>, derive: Derive, now: int) returns (ok: bool)
      modifies this`customFwd, this`customRev, this`recentSuffix
      ensures SeedWords(old(Here()), words, used, derive, now) == if ok then Some(Here()) else None
    {
      var u := used;
      ghost var rest := words;
      for i := 0 to |words|
        invariant rest == words[i..]
        invariant SeedWords(old(Here()), words, used, derive, now) == SeedWords(Here(), rest, u, derive, now)
      {
        var word, kind := words[i].0, words[i].1;
        FirstOfRest(words, i, rest);
        ok, u := SettleWord(word, kind, u, derive, now, rest[1..]);
        if !ok { return; }
        rest := rest[1..];
      }
      ok := true;
    }

    /** One word of step 3: it keeps its token, or a new one is derived. */
    method SettleWord(word: string, kind: string, used: set<string>, derive: Derive, now: int, ghost more: seq<(string, string)>)
        returns (ok: bool, used': set<string>)
      modifies this`customFwd, this`customRev, this`recentSuffix
      ensures SeedWords(old(Here()), [(word, kind)] + more, used, derive, now)
           == if ok then SeedWords(Here(), more, used', derive, now) else None
    {
      ghost var words := [(word, kind)] + more;
      assert words[0] == (word, kind) && words[1..] == more;
      ok, used' := true, used;
      if Settled(Here(), word, kind) {
        customRev := customRev[customFwd[word] := Row(customRev[customFwd[word]].other, kind, now)];
      } else {
        if word in customFwd { DropCustom(word); }
        var suffix;
        suffix, used' := DeterministicSuffix(derive, word, used);
        if suffix.None? { return false, used; }
        var token := Token(SafeLabel(kind), suffix.value);
        customFwd := customFwd[word := token];
        customRev := customRev[token := Row(word, kind, now)];
        SuffixIndexAdd(token);
      }
    }

    /** Step 1 of seeding: words no longer configured. */
    method DropRemoved(words: seq<(string, string)>)
      modifies this`customFwd, this`customRev, this`recentSuffix
      ensures Here() == DropWords(old(Here()), Removed(old(Here()), words))
    {
      ghost var t := Here();
      var stale := Removed(Here(), words);
      ghost var gone: set<string> := {};
      DropNoWord(t);
      while stale != {}
        invariant WordsLeft(t, Removed(t, words), stale, gone)
        invariant recentFwd == t.fwd && recentRev == t.rev && Here() == DropWords(t, gone)
        decreases |stale|
      {
        var w :| w in stale;
        OneWordLess(t, Removed(t, words), stale, gone, w);
        DropCustom(w);
        stale, gone := stale - {w}, gone + {w};
      }
      assert gone == Removed(t, words);
    }

    method MaybePruneRecent(now: int)
      modifies this`recentFwd, this`recentRev, this`recentSuffix
      ensures MaybePruned(old(Here()), Here(), now, ttl)
    {
      if |recentFwd| > RECENT_MAX + PRUNE_SLACK { PruneRecent(now); }
    }

    method PruneRecent(now: int)
      modifies this`recentFwd, this`recentRev, this`recentSuffix
      ensures Pruned(old(Here()), Here(), now, ttl)
    {
      ghost var t := Here();
      var stale := set o | o in recentFwd && !IsCustom(Here(), o) && now - recentFwd[o].ts > ttl;
      DropEach(stale);
      EvictAbove(t, stale, now);
    }

    /** The second half of a prune: down to the limit. */
    method EvictAbove(ghost t: Tables, ghost expired: set<string>, now: int)
      requires expired == (set o | o in t.fwd && !IsCustom(t, o) && Expired(t, o, now, ttl)) && Here() == DropAll(t, expired)
      modifies this`recentFwd, this`recentRev, this`recentSuffix
      ensures Pruned(t, Here(), now, ttl)
    {
      var evictable := Evictable(Here());
      EvictableDrop(t, expired);
      if |evictable| > RECENT_MAX {
        ghost var over := EvictOldest(t, expired, evictable, |evictable| - RECENT_MAX);
        RemovableOver(t, expired, over, now, ttl);
      } else {
        RemovableExpired(t, expired, now, ttl);
      }
    }

    /** The first loop: every original of the set goes. */
    method DropEach(origs: set<string>)
      requires origs <= recentFwd.Keys
      modifies this`recentFwd, this`recentRev, this`recentSuffix
      ensures Here() == DropAll(old(Here()), origs)
    {
      ghost var t := Here();
      var todo := origs;
      ghost var gone: set<string> := {};
      DropNone(t);
      while todo != {}
        invariant gone + todo == origs && gone !! todo
        invariant Here() == DropAll(t, gone)
        decreases |todo|
      {
        var o :| o in todo;
        DropOneMore(t, gone, o);
        DropRecent(o);
        todo := todo - {o};
        gone := gone + {o};
      }
      assert gone == origs;
    }

    /** The second loop: the oldest rows go, one by one. */
    method EvictOldest(ghost t: Tables, ghost expired: set<string>, evictable: set<string>, over: nat) returns (ghost evicted: set<string>)
      requires expired <= t.fwd.Keys && Here() == DropAll(t, expired)
      requires evictable <= recentFwd.Keys && over <= |evictable|
      modifies this`recentFwd, this`recentRev, this`recentSuffix
      ensures evicted <= evictable && |evicted| == over && expired + evicted <= t.fwd.Keys && Here() == DropAll(t, expired + evicted)
      ensures OldestFirst(t, evicted, evictable - evicted)
    {
      evicted := {};
      var left := evictable;
      assert expired + evicted == expired;
      while |left| > |evictable| - over
        invariant Evicting(t, expired, evictable, left, evicted) && |left| >= |evictable| - over
        invariant Here() == DropAll(t, expired + evicted)
        decreases |left|
      {
        var k := Oldest(left);
        EvictOne(t, expired, evictable, left, evicted, k);
        DropRecent(k);
        left, evicted := left - {k}, evicted + {k};
      }
    }

    method Oldest(origs: set<string>) returns (k: string)
      requires origs != {} && origs <= recentFwd.Keys
      ensures k in origs && forall o :: o in origs ==> recentFwd[k].ts <= recentFwd[o].ts
    {
      k :| k in origs;
      var todo := origs - {k};
      while todo != {}
        invariant k in origs && todo <= origs
        invariant forall o :: o in origs - todo ==> recentFwd[k].ts <= recentFwd[o].ts
        decreases |todo|
      {
        var o :| o in todo;
        todo := todo - {o};
        if recentFwd[o].ts < recentFwd[k].ts { k := o; }
      }
    }

    method NewSession(sid: string)
      modifies this`sessions
      ensures Runs.Step(old(Now()), Runs.Open(sid), Now())
    {
      sessions := sessions[sid := Session(map[], map[])];
    }

    method DropSession(sid: string)
      modifies this`sessions
      ensures Runs.Step(old(Now()), Runs.Close({sid}), Now())
    {
      sessions := sessions - {sid};
    }
  }

  /** The look-ups that follow the first one see the same bindings, renewed or not. */
  lemma {:induction false} TouchedSame(w: World, v: World, token: string, sid: string, now: int)
    requires v == World(LookupTouch(w, token, sid, now), w.sessions, w.ttl)
    ensures forall h :: Direct(v, h, sid, now) == Direct(w, h, sid, now)
  {
  }

  /** The removal loop with the words of `stale` still there. */
  ghost predicate WordsLeft(t: Tables, all: set<string>, stale: set<string>, gone: set<string>) {
    all <= t.customFwd.Keys && gone + stale == all && gone !! stale
  }

  lemma {:induction false} OneWordLess(t: Tables, all: set<string>, stale: set<string>, gone: set<string>, w: string)
    requires WordsLeft(t, all, stale, gone) && w in stale
    ensures WordsLeft(t, all, stale - {w}, gone + {w})
    ensures w in DropWords(t, gone).customFwd && DropWord(DropWords(t, gone), w) == DropWords(t, gone + {w})
  {
    DropWordMore(t, gone, w);
  }

  lemma {:induction false} FirstOfRest(words: seq<(string, string)>, i: nat, rest: seq<(string, string)>)
    requires i < |words| && rest == words[i..]
    ensures rest == [(words[i].0, words[i].1)] + rest[1..] && rest[1..] == words[i + 1..]
  {
  }

  lemma {:induction false} SeedIsStep(w: World, words: seq<(string, string)>, derive: Derive, now: int, u: Tables)
    requires Seed(w.t, words, derive, now) == Some(u)
    ensures Runs.Step(w, Runs.Configure(words, derive, now), World(u, w.sessions, w.ttl))
  {
  }

  /** Rows that are removed are older than rows that stay. */
  ghost predicate OldestFirst(t: Tables, gone: set<string>, left: set<string>) {
    forall g, o :: g in gone && o in left ==> g in t.fwd && o in t.fwd && t.fwd[g].ts <= t.fwd[o].ts
  }

  /** The eviction loop with the rows of `left` still there. */
  ghost predicate Evicting(t: Tables, expired: set<string>, evictable: set<string>, left: set<string>, evicted: set<string>) {
    && expired <= t.fwd.Keys && evictable <= t.fwd.Keys - expired
    && evicted + left == evictable && evicted !! left && |evicted| + |left| == |evictable|
    && OldestFirst(t, evicted, left)
  }

  lemma {:induction false} EvictOne(t: Tables, expired: set<string>, evictable: set<string>, left: set<string>, evicted: set<string>, k: string)
    requires Evicting(t, expired, evictable, left, evicted) && k in left
    requires forall o :: o in left ==> t.fwd[k].ts <= t.fwd[o].ts
    ensures Evicting(t, expired, evictable, left - {k}, evicted + {k})
    ensures k in DropAll(t, expired + evicted).fwd
    ensures Drop(DropAll(t, expired + evicted), k) == DropAll(t, expired + (evicted + {k}))
  {
    EvictNext(t, evicted, left, k);
    MoveOne(evicted, left, k);
    DropOneMore(t, expired + evicted, k);
    assert expired + evicted + {k} == expired + (evicted + {k});
  }

  lemma {:induction false} MoveOne(a: set<string>, b: set<string>, k: string)
    requires a !! b && k in b
    ensures (a + {k}) + (b - {k}) == a + b && a + {k} !! b - {k} && |a + {k}| == |a| + 1 && |b - {k}| == |b| - 1
  {
  }

  lemma {:induction false} EvictNext(t: Tables, evicted: set<string>, left: set<string>, k: string)
    requires OldestFirst(t, evicted, left) && k in left && k in t.fwd
    requires forall o :: o in left ==> o in t.fwd && t.fwd[k].ts <= t.fwd[o].ts
    ensures OldestFirst(t, evicted + {k}, left - {k})
  {
  }

  /** What both loops of a prune together removed. */
  lemma {:induction false} RemovableOver(t: Tables, expired: set<string>, over: set<string>, now: int, ttl: int)
    requires expired == set o | o in t.fwd && !IsCustom(t, o) && Expired(t, o, now, ttl)
    requires over <= Evictable(t) - expired && |over| == |Evictable(t) - expired| - RECENT_MAX
    requires OldestFirst(t, over, Evictable(t) - expired - over)
    ensures Removable(t, expired + over, now, ttl)
  {
    assert Evictable(t) - (expired + over) == Evictable(t) - expired - over;
  }

  lemma {:induction false} RemovableExpired(t: Tables, expired: set<string>, now: int, ttl: int)
    requires expired == set o | o in t.fwd && !IsCustom(t, o) && Expired(t, o, now, ttl)
    requires |Evictable(t) - expired| <= RECENT_MAX
    ensures Removable(t, expired, now, ttl)
  {
  }
}
