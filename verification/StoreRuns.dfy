/**
 Runs of the session store: any sequence of its operations, in any order. What holds of
 every reachable state, and what a placeholder issued in a session stands for from then on.
 */
module StoreRuns {
  import opened Wrappers
  import opened Placeholders
  import opened Store
  import opened Pruning
  import opened Sessions

  datatype Op =
    | Remember(sid: string, orig: string, kind: string, now: int, db: Db, draws: Draws)
    | Look(token: string, sid: string, now: int)
    | Configure(words: seq<(string, string)>, derive: Derive, now: int)
    | PruneAll(now: int)
    | Rehydrate(orig: string, token: string, kind: string, now: int)
    | Open(sid: string)
    | Close(sids: set<string>)
    | SetTtl(ttl: nat)

  /** remember: a session asks for the token of an original once. */
  ghost predicate RememberStep(w: World, op: Op, v: World)
    requires op.Remember?
  {
    && op.sid in w.sessions
    && v.ttl == w.ttl
    && var s := w.sessions[op.sid];
       if op.orig in s.fwd then v == w
       else
         var r := Recall(w.t, w.ttl, op.orig, op.kind, op.now, op.db, op.draws);
         && AfterRecall(r, v.t, op.now, w.ttl)
         && v.sessions == w.sessions[op.sid := Session(s.fwd[op.orig := r.token], s.rev[r.token := op.orig])]
  }

  ghost predicate Step(w: World, op: Op, v: World) {
    match op
    case Remember(_, _, _, _, _, _) => RememberStep(w, op, v)
    case Look(token, sid, now) => v == World(LookupTouch(w, token, sid, now), w.sessions, w.ttl)
    case Configure(words, derive, now) =>
      Seed(w.t, words, derive, now).Some? && v == World(Seed(w.t, words, derive, now).value, w.sessions, w.ttl)
    case PruneAll(now) => Pruned(w.t, v.t, now, w.ttl) && v.sessions == w.sessions && v.ttl == w.ttl
    case Rehydrate(orig, token, kind, now) => v == World(Bind(w.t, orig, token, kind, now), w.sessions, w.ttl)
    case Open(sid) => v == World(w.t, w.sessions[sid := Session(map[], map[])], w.ttl)
    case Close(sids) => v == World(w.t, w.sessions - sids, w.ttl)
    case SetTtl(ttl) => v == World(w.t, w.sessions, ttl)
  }

  /** ws are the successive states of a run of ops. */
  ghost predicate Run(ws: seq<World>, ops: seq<Op>) {
    |ws| == |ops| + 1 && forall i :: 0 <= i < |ops| ==> Step(ws[i], ops[i], ws[i + 1])
  }

  const EMPTY: World := World(Tables(map[], map[], map[], map[], map[]), map[], 24 * 3600)

  // ------------------------------------------------------------ exact tables

  /** No storage behind the tables, and new_token found a free draw. */
  ghost predicate Unhooked(w: World, op: Op) {
    && !op.Rehydrate?
    && (op.Remember? ==> op.db(op.orig).None? && !AllTaken(w.t, op.kind, op.draws))
  }

  lemma {:induction false} RecallExact(t: Tables, ttl: int, orig: string, kind: string, now: int, db: Db, draws: Draws)
    requires Exact(t) && db(orig).None? && !AllTaken(t, kind, draws)
    ensures Exact(Recall(t, ttl, orig, kind, now, db, draws).t)
  {
    if HasPlaceholder(orig) {
    } else if orig in t.customFwd {
      var token := t.customFwd[orig];
      TouchKeeps(t, token, orig, now);
      ReindexKeeps(Touch(t, token, orig, now), token);
    } else if orig in t.fwd && (IsCustom(t, orig) || now - t.fwd[orig].ts <= ttl) {
      var token := t.fwd[orig].other;
      ReindexKeeps(t, token);
      TouchKeeps(t, token, orig, now);
    } else {
      NewTokenTakenIff(t, kind, draws);
      NewTokenIndexable(t, kind, draws);
      IssueKeeps(t, orig, NewToken(t, kind, draws), kind, now);
    }
  }

  lemma {:induction false} StepExact(w: World, op: Op, v: World)
    requires Step(w, op, v) && Exact(w.t) && Unhooked(w, op)
    ensures Exact(v.t)
  {
    match op
    case Remember(sid, orig, kind, now, db, draws) =>
      RecallExact(w.t, w.ttl, orig, kind, now, db, draws);
      var r := Recall(w.t, w.ttl, orig, kind, now, db, draws);
      if r.issued && v.t != r.t && orig !in w.sessions[sid].fwd { PruneKeeps(r.t, v.t, now, w.ttl); }
    case Look(token, sid, now) =>
      if Usable(w.t, w.ttl, token, now) { TouchKeeps(w.t, token, w.t.rev[token].other, now); }
    case Configure(words, derive, now) => SeedKeeps(w.t, words, derive, now);
    case PruneAll(now) => PruneKeeps(w.t, v.t, now, w.ttl);
    case Open(_) =>
    case Close(_) =>
    case SetTtl(_) =>
  }

  /**
   In every state reachable without storage behind the tables, both pairs of tables are
   inverse bijections and the index maps exactly the suffix of each live token to it.
   */
  lemma {:induction false} ReachableExact(ws: seq<World>, ops: seq<Op>)
    requires Run(ws, ops) && Exact(ws[0].t)
    requires forall i :: 0 <= i < |ops| ==> Unhooked(ws[i], ops[i])
    ensures forall i :: 0 <= i < |ws| ==> Exact(ws[i].t)
  {
    for i := 0 to |ops|
      invariant forall j :: 0 <= j <= i ==> Exact(ws[j].t)
    {
      StepExact(ws[i], ops[i], ws[i + 1]);
    }
  }

  /** Live tokens have pairwise distinct suffixes. */
  lemma {:induction false} SuffixesDistinct(t: Tables, k: string, l: string)
    requires Exact(t) && Live(t, k) && Live(t, l) && TokenSuffix(k) == TokenSuffix(l)
    ensures k == l
  {
    assert Indexable(TokenSuffix(k)) && TokenSuffix(k) in t.suffix;
    assert t.suffix[TokenSuffix(k)].Only?;
  }

  // ---------------------------------------------------------------- binding safety

  /**
   The history of issues: owner(k) is the original token k was issued for. No token is
   issued for two originals in the whole run; nothing else is asked of it.
   */
  type Owner = string -> string

  ghost predicate Owned(t: Tables, owner: Owner) {
    && (forall k :: k in t.rev ==> owner(k) == t.rev[k].other)
    && (forall k :: k in t.customRev ==> owner(k) == t.customRev[k].other)
    && (forall o :: o in t.fwd ==> owner(t.fwd[o].other) == o)
    && (forall w :: w in t.customFwd ==> owner(t.customFwd[w]) == w)
  }

  /** A session holds issued bindings, and texts that contained a placeholder and were left as they are. */
  ghost predicate SessionOwned(s: Session, owner: Owner) {
    forall k :: k in s.rev ==> owner(k) == s.rev[k] || (s.rev[k] == k && HasPlaceholder(k))
  }

  ghost predicate SafeWorld(w: World, owner: Owner) {
    Owned(w.t, owner) && forall sid :: sid in w.sessions ==> SessionOwned(w.sessions[sid], owner)
  }

  /** The text is left as it is, or the tables answer for it: no token is issued or taken from storage. */
  predicate Known(w: World, orig: string, now: int) {
    || HasPlaceholder(orig) || orig in w.t.customFwd
    || (orig in w.t.fwd && (IsCustom(w.t, orig) || now - w.t.fwd[orig].ts <= w.ttl))
  }

  /** The operation asks for a token that is not in the tables. */
  ghost predicate Asks(w: World, op: Op)
    requires op.Remember?
  {
    op.sid in w.sessions && op.orig !in w.sessions[op.sid].fwd && !Known(w, op.orig, op.now)
  }

  ghost predicate BoundTo(news: seq<(string, string)>, owner: Owner) {
    forall i :: 0 <= i < |news| ==> owner(news[i].1) == news[i].0
  }

  /** What an operation issues, takes from storage, makes up for a word or rehydrates, it binds to the owner. */
  ghost predicate Conforms(w: World, op: Op, owner: Owner) {
    match op
    case Remember(_, orig, kind, now, db, draws) =>
      Asks(w, op) ==> owner(Recall(w.t, w.ttl, orig, kind, now, db, draws).token) == orig
    case Configure(words, derive, now) => BoundTo(SeedNewWords(w.t, words, derive, now), owner)
    case Rehydrate(orig, token, _, _) => owner(token) == orig
    case _ => true
  }

  lemma {:induction false} TouchOwned(t: Tables, owner: Owner, token: string, orig: string, now: int)
    requires Owned(t, owner)
    ensures Owned(Touch(t, token, orig, now), owner)
  {
  }

  lemma {:induction false} BindOwned(t: Tables, owner: Owner, orig: string, token: string, kind: string, now: int)
    requires Owned(t, owner) && owner(token) == orig
    ensures Owned(Bind(t, orig, token, kind, now), owner)
  {
  }

  lemma {:induction false} IssueOwned(t: Tables, owner: Owner, orig: string, token: string, kind: string, now: int)
    requires Owned(t, owner) && owner(token) == orig
    ensures Owned(Issue(t, orig, token, kind, now), owner)
  {
    if orig in t.fwd { BindOwned(Drop(t, orig), owner, orig, token, kind, now); }
    BindOwned(t, owner, orig, token, kind, now);
  }

  lemma {:induction false} RecallSafe(w: World, op: Op, owner: Owner)
    requires op.Remember? && Owned(w.t, owner) && Conforms(w, op, owner)
    requires op.sid in w.sessions && op.orig !in w.sessions[op.sid].fwd
    ensures var r := Recall(w.t, w.ttl, op.orig, op.kind, op.now, op.db, op.draws);
            && Owned(r.t, owner)
            && (owner(r.token) == op.orig || (r.token == op.orig && HasPlaceholder(op.orig)))
  {
    var t, orig := w.t, op.orig;
    var token := Recall(t, w.ttl, orig, op.kind, op.now, op.db, op.draws).token;
    if Known(w, orig, op.now) {
      TouchOwned(t, owner, token, orig, op.now);
    } else if op.db(orig).Some? {
      BindOwned(t, owner, orig, token, op.db(orig).value.1, op.now);
    } else {
      IssueOwned(t, owner, orig, token, op.kind, op.now);
    }
  }

  lemma {:induction false} PruneOwned(t: Tables, u: Tables, now: int, ttl: int, owner: Owner)
    requires Pruned(t, u, now, ttl) && Owned(t, owner)
    ensures Owned(u, owner)
  {
    var gone :| gone <= t.fwd.Keys && Removable(t, gone, now, ttl) && u == DropAll(t, gone);
  }

  lemma {:induction false} RememberSafe(w: World, op: Op, v: World, owner: Owner)
    requires op.Remember? && RememberStep(w, op, v) && SafeWorld(w, owner) && Conforms(w, op, owner)
    ensures SafeWorld(v, owner)
  {
    var s := w.sessions[op.sid];
    if op.orig !in s.fwd {
      RecallSafe(w, op, owner);
      var r := Recall(w.t, w.ttl, op.orig, op.kind, op.now, op.db, op.draws);
      if v.t != r.t { PruneOwned(r.t, v.t, op.now, w.ttl, owner); }
      assert SessionOwned(Session(s.fwd[op.orig := r.token], s.rev[r.token := op.orig]), owner);
    }
  }

  lemma {:induction false} BoundRest(x: (string, string), news: seq<(string, string)>, owner: Owner)
    requires BoundTo([x] + news, owner)
    ensures owner(x.1) == x.0 && BoundTo(news, owner)
  {
    var all := [x] + news;
    assert all[0] == x;
    forall i | 0 <= i < |news| ensures owner(news[i].1) == news[i].0 { assert all[i + 1] == news[i]; }
  }

  lemma {:induction false} WordOwned(t: Tables, word: string, token: string, kind: string, now: int, owner: Owner)
    requires Owned(t, owner)
    ensures IsCustom(t, word) ==> Owned(RefreshWord(t, word, kind, now), owner)
    ensures owner(token) == word ==> Owned(AddWord(Cleared(t, word), word, token, kind, now), owner)
  {
  }

  /** Seeding binds nothing but its new tokens, so every binding it leaves is one that was issued. */
  lemma {:induction false} SeedWordsOwned(t: Tables, words: seq<(string, string)>, used: set<string>, derive: Derive, now: int, owner: Owner)
    requires Owned(t, owner) && SeedWords(t, words, used, derive, now).Some?
    requires BoundTo(NewWords(t, words, used, derive, now), owner)
    ensures Owned(SeedWords(t, words, used, derive, now).value, owner)
    decreases |words|
  {
    if words != [] {
      var (word, kind) := words[0];
      if Settled(t, word, kind) {
        WordOwned(t, word, "", kind, now, owner);
        SeedWordsOwned(RefreshWord(t, word, kind, now), words[1..], used, derive, now, owner);
      } else {
        var s := FirstUnused(derive, word, used, 0).value;
        var token := Token(SafeLabel(kind), s);
        var v := AddWord(Cleared(t, word), word, token, kind, now);
        BoundRest((word, token), NewWords(v, words[1..], used + {s}, derive, now), owner);
        WordOwned(t, word, token, kind, now, owner);
        SeedWordsOwned(v, words[1..], used + {s}, derive, now, owner);
      }
    }
  }

  lemma {:induction false} SeedSafe(t: Tables, words: seq<(string, string)>, derive: Derive, now: int, owner: Owner)
    requires Owned(t, owner) && Seed(t, words, derive, now).Some?
    requires BoundTo(SeedNewWords(t, words, derive, now), owner)
    ensures Owned(Seed(t, words, derive, now).value, owner)
  {
    var u := DropWords(t, Removed(t, words));
    assert Owned(u, owner);
    SeedWordsOwned(u, words, UsedSuffixes(u), derive, now, owner);
  }

  lemma {:induction false} StepSafe(w: World, op: Op, v: World, owner: Owner)
    requires Step(w, op, v) && SafeWorld(w, owner) && Conforms(w, op, owner)
    ensures SafeWorld(v, owner)
  {
    match op
    case Remember(_, _, _, _, _, _) => RememberSafe(w, op, v, owner);
    case Look(token, sid, now) =>
      if Usable(w.t, w.ttl, token, now) { TouchOwned(w.t, owner, token, w.t.rev[token].other, now); }
    case Configure(words, derive, now) => SeedSafe(w.t, words, derive, now, owner);
    case PruneAll(now) => PruneOwned(w.t, v.t, now, w.ttl, owner);
    case Rehydrate(orig, token, kind, now) => BindOwned(w.t, owner, orig, token, kind, now);
    case Open(_) =>
    case Close(_) =>
    case SetTtl(_) =>
  }

  /**
   Binding safety. In a history in which no token is issued for two originals, every binding
   in every reachable state is one that was issued, forward and back, in the tables and in
   the sessions: whatever expires, is pruned, reseeded, rehydrated or shared between the
   custom and the recent tables, and even if the draws run out.
   */
  lemma {:induction false} ReachableSafe(ws: seq<World>, ops: seq<Op>, owner: Owner)
    requires Run(ws, ops) && SafeWorld(ws[0], owner)
    requires forall i :: 0 <= i < |ops| ==> Conforms(ws[i], ops[i], owner)
    ensures forall i :: 0 <= i < |ws| ==> SafeWorld(ws[i], owner)
  {
    for i := 0 to |ops|
      invariant forall j :: 0 <= j <= i ==> SafeWorld(ws[j], owner)
    {
      StepSafe(ws[i], ops[i], ws[i + 1], owner);
    }
  }

  // The other way round: a run that is safe throughout has such a history.

  lemma {:induction false} DropWordsInto(t: Tables, gone: set<string>)
    requires WordsInto(t) && gone <= t.customFwd.Keys
    ensures WordsInto(DropWords(t, gone))
  {
    var u := DropWords(t, gone);
    forall w | w in u.customFwd ensures u.customFwd[w] in u.customRev && u.customRev[u.customFwd[w]].other == w {
      assert t.customFwd[w] !in WordTokens(t, gone);
    }
  }

  /** Only seeding changes the words' own tables. */
  lemma {:induction false} RecallWords(t: Tables, ttl: int, orig: string, kind: string, now: int, db: Db, draws: Draws)
    ensures var u := Recall(t, ttl, orig, kind, now, db, draws).t; u.customFwd == t.customFwd && u.customRev == t.customRev
  {
  }

  lemma {:induction false} StepWords(w: World, op: Op, v: World)
    requires Step(w, op, v) && WordsInto(w.t)
    ensures WordsInto(v.t)
  {
    match op
    case Configure(words, derive, now) =>
      var u := DropWords(w.t, Removed(w.t, words));
      DropWordsInto(w.t, Removed(w.t, words));
      UsedFromStart(u);
      SeedWordsFrame(u, words, UsedSuffixes(u), derive, now);
    case Remember(_, orig, kind, now, db, draws) => RecallWords(w.t, w.ttl, orig, kind, now, db, draws);
    case Look(_, _, _) =>
    case PruneAll(_) =>
    case Rehydrate(_, _, _, _) =>
    case Open(_) =>
    case Close(_) =>
    case SetTtl(_) =>
  }

  /** A new token whose word is not its owner is a binding that breaks the rule. */
  lemma {:induction false} SeedConforms(t: Tables, words: seq<(string, string)>, derive: Derive, now: int, owner: Owner)
    requires WordsInto(t) && DistinctWords(words) && Seed(t, words, derive, now).Some?
    requires Owned(Seed(t, words, derive, now).value, owner)
    ensures BoundTo(SeedNewWords(t, words, derive, now), owner)
  {
    var u, news := DropWords(t, Removed(t, words)), SeedNewWords(t, words, derive, now);
    DropWordsInto(t, Removed(t, words));
    UsedFromStart(u);
    forall i | 0 <= i < |news| ensures owner(news[i].1) == news[i].0 { NewStays(u, words, UsedSuffixes(u), derive, now, i); }
  }

  lemma {:induction false} StepConforms(w: World, op: Op, v: World, owner: Owner)
    requires Step(w, op, v) && WordsInto(w.t) && SafeWorld(v, owner) && (op.Configure? ==> DistinctWords(op.words))
    ensures Conforms(w, op, owner)
  {
    match op
    case Remember(sid, orig, kind, now, db, draws) =>
      if Asks(w, op) {
        var r := Recall(w.t, w.ttl, orig, kind, now, db, draws);
        assert SessionOwned(v.sessions[sid], owner) && v.sessions[sid].rev[r.token] == orig;
      }
    case Configure(words, derive, now) => SeedConforms(w.t, words, derive, now, owner);
    case Rehydrate(orig, token, _, _) => assert v.t.rev[token].other == orig;
    case Look(_, _, _) =>
    case PruneAll(_) =>
    case Open(_) =>
    case Close(_) =>
    case SetTtl(_) =>
  }

  /** Exactly the runs in which no token is issued for two originals are safe throughout. */
  lemma {:induction false} SafeIffOneOwner(ws: seq<World>, ops: seq<Op>, owner: Owner)
    requires Run(ws, ops) && SafeWorld(ws[0], owner) && WordsInto(ws[0].t)
    requires forall i :: 0 <= i < |ops| && ops[i].Configure? ==> DistinctWords(ops[i].words)
    ensures (forall i :: 0 <= i < |ws| ==> SafeWorld(ws[i], owner))
       <==> (forall i :: 0 <= i < |ops| ==> Conforms(ws[i], ops[i], owner))
  {
    for i := 0 to |ops|
      invariant forall j :: 0 <= j <= i ==> WordsInto(ws[j].t)
    {
      StepWords(ws[i], ops[i], ws[i + 1]);
    }
    if forall i :: 0 <= i < |ws| ==> SafeWorld(ws[i], owner) {
      forall i | 0 <= i < |ops| ensures Conforms(ws[i], ops[i], owner) { StepConforms(ws[i], ops[i], ws[i + 1], owner); }
    }
    if forall i :: 0 <= i < |ops| ==> Conforms(ws[i], ops[i], owner) { ReachableSafe(ws, ops, owner); }
  }

  // ------------------------------------------------------------ suffix rescue in runs

  /** Custom and recent tokens stay apart, and no draw is used unchecked. */
  ghost predicate Apart(w: World, op: Op) {
    match op
    case Remember(_, orig, kind, _, db, draws) =>
      Asks(w, op) ==> if db(orig).Some? then db(orig).value.0 !in w.t.customRev else !AllTaken(w.t, kind, draws)
    case Configure(words, derive, now) => Free(SeedNewWords(w.t, words, derive, now), w.t.rev)
    case Rehydrate(_, token, _, _) => token !in w.t.customRev
    case _ => true
  }

  lemma {:induction false} RecallSound(w: World, op: Op, owner: Owner)
    requires op.Remember? && Sound(w.t) && Owned(w.t, owner) && Conforms(w, op, owner) && Apart(w, op)
    requires op.sid in w.sessions && op.orig !in w.sessions[op.sid].fwd
    ensures Sound(Recall(w.t, w.ttl, op.orig, op.kind, op.now, op.db, op.draws).t)
  {
    var t, orig := w.t, op.orig;
    var token := Recall(t, w.ttl, orig, op.kind, op.now, op.db, op.draws).token;
    if HasPlaceholder(orig) {
    } else if orig in t.customFwd {
      TouchKeeps(t, token, orig, op.now);
      ReindexKeeps(Touch(t, token, orig, op.now), token);
    } else if Known(w, orig, op.now) {
      ReindexKeeps(t, token);
      TouchKeeps(Reindex(t, token), token, orig, op.now);
    } else if op.db(orig).Some? {
      BindKeeps(t, orig, token, op.db(orig).value.1, op.now);
    } else {
      NewTokenTakenIff(t, op.kind, op.draws);
      IssueKeeps(t, orig, token, op.kind, op.now);
    }
  }

  lemma {:induction false} StepSound(w: World, op: Op, v: World, owner: Owner)
    requires Step(w, op, v) && Sound(w.t) && SafeWorld(w, owner) && Conforms(w, op, owner) && Apart(w, op)
    ensures Sound(v.t)
  {
    match op
    case Remember(sid, orig, kind, now, db, draws) =>
      if orig !in w.sessions[sid].fwd {
        RecallSound(w, op, owner);
        var r := Recall(w.t, w.ttl, orig, kind, now, db, draws);
        if v.t != r.t { PruneKeeps(r.t, v.t, now, w.ttl); }
      }
    case Look(token, sid, now) =>
      if Usable(w.t, w.ttl, token, now) { TouchKeeps(w.t, token, w.t.rev[token].other, now); }
    case Configure(words, derive, now) => SeedKeeps(w.t, words, derive, now);
    case PruneAll(now) => PruneKeeps(w.t, v.t, now, w.ttl);
    case Rehydrate(orig, token, kind, now) => BindKeeps(w.t, orig, token, kind, now);
    case Open(_) =>
    case Close(_) =>
    case SetTtl(_) =>
  }

  /** As long as custom and recent tokens stay apart, the tables are sound, so a rescue never guesses. */
  lemma {:induction false} ReachableRescue(ws: seq<World>, ops: seq<Op>, owner: Owner, i: nat, text: string)
    requires Run(ws, ops) && Sound(ws[0].t) && SafeWorld(ws[0], owner) && i < |ws|
    requires forall j :: 0 <= j < |ops| ==> Conforms(ws[j], ops[j], owner) && Apart(ws[j], ops[j])
    ensures Sound(ws[i].t)
    ensures RealToken(ws[i].t, text).Some? ==>
              var k := RealToken(ws[i].t, text).value;
              && Live(ws[i].t, k) && AsksFor(text, k)
              && forall l :: Live(ws[i].t, l) && TokenSuffix(l) == TokenSuffix(k) ==> l == k
  {
    ReachableSafe(ws, ops, owner);
    for j := 0 to i
      invariant Sound(ws[j].t)
    {
      StepSound(ws[j], ops[j], ws[j + 1], owner);
    }
    if RealToken(ws[i].t, text).Some? { RescueUnambiguous(ws[i].t, text); }
  }

  // ------------------------------------------------------------------- what a lookup gives

  /** The owner of the owner and so on. */
  function Owners(owner: Owner, token: string, n: nat): string
    decreases n
  {
    if n == 0 then token else Owners(owner, owner(token), n - 1)
  }

  lemma {:induction false} DirectSafe(w: World, owner: Owner, token: string, sid: string, now: int)
    requires SafeWorld(w, owner) && Direct(w, token, sid, now).Some?
    ensures var o := Direct(w, token, sid, now).value;
            o == owner(token) || (o == token && HasPlaceholder(token))
  {
    if SessionHas(w, sid, token) { assert SessionOwned(w.sessions[sid], owner); }
  }

  /** Where a look gives something new, it gives the owner. */
  ghost predicate GivesOwners(w: World, owner: Owner, sid: string, now: int) {
    forall h :: Direct(w, h, sid, now).Some? ==> Direct(w, h, sid, now).value == h || Direct(w, h, sid, now).value == owner(h)
  }

  lemma {:induction false} SafeGivesOwners(w: World, owner: Owner, sid: string, now: int)
    requires SafeWorld(w, owner)
    ensures GivesOwners(w, owner, sid, now)
  {
    forall h | Direct(w, h, sid, now).Some?
      ensures Direct(w, h, sid, now).value == h || Direct(w, h, sid, now).value == owner(h)
    {
      DirectSafe(w, owner, h, sid, now);
    }
  }

  lemma {:induction false} UnwrapInner(w: World, h: string, sid: string, now: int, depth: nat)
    requires depth <= 5 && Unwrap(w, h, sid, now, depth) != h
    ensures depth < 5 && HasPlaceholder(h) && Direct(w, h, sid, now).Some? && Direct(w, h, sid, now).value != h
    ensures Unwrap(w, h, sid, now, depth) == Unwrap(w, Direct(w, h, sid, now).value, sid, now, depth + 1)
  {
  }

  lemma {:induction false} OwnersMore(owner: Owner, h: string, n: nat)
    ensures Owners(owner, h, 0) == h && Owners(owner, h, n + 1) == Owners(owner, owner(h), n)
  {
  }

  lemma {:induction false} UnwrapSafe(w: World, owner: Owner, h: string, sid: string, now: int, depth: nat) returns (n: nat)
    requires GivesOwners(w, owner, sid, now) && depth <= 5
    ensures n <= 5 - depth && Unwrap(w, h, sid, now, depth) == Owners(owner, h, n)
    ensures n > 0 ==> HasPlaceholder(h)
    decreases 5 - depth
  {
    n := 0;
    if Unwrap(w, h, sid, now, depth) != h {
      UnwrapInner(w, h, sid, now, depth);
      assert Direct(w, h, sid, now).value == owner(h);
      n := UnwrapSafe(w, owner, owner(h), sid, now, depth + 1);
      OwnersMore(owner, h, n);
      n := n + 1;
    }
  }

  /**
   Binding safety: what a lookup returns is the original the token was issued for, or, when
   that original is itself a placeholder, what lies up to five issues further down; it is
   never a placeholder. With the run theorem above this holds across remembering, expiry,
   pruning, reseeding and rehydration.
   */
  lemma {:induction false} LookupSafe(w: World, owner: Owner, token: string, sid: string, now: int) returns (n: nat)
    requires SafeWorld(w, owner) && Lookup(w, token, sid, now).Some?
    ensures 1 <= n <= 6 && Lookup(w, token, sid, now).value == Owners(owner, token, n)
    ensures !HasPlaceholder(Lookup(w, token, sid, now).value)
    ensures !HasPlaceholder(owner(token)) ==> Lookup(w, token, sid, now).value == owner(token)
  {
    DirectSafe(w, owner, token, sid, now);
    SelfLoop(w, token, sid, now);
    SafeGivesOwners(w, owner, sid, now);
    n := UnwrapSafe(w, owner, owner(token), sid, now, 0);
    n := n + 1;
  }

  /** A placeholder that stands for itself stands for nothing. */
  lemma {:induction false} SelfLoop(w: World, token: string, sid: string, now: int)
    ensures Direct(w, token, sid, now) == Some(token) && HasPlaceholder(token) ==> Lookup(w, token, sid, now) == None
  {
  }

  // --------------------------------------------------------- what a session remembers

  /** The session resolves the token of the original. */
  ghost predicate Holds(w: World, sid: string, orig: string, token: string) {
    && sid in w.sessions
    && orig in w.sessions[sid].fwd && w.sessions[sid].fwd[orig] == token
    && token in w.sessions[sid].rev && w.sessions[sid].rev[token] == orig
  }

  /** The session stays open, and the token is not itself remembered as an original. */
  ghost predicate Leaves(op: Op, sid: string, token: string) {
    && !(op.Open? && op.sid == sid) && !(op.Close? && sid in op.sids)
    && !(op.Remember? && op.sid == sid && op.orig == token)
  }

  lemma {:induction false} StepHolds(w: World, op: Op, v: World, owner: Owner, sid: string, orig: string, token: string)
    requires Step(w, op, v) && SafeWorld(w, owner) && Conforms(w, op, owner)
    requires Holds(w, sid, orig, token) && !HasPlaceholder(orig) && owner(token) == orig && Leaves(op, sid, token)
    ensures Holds(v, sid, orig, token)
  {
    if op.Remember? && op.orig !in w.sessions[op.sid].fwd { RecallSafe(w, op, owner); }
  }

  lemma {:induction false} RunHolds(ws: seq<World>, ops: seq<Op>, owner: Owner, sid: string, orig: string, token: string)
    requires Run(ws, ops) && SafeWorld(ws[0], owner)
    requires forall i :: 0 <= i < |ops| ==> Conforms(ws[i], ops[i], owner) && Leaves(ops[i], sid, token)
    requires Holds(ws[0], sid, orig, token) && !HasPlaceholder(orig) && owner(token) == orig
    ensures Holds(ws[|ops|], sid, orig, token)
  {
    ReachableSafe(ws, ops, owner);
    for i := 0 to |ops|
      invariant Holds(ws[i], sid, orig, token)
    {
      StepHolds(ws[i], ops[i], ws[i + 1], owner, sid, orig, token);
    }
  }

  /** remember gives the original a token the session resolves. */
  lemma {:induction false} RememberHolds(w: World, op: Op, v: World, owner: Owner)
    requires op.Remember? && Step(w, op, v) && SafeWorld(w, owner) && Conforms(w, op, owner)
    requires !HasPlaceholder(op.orig) && op.orig !in w.sessions[op.sid].fwd
    ensures var token := v.sessions[op.sid].fwd[op.orig];
            Holds(v, op.sid, op.orig, token) && owner(token) == op.orig
  {
    RecallSafe(w, op, owner);
  }

  /** The session asks for the token of the original at step i, for the first time, and stays open from then on. */
  ghost predicate AskedAt(ws: seq<World>, ops: seq<Op>, i: nat, sid: string, orig: string, token: string)
    requires Run(ws, ops) && i < |ops|
  {
    && ops[i].Remember? && ops[i].sid == sid && ops[i].orig == orig
    && sid in ws[i].sessions && orig !in ws[i].sessions[sid].fwd && sid in ws[i + 1].sessions
    && orig in ws[i + 1].sessions[sid].fwd && ws[i + 1].sessions[sid].fwd[orig] == token
    && forall j :: i < j < |ops| ==> Leaves(ops[j], sid, token)
  }

  /** The empty store is safe, so what is asked for in any run from it is held at the end. */
  lemma {:induction false} EmptySafe(owner: Owner)
    ensures Exact(EMPTY.t) && SafeWorld(EMPTY, owner)
  {
  }

  /** What was asked for is held at the end, and it belongs to the original. */
  lemma {:induction false} AskedHolds(ws: seq<World>, ops: seq<Op>, owner: Owner, i: nat, sid: string, orig: string, token: string)
    requires Run(ws, ops) && SafeWorld(ws[0], owner) && i < |ops| && AskedAt(ws, ops, i, sid, orig, token) && !HasPlaceholder(orig)
    requires forall j :: 0 <= j < |ops| ==> Conforms(ws[j], ops[j], owner)
    ensures Holds(ws[|ops|], sid, orig, token) && owner(token) == orig
  {
    ReachableSafe(ws, ops, owner);
    assert Step(ws[i], ops[i], ws[i + 1]);
    RememberHolds(ws[i], ops[i], ws[i + 1], owner);
    for j := i + 1 to |ops|
      invariant Holds(ws[j], sid, orig, token)
    {
      StepHolds(ws[j], ops[j], ws[j + 1], owner, sid, orig, token);
    }
  }

  /**
   A placeholder issued in a session is restored to its original for as long as the session
   is open, whatever expires, is pruned, is reseeded or is issued before and in between.
   */
  lemma {:induction false} RememberedIsFound(ws: seq<World>, ops: seq<Op>, owner: Owner, i: nat, sid: string, orig: string, token: string,
                                             now: int)
    requires Run(ws, ops) && SafeWorld(ws[0], owner) && i < |ops| && AskedAt(ws, ops, i, sid, orig, token) && !HasPlaceholder(orig)
    requires forall j :: 0 <= j < |ops| ==> Conforms(ws[j], ops[j], owner)
    ensures Lookup(ws[|ops|], token, sid, now) == Some(orig)
  {
    AskedHolds(ws, ops, owner, i, sid, orig, token);
    assert Direct(ws[|ops|], token, sid, now) == Some(orig);
  }

  // ------------------------------------------------------------ when the draws run out

  /** A token the tables do not know, for an original without a binding or with one of another suffix. */
  lemma {:induction false} IssueFreeExact(t: Tables, orig: string, token: string, kind: string, now: int)
    requires Exact(t) && Indexable(TokenSuffix(token)) && TokenSuffix(token) !in t.suffix
    ensures Exact(Issue(t, orig, token, kind, now))
  {
    assert !Live(t, token) by { if Live(t, token) { EntryOf(t, token); } }
    IssueKeeps(t, orig, token, kind, now);
  }

  /** The same token again: labels and times change, bindings do not. */
  lemma {:induction false} BindAgain(t: Tables, orig: string, kind: string, now: int)
    requires orig in t.fwd && t.fwd[orig].other in t.rev && t.rev[t.fwd[orig].other].other == orig
    ensures var u := Bind(t, orig, t.fwd[orig].other, kind, now);
            SameRows(t.fwd, u.fwd) && SameRows(t.rev, u.rev) && SameRows(t.customRev, u.customRev)
  {
  }

  lemma {:induction false} IndexOwn(t: Tables, token: string)
    requires Exact(t) && Live(t, token)
    ensures IndexAdd(t.suffix, token) == t.suffix
  {
    EntryOf(t, token);
  }

  lemma {:induction false} IssueSame(t: Tables, orig: string, kind: string, now: int)
    requires Exact(t) && orig in t.fwd
    ensures Exact(Issue(t, orig, t.fwd[orig].other, kind, now))
  {
    var token := t.fwd[orig].other;
    IndexOwn(t, token);
    BindAgain(t, orig, kind, now);
    SameKeeps(t, Bind(t, orig, token, kind, now));
  }

  /** The suffix of the original's own binding may be used again: the binding goes first. */
  lemma {:induction false} IssueOverOwn(t: Tables, orig: string, token: string, kind: string, now: int)
    requires Exact(t) && Indexable(TokenSuffix(token)) && orig in t.fwd && TokenSuffix(t.fwd[orig].other) == TokenSuffix(token)
    ensures Exact(Issue(t, orig, token, kind, now))
  {
    var own := t.fwd[orig].other;
    if own == token {
      IssueSame(t, orig, kind, now);
    } else {
      EntryOf(t, own);
      DropKeeps(t, orig);
      IssueFreeExact(Drop(t, orig), orig, token, kind, now);
    }
  }

  /** What issuing leaves of the other bindings. */
  lemma {:induction false} IssueLeaves(t: Tables, orig: string, token: string, kind: string, now: int)
    ensures var u := Issue(t, orig, token, kind, now);
            && Live(u, token) && token in u.rev && u.rev[token].other == orig && u.customRev == t.customRev
            && (forall o :: o != orig ==> (o in u.fwd <==> o in t.fwd) && (o in t.fwd ==> u.fwd[o] == t.fwd[o]))
            && (forall k :: k in t.rev && !(orig in t.fwd && k == t.fwd[orig].other) ==> k in u.rev && (k != token ==> u.rev[k] == t.rev[k]))
  {
  }

  /** Two live tokens with one suffix, or one token that is live twice. */
  lemma {:induction false} SharedNotExact(t: Tables, orig: string, token: string, kind: string, now: int, k: string)
    requires Exact(t) && Live(t, k) && TokenSuffix(k) == TokenSuffix(token)
    requires orig in t.fwd ==> t.fwd[orig].other != k
    requires k != token || k in t.customRev
    ensures !Exact(Issue(t, orig, token, kind, now))
  {
    var u := Issue(t, orig, token, kind, now);
    IssueLeaves(t, orig, token, kind, now);
    if k != token {
      assert Live(u, k);
      if Exact(u) { SuffixesDistinct(u, k, token); }
    } else {
      assert token in u.rev.Keys && token in u.customRev.Keys;
    }
  }

  lemma {:induction false} RebindNotExact(t: Tables, orig: string, token: string, kind: string, now: int)
    requires Exact(t) && token in t.rev && t.rev[token].other != orig
    ensures !Exact(Issue(t, orig, token, kind, now))
  {
    var was := t.rev[token].other;
    IssueLeaves(t, orig, token, kind, now);
    assert was in t.fwd && t.fwd[was].other == token;
    assert !Into(Issue(t, orig, token, kind, now).fwd, Issue(t, orig, token, kind, now).rev);
  }

  /** The suffix of anybody else's may not. */
  lemma {:induction false} IssueOverOther(t: Tables, orig: string, token: string, kind: string, now: int)
    requires Exact(t) && TokenSuffix(token) in t.suffix
    requires orig in t.fwd ==> TokenSuffix(t.fwd[orig].other) != TokenSuffix(token)
    ensures !Exact(Issue(t, orig, token, kind, now))
  {
    var k := t.suffix[TokenSuffix(token)].token;
    assert Live(t, k) && TokenSuffix(k) == TokenSuffix(token);
    if k != token || token in t.customRev {
      SharedNotExact(t, orig, token, kind, now, k);
    } else {
      assert t.rev[token].other in t.fwd && t.fwd[t.rev[token].other].other == token;
      RebindNotExact(t, orig, token, kind, now);
    }
  }

  /**
   When a new token keeps the tables exact: if and only if some draw was not taken, or the
   token handed out unchecked has the suffix of the original's own expired one.
   */
  lemma {:induction false} IssueExactIff(t: Tables, orig: string, kind: string, now: int, draws: Draws)
    requires Exact(t)
    ensures Exact(Issue(t, orig, NewToken(t, kind, draws), kind, now)) <==>
              || !AllTaken(t, kind, draws)
              || (orig in t.fwd && TokenSuffix(t.fwd[orig].other) == TokenSuffix(NewToken(t, kind, draws)))
  {
    var token := NewToken(t, kind, draws);
    NewTokenTakenIff(t, kind, draws);
    NewTokenIndexable(t, kind, draws);
    if orig in t.fwd && TokenSuffix(t.fwd[orig].other) == TokenSuffix(token) {
      IssueOverOwn(t, orig, token, kind, now);
    } else if AllTaken(t, kind, draws) {
      if Live(t, token) { EntryOf(t, token); }
      IssueOverOther(t, orig, token, kind, now);
    } else {
      IssueFreeExact(t, orig, token, kind, now);
    }
  }

  /** The original is bound to a token that leads back to it. */
  ghost predicate LeadsBack(t: Tables, orig: string) {
    orig in t.fwd && t.fwd[orig].other in t.rev && t.rev[t.fwd[orig].other].other == orig
  }

  lemma {:induction false} IssueLosesOther(t: Tables, orig: string, token: string, kind: string, now: int, o: string)
    requires Into(t.fwd, t.rev) && o != orig && o in t.fwd
    ensures LeadsBack(Issue(t, orig, token, kind, now), o) <==> t.fwd[o].other != token
  {
    var k := t.fwd[o].other;
    IssueLeaves(t, orig, token, kind, now);
    assert orig in t.fwd ==> t.fwd[orig].other != k;
  }

  /** Another original loses its way back if and only if the token handed out is its own. */
  lemma {:induction false} FallbackRebinds(t: Tables, orig: string, kind: string, now: int, draws: Draws)
    requires Exact(t)
    ensures var token := NewToken(t, kind, draws);
            (exists o :: o != orig && LeadsBack(t, o) && !LeadsBack(Issue(t, orig, token, kind, now), o))
              <==> token in t.rev && t.rev[token].other != orig
  {
    var token := NewToken(t, kind, draws);
    var u := Issue(t, orig, token, kind, now);
    if token in t.rev && t.rev[token].other != orig {
      var was := t.rev[token].other;
      assert was in t.fwd && t.fwd[was].other == token;
      IssueLosesOther(t, orig, token, kind, now, was);
      assert LeadsBack(t, was) && !LeadsBack(u, was);
    }
    if o :| o != orig && LeadsBack(t, o) && !LeadsBack(u, o) { IssueLosesOther(t, orig, token, kind, now, o); }
  }

  // ------------------------------------------------------------ ambiguity is for good

  predicate IsAmbiguous(t: Tables, s: string) { s in t.suffix && t.suffix[s] == Ambiguous }

  lemma {:induction false} IndexAmbiguous(ix: Index, token: string, s: string)
    requires s in ix && ix[s] == Ambiguous
    ensures var a := IndexAdd(ix, token); s in a && a[s] == Ambiguous
    ensures var d := IndexDel(ix, token); s in d && d[s] == Ambiguous
  {
  }

  lemma {:induction false} WordAmbiguous(t: Tables, word: string, token: string, kind: string, now: int, s: string)
    requires IsAmbiguous(t, s)
    ensures word in t.customFwd ==> IsAmbiguous(DropWord(t, word), s)
    ensures IsCustom(t, word) ==> IsAmbiguous(RefreshWord(t, word, kind, now), s)
    ensures IsAmbiguous(AddWord(t, word, token, kind, now), s)
  {
  }

  lemma {:induction false} BulkAmbiguous(t: Tables, gone: set<string>, s: string)
    requires IsAmbiguous(t, s)
    ensures gone <= t.fwd.Keys ==> IsAmbiguous(DropAll(t, gone), s)
    ensures gone <= t.customFwd.Keys ==> IsAmbiguous(DropWords(t, gone), s)
  {
  }

  lemma {:induction false} BindAmbiguous(t: Tables, orig: string, token: string, kind: string, now: int, s: string)
    requires IsAmbiguous(t, s)
    ensures IsAmbiguous(Bind(t, orig, token, kind, now), s) && IsAmbiguous(Issue(t, orig, token, kind, now), s)
    ensures IsAmbiguous(Reindex(t, token), s) && IsAmbiguous(Touch(t, token, orig, now), s)
  {
    IndexAmbiguous(t.suffix, token, s);
    if orig in t.fwd {
      IndexAmbiguous(t.suffix, t.fwd[orig].other, s);
      IndexAmbiguous(IndexDel(t.suffix, t.fwd[orig].other), token, s);
    }
  }

  lemma {:induction false} RecallAmbiguous(t: Tables, ttl: int, orig: string, kind: string, now: int, db: Db, draws: Draws, s: string)
    requires IsAmbiguous(t, s)
    ensures IsAmbiguous(Recall(t, ttl, orig, kind, now, db, draws).t, s)
  {
    var r := Recall(t, ttl, orig, kind, now, db, draws);
    BindAmbiguous(t, orig, r.token, if db(orig).Some? then db(orig).value.1 else "", now, s);
    BindAmbiguous(t, orig, r.token, kind, now, s);
    BindAmbiguous(Touch(t, r.token, orig, now), orig, r.token, kind, now, s);
    BindAmbiguous(Reindex(t, r.token), orig, r.token, kind, now, s);
  }

  lemma {:induction false} SeedAmbiguous(t: Tables, words: seq<(string, string)>, used: set<string>, derive: Derive, now: int, s: string)
    requires IsAmbiguous(t, s) && SeedWords(t, words, used, derive, now).Some?
    ensures IsAmbiguous(SeedWords(t, words, used, derive, now).value, s)
    decreases |words|
  {
    if words != [] {
      var (word, kind) := words[0];
      WordAmbiguous(t, word, "", kind, now, s);
      if Settled(t, word, kind) {
        SeedAmbiguous(RefreshWord(t, word, kind, now), words[1..], used, derive, now, s);
      } else {
        var u := if word in t.customFwd then DropWord(t, word) else t;
        var x := FirstUnused(derive, word, used, 0).value;
        var token := Token(SafeLabel(kind), x);
        WordAmbiguous(u, word, token, kind, now, s);
        SeedAmbiguous(AddWord(u, word, token, kind, now), words[1..], used + {x}, derive, now, s);
      }
    }
  }

  /** No operation, and no deletion in particular, turns an ambiguous suffix back into a guess. */
  lemma {:induction false} StepAmbiguous(w: World, op: Op, v: World, s: string)
    requires Step(w, op, v) && IsAmbiguous(w.t, s)
    ensures IsAmbiguous(v.t, s)
  {
    match op
    case Remember(sid, orig, kind, now, db, draws) =>
      if orig !in w.sessions[sid].fwd {
        RecallAmbiguous(w.t, w.ttl, orig, kind, now, db, draws, s);
        var r := Recall(w.t, w.ttl, orig, kind, now, db, draws);
        if v.t != r.t { PrunedAmbiguous(r.t, v.t, now, w.ttl, s); }
      }
    case Look(_, _, _) =>
    case Configure(words, derive, now) =>
      var u := DropWords(w.t, Removed(w.t, words));
      BulkAmbiguous(w.t, Removed(w.t, words), s);
      SeedAmbiguous(u, words, UsedSuffixes(u), derive, now, s);
    case PruneAll(now) => PrunedAmbiguous(w.t, v.t, now, w.ttl, s);
    case Rehydrate(_, _, _, _) =>
    case Open(_) =>
    case Close(_) =>
    case SetTtl(_) =>
  }

  lemma {:induction false} PrunedAmbiguous(t: Tables, u: Tables, now: int, ttl: int, s: string)
    requires Pruned(t, u, now, ttl) && IsAmbiguous(t, s)
    ensures IsAmbiguous(u, s)
  {
    var gone :| gone <= t.fwd.Keys && Removable(t, gone, now, ttl) && u == DropAll(t, gone);
    BulkAmbiguous(t, gone, s);
  }
}
