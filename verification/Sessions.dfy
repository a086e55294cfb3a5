/**
 The session store of src/mask/session.rs as a state machine: what each operation does to
 the tables and the sessions, and what every run of operations keeps.
 */
module Sessions {
  import opened Wrappers
  import opened Placeholders
  import opened Store
  import opened Pruning

  /** One request's own bindings; they live as long as the session. */
  datatype Session = Session(fwd: map<string, string>, rev: map<string, string>)

  datatype World = World(t: Tables, sessions: map<string, Session>, ttl: nat)

  // ------------------------------------------------------------------- new tokens

  /** token_taken: only what is in memory counts. */
  predicate Taken(t: Tables, token: string, suffix: string) {
    token in t.rev || token in t.customRev || suffix in t.suffix
  }

  /** Twenty random suffixes to choose from and one to fall back on. */
  predicate IsDraws(draws: seq<string>) { |draws| == 21 && forall i :: 0 <= i < 21 ==> Indexable(draws[i]) }

  type Draws = d: seq<string> | IsDraws(d) witness seq(21, _ => "bcdfgh")

  predicate TakenDraw(t: Tables, kind: string, draws: Draws, i: nat)
    requires i < 21
  {
    Taken(t, DrawToken(kind, draws, i), draws[i])
  }

  function DrawToken(kind: string, draws: Draws, i: nat): string
    requires i < 21
  {
    Token(SafeLabel(kind), draws[i])
  }

  lemma {:induction false} DrawSuffix(kind: string, draws: Draws, i: nat)
    requires i < 21
    ensures TokenSuffix(DrawToken(kind, draws, i)) == draws[i] && Indexable(draws[i])
  {
    assert IsSuffix(draws[i]);
    TokenParts(SafeLabel(kind), draws[i]);
  }

  /** Which draw new_token takes: the first one not taken, or else the last one unchecked. */
  function DrawIndex(t: Tables, kind: string, draws: Draws, i: nat): (k: nat)
    requires i <= 20
    ensures i <= k <= 20 && (k < 20 ==> !TakenDraw(t, kind, draws, k))
    ensures forall j :: i <= j < k ==> TakenDraw(t, kind, draws, j)
    decreases 20 - i
  {
    if i == 20 || !TakenDraw(t, kind, draws, i) then i else DrawIndex(t, kind, draws, i + 1)
  }

  /** new_token */
  function NewToken(t: Tables, kind: string, draws: Draws): string {
    DrawToken(kind, draws, DrawIndex(t, kind, draws, 0))
  }

  predicate TokenTaken(t: Tables, token: string) { Taken(t, token, TokenSuffix(token)) }

  lemma {:induction false} DrawTaken(t: Tables, kind: string, draws: Draws, i: nat)
    requires i < 21
    ensures TokenTaken(t, DrawToken(kind, draws, i)) <==> TakenDraw(t, kind, draws, i)
  {
    DrawSuffix(kind, draws, i);
  }

  ghost predicate AllTaken(t: Tables, kind: string, draws: Draws) {
    forall i :: 0 <= i < 21 ==> TakenDraw(t, kind, draws, i)
  }

  /** The token is in use already if and only if every one of the 21 draws was. */
  lemma {:induction false} NewTokenTakenIff(t: Tables, kind: string, draws: Draws)
    ensures TokenTaken(t, NewToken(t, kind, draws)) <==> AllTaken(t, kind, draws)
  {
    var k := DrawIndex(t, kind, draws, 0);
    DrawTaken(t, kind, draws, k);
    LastDraw(t, kind, draws);
  }

  lemma {:induction false} LastDraw(t: Tables, kind: string, draws: Draws)
    ensures TakenDraw(t, kind, draws, DrawIndex(t, kind, draws, 0)) <==> AllTaken(t, kind, draws)
  {
  }

  lemma {:induction false} NewTokenIndexable(t: Tables, kind: string, draws: Draws)
    ensures Indexable(TokenSuffix(NewToken(t, kind, draws)))
  {
    var k := DrawIndex(t, kind, draws, 0);
    DrawSuffix(kind, draws, k);
  }

  // ----------------------------------------------------------------------- recall

  /** The lookup hook into storage: token and label of an original. */
  type Db = string -> Option<(string, string)>

  /** A token, whether it came from the tables, and whether it is new. */
  datatype Recalled = Recalled(t: Tables, token: string, reused: bool, issued: bool)

  /** recall_token up to the prune it may end with. */
  function Recall(t: Tables, ttl: int, orig: string, kind: string, now: int, db: Db, draws: Draws): Recalled {
    if HasPlaceholder(orig) then Recalled(t, orig, false, false)
    else if orig in t.customFwd then
      var token := t.customFwd[orig];
      Recalled(Reindex(Touch(t, token, orig, now), token), token, false, false)
    else if orig in t.fwd && (IsCustom(t, orig) || now - t.fwd[orig].ts <= ttl) then
      var token := t.fwd[orig].other;
      Recalled(Touch(Reindex(t, token), token, orig, now), token, true, false)
    else if db(orig).Some? then
      var (token, kind') := db(orig).value;
      Recalled(Bind(t, orig, token, kind', now), token, true, false)
    else
      var token := NewToken(t, kind, draws);
      Recalled(Issue(t, orig, token, kind, now), token, false, true)
  }

  ghost predicate AfterRecall(r: Recalled, u: Tables, now: int, ttl: int) {
    if r.issued then MaybePruned(r.t, u, now, ttl) else u == r.t
  }

  // ----------------------------------------------------------------------- lookup

  predicate Usable(t: Tables, ttl: int, token: string, now: int) {
    token in t.rev && (IsCustom(t, t.rev[token].other) || token in t.customRev || now - t.rev[token].ts <= ttl)
  }

  predicate SessionHas(w: World, sid: string, token: string) {
    sid in w.sessions && token in w.sessions[sid].rev
  }

  /** One look: this session, then the recent table while fresh, then the custom words. */
  function Direct(w: World, token: string, sid: string, now: int): Option<string> {
    if SessionHas(w, sid, token) then Some(w.sessions[sid].rev[token])
    else if Usable(w.t, w.ttl, token, now) then Some(w.t.rev[token].other)
    else if token in w.t.customRev then Some(w.t.customRev[token].other)
    else None
  }

  /** The unwrapping of originals that are placeholders themselves, at most five deep. */
  function Unwrap(w: World, h: string, sid: string, now: int, depth: nat): string
    requires depth <= 5
    decreases 5 - depth
  {
    if !HasPlaceholder(h) || depth >= 5 then h
    else
      var inner := Direct(w, h, sid, now);
      if inner.Some? && inner.value != h then Unwrap(w, inner.value, sid, now, depth + 1) else h
  }

  /** lookup */
  function Lookup(w: World, token: string, sid: string, now: int): Option<string> {
    var hit := Direct(w, token, sid, now);
    if hit.None? then None
    else
      var h := Unwrap(w, hit.value, sid, now, 0);
      if HasPlaceholder(h) then None else Some(h)
  }

  /** The time stamps a lookup renews. */
  function LookupTouch(w: World, token: string, sid: string, now: int): Tables {
    if !SessionHas(w, sid, token) && Usable(w.t, w.ttl, token, now)
    then Touch(w.t, token, w.t.rev[token].other, now) else w.t
  }

  // ----------------------------------------------------------------- custom words

  /** The suffix the hash of a word and a counter gives. */
  type Derive = f: (string, nat) -> string | forall w, c :: Indexable(f(w, c)) witness ((_, _) => "bcdfgh")

  const COUNTERS: nat := 0x1_0000_0000

  /** deterministic_suffix; None if the 32-bit counter runs out. */
  function FirstUnused(derive: Derive, word: string, used: set<string>, counter: nat): (s: Option<string>)
    requires counter <= COUNTERS
    ensures s.Some? ==> s.value !in used && Indexable(s.value)
    decreases COUNTERS - counter
  {
    if counter == COUNTERS then None
    else if derive(word, counter) !in used then Some(derive(word, counter))
    else FirstUnused(derive, word, used, counter + 1)
  }

  /** Suffixes a new custom word keeps away from. */
  function UsedSuffixes(t: Tables): set<string> {
    (set k | k in t.customRev && TokenSuffix(k) != "" :: TokenSuffix(k))
    + (set s | s in t.suffix && t.suffix[s].Only? && TokenSuffix(t.suffix[s].token) != "" :: TokenSuffix(t.suffix[s].token))
  }

  /** The word already has a token with this label. */
  predicate Settled(t: Tables, word: string, kind: string) {
    IsCustom(t, word) && SafeLabel(t.customRev[t.customFwd[word]].kind) == SafeLabel(kind)
  }

  function SeedWords(t: Tables, words: seq<(string, string)>, used: set<string>, derive: Derive, now: int): Option<Tables>
    decreases |words|
  {
    if words == [] then Some(t)
    else
      var (word, kind) := words[0];
      if Settled(t, word, kind) then SeedWords(RefreshWord(t, word, kind, now), words[1..], used, derive, now)
      else
        var u := if word in t.customFwd then DropWord(t, word) else t;
        var s := FirstUnused(derive, word, used, 0);
        if s.None? then None
        else SeedWords(AddWord(u, word, Token(SafeLabel(kind), s.value), kind, now), words[1..], used + {s.value}, derive, now)
  }

  function Removed(t: Tables, words: seq<(string, string)>): set<string> {
    set w | w in t.customFwd && forall i :: 0 <= i < |words| ==> words[i].0 != w
  }

  /** seed_custom_words: removed words go, suffixes in use are collected, each word is settled. */
  function Seed(t: Tables, words: seq<(string, string)>, derive: Derive, now: int): Option<Tables> {
    var u := DropWords(t, Removed(t, words));
    SeedWords(u, words, UsedSuffixes(u), derive, now)
  }

  // What seeding needs of the tables, and keeps: the custom words' own pair of tables.

  /** A custom word's token leads back to the word, and its suffix is among the used ones. */
  ghost predicate WordsUsed(t: Tables, used: set<string>) {
    WordsInto(t) && forall k :: k in t.customRev && TokenSuffix(k) != "" ==> TokenSuffix(k) in used
  }

  /** A suffix that is not used makes a token that no custom word has. */
  lemma {:induction false} UnusedIsNew(t: Tables, used: set<string>, tag: string, suffix: string)
    requires WordsUsed(t, used) && IsLabel(tag) && Indexable(suffix) && suffix !in used
    ensures TokenSuffix(Token(tag, suffix)) == suffix && Token(tag, suffix) !in t.customRev
  {
    assert IsSuffix(suffix);
    TokenParts(tag, suffix);
  }

  lemma {:induction false} AddWordUsed(t: Tables, used: set<string>, word: string, token: string, kind: string, now: int)
    requires WordsUsed(t, used) && token !in t.customRev
    ensures WordsUsed(AddWord(t, word, token, kind, now), used + {TokenSuffix(token)})
  {
  }

  lemma {:induction false} DropWordUsed(t: Tables, used: set<string>, word: string)
    requires WordsUsed(t, used) && word in t.customFwd
    ensures WordsUsed(DropWord(t, word), used)
  {
  }

  lemma {:induction false} RefreshWordUsed(t: Tables, used: set<string>, word: string, kind: string, now: int)
    requires WordsUsed(t, used) && IsCustom(t, word)
    ensures WordsUsed(RefreshWord(t, word, kind, now), used)
  {
    assert RefreshWord(t, word, kind, now).customRev.Keys == t.customRev.Keys;
  }

  /** The tables when a word that is not settled has left them. */
  function Cleared(t: Tables, word: string): Tables { if word in t.customFwd then DropWord(t, word) else t }

  lemma {:induction false} ClearedUsed(t: Tables, used: set<string>, word: string)
    requires WordsUsed(t, used)
    ensures WordsUsed(Cleared(t, word), used) && word !in Cleared(t, word).customFwd
    ensures Cleared(t, word).rev == t.rev && Cleared(t, word).fwd == t.fwd
  {
    if word in t.customFwd { DropWordUsed(t, used, word); }
  }

  // --------------------------------------------------- the tokens seeding makes up

  /** The words that get a new token, with that token, in order. */
  function NewWords(t: Tables, words: seq<(string, string)>, used: set<string>, derive: Derive, now: int): seq<(string, string)>
    decreases |words|
  {
    if words == [] then []
    else
      var (word, kind) := words[0];
      if Settled(t, word, kind) then NewWords(RefreshWord(t, word, kind, now), words[1..], used, derive, now)
      else
        var s := FirstUnused(derive, word, used, 0);
        if s.None? then []
        else
          var token := Token(SafeLabel(kind), s.value);
          [(word, token)] + NewWords(AddWord(Cleared(t, word), word, token, kind, now), words[1..], used + {s.value}, derive, now)
  }

  function SeedNewWords(t: Tables, words: seq<(string, string)>, derive: Derive, now: int): seq<(string, string)> {
    var u := DropWords(t, Removed(t, words));
    NewWords(u, words, UsedSuffixes(u), derive, now)
  }

  /** None of the new tokens is in the recent table. */
  ghost predicate Free(news: seq<(string, string)>, rev: map<string, Row>) {
    forall i :: 0 <= i < |news| ==> news[i].1 !in rev
  }

  lemma {:induction false} FreeRest(x: (string, string), news: seq<(string, string)>, rev: map<string, Row>)
    ensures Free([x] + news, rev) <==> x.1 !in rev && Free(news, rev)
  {
    var all := [x] + news;
    assert all[0] == x;
    if Free(all, rev) {
      forall i | 0 <= i < |news| ensures news[i].1 !in rev { assert all[i + 1] == news[i]; }
    }
  }

  /** What the first word of a list does: nothing but a new time stamp, or a new token s for it. */
  lemma {:induction false} NewFirst(t: Tables, words: seq<(string, string)>, used: set<string>, derive: Derive, now: int) returns (s: string)
    requires WordsUsed(t, used) && words != [] && SeedWords(t, words, used, derive, now).Some? && !Settled(t, words[0].0, words[0].1)
    ensures var (word, kind) := words[0];
            var u, token := Cleared(t, word), Token(SafeLabel(kind), s);
            var v := AddWord(u, word, token, kind, now);
            && Indexable(s) && s !in used && TokenSuffix(token) == s && token !in u.customRev && word !in u.customFwd
            && WordsUsed(u, used) && WordsUsed(v, used + {s}) && v.rev == t.rev && v.fwd == t.fwd
            && SeedWords(t, words, used, derive, now) == SeedWords(v, words[1..], used + {s}, derive, now)
            && NewWords(t, words, used, derive, now) == [(word, token)] + NewWords(v, words[1..], used + {s}, derive, now)
  {
    var (word, kind) := words[0];
    var u := Cleared(t, word);
    s := FirstUnused(derive, word, used, 0).value;
    ClearedUsed(t, used, word);
    UnusedIsNew(u, used, SafeLabel(kind), s);
    AddWordUsed(u, used, word, Token(SafeLabel(kind), s), kind, now);
  }

  lemma {:induction false} SeedWordsKeeps(t: Tables, words: seq<(string, string)>, used: set<string>, derive: Derive, now: int)
    requires Sound(t) && WordsUsed(t, used) && SeedWords(t, words, used, derive, now).Some?
    requires Free(NewWords(t, words, used, derive, now), t.rev)
    ensures Sound(SeedWords(t, words, used, derive, now).value)
    decreases |words|
  {
    if words != [] {
      var (word, kind) := words[0];
      if Settled(t, word, kind) {
        RefreshWordKeeps(t, word, kind, now);
        RefreshWordUsed(t, used, word, kind, now);
        SeedWordsKeeps(RefreshWord(t, word, kind, now), words[1..], used, derive, now);
      } else {
        var s := NewFirst(t, words, used, derive, now);
        var u, token := Cleared(t, word), Token(SafeLabel(kind), s);
        var v := AddWord(u, word, token, kind, now);
        FreeRest((word, token), NewWords(v, words[1..], used + {s}, derive, now), t.rev);
        if word in t.customFwd { DropWordKeeps(t, word); }
        AddWordKeeps(u, word, token, kind, now);
        SeedWordsKeeps(v, words[1..], used + {s}, derive, now);
      }
    }
  }

  /** Seeding touches the custom tables and the index only. */
  lemma {:induction false} SeedWordsFrame(t: Tables, words: seq<(string, string)>, used: set<string>, derive: Derive, now: int)
    requires WordsUsed(t, used) && SeedWords(t, words, used, derive, now).Some?
    ensures var u := SeedWords(t, words, used, derive, now).value; u.fwd == t.fwd && u.rev == t.rev && WordsInto(u)
    decreases |words|
  {
    if words != [] {
      var (word, kind) := words[0];
      if Settled(t, word, kind) {
        RefreshWordUsed(t, used, word, kind, now);
        SeedWordsFrame(RefreshWord(t, word, kind, now), words[1..], used, derive, now);
      } else {
        var s := NewFirst(t, words, used, derive, now);
        SeedWordsFrame(AddWord(Cleared(t, word), word, Token(SafeLabel(kind), s), kind, now), words[1..], used + {s}, derive, now);
      }
    }
  }

  /** The suffixes in the index are among the used ones. */
  ghost predicate IndexUsed(t: Tables, used: set<string>) { forall s :: s in t.suffix ==> s in used }

  lemma {:induction false} DropWordIndex(t: Tables, used: set<string>, word: string)
    requires IndexUsed(t, used)
    ensures IndexUsed(Cleared(t, word), used)
  {
  }

  lemma {:induction false} AddWordIndex(t: Tables, used: set<string>, word: string, token: string, kind: string, now: int)
    requires IndexUsed(t, used)
    ensures IndexUsed(AddWord(t, word, token, kind, now), used + {TokenSuffix(token)})
  {
  }

  /** A token with a suffix of its own. */
  lemma {:induction false} AddExact(t: Tables, used: set<string>, word: string, token: string, kind: string, now: int)
    requires Exact(t) && IndexUsed(t, used) && word !in t.customFwd && Indexable(TokenSuffix(token)) && TokenSuffix(token) !in used
    ensures Exact(AddWord(t, word, token, kind, now)) && !Live(t, token)
  {
    if Live(t, token) { EntryOf(t, token); }
    AddWordKeeps(t, word, token, kind, now);
  }

  lemma {:induction false} SeedWordsExact(t: Tables, words: seq<(string, string)>, used: set<string>, derive: Derive, now: int)
    requires Exact(t) && WordsUsed(t, used) && IndexUsed(t, used) && SeedWords(t, words, used, derive, now).Some?
    ensures Exact(SeedWords(t, words, used, derive, now).value) && Free(NewWords(t, words, used, derive, now), t.rev)
    decreases |words|
  {
    if words != [] {
      var (word, kind) := words[0];
      if Settled(t, word, kind) {
        RefreshWordKeeps(t, word, kind, now);
        RefreshWordUsed(t, used, word, kind, now);
        SeedWordsExact(RefreshWord(t, word, kind, now), words[1..], used, derive, now);
      } else {
        var s := NewFirst(t, words, used, derive, now);
        var u, token := Cleared(t, word), Token(SafeLabel(kind), s);
        var v := AddWord(u, word, token, kind, now);
        if word in t.customFwd { DropWordKeeps(t, word); }
        DropWordIndex(t, used, word);
        AddExact(u, used, word, token, kind, now);
        AddWordIndex(u, used, word, token, kind, now);
        SeedWordsExact(v, words[1..], used + {s}, derive, now);
        FreeRest((word, token), NewWords(v, words[1..], used + {s}, derive, now), t.rev);
      }
    }
  }

  lemma {:induction false} UsedFromStart(t: Tables)
    requires WordsInto(t)
    ensures WordsUsed(t, UsedSuffixes(t))
    ensures Names(t) && (forall s :: s in t.suffix ==> t.suffix[s].Only?) ==> IndexUsed(t, UsedSuffixes(t))
  {
  }

  /**
   Seeding keeps sound tables sound if none of the tokens it makes up is in the recent table
   already, whatever is ambiguous; exact tables stay exact, and there none ever is.
   */
  lemma {:induction false} SeedKeeps(t: Tables, words: seq<(string, string)>, derive: Derive, now: int)
    requires Sound(t) && Seed(t, words, derive, now).Some?
    requires Exact(t) || Free(SeedNewWords(t, words, derive, now), t.rev)
    ensures var u := Seed(t, words, derive, now).value;
            Sound(u) && (Exact(t) ==> Exact(u)) && u.fwd == t.fwd && u.rev == t.rev
  {
    var u := DropWords(t, Removed(t, words));
    DropWordsKeeps(t, Removed(t, words));
    UsedFromStart(u);
    SeedWordsFrame(u, words, UsedSuffixes(u), derive, now);
    if Exact(t) { SeedWordsExact(u, words, UsedSuffixes(u), derive, now); }
    SeedWordsKeeps(u, words, UsedSuffixes(u), derive, now);
  }

  // ------------------------------------------------------- what seeding brings about

  ghost predicate DistinctWords(words: seq<(string, string)>) {
    forall i, j :: 0 <= i < j < |words| ==> words[i].0 != words[j].0
  }

  predicate Listed(words: seq<(string, string)>, w: string) { exists i :: 0 <= i < |words| && words[i].0 == w }

  /** What a word that comes later in the list does not change. */
  ghost predicate SameWord(t: Tables, u: Tables, w: string) {
    && (w in t.customFwd <==> w in u.customFwd)
    && (w in t.customFwd ==> u.customFwd[w] == t.customFwd[w])
    && (IsCustom(t, w) ==> IsCustom(u, w) && u.customRev[u.customFwd[w]] == t.customRev[t.customFwd[w]])
  }

  /** Settling one word leaves another one what it has. */
  lemma {:induction false} SettleOther(t: Tables, word: string, token: string, kind: string, now: int, w: string)
    requires WordsInto(t) && w != word && token !in Cleared(t, word).customRev
    ensures SameWord(t, AddWord(Cleared(t, word), word, token, kind, now), w)
  {
    if w in t.customFwd && word in t.customFwd { assert t.customFwd[w] != t.customFwd[word]; }
  }

  lemma {:induction false} RefreshOther(t: Tables, word: string, kind: string, now: int, w: string)
    requires WordsInto(t) && Settled(t, word, kind) && w != word
    ensures SameWord(t, RefreshWord(t, word, kind, now), w)
  {
    if w in t.customFwd { assert t.customFwd[w] != t.customFwd[word]; }
  }

  lemma {:induction false} SameWordTrans(t: Tables, u: Tables, v: Tables, w: string)
    requires SameWord(t, u, w) && SameWord(u, v, w)
    ensures SameWord(t, v, w)
  {
  }

  /** The tables after the first word of a list, if it can be settled. */
  ghost predicate SettledFirst(t: Tables, used: set<string>, words: seq<(string, string)>, derive: Derive, now: int,
                               v: Tables, used': set<string>)
    requires words != []
  {
    && WordsUsed(v, used')
    && SeedWords(t, words, used, derive, now) == SeedWords(v, words[1..], used', derive, now)
    && Settled(v, words[0].0, words[0].1)
    && (Settled(t, words[0].0, words[0].1) ==> v.customFwd == t.customFwd)
  }

  lemma {:induction false} FirstWord(t: Tables, used: set<string>, words: seq<(string, string)>, derive: Derive, now: int, w: string)
      returns (v: Tables, used': set<string>)
    requires WordsUsed(t, used) && words != [] && SeedWords(t, words, used, derive, now).Some?
    ensures SettledFirst(t, used, words, derive, now, v, used')
    ensures w != words[0].0 ==> SameWord(t, v, w)
  {
    var (word, kind) := words[0];
    if Settled(t, word, kind) {
      v, used' := RefreshWord(t, word, kind, now), used;
      RefreshWordUsed(t, used, word, kind, now);
      if w != word { RefreshOther(t, word, kind, now, w); }
    } else {
      var s := NewFirst(t, words, used, derive, now);
      var token := Token(SafeLabel(kind), s);
      v, used' := AddWord(Cleared(t, word), word, token, kind, now), used + {s};
      if w != word { SettleOther(t, word, token, kind, now, w); }
    }
  }

  lemma {:induction false} ListedTail(words: seq<(string, string)>, w: string)
    requires words != []
    ensures Listed(words[1..], w) ==> Listed(words, w)
  {
    if Listed(words[1..], w) {
      var i :| 0 <= i < |words[1..]| && words[1..][i].0 == w;
      assert words[i + 1].0 == w;
    }
  }

  lemma {:induction false} SeedLeaves(t: Tables, words: seq<(string, string)>, used: set<string>, derive: Derive, now: int, w: string)
    requires WordsUsed(t, used) && !Listed(words, w)
    requires SeedWords(t, words, used, derive, now).Some?
    ensures SameWord(t, SeedWords(t, words, used, derive, now).value, w)
    decreases |words|
  {
    if words != [] {
      var v, used' := FirstWord(t, used, words, derive, now, w);
      assert words[0].0 != w;
      ListedTail(words, w);
      SeedLeaves(v, words[1..], used', derive, now, w);
      SameWordTrans(t, v, SeedWords(t, words, used, derive, now).value, w);
    }
  }

  lemma {:induction false} DistinctRest(words: seq<(string, string)>)
    requires words != [] && DistinctWords(words)
    ensures DistinctWords(words[1..]) && !Listed(words[1..], words[0].0)
  {
    var rest := words[1..];
    forall a, b | 0 <= a < b < |rest| ensures rest[a].0 != rest[b].0 { assert words[a + 1].0 != words[b + 1].0; }
    forall j | 0 <= j < |rest| ensures rest[j].0 != words[0].0 { assert words[0].0 != words[j + 1].0; }
  }

  /** The word at i ends up settled; it keeps its token if it had one with this label. */
  lemma {:induction false} SeedSettles(t: Tables, words: seq<(string, string)>, used: set<string>, derive: Derive, now: int, i: nat)
    requires WordsUsed(t, used) && DistinctWords(words) && i < |words|
    requires SeedWords(t, words, used, derive, now).Some?
    ensures var u, (w, kind) := SeedWords(t, words, used, derive, now).value, words[i];
            && Settled(u, w, kind)
            && (Settled(t, w, kind) ==> u.customFwd[w] == t.customFwd[w])
    decreases |words|
  {
    var w := words[i].0;
    var v, used' := FirstWord(t, used, words, derive, now, w);
    var rest := words[1..];
    DistinctRest(words);
    if i == 0 {
      SeedLeaves(v, rest, used', derive, now, w);
    } else {
      assert words[0].0 != words[i].0;
      assert rest[i - 1] == words[i];
      SeedSettles(v, rest, used', derive, now, i - 1);
    }
  }

  /**
   After seeding, the custom words are exactly the configured ones, each with a token of its
   label; a word that had such a token keeps it. What is ambiguous does not matter.
   */
  lemma {:induction false} SeedExactlyConfigured(t: Tables, words: seq<(string, string)>, derive: Derive, now: int, w: string)
    requires Sound(t) && DistinctWords(words) && Seed(t, words, derive, now).Some?
    ensures var u := Seed(t, words, derive, now).value;
            && (w in u.customFwd <==> Listed(words, w))
            && forall i :: 0 <= i < |words| && words[i].0 == w ==>
                 Settled(u, w, words[i].1) && (Settled(t, w, words[i].1) ==> u.customFwd[w] == t.customFwd[w])
  {
    var u := DropWords(t, Removed(t, words));
    DropWordsKeeps(t, Removed(t, words));
    UsedFromStart(u);
    if !Listed(words, w) {
      SeedLeaves(u, words, UsedSuffixes(u), derive, now, w);
    }
    forall i | 0 <= i < |words| && words[i].0 == w
      ensures var v := Seed(t, words, derive, now).value;
              Settled(v, w, words[i].1) && (Settled(t, w, words[i].1) ==> v.customFwd[w] == t.customFwd[w])
    {
      SeedSettles(u, words, UsedSuffixes(u), derive, now, i);
      KeptWord(t, words, i);
    }
  }

  /** A configured word is not among the removed ones, and what it has stays. */
  lemma {:induction false} KeptWord(t: Tables, words: seq<(string, string)>, i: nat)
    requires Sound(t) && i < |words|
    ensures SameWord(t, DropWords(t, Removed(t, words)), words[i].0)
  {
    var gone, w := Removed(t, words), words[i].0;
    assert w !in gone;
    if IsCustom(t, w) {
      forall o | o in gone ensures t.customFwd[o] != t.customFwd[w] {}
    }
  }

  // ------------------------------------------------------ seeding over an ambiguous suffix

  /** A new token stays its word's. */
  lemma {:induction false} NewStays(t: Tables, words: seq<(string, string)>, used: set<string>, derive: Derive, now: int, i: nat)
    requires WordsUsed(t, used) && DistinctWords(words) && SeedWords(t, words, used, derive, now).Some?
    requires i < |NewWords(t, words, used, derive, now)|
    ensures var (w, token) := NewWords(t, words, used, derive, now)[i];
            var u := SeedWords(t, words, used, derive, now).value;
            Listed(words, w) && w in u.customFwd && u.customFwd[w] == token
    decreases |words|
  {
    var (word, kind) := words[0];
    var rest := words[1..];
    var (w, token) := NewWords(t, words, used, derive, now)[i];
    DistinctRest(words);
    if Settled(t, word, kind) {
      RefreshWordUsed(t, used, word, kind, now);
      NewStays(RefreshWord(t, word, kind, now), rest, used, derive, now, i);
      ListedTail(words, w);
    } else {
      var s := NewFirst(t, words, used, derive, now);
      var v := AddWord(Cleared(t, word), word, Token(SafeLabel(kind), s), kind, now);
      if i == 0 {
        assert words[0].0 == word;
        SeedLeaves(v, rest, used + {s}, derive, now, word);
      } else {
        NewStays(v, rest, used + {s}, derive, now, i - 1);
        ListedTail(words, w);
      }
    }
  }

  /** Seeding keeps sound tables sound if and only if no token it makes up is in the recent table. */
  lemma {:induction false} SeedSoundIff(t: Tables, words: seq<(string, string)>, derive: Derive, now: int)
    requires Sound(t) && DistinctWords(words) && Seed(t, words, derive, now).Some?
    ensures Sound(Seed(t, words, derive, now).value) <==> Free(SeedNewWords(t, words, derive, now), t.rev)
  {
    var u, news := DropWords(t, Removed(t, words)), SeedNewWords(t, words, derive, now);
    DropWordsKeeps(t, Removed(t, words));
    UsedFromStart(u);
    SeedWordsFrame(u, words, UsedSuffixes(u), derive, now);
    if Free(news, t.rev) {
      SeedKeeps(t, words, derive, now);
    } else {
      var i :| 0 <= i < |news| && news[i].1 in t.rev;
      NewStays(u, words, UsedSuffixes(u), derive, now, i);
      var v := Seed(t, words, derive, now).value;
      assert news[i].1 in v.customRev.Keys && news[i].1 in v.rev.Keys;
    }
  }

  /** A new token can be in the recent table only if its suffix is ambiguous there. */
  lemma {:induction false} NewLiveIsAmbiguous(t: Tables, words: seq<(string, string)>, used: set<string>, derive: Derive, now: int, i: nat,
                                              start: Index)
    requires WordsUsed(t, used) && SeedWords(t, words, used, derive, now).Some?
    requires i < |NewWords(t, words, used, derive, now)| && forall s :: s in start && start[s].Only? ==> s in used
    ensures AmbiguousIn(start, TokenSuffix(NewWords(t, words, used, derive, now)[i].1))
    decreases |words|
  {
    var (word, kind) := words[0];
    var news := NewWords(t, words, used, derive, now);
    if Settled(t, word, kind) {
      RefreshWordUsed(t, used, word, kind, now);
      NewLiveIsAmbiguous(RefreshWord(t, word, kind, now), words[1..], used, derive, now, i, start);
    } else {
      var s := NewFirst(t, words, used, derive, now);
      var v := AddWord(Cleared(t, word), word, Token(SafeLabel(kind), s), kind, now);
      if i > 0 {
        NewLiveIsAmbiguous(v, words[1..], used + {s}, derive, now, i - 1, start);
        assert news[i] == NewWords(v, words[1..], used + {s}, derive, now)[i - 1];
      } else {
        assert TokenSuffix(news[i].1) == s;
      }
    }
  }

  /** A suffix that the index has, if at all, as ambiguous. */
  ghost predicate AmbiguousIn(start: Index, s: string) { Indexable(s) && (s in start ==> start[s] == Ambiguous) }

  /** So without ambiguous suffixes seeding always keeps sound tables sound. */
  lemma {:induction false} SeedFreeUnlessAmbiguous(t: Tables, words: seq<(string, string)>, derive: Derive, now: int)
    requires Sound(t) && Seed(t, words, derive, now).Some? && forall s :: s in t.suffix ==> t.suffix[s].Only?
    ensures Free(SeedNewWords(t, words, derive, now), t.rev)
  {
    var u, news := DropWords(t, Removed(t, words)), SeedNewWords(t, words, derive, now);
    DropWordsKeeps(t, Removed(t, words));
    UsedFromStart(u);
    forall i | 0 <= i < |news| ensures news[i].1 !in t.rev {
      NewLiveIsAmbiguous(u, words, UsedSuffixes(u), derive, now, i, u.suffix);
      var token := news[i].1;
      assert Live(u, token) ==> EntryFor(u.suffix, TokenSuffix(token), token);
    }
  }

  /** Two originals rehydrated with tokens of one suffix s. */
  function TwoWithSuffix(a: string, k: string, b: string, l: string, kind: string): Tables {
    Bind(Bind(Tables(map[], map[], map[], map[], map[]), a, k, kind, 0), b, l, kind, 0)
  }

  lemma {:induction false} TwoAmbiguous(a: string, k: string, b: string, l: string, kind: string, s: string)
    requires a != b && k != l && TokenSuffix(k) == s && TokenSuffix(l) == s && Indexable(s)
    ensures var t := TwoWithSuffix(a, k, b, l, kind);
            && Sound(t) && t.suffix == map[s := Ambiguous] && t.customFwd == map[] && t.customRev == map[]
            && k in t.rev && t.rev[k] == Row(a, kind, 0)
  {
    var t0 := Tables(map[], map[], map[], map[], map[]);
    var t1 := Bind(t0, a, k, kind, 0);
    BindKeeps(t0, a, k, kind, 0);
    BindKeeps(t1, b, l, kind, 0);
    assert t1.suffix == map[s := Only(k)];
  }

  lemma {:induction false} NothingUsed(t: Tables, s: string)
    requires t.suffix == map[s := Ambiguous] && t.customRev == map[]
    ensures UsedSuffixes(t) == {}
  {
  }

  lemma {:induction false} SeedOneWord(t: Tables, w: string, kind: string, derive: Derive)
    requires w !in t.customFwd
    ensures SeedWords(t, [(w, kind)], {}, derive, 0) == Some(AddWord(t, w, Token(SafeLabel(kind), derive(w, 0)), kind, 0))
  {
    var words := [(w, kind)];
    assert words[1..] == [];
    assert FirstUnused(derive, w, {}, 0) == Some(derive(w, 0));
    var u := AddWord(t, w, Token(SafeLabel(kind), derive(w, 0)), kind, 0);
    assert SeedWords(u, words[1..], {} + {derive(w, 0)}, derive, 0) == Some(u);
  }

  /**
   Two rehydrated tokens with one suffix make it ambiguous, and seeding does not keep away
   from it: a word whose suffix it is gets the token of another original, which the word's
   placeholder is then restored to.
   */
  lemma {:induction false} SeedOverAmbiguous(a: string, b: string, l: string, w: string, kind: string, s: string, derive: Derive,
                                             sid: string, ttl: nat)
    requires a != b && a != w && Indexable(s) && derive(w, 0) == s && !HasPlaceholder(a)
    requires l != Token(SafeLabel(kind), s) && TokenSuffix(l) == s
    ensures var k := Token(SafeLabel(kind), s);
            var t := TwoWithSuffix(a, k, b, l, kind);
            && Sound(t) && Seed(t, [(w, kind)], derive, 0).Some?
            && var u := Seed(t, [(w, kind)], derive, 0).value;
               w in u.customFwd && u.customFwd[w] == k && !Sound(u) && Lookup(World(u, map[], ttl), k, sid, 0) == Some(a)
  {
    var k := Token(SafeLabel(kind), s);
    var t := TwoWithSuffix(a, k, b, l, kind);
    assert IsSuffix(s);
    TokenParts(SafeLabel(kind), s);
    TwoAmbiguous(a, k, b, l, kind, s);
    assert Removed(t, [(w, kind)]) == {};
    DropNoWord(t);
    NothingUsed(t, s);
    SeedOneWord(t, w, kind, derive);
    SharedIsFirst(AddWord(t, w, k, kind, 0), k, a, sid, ttl);
  }

  /** A token in both tables is looked up in the recent one, and the tables are not sound. */
  lemma {:induction false} SharedIsFirst(u: Tables, k: string, a: string, sid: string, ttl: nat)
    requires k in u.customRev && k in u.rev && u.rev[k].other == a && u.rev[k].ts == 0 && !HasPlaceholder(a)
    ensures !Sound(u) && Lookup(World(u, map[], ttl), k, sid, 0) == Some(a)
  {
    assert k in u.rev.Keys && k in u.customRev.Keys;
    assert Direct(World(u, map[], ttl), k, sid, 0) == Some(a);
  }

  // --------------------------------------------------- a token in both pairs of tables

  /** The tables of SharedTokenGuess, step by step. */
  function Seeded(w: string, k: string, kind: string): Tables {
    AddWord(Tables(map[], map[], map[], map[], map[]), w, k, kind, 0)
  }

  lemma {:induction false} RemoveWord(t: Tables, w: string, k: string, derive: Derive)
    requires t.customFwd == map[w := k] && t.suffix == map[TokenSuffix(k) := Only(k)] && Indexable(TokenSuffix(k))
    ensures Seed(t, [], derive, 0) == Some(Tables(t.fwd, t.rev, map[], map[], t.customRev - {k}))
  {
    assert Removed(t, []) == {w};
    assert WordTokens(t, {w}) == {k};
    assert IndexDelAll(t.suffix, {k}) == map[];
    assert t.customFwd - {w} == map[];
  }

  /**
   Removing words keeps every live token in the index if and only if none of their tokens is
   in the recent table too, but for those whose suffix is ambiguous anyway.
   */
  lemma {:induction false} RemovalCoversIff(t: Tables, gone: set<string>)
    requires Covers(t) && WordsInto(t) && gone <= t.customFwd.Keys
    ensures Covers(DropWords(t, gone)) <==>
              forall w :: w in gone && Indexable(TokenSuffix(t.customFwd[w])) ==>
                t.customFwd[w] !in t.rev || t.suffix[TokenSuffix(t.customFwd[w])] == Ambiguous
  {
    var u := DropWords(t, gone);
    if Covers(u) {
      forall w | w in gone && Indexable(TokenSuffix(t.customFwd[w]))
        ensures t.customFwd[w] !in t.rev || t.suffix[TokenSuffix(t.customFwd[w])] == Ambiguous
      {
        var k := t.customFwd[w];
        assert EntryFor(t.suffix, TokenSuffix(k), k) && k in WordTokens(t, gone);
        if k in t.rev { assert Live(u, k) && EntryFor(u.suffix, TokenSuffix(k), k); }
      }
    }
    if forall w :: w in gone && Indexable(TokenSuffix(t.customFwd[w])) ==>
         t.customFwd[w] !in t.rev || t.suffix[TokenSuffix(t.customFwd[w])] == Ambiguous
    {
      forall k | Live(u, k) && Indexable(TokenSuffix(k)) ensures EntryFor(u.suffix, TokenSuffix(k), k) {
        assert Live(t, k) && EntryFor(t.suffix, TokenSuffix(k), k);
      }
    }
  }

  /**
   What that leads to. A word is seeded with token k, storage rehydrates the same pair, and
   the word is taken out of the configuration: the index entry goes with it though k is
   still live. So a new token l with the suffix of k counts as not taken, and from then on
   the index names l for a suffix that two live tokens have. Run one at a time the methods
   do not rehydrate a custom token, since they answer for it before they ask storage; it
   takes two requests at once, or a warm-up after seeding.
   */
  lemma {:induction false} SharedTokenGuess(w: string, o: string, kind: string, s: string, l: string, derive: Derive)
    requires Indexable(s) && derive(w, 0) == s && o != w && l != Token(SafeLabel(kind), s) && TokenSuffix(l) == s
    ensures var k, empty := Token(SafeLabel(kind), s), Tables(map[], map[], map[], map[], map[]);
            var t := Bind(Seeded(w, k, kind), w, k, kind, 0);
            && Seed(empty, [(w, kind)], derive, 0) == Some(Seeded(w, k, kind)) && !(t.rev.Keys !! t.customRev.Keys)
            && Seed(t, [], derive, 0).Some?
            && var v := Seed(t, [], derive, 0).value;
               var u := Issue(v, o, l, kind, 0);
               !Taken(v, l, s) && Live(u, k) && Live(u, l) && s in u.suffix && u.suffix[s] == Only(l)
  {
    var k, empty := Token(SafeLabel(kind), s), Tables(map[], map[], map[], map[], map[]);
    assert IsSuffix(s);
    TokenParts(SafeLabel(kind), s);
    assert Removed(empty, [(w, kind)]) == {};
    DropNoWord(empty);
    assert UsedSuffixes(empty) == {};
    SeedOneWord(empty, w, kind, derive);
    var t := Bind(Seeded(w, k, kind), w, k, kind, 0);
    assert k in t.rev.Keys && k in t.customRev.Keys;
    assert t.suffix == map[s := Only(k)];
    RemoveWord(t, w, k, derive);
  }
}
