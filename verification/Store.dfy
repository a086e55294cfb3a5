/**
 The two-way tables of src/mask/session.rs as values: the primitive updates its methods
 are made of, and what each of them keeps.
 */
module Store {
  import opened Wrappers
  import opened Placeholders

  // ------------------------------------------------------------------ token parts

  /** placeholder_rx().is_match */
  predicate HasPlaceholder(s: string) { exists i :: 0 <= i < |s| && StrictLen(s[i..]) > 0 }

  function TrimStart(s: string): string {
    if s != [] && IsWhite(s[0]) then TrimStart(s[1..]) else s
  }

  function TrimEnd(s: string): string {
    if s != [] && IsWhite(s[|s| - 1]) then TrimEnd(s[..|s| - 1]) else s
  }

  /** Where the last underscore is, |s| if there is none. */
  function LastUnderscore(s: string): (i: nat)
    ensures i <= |s| && (i < |s| ==> s[i] == '_')
  {
    if s == [] then 0
    else if s[|s| - 1] == '_' then |s| - 1
    else
      var i := LastUnderscore(s[..|s| - 1]);
      if i == |s| - 1 then |s| else i
  }

  /** What is between the double braces, trimmed. */
  function Inner(token: string): Option<string> {
    if |token| >= 4 && token[..2] == "{{" && token[|token| - 2..] == "}}"
    then Some(TrimEnd(TrimStart(token[2..|token| - 2]))) else None
  }

  /** token_suffix: what follows the last underscore, "" for another shape. */
  function TokenSuffix(token: string): string {
    var b := Inner(token);
    if b.None? then ""
    else
      var i := LastUnderscore(b.value);
      if i == |b.value| then "" else Lower(b.value[i + 1..])
  }

  function TokenLabel(token: string): string {
    var b := Inner(token);
    if b.None? then ""
    else
      var i := LastUnderscore(b.value);
      if i == |b.value| then "" else b.value[..i]
  }

  /** suffix_indexable */
  predicate Indexable(s: string) { |s| == 6 && All(IsConsonant, s) }

  lemma {:induction false} UnderscoreAt(s: string, i: nat)
    requires i < |s| && s[i] == '_' && forall j :: i < j < |s| ==> s[j] != '_'
    ensures LastUnderscore(s) == i
    decreases |s|
  {
    if s[|s| - 1] != '_' { UnderscoreAt(s[..|s| - 1], i); }
  }

  lemma {:induction false} LowerKeeps(suffix: string)
    requires IsSuffix(suffix)
    ensures Lower(suffix) == suffix
  {
  }

  lemma {:induction false} BodyParts(tag: string, suffix: string)
    requires IsSuffix(suffix)
    ensures var body := tag + ("_" + suffix);
            LastUnderscore(body) == |tag| && body[|tag| + 1..] == suffix && body[..|tag|] == tag
  {
    var body := tag + ("_" + suffix);
    forall j | |tag| < j < |body| ensures body[j] != '_' { assert body[j] == suffix[j - |tag| - 1]; }
    UnderscoreAt(body, |tag|);
  }

  lemma {:induction false} InnerOf(tag: string, suffix: string)
    requires IsLabel(tag) && IsSuffix(suffix)
    ensures Inner(Token(tag, suffix)) == Some(tag + ("_" + suffix))
  {
    var t := Token(tag, suffix);
    var body := tag + ("_" + suffix);
    assert t[2..|t| - 2] == body;
    assert body[0] == tag[0] && body[|body| - 1] == suffix[5];
    assert TrimStart(body) == body;
    assert TrimEnd(body) == body;
  }

  /** An issued token is taken apart as it was put together. */
  lemma {:induction false} TokenParts(tag: string, suffix: string)
    requires IsLabel(tag) && IsSuffix(suffix)
    ensures TokenSuffix(Token(tag, suffix)) == suffix && TokenLabel(Token(tag, suffix)) == tag
  {
    InnerOf(tag, suffix);
    BodyParts(tag, suffix);
    LowerKeeps(suffix);
  }

  // ------------------------------------------------------------------ the tables

  /** A row of a two-way table: the other side of the binding, its label, when it was last used. */
  datatype Row = Row(other: string, kind: string, ts: int)

  datatype Suffix = Only(token: string) | Ambiguous

  type Index = map<string, Suffix>

  /** recent_fwd, recent_rev, recent_suffix, custom_fwd, custom_rev. */
  datatype Tables = Tables(fwd: map<string, Row>, rev: map<string, Row>, suffix: Index,
                           customFwd: map<string, string>, customRev: map<string, Row>)

  const RECENT_MAX: nat := 10000
  const PRUNE_SLACK: nat := RECENT_MAX / 8

  predicate Live(t: Tables, token: string) { token in t.rev || token in t.customRev }

  /** is_custom_word_orig */
  predicate IsCustom(t: Tables, orig: string) { orig in t.customFwd && t.customFwd[orig] in t.customRev }

  // ------------------------------------------------------------- primitive updates

  function IndexPut(ix: Index, s: string, token: string): Index {
    if !Indexable(s) then ix
    else if s !in ix then ix[s := Only(token)]
    else if ix[s] == Only(token) then ix
    else ix[s := Ambiguous]
  }

  /** suffix_index_add: a second token with the suffix makes it ambiguous. */
  function IndexAdd(ix: Index, token: string): Index { IndexPut(ix, TokenSuffix(token), token) }

  /** suffix_index_del: only an entry that is this token's own. */
  function IndexDel(ix: Index, token: string): Index {
    var s := TokenSuffix(token);
    if s != "" && s in ix && ix[s] == Only(token) then ix - {s} else ix
  }

  function Stamped(m: map<string, Row>, key: string, now: int): map<string, Row> {
    if key in m then m[key := Row(m[key].other, m[key].kind, now)] else m
  }

  /** touch_recent */
  function Touch(t: Tables, token: string, orig: string, now: int): Tables {
    Tables(Stamped(t.fwd, orig, now), Stamped(t.rev, token, now), t.suffix, t.customFwd, t.customRev)
  }

  /** suffix_index_add on its own. */
  function Reindex(t: Tables, token: string): Tables {
    Tables(t.fwd, t.rev, IndexAdd(t.suffix, token), t.customFwd, t.customRev)
  }

  /** rehydrate: both tables and the index take the binding as it comes. */
  function Bind(t: Tables, orig: string, token: string, kind: string, now: int): Tables {
    Tables(t.fwd[orig := Row(token, kind, now)], t.rev[token := Row(orig, kind, now)],
           IndexAdd(t.suffix, token), t.customFwd, t.customRev)
  }

  /** What recall_token does with a new token: an expired binding of the original goes first. */
  function Issue(t: Tables, orig: string, token: string, kind: string, now: int): Tables {
    var u :=
      if orig in t.fwd && t.fwd[orig].other != token then
        Tables(t.fwd - {orig}, t.rev - {t.fwd[orig].other}, IndexDel(t.suffix, t.fwd[orig].other), t.customFwd, t.customRev)
      else t;
    Bind(u, orig, token, kind, now)
  }

  /** One original leaves the recent tables. */
  function Drop(t: Tables, orig: string): Tables
    requires orig in t.fwd
  {
    Tables(t.fwd - {orig}, t.rev - {t.fwd[orig].other}, IndexDel(t.suffix, t.fwd[orig].other), t.customFwd, t.customRev)
  }

  /** A custom word leaves its tables. */
  function DropWord(t: Tables, word: string): Tables
    requires word in t.customFwd
  {
    Tables(t.fwd, t.rev, IndexDel(t.suffix, t.customFwd[word]), t.customFwd - {word}, t.customRev - {t.customFwd[word]})
  }

  function AddWord(t: Tables, word: string, token: string, kind: string, now: int): Tables {
    Tables(t.fwd, t.rev, IndexAdd(t.suffix, token), t.customFwd[word := token],
           t.customRev[token := Row(word, kind, now)])
  }

  /** The word keeps its token; kind and time are brought up to date. */
  function RefreshWord(t: Tables, word: string, kind: string, now: int): Tables
    requires IsCustom(t, word)
  {
    var token := t.customFwd[word];
    Tables(t.fwd, t.rev, t.suffix, t.customFwd, t.customRev[token := Row(t.customRev[token].other, kind, now)])
  }

  // ---------------------------------------------------------------- what is kept

  /** Every binding of m has its way back. */
  ghost predicate Into(m: map<string, Row>, back: map<string, Row>) {
    forall k :: k in m ==> m[k].other in back && back[m[k].other].other == k
  }

  ghost predicate WordsInto(t: Tables) {
    forall w :: w in t.customFwd ==> t.customFwd[w] in t.customRev && t.customRev[t.customFwd[w]].other == w
  }

  ghost predicate WordsBack(t: Tables) {
    forall k :: k in t.customRev ==> t.customRev[k].other in t.customFwd && t.customFwd[t.customRev[k].other] == k
  }

  /** The entry of a suffix is the token's own, or says there are several. */
  predicate EntryFor(ix: Index, s: string, k: string) { s in ix && (ix[s] == Only(k) || ix[s] == Ambiguous) }

  /** An indexable live token is the entry of its suffix, or the entry says there are several. */
  ghost predicate Covers(t: Tables) {
    forall k :: Live(t, k) && Indexable(TokenSuffix(k)) ==> EntryFor(t.suffix, TokenSuffix(k), k)
  }

  /** An entry that names a token names a live one with that suffix. */
  ghost predicate Names(t: Tables) {
    forall s :: s in t.suffix && t.suffix[s].Only? ==>
      Live(t, t.suffix[s].token) && TokenSuffix(t.suffix[s].token) == s && Indexable(s)
  }

  /** What holds whatever is rehydrated from storage, as long as a token stands for one original. */
  ghost predicate Sound(t: Tables) {
    && Into(t.fwd, t.rev) && WordsInto(t) && t.rev.Keys !! t.customRev.Keys && Covers(t) && Names(t)
  }

  /** What holds when nothing is rehydrated: inverse bijections, and an index that never has to guess. */
  ghost predicate Exact(t: Tables) {
    && Sound(t) && Into(t.rev, t.fwd) && WordsBack(t)
    && (forall s :: s in t.suffix ==> t.suffix[s].Only?)
    && (forall k :: Live(t, k) ==> Indexable(TokenSuffix(k)))
  }

  lemma {:induction false} PutEntries(ix: Index, s: string, token: string, s': string, k: string)
    ensures EntryFor(ix, s', k) ==> EntryFor(IndexPut(ix, s, token), s', k)
    ensures Indexable(s) ==> EntryFor(IndexPut(ix, s, token), s, token)
  {
  }

  /** One more token, entered in the index. */
  lemma {:induction false} AddCovers(t: Tables, u: Tables, token: string)
    requires Covers(t) && u.suffix == IndexAdd(t.suffix, token) && forall k :: Live(u, k) ==> Live(t, k) || k == token
    ensures Covers(u)
  {
    forall k | Live(u, k) && Indexable(TokenSuffix(k)) ensures EntryFor(u.suffix, TokenSuffix(k), k) {
      PutEntries(t.suffix, TokenSuffix(token), token, TokenSuffix(k), k);
    }
  }

  lemma {:induction false} AddNames(t: Tables, u: Tables, token: string)
    requires Names(t) && u.suffix == IndexAdd(t.suffix, token) && Live(u, token) && forall k :: Live(t, k) ==> Live(u, k)
    ensures Names(u)
  {
  }

  /** One token less, taken out of the index. */
  lemma {:induction false} DelCovers(t: Tables, u: Tables, token: string)
    requires Covers(t) && u.suffix == IndexDel(t.suffix, token) && forall k :: Live(u, k) ==> Live(t, k) && k != token
    ensures Covers(u)
  {
  }

  lemma {:induction false} DelNames(t: Tables, u: Tables, token: string)
    requires Names(t) && u.suffix == IndexDel(t.suffix, token) && forall k :: Live(t, k) && k != token ==> Live(u, k)
    ensures Names(u)
  {
  }

  /** The same bindings; labels and times may differ. */
  ghost predicate SameRows(m: map<string, Row>, n: map<string, Row>) {
    (forall k :: k in n <==> k in m) && forall k :: k in m ==> n[k].other == m[k].other
  }

  lemma {:induction false} SameKeeps(t: Tables, u: Tables)
    requires SameRows(t.fwd, u.fwd) && SameRows(t.rev, u.rev) && SameRows(t.customRev, u.customRev)
    requires u.suffix == t.suffix && u.customFwd == t.customFwd
    ensures Sound(t) ==> Sound(u)
    ensures Exact(t) ==> Exact(u)
  {
    assert forall k :: Live(u, k) <==> Live(t, k);
    if Sound(t) {
      assert Into(u.fwd, u.rev);
      assert WordsInto(u);
      assert Covers(u) && Names(u);
    }
  }

  lemma {:induction false} TouchKeeps(t: Tables, token: string, orig: string, now: int)
    ensures Sound(t) ==> Sound(Touch(t, token, orig, now))
    ensures Exact(t) ==> Exact(Touch(t, token, orig, now))
  {
    SameKeeps(t, Touch(t, token, orig, now));
  }

  lemma {:induction false} ReindexKeeps(t: Tables, token: string)
    requires Sound(t) && Live(t, token)
    ensures Sound(Reindex(t, token))
    ensures Exact(t) ==> Reindex(t, token) == t
  {
    assert forall k :: Live(Reindex(t, token), k) <==> Live(t, k);
  }

  lemma {:induction false} BindKeeps(t: Tables, orig: string, token: string, kind: string, now: int)
    requires Sound(t) && token !in t.customRev && (token in t.rev ==> t.rev[token].other == orig)
    ensures Sound(Bind(t, orig, token, kind, now))
  {
    var u := Bind(t, orig, token, kind, now);
    assert forall k :: Live(u, k) <==> Live(t, k) || k == token;
    AddCovers(t, u, token);
    AddNames(t, u, token);
    forall o | o in u.fwd ensures u.fwd[o].other in u.rev && u.rev[u.fwd[o].other].other == o {
      if o != orig { assert t.fwd[o].other in t.rev; }
    }
  }

  lemma {:induction false} DropKeeps(t: Tables, orig: string)
    requires orig in t.fwd
    ensures Sound(t) ==> Sound(Drop(t, orig))
    ensures Exact(t) ==> Exact(Drop(t, orig))
  {
    var token := t.fwd[orig].other;
    var u := Drop(t, orig);
    if Sound(t) {
      assert forall k :: Live(u, k) <==> Live(t, k) && k != token;
      DelCovers(t, u, token);
      DelNames(t, u, token);
    }
  }

  lemma {:induction false} DropWordKeeps(t: Tables, word: string)
    requires word in t.customFwd
    ensures Sound(t) ==> Sound(DropWord(t, word))
    ensures Exact(t) ==> Exact(DropWord(t, word))
  {
    var token := t.customFwd[word];
    var u := DropWord(t, word);
    if Sound(t) {
      assert forall k :: Live(u, k) <==> Live(t, k) && k != token;
      DelCovers(t, u, token);
      DelNames(t, u, token);
    }
  }

  lemma {:induction false} AddWordKeeps(t: Tables, word: string, token: string, kind: string, now: int)
    requires Sound(t) && !Live(t, token) && word !in t.customFwd
    ensures Sound(AddWord(t, word, token, kind, now))
    ensures Exact(t) && Indexable(TokenSuffix(token)) && TokenSuffix(token) !in t.suffix
        ==> Exact(AddWord(t, word, token, kind, now))
  {
    AddWordSound(t, word, token, kind, now);
    if Exact(t) && Indexable(TokenSuffix(token)) && TokenSuffix(token) !in t.suffix { AddWordExact(t, word, token, kind, now); }
  }

  lemma {:induction false} AddWordSound(t: Tables, word: string, token: string, kind: string, now: int)
    requires Sound(t) && !Live(t, token) && word !in t.customFwd
    ensures Sound(AddWord(t, word, token, kind, now))
  {
    var u := AddWord(t, word, token, kind, now);
    assert forall k :: Live(u, k) <==> Live(t, k) || k == token;
    AddCovers(t, u, token);
    AddNames(t, u, token);
    assert token !in t.rev;
  }

  lemma {:induction false} AddWordExact(t: Tables, word: string, token: string, kind: string, now: int)
    requires Exact(t) && !Live(t, token) && word !in t.customFwd && Sound(AddWord(t, word, token, kind, now))
    requires Indexable(TokenSuffix(token)) && TokenSuffix(token) !in t.suffix
    ensures Exact(AddWord(t, word, token, kind, now))
  {
    var u := AddWord(t, word, token, kind, now);
    assert u.suffix == t.suffix[TokenSuffix(token) := Only(token)];
    forall k | Live(u, k) ensures Indexable(TokenSuffix(k)) { if k != token { assert Live(t, k); } }
    forall k | k in u.customRev ensures u.customRev[k].other in u.customFwd && u.customFwd[u.customRev[k].other] == k {
      if k != token { assert t.customRev[k].other in t.customFwd; }
    }
  }

  lemma {:induction false} RefreshWordKeeps(t: Tables, word: string, kind: string, now: int)
    requires IsCustom(t, word)
    ensures Sound(t) ==> Sound(RefreshWord(t, word, kind, now))
    ensures Exact(t) ==> Exact(RefreshWord(t, word, kind, now))
  {
    SameKeeps(t, RefreshWord(t, word, kind, now));
  }

  lemma {:induction false} IssueKeeps(t: Tables, orig: string, token: string, kind: string, now: int)
    requires Sound(t) && !Live(t, token)
    ensures Sound(Issue(t, orig, token, kind, now))
    ensures Exact(t) && Indexable(TokenSuffix(token)) && TokenSuffix(token) !in t.suffix
        ==> Exact(Issue(t, orig, token, kind, now))
  {
    if orig in t.fwd {
      DropKeeps(t, orig);
      BindNew(Drop(t, orig), orig, token, kind, now);
    } else {
      BindNew(t, orig, token, kind, now);
    }
  }

  lemma {:induction false} BindNew(t: Tables, orig: string, token: string, kind: string, now: int)
    requires Sound(t) && !Live(t, token) && orig !in t.fwd
    ensures Sound(Bind(t, orig, token, kind, now))
    ensures Exact(t) && Indexable(TokenSuffix(token)) && TokenSuffix(token) !in t.suffix
        ==> Exact(Bind(t, orig, token, kind, now))
  {
    BindKeeps(t, orig, token, kind, now);
    var u := Bind(t, orig, token, kind, now);
    assert forall k :: Live(u, k) <==> Live(t, k) || k == token;
  }

  // --------------------------------------------------------------- leaving in bulk

  /** The index after every token of toks has left it, in whatever order. */
  function IndexDelAll(ix: Index, toks: set<string>): Index {
    map s | s in ix && !(s != "" && ix[s].Only? && ix[s].token in toks && TokenSuffix(ix[s].token) == s) :: ix[s]
  }

  lemma {:induction false} IndexDelMore(ix: Index, toks: set<string>, token: string)
    ensures IndexDel(IndexDelAll(ix, toks), token) == IndexDelAll(ix, toks + {token})
  {
  }

  function TokensOf(t: Tables, origs: set<string>): set<string>
    requires origs <= t.fwd.Keys
  {
    set o | o in origs :: t.fwd[o].other
  }

  /** The originals of `gone` leave the recent tables. */
  function DropAll(t: Tables, gone: set<string>): Tables
    requires gone <= t.fwd.Keys
  {
    var toks := TokensOf(t, gone);
    Tables(t.fwd - gone, t.rev - toks, IndexDelAll(t.suffix, toks), t.customFwd, t.customRev)
  }

  lemma {:induction false} DropNone(t: Tables)
    ensures DropAll(t, {}) == t
  {
    assert TokensOf(t, {}) == {};
    assert IndexDelAll(t.suffix, {}) == t.suffix;
  }

  lemma {:induction false} DropOneMore(t: Tables, gone: set<string>, orig: string)
    requires gone <= t.fwd.Keys && orig in t.fwd && orig !in gone
    ensures Drop(DropAll(t, gone), orig) == DropAll(t, gone + {orig})
  {
    var token := t.fwd[orig].other;
    assert TokensOf(t, gone + {orig}) == TokensOf(t, gone) + {token};
    IndexDelMore(t.suffix, TokensOf(t, gone), token);
    assert t.rev - (TokensOf(t, gone) + {token}) == t.rev - TokensOf(t, gone) - {token};
    assert t.fwd - (gone + {orig}) == t.fwd - gone - {orig};
  }

  lemma {:induction false} DropAllKeeps(t: Tables, gone: set<string>)
    requires gone <= t.fwd.Keys
    ensures Sound(t) ==> Sound(DropAll(t, gone))
    ensures Exact(t) ==> Exact(DropAll(t, gone))
  {
    if gone == {} {
      DropNone(t);
    } else {
      var orig :| orig in gone;
      DropAllKeeps(t, gone - {orig});
      DropOneMore(t, gone - {orig}, orig);
      assert gone - {orig} + {orig} == gone;
      DropKeeps(DropAll(t, gone - {orig}), orig);
    }
  }

  function WordTokens(t: Tables, words: set<string>): set<string>
    requires words <= t.customFwd.Keys
  {
    set w | w in words :: t.customFwd[w]
  }

  /** Custom words that were removed from the configuration leave their tables. */
  function DropWords(t: Tables, gone: set<string>): Tables
    requires gone <= t.customFwd.Keys
  {
    var toks := WordTokens(t, gone);
    Tables(t.fwd, t.rev, IndexDelAll(t.suffix, toks), t.customFwd - gone, t.customRev - toks)
  }

  lemma {:induction false} DropNoWord(t: Tables)
    ensures DropWords(t, {}) == t
  {
    assert WordTokens(t, {}) == {};
    assert IndexDelAll(t.suffix, {}) == t.suffix;
  }

  lemma {:induction false} DropWordMore(t: Tables, gone: set<string>, word: string)
    requires gone <= t.customFwd.Keys && word in t.customFwd && word !in gone
    ensures DropWord(DropWords(t, gone), word) == DropWords(t, gone + {word})
  {
    var token := t.customFwd[word];
    assert WordTokens(t, gone + {word}) == WordTokens(t, gone) + {token};
    IndexDelMore(t.suffix, WordTokens(t, gone), token);
    assert t.customRev - (WordTokens(t, gone) + {token}) == t.customRev - WordTokens(t, gone) - {token};
    assert t.customFwd - (gone + {word}) == t.customFwd - gone - {word};
  }

  lemma {:induction false} DropWordsKeeps(t: Tables, gone: set<string>)
    requires gone <= t.customFwd.Keys
    ensures Sound(t) ==> Sound(DropWords(t, gone))
    ensures Exact(t) ==> Exact(DropWords(t, gone))
  {
    if gone == {} {
      DropNoWord(t);
    } else {
      var word :| word in gone;
      DropWordsKeeps(t, gone - {word});
      DropWordMore(t, gone - {word}, word);
      assert gone - {word} + {word} == gone;
      DropWordKeeps(DropWords(t, gone - {word}), word);
    }
  }

  // ---------------------------------------------------------------- suffix rescue

  function AnyBracedTry(s: string, n: nat): (m: Option<Match>)
  {
    if n == 0 then None
    else if LabelSuffix(s, n, IsWordCharCi) && s[n + 7 + Run(s[n + 7..], IsWhite, |s|)..] == "}}"
    then Some(Match(|s|, s[..n], s[n + 1..n + 7]))
    else AnyBracedTry(s, n - 1)
  }

  /** any_braced_suffix_rx, anchored at both ends. */
  function AnyBraced(s: string): Option<Match> {
    if |s| >= 2 && s[0] == '{' && s[1] == '{' then
      var p := 2 + Run(s[2..], IsWhite, |s|);
      AnyBracedTry(s[p..], AtMost(12, s[p..]))
    else None
  }

  /** suffix_real_token: the token the index names, if its label is the requested one. */
  function RealToken(t: Tables, text: string): Option<string> {
    var m := AnyBraced(text);
    if m.None? then None
    else
      var s := Lower(m.value.suffix);
      if s !in t.suffix || t.suffix[s].Ambiguous? then None
      else
        var target := t.suffix[s].token;
        if target == text || SafeLabel(m.value.tag) != SafeLabel(TokenLabel(target)) then None
        else Some(target)
  }

  /** The text asks for this token: same suffix, same normalised label, another spelling. */
  predicate AsksFor(text: string, token: string) {
    && AnyBraced(text).Some? && text != token
    && TokenSuffix(token) == Lower(AnyBraced(text).value.suffix)
    && SafeLabel(TokenLabel(token)) == SafeLabel(AnyBraced(text).value.tag)
  }

  /**
   The rescue never guesses, whatever was rehydrated: a token it returns is live, is asked
   for, and is the only live one with its suffix.
   */
  lemma {:induction false} RescueUnambiguous(t: Tables, text: string)
    requires Sound(t) && RealToken(t, text).Some?
    ensures var k := RealToken(t, text).value;
            && Live(t, k) && AsksFor(text, k)
            && forall l :: Live(t, l) && TokenSuffix(l) == TokenSuffix(k) ==> l == k
  {
    var s := Lower(AnyBraced(text).value.suffix);
    assert t.suffix[s].Only?;
  }

  lemma {:induction false} EntryOf(t: Tables, token: string)
    requires Exact(t) && Live(t, token)
    ensures TokenSuffix(token) in t.suffix && t.suffix[TokenSuffix(token)] == Only(token)
  {
    assert Indexable(TokenSuffix(token)) && TokenSuffix(token) in t.suffix;
    assert t.suffix[TokenSuffix(token)].Only?;
  }

  /** Without rehydration it also misses none: it returns k if and only if k is live and asked for. */
  lemma {:induction false} RescueComplete(t: Tables, text: string, token: string)
    requires Exact(t)
    ensures RealToken(t, text) == Some(token) <==> Live(t, token) && AsksFor(text, token)
  {
    if RealToken(t, text) == Some(token) { RescueUnambiguous(t, text); }
    if Live(t, token) { EntryOf(t, token); }
  }
}
