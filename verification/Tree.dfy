/**
 The JSON tree layer of src/mask/tree.rs: masking and restoring a tree with its key
 names, for any text masker, any restorer and any exemption tables.
 */
module Tree {
  import opened Wrappers
  import opened Seqs

  /** serde_json's Value with key order preserved; a number is held as the text the masker sees. */
  datatype Json =
    | Null
    | Bool(b: bool)
    | Num(text: string)
    | Str(s: string)
    | Arr(items: seq<Json>)
    | Obj(entries: seq<Entry>)

  datatype Entry = Entry(key: string, value: Json)

  const MASK_MAX_DEPTH: nat := 24
  const RESTORE_MAX_DEPTH: nat := 24

  /** The text masker and the tables of src/mask/exemptions.rs, all of them arbitrary. */
  datatype Policy = Policy(
    mask: string -> string,
    verbatim: string -> bool,
    leafExempt: (Option<string>, Option<string>, bool) -> bool,
    numericExempt: string -> bool,
    skipSubtree: string -> bool,
    protectedKey: string -> bool,
    business: string -> bool)

  /** Restoring a string, escaped for a JSON string field or not. */
  type Restorer = (string, bool) -> string

  // ------------------------------------------------------------------------ objects

  function Keys(es: seq<Entry>): (ks: seq<string>)
    ensures |ks| == |es| && forall i :: 0 <= i < |es| ==> ks[i] == es[i].key
  {
    seq(|es|, i requires 0 <= i < |es| => es[i].key)
  }

  ghost predicate Distinct(ks: seq<string>) {
    forall i, j :: 0 <= i < j < |ks| ==> ks[i] != ks[j]
  }

  /** Map::insert with preserved order: an existing key keeps its place and gets the new value. */
  function Insert(es: seq<Entry>, key: string, value: Json): seq<Entry> {
    if es == [] then [Entry(key, value)]
    else if es[0].key == key then [Entry(key, value)] + es[1..]
    else [es[0]] + Insert(es[1..], key, value)
  }

  lemma {:induction false} InsertNew(es: seq<Entry>, key: string, value: Json)
    requires key !in Keys(es)
    ensures Insert(es, key, value) == es + [Entry(key, value)]
  {
    if es != [] {
      assert Keys(es)[0] == es[0].key;
      assert Keys(es)[1..] == Keys(es[1..]);
      assert forall x :: x in Keys(es[1..]) ==> x in Keys(es)[1..];
      InsertNew(es[1..], key, value);
    }
  }

  // ------------------------------------------------------------------------- masking

  function MaskTree(j: Json, p: Policy, key: Option<string>, parent: Option<string>, business: bool, depth: nat)
    : Result<Json, string>
    decreases j, 1
  {
    if depth > MASK_MAX_DEPTH then Err("json_depth_exceeded")
    else
      match j
      case Str(s) =>
        if p.verbatim(s) || p.leafExempt(key, parent, business) then Ok(j) else Ok(Str(p.mask(s)))
      case Num(text) =>
        if (key.Some? && p.numericExempt(key.value)) || p.leafExempt(key, parent, business) || p.mask(text) == text
        then Ok(j) else Ok(Str(p.mask(text)))
      case Arr(items) =>
        (match MaskItems(items, p, key, parent, business, depth + 1)
         case Ok(ms) => Ok(Arr(ms))
         case Err(e) => Err(e))
      case Obj(entries) =>
        if !business && key.Some? && p.skipSubtree(key.value) then Ok(j)
        else
          (match MaskEntries(entries, [], p, key, business, depth + 1)
           case Ok(es) => Ok(Obj(es))
           case Err(e) => Err(e))
      case _ => Ok(j)
  }

  function MaskItems(items: seq<Json>, p: Policy, key: Option<string>, parent: Option<string>, business: bool, depth: nat)
    : Result<seq<Json>, string>
    decreases items, 0
  {
    if items == [] then Ok([])
    else
      match MaskTree(items[0], p, key, parent, business, depth)
      case Err(e) => Err(e)
      case Ok(m) =>
        match MaskItems(items[1..], p, key, parent, business, depth)
        case Err(e) => Err(e)
        case Ok(ms) => Ok([m] + ms)
  }

  function MaskKey(k: string, p: Policy): string { if p.protectedKey(k) then k else p.mask(k) }

  function MaskEntries(es: seq<Entry>, out: seq<Entry>, p: Policy, key: Option<string>, business: bool, depth: nat)
    : Result<seq<Entry>, string>
    decreases es, 0
  {
    if es == [] then Ok(out)
    else
      var k := es[0].key;
      match MaskTree(es[0].value, p, Some(k), key, business || p.business(k), depth)
      case Err(e) => Err(e)
      case Ok(m) => MaskEntries(es[1..], Insert(out, MaskKey(k, p), m), p, key, business, depth)
  }

  // ----------------------------------------------------------------------- restoring

  function RestoreTree(j: Json, r: Restorer, jsonStr: string -> bool, depth: nat): Json
    decreases j, 1
  {
    if depth > RESTORE_MAX_DEPTH then j
    else
      match j
      case Str(s) => Str(r(s, false))
      case Arr(items) => Arr(RestoreItems(items, r, jsonStr, depth + 1))
      case Obj(entries) => Obj(RestoreEntries(entries, Keys(entries), [], r, jsonStr, depth + 1))
      case _ => j
  }

  function RestoreItems(items: seq<Json>, r: Restorer, jsonStr: string -> bool, depth: nat): seq<Json>
    decreases items, 0
  {
    if items == [] then []
    else [RestoreTree(items[0], r, jsonStr, depth)] + RestoreItems(items[1..], r, jsonStr, depth)
  }

  /** The value of an entry; a string directly under a key knows whether it must stay escaped. */
  function RestoreValue(e: Entry, r: Restorer, jsonStr: string -> bool, depth: nat): Json
    decreases e, 2
  {
    if e.value.Str? then Str(r(e.value.s, jsonStr(e.key))) else RestoreTree(e.value, r, jsonStr, depth)
  }

  /** A restored key gives way to any sibling key and any key already taken. */
  function RestoreKey(k: string, siblings: seq<string>, taken: seq<string>, r: Restorer): string {
    if '_' in k || '{' in k then
      var k' := r(k, false);
      if k' != k && (k' in taken || k' in siblings) then k else k'
    else k
  }

  function RestoreEntries(es: seq<Entry>, siblings: seq<string>, out: seq<Entry>,
                          r: Restorer, jsonStr: string -> bool, depth: nat): seq<Entry>
    decreases es, 0
  {
    if es == [] then out
    else
      var v := RestoreValue(es[0], r, jsonStr, depth);
      var k := RestoreKey(es[0].key, siblings, Keys(out), r);
      RestoreEntries(es[1..], siblings, Insert(out, k, v), r, jsonStr, depth)
  }

  // ------------------------------------------------------------- nothing is ever lost

  /** Distinct keys in every object: what a serde_json map is. */
  ghost predicate WellFormed(j: Json) {
    match j
    case Arr(items) => forall i :: 0 <= i < |items| ==> WellFormed(items[i])
    case Obj(entries) => Distinct(Keys(entries)) && forall i :: 0 <= i < |entries| ==> WellFormed(entries[i].value)
    case _ => true
  }

  /** Same shape: every array as long, every object with as many entries, in order, under the key or the restored key. */
  ghost predicate Keeps(j: Json, j': Json, r: Restorer)
    decreases j
  {
    match j
    case Str(s) => j'.Str? && (j'.s == s || j'.s == r(s, false) || j'.s == r(s, true))
    case Arr(items) =>
      j'.Arr? && |j'.items| == |items| && forall i :: 0 <= i < |items| ==> Keeps(items[i], j'.items[i], r)
    case Obj(entries) =>
      && j'.Obj? && |j'.entries| == |entries| && Distinct(Keys(j'.entries))
      && forall i :: 0 <= i < |entries| ==>
           && j'.entries[i].key in [entries[i].key, r(entries[i].key, false)]
           && Keeps(entries[i].value, j'.entries[i].value, r)
    case _ => j' == j
  }

  /** What the entries restored so far look like: k-th key is the k-th sibling, or a name no sibling has. */
  ghost predicate OutKeys(out: seq<Entry>, siblings: seq<string>, r: Restorer) {
    && |out| <= |siblings| && Distinct(Keys(out))
    && forall i :: 0 <= i < |out| ==>
         out[i].key == siblings[i] || (out[i].key == r(siblings[i], false) && out[i].key !in siblings)
  }

  /** The key chosen for the next entry is new. */
  lemma {:induction false} RestoreKeyIsNew(out: seq<Entry>, siblings: seq<string>, r: Restorer)
    requires OutKeys(out, siblings, r) && Distinct(siblings) && |out| < |siblings|
    ensures var k := RestoreKey(siblings[|out|], siblings, Keys(out), r);
            && k !in Keys(out)
            && (k == siblings[|out|] || (k == r(siblings[|out|], false) && k !in siblings))
  {
    var k0 := siblings[|out|];
    assert k0 in siblings;
    forall i | 0 <= i < |out| ensures Keys(out)[i] != k0 { assert siblings[i] != k0; }
  }

  lemma {:induction false} PushKeeps(out: seq<Entry>, e: Entry, siblings: seq<string>, r: Restorer)
    requires OutKeys(out, siblings, r) && |out| < |siblings| && e.key !in Keys(out)
    requires e.key == siblings[|out|] || (e.key == r(siblings[|out|], false) && e.key !in siblings)
    ensures OutKeys(out + [e], siblings, r)
  {
    var o := out + [e];
    forall i, j | 0 <= i < j < |Keys(o)| ensures Keys(o)[i] != Keys(o)[j] {
      if j < |out| { assert Keys(o)[i] == Keys(out)[i] && Keys(o)[j] == Keys(out)[j]; }
      else { assert Keys(o)[i] == Keys(out)[i]; }
    }
  }

  /** res is out with the restored entries of es behind it. */
  ghost predicate Shaped(res: seq<Entry>, es: seq<Entry>, siblings: seq<string>, out: seq<Entry>,
                         r: Restorer, jsonStr: string -> bool, depth: nat) {
    && |res| == |out| + |es| && OutKeys(res, siblings, r) && out <= res
    && forall i :: 0 <= i < |es| ==> res[|out| + i].value == RestoreValue(es[i], r, jsonStr, depth)
  }

  lemma {:induction false} ShapedStep(res: seq<Entry>, es: seq<Entry>, siblings: seq<string>, out: seq<Entry>, e: Entry,
                                      r: Restorer, jsonStr: string -> bool, depth: nat)
    requires es != [] && e.value == RestoreValue(es[0], r, jsonStr, depth)
    requires Shaped(res, es[1..], siblings, out + [e], r, jsonStr, depth)
    ensures Shaped(res, es, siblings, out, r, jsonStr, depth)
  {
    var next := out + [e];
    forall i | 0 <= i < |es| ensures res[|out| + i].value == RestoreValue(es[i], r, jsonStr, depth) {
      if i == 0 { assert res[|out|] == next[|out|]; }
      else { assert es[i] == es[1..][i - 1]; assert res[|next| + (i - 1)].value == RestoreValue(es[1..][i - 1], r, jsonStr, depth); }
    }
  }

  /** The restored entries are the given ones, each appended in turn. */
  lemma {:induction false} RestoreEntriesShape(es: seq<Entry>, siblings: seq<string>, out: seq<Entry>,
                                               r: Restorer, jsonStr: string -> bool, depth: nat)
    requires Distinct(siblings) && OutKeys(out, siblings, r)
    requires |out| + |es| == |siblings| && forall i :: 0 <= i < |es| ==> es[i].key == siblings[|out| + i]
    ensures Shaped(RestoreEntries(es, siblings, out, r, jsonStr, depth), es, siblings, out, r, jsonStr, depth)
    decreases |es|
  {
    if es != [] {
      RestoreKeyIsNew(out, siblings, r);
      var v := RestoreValue(es[0], r, jsonStr, depth);
      var k := RestoreKey(es[0].key, siblings, Keys(out), r);
      InsertNew(out, k, v);
      PushKeeps(out, Entry(k, v), siblings, r);
      assert forall i :: 0 <= i < |es[1..]| ==> es[1..][i] == es[i + 1];
      RestoreEntriesShape(es[1..], siblings, out + [Entry(k, v)], r, jsonStr, depth);
      ShapedStep(RestoreEntries(es, siblings, out, r, jsonStr, depth), es, siblings, out, Entry(k, v), r, jsonStr, depth);
    }
  }

  lemma {:induction false} RestoreItemsShape(items: seq<Json>, r: Restorer, jsonStr: string -> bool, depth: nat)
    ensures var res := RestoreItems(items, r, jsonStr, depth);
            |res| == |items| && forall i :: 0 <= i < |items| ==> res[i] == RestoreTree(items[i], r, jsonStr, depth)
  {
    if items != [] { RestoreItemsShape(items[1..], r, jsonStr, depth); }
  }

  /** A tree left alone keeps everything. */
  lemma {:induction false} KeepsSelf(j: Json, r: Restorer)
    requires WellFormed(j)
    ensures Keeps(j, j, r)
    decreases j
  {
    match j
    case Arr(items) => forall i | 0 <= i < |items| ensures Keeps(items[i], items[i], r) { KeepsSelf(items[i], r); }
    case Obj(entries) =>
      forall i | 0 <= i < |entries| ensures Keeps(entries[i].value, entries[i].value, r) { KeepsSelf(entries[i].value, r); }
    case _ =>
  }

  lemma {:induction false} EntryKeeps(e: Entry, r: Restorer, jsonStr: string -> bool, depth: nat)
    requires WellFormed(e.value)
    ensures Keeps(e.value, RestoreValue(e, r, jsonStr, depth), r)
    decreases e, 0
  {
    if e.value.Str? {
      var b := jsonStr(e.key);
      assert b == true || b == false;
    } else {
      RestoreKeepsAll(e.value, r, jsonStr, depth);
    }
  }

  /**
   No entry is ever lost on restore, whatever the restorer answers: every object keeps
   its entries, their order and the distinctness of their keys, every array its length.
   */
  lemma {:induction false} RestoreKeepsAll(j: Json, r: Restorer, jsonStr: string -> bool, depth: nat)
    requires WellFormed(j)
    ensures Keeps(j, RestoreTree(j, r, jsonStr, depth), r)
    decreases j
  {
    if depth > RESTORE_MAX_DEPTH {
      KeepsSelf(j, r);
    } else {
      match j
      case Arr(items) =>
        RestoreItemsShape(items, r, jsonStr, depth + 1);
        forall i | 0 <= i < |items| ensures Keeps(items[i], RestoreTree(items[i], r, jsonStr, depth + 1), r) {
          RestoreKeepsAll(items[i], r, jsonStr, depth + 1);
        }
      case Obj(entries) =>
        RestoreEntriesShape(entries, Keys(entries), [], r, jsonStr, depth + 1);
        forall i | 0 <= i < |entries|
          ensures Keeps(entries[i].value, RestoreValue(entries[i], r, jsonStr, depth + 1), r)
        {
          EntryKeeps(entries[i], r, jsonStr, depth + 1);
        }
        ObjectKeeps(entries, RestoreEntries(entries, Keys(entries), [], r, jsonStr, depth + 1), r, jsonStr, depth + 1);
      case _ =>
    }
  }

  /** Entries in shape, with values that keep everything, make an object that does. */
  lemma {:induction false} ObjectKeeps(entries: seq<Entry>, res: seq<Entry>, r: Restorer, jsonStr: string -> bool, depth: nat)
    requires Shaped(res, entries, Keys(entries), [], r, jsonStr, depth)
    requires forall i :: 0 <= i < |entries| ==> Keeps(entries[i].value, RestoreValue(entries[i], r, jsonStr, depth), r)
    ensures Keeps(Obj(entries), Obj(res), r)
  {
    forall i | 0 <= i < |entries|
      ensures res[i].key in [entries[i].key, r(entries[i].key, false)] && Keeps(entries[i].value, res[i].value, r)
    {
      assert res[0 + i].value == RestoreValue(entries[i], r, jsonStr, depth);
      assert res[i].key == Keys(entries)[i] || res[i].key == r(Keys(entries)[i], false);
    }
  }

  // ---------------------------------------------------------------------- round trip

  /** Masking then restoring gives s back, and restoring s itself changes nothing. */
  ghost predicate Inverts(s: string, p: Policy, r: Restorer) {
    r(p.mask(s), true) == s && r(p.mask(s), false) == s && r(s, true) == s && r(s, false) == s
  }

  lemma {:induction false} InvertsEither(s: string, p: Policy, r: Restorer, escape: bool)
    requires Inverts(s, p, r)
    ensures r(p.mask(s), escape) == s && r(s, escape) == s
  {
    if escape {} else {}
  }

  ghost predicate Invertible(j: Json, p: Policy, r: Restorer) {
    match j
    case Str(s) => Inverts(s, p, r)
    case Num(text) => p.mask(text) == text
    case Arr(items) => forall i :: 0 <= i < |items| ==> Invertible(items[i], p, r)
    case Obj(entries) =>
      && Distinct(Keys(entries))
      && forall i :: 0 <= i < |entries| ==> Inverts(entries[i].key, p, r) && Invertible(entries[i].value, p, r)
    case _ => true
  }

  /** restore_final looks only at text with an underscore or an opening brace. */
  ghost predicate EarlyOut(r: Restorer) {
    forall s, e :: '_' !in s && '{' !in s ==> r(s, e) == s
  }

  lemma {:induction false} MaskItemsShape(items: seq<Json>, p: Policy, key: Option<string>, parent: Option<string>, business: bool, depth: nat)
    requires MaskItems(items, p, key, parent, business, depth).Ok?
    ensures var ms := MaskItems(items, p, key, parent, business, depth).value;
            && |ms| == |items|
            && forall i :: 0 <= i < |items| ==> MaskTree(items[i], p, key, parent, business, depth) == Ok(ms[i])
  {
    if items != [] { MaskItemsShape(items[1..], p, key, parent, business, depth); }
  }

  /** The value of entry e once masked. */
  function MaskedValue(e: Entry, p: Policy, key: Option<string>, business: bool, depth: nat): Result<Json, string> {
    MaskTree(e.value, p, Some(e.key), key, business || p.business(e.key), depth)
  }

  /** out holds the first entries of es, masked. */
  ghost predicate MaskedPrefix(es: seq<Entry>, out: seq<Entry>, p: Policy, key: Option<string>, business: bool, depth: nat) {
    && |out| <= |es|
    && forall i :: 0 <= i < |out| ==>
         out[i].key == MaskKey(es[i].key, p) && MaskedValue(es[i], p, key, business, depth) == Ok(out[i].value)
  }

  /** Keys that restoring tells apart stay apart when masked, so masking loses no entry either. */
  lemma {:induction false} MaskEntriesShape(all: seq<Entry>, es: seq<Entry>, out: seq<Entry>,
                                            p: Policy, r: Restorer, key: Option<string>, business: bool, depth: nat)
    requires Distinct(Keys(all)) && forall i :: 0 <= i < |all| ==> Inverts(all[i].key, p, r)
    requires MaskedPrefix(all, out, p, key, business, depth) && es == all[|out|..]
    requires MaskEntries(es, out, p, key, business, depth).Ok?
    ensures var res := MaskEntries(es, out, p, key, business, depth).value;
            |res| == |all| && MaskedPrefix(all, res, p, key, business, depth)
    decreases |es|
  {
    if es != [] {
      var n := |out|;
      assert es[0] == all[n];
      var k := MaskKey(es[0].key, p);
      forall i | 0 <= i < n ensures Keys(out)[i] != k {
        assert Keys(all)[i] != Keys(all)[n];
        MaskKeyInverts(all[i].key, p, r);
        MaskKeyInverts(all[n].key, p, r);
      }
      var m := MaskedValue(es[0], p, key, business, depth).value;
      InsertNew(out, k, m);
      assert es[1..] == all[n + 1..];
      MaskEntriesShape(all, es[1..], out + [Entry(k, m)], p, r, key, business, depth);
    }
  }

  lemma {:induction false} MaskKeyInverts(k: string, p: Policy, r: Restorer)
    requires Inverts(k, p, r)
    ensures r(MaskKey(k, p), false) == k && r(k, false) == k
  {
  }

  lemma {:induction false} DistinctAt(ks: seq<string>, i: nat, j: nat)
    requires Distinct(ks) && i < |ks| && j < |ks|
    ensures i != j ==> ks[i] != ks[j]
  {
  }

  /** Restoring gives every key of `all` back, from the masked one beside it and from itself. */
  ghost predicate KeysBack(all: seq<Entry>, masked: seq<Entry>, r: Restorer) {
    && Distinct(Keys(all)) && |masked| == |all|
    && forall i :: 0 <= i < |all| ==> r(masked[i].key, false) == all[i].key && r(all[i].key, false) == all[i].key
  }

  /** Among masked siblings, each key is restored to the original one. */
  lemma {:induction false} RestoreMaskedKey(all: seq<Entry>, masked: seq<Entry>, n: nat, out: seq<Entry>, r: Restorer)
    requires KeysBack(all, masked, r) && EarlyOut(r)
    requires n < |all| && |out| == n && forall i :: 0 <= i < n ==> out[i].key == all[i].key
    ensures RestoreKey(masked[n].key, Keys(masked), Keys(out), r) == all[n].key
    ensures all[n].key !in Keys(out)
  {
    var k, mk := all[n].key, masked[n].key;
    forall i | 0 <= i < n ensures Keys(out)[i] != k { assert Keys(all)[i] != Keys(all)[n]; }
    if k in Keys(masked) {
      var i :| 0 <= i < |masked| && Keys(masked)[i] == k;
      assert all[i].key == r(k, false) == k;
      DistinctAt(Keys(all), i, n);
      assert i == n && mk == k;
    }
  }

  /** The keys of `all`, each with the restored value of the masked entry beside it. */
  function RestoredValues(all: seq<Entry>, masked: seq<Entry>, r: Restorer, jsonStr: string -> bool, depth: nat): (res: seq<Entry>)
    requires |masked| == |all|
    ensures |res| == |all|
    ensures forall i :: 0 <= i < |all| ==> res[i] == Entry(all[i].key, RestoreValue(masked[i], r, jsonStr, depth))
  {
    seq(|all|, i requires 0 <= i < |all| => Entry(all[i].key, RestoreValue(masked[i], r, jsonStr, depth)))
  }

  lemma {:induction false} EntriesRestored(all: seq<Entry>, masked: seq<Entry>, n: nat, out: seq<Entry>,
                                           r: Restorer, jsonStr: string -> bool, depth: nat)
    requires KeysBack(all, masked, r) && EarlyOut(r)
    requires n <= |all| && out == RestoredValues(all, masked, r, jsonStr, depth)[..n]
    ensures RestoreEntries(masked[n..], Keys(masked), out, r, jsonStr, depth) == RestoredValues(all, masked, r, jsonStr, depth)
    decreases |all| - n
  {
    var res := RestoredValues(all, masked, r, jsonStr, depth);
    if n < |all| {
      assert masked[n..][0] == masked[n] && masked[n..][1..] == masked[n + 1..];
      RestoreMaskedKey(all, masked, n, out, r);
      InsertNew(out, res[n].key, res[n].value);
      assert res[..n + 1] == out + [res[n]];
      EntriesRestored(all, masked, n + 1, res[..n + 1], r, jsonStr, depth);
    } else {
      assert masked[n..] == [];
    }
  }

  /** An object comes back if and only if all its values do. */
  lemma {:induction false} ObjectIff(all: seq<Entry>, masked: seq<Entry>, r: Restorer, jsonStr: string -> bool, depth: nat)
    requires KeysBack(all, masked, r) && EarlyOut(r)
    ensures RestoreEntries(masked, Keys(masked), [], r, jsonStr, depth) == all
       <==> forall i :: 0 <= i < |all| ==> RestoreValue(masked[i], r, jsonStr, depth) == all[i].value
  {
    var res := RestoredValues(all, masked, r, jsonStr, depth);
    EntriesRestored(all, masked, 0, [], r, jsonStr, depth);
    assert masked[0..] == masked;
    forall i | 0 <= i < |all| ensures all[i] == Entry(all[i].key, all[i].value) {}
    if forall i :: 0 <= i < |all| ==> RestoreValue(masked[i], r, jsonStr, depth) == all[i].value {
      assert forall i :: 0 <= i < |all| ==> res[i] == all[i];
    } else {
      var i :| 0 <= i < |all| && RestoreValue(masked[i], r, jsonStr, depth) != all[i].value;
      assert res[i] != all[i];
    }
  }

  lemma {:induction false} MaskedKeysBack(all: seq<Entry>, masked: seq<Entry>, p: Policy, r: Restorer)
    requires Distinct(Keys(all)) && forall i :: 0 <= i < |all| ==> Inverts(all[i].key, p, r)
    requires |masked| == |all| && forall i :: 0 <= i < |all| ==> masked[i].key == MaskKey(all[i].key, p)
    ensures KeysBack(all, masked, r)
  {
    forall i | 0 <= i < |all| ensures r(masked[i].key, false) == all[i].key && r(all[i].key, false) == all[i].key {
      MaskKeyInverts(all[i].key, p, r);
    }
  }

  /** A tree of strings that restoring leaves alone is left alone. */
  lemma {:induction false} InertTree(j: Json, p: Policy, r: Restorer, jsonStr: string -> bool, depth: nat)
    requires Invertible(j, p, r)
    ensures RestoreTree(j, r, jsonStr, depth) == j
    decreases j
  {
    match j
    case Arr(items) =>
      RestoreItemsShape(items, r, jsonStr, depth + 1);
      forall i | 0 <= i < |items| ensures RestoreTree(items[i], r, jsonStr, depth + 1) == items[i] {
        InertTree(items[i], p, r, jsonStr, depth + 1);
      }
      assert RestoreItems(items, r, jsonStr, depth + 1) == items;
    case Obj(entries) =>
      forall i | 0 <= i < |entries| ensures RestoreValue(entries[i], r, jsonStr, depth + 1) == entries[i].value {
        var v := entries[i].value;
        if v.Str? { InvertsEither(v.s, p, r, jsonStr(entries[i].key)); } else { InertTree(v, p, r, jsonStr, depth + 1); }
      }
      InertEntries(entries, 0, [], p, r, jsonStr, depth + 1);
      assert entries[0..] == entries;
    case _ =>
  }

  lemma {:induction false} InertEntries(all: seq<Entry>, n: nat, out: seq<Entry>,
                                        p: Policy, r: Restorer, jsonStr: string -> bool, depth: nat)
    requires Distinct(Keys(all)) && forall i :: 0 <= i < |all| ==> Inverts(all[i].key, p, r)
    requires forall i :: 0 <= i < |all| ==> RestoreValue(all[i], r, jsonStr, depth) == all[i].value
    requires n <= |all| && out == all[..n]
    ensures RestoreEntries(all[n..], Keys(all), out, r, jsonStr, depth) == all
    decreases |all| - n
  {
    if n < |all| {
      assert all[n..][0] == all[n] && all[n..][1..] == all[n + 1..];
      forall i | 0 <= i < n ensures Keys(out)[i] != all[n].key { assert Keys(all)[i] != Keys(all)[n]; }
      InsertNew(out, all[n].key, all[n].value);
      assert all[n] == Entry(all[n].key, all[n].value);
      assert all[..n + 1] == out + [all[n]];
      InertEntries(all, n + 1, all[..n + 1], p, r, jsonStr, depth);
    } else {
      assert all[n..] == [];
    }
  }

  /**
   Tree round trip with key names. If masking a tree succeeds and masking inverts on its
   strings, restoring the masked tree gives the tree back, keys, order and all.
   */
  lemma {:induction false} TreeRoundTrip(j: Json, p: Policy, r: Restorer, jsonStr: string -> bool,
                                         key: Option<string>, parent: Option<string>, business: bool, depth: nat)
    requires Invertible(j, p, r) && EarlyOut(r)
    requires MaskTree(j, p, key, parent, business, depth).Ok?
    ensures RestoreTree(MaskTree(j, p, key, parent, business, depth).value, r, jsonStr, depth) == j
    decreases j, 1
  {
    match j
    case Arr(items) => ItemsRoundTrip(items, p, r, jsonStr, key, parent, business, depth + 1);
    case Obj(entries) =>
      if !business && key.Some? && p.skipSubtree(key.value) { InertTree(j, p, r, jsonStr, depth); }
      else { ObjectRoundTrip(entries, p, r, jsonStr, key, business, depth + 1); }
    case _ =>
  }

  lemma {:induction false} ItemsRoundTrip(items: seq<Json>, p: Policy, r: Restorer, jsonStr: string -> bool,
                                          key: Option<string>, parent: Option<string>, business: bool, depth: nat)
    requires (forall i :: 0 <= i < |items| ==> Invertible(items[i], p, r)) && EarlyOut(r)
    requires MaskItems(items, p, key, parent, business, depth).Ok?
    ensures RestoreItems(MaskItems(items, p, key, parent, business, depth).value, r, jsonStr, depth) == items
    decreases items, 0
  {
    MaskItemsShape(items, p, key, parent, business, depth);
    var ms := MaskItems(items, p, key, parent, business, depth).value;
    RestoreItemsShape(ms, r, jsonStr, depth);
    forall i | 0 <= i < |items| ensures RestoreTree(ms[i], r, jsonStr, depth) == items[i] {
      TreeRoundTrip(items[i], p, r, jsonStr, key, parent, business, depth);
    }
  }

  lemma {:induction false} ObjectRoundTrip(entries: seq<Entry>, p: Policy, r: Restorer, jsonStr: string -> bool,
                                           key: Option<string>, business: bool, depth: nat)
    requires Invertible(Obj(entries), p, r) && EarlyOut(r)
    requires MaskEntries(entries, [], p, key, business, depth).Ok?
    ensures var ms := MaskEntries(entries, [], p, key, business, depth).value;
            RestoreEntries(ms, Keys(ms), [], r, jsonStr, depth) == entries
    decreases entries, 0
  {
    MaskEntriesShape(entries, entries, [], p, r, key, business, depth);
    var ms := MaskEntries(entries, [], p, key, business, depth).value;
    forall i | 0 <= i < |entries| ensures RestoreValue(ms[i], r, jsonStr, depth) == entries[i].value {
      EntryRoundTrip(entries[i], ms[i], p, r, jsonStr, key, business, depth);
    }
    MaskedKeysBack(entries, ms, p, r);
    ObjectIff(entries, ms, r, jsonStr, depth);
  }

  lemma {:induction false} EntryRoundTrip(e: Entry, m: Entry, p: Policy, r: Restorer, jsonStr: string -> bool,
                                          key: Option<string>, business: bool, depth: nat)
    requires Invertible(e.value, p, r) && EarlyOut(r)
    requires MaskedValue(e, p, key, business, depth) == Ok(m.value)
    ensures RestoreValue(m, r, jsonStr, depth) == e.value
    decreases e, 0
  {
    if e.value.Str? {
      InvertsEither(e.value.s, p, r, jsonStr(m.key));
    } else {
      TreeRoundTrip(e.value, p, r, jsonStr, Some(e.key), key, business || p.business(e.key), depth);
    }
  }
}
