/** A request body: `mask_body` of src/mask/tree.rs on the parsed value, and the depth its restoring reaches. */
module TreeBody {
  import opened Wrappers
  import opened Seqs
  import opened Tree

  /** The key a body that is no object is wrapped under while it is masked. */
  const ROOT_WRAP_KEY: string := "__shield_root__"

  /** The wrap key is never masked, nor is a root key of that name. */
  function RootKey(k: string, p: Policy): string { if k == ROOT_WRAP_KEY then k else MaskKey(k, p) }

  /** The members of the root object; unlike inside the tree, the root key itself opens no business zone. */
  function MaskRoot(es: seq<Entry>, out: seq<Entry>, p: Policy): Result<seq<Entry>, string> {
    if es == [] then Ok(out)
    else
      match MaskTree(es[0].value, p, Some(es[0].key), None, false, 0)
      case Err(e) => Err(e)
      case Ok(m) => MaskRoot(es[1..], Insert(out, RootKey(es[0].key, p), m), p)
  }

  /** The masked body: a root object member by member, anything else as the value of the wrap key. */
  function MaskBody(j: Json, p: Policy): Result<Json, string> {
    if j.Obj? then
      (match MaskRoot(j.entries, [], p)
       case Ok(es) => Ok(Obj(es))
       case Err(e) => Err(e))
    else MaskTree(j, p, Some(ROOT_WRAP_KEY), None, false, 0)
  }

  /** The response side restores from the root, at depth 0. */
  function RestoreBody(j: Json, r: Restorer, jsonStr: string -> bool): Json { RestoreTree(j, r, jsonStr, 0) }

  // ---------------------------------------------------------------------- round trip

  /** Where masking succeeds further down, it succeeds with the same result further up. */
  lemma {:induction false} MaskHigher(j: Json, p: Policy, key: Option<string>, parent: Option<string>, business: bool, depth: nat)
    requires MaskTree(j, p, key, parent, business, depth + 1).Ok?
    ensures MaskTree(j, p, key, parent, business, depth) == MaskTree(j, p, key, parent, business, depth + 1)
    decreases j, 1
  {
    match j
    case Arr(items) => ItemsHigher(items, p, key, parent, business, depth + 1);
    case Obj(entries) =>
      if business || key.None? || !p.skipSubtree(key.value) {
        EntriesHigher(entries, [], p, key, business, depth + 1);
      }
    case _ =>
  }

  lemma {:induction false} ItemsHigher(items: seq<Json>, p: Policy, key: Option<string>, parent: Option<string>, business: bool, depth: nat)
    requires MaskItems(items, p, key, parent, business, depth + 1).Ok?
    ensures MaskItems(items, p, key, parent, business, depth) == MaskItems(items, p, key, parent, business, depth + 1)
    decreases items, 0
  {
    if items != [] {
      MaskHigher(items[0], p, key, parent, business, depth);
      ItemsHigher(items[1..], p, key, parent, business, depth);
    }
  }

  lemma {:induction false} EntriesHigher(es: seq<Entry>, out: seq<Entry>, p: Policy, key: Option<string>, business: bool, depth: nat)
    requires MaskEntries(es, out, p, key, business, depth + 1).Ok?
    ensures MaskEntries(es, out, p, key, business, depth) == MaskEntries(es, out, p, key, business, depth + 1)
    decreases es, 0
  {
    if es != [] {
      var k := es[0].key;
      MaskHigher(es[0].value, p, Some(k), key, business || p.business(k), depth);
      var m := MaskTree(es[0].value, p, Some(k), key, business || p.business(k), depth).value;
      EntriesHigher(es[1..], Insert(out, MaskKey(k, p), m), p, key, business, depth);
    }
  }

  /** Every member's value is shallow enough to be masked one level further down. */
  ghost predicate Shallow(es: seq<Entry>, p: Policy) {
    forall i :: 0 <= i < |es| ==> MaskTree(es[i].value, p, Some(es[i].key), None, false, 1).Ok?
  }

  /** out holds the first members of es, masked. */
  ghost predicate RootPrefix(es: seq<Entry>, out: seq<Entry>, p: Policy) {
    && |out| <= |es|
    && forall i :: 0 <= i < |out| ==>
         out[i].key == RootKey(es[i].key, p)
         && MaskTree(es[i].value, p, Some(es[i].key), None, false, 0) == Ok(out[i].value)
  }

  lemma {:induction false} RootShape(all: seq<Entry>, es: seq<Entry>, out: seq<Entry>, p: Policy, r: Restorer)
    requires Distinct(Keys(all)) && forall i :: 0 <= i < |all| ==> Inverts(all[i].key, p, r)
    requires RootPrefix(all, out, p) && es == all[|out|..]
    requires MaskRoot(es, out, p).Ok?
    ensures var res := MaskRoot(es, out, p).value;
            |res| == |all| && RootPrefix(all, res, p)
    decreases |es|
  {
    if es != [] {
      var n := |out|;
      assert es[0] == all[n];
      var k := RootKey(es[0].key, p);
      forall i | 0 <= i < n ensures Keys(out)[i] != k {
        assert Keys(all)[i] != Keys(all)[n];
        MaskKeyInverts(all[i].key, p, r);
        MaskKeyInverts(all[n].key, p, r);
      }
      var m := MaskTree(es[0].value, p, Some(es[0].key), None, false, 0).value;
      InsertNew(out, k, m);
      assert es[1..] == all[n + 1..];
      RootShape(all, es[1..], out + [Entry(k, m)], p, r);
    }
  }

  lemma {:induction false} ShallowAll(es: seq<Entry>, out: seq<Entry>, p: Policy)
    requires Shallow(es, p)
    ensures MaskRoot(es, out, p).Ok?
    decreases |es|
  {
    if es != [] {
      assert MaskTree(es[0].value, p, Some(es[0].key), None, false, 0 + 1).Ok?;
      MaskHigher(es[0].value, p, Some(es[0].key), None, false, 0);
      forall i | 0 <= i < |es[1..]| ensures MaskTree(es[1..][i].value, p, Some(es[1..][i].key), None, false, 1).Ok? {
        assert es[1..][i] == es[i + 1];
      }
      ShallowAll(es[1..], Insert(out, RootKey(es[0].key, p), MaskTree(es[0].value, p, Some(es[0].key), None, false, 0).value), p);
    }
  }

  /** One member of the root comes back. */
  lemma {:induction false} RootValue(e: Entry, m: Entry, p: Policy, r: Restorer, jsonStr: string -> bool)
    requires Invertible(e.value, p, r) && EarlyOut(r)
    requires MaskTree(e.value, p, Some(e.key), None, false, 1).Ok?
    requires MaskTree(e.value, p, Some(e.key), None, false, 0) == Ok(m.value)
    ensures RestoreValue(m, r, jsonStr, 1) == e.value
  {
    MaskHigher(e.value, p, Some(e.key), None, false, 0);
    if e.value.Str? {
      InvertsEither(e.value.s, p, r, jsonStr(m.key));
    } else {
      TreeRoundTrip(e.value, p, r, jsonStr, Some(e.key), None, false, 1);
    }
  }

  lemma {:induction false} RootKeysBack(es: seq<Entry>, ms: seq<Entry>, p: Policy, r: Restorer)
    requires Distinct(Keys(es)) && (forall i :: 0 <= i < |es| ==> Inverts(es[i].key, p, r)) && RootPrefix(es, ms, p) && |ms| == |es|
    ensures KeysBack(es, ms, r)
  {
    forall i | 0 <= i < |es| ensures r(ms[i].key, false) == es[i].key && r(es[i].key, false) == es[i].key {
      MaskKeyInverts(es[i].key, p, r);
    }
  }

  /** Round trip of a whole body that leaves one level of depth free; masking it succeeds, too. */
  lemma {:induction false} BodyRoundTrip(es: seq<Entry>, p: Policy, r: Restorer, jsonStr: string -> bool)
    requires Invertible(Obj(es), p, r) && EarlyOut(r) && Shallow(es, p)
    ensures MaskBody(Obj(es), p).Ok? && RestoreBody(MaskBody(Obj(es), p).value, r, jsonStr) == Obj(es)
  {
    ShallowAll(es, [], p);
    RootShape(es, es, [], p, r);
    var ms := MaskRoot(es, [], p).value;
    forall i | 0 <= i < |es| ensures RestoreValue(ms[i], r, jsonStr, 1) == es[i].value {
      RootValue(es[i], ms[i], p, r, jsonStr);
    }
    RootKeysBack(es, ms, p, r);
    ObjectIff(es, ms, r, jsonStr, 1);
  }

  // --------------------------------------------------------------- the last level

  /**
   At the deepest level that masking reaches nothing is rewritten, strings directly under a
   key aside: what restoring one level further down undoes.
   */
  ghost predicate Undone(j: Json, p: Policy, key: Option<string>, parent: Option<string>, business: bool, depth: nat)
    decreases j
  {
    if depth >= MASK_MAX_DEPTH then MaskTree(j, p, key, parent, business, depth) == Ok(j)
    else
      match j
      case Arr(items) => forall i :: 0 <= i < |items| ==> Undone(items[i], p, key, parent, business, depth + 1)
      case Obj(entries) =>
        (!business && key.Some? && p.skipSubtree(key.value))
        || forall i :: 0 <= i < |entries| ==> UndoneEntry(entries[i], p, key, business, depth + 1)
      case _ => true
  }

  ghost predicate UndoneEntry(e: Entry, p: Policy, key: Option<string>, business: bool, depth: nat)
    decreases e
  {
    e.value.Str? || Undone(e.value, p, Some(e.key), key, business || p.business(e.key), depth)
  }

  lemma {:induction false} UndoneIff(j: Json, p: Policy, r: Restorer, jsonStr: string -> bool,
                                     key: Option<string>, parent: Option<string>, business: bool, depth: nat)
    requires Invertible(j, p, r) && EarlyOut(r) && MaskTree(j, p, key, parent, business, depth).Ok?
    ensures RestoreTree(MaskTree(j, p, key, parent, business, depth).value, r, jsonStr, depth + 1) == j
       <==> Undone(j, p, key, parent, business, depth)
    decreases j, 1
  {
    if depth < MASK_MAX_DEPTH {
      match j
      case Arr(items) => UndoneItems(items, p, r, jsonStr, key, parent, business, depth);
      case Obj(entries) =>
        if !business && key.Some? && p.skipSubtree(key.value) { InertTree(j, p, r, jsonStr, depth + 1); }
        else { UndoneEntries(entries, p, r, jsonStr, key, business, depth); }
      case _ =>
    }
  }

  lemma {:induction false} UndoneItems(items: seq<Json>, p: Policy, r: Restorer, jsonStr: string -> bool,
                                       key: Option<string>, parent: Option<string>, business: bool, depth: nat)
    requires Invertible(Arr(items), p, r) && EarlyOut(r) && depth < MASK_MAX_DEPTH
    requires MaskItems(items, p, key, parent, business, depth + 1).Ok?
    ensures RestoreItems(MaskItems(items, p, key, parent, business, depth + 1).value, r, jsonStr, depth + 2) == items
       <==> forall i :: 0 <= i < |items| ==> Undone(items[i], p, key, parent, business, depth + 1)
    decreases items, 0
  {
    var ms := MaskItems(items, p, key, parent, business, depth + 1).value;
    MaskItemsShape(items, p, key, parent, business, depth + 1);
    RestoreItemsShape(ms, r, jsonStr, depth + 2);
    var res := RestoreItems(ms, r, jsonStr, depth + 2);
    forall i | 0 <= i < |items| ensures res[i] == items[i] <==> Undone(items[i], p, key, parent, business, depth + 1) {
      UndoneIff(items[i], p, r, jsonStr, key, parent, business, depth + 1);
    }
    if forall i :: 0 <= i < |items| ==> res[i] == items[i] { assert res == items; }
  }

  lemma {:induction false} UndoneEntries(entries: seq<Entry>, p: Policy, r: Restorer, jsonStr: string -> bool,
                                         key: Option<string>, business: bool, depth: nat)
    requires Invertible(Obj(entries), p, r) && EarlyOut(r) && depth < MASK_MAX_DEPTH
    requires MaskEntries(entries, [], p, key, business, depth + 1).Ok?
    ensures var ms := MaskEntries(entries, [], p, key, business, depth + 1).value;
            (RestoreEntries(ms, Keys(ms), [], r, jsonStr, depth + 2) == entries
             <==> forall i :: 0 <= i < |entries| ==> UndoneEntry(entries[i], p, key, business, depth + 1))
    decreases entries, 0
  {
    MaskEntriesShape(entries, entries, [], p, r, key, business, depth + 1);
    var ms := MaskEntries(entries, [], p, key, business, depth + 1).value;
    MaskedKeysBack(entries, ms, p, r);
    ObjectIff(entries, ms, r, jsonStr, depth + 2);
    forall i | 0 <= i < |entries|
      ensures RestoreValue(ms[i], r, jsonStr, depth + 2) == entries[i].value <==> UndoneEntry(entries[i], p, key, business, depth + 1)
    {
      UndoneValue(entries[i], ms[i], p, r, jsonStr, key, business, depth + 1);
    }
  }

  lemma {:induction false} UndoneValue(e: Entry, m: Entry, p: Policy, r: Restorer, jsonStr: string -> bool,
                                       key: Option<string>, business: bool, depth: nat)
    requires Invertible(e.value, p, r) && EarlyOut(r) && MaskedValue(e, p, key, business, depth) == Ok(m.value)
    ensures RestoreValue(m, r, jsonStr, depth + 1) == e.value <==> UndoneEntry(e, p, key, business, depth)
    decreases e, 0
  {
    if e.value.Str? { InvertsEither(e.value.s, p, r, jsonStr(m.key)); }
    else { UndoneIff(e.value, p, r, jsonStr, Some(e.key), key, business || p.business(e.key), depth); }
  }

  lemma {:induction false} RootIff(es: seq<Entry>, p: Policy, r: Restorer, jsonStr: string -> bool)
    requires Invertible(Obj(es), p, r) && EarlyOut(r) && MaskRoot(es, [], p).Ok?
    ensures RestoreBody(Obj(MaskRoot(es, [], p).value), r, jsonStr) == Obj(es)
       <==> forall i :: 0 <= i < |es| ==> RootUndone(es[i], p)
  {
    RootShape(es, es, [], p, r);
    var ms := MaskRoot(es, [], p).value;
    RootKeysBack(es, ms, p, r);
    ObjectIff(es, ms, r, jsonStr, 1);
    forall i | 0 <= i < |es| ensures RestoreValue(ms[i], r, jsonStr, 1) == es[i].value <==> RootUndone(es[i], p) {
      RootUndoneValue(es[i], ms[i], p, r, jsonStr);
    }
  }

  lemma {:induction false} RootUndoneValue(e: Entry, m: Entry, p: Policy, r: Restorer, jsonStr: string -> bool)
    requires Invertible(e.value, p, r) && EarlyOut(r) && MaskTree(e.value, p, Some(e.key), None, false, 0) == Ok(m.value)
    ensures RestoreValue(m, r, jsonStr, 1) == e.value <==> RootUndone(e, p)
  {
    if e.value.Str? { InvertsEither(e.value.s, p, r, jsonStr(m.key)); }
    else { UndoneIff(e.value, p, r, jsonStr, Some(e.key), None, false, 0); }
  }

  /**
   Exactly when a body comes back: a body that is no object always, an object if and only
   if nothing is rewritten at the deepest level that masking reaches, which is one level
   below the deepest that is restored.
   */
  lemma {:induction false} BodyRoundTripIff(j: Json, p: Policy, r: Restorer, jsonStr: string -> bool)
    requires Invertible(j, p, r) && EarlyOut(r) && MaskBody(j, p).Ok?
    ensures RestoreBody(MaskBody(j, p).value, r, jsonStr) == j
       <==> (j.Obj? ==> forall i :: 0 <= i < |j.entries| ==> RootUndone(j.entries[i], p))
  {
    if j.Obj? { RootIff(j.entries, p, r, jsonStr); }
    else { TreeRoundTrip(j, p, r, jsonStr, Some(ROOT_WRAP_KEY), None, false, 0); }
  }

  ghost predicate RootUndone(e: Entry, p: Policy) { e.value.Str? || Undone(e.value, p, Some(e.key), None, false, 0) }

  /** A string inside n arrays. */
  function Nest(n: nat, s: string): Json { if n == 0 then Str(s) else Arr([Nest(n - 1, s)]) }

  lemma {:induction false} OneMasked(j: Json, m: Json, p: Policy, key: Option<string>, depth: nat)
    requires MaskTree(j, p, key, None, false, depth) == Ok(m)
    ensures MaskItems([j], p, key, None, false, depth) == Ok([m])
  {
    var items := [j];
    assert items[0] == j && items[1..] == [];
    assert [m] + [] == [m];
    assert MaskItems(items, p, key, None, false, depth) == Ok([m]);
  }

  lemma {:induction false} OneRestored(j: Json, r: Restorer, jsonStr: string -> bool, depth: nat)
    ensures RestoreItems([j], r, jsonStr, depth) == [RestoreTree(j, r, jsonStr, depth)]
  {
    var items := [j];
    assert items[0] == j && items[1..] == [];
    assert RestoreItems(items, r, jsonStr, depth) == [RestoreTree(j, r, jsonStr, depth)] + [];
  }

  lemma {:induction false} NestMasked(n: nat, s: string, p: Policy, key: Option<string>, depth: nat)
    requires depth + n <= MASK_MAX_DEPTH && !p.verbatim(s) && !p.leafExempt(key, None, false)
    ensures MaskTree(Nest(n, s), p, key, None, false, depth) == Ok(Nest(n, p.mask(s)))
    decreases n
  {
    if n > 0 {
      NestMasked(n - 1, s, p, key, depth + 1);
      OneMasked(Nest(n - 1, s), Nest(n - 1, p.mask(s)), p, key, depth + 1);
    }
  }

  lemma {:induction false} NestRestored(n: nat, t: string, r: Restorer, jsonStr: string -> bool, depth: nat)
    requires depth <= RESTORE_MAX_DEPTH + 1
    ensures RestoreTree(Nest(n, t), r, jsonStr, depth)
         == Nest(n, if depth + n <= RESTORE_MAX_DEPTH then r(t, false) else t)
    decreases n
  {
    if n > 0 && depth <= RESTORE_MAX_DEPTH {
      NestRestored(n - 1, t, r, jsonStr, depth + 1);
      OneRestored(Nest(n - 1, t), r, jsonStr, depth + 1);
    }
  }

  lemma {:induction false} NestInjective(n: nat, s: string, t: string)
    ensures Nest(n, s) == Nest(n, t) <==> s == t
  {
    if n > 0 {
      NestInjective(n - 1, s, t);
      assert Nest(n, s).items[0] == Nest(n - 1, s) && Nest(n, t).items[0] == Nest(n - 1, t);
    }
  }

  /**
   The body is masked one level deeper than it is restored: of the nestings that masking
   accepts, a rewritten string comes back if and only if it is not at the deepest one.
   */
  lemma {:induction false} DeepestLevelIff(n: nat, k: string, s: string, p: Policy, r: Restorer, jsonStr: string -> bool)
    requires n <= MASK_MAX_DEPTH && p.protectedKey(k) && '_' !in k && '{' !in k
    requires !p.verbatim(s) && !p.leafExempt(Some(k), None, false)
    requires p.mask(s) != s && Inverts(s, p, r)
    ensures var body := Obj([Entry(k, Nest(n, s))]);
            && MaskBody(body, p).Ok?
            && (RestoreBody(MaskBody(body, p).value, r, jsonStr) == body <==> n < MASK_MAX_DEPTH)
  {
    var t := p.mask(s);
    var e := Entry(k, Nest(n, s));
    var m := Entry(k, Nest(n, t));
    NestMasked(n, s, p, Some(k), 0);
    assert [e][1..] == [];
    assert MaskRoot([e], [], p) == Ok([m]);
    NestRestored(n, t, r, jsonStr, 1);
    var back := if 1 + n <= RESTORE_MAX_DEPTH || n == 0 then s else t;
    InvertsEither(s, p, r, jsonStr(k));
    assert RestoreValue(m, r, jsonStr, 1) == Nest(n, back);
    assert [m][1..] == [];
    assert RestoreEntries([m], Keys([m]), [], r, jsonStr, 1) == [Entry(k, Nest(n, back))];
    NestInjective(n, back, s);
  }
}
