/**
 What masking a body is for: every string, every number and every key that no table exempts has
 been through the text masker, and what a table exempts is left as it was.
 */
module TreeMasked {
  import opened Wrappers
  import opened Tree
  import TreeBody

  /** How a text may look after masking, given how it looked before. */
  type Standard = (string, string) -> bool

  /** The text masker meets the standard. */
  ghost predicate Meets(p: Policy, std: Standard) { forall s :: std(s, p.mask(s)) }

  /** A leaf that was a text: left alone if exempt, up to standard otherwise. */
  ghost predicate TextDone(s: string, m: Json, exempt: bool, std: Standard) {
    m.Str? && if exempt then m.s == s else std(s, m.s)
  }

  /** A number may stay a number if the masker finds nothing in it. */
  ghost predicate NumberDone(text: string, m: Json, exempt: bool, std: Standard) {
    if exempt then m == Num(text) else (m.Str? && std(text, m.s)) || (m == Num(text) && std(text, text))
  }

  /** The masked tree beside the tree: key, parent key and business zone are those of the original path. */
  ghost predicate Done(j: Json, m: Json, p: Policy, std: Standard, key: Option<string>, parent: Option<string>, business: bool)
    decreases j, 1
  {
    match j
    case Str(s) => TextDone(s, m, p.verbatim(s) || p.leafExempt(key, parent, business), std)
    case Num(text) => NumberDone(text, m, (key.Some? && p.numericExempt(key.value)) || p.leafExempt(key, parent, business), std)
    case Arr(items) =>
      m.Arr? && |m.items| == |items| && forall i :: 0 <= i < |items| ==> Done(items[i], m.items[i], p, std, key, parent, business)
    case Obj(es) =>
      if !business && key.Some? && p.skipSubtree(key.value) then m == j
      else m.Obj? && forall k :: 0 <= k < |m.entries| ==> EntryDone(es, m.entries[k], p, std, key, business)
    case _ => m == j
  }

  ghost predicate KeyDone(k: string, mk: string, p: Policy, std: Standard) { if p.protectedKey(k) then mk == k else std(k, mk) }

  /** One masked entry comes from one of the given ones. */
  ghost predicate EntryDone(es: seq<Entry>, e: Entry, p: Policy, std: Standard, key: Option<string>, business: bool)
    decreases es, 0
  {
    exists i :: 0 <= i < |es| && KeyDone(es[i].key, e.key, p, std)
                && Done(es[i].value, e.value, p, std, Some(es[i].key), key, business || p.business(es[i].key))
  }

  ghost predicate EntriesDone(es: seq<Entry>, ms: seq<Entry>, p: Policy, std: Standard, key: Option<string>, business: bool) {
    forall k :: 0 <= k < |ms| ==> EntryDone(es, ms[k], p, std, key, business)
  }

  /** An insertion replaces an entry or adds one. */
  lemma {:induction false} InsertDone(es: seq<Entry>, out: seq<Entry>, e: Entry, p: Policy, std: Standard, key: Option<string>, business: bool)
    requires EntriesDone(es, out, p, std, key, business) && EntryDone(es, e, p, std, key, business)
    ensures EntriesDone(es, Insert(out, e.key, e.value), p, std, key, business)
  {
    assert e == Entry(e.key, e.value);
    if out != [] && out[0].key != e.key {
      var rest := out[1..];
      forall k | 0 <= k < |rest| ensures EntryDone(es, rest[k], p, std, key, business) {
        assert EntryDone(es, out[k + 1], p, std, key, business);
      }
      InsertDone(es, rest, e, p, std, key, business);
      assert EntryDone(es, out[0], p, std, key, business);
    } else if out != [] {
      forall k | 0 < k < |out| ensures EntryDone(es, ([e] + out[1..])[k], p, std, key, business) {
        assert EntryDone(es, out[k], p, std, key, business);
      }
    }
  }

  /** Whenever masking a tree succeeds, nothing in it that is not exempt is as it was found, unless the masker leaves it so. */
  lemma {:induction false} MaskTreeDone(j: Json, p: Policy, std: Standard, key: Option<string>, parent: Option<string>,
                                        business: bool, depth: nat)
    requires Meets(p, std) && MaskTree(j, p, key, parent, business, depth).Ok?
    ensures Done(j, MaskTree(j, p, key, parent, business, depth).value, p, std, key, parent, business)
    decreases j, 1
  {
    match j
    case Num(text) => assert std(text, p.mask(text));
    case Arr(items) =>
      MaskItemsShape(items, p, key, parent, business, depth + 1);
      forall i | 0 <= i < |items|
        ensures Done(items[i], MaskItems(items, p, key, parent, business, depth + 1).value[i], p, std, key, parent, business)
      {
        MaskTreeDone(items[i], p, std, key, parent, business, depth + 1);
      }
    case Obj(es) =>
      if business || key.None? || !p.skipSubtree(key.value) {
        MaskEntriesDone(es, 0, [], p, std, key, business, depth + 1);
        assert es[0..] == es;
      }
    case _ =>
  }

  lemma {:induction false} MaskEntriesDone(all: seq<Entry>, n: nat, out: seq<Entry>, p: Policy, std: Standard, key: Option<string>,
                                           business: bool, depth: nat)
    requires Meets(p, std) && n <= |all| && EntriesDone(all, out, p, std, key, business)
    requires MaskEntries(all[n..], out, p, key, business, depth).Ok?
    ensures EntriesDone(all, MaskEntries(all[n..], out, p, key, business, depth).value, p, std, key, business)
    decreases all, 0, |all| - n
  {
    if n < |all| {
      var k := all[n].key;
      assert all[n..][0] == all[n] && all[n..][1..] == all[n + 1..];
      MaskTreeDone(all[n].value, p, std, Some(k), key, business || p.business(k), depth);
      var e := Entry(MaskKey(k, p), MaskedValue(all[n], p, key, business, depth).value);
      assert EntryDone(all, e, p, std, key, business);
      InsertDone(all, out, e, p, std, key, business);
      MaskEntriesDone(all, n + 1, Insert(out, e.key, e.value), p, std, key, business, depth);
    }
  }

  // -------------------------------------------------------- exactly when it succeeds

  function Most(a: nat, b: nat): nat { if a < b then b else a }

  /** How many levels of the tree masking walks down; a subtree that is skipped is not walked. */
  function Levels(j: Json, p: Policy, key: Option<string>, business: bool): nat
    decreases j, 1
  {
    match j
    case Arr(items) => ItemLevels(items, p, key, business)
    case Obj(es) => if !business && key.Some? && p.skipSubtree(key.value) then 0 else EntryLevels(es, p, business)
    case _ => 0
  }

  function ItemLevels(items: seq<Json>, p: Policy, key: Option<string>, business: bool): nat
    decreases items, 0
  {
    if items == [] then 0 else Most(1 + Levels(items[0], p, key, business), ItemLevels(items[1..], p, key, business))
  }

  function EntryLevels(es: seq<Entry>, p: Policy, business: bool): nat
    decreases es, 0
  {
    if es == [] then 0
    else Most(1 + Levels(es[0].value, p, Some(es[0].key), business || p.business(es[0].key)), EntryLevels(es[1..], p, business))
  }

  /** Masking fails only for a tree that is too deep. */
  lemma {:induction false} MaskTreeOkIff(j: Json, p: Policy, key: Option<string>, parent: Option<string>, business: bool, depth: nat)
    ensures MaskTree(j, p, key, parent, business, depth).Ok? <==> depth + Levels(j, p, key, business) <= MASK_MAX_DEPTH
    decreases j, 1
  {
    match j
    case Arr(items) => if depth <= MASK_MAX_DEPTH { MaskItemsOkIff(items, p, key, parent, business, depth); }
    case Obj(es) => if depth <= MASK_MAX_DEPTH { MaskEntriesOkIff(es, [], p, key, business, depth); }
    case _ =>
  }

  lemma {:induction false} MaskItemsOkIff(items: seq<Json>, p: Policy, key: Option<string>, parent: Option<string>, business: bool, depth: nat)
    requires depth <= MASK_MAX_DEPTH
    ensures MaskItems(items, p, key, parent, business, depth + 1).Ok? <==> depth + ItemLevels(items, p, key, business) <= MASK_MAX_DEPTH
    decreases items, 0
  {
    if items != [] {
      MaskTreeOkIff(items[0], p, key, parent, business, depth + 1);
      MaskItemsOkIff(items[1..], p, key, parent, business, depth);
    }
  }

  lemma {:induction false} MaskEntriesOkIff(es: seq<Entry>, out: seq<Entry>, p: Policy, key: Option<string>, business: bool, depth: nat)
    requires depth <= MASK_MAX_DEPTH
    ensures MaskEntries(es, out, p, key, business, depth + 1).Ok? <==> depth + EntryLevels(es, p, business) <= MASK_MAX_DEPTH
    decreases es, 0
  {
    if es != [] {
      var k := es[0].key;
      MaskTreeOkIff(es[0].value, p, Some(k), key, business || p.business(k), depth + 1);
      var m := MaskTree(es[0].value, p, Some(k), key, business || p.business(k), depth + 1);
      if m.Ok? { MaskEntriesOkIff(es[1..], Insert(out, MaskKey(k, p), m.value), p, key, business, depth); }
    }
  }

  // ------------------------------------------------------------------- a whole body

  /** A member of the root: no parent, no business zone, and the wrap key is never masked. */
  ghost predicate MemberDone(es: seq<Entry>, e: Entry, p: Policy, std: Standard) {
    exists i :: 0 <= i < |es| && (if es[i].key == TreeBody.ROOT_WRAP_KEY then e.key == es[i].key else KeyDone(es[i].key, e.key, p, std))
                && Done(es[i].value, e.value, p, std, Some(es[i].key), None, false)
  }

  ghost predicate BodyDone(j: Json, m: Json, p: Policy, std: Standard) {
    if j.Obj? then m.Obj? && forall k :: 0 <= k < |m.entries| ==> MemberDone(j.entries, m.entries[k], p, std)
    else Done(j, m, p, std, Some(TreeBody.ROOT_WRAP_KEY), None, false)
  }

  ghost predicate MembersDone(es: seq<Entry>, ms: seq<Entry>, p: Policy, std: Standard) {
    forall k :: 0 <= k < |ms| ==> MemberDone(es, ms[k], p, std)
  }

  lemma {:induction false} InsertMember(es: seq<Entry>, out: seq<Entry>, e: Entry, p: Policy, std: Standard)
    requires MembersDone(es, out, p, std) && MemberDone(es, e, p, std)
    ensures MembersDone(es, Insert(out, e.key, e.value), p, std)
  {
    assert e == Entry(e.key, e.value);
    if out != [] && out[0].key != e.key {
      var rest := out[1..];
      forall k | 0 <= k < |rest| ensures MemberDone(es, rest[k], p, std) { assert MemberDone(es, out[k + 1], p, std); }
      InsertMember(es, rest, e, p, std);
      assert MemberDone(es, out[0], p, std);
    } else if out != [] {
      forall k | 0 < k < |out| ensures MemberDone(es, ([e] + out[1..])[k], p, std) { assert MemberDone(es, out[k], p, std); }
    }
  }

  lemma {:induction false} MaskRootDone(all: seq<Entry>, n: nat, out: seq<Entry>, p: Policy, std: Standard)
    requires Meets(p, std) && n <= |all| && MembersDone(all, out, p, std) && TreeBody.MaskRoot(all[n..], out, p).Ok?
    ensures MembersDone(all, TreeBody.MaskRoot(all[n..], out, p).value, p, std)
    decreases |all| - n
  {
    if n < |all| {
      assert all[n..][0] == all[n] && all[n..][1..] == all[n + 1..];
      MaskTreeDone(all[n].value, p, std, Some(all[n].key), None, false, 0);
      var e := Entry(TreeBody.RootKey(all[n].key, p), MaskTree(all[n].value, p, Some(all[n].key), None, false, 0).value);
      assert MemberDone(all, e, p, std);
      InsertMember(all, out, e, p, std);
      MaskRootDone(all, n + 1, Insert(out, e.key, e.value), p, std);
    }
  }

  /** The same for a request body. */
  lemma {:induction false} MaskBodyDone(j: Json, p: Policy, std: Standard)
    requires Meets(p, std) && TreeBody.MaskBody(j, p).Ok?
    ensures BodyDone(j, TreeBody.MaskBody(j, p).value, p, std)
  {
    if j.Obj? {
      MaskRootDone(j.entries, 0, [], p, std);
      assert j.entries[0..] == j.entries;
    } else {
      MaskTreeDone(j, p, std, Some(TreeBody.ROOT_WRAP_KEY), None, false, 0);
    }
  }

  /** The masker finds nothing more in the text. */
  function Settled(p: Policy): Standard { (_, out) => p.mask(out) == out }

  /** With a masker that leaves what it has masked alone, no text of the body that is not exempt would be masked again. */
  lemma {:induction false} BodySettled(j: Json, p: Policy)
    requires (forall s :: p.mask(p.mask(s)) == p.mask(s)) && TreeBody.MaskBody(j, p).Ok?
    ensures BodyDone(j, TreeBody.MaskBody(j, p).value, p, Settled(p))
  {
    MaskBodyDone(j, p, Settled(p));
  }

  /** The text is exactly what the masker makes of the original. */
  function AsMasked(p: Policy): Standard { (s, out) => out == p.mask(s) }

  /** Any masker: every text of the body that is not exempt is what the masker makes of the one it stands for. */
  lemma {:induction false} BodyAsMasked(j: Json, p: Policy)
    requires TreeBody.MaskBody(j, p).Ok?
    ensures BodyDone(j, TreeBody.MaskBody(j, p).value, p, AsMasked(p))
  {
    MaskBodyDone(j, p, AsMasked(p));
  }

  // ------------------------------------------------------------------------ numbers

  /** A number comes back as a number if and only if it was exempt or nothing was found in it, and as its text otherwise. */
  lemma {:induction false} NumberRoundTrip(text: string, p: Policy, r: Restorer, jsonStr: string -> bool, key: Option<string>,
                                           parent: Option<string>, business: bool, depth: nat)
    requires Inverts(text, p, r) && depth <= MASK_MAX_DEPTH
    ensures var m := MaskTree(Num(text), p, key, parent, business, depth);
            var whole := (key.Some? && p.numericExempt(key.value)) || p.leafExempt(key, parent, business) || p.mask(text) == text;
            m.Ok? && RestoreTree(m.value, r, jsonStr, depth) == (if whole then Num(text) else Str(text))
  {
    var m := MaskTree(Num(text), p, key, parent, business, depth);
    assert m.value == Num(text) || m.value == Str(p.mask(text));
  }
}
