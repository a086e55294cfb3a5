/**
 Whole events: the listings of src/stream/slots.rs for every protocol family put together,
 `set_slot` by channel, and the theorem that they obey the lens laws of the event layer.
 */
module SlotEvents {
  import opened Wrappers
  import opened Placeholders
  import opened Tree
  import opened Sse
  import opened Slots

  // -------------------------------------------------------------- prefixed listings

  /** The same texts under longer channel names. */
  function Prefixed(p: string, slots: seq<Slot>): (r: seq<Slot>)
    ensures |r| == |slots| && forall i :: 0 <= i < |slots| ==> r[i] == Slot(p + slots[i].channel, slots[i].text, slots[i].escape)
  {
    seq(|slots|, i requires 0 <= i < |slots| => Slot(p + slots[i].channel, slots[i].text, slots[i].escape))
  }

  lemma {:induction false} PrefixedListed(p: string, slots: seq<Slot>, f: string)
    ensures Lists(Prefixed(p, slots), p + f) <==> Lists(slots, f)
  {
    var r := Prefixed(p, slots);
    if i :| 0 <= i < |slots| && slots[i].channel == f { assert r[i].channel == p + f; }
    if i :| 0 <= i < |r| && r[i].channel == p + f { SamePrefixed(p, slots[i].channel, f); }
  }

  lemma {:induction false} PutPrefixed(p: string, slots: seq<Slot>, f: string, t: string)
    ensures PutText(Prefixed(p, slots), p + f, t) == Prefixed(p, PutText(slots, f, t))
  {
    PutTextAt(Prefixed(p, slots), p + f, t);
    PutTextAt(slots, f, t);
    forall i | 0 <= i < |slots| ensures (slots[i].channel == f) <==> (p + slots[i].channel == p + f) {
      if p + slots[i].channel == p + f { SamePrefixed(p, slots[i].channel, f); }
    }
  }

  /** `{letter}{number}.` */
  function Numbered(letter: string, n: nat): string { letter + (Decimal(n) + ".") }

  /** A numbered channel is taken apart at its first dot. */
  lemma {:induction false} TakeApart(letter: string, n: nat, f: string)
    requires |letter| == 1
    ensures var ch := Numbered(letter, n) + f;
            var rest := ch[1..];
            && ch[0] == letter[0] && Dot(rest) < |rest| && rest[..Dot(rest)] == Decimal(n) && rest[Dot(rest) + 1..] == f
            && Parse(rest[..Dot(rest)]) == Some(n)
  {
    var ch := Numbered(letter, n) + f;
    DecimalParses(n);
    assert ch[1..] == Decimal(n) + ("." + f);
    DotAfterDigits(Decimal(n), f);
  }

  lemma {:induction false} NumberedDiffers(letter: string, m: nat, n: nat, f: string, g: string)
    requires |letter| == 1 && m != n
    ensures Numbered(letter, m) + f != Numbered(letter, n) + g
  {
    TakeApart(letter, m, f);
    TakeApart(letter, n, g);
  }

  // ------------------------------------------------------------------------ choices

  function ChoiceNo(num: Reading, c: Json, at: nat): nat { IndexAt(num, c, "index", at) }

  function ChoiceFields(num: Reading, c: Json): seq<Slot> {
    var d := Get(c, "delta");
    (if d.Some? then DeltaFields(num, d.value) else []) + Field("text", StrAt(c, "text"), false)
  }

  function Choices(num: Reading, items: seq<Json>, at: nat): seq<Slot> {
    if items == [] then []
    else Prefixed(Numbered("c", ChoiceNo(num, items[0], at)), ChoiceFields(num, items[0])) + Choices(num, items[1..], at + 1)
  }

  function SetChoice(num: Reading, c: Json, f: string, t: string): Json {
    var d := Get(c, "delta");
    if KindOf(f).Text? then (if c.Obj? then Put(c, "text", Str(t)) else c)
    else if c.Obj? && d.Some? && d.value.Obj? then Put(c, "delta", SetDelta(num, d.value, f, t))
    else c
  }

  /** The first choice with the number is written. */
  function SetChoices(num: Reading, items: seq<Json>, at: nat, n: nat, f: string, t: string): seq<Json> {
    if items == [] then []
    else if ChoiceNo(num, items[0], at) == n then [SetChoice(num, items[0], f, t)] + items[1..]
    else [items[0]] + SetChoices(num, items[1..], at + 1, n, f, t)
  }

  ghost predicate GoodChoice(num: Reading, c: Json) { Get(c, "delta").Some? ==> GoodDelta(num, Get(c, "delta").value) }

  ghost predicate NoChoice(num: Reading, items: seq<Json>, at: nat, n: nat) {
    forall i :: 0 <= i < |items| ==> ChoiceNo(num, items[i], at + i) != n
  }

  /** No two choices have the same number. */
  ghost predicate GoodChoices(num: Reading, items: seq<Json>, at: nat)
    decreases |items|
  {
    items != [] ==> GoodChoice(num, items[0]) && NoChoice(num, items[1..], at + 1, ChoiceNo(num, items[0], at))
                    && GoodChoices(num, items[1..], at + 1)
  }

  lemma {:induction false} PutGetOther(c: Json, k: string, v: Json, k': string)
    requires c.Obj?
    ensures Get(Put(c, k, v), k') == if k' == k then Some(v) else Get(c, k')
  {
    FindInsert(c.entries, k, v, k');
  }

  /** What writing a listed field of a choice has to do. */
  ghost predicate ChoiceLaw(num: Reading, c: Json, c': Json, at: nat, f: string, t: string) {
    && GoodChoice(num, c') && ChoiceNo(num, c', at) == ChoiceNo(num, c, at)
    && ChoiceFields(num, c') == PutText(ChoiceFields(num, c), f, t)
  }

  lemma {:induction false} SetInDelta(num: Reading, c: Json, at: nat, d: Json, f: string, t: string)
    requires Get(c, "delta") == Some(d) && GoodDelta(num, d) && Lists(DeltaFields(num, d), f)
    ensures KindOf(f) != Text && d.Obj? && ChoiceLaw(num, c, Put(c, "delta", SetDelta(num, d, f, t)), at, f, t)
  {
    var a, b := DeltaFields(num, d), Field("text", StrAt(c, "text"), false);
    FieldKinds();
    SetDeltaLaw(num, d, f, t);
    PutConcat(a, b, f, t);
    FieldListed("text", StrAt(c, "text"), false, f, t);
    PutNothing(b, f, t);
    var v := SetDelta(num, d, f, t);
    PutGetOther(c, "delta", v, "delta");
    PutGetOther(c, "delta", v, "text");
    PutGetOther(c, "delta", v, "index");
  }

  lemma {:induction false} SetChoiceText(num: Reading, c: Json, at: nat, t: string)
    requires GoodChoice(num, c) && StrAt(c, "text").Some?
    requires Get(c, "delta").Some? ==> !Lists(DeltaFields(num, Get(c, "delta").value), "text")
    ensures ChoiceLaw(num, c, Put(c, "text", Str(t)), at, "text", t)
  {
    var d := Get(c, "delta");
    var a, b := if d.Some? then DeltaFields(num, d.value) else [], Field("text", StrAt(c, "text"), false);
    PutConcat(a, b, "text", t);
    FieldListed("text", StrAt(c, "text"), false, "text", t);
    PutNothing(a, "text", t);
    PutGetOther(c, "text", Str(t), "delta");
    PutGetOther(c, "text", Str(t), "text");
    PutGetOther(c, "text", Str(t), "index");
  }

  lemma {:induction false} SetChoiceLaw(num: Reading, c: Json, at: nat, f: string, t: string)
    requires GoodChoice(num, c) && Lists(ChoiceFields(num, c), f)
    ensures ChoiceLaw(num, c, SetChoice(num, c, f, t), at, f, t)
  {
    var d := Get(c, "delta");
    var a, b := if d.Some? then DeltaFields(num, d.value) else [], Field("text", StrAt(c, "text"), false);
    ListsConcat(a, b, f);
    FieldListed("text", StrAt(c, "text"), false, f, t);
    if Lists(a, f) {
      SetInDelta(num, c, at, d.value, f, t);
    } else {
      FieldKinds();
      SetChoiceText(num, c, at, t);
    }
  }

  /** Channels of other choices are not this one's. */
  lemma {:induction false} NoChoiceUnlisted(num: Reading, items: seq<Json>, at: nat, n: nat, f: string)
    requires NoChoice(num, items, at, n)
    ensures !Lists(Choices(num, items, at), Numbered("c", n) + f)
  {
    if items != [] {
      var no := ChoiceNo(num, items[0], at);
      var head := Prefixed(Numbered("c", no), ChoiceFields(num, items[0]));
      assert ChoiceNo(num, items[0], at + 0) != n;
      forall i | 0 <= i < |items[1..]| ensures ChoiceNo(num, items[1..][i], at + 1 + i) != n {
        assert ChoiceNo(num, items[i + 1], at + (i + 1)) != n;
      }
      NoChoiceUnlisted(num, items[1..], at + 1, n, f);
      ListsConcat(head, Choices(num, items[1..], at + 1), Numbered("c", n) + f);
      if i :| 0 <= i < |head| && head[i].channel == Numbered("c", n) + f {
        NumberedDiffers("c", no, n, ChoiceFields(num, items[0])[i].channel, f);
      }
    }
  }

  /** A listed chat channel is a number and a field. */
  lemma {:induction false} ChoicesListed(num: Reading, items: seq<Json>, at: nat, ch: string) returns (n: nat, f: string)
    requires Lists(Choices(num, items, at), ch)
    ensures ch == Numbered("c", n) + f
  {
    n := ChoiceNo(num, items[0], at);
    var head := Prefixed(Numbered("c", n), ChoiceFields(num, items[0]));
    ListsConcat(head, Choices(num, items[1..], at + 1), ch);
    if Lists(head, ch) {
      var i :| 0 <= i < |head| && head[i].channel == ch;
      f := ChoiceFields(num, items[0])[i].channel;
    } else {
      n, f := ChoicesListed(num, items[1..], at + 1, ch);
    }
  }

  lemma {:induction false} SameNumbers(num: Reading, a: seq<Json>, b: seq<Json>, at: nat, n: nat)
    requires |a| == |b| && forall i :: 0 <= i < |a| ==> ChoiceNo(num, b[i], at + i) == ChoiceNo(num, a[i], at + i)
    requires NoChoice(num, a, at, n)
    ensures NoChoice(num, b, at, n)
  {
    forall i | 0 <= i < |b| ensures ChoiceNo(num, b[i], at + i) != n { assert ChoiceNo(num, a[i], at + i) != n; }
  }

  /** What writing a listed chat channel has to do to the choices. */
  ghost predicate ChoicesLaw(num: Reading, items: seq<Json>, out: seq<Json>, at: nat, ch: string, t: string) {
    && Choices(num, out, at) == PutText(Choices(num, items, at), ch, t)
    && GoodChoices(num, out, at)
    && |out| == |items| && forall i :: 0 <= i < |items| ==> ChoiceNo(num, out[i], at + i) == ChoiceNo(num, items[i], at + i)
  }

  lemma {:induction false} SetFirstChoice(num: Reading, items: seq<Json>, at: nat, n: nat, f: string, t: string)
    requires items != [] && GoodChoices(num, items, at) && ChoiceNo(num, items[0], at) == n && Lists(ChoiceFields(num, items[0]), f)
    ensures ChoicesLaw(num, items, [SetChoice(num, items[0], f, t)] + items[1..], at, Numbered("c", n) + f, t)
  {
    var ch := Numbered("c", n) + f;
    var head, rest := Prefixed(Numbered("c", n), ChoiceFields(num, items[0])), Choices(num, items[1..], at + 1);
    var out := [SetChoice(num, items[0], f, t)] + items[1..];
    PutConcat(head, rest, ch, t);
    NoChoiceUnlisted(num, items[1..], at + 1, n, f);
    PutNothing(rest, ch, t);
    SetChoiceLaw(num, items[0], at, f, t);
    PutPrefixed(Numbered("c", n), ChoiceFields(num, items[0]), f, t);
    assert out[1..] == items[1..];
  }

  lemma {:induction false} SetLaterChoice(num: Reading, items: seq<Json>, tail: seq<Json>, at: nat, n: nat, f: string, t: string)
    requires items != [] && GoodChoices(num, items, at) && ChoiceNo(num, items[0], at) != n
    requires ChoicesLaw(num, items[1..], tail, at + 1, Numbered("c", n) + f, t)
    ensures ChoicesLaw(num, items, [items[0]] + tail, at, Numbered("c", n) + f, t)
  {
    var ch, no := Numbered("c", n) + f, ChoiceNo(num, items[0], at);
    var head, rest := Prefixed(Numbered("c", no), ChoiceFields(num, items[0])), Choices(num, items[1..], at + 1);
    var out := [items[0]] + tail;
    PutConcat(head, rest, ch, t);
    NotInHead(num, items[0], no, n, f);
    PutNothing(head, ch, t);
    assert out[1..] == tail;
    SameNumbers(num, items[1..], tail, at + 1, no);
    forall i | 0 <= i < |items| ensures ChoiceNo(num, out[i], at + i) == ChoiceNo(num, items[i], at + i) {
      if i > 0 { assert ChoiceNo(num, tail[i - 1], at + 1 + (i - 1)) == ChoiceNo(num, items[1..][i - 1], at + 1 + (i - 1)); }
    }
  }

  lemma {:induction false} NotInHead(num: Reading, c: Json, no: nat, n: nat, f: string)
    requires no != n
    ensures !Lists(Prefixed(Numbered("c", no), ChoiceFields(num, c)), Numbered("c", n) + f)
  {
    var head := Prefixed(Numbered("c", no), ChoiceFields(num, c));
    forall i | 0 <= i < |head| ensures head[i].channel != Numbered("c", n) + f {
      NumberedDiffers("c", no, n, ChoiceFields(num, c)[i].channel, f);
    }
  }

  lemma {:induction false} SetChoicesLaw(num: Reading, items: seq<Json>, at: nat, n: nat, f: string, t: string)
    requires GoodChoices(num, items, at) && Lists(Choices(num, items, at), Numbered("c", n) + f)
    ensures ChoicesLaw(num, items, SetChoices(num, items, at, n, f, t), at, Numbered("c", n) + f, t)
    decreases |items|
  {
    var ch, no := Numbered("c", n) + f, ChoiceNo(num, items[0], at);
    ListsConcat(Prefixed(Numbered("c", no), ChoiceFields(num, items[0])), Choices(num, items[1..], at + 1), ch);
    if no == n {
      NoChoiceUnlisted(num, items[1..], at + 1, n, f);
      PrefixedListed(Numbered("c", n), ChoiceFields(num, items[0]), f);
      SetFirstChoice(num, items, at, n, f, t);
    } else {
      NotInHead(num, items[0], no, n, f);
      SetChoicesLaw(num, items[1..], at + 1, n, f, t);
      SetLaterChoice(num, items, SetChoices(num, items[1..], at + 1, n, f, t), at, n, f, t);
    }
  }

  // ----------------------------------------------- objects with a few named texts

  /** Channel field, JSON key, escape flag. */
  datatype Named = Named(field: string, key: string, escape: bool)

  const BLOCK: seq<Named> := [Named("text", "text", false), Named("think", "thinking", false), Named("pj", "partial_json", true)]
  const MESSAGE: seq<Named> := [Named("content", "content", false), Named("thinking", "thinking", false)]

  function NamedFields(d: Json, names: seq<Named>): seq<Slot> {
    if names == [] then [] else Field(names[0].field, StrAt(d, names[0].key), names[0].escape) + NamedFields(d, names[1..])
  }

  function ObjectFields(d: Json, names: seq<Named>, known: seq<string>): seq<Slot> {
    if d.Obj? then NamedFields(d, names) + Generic(d.entries, known) else []
  }

  function KeyOf(names: seq<Named>, f: string): string {
    if names == [] then f else if names[0].field == f then names[0].key else KeyOf(names[1..], f)
  }

  function SetObject(d: Json, names: seq<Named>, f: string, t: string): Json
    requires d.Obj?
  {
    if Begins(f, "x") then Put(d, f[1..], Str(t)) else Put(d, KeyOf(names, f), Str(t))
  }

  /** Fields and keys are all different, known, and no field begins with x. */
  ghost predicate Proper(names: seq<Named>, known: seq<string>) {
    && (forall i, j :: 0 <= i < j < |names| ==> names[i].field != names[j].field && names[i].key != names[j].key)
    && (forall i :: 0 <= i < |names| ==> names[i].key in known && !Begins(names[i].field, "x"))
  }

  lemma {:induction false} ProperRest(names: seq<Named>, known: seq<string>)
    requires names != [] && Proper(names, known)
    ensures Proper(names[1..], known) && (forall i :: 0 <= i < |names[1..]| ==> names[1..][i].field != names[0].field && names[1..][i].key != names[0].key)
  {
    var r := names[1..];
    forall i | 0 <= i < |r| ensures r[i].field != names[0].field && r[i].key != names[0].key && r[i].key in known && !Begins(r[i].field, "x") {
      assert names[0].field != names[i + 1].field && names[0].key != names[i + 1].key;
    }
    forall i, j | 0 <= i < j < |r| ensures r[i].field != r[j].field && r[i].key != r[j].key {
      assert names[i + 1].field != names[j + 1].field && names[i + 1].key != names[j + 1].key;
    }
  }

  lemma {:induction false} NamedUnlisted(d: Json, names: seq<Named>, f: string)
    requires forall i :: 0 <= i < |names| ==> names[i].field != f
    ensures !Lists(NamedFields(d, names), f)
  {
    if names != [] {
      assert names[0].field != f;
      forall i | 0 <= i < |names[1..]| ensures names[1..][i].field != f { assert names[i + 1].field != f; }
      NamedUnlisted(d, names[1..], f);
      FieldListed(names[0].field, StrAt(d, names[0].key), names[0].escape, f, "");
      ListsConcat(Field(names[0].field, StrAt(d, names[0].key), names[0].escape), NamedFields(d, names[1..]), f);
    }
  }

  /** A key that none of the names has. */
  lemma {:induction false} NamedKept(d: Json, names: seq<Named>, k: string, t: string)
    requires d.Obj? && forall i :: 0 <= i < |names| ==> names[i].key != k
    ensures NamedFields(Put(d, k, Str(t)), names) == NamedFields(d, names)
  {
    if names != [] {
      assert names[0].key != k;
      forall i | 0 <= i < |names[1..]| ensures names[1..][i].key != k { assert names[i + 1].key != k; }
      NamedKept(d, names[1..], k, t);
      PutGetOther(d, k, Str(t), names[0].key);
    }
  }

  /** A listed named field is rewritten under its key. */
  lemma {:induction false} NamedSet(d: Json, names: seq<Named>, known: seq<string>, f: string, t: string)
    requires d.Obj? && Proper(names, known) && Lists(NamedFields(d, names), f)
    ensures var k := KeyOf(names, f);
            && k in known && StrAt(d, k).Some? && !Begins(f, "x")
            && NamedFields(Put(d, k, Str(t)), names) == PutText(NamedFields(d, names), f, t)
  {
    var head, rest := Field(names[0].field, StrAt(d, names[0].key), names[0].escape), NamedFields(d, names[1..]);
    ProperRest(names, known);
    ListsConcat(head, rest, f);
    FieldListed(names[0].field, StrAt(d, names[0].key), names[0].escape, f, t);
    PutConcat(head, rest, f, t);
    if names[0].field == f {
      NamedUnlisted(d, names[1..], f);
      PutNothing(rest, f, t);
      NamedKept(d, names[1..], names[0].key, t);
      PutString(d, names[0].key, t);
    } else {
      NamedSet(d, names[1..], known, f, t);
      PutNothing(head, f, t);
      NamedKey(names[1..], f, known, names[0].key, d);
      PutGetOther(d, KeyOf(names, f), Str(t), names[0].key);
    }
  }

  /** The key of a listed field is one of the keys. */
  lemma {:induction false} NamedKey(names: seq<Named>, f: string, known: seq<string>, k: string, d: Json)
    requires Lists(NamedFields(d, names), f) && forall i :: 0 <= i < |names| ==> names[i].key != k
    ensures KeyOf(names, f) != k
  {
    if names[0].field != f {
      FieldListed(names[0].field, StrAt(d, names[0].key), names[0].escape, f, "");
      ListsConcat(Field(names[0].field, StrAt(d, names[0].key), names[0].escape), NamedFields(d, names[1..]), f);
      forall i | 0 <= i < |names[1..]| ensures names[1..][i].key != k { assert names[i + 1].key != k; }
      NamedKey(names[1..], f, known, k, d);
    }
  }

  lemma {:induction false} SetObjectLaw(d: Json, names: seq<Named>, known: seq<string>, f: string, t: string)
    requires d.Obj? && DistinctKeys(d.entries) && Proper(names, known) && Lists(ObjectFields(d, names, known), f)
    ensures var d' := SetObject(d, names, f, t);
            && d'.Obj? && DistinctKeys(d'.entries)
            && ObjectFields(d', names, known) == PutText(ObjectFields(d, names, known), f, t)
  {
    var a, b := NamedFields(d, names), Generic(d.entries, known);
    ListsConcat(a, b, f);
    PutConcat(a, b, f, t);
    if Lists(a, f) {
      NamedSet(d, names, known, f, t);
      var k := KeyOf(names, f);
      GenericInsert(d.entries, known, k, Str(t));
      InsertKeys(d.entries, k, Str(t));
      GenericKind(d.entries, known);
      NotListed(b, Other, f);
      PutNothing(b, f, t);
    } else {
      var k := GenericListed(d.entries, known, f);
      KindOfOther(k);
      GenericInsert(d.entries, known, k, Str(t));
      InsertKeys(d.entries, k, Str(t));
      forall i | 0 <= i < |names| ensures names[i].key != k {}
      NamedKept(d, names, k, t);
      PutNothing(a, f, t);
    }
  }

  // ------------------------------------------------------------------- whole events

  predicate EndsWith(s: string, e: string) { |s| >= |e| && s[|s| - |e|..] == e }

  predicate Contains(s: string, e: string) { exists i :: 0 <= i <= |s| && Begins(s[i..], e) }

  function TypeOf(d: Json): string {
    var t := StrAt(d, "type");
    if t.Some? then t.value else ""
  }

  /** The kind of channel a response event has, and its escape flag. */
  function ResponseKind(t: string): Option<(string, bool)> {
    if t == "response.output_text.delta" then Some(("text", false))
    else if t == "response.reasoning_summary_text.delta" || t == "response.reasoning_text.delta" then Some(("reason", false))
    else if t == "response.function_call_arguments.delta" then Some(("args", true))
    else if t != "" && EndsWith(t, ".delta") then Some(("gen.x" + t, Contains(t, "arguments") || Contains(t, "tool")))
    else None
  }

  /** `r{output}[.{content}].` */
  function ResponsePrefix(num: Reading, d: Json): string {
    var ci := IndexAt(num, d, "content_index", 0);
    Numbered("r", IndexAt(num, d, "output_index", 0)) + (if ci > 0 then Decimal(ci) + "." else "")
  }

  function ChoiceSlots(num: Reading, d: Json): seq<Slot> { Choices(num, ItemsAt(d, "choices"), 0) }

  function BlockSlots(num: Reading, d: Json): seq<Slot> {
    var delta := Get(d, "delta");
    if TypeOf(d) == "content_block_delta" && delta.Some?
    then Prefixed(Numbered("a", IndexAt(num, d, "index", 0)), ObjectFields(delta.value, BLOCK, BLOCK_KNOWN)) else []
  }

  function ResponseSlots(num: Reading, d: Json): seq<Slot> {
    var k := ResponseKind(TypeOf(d));
    if k.Some? then Field(ResponsePrefix(num, d) + k.value.0, StrAt(d, "delta"), k.value.1) else []
  }

  function LocalSlots(d: Json): seq<Slot> {
    var m := Get(d, "message");
    if Get(d, "done").None? then []
    else (if m.Some? then Prefixed("o.message.", ObjectFields(m.value, MESSAGE, MESSAGE_KNOWN)) else [])
         + (Field("o.response", StrAt(d, "response"), false) + Field("o.thinking", StrAt(d, "thinking"), false))
  }

  /** text_slots */
  function TextSlots(num: Reading, d: Json): seq<Slot> {
    ChoiceSlots(num, d) + (BlockSlots(num, d) + (ResponseSlots(num, d) + LocalSlots(d)))
  }

  /** set_slot */
  function SetSlot(num: Reading, d: Json, ch: string, t: string): Json {
    if !d.Obj? || ch == "" then d
    else
      var rest := ch[1..];
      var i := Dot(rest);
      if ch[0] == 'c' then
        var v := Get(d, "choices");
        if i < |rest| && Parse(rest[..i]).Some? && v.Some? && v.value.Arr?
        then Put(d, "choices", Arr(SetChoices(num, v.value.items, 0, Parse(rest[..i]).value, rest[i + 1..], t))) else d
      else if ch[0] == 'a' then
        var v := Get(d, "delta");
        if i < |rest| && v.Some? && v.value.Obj? then Put(d, "delta", SetObject(v.value, BLOCK, rest[i + 1..], t)) else d
      else if ch[0] == 'r' then Put(d, "delta", Str(t))
      else if Begins(ch, "o.message.") then
        var v := Get(d, "message");
        if v.Some? && v.value.Obj? then Put(d, "message", SetObject(v.value, MESSAGE, ch[10..], t)) else d
      else if ch == "o.response" then Put(d, "response", Str(t))
      else if ch == "o.thinking" then Put(d, "thinking", Str(t))
      else d
  }

  /** Objects have distinct keys, choices and tool calls distinct numbers. */
  ghost predicate GoodEvent(num: Reading, d: Json) {
    && GoodChoices(num, ItemsAt(d, "choices"), 0)
    && (Get(d, "delta").Some? && Get(d, "delta").value.Obj? ==> DistinctKeys(Get(d, "delta").value.entries))
    && (Get(d, "message").Some? && Get(d, "message").value.Obj? ==> DistinctKeys(Get(d, "message").value.entries))
  }

  // The four families are told apart by the first letter of the channel.

  ghost predicate AllFirst(slots: seq<Slot>, c: char) {
    forall i :: 0 <= i < |slots| ==> slots[i].channel != "" && slots[i].channel[0] == c
  }

  lemma {:induction false} PrefixedFirst(p: string, slots: seq<Slot>)
    requires p != ""
    ensures AllFirst(Prefixed(p, slots), p[0])
  {
  }

  lemma {:induction false} ChoicesFirst(num: Reading, items: seq<Json>, at: nat)
    ensures AllFirst(Choices(num, items, at), 'c')
  {
    if items != [] {
      PrefixedFirst(Numbered("c", ChoiceNo(num, items[0], at)), ChoiceFields(num, items[0]));
      ChoicesFirst(num, items[1..], at + 1);
    }
  }

  lemma {:induction false} BlocksFirst(num: Reading, d: Json)
    ensures AllFirst(BlockSlots(num, d), 'a')
  {
    var p := Numbered("a", IndexAt(num, d, "index", 0));
    assert p[0] == 'a';
    if Get(d, "delta").Some? { PrefixedFirst(p, ObjectFields(Get(d, "delta").value, BLOCK, BLOCK_KNOWN)); }
  }

  lemma {:induction false} ResponsesFirst(num: Reading, d: Json)
    ensures AllFirst(ResponseSlots(num, d), 'r')
  {
    assert ResponsePrefix(num, d)[0] == 'r';
  }

  lemma {:induction false} LocalsFirst(d: Json)
    ensures AllFirst(LocalSlots(d), 'o')
  {
    assert "o.message."[0] == 'o' && "o.response"[0] == 'o' && "o.thinking"[0] == 'o';
    if Get(d, "message").Some? { PrefixedFirst("o.message.", ObjectFields(Get(d, "message").value, MESSAGE, MESSAGE_KNOWN)); }
  }

  lemma {:induction false} OtherFamily(slots: seq<Slot>, c: char, ch: string, t: string)
    requires AllFirst(slots, c) && (ch == "" || ch[0] != c)
    ensures !Lists(slots, ch) && PutText(slots, ch, t) == slots
  {
    PutNothing(slots, ch, t);
  }

  /** A listed channel belongs to the family of its first letter, and writing it concerns no other. */
  lemma {:induction false} PutFamily(num: Reading, d: Json, ch: string, t: string)
    requires Lists(TextSlots(num, d), ch)
    ensures ch != "" && ch[0] in {'c', 'a', 'r', 'o'}
    ensures ch[0] == 'c' ==> Lists(ChoiceSlots(num, d), ch)
    ensures ch[0] == 'a' ==> Lists(BlockSlots(num, d), ch)
    ensures ch[0] == 'r' ==> Lists(ResponseSlots(num, d), ch)
    ensures ch[0] == 'o' ==> Lists(LocalSlots(d), ch)
    ensures PutText(TextSlots(num, d), ch, t)
         == PutIf(ChoiceSlots(num, d), ch[0] == 'c', ch, t)
            + (PutIf(BlockSlots(num, d), ch[0] == 'a', ch, t)
            + (PutIf(ResponseSlots(num, d), ch[0] == 'r', ch, t) + PutIf(LocalSlots(d), ch[0] == 'o', ch, t)))
  {
    var a, b, c, o := ChoiceSlots(num, d), BlockSlots(num, d), ResponseSlots(num, d), LocalSlots(d);
    ChoicesFirst(num, ItemsAt(d, "choices"), 0);
    BlocksFirst(num, d);
    ResponsesFirst(num, d);
    LocalsFirst(d);
    ListsConcat(a, b + (c + o), ch);
    ListsConcat(b, c + o, ch);
    ListsConcat(c, o, ch);
    PutConcat(a, b + (c + o), ch, t);
    PutConcat(b, c + o, ch, t);
    PutConcat(c, o, ch, t);
    if ch == "" || ch[0] != 'c' { OtherFamily(a, 'c', ch, t); }
    if ch == "" || ch[0] != 'a' { OtherFamily(b, 'a', ch, t); }
    if ch == "" || ch[0] != 'r' { OtherFamily(c, 'r', ch, t); }
    if ch == "" || ch[0] != 'o' { OtherFamily(o, 'o', ch, t); }
  }

  /** The keys the listing reads, except one. */
  ghost predicate SameBut(d: Json, d': Json, k: string) {
    && (k == "choices" || Get(d', "choices") == Get(d, "choices")) && (k == "delta" || Get(d', "delta") == Get(d, "delta"))
    && (k == "message" || Get(d', "message") == Get(d, "message")) && (k == "response" || Get(d', "response") == Get(d, "response"))
    && (k == "thinking" || Get(d', "thinking") == Get(d, "thinking"))
    && Get(d', "type") == Get(d, "type") && Get(d', "index") == Get(d, "index")
    && Get(d', "content_index") == Get(d, "content_index") && Get(d', "output_index") == Get(d, "output_index")
    && (k == "done" || Get(d', "done") == Get(d, "done"))
  }

  lemma {:induction false} PutTop(d: Json, k: string, v: Json)
    requires d.Obj? && k in ["choices", "delta", "message", "response", "thinking", "done"]
    ensures SameBut(d, Put(d, k, v), k) && Get(Put(d, k, v), k) == Some(v)
  {
    PutGetOther(d, k, v, k);
    if k != "choices" { PutGetOther(d, k, v, "choices"); }
    if k != "delta" { PutGetOther(d, k, v, "delta"); }
    if k != "message" { PutGetOther(d, k, v, "message"); }
    if k != "response" { PutGetOther(d, k, v, "response"); }
    if k != "thinking" { PutGetOther(d, k, v, "thinking"); }
    if k != "done" { PutGetOther(d, k, v, "done"); }
    PutGetOther(d, k, v, "type");
    PutGetOther(d, k, v, "index");
    PutGetOther(d, k, v, "content_index");
    PutGetOther(d, k, v, "output_index");
  }

  lemma {:induction false} SameChoices(num: Reading, d: Json, d': Json)
    requires Get(d', "choices") == Get(d, "choices")
    ensures ChoiceSlots(num, d') == ChoiceSlots(num, d)
  {
  }

  lemma {:induction false} SameBlocks(num: Reading, d: Json, d': Json)
    requires Get(d', "type") == Get(d, "type") && Get(d', "delta") == Get(d, "delta") && Get(d', "index") == Get(d, "index")
    ensures BlockSlots(num, d') == BlockSlots(num, d)
  {
  }

  lemma {:induction false} SameResponses(num: Reading, d: Json, d': Json)
    requires Get(d', "type") == Get(d, "type") && Get(d', "delta") == Get(d, "delta")
    requires Get(d', "content_index") == Get(d, "content_index") && Get(d', "output_index") == Get(d, "output_index")
    ensures ResponseSlots(num, d') == ResponseSlots(num, d)
  {
  }

  lemma {:induction false} SameLocals(d: Json, d': Json)
    requires Get(d', "done").Some? <==> Get(d, "done").Some?
    requires Get(d', "message") == Get(d, "message") && Get(d', "response") == Get(d, "response") && Get(d', "thinking") == Get(d, "thinking")
    ensures LocalSlots(d') == LocalSlots(d)
  {
  }

  /** What writing a listed channel has to do. */
  ghost predicate SlotLaw(num: Reading, d: Json, d': Json, ch: string, t: string) {
    GoodEvent(num, d') && TextSlots(num, d') == PutText(TextSlots(num, d), ch, t)
  }

  lemma {:induction false} PutChoices(num: Reading, d: Json, items: seq<Json>, out: seq<Json>, ch: string, t: string)
    requires d.Obj? && GoodEvent(num, d) && ItemsAt(d, "choices") == items && ChoicesLaw(num, items, out, 0, ch, t)
    ensures var d' := Put(d, "choices", Arr(out));
            && GoodEvent(num, d') && ChoiceSlots(num, d') == PutText(ChoiceSlots(num, d), ch, t)
            && BlockSlots(num, d') == BlockSlots(num, d) && ResponseSlots(num, d') == ResponseSlots(num, d)
            && LocalSlots(d') == LocalSlots(d)
  {
    var d' := Put(d, "choices", Arr(out));
    PutTop(d, "choices", Arr(out));
    SameBlocks(num, d, d');
    SameResponses(num, d, d');
    SameLocals(d, d');
  }

  lemma {:induction false} SetChoiceSlot(num: Reading, d: Json, ch: string, t: string)
    requires d.Obj? && GoodEvent(num, d) && Lists(TextSlots(num, d), ch) && ch != "" && ch[0] == 'c'
    ensures SlotLaw(num, d, SetSlot(num, d, ch, t), ch, t)
  {
    PutFamily(num, d, ch, t);
    var items := ItemsAt(d, "choices");
    var n, f := ChoicesListed(num, items, 0, ch);
    TakeApart("c", n, f);
    SetChoicesLaw(num, items, 0, n, f, t);
    PutChoices(num, d, items, SetChoices(num, items, 0, n, f, t), ch, t);
  }

  lemma {:induction false} ProperNames()
    ensures Proper(BLOCK, BLOCK_KNOWN) && Proper(MESSAGE, MESSAGE_KNOWN)
  {
    ProperBlock();
    ProperMessage();
  }

  lemma {:induction false} ProperBlock()
    ensures Proper(BLOCK, BLOCK_KNOWN)
  {
    var n := BLOCK;
    assert |n| == 3 && n[0] == Named("text", "text", false) && n[1] == Named("think", "thinking", false) && n[2] == Named("pj", "partial_json", true);
    assert |"text"| == 4 && |"think"| == 5 && |"pj"| == 2 && |"thinking"| == 8 && |"partial_json"| == 12;
    assert "text"[0] == 't' && "think"[0] == 't' && "pj"[0] == 'p';
    assert BLOCK_KNOWN[0] == "text" && BLOCK_KNOWN[1] == "thinking" && BLOCK_KNOWN[2] == "partial_json";
  }

  lemma {:induction false} ProperMessage()
    ensures Proper(MESSAGE, MESSAGE_KNOWN)
  {
    var n := MESSAGE;
    assert |n| == 2 && n[0] == Named("content", "content", false) && n[1] == Named("thinking", "thinking", false);
    assert "content"[0] == 'c' && "thinking"[0] == 't';
    assert MESSAGE_KNOWN[0] == "content" && MESSAGE_KNOWN[1] == "thinking";
  }

  /** A listed block channel is the number of the block and a field of its delta. */
  lemma {:induction false} BlocksListed(num: Reading, d: Json, ch: string) returns (delta: Json, n: nat, f: string)
    requires Lists(BlockSlots(num, d), ch)
    ensures Get(d, "delta") == Some(delta) && delta.Obj? && TypeOf(d) == "content_block_delta" && n == IndexAt(num, d, "index", 0)
    ensures ch == Numbered("a", n) + f && Lists(ObjectFields(delta, BLOCK, BLOCK_KNOWN), f)
  {
    delta, n := Get(d, "delta").value, IndexAt(num, d, "index", 0);
    var fields := ObjectFields(delta, BLOCK, BLOCK_KNOWN);
    var i :| 0 <= i < |fields| && Prefixed(Numbered("a", n), fields)[i].channel == ch;
    f := fields[i].channel;
  }

  lemma {:induction false} PutBlock(num: Reading, d: Json, v: Json, delta: Json, f: string, t: string)
    requires d.Obj? && GoodEvent(num, d) && Get(d, "delta") == Some(delta) && TypeOf(d) == "content_block_delta"
    requires v.Obj? && DistinctKeys(v.entries)
    requires ObjectFields(v, BLOCK, BLOCK_KNOWN) == PutText(ObjectFields(delta, BLOCK, BLOCK_KNOWN), f, t)
    ensures var d', ch := Put(d, "delta", v), Numbered("a", IndexAt(num, d, "index", 0)) + f;
            && GoodEvent(num, d') && BlockSlots(num, d') == PutText(BlockSlots(num, d), ch, t)
            && ChoiceSlots(num, d') == ChoiceSlots(num, d) && LocalSlots(d') == LocalSlots(d)
            && ResponseSlots(num, d') == ResponseSlots(num, d)
  {
    var d' := Put(d, "delta", v);
    PutPrefixed(Numbered("a", IndexAt(num, d, "index", 0)), ObjectFields(delta, BLOCK, BLOCK_KNOWN), f, t);
    PutTop(d, "delta", v);
    NewBlock(num, d, d', delta, v);
    SameChoices(num, d, d');
    SameLocals(d, d');
    NoResponses(num, d, d');
  }

  lemma {:induction false} NewBlock(num: Reading, d: Json, d': Json, delta: Json, v: Json)
    requires SameBut(d, d', "delta") && Get(d, "delta") == Some(delta) && Get(d', "delta") == Some(v) && TypeOf(d) == "content_block_delta"
    ensures var p := Numbered("a", IndexAt(num, d, "index", 0));
            && BlockSlots(num, d) == Prefixed(p, ObjectFields(delta, BLOCK, BLOCK_KNOWN))
            && BlockSlots(num, d') == Prefixed(p, ObjectFields(v, BLOCK, BLOCK_KNOWN))
  {
  }

  lemma {:induction false} NoResponses(num: Reading, d: Json, d': Json)
    requires SameBut(d, d', "delta") && TypeOf(d) == "content_block_delta"
    ensures ResponseSlots(num, d) == [] && ResponseSlots(num, d') == []
  {
    BlockIsNoResponse(d);
  }

  lemma {:induction false} SetBlockSlot(num: Reading, d: Json, ch: string, t: string)
    requires d.Obj? && GoodEvent(num, d) && Lists(TextSlots(num, d), ch) && ch != "" && ch[0] == 'a'
    ensures SlotLaw(num, d, SetSlot(num, d, ch, t), ch, t)
  {
    PutFamily(num, d, ch, t);
    ProperNames();
    var delta, n, f := BlocksListed(num, d, ch);
    TakeApart("a", n, f);
    SetObjectLaw(delta, BLOCK, BLOCK_KNOWN, f, t);
    PutBlock(num, d, SetObject(delta, BLOCK, f, t), delta, f, t);
  }

  lemma {:induction false} BlockIsNoResponse(d: Json)
    ensures TypeOf(d) == "content_block_delta" ==> ResponseKind(TypeOf(d)).None?
  {
    var t := "content_block_delta";
    assert t[0] == 'c' && t[|t| - 6] == '_';
    EndsAt(t, ".delta");
  }

  lemma {:induction false} EndsAt(s: string, e: string)
    requires 0 < |e| <= |s|
    ensures EndsWith(s, e) ==> s[|s| - |e|] == e[0]
  {
    assert s[|s| - |e|..][0] == s[|s| - |e|];
  }

  lemma {:induction false} PutResponse(num: Reading, d: Json, ch: string, t: string)
    requires d.Obj? && GoodEvent(num, d) && Lists(ResponseSlots(num, d), ch)
    ensures var d' := Put(d, "delta", Str(t));
            && GoodEvent(num, d') && ResponseSlots(num, d') == PutText(ResponseSlots(num, d), ch, t)
            && ChoiceSlots(num, d') == ChoiceSlots(num, d) && LocalSlots(d') == LocalSlots(d)
            && BlockSlots(num, d') == BlockSlots(num, d)
  {
    var k := ResponseKind(TypeOf(d)).value;
    var d' := Put(d, "delta", Str(t));
    FieldListed(ResponsePrefix(num, d) + k.0, StrAt(d, "delta"), k.1, ch, t);
    PutTop(d, "delta", Str(t));
    SameChoices(num, d, d');
    SameLocals(d, d');
    BlockIsNoResponse(d);
  }

  lemma {:induction false} SetResponseSlot(num: Reading, d: Json, ch: string, t: string)
    requires d.Obj? && GoodEvent(num, d) && Lists(TextSlots(num, d), ch) && ch != "" && ch[0] == 'r'
    ensures SlotLaw(num, d, SetSlot(num, d, ch, t), ch, t)
  {
    PutFamily(num, d, ch, t);
    PutResponse(num, d, ch, t);
  }

  lemma {:induction false} MessageFirst(slots: seq<Slot>, ch: string, t: string)
    requires |ch| < 3 || ch[2] != 'm'
    ensures !Lists(Prefixed("o.message.", slots), ch) && PutText(Prefixed("o.message.", slots), ch, t) == Prefixed("o.message.", slots)
  {
    var r := Prefixed("o.message.", slots);
    forall i | 0 <= i < |r| ensures r[i].channel != ch { assert r[i].channel[2] == 'm'; }
    PutNothing(r, ch, t);
  }

  /** The three parts of a local listing. */
  function MessageSlots(m: Option<Json>): seq<Slot> {
    if m.Some? then Prefixed("o.message.", ObjectFields(m.value, MESSAGE, MESSAGE_KNOWN)) else []
  }

  function LocalOf(m: Option<Json>, response: Option<string>, thinking: Option<string>): seq<Slot> {
    MessageSlots(m) + (Field("o.response", response, false) + Field("o.thinking", thinking, false))
  }

  lemma {:induction false} LocalParts(d: Json)
    requires Get(d, "done").Some?
    ensures LocalSlots(d) == LocalOf(Get(d, "message"), StrAt(d, "response"), StrAt(d, "thinking"))
  {
  }

  /** The channels of a local event: one of the message's, or one of the two beside it. */
  lemma {:induction false} LocalChannel(m: Option<Json>, response: Option<string>, thinking: Option<string>, ch: string)
    requires Lists(LocalOf(m, response, thinking), ch)
    ensures (ch == "o.response" && response.Some?) || (ch == "o.thinking" && thinking.Some?)
         || (m.Some? && m.value.Obj?
             && exists f :: ch == "o.message." + f && Lists(ObjectFields(m.value, MESSAGE, MESSAGE_KNOWN), f))
  {
    var a, b, c := MessageSlots(m), Field("o.response", response, false), Field("o.thinking", thinking, false);
    ListsConcat(a, b + c, ch);
    ListsConcat(b, c, ch);
    FieldListed("o.response", response, false, ch, "");
    FieldListed("o.thinking", thinking, false, ch, "");
    if i :| 0 <= i < |a| && a[i].channel == ch {
      var fields := ObjectFields(m.value, MESSAGE, MESSAGE_KNOWN);
      assert Lists(fields, fields[i].channel) && ch == "o.message." + fields[i].channel;
    }
  }

  lemma {:induction false} PutMessage(m: Json, v: Json, response: Option<string>, thinking: Option<string>, f: string, t: string)
    requires ObjectFields(v, MESSAGE, MESSAGE_KNOWN) == PutText(ObjectFields(m, MESSAGE, MESSAGE_KNOWN), f, t)
    ensures LocalOf(Some(v), response, thinking) == PutText(LocalOf(Some(m), response, thinking), "o.message." + f, t)
  {
    var ch := "o.message." + f;
    var b, c := Field("o.response", response, false), Field("o.thinking", thinking, false);
    PutPrefixed("o.message.", ObjectFields(m, MESSAGE, MESSAGE_KNOWN), f, t);
    PutConcat(MessageSlots(Some(m)), b + c, ch, t);
    assert ch[2] == 'm' && "o.response"[2] == 'r' && "o.thinking"[2] == 't';
    FieldListed("o.response", response, false, ch, t);
    FieldListed("o.thinking", thinking, false, ch, t);
    ListsConcat(b, c, ch);
    PutNothing(b + c, ch, t);
  }

  lemma {:induction false} PutResponseText(m: Option<Json>, response: Option<string>, thinking: Option<string>, t: string)
    requires response.Some?
    ensures LocalOf(m, Some(t), thinking) == PutText(LocalOf(m, response, thinking), "o.response", t)
  {
    var ch := "o.response";
    var b, c := Field("o.response", response, false), Field("o.thinking", thinking, false);
    assert ch[2] == 'r' && "o.thinking"[2] == 't';
    if m.Some? { MessageFirst(ObjectFields(m.value, MESSAGE, MESSAGE_KNOWN), ch, t); }
    PutConcat(MessageSlots(m), b + c, ch, t);
    PutConcat(b, c, ch, t);
    FieldListed("o.response", response, false, ch, t);
    FieldListed("o.thinking", thinking, false, ch, t);
    PutNothing(c, ch, t);
  }

  lemma {:induction false} PutThinkingText(m: Option<Json>, response: Option<string>, thinking: Option<string>, t: string)
    requires thinking.Some?
    ensures LocalOf(m, response, Some(t)) == PutText(LocalOf(m, response, thinking), "o.thinking", t)
  {
    var ch := "o.thinking";
    var b, c := Field("o.response", response, false), Field("o.thinking", thinking, false);
    assert ch[2] == 't' && "o.response"[2] == 'r';
    if m.Some? { MessageFirst(ObjectFields(m.value, MESSAGE, MESSAGE_KNOWN), ch, t); }
    PutConcat(MessageSlots(m), b + c, ch, t);
    PutConcat(b, c, ch, t);
    FieldListed("o.response", response, false, ch, t);
    FieldListed("o.thinking", thinking, false, ch, t);
    PutNothing(b, ch, t);
  }

  /** Which branch of set_slot a local channel takes. */
  lemma {:induction false} LocalBranch(f: string)
    ensures var ch := "o.message." + f; ch[0] == 'o' && Begins(ch, "o.message.") && ch[10..] == f
    ensures !Begins("o.response", "o.message.") && !Begins("o.thinking", "o.message.")
  {
    var ch := "o.message." + f;
    assert ch[..10] == "o.message.";
    assert "o.response"[..10] != "o.message." by { assert "o.response"[..10][2] == 'r' && "o.message."[2] == 'm'; }
    assert "o.thinking"[..10] != "o.message." by { assert "o.thinking"[..10][2] == 't' && "o.message."[2] == 'm'; }
  }

  lemma {:induction false} MessageWrite(num: Reading, d: Json, m: Json, f: string, t: string)
    requires d.Obj? && Get(d, "message") == Some(m) && m.Obj?
    ensures SetSlot(num, d, "o.message." + f, t) == Put(d, "message", SetObject(m, MESSAGE, f, t))
  {
    LocalBranch(f);
  }

  lemma {:induction false} SetMessageSlot(num: Reading, d: Json, m: Json, f: string, t: string)
    requires d.Obj? && GoodEvent(num, d) && Get(d, "done").Some? && Get(d, "message") == Some(m) && m.Obj?
    requires Lists(ObjectFields(m, MESSAGE, MESSAGE_KNOWN), f)
    ensures var d' := SetSlot(num, d, "o.message." + f, t);
            && GoodEvent(num, d') && LocalSlots(d') == PutText(LocalSlots(d), "o.message." + f, t) && SameBut(d, d', "message")
  {
    ProperNames();
    SetObjectLaw(m, MESSAGE, MESSAGE_KNOWN, f, t);
    var v := SetObject(m, MESSAGE, f, t);
    MessageWrite(num, d, m, f, t);
    PutTop(d, "message", v);
    PutMessage(m, v, StrAt(d, "response"), StrAt(d, "thinking"), f, t);
    LocalParts(d);
    LocalParts(Put(d, "message", v));
  }

  lemma {:induction false} ResponseWrite(num: Reading, d: Json, t: string)
    requires d.Obj?
    ensures SetSlot(num, d, "o.response", t) == Put(d, "response", Str(t))
  {
    LocalBranch("");
    assert "o.response"[0] == 'o';
  }

  lemma {:induction false} ThinkingWrite(num: Reading, d: Json, t: string)
    requires d.Obj?
    ensures SetSlot(num, d, "o.thinking", t) == Put(d, "thinking", Str(t))
  {
    LocalBranch("");
    assert "o.thinking"[0] == 'o' && "o.thinking"[2] != "o.response"[2];
  }

  lemma {:induction false} SetResponseText(num: Reading, d: Json, t: string)
    requires d.Obj? && GoodEvent(num, d) && Get(d, "done").Some? && StrAt(d, "response").Some?
    ensures var d' := SetSlot(num, d, "o.response", t);
            && GoodEvent(num, d') && LocalSlots(d') == PutText(LocalSlots(d), "o.response", t) && SameBut(d, d', "response")
  {
    ResponseWrite(num, d, t);
    PutTop(d, "response", Str(t));
    PutResponseText(Get(d, "message"), StrAt(d, "response"), StrAt(d, "thinking"), t);
    LocalParts(d);
    LocalParts(Put(d, "response", Str(t)));
  }

  lemma {:induction false} SetThinkingText(num: Reading, d: Json, t: string)
    requires d.Obj? && GoodEvent(num, d) && Get(d, "done").Some? && StrAt(d, "thinking").Some?
    ensures var d' := SetSlot(num, d, "o.thinking", t);
            && GoodEvent(num, d') && LocalSlots(d') == PutText(LocalSlots(d), "o.thinking", t) && SameBut(d, d', "thinking")
  {
    ThinkingWrite(num, d, t);
    PutTop(d, "thinking", Str(t));
    PutThinkingText(Get(d, "message"), StrAt(d, "response"), StrAt(d, "thinking"), t);
    LocalParts(d);
    LocalParts(Put(d, "thinking", Str(t)));
  }

  lemma {:induction false} SetLocalSlot(num: Reading, d: Json, ch: string, t: string)
    requires d.Obj? && GoodEvent(num, d) && Lists(TextSlots(num, d), ch) && ch != "" && ch[0] == 'o'
    ensures SlotLaw(num, d, SetSlot(num, d, ch, t), ch, t)
  {
    PutFamily(num, d, ch, t);
    LocalParts(d);
    LocalChannel(Get(d, "message"), StrAt(d, "response"), StrAt(d, "thinking"), ch);
    var d' := SetSlot(num, d, ch, t);
    if ch == "o.response" && StrAt(d, "response").Some? {
      SetResponseText(num, d, t);
    } else if ch == "o.thinking" && StrAt(d, "thinking").Some? {
      SetThinkingText(num, d, t);
    } else {
      var m := Get(d, "message").value;
      var f :| ch == "o.message." + f && Lists(ObjectFields(m, MESSAGE, MESSAGE_KNOWN), f);
      SetMessageSlot(num, d, m, f, t);
    }
    SameChoices(num, d, d');
    SameBlocks(num, d, d');
    SameResponses(num, d, d');
  }

  /** Writing a listed channel replaces its text in the listing and nothing else, in every family. */
  lemma {:induction false} SetSlotLaw(num: Reading, d: Json, ch: string, t: string)
    requires GoodEvent(num, d) && Lists(TextSlots(num, d), ch)
    ensures SlotLaw(num, d, SetSlot(num, d, ch, t), ch, t)
  {
    PutFamily(num, d, ch, t);
    if ch[0] == 'c' { SetChoiceSlot(num, d, ch, t); }
    else if ch[0] == 'a' { SetBlockSlot(num, d, ch, t); }
    else if ch[0] == 'r' { SetResponseSlot(num, d, ch, t); }
    else { SetLocalSlot(num, d, ch, t); }
  }
}
