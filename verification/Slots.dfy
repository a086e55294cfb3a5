/**
 Where the texts of an event are: `text_slots` and `set_slot` of src/stream/slots.rs for the
 chat, block, response and local-model families and their generic fields, and the lens laws
 that the event layer rests on.
 */
module Slots {
  import opened Wrappers
  import opened Placeholders
  import opened Tree
  import opened Sse

  /** as_u64 of a number leaf. */
  type Reading = string -> Option<nat>

  // ------------------------------------------------------------------------- access

  function Find(es: seq<Entry>, k: string): Option<Json> {
    if es == [] then None else if es[0].key == k then Some(es[0].value) else Find(es[1..], k)
  }

  function Get(j: Json, k: string): Option<Json> { if j.Obj? then Find(j.entries, k) else None }

  function StrOf(o: Option<Json>): Option<string> { if o.Some? && o.value.Str? then Some(o.value.s) else None }

  function StrAt(j: Json, k: string): Option<string> { StrOf(Get(j, k)) }

  function IndexAt(num: Reading, j: Json, k: string, default: nat): nat {
    var v := Get(j, k);
    if v.Some? && v.value.Num? && num(v.value.text).Some? then num(v.value.text).value else default
  }

  function Put(j: Json, k: string, v: Json): Json
    requires j.Obj?
  {
    Obj(Insert(j.entries, k, v))
  }

  lemma {:induction false} FindInsert(es: seq<Entry>, k: string, v: Json, k': string)
    ensures Find(Insert(es, k, v), k') == if k' == k then Some(v) else Find(es, k')
  {
    if es != [] && es[0].key != k { FindInsert(es[1..], k, v, k'); }
  }

  // ---------------------------------------------------------------- decimal numbers

  function DigitChar(n: nat): char
    requires n < 10
  {
    '0' + n as char
  }

  function Decimal(n: nat): string { if n < 10 then [DigitChar(n)] else Decimal(n / 10) + [DigitChar(n % 10)] }

  function Number(s: string): nat
    requires All(IsDigit, s)
  {
    if s == [] then 0 else Number(s[..|s| - 1]) * 10 + (s[|s| - 1] as int - '0' as int)
  }

  /** `parse::<usize>()`, of numbers that fit. */
  function Parse(s: string): Option<nat> {
    var body := if s != "" && s[0] == '+' then s[1..] else s;
    if body != "" && All(IsDigit, body) then Some(Number(body)) else None
  }

  lemma {:induction false} DecimalParses(n: nat)
    ensures Decimal(n) != "" && All(IsDigit, Decimal(n)) && Number(Decimal(n)) == n && Parse(Decimal(n)) == Some(n)
  {
    var s := Decimal(n);
    if n < 10 {
      assert s[..0] == [];
    } else {
      DecimalParses(n / 10);
      assert s[..|s| - 1] == Decimal(n / 10);
    }
    assert IsDigit(s[0]);
  }

  /** Where the first dot is. */
  function Dot(s: string): (i: nat)
    ensures i <= |s|
  {
    if s == "" || s[0] == '.' then 0 else 1 + Dot(s[1..])
  }

  lemma {:induction false} DotAfterDigits(a: string, f: string)
    requires All(IsDigit, a)
    ensures Dot(a + ("." + f)) == |a|
  {
    var s := a + ("." + f);
    if a != "" {
      assert IsDigit(a[0]);
      assert s[1..] == a[1..] + ("." + f);
      assert All(IsDigit, a[1..]);
      DotAfterDigits(a[1..], f);
    }
  }

  // -------------------------------------------------------- lists of slots by field

  /** One optional text field. */
  function Field(f: string, text: Option<string>, escape: bool): seq<Slot> {
    if text.Some? then [Slot(f, text.value, escape)] else []
  }

  /** Every other text field of an object gets a channel of its own. */
  function Generic(es: seq<Entry>, known: seq<string>): seq<Slot> {
    if es == [] then []
    else (if es[0].key !in known && es[0].value.Str? then [Slot("x" + es[0].key, es[0].value.s, false)] else [])
         + Generic(es[1..], known)
  }

  function Details(items: seq<Json>, n: nat): seq<Slot> {
    if items == [] then [] else Field("rd" + Decimal(n), StrAt(items[0], "text"), false) + Details(items[1..], n + 1)
  }

  function Arguments(o: Option<Json>): Option<string> { if o.Some? then StrAt(o.value, "arguments") else None }

  function ToolNo(num: Reading, tc: Json, at: nat): nat { IndexAt(num, tc, "index", at) }

  function Tools(num: Reading, items: seq<Json>, at: nat): seq<Slot> {
    if items == [] then []
    else Field("tool" + Decimal(ToolNo(num, items[0], at)), Arguments(Get(items[0], "function")), true)
         + Tools(num, items[1..], at + 1)
  }

  function ItemsAt(j: Json, k: string): seq<Json> {
    var v := Get(j, k);
    if v.Some? && v.value.Arr? then v.value.items else []
  }

  const CHAT_KNOWN: seq<string> := ["content", "reasoning_content", "reasoning", "reasoning_details", "tool_calls",
                                    "function_call", "role", "type", "index"]
  const BLOCK_KNOWN: seq<string> := ["text", "thinking", "partial_json", "type"]
  const MESSAGE_KNOWN: seq<string> := ["content", "thinking", "role", "tool_calls"]

  /** The texts of a chat delta, by field. */
  function DeltaFields(num: Reading, d: Json): seq<Slot> {
    if d.Obj? then Listing(num, ViewOf(d)) else []
  }

  /** The branch of set_slot a field takes; each segment of the listing has its own. */
  datatype Kind = Content | Reason | Reason2 | Detail | Tool | Call | Text | Other | Unknown

  predicate Begins(s: string, p: string) { |s| >= |p| && s[..|p|] == p }

  function KindOf(f: string): Kind {
    if f == "content" then Content
    else if f == "reason" then Reason
    else if f == "reason2" then Reason2
    else if Begins(f, "rd") then Detail
    else if f == "text" then Text
    else if f == "fcall" then Call
    else if Begins(f, "tool") then Tool
    else if Begins(f, "x") then Other
    else Unknown
  }

  function SetTools(num: Reading, items: seq<Json>, at: nat, n: nat, text: string): seq<Json> {
    if items == [] then []
    else
      var tc := items[0];
      var f := Get(tc, "function");
      [if ToolNo(num, tc, at) == n && f.Some? && f.value.Obj? then Put(tc, "function", Put(f.value, "arguments", Str(text))) else tc]
      + SetTools(num, items[1..], at + 1, n, text)
  }

  /** set_slot inside a chat delta. */
  function SetDelta(num: Reading, d: Json, f: string, text: string): Json
    requires d.Obj?
  {
    match KindOf(f)
    case Content => Put(d, "content", Str(text))
    case Reason => Put(d, "reasoning_content", Str(text))
    case Reason2 => Put(d, "reasoning", Str(text))
    case Detail =>
      var n, v := Parse(f[2..]), Get(d, "reasoning_details");
      if n.Some? && v.Some? && v.value.Arr? && n.value < |v.value.items| && v.value.items[n.value].Obj? then
        var items := v.value.items;
        Put(d, "reasoning_details", Arr(items[n.value := Put(items[n.value], "text", Str(text))]))
      else d
    case Tool =>
      var n, v := Parse(f[4..]), Get(d, "tool_calls");
      if n.Some? && v.Some? && v.value.Arr? then Put(d, "tool_calls", Arr(SetTools(num, v.value.items, 0, n.value, text))) else d
    case Call =>
      var v := Get(d, "function_call");
      if v.Some? && v.value.Obj? then Put(d, "function_call", Put(v.value, "arguments", Str(text))) else d
    case Other => Put(d, f[1..], Str(text))
    case Text => d
    case Unknown => d
  }

  // --------------------------------------------------------------- laws for segments

  ghost predicate AllKind(slots: seq<Slot>, k: Kind) { forall i :: 0 <= i < |slots| ==> KindOf(slots[i].channel) == k }

  lemma {:induction false} NotListed(slots: seq<Slot>, k: Kind, f: string)
    requires AllKind(slots, k) && KindOf(f) != k
    ensures !Lists(slots, f)
  {
  }

  lemma {:induction false} PutNothing(slots: seq<Slot>, f: string, text: string)
    requires !Lists(slots, f)
    ensures PutText(slots, f, text) == slots
  {
    PutTextAt(slots, f, text);
  }

  lemma {:induction false} PutConcat(a: seq<Slot>, b: seq<Slot>, f: string, text: string)
    ensures PutText(a + b, f, text) == PutText(a, f, text) + PutText(b, f, text)
  {
    PutTextAt(a, f, text);
    PutTextAt(b, f, text);
    PutTextAt(a + b, f, text);
  }

  lemma {:induction false} BeginsHead(s: string, p: string)
    requires p != ""
    ensures Begins(s, p) ==> s != "" && s[0] == p[0]
  {
    assert Begins(s, p) ==> s[..|p|][0] == s[0];
  }

  lemma {:induction false} KindOfDetail(s: string)
    ensures KindOf("rd" + s) == Detail && ("rd" + s)[2..] == s
  {
    var f := "rd" + s;
    assert f[0] == 'r' && f[1] == 'd';
    assert f[..2] == "rd";
  }

  lemma {:induction false} KindOfTool(s: string)
    ensures KindOf("tool" + s) == Tool && ("tool" + s)[4..] == s
  {
    var f := "tool" + s;
    assert f[0] == 't' && f[1] == 'o';
    assert f[..4] == "tool";
    BeginsHead(f, "rd");
  }

  lemma {:induction false} KindOfOther(s: string)
    ensures KindOf("x" + s) == Other && ("x" + s)[1..] == s
  {
    var f := "x" + s;
    assert f[0] == 'x';
    assert f[..1] == "x";
    BeginsHead(f, "rd");
    BeginsHead(f, "tool");
  }

  lemma {:induction false} DetailsKind(items: seq<Json>, n: nat)
    ensures AllKind(Details(items, n), Detail)
  {
    if items != [] {
      KindOfDetail(Decimal(n));
      DetailsKind(items[1..], n + 1);
    }
  }

  lemma {:induction false} ToolsKind(num: Reading, items: seq<Json>, at: nat)
    ensures AllKind(Tools(num, items, at), Tool)
  {
    if items != [] {
      KindOfTool(Decimal(ToolNo(num, items[0], at)));
      ToolsKind(num, items[1..], at + 1);
    }
  }

  lemma {:induction false} GenericKind(es: seq<Entry>, known: seq<string>)
    ensures AllKind(Generic(es, known), Other)
  {
    if es != [] {
      KindOfOther(es[0].key);
      GenericKind(es[1..], known);
    }
  }

  ghost predicate DistinctKeys(es: seq<Entry>) { forall i, j :: 0 <= i < j < |es| ==> es[i].key != es[j].key }

  lemma {:induction false} DistinctRest(es: seq<Entry>)
    requires es != [] && DistinctKeys(es)
    ensures DistinctKeys(es[1..]) && forall i :: 0 <= i < |es[1..]| ==> es[1..][i].key != es[0].key
  {
    forall i, j | 0 <= i < j < |es[1..]| ensures es[1..][i].key != es[1..][j].key { assert es[i + 1].key != es[j + 1].key; }
    forall i | 0 <= i < |es[1..]| ensures es[1..][i].key != es[0].key { assert es[0].key != es[i + 1].key; }
  }

  lemma {:induction false} PrefixedDiffers(p: string, a: string, b: string)
    requires a != b
    ensures p + a != p + b
  {
    assert (p + a)[|p|..] == a && (p + b)[|p|..] == b;
  }

  lemma {:induction false} GenericUnlisted(es: seq<Entry>, known: seq<string>, k: string)
    requires forall i :: 0 <= i < |es| ==> es[i].key != k
    ensures !Lists(Generic(es, known), "x" + k)
  {
    if es != [] {
      GenericUnlisted(es[1..], known, k);
      assert es[0].key != k;
      PrefixedDiffers("x", es[0].key, k);
      ListsConcat(if es[0].key !in known && es[0].value.Str? then [Slot("x" + es[0].key, es[0].value.s, false)] else [],
                  Generic(es[1..], known), "x" + k);
    }
  }

  /** Rewriting a known field leaves the generic list; rewriting a generic text rewrites its slot. */
  lemma {:induction false} GenericInsert(es: seq<Entry>, known: seq<string>, k: string, v: Json)
    requires DistinctKeys(es) && Find(es, k).Some?
    ensures k in known ==> Generic(Insert(es, k, v), known) == Generic(es, known)
    ensures k !in known && v.Str? && Find(es, k).value.Str? ==>
              Generic(Insert(es, k, v), known) == PutText(Generic(es, known), "x" + k, v.s)
  {
    DistinctRest(es);
    if es[0].key == k {
      var one := [Entry(k, v)];
      assert (one + es[1..])[1..] == es[1..];
      GenericUnlisted(es[1..], known, k);
      if k !in known && v.Str? && Find(es, k).value.Str? {
        PutNothing(Generic(es[1..], known), "x" + k, v.s);
        PutConcat([Slot("x" + k, es[0].value.s, false)], Generic(es[1..], known), "x" + k, v.s);
      }
    } else {
      assert ([es[0]] + Insert(es[1..], k, v))[1..] == Insert(es[1..], k, v);
      GenericInsert(es[1..], known, k, v);
      if k !in known && v.Str? && Find(es, k).value.Str? {
        var head := if es[0].key !in known && es[0].value.Str? then [Slot("x" + es[0].key, es[0].value.s, false)] else [];
        KindOfOther(k);
        KindOfOther(es[0].key);
        assert !Lists(head, "x" + k);
        PutNothing(head, "x" + k, v.s);
        PutConcat(head, Generic(es[1..], known), "x" + k, v.s);
      }
    }
  }

  lemma {:induction false} InsertKeys(es: seq<Entry>, k: string, v: Json)
    requires Find(es, k).Some?
    ensures var r := Insert(es, k, v); |r| == |es| && forall i :: 0 <= i < |es| ==> r[i].key == es[i].key
  {
    if es[0].key != k { InsertKeys(es[1..], k, v); }
  }

  // ---------------------------------------------------------- details and tool calls

  lemma {:induction false} SamePrefixed(p: string, a: string, b: string)
    requires p + a == p + b
    ensures a == b
  {
    assert (p + a)[|p|..] == a && (p + b)[|p|..] == b;
  }

  lemma {:induction false} DecimalDiffers(p: string, m: nat, n: nat)
    requires m != n
    ensures p + Decimal(m) != p + Decimal(n)
  {
    DecimalParses(m);
    DecimalParses(n);
    if p + Decimal(m) == p + Decimal(n) { SamePrefixed(p, Decimal(m), Decimal(n)); }
  }

  lemma {:induction false} ListsConcat(a: seq<Slot>, b: seq<Slot>, f: string)
    ensures Lists(a + b, f) <==> Lists(a, f) || Lists(b, f)
  {
    var c := a + b;
    if i :| 0 <= i < |a| && a[i].channel == f { assert c[i].channel == f; }
    if i :| 0 <= i < |b| && b[i].channel == f { assert c[|a| + i].channel == f; }
    if i :| 0 <= i < |c| && c[i].channel == f { if i < |a| { assert a[i].channel == f; } else { assert b[i - |a|].channel == f; } }
  }

  lemma {:induction false} FieldListed(f: string, text: Option<string>, escape: bool, g: string, t: string)
    ensures Lists(Field(f, text, escape), g) <==> text.Some? && f == g
    ensures PutText(Field(f, text, escape), f, t) == Field(f, if text.Some? then Some(t) else None, escape)
  {
    var one := Field(f, text, escape);
    if text.Some? { assert one[0].channel == f; }
    PutTextAt(one, f, t);
  }

  lemma {:induction false} DetailsUnlisted(items: seq<Json>, n: nat, m: nat)
    requires m < n
    ensures !Lists(Details(items, n), "rd" + Decimal(m))
  {
    if items != [] {
      DecimalDiffers("rd", m, n);
      FieldListed("rd" + Decimal(n), StrAt(items[0], "text"), false, "rd" + Decimal(m), "");
      ListsConcat(Field("rd" + Decimal(n), StrAt(items[0], "text"), false), Details(items[1..], n + 1), "rd" + Decimal(m));
      DetailsUnlisted(items[1..], n + 1, m);
    }
  }

  /** A listed detail is the text of the item its number says. */
  lemma {:induction false} DetailsListed(items: seq<Json>, n: nat, f: string) returns (i: nat)
    requires Lists(Details(items, n), f)
    ensures i < |items| && f == "rd" + Decimal(n + i) && StrAt(items[i], "text").Some?
  {
    var head := Field("rd" + Decimal(n), StrAt(items[0], "text"), false);
    FieldListed("rd" + Decimal(n), StrAt(items[0], "text"), false, f, "");
    ListsConcat(head, Details(items[1..], n + 1), f);
    if Lists(head, f) {
      i := 0;
    } else {
      i := DetailsListed(items[1..], n + 1, f);
      i := i + 1;
    }
  }

  lemma {:induction false} PutString(j: Json, k: string, t: string)
    requires j.Obj?
    ensures StrAt(Put(j, k, Str(t)), k) == Some(t)
  {
    FindInsert(j.entries, k, Str(t), k);
  }

  lemma {:induction false} DetailsSet(items: seq<Json>, n: nat, i: nat, t: string)
    requires i < |items| && StrAt(items[i], "text").Some?
    ensures Details(items[i := Put(items[i], "text", Str(t))], n) == PutText(Details(items, n), "rd" + Decimal(n + i), t)
  {
    var f := "rd" + Decimal(n + i);
    var items' := items[i := Put(items[i], "text", Str(t))];
    var head := Field("rd" + Decimal(n), StrAt(items[0], "text"), false);
    PutConcat(head, Details(items[1..], n + 1), f, t);
    FieldListed("rd" + Decimal(n), StrAt(items[0], "text"), false, f, t);
    if i == 0 {
      assert items'[1..] == items[1..];
      PutString(items[0], "text", t);
      DetailsUnlisted(items[1..], n + 1, n);
      PutNothing(Details(items[1..], n + 1), f, t);
    } else {
      assert items'[1..] == items[1..][i - 1 := Put(items[i], "text", Str(t))];
      DetailsSet(items[1..], n + 1, i - 1, t);
      DecimalDiffers("rd", n, n + i);
      PutNothing(head, f, t);
    }
  }

  /** No two tool calls have the same number. */
  ghost predicate DistinctTools(num: Reading, items: seq<Json>, at: nat) {
    forall i, j :: 0 <= i < j < |items| ==> ToolNo(num, items[i], at + i) != ToolNo(num, items[j], at + j)
  }

  ghost predicate NoTool(num: Reading, items: seq<Json>, at: nat, n: nat) {
    forall i :: 0 <= i < |items| ==> ToolNo(num, items[i], at + i) != n
  }

  lemma {:induction false} ToolsTail(num: Reading, items: seq<Json>, at: nat)
    requires items != [] && DistinctTools(num, items, at)
    ensures DistinctTools(num, items[1..], at + 1) && NoTool(num, items[1..], at + 1, ToolNo(num, items[0], at))
  {
    var t := items[1..];
    forall i | 0 <= i < |t| ensures ToolNo(num, t[i], at + 1 + i) != ToolNo(num, items[0], at) {
      assert ToolNo(num, items[0], at + 0) != ToolNo(num, items[i + 1], at + (i + 1));
    }
    forall i, j | 0 <= i < j < |t| ensures ToolNo(num, t[i], at + 1 + i) != ToolNo(num, t[j], at + 1 + j) {
      assert ToolNo(num, items[i + 1], at + (i + 1)) != ToolNo(num, items[j + 1], at + (j + 1));
    }
  }

  /** A number no tool call has is not listed, and writing it does nothing. */
  lemma {:induction false} NoToolNothing(num: Reading, items: seq<Json>, at: nat, n: nat, t: string)
    requires NoTool(num, items, at, n)
    ensures !Lists(Tools(num, items, at), "tool" + Decimal(n)) && SetTools(num, items, at, n, t) == items
  {
    if items != [] {
      var no, f := ToolNo(num, items[0], at), "tool" + Decimal(n);
      assert ToolNo(num, items[0], at + 0) != n;
      forall i | 0 <= i < |items[1..]| ensures ToolNo(num, items[1..][i], at + 1 + i) != n {
        assert ToolNo(num, items[i + 1], at + (i + 1)) != n;
      }
      NoToolNothing(num, items[1..], at + 1, n, t);
      DecimalDiffers("tool", n, no);
      FieldListed("tool" + Decimal(no), Arguments(Get(items[0], "function")), true, f, "");
      ListsConcat(Field("tool" + Decimal(no), Arguments(Get(items[0], "function")), true), Tools(num, items[1..], at + 1), f);
    }
  }

  /** Writing a call's arguments keeps its number. */
  lemma {:induction false} ToolPut(num: Reading, tc: Json, at: nat, t: string)
    requires tc.Obj? && Get(tc, "function").Some? && Get(tc, "function").value.Obj?
    ensures var tc' := Put(tc, "function", Put(Get(tc, "function").value, "arguments", Str(t)));
            ToolNo(num, tc', at) == ToolNo(num, tc, at) && Arguments(Get(tc', "function")) == Some(t)
  {
    var v := Put(Get(tc, "function").value, "arguments", Str(t));
    FindInsert(tc.entries, "function", v, "index");
    FindInsert(tc.entries, "function", v, "function");
    PutString(Get(tc, "function").value, "arguments", t);
  }

  /** Writing a call keeps every number. */
  lemma {:induction false} ToolsNumbers(num: Reading, items: seq<Json>, at: nat, n: nat, t: string)
    ensures |SetTools(num, items, at, n, t)| == |items|
    ensures forall i :: 0 <= i < |items| ==> ToolNo(num, SetTools(num, items, at, n, t)[i], at + i) == ToolNo(num, items[i], at + i)
  {
    if items != [] {
      var out := SetTools(num, items, at, n, t);
      var f := Get(items[0], "function");
      ToolsNumbers(num, items[1..], at + 1, n, t);
      if ToolNo(num, items[0], at) == n && f.Some? && f.value.Obj? { ToolPut(num, items[0], at, t); }
      assert out[1..] == SetTools(num, items[1..], at + 1, n, t);
      forall i | 0 < i < |items| ensures ToolNo(num, out[i], at + i) == ToolNo(num, items[i], at + i) {
        assert ToolNo(num, out[1..][i - 1], at + 1 + (i - 1)) == ToolNo(num, items[1..][i - 1], at + 1 + (i - 1));
      }
    }
  }

  /** Writing a listed call rewrites its slot. */
  lemma {:induction false} ToolsSet(num: Reading, items: seq<Json>, at: nat, n: nat, t: string)
    requires DistinctTools(num, items, at) && Lists(Tools(num, items, at), "tool" + Decimal(n))
    ensures Tools(num, SetTools(num, items, at, n, t), at) == PutText(Tools(num, items, at), "tool" + Decimal(n), t)
  {
    var no, f := ToolNo(num, items[0], at), "tool" + Decimal(n);
    var args := Arguments(Get(items[0], "function"));
    var head, rest := Field("tool" + Decimal(no), args, true), Tools(num, items[1..], at + 1);
    var out := SetTools(num, items, at, n, t);
    ToolsTail(num, items, at);
    ListsConcat(head, rest, f);
    FieldListed("tool" + Decimal(no), args, true, f, t);
    PutConcat(head, rest, f, t);
    if no == n {
      NoToolNothing(num, items[1..], at + 1, n, t);
      PutNothing(rest, f, t);
      ToolPut(num, items[0], at, t);
      assert out[1..] == items[1..];
    } else {
      DecimalDiffers("tool", n, no);
      PutNothing(head, f, t);
      ToolsSet(num, items[1..], at + 1, n, t);
      assert out[0] == items[0] && out[1..] == SetTools(num, items[1..], at + 1, n, t);
    }
  }

  lemma {:induction false} ToolsListed(num: Reading, items: seq<Json>, at: nat, f: string) returns (n: nat)
    requires Lists(Tools(num, items, at), f)
    ensures f == "tool" + Decimal(n)
  {
    n := ToolNo(num, items[0], at);
    var head := Field("tool" + Decimal(n), Arguments(Get(items[0], "function")), true);
    FieldListed("tool" + Decimal(n), Arguments(Get(items[0], "function")), true, f, "");
    ListsConcat(head, Tools(num, items[1..], at + 1), f);
    if !Lists(head, f) { n := ToolsListed(num, items[1..], at + 1, f); }
  }

  // ------------------------------------------------------------------ one chat delta

  ghost predicate GoodDelta(num: Reading, d: Json) {
    d.Obj? ==> DistinctKeys(d.entries) && DistinctTools(num, ItemsAt(d, "tool_calls"), 0)
  }

  /** The segments of a delta's listing. */
  datatype Segments = Segments(a: seq<Slot>, b: seq<Slot>, c: seq<Slot>, d: seq<Slot>, e: seq<Slot>, f: seq<Slot>, g: seq<Slot>)

  function Joined(s: Segments): seq<Slot> { s.a + (s.b + (s.c + (s.d + (s.e + (s.f + s.g))))) }

  /** All that the listing of a delta depends on. */
  datatype View = View(content: Option<string>, reason: Option<string>, reason2: Option<string>, details: seq<Json>,
                       tools: seq<Json>, call: Option<string>, generic: seq<Slot>)

  function ViewOf(d: Json): View
    requires d.Obj?
  {
    View(StrAt(d, "content"), StrAt(d, "reasoning_content"), StrAt(d, "reasoning"), ItemsAt(d, "reasoning_details"),
         ItemsAt(d, "tool_calls"), Arguments(Get(d, "function_call")), Generic(d.entries, CHAT_KNOWN))
  }

  function SegmentsOf(num: Reading, v: View): Segments {
    Segments(Field("content", v.content, false), Field("reason", v.reason, false), Field("reason2", v.reason2, false),
             Details(v.details, 0), Tools(num, v.tools, 0), Field("fcall", v.call, true), v.generic)
  }

  function Listing(num: Reading, v: View): seq<Slot> { Joined(SegmentsOf(num, v)) }

  ghost predicate Sorted(s: Segments) {
    && AllKind(s.a, Content) && AllKind(s.b, Reason) && AllKind(s.c, Reason2) && AllKind(s.d, Detail)
    && AllKind(s.e, Tool) && AllKind(s.f, Call) && AllKind(s.g, Other)
  }

  lemma {:induction false} FieldKinds()
    ensures KindOf("content") == Content && KindOf("reason") == Reason && KindOf("reason2") == Reason2
    ensures KindOf("fcall") == Call && KindOf("text") == Text
  {
    assert "content" != "reason" && "reason2" != "reason" && "reason2" != "content";
    assert "fcall"[0] == 'f' && "text"[0] == 't' && "content"[0] == 'c';
    BeginsHead("fcall", "rd");
  }

  lemma {:induction false} SegmentsSorted(num: Reading, v: View)
    requires AllKind(v.generic, Other)
    ensures Sorted(SegmentsOf(num, v))
  {
    FieldKinds();
    DetailsKind(v.details, 0);
    ToolsKind(num, v.tools, 0);
  }

  function PutIf(s: seq<Slot>, yes: bool, f: string, t: string): seq<Slot> { if yes then PutText(s, f, t) else s }

  lemma {:induction false} PutSegment(a: seq<Slot>, b: seq<Slot>, k: Kind, f: string, t: string)
    requires AllKind(a, k)
    ensures PutText(a + b, f, t) == PutIf(a, KindOf(f) == k, f, t) + PutText(b, f, t)
  {
    PutConcat(a, b, f, t);
    if KindOf(f) != k { NotListed(a, k, f); PutNothing(a, f, t); }
  }

  /** Only the segment of its kind is rewritten. */
  lemma {:induction false} PutJoined(s: Segments, f: string, t: string)
    requires Sorted(s)
    ensures var k := KindOf(f);
            PutText(Joined(s), f, t)
            == Joined(Segments(PutIf(s.a, k == Content, f, t), PutIf(s.b, k == Reason, f, t), PutIf(s.c, k == Reason2, f, t),
                               PutIf(s.d, k == Detail, f, t), PutIf(s.e, k == Tool, f, t), PutIf(s.f, k == Call, f, t),
                               PutIf(s.g, k == Other, f, t)))
  {
    PutSegment(s.f, s.g, Call, f, t);
    PutSegment(s.e, s.f + s.g, Tool, f, t);
    PutSegment(s.d, s.e + (s.f + s.g), Detail, f, t);
    PutSegment(s.c, s.d + (s.e + (s.f + s.g)), Reason2, f, t);
    PutSegment(s.b, s.c + (s.d + (s.e + (s.f + s.g))), Reason, f, t);
    PutSegment(s.a, s.b + (s.c + (s.d + (s.e + (s.f + s.g)))), Content, f, t);
    if KindOf(f) != Other { NotListed(s.g, Other, f); PutNothing(s.g, f, t); }
  }

  /** A listed field is listed in the segment of its kind. */
  lemma {:induction false} ListedJoined(s: Segments, f: string)
    requires Sorted(s) && Lists(Joined(s), f)
    ensures match KindOf(f)
            case Content => Lists(s.a, f)
            case Reason => Lists(s.b, f)
            case Reason2 => Lists(s.c, f)
            case Detail => Lists(s.d, f)
            case Tool => Lists(s.e, f)
            case Call => Lists(s.f, f)
            case Other => Lists(s.g, f)
            case Text => false
            case Unknown => false
  {
    ListsConcat(s.a, s.b + (s.c + (s.d + (s.e + (s.f + s.g)))), f);
    ListsConcat(s.b, s.c + (s.d + (s.e + (s.f + s.g))), f);
    ListsConcat(s.c, s.d + (s.e + (s.f + s.g)), f);
    ListsConcat(s.d, s.e + (s.f + s.g), f);
    ListsConcat(s.e, s.f + s.g, f);
    ListsConcat(s.f, s.g, f);
    if KindOf(f) != Content { NotListed(s.a, Content, f); }
    if KindOf(f) != Reason { NotListed(s.b, Reason, f); }
    if KindOf(f) != Reason2 { NotListed(s.c, Reason2, f); }
    if KindOf(f) != Detail { NotListed(s.d, Detail, f); }
    if KindOf(f) != Tool { NotListed(s.e, Tool, f); }
    if KindOf(f) != Call { NotListed(s.f, Call, f); }
    if KindOf(f) != Other { NotListed(s.g, Other, f); }
  }

  // Rewriting one key of a delta, and what of the view it changes.

  lemma {:induction false} PutGet(d: Json, k: string, v: Json)
    requires d.Obj? && DistinctKeys(d.entries) && Get(d, k).Some?
    ensures DistinctKeys(Put(d, k, v).entries) && Get(Put(d, k, v), k) == Some(v)
    ensures k in CHAT_KNOWN ==> Generic(Put(d, k, v).entries, CHAT_KNOWN) == Generic(d.entries, CHAT_KNOWN)
  {
    InsertKeys(d.entries, k, v);
    FindInsert(d.entries, k, v, k);
    GenericInsert(d.entries, CHAT_KNOWN, k, v);
  }

  lemma {:induction false} PutKeeps(d: Json, k: string, v: Json, k': string)
    requires d.Obj? && k' != k
    ensures Get(Put(d, k, v), k') == Get(d, k')
  {
    FindInsert(d.entries, k, v, k');
  }

  /** The keys of the view other than k are left alone. */
  lemma {:induction false} PutKeepsOthers(d: Json, k: string, v: Json)
    requires d.Obj?
    ensures var d' := Put(d, k, v);
            && (k != "content" ==> Get(d', "content") == Get(d, "content"))
            && (k != "reasoning_content" ==> Get(d', "reasoning_content") == Get(d, "reasoning_content"))
            && (k != "reasoning" ==> Get(d', "reasoning") == Get(d, "reasoning"))
            && (k != "reasoning_details" ==> Get(d', "reasoning_details") == Get(d, "reasoning_details"))
            && (k != "tool_calls" ==> Get(d', "tool_calls") == Get(d, "tool_calls"))
            && (k != "function_call" ==> Get(d', "function_call") == Get(d, "function_call"))
  {
    if k != "content" { PutKeeps(d, k, v, "content"); }
    if k != "reasoning_content" { PutKeeps(d, k, v, "reasoning_content"); }
    if k != "reasoning" { PutKeeps(d, k, v, "reasoning"); }
    if k != "reasoning_details" { PutKeeps(d, k, v, "reasoning_details"); }
    if k != "tool_calls" { PutKeeps(d, k, v, "tool_calls"); }
    if k != "function_call" { PutKeeps(d, k, v, "function_call"); }
  }

  lemma {:induction false} ViewContent(d: Json, v: Json)
    requires d.Obj? && DistinctKeys(d.entries) && Get(d, "content").Some?
    ensures var w := ViewOf(d);
            ViewOf(Put(d, "content", v)) == View(StrOf(Some(v)), w.reason, w.reason2, w.details, w.tools, w.call, w.generic)
  {
    PutGet(d, "content", v);
    PutKeepsOthers(d, "content", v);
  }

  lemma {:induction false} ViewReason(d: Json, v: Json)
    requires d.Obj? && DistinctKeys(d.entries) && Get(d, "reasoning_content").Some?
    ensures var w := ViewOf(d);
            ViewOf(Put(d, "reasoning_content", v)) == View(w.content, StrOf(Some(v)), w.reason2, w.details, w.tools, w.call, w.generic)
  {
    PutGet(d, "reasoning_content", v);
    PutKeepsOthers(d, "reasoning_content", v);
  }

  lemma {:induction false} ViewReason2(d: Json, v: Json)
    requires d.Obj? && DistinctKeys(d.entries) && Get(d, "reasoning").Some?
    ensures var w := ViewOf(d);
            ViewOf(Put(d, "reasoning", v)) == View(w.content, w.reason, StrOf(Some(v)), w.details, w.tools, w.call, w.generic)
  {
    PutGet(d, "reasoning", v);
    PutKeepsOthers(d, "reasoning", v);
  }

  lemma {:induction false} ViewDetails(d: Json, items: seq<Json>)
    requires d.Obj? && DistinctKeys(d.entries) && Get(d, "reasoning_details").Some?
    ensures var w := ViewOf(d);
            ViewOf(Put(d, "reasoning_details", Arr(items))) == View(w.content, w.reason, w.reason2, items, w.tools, w.call, w.generic)
  {
    PutGet(d, "reasoning_details", Arr(items));
    PutKeepsOthers(d, "reasoning_details", Arr(items));
  }

  lemma {:induction false} ViewTools(d: Json, items: seq<Json>)
    requires d.Obj? && DistinctKeys(d.entries) && Get(d, "tool_calls").Some?
    ensures var w := ViewOf(d);
            ViewOf(Put(d, "tool_calls", Arr(items))) == View(w.content, w.reason, w.reason2, w.details, items, w.call, w.generic)
  {
    PutGet(d, "tool_calls", Arr(items));
    PutKeepsOthers(d, "tool_calls", Arr(items));
  }

  lemma {:induction false} ViewCall(d: Json, v: Json)
    requires d.Obj? && DistinctKeys(d.entries) && Get(d, "function_call").Some?
    ensures var w := ViewOf(d);
            ViewOf(Put(d, "function_call", v))
            == View(w.content, w.reason, w.reason2, w.details, w.tools, Arguments(Some(v)), w.generic)
  {
    PutGet(d, "function_call", v);
    PutKeepsOthers(d, "function_call", v);
  }

  lemma {:induction false} ViewOther(d: Json, k: string, t: string)
    requires d.Obj? && DistinctKeys(d.entries) && StrAt(d, k).Some? && k !in CHAT_KNOWN
    ensures var w := ViewOf(d);
            ViewOf(Put(d, k, Str(t)))
            == View(w.content, w.reason, w.reason2, w.details, w.tools, w.call, PutText(w.generic, "x" + k, t))
  {
    assert forall i :: 0 <= i < |CHAT_KNOWN| ==> CHAT_KNOWN[i] in CHAT_KNOWN;
    assert CHAT_KNOWN[0] == "content" && CHAT_KNOWN[1] == "reasoning_content" && CHAT_KNOWN[2] == "reasoning"
        && CHAT_KNOWN[3] == "reasoning_details" && CHAT_KNOWN[4] == "tool_calls" && CHAT_KNOWN[5] == "function_call";
    PutKeepsOthers(d, k, Str(t));
    GenericInsert(d.entries, CHAT_KNOWN, k, Str(t));
  }

  /** A listed view, taken apart. */
  lemma {:induction false} RewriteSegments(num: Reading, v: View, f: string, t: string)
    requires AllKind(v.generic, Other) && Lists(Listing(num, v), f)
    ensures var s, k := SegmentsOf(num, v), KindOf(f);
            PutText(Listing(num, v), f, t)
            == Joined(Segments(PutIf(s.a, k == Content, f, t), PutIf(s.b, k == Reason, f, t), PutIf(s.c, k == Reason2, f, t),
                               PutIf(s.d, k == Detail, f, t), PutIf(s.e, k == Tool, f, t), PutIf(s.f, k == Call, f, t),
                               PutIf(s.g, k == Other, f, t)))
    ensures KindOf(f) == Content ==> v.content.Some?
    ensures KindOf(f) == Reason ==> v.reason.Some?
    ensures KindOf(f) == Reason2 ==> v.reason2.Some?
    ensures KindOf(f) == Detail ==> Lists(Details(v.details, 0), f)
    ensures KindOf(f) == Tool ==> Lists(Tools(num, v.tools, 0), f)
    ensures KindOf(f) == Call ==> v.call.Some?
    ensures KindOf(f) == Other ==> Lists(v.generic, f)
    ensures KindOf(f) !in {Text, Unknown}
  {
    SegmentsSorted(num, v);
    PutJoined(SegmentsOf(num, v), f, t);
    ListedJoined(SegmentsOf(num, v), f);
  }

  /** What rewriting a listed field of a delta has to do. */
  ghost predicate DeltaLaw(num: Reading, d: Json, d': Json, f: string, t: string)
    requires d.Obj?
  {
    d'.Obj? && GoodDelta(num, d') && Listing(num, ViewOf(d')) == PutText(Listing(num, ViewOf(d)), f, t)
  }

  ghost predicate ListedIn(num: Reading, d: Json, f: string) {
    d.Obj? && GoodDelta(num, d) && Lists(Listing(num, ViewOf(d)), f)
  }

  lemma {:induction false} SetContent(num: Reading, d: Json, f: string, t: string)
    requires ListedIn(num, d, f) && KindOf(f) == Content
    ensures DeltaLaw(num, d, Put(d, "content", Str(t)), f, t)
  {
    var v := ViewOf(d);
    GenericKind(d.entries, CHAT_KNOWN);
    RewriteSegments(num, v, f, t);
    FieldListed("content", v.content, false, f, t);
    ViewContent(d, Str(t));
    PutGet(d, "content", Str(t));
  }

  lemma {:induction false} SetReason(num: Reading, d: Json, f: string, t: string)
    requires ListedIn(num, d, f) && KindOf(f) == Reason
    ensures DeltaLaw(num, d, Put(d, "reasoning_content", Str(t)), f, t)
  {
    var v := ViewOf(d);
    GenericKind(d.entries, CHAT_KNOWN);
    RewriteSegments(num, v, f, t);
    FieldListed("reason", v.reason, false, f, t);
    ViewReason(d, Str(t));
    PutGet(d, "reasoning_content", Str(t));
  }

  lemma {:induction false} SetReason2(num: Reading, d: Json, f: string, t: string)
    requires ListedIn(num, d, f) && KindOf(f) == Reason2
    ensures DeltaLaw(num, d, Put(d, "reasoning", Str(t)), f, t)
  {
    var v := ViewOf(d);
    GenericKind(d.entries, CHAT_KNOWN);
    RewriteSegments(num, v, f, t);
    FieldListed("reason2", v.reason2, false, f, t);
    ViewReason2(d, Str(t));
    PutGet(d, "reasoning", Str(t));
  }

  lemma {:induction false} DetailWrite(num: Reading, d: Json, n: nat, t: string)
    requires d.Obj? && n < |ItemsAt(d, "reasoning_details")| && ItemsAt(d, "reasoning_details")[n].Obj?
    ensures var items := ItemsAt(d, "reasoning_details");
            SetDelta(num, d, "rd" + Decimal(n), t) == Put(d, "reasoning_details", Arr(items[n := Put(items[n], "text", Str(t))]))
  {
    KindOfDetail(Decimal(n));
    DecimalParses(n);
  }

  lemma {:induction false} DetailListing(num: Reading, v: View, n: nat, items: seq<Json>, f: string, t: string)
    requires AllKind(v.generic, Other) && Lists(Listing(num, v), f) && KindOf(f) == Detail
    requires Details(items, 0) == PutText(Details(v.details, 0), f, t)
    ensures Listing(num, View(v.content, v.reason, v.reason2, items, v.tools, v.call, v.generic)) == PutText(Listing(num, v), f, t)
  {
    RewriteSegments(num, v, f, t);
  }

  lemma {:induction false} SetDetail(num: Reading, d: Json, f: string, t: string)
    requires ListedIn(num, d, f) && KindOf(f) == Detail
    ensures DeltaLaw(num, d, SetDelta(num, d, f, t), f, t)
  {
    var v := ViewOf(d);
    GenericKind(d.entries, CHAT_KNOWN);
    RewriteSegments(num, v, f, t);
    var n := DetailsListed(v.details, 0, f);
    var items := v.details[n := Put(v.details[n], "text", Str(t))];
    DetailsSet(v.details, 0, n, t);
    DetailListing(num, v, n, items, f, t);
    DetailWrite(num, d, n, t);
    ViewDetails(d, items);
    PutGet(d, "reasoning_details", Arr(items));
  }

  lemma {:induction false} ToolWrite(num: Reading, d: Json, n: nat, t: string)
    requires d.Obj? && ItemsAt(d, "tool_calls") != []
    ensures SetDelta(num, d, "tool" + Decimal(n), t)
         == Put(d, "tool_calls", Arr(SetTools(num, ItemsAt(d, "tool_calls"), 0, n, t)))
  {
    KindOfTool(Decimal(n));
    DecimalParses(n);
  }

  lemma {:induction false} SetTool(num: Reading, d: Json, f: string, t: string)
    requires ListedIn(num, d, f) && KindOf(f) == Tool
    ensures DeltaLaw(num, d, SetDelta(num, d, f, t), f, t)
  {
    var v := ViewOf(d);
    GenericKind(d.entries, CHAT_KNOWN);
    RewriteSegments(num, v, f, t);
    var n := ToolsListed(num, v.tools, 0, f);
    ToolsSet(num, v.tools, 0, n, t);
    ToolsNumbers(num, v.tools, 0, n, t);
    var items := SetTools(num, v.tools, 0, n, t);
    ToolWrite(num, d, n, t);
    ViewTools(d, items);
    PutGet(d, "tool_calls", Arr(items));
  }

  lemma {:induction false} SetCall(num: Reading, d: Json, f: string, t: string)
    requires ListedIn(num, d, f) && KindOf(f) == Call
    ensures DeltaLaw(num, d, SetDelta(num, d, f, t), f, t)
  {
    var v := ViewOf(d);
    GenericKind(d.entries, CHAT_KNOWN);
    RewriteSegments(num, v, f, t);
    FieldListed("fcall", v.call, true, f, t);
    var c := Get(d, "function_call").value;
    PutString(c, "arguments", t);
    ViewCall(d, Put(c, "arguments", Str(t)));
    PutGet(d, "function_call", Put(c, "arguments", Str(t)));
  }

  /** A listed generic field is a text under a key that is not known. */
  lemma {:induction false} GenericListed(es: seq<Entry>, known: seq<string>, f: string) returns (k: string)
    requires Lists(Generic(es, known), f) && DistinctKeys(es)
    ensures f == "x" + k && k !in known && StrOf(Find(es, k)).Some?
  {
    var head := if es[0].key !in known && es[0].value.Str? then [Slot("x" + es[0].key, es[0].value.s, false)] else [];
    ListsConcat(head, Generic(es[1..], known), f);
    if Lists(head, f) {
      k := es[0].key;
    } else {
      DistinctRest(es);
      k := GenericListed(es[1..], known, f);
      FoundKey(es[1..], k);
    }
  }

  lemma {:induction false} FoundKey(es: seq<Entry>, k: string)
    requires Find(es, k).Some?
    ensures exists i :: 0 <= i < |es| && es[i].key == k
  {
    if es[0].key != k {
      FoundKey(es[1..], k);
      var i :| 0 <= i < |es[1..]| && es[1..][i].key == k;
      assert es[i + 1].key == k;
    }
  }

  lemma {:induction false} SetOther(num: Reading, d: Json, f: string, t: string)
    requires ListedIn(num, d, f) && KindOf(f) == Other
    ensures DeltaLaw(num, d, SetDelta(num, d, f, t), f, t)
  {
    var v := ViewOf(d);
    GenericKind(d.entries, CHAT_KNOWN);
    RewriteSegments(num, v, f, t);
    var k := GenericListed(d.entries, CHAT_KNOWN, f);
    KindOfOther(k);
    ViewOther(d, k, t);
    PutGet(d, k, Str(t));
  }

  /** Writing a listed field of a delta rewrites its slot and no other. */
  lemma {:induction false} SetDeltaLaw(num: Reading, d: Json, f: string, t: string)
    requires ListedIn(num, d, f)
    ensures DeltaLaw(num, d, SetDelta(num, d, f, t), f, t) && KindOf(f) !in {Text, Unknown}
  {
    GenericKind(d.entries, CHAT_KNOWN);
    RewriteSegments(num, ViewOf(d), f, t);
    match KindOf(f)
    case Content => SetContent(num, d, f, t);
    case Reason => SetReason(num, d, f, t);
    case Reason2 => SetReason2(num, d, f, t);
    case Detail => SetDetail(num, d, f, t);
    case Tool => SetTool(num, d, f, t);
    case Call => SetCall(num, d, f, t);
    case Other => SetOther(num, d, f, t);
    case _ =>
  }
}
