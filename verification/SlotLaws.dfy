/**
 The protocols of src/stream/slots.rs as the event layer sees them: listed channels are
 distinct, the escape flag belongs to the channel, ending signals can be removed; so every
 theorem about the event layer holds of the real events.
 */
module SlotLaws {
  import opened Wrappers
  import opened Placeholders
  import opened Tree
  import opened Sse
  import opened Slots
  import opened SlotEvents

  // ------------------------------------------------------------- distinct channels

  /** No channel of a is listed in b. */
  ghost predicate Apart(a: seq<Slot>, b: seq<Slot>) { forall i :: 0 <= i < |a| ==> !Lists(b, a[i].channel) }

  lemma {:induction false} DistinctConcat(a: seq<Slot>, b: seq<Slot>)
    requires DistinctChannels(a) && DistinctChannels(b) && Apart(a, b)
    ensures DistinctChannels(a + b)
  {
    var c := a + b;
    forall i, j | 0 <= i < j < |c| ensures c[i].channel != c[j].channel {
      if i < |a| && j >= |a| {
        assert !Lists(b, a[i].channel);
        assert b[j - |a|] == c[j];
      } else if i >= |a| {
        assert b[i - |a|].channel != b[j - |a|].channel;
      }
    }
  }

  lemma {:induction false} DistinctPrefixed(p: string, slots: seq<Slot>)
    requires DistinctChannels(slots)
    ensures DistinctChannels(Prefixed(p, slots))
  {
    var r := Prefixed(p, slots);
    forall i, j | 0 <= i < j < |r| ensures r[i].channel != r[j].channel {
      if r[i].channel == r[j].channel { SamePrefixed(p, slots[i].channel, slots[j].channel); }
    }
  }

  /** One field apart from a list that does not have it. */
  lemma {:induction false} FieldApart(f: string, text: Option<string>, escape: bool, b: seq<Slot>)
    requires DistinctChannels(b) && !Lists(b, f)
    ensures DistinctChannels(Field(f, text, escape) + b)
  {
    DistinctConcat(Field(f, text, escape), b);
  }

  lemma {:induction false} DistinctDetails(items: seq<Json>, n: nat)
    ensures DistinctChannels(Details(items, n))
  {
    if items != [] {
      DistinctDetails(items[1..], n + 1);
      DetailsUnlisted(items[1..], n + 1, n);
      FieldApart("rd" + Decimal(n), StrAt(items[0], "text"), false, Details(items[1..], n + 1));
    }
  }

  lemma {:induction false} DistinctToolSlots(num: Reading, items: seq<Json>, at: nat)
    requires DistinctTools(num, items, at)
    ensures DistinctChannels(Tools(num, items, at))
  {
    if items != [] {
      var no := ToolNo(num, items[0], at);
      ToolsTail(num, items, at);
      DistinctToolSlots(num, items[1..], at + 1);
      NoToolNothing(num, items[1..], at + 1, no, "");
      FieldApart("tool" + Decimal(no), Arguments(Get(items[0], "function")), true, Tools(num, items[1..], at + 1));
    }
  }

  lemma {:induction false} DistinctGeneric(es: seq<Entry>, known: seq<string>)
    requires DistinctKeys(es)
    ensures DistinctChannels(Generic(es, known))
  {
    if es != [] {
      DistinctRest(es);
      DistinctGeneric(es[1..], known);
      GenericUnlisted(es[1..], known, es[0].key);
      DistinctConcat(if es[0].key !in known && es[0].value.Str? then [Slot("x" + es[0].key, es[0].value.s, false)] else [],
                     Generic(es[1..], known));
    }
  }

  function Rank(k: Kind): nat {
    match k
    case Content => 0
    case Reason => 1
    case Reason2 => 2
    case Detail => 3
    case Tool => 4
    case Call => 5
    case Other => 6
    case Text => 7
    case Unknown => 8
  }

  ghost predicate Ranked(slots: seq<Slot>, low: nat) { forall i :: 0 <= i < |slots| ==> Rank(KindOf(slots[i].channel)) >= low }

  /** A segment before segments of higher rank. */
  lemma {:induction false} RankedCons(a: seq<Slot>, k: Kind, b: seq<Slot>)
    requires AllKind(a, k) && Ranked(b, Rank(k) + 1) && DistinctChannels(a) && DistinctChannels(b)
    ensures DistinctChannels(a + b) && Ranked(a + b, Rank(k))
  {
    DistinctConcat(a, b);
  }

  lemma {:induction false} DistinctJoined(s: Segments)
    requires Sorted(s) && |s.a| <= 1 && |s.b| <= 1 && |s.c| <= 1 && |s.f| <= 1
    requires DistinctChannels(s.d) && DistinctChannels(s.e) && DistinctChannels(s.g)
    ensures DistinctChannels(Joined(s)) && !Lists(Joined(s), "text")
  {
    RankedCons(s.f, Call, s.g);
    RankedCons(s.e, Tool, s.f + s.g);
    RankedCons(s.d, Detail, s.e + (s.f + s.g));
    RankedCons(s.c, Reason2, s.d + (s.e + (s.f + s.g)));
    RankedCons(s.b, Reason, s.c + (s.d + (s.e + (s.f + s.g))));
    RankedCons(s.a, Content, s.b + (s.c + (s.d + (s.e + (s.f + s.g)))));
    FieldKinds();
    if Lists(Joined(s), "text") { ListedJoined(s, "text"); }
  }

  lemma {:induction false} DistinctDelta(num: Reading, d: Json)
    requires GoodDelta(num, d)
    ensures DistinctChannels(DeltaFields(num, d))
    ensures !Lists(DeltaFields(num, d), "text")
  {
    if d.Obj? {
      var v := ViewOf(d);
      GenericKind(d.entries, CHAT_KNOWN);
      SegmentsSorted(num, v);
      DistinctGeneric(d.entries, CHAT_KNOWN);
      DistinctToolSlots(num, v.tools, 0);
      DistinctDetails(v.details, 0);
      DistinctJoined(SegmentsOf(num, v));
    }
  }

  lemma {:induction false} DistinctChoice(num: Reading, c: Json)
    requires GoodChoice(num, c)
    ensures DistinctChannels(ChoiceFields(num, c))
  {
    var d := Get(c, "delta");
    var a, b := if d.Some? then DeltaFields(num, d.value) else [], Field("text", StrAt(c, "text"), false);
    if d.Some? { DistinctDelta(num, d.value); }
    forall i | 0 <= i < |a| ensures !Lists(b, a[i].channel) {
      FieldListed("text", StrAt(c, "text"), false, a[i].channel, "");
      assert Lists(a, a[i].channel);
    }
    DistinctConcat(a, b);
  }

  lemma {:induction false} DistinctChoices(num: Reading, items: seq<Json>, at: nat)
    requires GoodChoices(num, items, at)
    ensures DistinctChannels(Choices(num, items, at))
    decreases |items|
  {
    if items != [] {
      var no := ChoiceNo(num, items[0], at);
      var fields := ChoiceFields(num, items[0]);
      var head := Prefixed(Numbered("c", no), fields);
      DistinctChoice(num, items[0]);
      DistinctPrefixed(Numbered("c", no), fields);
      DistinctChoices(num, items[1..], at + 1);
      forall i | 0 <= i < |head| ensures !Lists(Choices(num, items[1..], at + 1), head[i].channel) {
        NoChoiceUnlisted(num, items[1..], at + 1, no, fields[i].channel);
      }
      DistinctConcat(head, Choices(num, items[1..], at + 1));
    }
  }

  lemma {:induction false} DistinctNamed(d: Json, names: seq<Named>, known: seq<string>)
    requires SlotEvents.Proper(names, known)
    ensures DistinctChannels(NamedFields(d, names))
    ensures forall i :: 0 <= i < |NamedFields(d, names)| ==> !Begins(NamedFields(d, names)[i].channel, "x")
  {
    if names != [] {
      ProperRest(names, known);
      DistinctNamed(d, names[1..], known);
      NamedUnlisted(d, names[1..], names[0].field);
      FieldApart(names[0].field, StrAt(d, names[0].key), names[0].escape, NamedFields(d, names[1..]));
    }
  }

  lemma {:induction false} GenericBegins(es: seq<Entry>, known: seq<string>)
    ensures forall i :: 0 <= i < |Generic(es, known)| ==> Begins(Generic(es, known)[i].channel, "x") && !Generic(es, known)[i].escape
  {
    if es != [] {
      GenericBegins(es[1..], known);
      assert ("x" + es[0].key)[..1] == "x";
    }
  }

  lemma {:induction false} DistinctObject(d: Json, names: seq<Named>, known: seq<string>)
    requires SlotEvents.Proper(names, known) && (d.Obj? ==> DistinctKeys(d.entries))
    ensures DistinctChannels(ObjectFields(d, names, known))
  {
    if d.Obj? {
      DistinctNamed(d, names, known);
      DistinctGeneric(d.entries, known);
      GenericBegins(d.entries, known);
      DistinctConcat(NamedFields(d, names), Generic(d.entries, known));
    }
  }

  lemma {:induction false} DistinctLocals(d: Json)
    requires Get(d, "message").Some? && Get(d, "message").value.Obj? ==> DistinctKeys(Get(d, "message").value.entries)
    ensures DistinctChannels(LocalSlots(d))
  {
    if Get(d, "done").Some? {
      var m := Get(d, "message");
      var b, c := Field("o.response", StrAt(d, "response"), false), Field("o.thinking", StrAt(d, "thinking"), false);
      ProperNames();
      if m.Some? {
        DistinctObject(m.value, MESSAGE, MESSAGE_KNOWN);
        DistinctPrefixed("o.message.", ObjectFields(m.value, MESSAGE, MESSAGE_KNOWN));
      }
      assert "o.response"[2] == 'r' && "o.thinking"[2] == 't';
      DistinctConcat(b, c);
      var a := MessageSlots(m);
      forall i | 0 <= i < |a| ensures !Lists(b + c, a[i].channel) {
        assert a[i].channel[2] == 'm';
      }
      LocalParts(d);
      DistinctConcat(a, b + c);
    }
  }

  lemma {:induction false} FirstsApart(a: seq<Slot>, x: char, b: seq<Slot>, y: char)
    requires AllFirst(a, x) && AllFirst(b, y) && x != y
    ensures Apart(a, b)
  {
  }

  lemma {:induction false} ApartConcat(a: seq<Slot>, b: seq<Slot>, c: seq<Slot>)
    requires Apart(a, b) && Apart(a, c)
    ensures Apart(a, b + c)
  {
    forall i | 0 <= i < |a| ensures !Lists(b + c, a[i].channel) { ListsConcat(b, c, a[i].channel); }
  }

  lemma {:induction false} DistinctBlocks(num: Reading, d: Json)
    requires GoodEvent(num, d)
    ensures DistinctChannels(BlockSlots(num, d))
  {
    ProperNames();
    if Get(d, "delta").Some? {
      DistinctObject(Get(d, "delta").value, BLOCK, BLOCK_KNOWN);
      DistinctPrefixed(Numbered("a", IndexAt(num, d, "index", 0)), ObjectFields(Get(d, "delta").value, BLOCK, BLOCK_KNOWN));
    }
  }

  /** No channel is listed twice in a good event. */
  lemma {:induction false} DistinctSlots(num: Reading, d: Json)
    requires GoodEvent(num, d)
    ensures DistinctChannels(TextSlots(num, d))
  {
    var a, b, c, o := ChoiceSlots(num, d), BlockSlots(num, d), ResponseSlots(num, d), LocalSlots(d);
    DistinctChoices(num, ItemsAt(d, "choices"), 0);
    DistinctBlocks(num, d);
    DistinctLocals(d);
    ChoicesFirst(num, ItemsAt(d, "choices"), 0);
    BlocksFirst(num, d);
    ResponsesFirst(num, d);
    LocalsFirst(d);
    FirstsApart(c, 'r', o, 'o');
    DistinctConcat(c, o);
    FirstsApart(b, 'a', c, 'r');
    FirstsApart(b, 'a', o, 'o');
    ApartConcat(b, c, o);
    DistinctConcat(b, c + o);
    FirstsApart(a, 'c', b, 'a');
    FirstsApart(a, 'c', c, 'r');
    FirstsApart(a, 'c', o, 'o');
    ApartConcat(a, c, o);
    ApartConcat(a, b, c + o);
    DistinctConcat(a, b + (c + o));
  }

  // ------------------------------------------------------------------ escape flags

  /** What follows the first dot of a channel. */
  function After(ch: string): string {
    if ch == "" then "" else var rest := ch[1..]; if Dot(rest) < |rest| then rest[Dot(rest) + 1..] else ""
  }

  predicate ResponseEscape(body: string) {
    body == "args" || (Begins(body, "gen.x") && (Contains(body[5..], "arguments") || Contains(body[5..], "tool")))
  }

  /** Which channels carry JSON inside a string: tool-call arguments of every family. */
  predicate EscapeOf(ch: string) {
    && ch != ""
    && (if ch[0] == 'c' then KindOf(After(ch)) in {Tool, Call}
        else if ch[0] == 'a' then After(ch) == "pj"
        else if ch[0] == 'r' then ResponseEscape(BodyKind(After(ch)))
        else false)
  }

  predicate ToolKind(k: Kind) { k == Tool || k == Call }

  ghost predicate Marked(slots: seq<Slot>) { forall i :: 0 <= i < |slots| ==> slots[i].escape == ToolKind(KindOf(slots[i].channel)) }

  lemma {:induction false} MarkedConcat(a: seq<Slot>, b: seq<Slot>)
    requires Marked(a) && Marked(b)
    ensures Marked(a + b)
  {
  }

  lemma {:induction false} DetailsMarked(items: seq<Json>, n: nat)
    ensures Marked(Details(items, n))
  {
    if items != [] {
      KindOfDetail(Decimal(n));
      DetailsMarked(items[1..], n + 1);
    }
  }

  lemma {:induction false} ToolsMarked(num: Reading, items: seq<Json>, at: nat)
    ensures Marked(Tools(num, items, at))
  {
    if items != [] {
      KindOfTool(Decimal(ToolNo(num, items[0], at)));
      ToolsMarked(num, items[1..], at + 1);
    }
  }

  lemma {:induction false} GenericMarked(es: seq<Entry>, known: seq<string>)
    ensures Marked(Generic(es, known))
  {
    GenericKind(es, known);
    GenericBegins(es, known);
  }

  lemma {:induction false} DeltaMarked(num: Reading, d: Json)
    ensures Marked(DeltaFields(num, d))
  {
    if d.Obj? {
      var v := ViewOf(d);
      var s := SegmentsOf(num, v);
      FieldKinds();
      DetailsMarked(v.details, 0);
      ToolsMarked(num, v.tools, 0);
      GenericMarked(d.entries, CHAT_KNOWN);
      MarkedConcat(s.f, s.g);
      MarkedConcat(s.e, s.f + s.g);
      MarkedConcat(s.d, s.e + (s.f + s.g));
      MarkedConcat(s.c, s.d + (s.e + (s.f + s.g)));
      MarkedConcat(s.b, s.c + (s.d + (s.e + (s.f + s.g))));
      MarkedConcat(s.a, s.b + (s.c + (s.d + (s.e + (s.f + s.g)))));
    }
  }

  lemma {:induction false} FlagsConcat(a: seq<Slot>, b: seq<Slot>)
    requires Flags(a, EscapeOf) && Flags(b, EscapeOf)
    ensures Flags(a + b, EscapeOf)
  {
  }

  lemma {:induction false} ChoiceFlags(num: Reading, items: seq<Json>, at: nat)
    ensures Flags(Choices(num, items, at), EscapeOf)
  {
    if items != [] {
      var no := ChoiceNo(num, items[0], at);
      var d, fields := Get(items[0], "delta"), ChoiceFields(num, items[0]);
      var head := Prefixed(Numbered("c", no), fields);
      FieldKinds();
      if d.Some? { DeltaMarked(num, d.value); }
      MarkedConcat(if d.Some? then DeltaFields(num, d.value) else [], Field("text", StrAt(items[0], "text"), false));
      forall i | 0 <= i < |head| ensures head[i].escape == EscapeOf(head[i].channel) {
        TakeApart("c", no, fields[i].channel);
      }
      ChoiceFlags(num, items[1..], at + 1);
      FlagsConcat(head, Choices(num, items[1..], at + 1));
    }
  }

  /** The fields of an object are escaped if and only if they are the partial JSON of a block. */
  ghost predicate PartialJson(slots: seq<Slot>) { forall i :: 0 <= i < |slots| ==> slots[i].escape == (slots[i].channel == "pj") }

  lemma {:induction false} NamedPartial(d: Json, names: seq<Named>)
    requires forall i :: 0 <= i < |names| ==> names[i].escape == (names[i].field == "pj")
    ensures PartialJson(NamedFields(d, names))
  {
    if names != [] {
      forall i | 0 <= i < |names[1..]| ensures names[1..][i].escape == (names[1..][i].field == "pj") {
        assert names[i + 1].escape == (names[i + 1].field == "pj");
      }
      assert names[0].escape == (names[0].field == "pj");
      NamedPartial(d, names[1..]);
    }
  }

  lemma {:induction false} ObjectPartial(d: Json, names: seq<Named>, known: seq<string>)
    requires forall i :: 0 <= i < |names| ==> names[i].escape == (names[i].field == "pj")
    ensures PartialJson(ObjectFields(d, names, known))
  {
    if d.Obj? {
      NamedPartial(d, names);
      GenericBegins(d.entries, known);
      BeginsHead("pj", "x");
    }
  }

  lemma {:induction false} BlockFlags(num: Reading, d: Json)
    ensures Flags(BlockSlots(num, d), EscapeOf)
  {
    if Get(d, "delta").Some? {
      var n := IndexAt(num, d, "index", 0);
      var fields := ObjectFields(Get(d, "delta").value, BLOCK, BLOCK_KNOWN);
      assert "text"[0] != "pj"[0] && "think"[0] != "pj"[0];
      ObjectPartial(Get(d, "delta").value, BLOCK, BLOCK_KNOWN);
      var r := Prefixed(Numbered("a", n), fields);
      forall i | 0 <= i < |r| ensures r[i].escape == EscapeOf(r[i].channel) {
        TakeApart("a", n, fields[i].channel);
      }
    }
  }

  lemma {:induction false} LocalFlags(d: Json)
    ensures Flags(LocalSlots(d), EscapeOf)
  {
    if Get(d, "done").Some? {
      LocalsFirst(d);
      var m := Get(d, "message");
      assert "content"[0] != "pj"[0] && "thinking"[0] != "pj"[0];
      if m.Some? {
        ObjectPartial(m.value, MESSAGE, MESSAGE_KNOWN);
        NoPartial(m.value);
      }
    }
  }

  lemma {:induction false} NoPartial(m: Json)
    ensures forall i :: 0 <= i < |ObjectFields(m, MESSAGE, MESSAGE_KNOWN)| ==> !ObjectFields(m, MESSAGE, MESSAGE_KNOWN)[i].escape
  {
    if m.Obj? {
      GenericBegins(m.entries, MESSAGE_KNOWN);
      NamedPlain(m, MESSAGE);
    }
  }

  lemma {:induction false} NamedPlain(m: Json, names: seq<Named>)
    requires forall i :: 0 <= i < |names| ==> !names[i].escape
    ensures forall i :: 0 <= i < |NamedFields(m, names)| ==> !NamedFields(m, names)[i].escape
  {
    if names != [] {
      assert !names[0].escape;
      forall i | 0 <= i < |names[1..]| ensures !names[1..][i].escape { assert !names[i + 1].escape; }
      NamedPlain(m, names[1..]);
    }
  }

  /** The kind of a response channel tells its flag. */
  lemma {:induction false} KindEscape(t: string)
    requires ResponseKind(t).Some?
    ensures var k := ResponseKind(t).value; k.0 != "" && !IsDigit(k.0[0]) && k.1 == ResponseEscape(k.0)
  {
    assert "text"[0] != "args"[0] && "reason"[0] != "args"[0];
    assert !Begins("text", "gen.x") && !Begins("args", "gen.x");
    BeginsHead("reason", "gen.x");
    var g := "gen.x" + t;
    assert g[0] == 'g' && g[..5] == "gen.x" && g[5..] == t;
  }

  /** The kind of a response channel without the content number in front of it. */
  function BodyKind(body: string): string {
    if body != "" && IsDigit(body[0]) && Dot(body) < |body| then body[Dot(body) + 1..] else body
  }

  lemma {:induction false} BodyOf(ci: nat, kind: string)
    requires kind != "" && !IsDigit(kind[0])
    ensures BodyKind(if ci > 0 then Decimal(ci) + ("." + kind) else kind) == kind
  {
    if ci > 0 {
      var body := Decimal(ci) + ("." + kind);
      DecimalParses(ci);
      DotAfterDigits(Decimal(ci), kind);
      assert IsDigit(body[0]);
      assert body[Dot(body) + 1..] == kind;
    }
  }

  lemma {:induction false} ResponseChannelEscape(oi: nat, body: string)
    ensures EscapeOf(Numbered("r", oi) + body) == ResponseEscape(BodyKind(body))
  {
    TakeApart("r", oi, body);
  }

  lemma {:induction false} ResponseChannel(num: Reading, d: Json, kind: string)
    ensures var ci := IndexAt(num, d, "content_index", 0);
            ResponsePrefix(num, d) + kind
            == Numbered("r", IndexAt(num, d, "output_index", 0)) + (if ci > 0 then Decimal(ci) + ("." + kind) else kind)
  {
    var ci, p := IndexAt(num, d, "content_index", 0), Numbered("r", IndexAt(num, d, "output_index", 0));
    if ci > 0 {
      assert p + (Decimal(ci) + ".") + kind == p + (Decimal(ci) + ("." + kind));
    } else {
      assert p + "" == p;
    }
  }

  lemma {:induction false} ResponseFlags(num: Reading, d: Json)
    ensures Flags(ResponseSlots(num, d), EscapeOf)
  {
    var k := ResponseKind(TypeOf(d));
    if k.Some? {
      var kind, ci := k.value.0, IndexAt(num, d, "content_index", 0);
      KindEscape(TypeOf(d));
      BodyOf(ci, kind);
      ResponseChannel(num, d, kind);
      ResponseChannelEscape(IndexAt(num, d, "output_index", 0), if ci > 0 then Decimal(ci) + ("." + kind) else kind);
      var slots := ResponseSlots(num, d);
      assert forall i :: 0 <= i < |slots| ==> slots[i].channel == ResponsePrefix(num, d) + kind && slots[i].escape == k.value.1;
    }
  }

  lemma {:induction false} SlotFlags(num: Reading, d: Json)
    ensures Flags(TextSlots(num, d), EscapeOf)
  {
    var a, b, c, o := ChoiceSlots(num, d), BlockSlots(num, d), ResponseSlots(num, d), LocalSlots(d);
    ChoiceFlags(num, ItemsAt(d, "choices"), 0);
    BlockFlags(num, d);
    ResponseFlags(num, d);
    LocalFlags(d);
    FlagsConcat(c, o);
    FlagsConcat(b, c + o);
    FlagsConcat(a, b + (c + o));
  }

  // --------------------------------------------------------- ends, and calm events

  predicate Finished(c: Json) {
    var f := Get(c, "finish_reason");
    f.Some? && !f.value.Null? && (f.value.Str? ==> !All(IsWhite, f.value.s))
  }

  function FinishedChoices(num: Reading, items: seq<Json>, at: nat): seq<string> {
    if items == [] then []
    else (if Finished(items[0]) then [Numbered("c", ChoiceNo(num, items[0], at))] else []) + FinishedChoices(num, items[1..], at + 1)
  }

  /** terminal_prefixes: None ends every channel, an empty list none. */
  function TerminalPrefixes(num: Reading, d: Json): Option<seq<string>> {
    var t := TypeOf(d);
    if !d.Obj? then Some([])
    else if Get(d, "done") == Some(Bool(true)) then None
    else if t in ["message_stop", "message_delta", "response.completed", "response.incomplete", "response.failed"] then None
    else if t == "content_block_stop" then Some([Numbered("a", IndexAt(num, d, "index", 0))])
    else if t == "response.output_text.done" then Some([ResponsePrefix(num, d) + "text"])
    else if t == "response.reasoning_text.done" || t == "response.reasoning_summary_text.done" then Some([ResponsePrefix(num, d) + "reason"])
    else if t == "response.function_call_arguments.done" then Some([ResponsePrefix(num, d) + "args"])
    else Some(FinishedChoices(num, ItemsAt(d, "choices"), 0))
  }

  function CalmChoices(items: seq<Json>): seq<Json> {
    if items == [] then []
    else [if items[0].Obj? then Put(items[0], "finish_reason", Null) else items[0]] + CalmChoices(items[1..])
  }

  /** A flush frame must not end anything: finish reasons become null and `done` false. */
  function Calm(d: Json): Json {
    var v := Get(d, "choices");
    var e := if v.Some? && v.value.Arr? then Put(d, "choices", Arr(CalmChoices(v.value.items))) else d;
    if Get(e, "done").Some? then Put(e, "done", Bool(false)) else e
  }

  lemma {:induction false} CalmChoicesSame(num: Reading, items: seq<Json>, at: nat)
    ensures Choices(num, CalmChoices(items), at) == Choices(num, items, at)
  {
    if items != [] {
      var c := items[0];
      if c.Obj? {
        PutGetOther(c, "finish_reason", Null, "delta");
        PutGetOther(c, "finish_reason", Null, "text");
        PutGetOther(c, "finish_reason", Null, "index");
      }
      CalmChoicesSame(num, items[1..], at + 1);
      assert CalmChoices(items)[1..] == CalmChoices(items[1..]);
    }
  }

  lemma {:induction false} CalmFirst(num: Reading, d: Json, items: seq<Json>)
    requires d.Obj? && Get(d, "choices") == Some(Arr(items))
    ensures TextSlots(num, Put(d, "choices", Arr(CalmChoices(items)))) == TextSlots(num, d)
  {
    var e := Put(d, "choices", Arr(CalmChoices(items)));
    PutTop(d, "choices", Arr(CalmChoices(items)));
    CalmChoicesSame(num, items, 0);
    SameBlocks(num, d, e);
    SameResponses(num, d, e);
    SameLocals(d, e);
  }

  lemma {:induction false} CalmSecond(num: Reading, d: Json)
    requires d.Obj? && Get(d, "done").Some?
    ensures TextSlots(num, Put(d, "done", Bool(false))) == TextSlots(num, d)
  {
    var e := Put(d, "done", Bool(false));
    PutTop(d, "done", Bool(false));
    SameChoices(num, d, e);
    SameBlocks(num, d, e);
    SameResponses(num, d, e);
    SameLocals(d, e);
  }

  /** Removing the ending signals leaves every text where it is. */
  lemma {:induction false} CalmKeeps(num: Reading, d: Json)
    ensures TextSlots(num, Calm(d)) == TextSlots(num, d)
  {
    var v := Get(d, "choices");
    var e := if v.Some? && v.value.Arr? then Put(d, "choices", Arr(CalmChoices(v.value.items))) else d;
    if v.Some? && v.value.Arr? { CalmFirst(num, d, v.value.items); }
    if Get(e, "done").Some? { CalmSecond(num, e); }
  }

  // ------------------------------------------------------------------- the instance

  function SlotsWith(num: Reading): Json -> seq<Slot> { d => TextSlots(num, d) }
  function SetWith(num: Reading): (Json, string, string) -> Json { (d, ch, t) => SetSlot(num, d, ch, t) }
  function EndsFor(num: Reading): Json -> Option<seq<string>> { d => TerminalPrefixes(num, d) }
  function CalmIt(): Json -> Json { d => Calm(d) }
  ghost function GoodWith(num: Reading): Json -> bool { d => GoodEvent(num, d) }

  /** The protocols of the proxy. */
  function Proxied(num: Reading): Protocol { Protocol(SlotsWith(num), SetWith(num), EndsFor(num), CalmIt()) }

  /** They obey the lens laws, however numbers are read. */
  lemma {:induction false} ProxiedLawful(num: Reading)
    ensures Lawful(Proxied(num), GoodWith(num), EscapeOf)
  {
    var p, good := Proxied(num), GoodWith(num);
    forall d | good(d) ensures DistinctChannels(p.slots(d)) && Flags(p.slots(d), EscapeOf) {
      DistinctSlots(num, d);
      SlotFlags(num, d);
    }
    forall d, ch, t | good(d) && Lists(p.slots(d), ch)
      ensures good(p.set_(d, ch, t)) && p.slots(p.set_(d, ch, t)) == PutText(p.slots(d), ch, t)
    {
      SetSlotLaw(num, d, ch, t);
    }
    forall d | good(d) ensures p.slots(p.calm(d)) == p.slots(d) { CalmKeeps(num, d); }
  }
}
