/**
 Which members of an event are streamed text, said of the JSON itself: every string of a delta
 container but for role, type and index, and a few texts at fixed places. The listing of an
 event is exactly these, each once, so no text can be left out of the stream theorems.
 */
module Members {
  import opened Wrappers
  import opened Placeholders
  import opened Tree
  import opened Sse
  import opened Slots
  import opened SlotEvents
  import SlotLaws

  // ------------------------------------------------------------------------- places

  /** A place in the delta of a choice. */
  datatype Part = Key(key: string) | Detail(n: nat) | Tool(n: nat) | Call

  /** A place in an event. */
  datatype Place =
    | InDelta(i: nat, part: Part)      // choices[i].delta
    | InChoice(i: nat)                 // choices[i].text
    | InBlock(key: string)             // delta[key] of a content block
    | TopDelta                         // delta, a string
    | InMessage(key: string)           // message[key] of a local model
    | Beside(key: string)              // response and thinking beside it

  function Inside(o: Option<Json>, k: string): Option<Json> { if o.Some? then Get(o.value, k) else None }

  function Item(o: Option<Json>, n: nat): Option<Json> {
    if o.Some? && o.value.Arr? && n < |o.value.items| then Some(o.value.items[n]) else None
  }

  /** The string at a place of a delta. */
  function PartAt(delta: Option<Json>, part: Part): Option<string> {
    match part
    case Key(k) => StrOf(Inside(delta, k))
    case Detail(n) => StrOf(Inside(Item(Inside(delta, "reasoning_details"), n), "text"))
    case Tool(n) => StrOf(Inside(Inside(Item(Inside(delta, "tool_calls"), n), "function"), "arguments"))
    case Call => StrOf(Inside(Inside(delta, "function_call"), "arguments"))
  }

  /** The string at a place of an event. */
  function At(d: Json, pl: Place): Option<string> {
    match pl
    case InDelta(i, part) => PartAt(Inside(Item(Get(d, "choices"), i), "delta"), part)
    case InChoice(i) => StrOf(Inside(Item(Get(d, "choices"), i), "text"))
    case InBlock(k) => StrOf(Inside(Get(d, "delta"), k))
    case TopDelta => StrOf(Get(d, "delta"))
    case InMessage(k) => StrOf(Inside(Get(d, "message"), k))
    case Beside(k) => StrOf(Get(d, k))
  }

  /** Neither structure nor one of the containers looked into. */
  predicate TextKey(k: string) {
    && k != "role" && k != "type" && k != "index"
    && k != "reasoning_details" && k != "tool_calls" && k != "function_call"
  }

  /** The places that carry streamed text, by the family of the event. */
  predicate Streams(d: Json, pl: Place) {
    match pl
    case InDelta(_, part) => part.Key? ==> TextKey(part.key)
    case InChoice(_) => true
    case InBlock(k) => StrOf(Get(d, "type")) == Some("content_block_delta") && k != "type"
    case TopDelta => StrOf(Get(d, "type")).Some? && EndsWith(StrOf(Get(d, "type")).value, ".delta")
    case InMessage(k) => Get(d, "done").Some? && k != "role" && k != "tool_calls"
    case Beside(k) => Get(d, "done").Some? && (k == "response" || k == "thinking")
  }

  // ------------------------------------------------------- the channel of a place

  /** The number under a key is what stands there, if that is a whole number, and the default otherwise. */
  lemma {:induction false} NumberIs(num: Reading, j: Json, k: string, default: nat)
    ensures forall text :: Get(j, k) == Some(Num(text)) && num(text).Some? ==> IndexAt(num, j, k, default) == num(text).value
    ensures !(exists text :: Get(j, k) == Some(Num(text)) && num(text).Some?) ==> IndexAt(num, j, k, default) == default
  {
    var v := Get(j, k);
    if v.Some? && v.value.Num? { assert v == Some(Num(v.value.text)); }
  }

  function PartField(num: Reading, delta: Option<Json>, part: Part): string {
    match part
    case Key(k) =>
      if k == "content" then "content"
      else if k == "reasoning_content" then "reason"
      else if k == "reasoning" then "reason2"
      else "x" + k
    case Detail(n) => "rd" + Decimal(n)
    case Tool(n) =>
      var tc := Item(Inside(delta, "tool_calls"), n);
      "tool" + Decimal(if tc.Some? then IndexAt(num, tc.value, "index", n) else n)
    case Call => "fcall"
  }

  function ChoicePrefix(num: Reading, d: Json, i: nat): string {
    var c := Item(Get(d, "choices"), i);
    Numbered("c", if c.Some? then IndexAt(num, c.value, "index", i) else i)
  }

  function BlockField(k: string): string { if k == "text" then "text" else if k == "thinking" then "think" else if k == "partial_json" then "pj" else "x" + k }

  function MessageField(k: string): string { if k == "content" || k == "thinking" then k else "x" + k }

  function TopField(t: string): string {
    if t == "response.output_text.delta" then "text"
    else if t == "response.reasoning_summary_text.delta" || t == "response.reasoning_text.delta" then "reason"
    else if t == "response.function_call_arguments.delta" then "args"
    else "gen.x" + t
  }

  function ChannelAt(num: Reading, d: Json, pl: Place): string {
    match pl
    case InDelta(i, part) => ChoicePrefix(num, d, i) + PartField(num, Inside(Item(Get(d, "choices"), i), "delta"), part)
    case InChoice(i) => ChoicePrefix(num, d, i) + "text"
    case InBlock(k) => Numbered("a", IndexAt(num, d, "index", 0)) + BlockField(k)
    case TopDelta =>
      var ci := IndexAt(num, d, "content_index", 0);
      Numbered("r", IndexAt(num, d, "output_index", 0)) + (if ci > 0 then Decimal(ci) + "." else "")
        + TopField(TypeOf(d))
    case InMessage(k) => "o.message." + MessageField(k)
    case Beside(k) => "o." + k
  }

  predicate TopEscape(t: string) {
    t == "response.function_call_arguments.delta"
    || (t !in ["response.output_text.delta", "response.reasoning_summary_text.delta", "response.reasoning_text.delta"]
        && (Contains(t, "arguments") || Contains(t, "tool")))
  }

  /** Arguments of tools are JSON inside a string. */
  predicate EscapedAt(d: Json, pl: Place) {
    match pl
    case InDelta(_, part) => part.Tool? || part.Call?
    case InBlock(k) => k == "partial_json"
    case TopDelta => TopEscape(TypeOf(d))
    case _ => false
  }

  /** A streamed text, with the channel of its place. */
  ghost predicate Carries(num: Reading, d: Json, pl: Place, s: Slot) {
    Streams(d, pl) && At(d, pl) == Some(s.text) && s.channel == ChannelAt(num, d, pl) && s.escape == EscapedAt(d, pl)
  }

  // ------------------------------------------------------- the lists, member by member

  /** A generic slot comes from a key that is not known. */
  lemma {:induction false} GenericFrom(es: seq<Entry>, known: seq<string>, s: Slot) returns (k: string)
    requires s in Generic(es, known) && DistinctKeys(es)
    ensures k !in known && StrOf(Find(es, k)) == Some(s.text) && s.channel == "x" + k && !s.escape
  {
    if es[0].key !in known && es[0].value.Str? && s == Slot("x" + es[0].key, es[0].value.s, false) {
      k := es[0].key;
    } else {
      DistinctRest(es);
      k := GenericFrom(es[1..], known, s);
      FoundKey(es[1..], k);
    }
  }

  lemma {:induction false} GenericHas(es: seq<Entry>, known: seq<string>, k: string)
    requires k !in known && StrOf(Find(es, k)).Some?
    ensures Slot("x" + k, StrOf(Find(es, k)).value, false) in Generic(es, known)
  {
    if es[0].key != k { GenericHas(es[1..], known, k); }
  }

  lemma {:induction false} DetailsFrom(items: seq<Json>, n: nat, s: Slot) returns (j: nat)
    requires s in Details(items, n)
    ensures j < |items| && StrAt(items[j], "text") == Some(s.text) && s.channel == "rd" + Decimal(n + j) && !s.escape
  {
    if s in Field("rd" + Decimal(n), StrAt(items[0], "text"), false) {
      j := 0;
    } else {
      j := DetailsFrom(items[1..], n + 1, s);
      j := j + 1;
    }
  }

  lemma {:induction false} DetailsHas(items: seq<Json>, n: nat, j: nat)
    requires j < |items| && StrAt(items[j], "text").Some?
    ensures Slot("rd" + Decimal(n + j), StrAt(items[j], "text").value, false) in Details(items, n)
  {
    if j > 0 { DetailsHas(items[1..], n + 1, j - 1); }
  }

  lemma {:induction false} ToolsFrom(num: Reading, items: seq<Json>, at: nat, s: Slot) returns (j: nat)
    requires s in Tools(num, items, at)
    ensures j < |items| && Arguments(Get(items[j], "function")) == Some(s.text)
    ensures s.channel == "tool" + Decimal(IndexAt(num, items[j], "index", at + j)) && s.escape
  {
    if s in Field("tool" + Decimal(ToolNo(num, items[0], at)), Arguments(Get(items[0], "function")), true) {
      j := 0;
    } else {
      j := ToolsFrom(num, items[1..], at + 1, s);
      j := j + 1;
    }
  }

  lemma {:induction false} ToolsHas(num: Reading, items: seq<Json>, at: nat, j: nat)
    requires j < |items| && Arguments(Get(items[j], "function")).Some?
    ensures Slot("tool" + Decimal(IndexAt(num, items[j], "index", at + j)), Arguments(Get(items[j], "function")).value, true)
         in Tools(num, items, at)
  {
    if j > 0 { ToolsHas(num, items[1..], at + 1, j - 1); }
  }

  lemma {:induction false} ItemsItem(j: Json, k: string, n: nat)
    ensures Item(Get(j, k), n) == if n < |ItemsAt(j, k)| then Some(ItemsAt(j, k)[n]) else None
  {
  }

  /** A slot of a delta stands at one of its places. */
  ghost predicate PartCarries(num: Reading, d: Json, part: Part, s: Slot) {
    && (part.Key? ==> TextKey(part.key)) && PartAt(Some(d), part) == Some(s.text)
    && s.channel == PartField(num, Some(d), part) && s.escape == (part.Tool? || part.Call?)
  }

  lemma {:induction false} KnownKeys(k: string)
    ensures k in CHAT_KNOWN <==> k in {"content", "reasoning_content", "reasoning"} || !TextKey(k)
  {
    var c := CHAT_KNOWN;
    assert c[0] == "content" && c[1] == "reasoning_content" && c[2] == "reasoning" && c[3] == "reasoning_details"
        && c[4] == "tool_calls" && c[5] == "function_call" && c[6] == "role" && c[7] == "type" && c[8] == "index";
  }

  lemma {:induction false} FieldPart(num: Reading, d: Json, k: string, f: string, s: Slot) returns (part: Part)
    requires (k, f) in [("content", "content"), ("reasoning_content", "reason"), ("reasoning", "reason2")]
    requires s in Field(f, StrAt(d, k), false)
    ensures PartCarries(num, d, part, s)
  {
    part := Part.Key(k);
    KnownKeys(k);
  }

  lemma {:induction false} CallPart(num: Reading, d: Json, s: Slot) returns (part: Part)
    requires s in Field("fcall", Arguments(Get(d, "function_call")), true)
    ensures PartCarries(num, d, part, s)
  {
    part := Part.Call;
  }

  lemma {:induction false} DeltaSegments(num: Reading, d: Json, s: Slot)
    requires d.Obj?
    ensures s in DeltaFields(num, d) <==>
              || s in Field("content", StrAt(d, "content"), false) || s in Field("reason", StrAt(d, "reasoning_content"), false)
              || s in Field("reason2", StrAt(d, "reasoning"), false) || s in Details(ItemsAt(d, "reasoning_details"), 0)
              || s in Tools(num, ItemsAt(d, "tool_calls"), 0) || s in Field("fcall", Arguments(Get(d, "function_call")), true)
              || s in Generic(d.entries, CHAT_KNOWN)
  {
  }

  lemma {:induction false} DeltaFrom(num: Reading, d: Json, s: Slot) returns (part: Part)
    requires s in DeltaFields(num, d) && GoodDelta(num, d)
    ensures PartCarries(num, d, part, s)
  {
    DeltaSegments(num, d, s);
    if s in Field("content", StrAt(d, "content"), false) { part := FieldPart(num, d, "content", "content", s); }
    else if s in Field("reason", StrAt(d, "reasoning_content"), false) { part := FieldPart(num, d, "reasoning_content", "reason", s); }
    else if s in Field("reason2", StrAt(d, "reasoning"), false) { part := FieldPart(num, d, "reasoning", "reason2", s); }
    else if s in Details(ItemsAt(d, "reasoning_details"), 0) { part := DetailPart(num, d, s); }
    else if s in Tools(num, ItemsAt(d, "tool_calls"), 0) { part := ToolPart(num, d, s); }
    else if s in Field("fcall", Arguments(Get(d, "function_call")), true) { part := CallPart(num, d, s); }
    else { part := KeyPart(num, d, s); }
  }

  lemma {:induction false} DetailPart(num: Reading, d: Json, s: Slot) returns (part: Part)
    requires s in Details(ItemsAt(d, "reasoning_details"), 0)
    ensures PartCarries(num, d, part, s)
  {
    var j := DetailsFrom(ItemsAt(d, "reasoning_details"), 0, s);
    ItemsItem(d, "reasoning_details", j);
    part := Part.Detail(j);
  }

  lemma {:induction false} ToolPart(num: Reading, d: Json, s: Slot) returns (part: Part)
    requires s in Tools(num, ItemsAt(d, "tool_calls"), 0)
    ensures PartCarries(num, d, part, s)
  {
    var j := ToolsFrom(num, ItemsAt(d, "tool_calls"), 0, s);
    ItemsItem(d, "tool_calls", j);
    part := Part.Tool(j);
  }

  lemma {:induction false} KeyPart(num: Reading, d: Json, s: Slot) returns (part: Part)
    requires d.Obj? && DistinctKeys(d.entries) && s in Generic(d.entries, CHAT_KNOWN)
    ensures PartCarries(num, d, part, s)
  {
    var k := GenericFrom(d.entries, CHAT_KNOWN, s);
    KnownKeys(k);
    part := Key(k);
  }

  /** And every place that has a string is listed. */
  lemma {:induction false} DeltaHas(num: Reading, d: Json, part: Part, s: Slot)
    requires PartCarries(num, d, part, s)
    ensures s in DeltaFields(num, d)
  {
    assert d.Obj?;
    DeltaSegments(num, d, s);
    match part
    case Detail(n) =>
      ItemsItem(d, "reasoning_details", n);
      DetailsHas(ItemsAt(d, "reasoning_details"), 0, n);
    case Tool(n) =>
      ItemsItem(d, "tool_calls", n);
      ToolsHas(num, ItemsAt(d, "tool_calls"), 0, n);
    case Call =>
    case Key(k) =>
      KnownKeys(k);
      if k !in CHAT_KNOWN { GenericHas(d.entries, CHAT_KNOWN, k); }
  }

  lemma {:induction false} PrefixedFrom(p: string, slots: seq<Slot>, s: Slot) returns (f: Slot)
    requires s in Prefixed(p, slots)
    ensures f in slots && s == Slot(p + f.channel, f.text, f.escape)
  {
    var r := Prefixed(p, slots);
    var i :| 0 <= i < |r| && r[i] == s;
    f := slots[i];
  }

  lemma {:induction false} PrefixedHas(p: string, slots: seq<Slot>, f: Slot)
    requires f in slots
    ensures Slot(p + f.channel, f.text, f.escape) in Prefixed(p, slots)
  {
    var i :| 0 <= i < |slots| && slots[i] == f;
    assert Prefixed(p, slots)[i] == Slot(p + f.channel, f.text, f.escape);
  }

  /** A slot of the choices: a place in the delta of one of them, or its text. */
  ghost predicate ChoiceCarries(num: Reading, c: Json, at: nat, part: Option<Part>, s: Slot) {
    var p := Numbered("c", IndexAt(num, c, "index", at));
    match part
    case Some(x) =>
      && (x.Key? ==> TextKey(x.key)) && PartAt(Get(c, "delta"), x) == Some(s.text)
      && s.channel == p + PartField(num, Get(c, "delta"), x) && s.escape == (x.Tool? || x.Call?)
    case None => StrAt(c, "text") == Some(s.text) && s.channel == p + "text" && !s.escape
  }

  lemma {:induction false} ChoiceFrom(num: Reading, c: Json, at: nat, s: Slot) returns (part: Option<Part>)
    requires s in Prefixed(Numbered("c", ChoiceNo(num, c, at)), ChoiceFields(num, c)) && GoodChoice(num, c)
    ensures ChoiceCarries(num, c, at, part, s)
  {
    var f := PrefixedFrom(Numbered("c", ChoiceNo(num, c, at)), ChoiceFields(num, c), s);
    var d := Get(c, "delta");
    if d.Some? && f in DeltaFields(num, d.value) {
      var x := DeltaFrom(num, d.value, f);
      part := Some(x);
    } else {
      assert f in Field("text", StrAt(c, "text"), false);
      part := None;
    }
  }

  lemma {:induction false} ChoiceHas(num: Reading, c: Json, at: nat, part: Option<Part>, s: Slot)
    requires ChoiceCarries(num, c, at, part, s)
    ensures s in Prefixed(Numbered("c", ChoiceNo(num, c, at)), ChoiceFields(num, c))
  {
    var p, d := Numbered("c", ChoiceNo(num, c, at)), Get(c, "delta");
    if part.Some? {
      var f := Slot(PartField(num, d, part.value), s.text, s.escape);
      DeltaSome(d, part.value);
      DeltaHas(num, d.value, part.value, f);
      PrefixedHas(p, ChoiceFields(num, c), f);
    } else {
      PrefixedHas(p, ChoiceFields(num, c), Slot("text", s.text, false));
    }
  }

  lemma {:induction false} DeltaSome(d: Option<Json>, part: Part)
    requires PartAt(d, part).Some?
    ensures d.Some?
  {
  }

  /** The choice at i carries the text. */
  ghost predicate CarriedAt(num: Reading, items: seq<Json>, at: nat, i: nat, part: Option<Part>, s: Slot) {
    i < |items| && ChoiceCarries(num, items[i], at + i, part, s)
  }

  lemma {:induction false} CarriedFirst(num: Reading, items: seq<Json>, at: nat, part: Option<Part>, s: Slot)
    requires items != [] && ChoiceCarries(num, items[0], at, part, s)
    ensures CarriedAt(num, items, at, 0, part, s)
  {
  }

  lemma {:induction false} CarriedNext(num: Reading, items: seq<Json>, at: nat, i: nat, part: Option<Part>, s: Slot)
    requires items != [] && CarriedAt(num, items[1..], at + 1, i, part, s)
    ensures CarriedAt(num, items, at, i + 1, part, s)
  {
    assert items[1..][i] == items[i + 1] && at + 1 + i == at + (i + 1);
  }

  lemma {:induction false} ChoicesSplit(num: Reading, items: seq<Json>, at: nat, s: Slot)
    requires s in Choices(num, items, at) && GoodChoices(num, items, at)
    ensures items != [] && GoodChoice(num, items[0]) && GoodChoices(num, items[1..], at + 1)
    ensures s in Prefixed(Numbered("c", ChoiceNo(num, items[0], at)), ChoiceFields(num, items[0])) || s in Choices(num, items[1..], at + 1)
  {
  }

  lemma {:induction false} ChoicesFrom(num: Reading, items: seq<Json>, at: nat, s: Slot) returns (i: nat, part: Option<Part>)
    requires s in Choices(num, items, at) && GoodChoices(num, items, at)
    ensures CarriedAt(num, items, at, i, part, s)
    decreases |items|
  {
    ChoicesSplit(num, items, at, s);
    if s in Choices(num, items[1..], at + 1) {
      i, part := ChoicesFrom(num, items[1..], at + 1, s);
      CarriedNext(num, items, at, i, part, s);
      i := i + 1;
    } else {
      i := 0;
      part := ChoiceFrom(num, items[0], at, s);
      CarriedFirst(num, items, at, part, s);
    }
  }

  lemma {:induction false} ChoicesHas(num: Reading, items: seq<Json>, at: nat, i: nat, part: Option<Part>, s: Slot)
    requires i < |items| && ChoiceCarries(num, items[i], at + i, part, s)
    ensures s in Choices(num, items, at)
    decreases |items|
  {
    if i == 0 { ChoiceHas(num, items[0], at, part, s); } else { ChoicesHas(num, items[1..], at + 1, i - 1, part, s); }
  }

  // The objects with a few named texts.

  lemma {:induction false} BlockNames()
    ensures forall d: Json, s: Slot :: s in NamedFields(d, BLOCK) <==>
              || (StrAt(d, "text") == Some(s.text) && s == Slot("text", s.text, false))
              || (StrAt(d, "thinking") == Some(s.text) && s == Slot("think", s.text, false))
              || (StrAt(d, "partial_json") == Some(s.text) && s == Slot("pj", s.text, true))
  {
    var n := BLOCK;
    assert n[1..] == [Named("think", "thinking", false), Named("pj", "partial_json", true)];
    assert n[1..][1..] == [Named("pj", "partial_json", true)] && n[1..][1..][1..] == [];
    forall d: Json ensures NamedFields(d, n) == Field("text", StrAt(d, "text"), false)
      + (Field("think", StrAt(d, "thinking"), false) + (Field("pj", StrAt(d, "partial_json"), true) + []))
    {
      assert NamedFields(d, n[1..][1..][1..]) == [];
      assert NamedFields(d, n[1..][1..]) == Field("pj", StrAt(d, "partial_json"), true) + [];
    }
  }

  lemma {:induction false} BlockKeys(k: string)
    ensures k in BLOCK_KNOWN <==> k == "text" || k == "thinking" || k == "partial_json" || k == "type"
  {
    var c := BLOCK_KNOWN;
    assert c[0] == "text" && c[1] == "thinking" && c[2] == "partial_json" && c[3] == "type";
  }

  ghost predicate BlockCarries(d: Json, k: string, s: Slot) {
    k != "type" && StrOf(Get(d, k)) == Some(s.text) && s.channel == BlockField(k) && s.escape == (k == "partial_json")
  }

  lemma {:induction false} BlockFrom(d: Json, s: Slot) returns (k: string)
    requires s in ObjectFields(d, BLOCK, BLOCK_KNOWN) && (d.Obj? ==> DistinctKeys(d.entries))
    ensures BlockCarries(d, k, s)
  {
    BlockNames();
    if s in NamedFields(d, BLOCK) {
      k := if s.channel == "text" then "text" else if s.channel == "think" then "thinking" else "partial_json";
      assert "text"[0] == 't' && "think"[1] == 'h' && "pj"[0] == 'p';
    } else {
      k := GenericFrom(d.entries, BLOCK_KNOWN, s);
      BlockKeys(k);
    }
  }

  lemma {:induction false} BlockHas(d: Json, k: string, s: Slot)
    requires BlockCarries(d, k, s)
    ensures s in ObjectFields(d, BLOCK, BLOCK_KNOWN)
  {
    BlockNames();
    BlockKeys(k);
    if k in BLOCK_KNOWN { assert s in NamedFields(d, BLOCK); } else { GenericHas(d.entries, BLOCK_KNOWN, k); }
  }

  lemma {:induction false} MessageNames()
    ensures forall d: Json, s: Slot :: s in NamedFields(d, MESSAGE) <==>
              || (StrAt(d, "content") == Some(s.text) && s == Slot("content", s.text, false))
              || (StrAt(d, "thinking") == Some(s.text) && s == Slot("thinking", s.text, false))
  {
    var n := MESSAGE;
    assert n[1..] == [Named("thinking", "thinking", false)] && n[1..][1..] == [];
    forall d: Json ensures NamedFields(d, n) == Field("content", StrAt(d, "content"), false)
      + (Field("thinking", StrAt(d, "thinking"), false) + [])
    {
      assert NamedFields(d, n[1..][1..]) == [];
    }
  }

  lemma {:induction false} MessageKeys(k: string)
    ensures k in MESSAGE_KNOWN <==> k == "content" || k == "thinking" || k == "role" || k == "tool_calls"
  {
    var c := MESSAGE_KNOWN;
    assert c[0] == "content" && c[1] == "thinking" && c[2] == "role" && c[3] == "tool_calls";
  }

  ghost predicate MessageCarries(d: Json, k: string, s: Slot) {
    k != "role" && k != "tool_calls" && StrOf(Get(d, k)) == Some(s.text) && s.channel == MessageField(k) && !s.escape
  }

  lemma {:induction false} MessageFrom(d: Json, s: Slot) returns (k: string)
    requires s in ObjectFields(d, MESSAGE, MESSAGE_KNOWN) && (d.Obj? ==> DistinctKeys(d.entries))
    ensures MessageCarries(d, k, s)
  {
    MessageNames();
    if s in NamedFields(d, MESSAGE) {
      k := s.channel;
      assert "content"[0] == 'c' && "thinking"[0] == 't' && "role"[0] == 'r' && "tool_calls"[1] == 'o' && "thinking"[1] == 'h';
    } else {
      k := GenericFrom(d.entries, MESSAGE_KNOWN, s);
      MessageKeys(k);
    }
  }

  lemma {:induction false} MessageHas(d: Json, k: string, s: Slot)
    requires MessageCarries(d, k, s)
    ensures s in ObjectFields(d, MESSAGE, MESSAGE_KNOWN)
  {
    MessageNames();
    MessageKeys(k);
    if k in MESSAGE_KNOWN { assert s in NamedFields(d, MESSAGE); } else { GenericHas(d.entries, MESSAGE_KNOWN, k); }
  }

  // ------------------------------------------------------------------- whole events

  lemma {:induction false} ChoiceSlotFrom(num: Reading, d: Json, s: Slot) returns (pl: Place)
    requires GoodEvent(num, d) && s in ChoiceSlots(num, d)
    ensures Carries(num, d, pl, s)
  {
    var i, part := ChoicesFrom(num, ItemsAt(d, "choices"), 0, s);
    ItemsItem(d, "choices", i);
    pl := if part.Some? then InDelta(i, part.value) else InChoice(i);
  }

  lemma {:induction false} BlockSlotFrom(num: Reading, d: Json, s: Slot) returns (pl: Place)
    requires GoodEvent(num, d) && s in BlockSlots(num, d)
    ensures Carries(num, d, pl, s)
  {
    var delta := Get(d, "delta").value;
    var f := PrefixedFrom(Numbered("a", IndexAt(num, d, "index", 0)), ObjectFields(delta, BLOCK, BLOCK_KNOWN), s);
    var k := BlockFrom(delta, f);
    pl := InBlock(k);
  }

  lemma {:induction false} TopKind(t: string)
    requires t != "" && EndsWith(t, ".delta")
    ensures ResponseKind(t) == Some((TopField(t), TopEscape(t)))
  {
    var known := ["response.output_text.delta", "response.reasoning_summary_text.delta", "response.reasoning_text.delta"];
    assert known[0] == "response.output_text.delta" && known[1] == "response.reasoning_summary_text.delta"
        && known[2] == "response.reasoning_text.delta";
    assert |"response.output_text.delta"| == 26 && |"response.reasoning_text.delta"| == 29
        && |"response.reasoning_summary_text.delta"| == 37 && |"response.function_call_arguments.delta"| == 38;
  }

  /** All types with a kind end that way. */
  lemma {:induction false} KindEnds(t: string)
    ensures ResponseKind(t).Some? ==> t != "" && EndsWith(t, ".delta")
  {
    assert "response.output_text.delta"[20..] == ".delta" && "response.reasoning_summary_text.delta"[31..] == ".delta";
    assert "response.reasoning_text.delta"[23..] == ".delta" && "response.function_call_arguments.delta"[32..] == ".delta";
  }

  lemma {:induction false} ResponseSlotFrom(num: Reading, d: Json, s: Slot) returns (pl: Place)
    requires s in ResponseSlots(num, d)
    ensures Carries(num, d, pl, s)
  {
    KindEnds(TypeOf(d));
    TopKind(TypeOf(d));
    pl := TopDelta;
  }

  lemma {:induction false} MessageSlotFrom(num: Reading, d: Json, m: Json, s: Slot) returns (pl: Place)
    requires GoodEvent(num, d) && Get(d, "done").Some? && Get(d, "message") == Some(m)
    requires s in Prefixed("o.message.", ObjectFields(m, MESSAGE, MESSAGE_KNOWN))
    ensures Carries(num, d, pl, s)
  {
    var f := PrefixedFrom("o.message.", ObjectFields(m, MESSAGE, MESSAGE_KNOWN), s);
    var k := MessageFrom(m, f);
    pl := InMessage(k);
  }

  lemma {:induction false} BesideSlotFrom(num: Reading, d: Json, k: string, s: Slot) returns (pl: Place)
    requires Get(d, "done").Some? && (k == "response" || k == "thinking") && s in Field("o." + k, StrAt(d, k), false)
    ensures Carries(num, d, pl, s)
  {
    pl := Beside(k);
  }

  lemma {:induction false} BesideNames()
    ensures "o." + "response" == "o.response" && "o." + "thinking" == "o.thinking"
  {
  }

  lemma {:induction false} LocalSlotFrom(num: Reading, d: Json, s: Slot) returns (pl: Place)
    requires GoodEvent(num, d) && s in LocalSlots(d)
    ensures Carries(num, d, pl, s)
  {
    var m := Get(d, "message");
    BesideNames();
    if m.Some? && s in Prefixed("o.message.", ObjectFields(m.value, MESSAGE, MESSAGE_KNOWN)) {
      pl := MessageSlotFrom(num, d, m.value, s);
    } else if s in Field("o.response", StrAt(d, "response"), false) {
      pl := BesideSlotFrom(num, d, "response", s);
    } else {
      pl := BesideSlotFrom(num, d, "thinking", s);
    }
  }

  /** Every listed text stands at a place. */
  lemma {:induction false} SlotFrom(num: Reading, d: Json, s: Slot) returns (pl: Place)
    requires GoodEvent(num, d) && s in TextSlots(num, d)
    ensures Carries(num, d, pl, s)
  {
    if s in ChoiceSlots(num, d) { pl := ChoiceSlotFrom(num, d, s); }
    else if s in BlockSlots(num, d) { pl := BlockSlotFrom(num, d, s); }
    else if s in ResponseSlots(num, d) { pl := ResponseSlotFrom(num, d, s); }
    else { pl := LocalSlotFrom(num, d, s); }
  }

  lemma {:induction false} ChoicePlaceHas(num: Reading, d: Json, pl: Place, s: Slot)
    requires Carries(num, d, pl, s) && (pl.InDelta? || pl.InChoice?)
    ensures s in ChoiceSlots(num, d)
  {
    ItemsItem(d, "choices", pl.i);
    if pl.InDelta? {
      DeltaSome(Inside(Item(Get(d, "choices"), pl.i), "delta"), pl.part);
      ChoicesHas(num, ItemsAt(d, "choices"), 0, pl.i, Some(pl.part), s);
    } else {
      ChoicesHas(num, ItemsAt(d, "choices"), 0, pl.i, None, s);
    }
  }

  lemma {:induction false} BlockPlaceHas(num: Reading, d: Json, k: string, s: Slot)
    requires Carries(num, d, InBlock(k), s)
    ensures s in BlockSlots(num, d)
  {
    var delta := Get(d, "delta").value;
    BlockHas(delta, k, Slot(BlockField(k), s.text, s.escape));
    PrefixedHas(Numbered("a", IndexAt(num, d, "index", 0)), ObjectFields(delta, BLOCK, BLOCK_KNOWN), Slot(BlockField(k), s.text, s.escape));
  }

  lemma {:induction false} TopPlaceHas(num: Reading, d: Json, s: Slot)
    requires Carries(num, d, TopDelta, s)
    ensures s in ResponseSlots(num, d)
  {
    TopKind(TypeOf(d));
  }

  lemma {:induction false} MessagePlaceHas(num: Reading, d: Json, k: string, s: Slot)
    requires Carries(num, d, InMessage(k), s)
    ensures s in LocalSlots(d)
  {
    var m := Get(d, "message").value;
    MessageHas(m, k, Slot(MessageField(k), s.text, s.escape));
    PrefixedHas("o.message.", ObjectFields(m, MESSAGE, MESSAGE_KNOWN), Slot(MessageField(k), s.text, s.escape));
  }

  lemma {:induction false} BesidePlaceHas(num: Reading, d: Json, k: string, s: Slot)
    requires Carries(num, d, Beside(k), s)
    ensures s in LocalSlots(d)
  {
    assert "o." + "response" == "o.response" && "o." + "thinking" == "o.thinking";
    if k == "response" { assert s in Field("o.response", StrAt(d, "response"), false); }
    else { assert s in Field("o.thinking", StrAt(d, "thinking"), false); }
  }

  /** And every text at a place is listed. */
  lemma {:induction false} PlaceHas(num: Reading, d: Json, pl: Place, s: Slot)
    requires Carries(num, d, pl, s)
    ensures s in TextSlots(num, d)
  {
    match pl
    case InBlock(k) => BlockPlaceHas(num, d, k, s);
    case TopDelta => TopPlaceHas(num, d, s);
    case InMessage(k) => MessagePlaceHas(num, d, k, s);
    case Beside(k) => BesidePlaceHas(num, d, k, s);
    case _ => ChoicePlaceHas(num, d, pl, s);
  }

  /**
   The listing is complete and nothing else: its slots are exactly the streamed texts of the
   event, each with the channel and the escape flag of its place, and no channel twice.
   */
  lemma {:induction false} ListedIff(num: Reading, d: Json, s: Slot)
    requires GoodEvent(num, d)
    ensures s in TextSlots(num, d) <==> exists pl :: Carries(num, d, pl, s)
    ensures DistinctChannels(TextSlots(num, d))
  {
    SlotLaws.DistinctSlots(num, d);
    if s in TextSlots(num, d) {
      var pl := SlotFrom(num, d, s);
    }
    if pl :| Carries(num, d, pl, s) { PlaceHas(num, d, pl, s); }
  }

  // ------------------------------------------------------- what an event says, by place

  /** What the event says on a channel, found by place. */
  ghost function Spoken(num: Reading, d: Json, ch: string): string {
    if Speaks(num, d, ch) then
      var pl, s :| Carries(num, d, pl, s) && s.channel == ch;
      s.text
    else ""
  }

  lemma {:induction false} TextOfMember(slots: seq<Slot>, s: Slot)
    requires DistinctChannels(slots) && s in slots
    ensures TextOf(slots, s.channel) == s.text
  {
    DistinctTail(slots);
    if slots[0] == s {
      UnlistedText(slots[1..], s.channel);
      assert s.text + "" == s.text;
    } else {
      TextOfMember(slots[1..], s);
      var i :| 0 <= i < |slots[1..]| && slots[1..][i] == s;
      assert Lists(slots[1..], s.channel);
      assert slots[0].channel != s.channel;
    }
  }

  lemma {:induction false} PlaceRead(num: Reading, d: Json, pl: Place, s: Slot)
    requires GoodEvent(num, d) && Carries(num, d, pl, s)
    ensures TextOf(TextSlots(num, d), s.channel) == s.text
  {
    SlotLaws.DistinctSlots(num, d);
    PlaceHas(num, d, pl, s);
    TextOfMember(TextSlots(num, d), s);
  }

  /** Some place of the event has the channel. */
  ghost predicate Speaks(num: Reading, d: Json, ch: string) { exists pl, s :: Carries(num, d, pl, s) && s.channel == ch }

  lemma {:induction false} SilentRead(num: Reading, d: Json, ch: string)
    requires GoodEvent(num, d) && !Speaks(num, d, ch)
    ensures TextOf(TextSlots(num, d), ch) == ""
  {
    var slots := TextSlots(num, d);
    if i :| 0 <= i < |slots| && slots[i].channel == ch {
      var pl := SlotFrom(num, d, slots[i]);
    } else {
      UnlistedText(slots, ch);
    }
  }

  /** A text at a place is what a reader of its channel gets; a channel without a place says nothing. */
  lemma {:induction false} SpokenIs(num: Reading, d: Json, ch: string)
    requires GoodEvent(num, d)
    ensures TextOf(TextSlots(num, d), ch) == Spoken(num, d, ch)
    ensures forall pl, s :: Carries(num, d, pl, s) && s.channel == ch ==> Spoken(num, d, ch) == s.text
  {
    forall pl, s | Carries(num, d, pl, s) && s.channel == ch ensures TextOf(TextSlots(num, d), ch) == s.text {
      PlaceRead(num, d, pl, s);
    }
    if !Speaks(num, d, ch) { SilentRead(num, d, ch); }
  }
}
