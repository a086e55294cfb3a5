/**
 The pass over a whole event at the end of restore_sse_event (src/stream/sse.rs), seen from
 the slots: restoring the tree leaves every listed channel where it is, with its text as it
 was or restored once more. What it takes is that nothing live stands in a key or in the
 event's type, and rewriting a slot keeps it so.
 */
module SlotTrees {
  import opened Wrappers
  import opened Tree
  import opened Sse
  import opened Slots
  import opened SlotEvents
  import opened SlotLaws

  // ---------------------------------------------------------------------- steady keys

  /** Objects have distinct keys, and restoring leaves every key as it is. */
  ghost predicate Steady(j: Json, r: Restorer) {
    match j
    case Arr(items) => forall i :: 0 <= i < |items| ==> Steady(items[i], r)
    case Obj(entries) =>
      && Distinct(Keys(entries))
      && forall i :: 0 <= i < |entries| ==> r(entries[i].key, false) == entries[i].key && Steady(entries[i].value, r)
    case _ => true
  }

  lemma {:induction false} SteadyWellFormed(j: Json, r: Restorer)
    requires Steady(j, r)
    ensures WellFormed(j)
  {
    match j
    case Arr(items) => forall i | 0 <= i < |items| ensures WellFormed(items[i]) { SteadyWellFormed(items[i], r); }
    case Obj(entries) => forall i | 0 <= i < |entries| ensures WellFormed(entries[i].value) { SteadyWellFormed(entries[i].value, r); }
    case _ =>
  }

  lemma {:induction false} FoundAt(es: seq<Entry>, k: string) returns (i: nat)
    requires Find(es, k).Some?
    ensures i < |es| && es[i].key == k && Find(es, k) == Some(es[i].value)
  {
    if es[0].key == k { i := 0; }
    else { i := FoundAt(es[1..], k); i := i + 1; }
  }

  lemma {:induction false} InsertValues(es: seq<Entry>, k: string, v: Json)
    requires Find(es, k).Some?
    ensures var out := Insert(es, k, v);
            |out| == |es| && forall i :: 0 <= i < |es| ==> out[i].key == es[i].key && (out[i].value == v || out[i].value == es[i].value)
  {
    if es[0].key != k { InsertValues(es[1..], k, v); }
  }

  lemma {:induction false} GetSteady(j: Json, k: string, r: Restorer)
    requires Steady(j, r) && Get(j, k).Some?
    ensures Steady(Get(j, k).value, r)
  {
    var i := FoundAt(j.entries, k);
  }

  lemma {:induction false} PutSteady(j: Json, k: string, v: Json, r: Restorer)
    requires Steady(j, r) && Get(j, k).Some? && Steady(v, r)
    ensures j.Obj? && Steady(Put(j, k, v), r)
  {
    InsertValues(j.entries, k, v);
    var out := Insert(j.entries, k, v);
    forall i, l | 0 <= i < l < |out| ensures Keys(out)[i] != Keys(out)[l] {
      assert Keys(j.entries)[i] != Keys(j.entries)[l];
    }
  }

  lemma {:induction false} PutTextSteady(j: Json, k: string, t: string, r: Restorer)
    requires Steady(j, r) && StrAt(j, k).Some?
    ensures j.Obj? && Steady(Put(j, k, Str(t)), r)
  {
    PutSteady(j, k, Str(t), r);
  }

  // -------------------------------------------------------- writing a slot keeps them so

  ghost predicate AllSteady(items: seq<Json>, r: Restorer) { forall i :: 0 <= i < |items| ==> Steady(items[i], r) }

  lemma {:induction false} SteadyCons(x: Json, items: seq<Json>, r: Restorer)
    requires Steady(x, r) && AllSteady(items, r)
    ensures AllSteady([x] + items, r)
  {
  }

  lemma {:induction false} SteadyRest(items: seq<Json>, r: Restorer)
    requires items != [] && AllSteady(items, r)
    ensures Steady(items[0], r) && AllSteady(items[1..], r)
  {
  }

  lemma {:induction false} PutItemsSteady(j: Json, k: string, items: seq<Json>, r: Restorer)
    requires Steady(j, r) && Get(j, k).Some? && AllSteady(items, r)
    ensures j.Obj? && Steady(Put(j, k, Arr(items)), r)
  {
    PutSteady(j, k, Arr(items), r);
  }

  lemma {:induction false} ItemsSteady(j: Json, k: string, r: Restorer)
    requires Steady(j, r)
    ensures AllSteady(ItemsAt(j, k), r)
  {
    if Get(j, k).Some? { GetSteady(j, k, r); }
  }

  lemma {:induction false} OneToolSteady(tc: Json, t: string, r: Restorer)
    requires Steady(tc, r) && Arguments(Get(tc, "function")).Some?
    ensures tc.Obj? && Get(tc, "function").value.Obj?
    ensures Steady(Put(tc, "function", Put(Get(tc, "function").value, "arguments", Str(t))), r)
  {
    GetSteady(tc, "function", r);
    var v := Get(tc, "function").value;
    PutTextSteady(v, "arguments", t, r);
    PutSteady(tc, "function", Put(v, "arguments", Str(t)), r);
  }

  /** Where a listed call is: the first one has its number and arguments, or it is further on. */
  lemma {:induction false} FirstTool(num: Reading, items: seq<Json>, at: nat, n: nat)
    requires DistinctTools(num, items, at) && Lists(Tools(num, items, at), "tool" + Decimal(n))
    ensures items != [] && DistinctTools(num, items[1..], at + 1)
    ensures if ToolNo(num, items[0], at) == n
            then Arguments(Get(items[0], "function")).Some? && NoTool(num, items[1..], at + 1, n)
            else Lists(Tools(num, items[1..], at + 1), "tool" + Decimal(n))
  {
    var no, f := ToolNo(num, items[0], at), "tool" + Decimal(n);
    var args := Arguments(Get(items[0], "function"));
    ToolsTail(num, items, at);
    ListsConcat(Field("tool" + Decimal(no), args, true), Tools(num, items[1..], at + 1), f);
    FieldListed("tool" + Decimal(no), args, true, f, "");
    if no == n { NoToolNothing(num, items[1..], at + 1, n, ""); } else { DecimalDiffers("tool", n, no); }
  }

  lemma {:induction false} ToolsSteady(num: Reading, items: seq<Json>, at: nat, n: nat, t: string, r: Restorer)
    requires DistinctTools(num, items, at) && Lists(Tools(num, items, at), "tool" + Decimal(n)) && AllSteady(items, r)
    ensures AllSteady(SetTools(num, items, at, n, t), r)
  {
    FirstTool(num, items, at, n);
    SteadyRest(items, r);
    if ToolNo(num, items[0], at) == n {
      NoToolNothing(num, items[1..], at + 1, n, t);
      OneToolSteady(items[0], t, r);
    } else {
      ToolsSteady(num, items[1..], at + 1, n, t, r);
    }
    SteadyCons(SetTools(num, items, at, n, t)[0], SetTools(num, items[1..], at + 1, n, t), r);
  }

  lemma {:induction false} DetailSteady(num: Reading, d: Json, f: string, t: string, r: Restorer)
    requires ListedIn(num, d, f) && KindOf(f) == Detail && Steady(d, r)
    ensures Steady(SetDelta(num, d, f, t), r)
  {
    GenericKind(d.entries, CHAT_KNOWN);
    RewriteSegments(num, ViewOf(d), f, t);
    var items := ItemsAt(d, "reasoning_details");
    var n := DetailsListed(items, 0, f);
    DetailWrite(num, d, n, t);
    ItemsSteady(d, "reasoning_details", r);
    PutTextSteady(items[n], "text", t, r);
    PutItemsSteady(d, "reasoning_details", items[n := Put(items[n], "text", Str(t))], r);
  }

  lemma {:induction false} ToolSteady(num: Reading, d: Json, f: string, t: string, r: Restorer)
    requires ListedIn(num, d, f) && KindOf(f) == Tool && Steady(d, r)
    ensures Steady(SetDelta(num, d, f, t), r)
  {
    GenericKind(d.entries, CHAT_KNOWN);
    RewriteSegments(num, ViewOf(d), f, t);
    var items := ItemsAt(d, "tool_calls");
    var n := ToolsListed(num, items, 0, f);
    ToolWrite(num, d, n, t);
    ItemsSteady(d, "tool_calls", r);
    ToolsSteady(num, items, 0, n, t, r);
    PutItemsSteady(d, "tool_calls", SetTools(num, items, 0, n, t), r);
  }

  lemma {:induction false} CallSteady(num: Reading, d: Json, f: string, t: string, r: Restorer)
    requires ListedIn(num, d, f) && KindOf(f) == Call && Steady(d, r)
    ensures Steady(SetDelta(num, d, f, t), r)
  {
    GenericKind(d.entries, CHAT_KNOWN);
    RewriteSegments(num, ViewOf(d), f, t);
    GetSteady(d, "function_call", r);
    var v := Get(d, "function_call").value;
    PutTextSteady(v, "arguments", t, r);
    PutSteady(d, "function_call", Put(v, "arguments", Str(t)), r);
  }

  lemma {:induction false} SetDeltaSteady(num: Reading, d: Json, f: string, t: string, r: Restorer)
    requires ListedIn(num, d, f) && Steady(d, r)
    ensures Steady(SetDelta(num, d, f, t), r)
  {
    GenericKind(d.entries, CHAT_KNOWN);
    RewriteSegments(num, ViewOf(d), f, t);
    match KindOf(f)
    case Content => PutTextSteady(d, "content", t, r);
    case Reason => PutTextSteady(d, "reasoning_content", t, r);
    case Reason2 => PutTextSteady(d, "reasoning", t, r);
    case Detail => DetailSteady(num, d, f, t, r);
    case Tool => ToolSteady(num, d, f, t, r);
    case Call => CallSteady(num, d, f, t, r);
    case Other =>
      var k := GenericListed(d.entries, CHAT_KNOWN, f);
      KindOfOther(k);
      PutTextSteady(d, k, t, r);
    case _ =>
  }

  lemma {:induction false} SetChoiceSteady(num: Reading, c: Json, f: string, t: string, r: Restorer)
    requires GoodChoice(num, c) && Lists(ChoiceFields(num, c), f) && Steady(c, r)
    ensures Steady(SetChoice(num, c, f, t), r)
  {
    var d := Get(c, "delta");
    var a, b := if d.Some? then DeltaFields(num, d.value) else [], Field("text", StrAt(c, "text"), false);
    ListsConcat(a, b, f);
    FieldListed("text", StrAt(c, "text"), false, f, t);
    FieldKinds();
    if Lists(a, f) {
      SetInDelta(num, c, 0, d.value, f, t);
      GetSteady(c, "delta", r);
      SetDeltaSteady(num, d.value, f, t, r);
      PutSteady(c, "delta", SetDelta(num, d.value, f, t), r);
    } else {
      PutTextSteady(c, "text", t, r);
    }
  }

  lemma {:induction false} FirstChoice(num: Reading, items: seq<Json>, at: nat, n: nat, f: string)
    requires GoodChoices(num, items, at) && Lists(Choices(num, items, at), Numbered("c", n) + f)
    ensures items != []
    ensures if ChoiceNo(num, items[0], at) == n then Lists(ChoiceFields(num, items[0]), f)
            else Lists(Choices(num, items[1..], at + 1), Numbered("c", n) + f)
  {
    var ch, no := Numbered("c", n) + f, ChoiceNo(num, items[0], at);
    ListsConcat(Prefixed(Numbered("c", no), ChoiceFields(num, items[0])), Choices(num, items[1..], at + 1), ch);
    if no == n {
      NoChoiceUnlisted(num, items[1..], at + 1, n, f);
      PrefixedListed(Numbered("c", n), ChoiceFields(num, items[0]), f);
    } else {
      NotInHead(num, items[0], no, n, f);
    }
  }

  lemma {:induction false} SetChoicesSteady(num: Reading, items: seq<Json>, at: nat, n: nat, f: string, t: string, r: Restorer)
    requires GoodChoices(num, items, at) && Lists(Choices(num, items, at), Numbered("c", n) + f) && AllSteady(items, r)
    ensures AllSteady(SetChoices(num, items, at, n, f, t), r)
    decreases |items|
  {
    FirstChoice(num, items, at, n, f);
    SteadyRest(items, r);
    if ChoiceNo(num, items[0], at) == n {
      SetChoiceSteady(num, items[0], f, t, r);
      SteadyCons(SetChoice(num, items[0], f, t), items[1..], r);
    } else {
      SetChoicesSteady(num, items[1..], at + 1, n, f, t, r);
      SteadyCons(items[0], SetChoices(num, items[1..], at + 1, n, f, t), r);
    }
  }

  lemma {:induction false} SetObjectSteady(d: Json, names: seq<Named>, known: seq<string>, f: string, t: string, r: Restorer)
    requires SlotEvents.Proper(names, known) && Lists(ObjectFields(d, names, known), f) && Steady(d, r)
    requires d.Obj? && DistinctKeys(d.entries)
    ensures Steady(SetObject(d, names, f, t), r)
  {
    ListsConcat(NamedFields(d, names), Generic(d.entries, known), f);
    if Lists(NamedFields(d, names), f) {
      NamedSet(d, names, known, f, t);
      PutTextSteady(d, KeyOf(names, f), t, r);
    } else {
      var k := GenericListed(d.entries, known, f);
      KindOfOther(k);
      PutTextSteady(d, k, t, r);
    }
  }

  lemma {:induction false} PutType(d: Json, k: string, v: Json)
    requires d.Obj? && k != "type"
    ensures TypeOf(Put(d, k, v)) == TypeOf(d)
  {
    PutGetOther(d, k, v, "type");
  }

  lemma {:induction false} ChoiceSlotSteady(num: Reading, d: Json, ch: string, t: string, r: Restorer)
    requires d.Obj? && GoodEvent(num, d) && Lists(ChoiceSlots(num, d), ch) && ch != "" && ch[0] == 'c' && Steady(d, r)
    ensures Steady(SetSlot(num, d, ch, t), r) && TypeOf(SetSlot(num, d, ch, t)) == TypeOf(d)
  {
    var items := ItemsAt(d, "choices");
    var n, f := ChoicesListed(num, items, 0, ch);
    TakeApart("c", n, f);
    ItemsSteady(d, "choices", r);
    SetChoicesSteady(num, items, 0, n, f, t, r);
    PutItemsSteady(d, "choices", SetChoices(num, items, 0, n, f, t), r);
    PutType(d, "choices", Arr(SetChoices(num, items, 0, n, f, t)));
  }

  lemma {:induction false} BlockSlotSteady(num: Reading, d: Json, ch: string, t: string, r: Restorer)
    requires d.Obj? && GoodEvent(num, d) && Lists(BlockSlots(num, d), ch) && ch != "" && ch[0] == 'a' && Steady(d, r)
    ensures Steady(SetSlot(num, d, ch, t), r) && TypeOf(SetSlot(num, d, ch, t)) == TypeOf(d)
  {
    ProperNames();
    var delta, n, f := BlocksListed(num, d, ch);
    TakeApart("a", n, f);
    GetSteady(d, "delta", r);
    SetObjectSteady(delta, BLOCK, BLOCK_KNOWN, f, t, r);
    PutSteady(d, "delta", SetObject(delta, BLOCK, f, t), r);
    PutType(d, "delta", SetObject(delta, BLOCK, f, t));
  }

  lemma {:induction false} MessageSlotSteady(num: Reading, d: Json, m: Json, f: string, t: string, r: Restorer)
    requires d.Obj? && GoodEvent(num, d) && Get(d, "message") == Some(m) && m.Obj? && Steady(d, r)
    requires Lists(ObjectFields(m, MESSAGE, MESSAGE_KNOWN), f)
    ensures var d' := SetSlot(num, d, "o.message." + f, t); Steady(d', r) && TypeOf(d') == TypeOf(d)
  {
    ProperNames();
    MessageWrite(num, d, m, f, t);
    GetSteady(d, "message", r);
    SetObjectSteady(m, MESSAGE, MESSAGE_KNOWN, f, t, r);
    PutSteady(d, "message", SetObject(m, MESSAGE, f, t), r);
    PutType(d, "message", SetObject(m, MESSAGE, f, t));
  }

  lemma {:induction false} LocalSlotSteady(num: Reading, d: Json, ch: string, t: string, r: Restorer)
    requires d.Obj? && GoodEvent(num, d) && Lists(LocalSlots(d), ch) && ch != "" && ch[0] == 'o' && Steady(d, r)
    ensures Steady(SetSlot(num, d, ch, t), r) && TypeOf(SetSlot(num, d, ch, t)) == TypeOf(d)
  {
    LocalParts(d);
    LocalChannel(Get(d, "message"), StrAt(d, "response"), StrAt(d, "thinking"), ch);
    if ch == "o.response" && StrAt(d, "response").Some? {
      ResponseWrite(num, d, t);
      PutTextSteady(d, "response", t, r);
      PutType(d, "response", Str(t));
    } else if ch == "o.thinking" && StrAt(d, "thinking").Some? {
      ThinkingWrite(num, d, t);
      PutTextSteady(d, "thinking", t, r);
      PutType(d, "thinking", Str(t));
    } else {
      var m := Get(d, "message").value;
      var f :| ch == "o.message." + f && Lists(ObjectFields(m, MESSAGE, MESSAGE_KNOWN), f);
      MessageSlotSteady(num, d, m, f, t, r);
    }
  }

  /** Writing a listed channel leaves the keys steady and the type as it is. */
  lemma {:induction false} SetSlotSteady(num: Reading, d: Json, ch: string, t: string, r: Restorer)
    requires GoodEvent(num, d) && Lists(TextSlots(num, d), ch) && Steady(d, r)
    ensures Steady(SetSlot(num, d, ch, t), r) && TypeOf(SetSlot(num, d, ch, t)) == TypeOf(d)
  {
    PutFamily(num, d, ch, t);
    if d.Obj? {
      if ch[0] == 'c' { ChoiceSlotSteady(num, d, ch, t, r); }
      else if ch[0] == 'a' { BlockSlotSteady(num, d, ch, t, r); }
      else if ch[0] == 'r' { PutTextSteady(d, "delta", t, r); PutType(d, "delta", Str(t)); }
      else { LocalSlotSteady(num, d, ch, t, r); }
    }
  }

  // ----------------------------------------------------- a restored tree, key by key

  ghost predicate Told(t: string, t': string, r: Restorer) { t' in [t, r(t, false), r(t, true)] }

  /** Two values and what restoring made of them. */
  ghost predicate KeepsSteady(j: Json, j': Json, r: Restorer) { Keeps(j, j', r) && Steady(j, r) }

  ghost predicate AllKeep(a: seq<Json>, b: seq<Json>, r: Restorer) {
    |a| == |b| && forall i :: 0 <= i < |a| ==> KeepsSteady(a[i], b[i], r)
  }

  ghost predicate EntriesKeep(a: seq<Entry>, b: seq<Entry>, r: Restorer) {
    |a| == |b| && forall i :: 0 <= i < |a| ==> b[i].key == a[i].key && KeepsSteady(a[i].value, b[i].value, r)
  }

  lemma {:induction false} ObjectEntries(j: Json, j': Json, r: Restorer)
    requires KeepsSteady(j, j', r)
    ensures j.Obj? <==> j'.Obj?
    ensures j.Obj? ==> EntriesKeep(j.entries, j'.entries, r)
  {
  }

  lemma {:induction false} FindKeeps(a: seq<Entry>, b: seq<Entry>, k: string, r: Restorer)
    requires EntriesKeep(a, b, r)
    ensures Find(a, k).Some? <==> Find(b, k).Some?
    ensures Find(a, k).Some? ==> KeepsSteady(Find(a, k).value, Find(b, k).value, r)
    decreases |a|
  {
    if a != [] && a[0].key != k { FindKeeps(a[1..], b[1..], k, r); }
  }

  lemma {:induction false} GetKeeps(j: Json, j': Json, k: string, r: Restorer)
    requires KeepsSteady(j, j', r)
    ensures Get(j, k).Some? <==> Get(j', k).Some?
    ensures Get(j, k).Some? ==> KeepsSteady(Get(j, k).value, Get(j', k).value, r)
  {
    ObjectEntries(j, j', r);
    if j.Obj? { FindKeeps(j.entries, j'.entries, k, r); }
  }

  /** A text field stays one, told again. */
  ghost predicate ToldField(o: Option<string>, o': Option<string>, r: Restorer) {
    (o.Some? <==> o'.Some?) && (o.Some? ==> Told(o.value, o'.value, r))
  }

  lemma {:induction false} StrAtKeeps(j: Json, j': Json, k: string, r: Restorer)
    requires KeepsSteady(j, j', r)
    ensures ToldField(StrAt(j, k), StrAt(j', k), r)
  {
    GetKeeps(j, j', k, r);
  }

  lemma {:induction false} IndexAtKeeps(num: Reading, j: Json, j': Json, k: string, default: nat, r: Restorer)
    requires KeepsSteady(j, j', r)
    ensures IndexAt(num, j', k, default) == IndexAt(num, j, k, default)
  {
    GetKeeps(j, j', k, r);
  }

  lemma {:induction false} ItemsAtKeep(j: Json, j': Json, k: string, r: Restorer)
    requires KeepsSteady(j, j', r)
    ensures AllKeep(ItemsAt(j, k), ItemsAt(j', k), r)
  {
    GetKeeps(j, j', k, r);
  }

  // ------------------------------------------------------------ listings told again

  lemma {:induction false} RetoldConcat(a: seq<Slot>, a': seq<Slot>, b: seq<Slot>, b': seq<Slot>, r: Restorer)
    requires Retold(a, a', r) && Retold(b, b', r)
    ensures Retold(a + b, a' + b', r)
  {
  }

  lemma {:induction false} FieldRetold(f: string, o: Option<string>, o': Option<string>, escape: bool, r: Restorer)
    requires ToldField(o, o', r)
    ensures Retold(Field(f, o, escape), Field(f, o', escape), r)
  {
  }

  lemma {:induction false} DetailsRetold(items: seq<Json>, items': seq<Json>, n: nat, r: Restorer)
    requires AllKeep(items, items', r)
    ensures Retold(Details(items, n), Details(items', n), r)
    decreases |items|
  {
    if items != [] {
      var o, o' := StrAt(items[0], "text"), StrAt(items'[0], "text");
      StrAtKeeps(items[0], items'[0], "text", r);
      FieldRetold("rd" + Decimal(n), o, o', false, r);
      DetailsRetold(items[1..], items'[1..], n + 1, r);
      RetoldConcat(Field("rd" + Decimal(n), o, false), Field("rd" + Decimal(n), o', false),
                   Details(items[1..], n + 1), Details(items'[1..], n + 1), r);
    }
  }

  lemma {:induction false} ArgumentsKeep(j: Json, j': Json, k: string, r: Restorer)
    requires KeepsSteady(j, j', r)
    ensures ToldField(Arguments(Get(j, k)), Arguments(Get(j', k)), r)
  {
    GetKeeps(j, j', k, r);
    if Get(j, k).Some? { StrAtKeeps(Get(j, k).value, Get(j', k).value, "arguments", r); }
  }

  lemma {:induction false} ToolsRetold(num: Reading, items: seq<Json>, items': seq<Json>, at: nat, r: Restorer)
    requires AllKeep(items, items', r)
    ensures Retold(Tools(num, items, at), Tools(num, items', at), r)
    decreases |items|
  {
    if items != [] {
      var f := "tool" + Decimal(ToolNo(num, items[0], at));
      var o, o' := Arguments(Get(items[0], "function")), Arguments(Get(items'[0], "function"));
      IndexAtKeeps(num, items[0], items'[0], "index", at, r);
      ArgumentsKeep(items[0], items'[0], "function", r);
      FieldRetold(f, o, o', true, r);
      ToolsRetold(num, items[1..], items'[1..], at + 1, r);
      RetoldConcat(Field(f, o, true), Field(f, o', true), Tools(num, items[1..], at + 1), Tools(num, items'[1..], at + 1), r);
    }
  }

  function GenericOne(e: Entry, known: seq<string>): seq<Slot> {
    if e.key !in known && e.value.Str? then [Slot("x" + e.key, e.value.s, false)] else []
  }

  lemma {:induction false} GenericRetold(es: seq<Entry>, es': seq<Entry>, known: seq<string>, r: Restorer)
    requires EntriesKeep(es, es', r)
    ensures Retold(Generic(es, known), Generic(es', known), r)
    decreases |es|
  {
    if es != [] {
      assert KeepsSteady(es[0].value, es'[0].value, r);
      GenericRetold(es[1..], es'[1..], known, r);
      RetoldConcat(GenericOne(es[0], known), GenericOne(es'[0], known), Generic(es[1..], known), Generic(es'[1..], known), r);
    }
  }

  lemma {:induction false} JoinedRetold(s: Segments, s': Segments, r: Restorer)
    requires Retold(s.a, s'.a, r) && Retold(s.b, s'.b, r) && Retold(s.c, s'.c, r) && Retold(s.d, s'.d, r)
    requires Retold(s.e, s'.e, r) && Retold(s.f, s'.f, r) && Retold(s.g, s'.g, r)
    ensures Retold(Joined(s), Joined(s'), r)
  {
    RetoldConcat(s.f, s'.f, s.g, s'.g, r);
    RetoldConcat(s.e, s'.e, s.f + s.g, s'.f + s'.g, r);
    RetoldConcat(s.d, s'.d, s.e + (s.f + s.g), s'.e + (s'.f + s'.g), r);
    RetoldConcat(s.c, s'.c, s.d + (s.e + (s.f + s.g)), s'.d + (s'.e + (s'.f + s'.g)), r);
    RetoldConcat(s.b, s'.b, s.c + (s.d + (s.e + (s.f + s.g))), s'.c + (s'.d + (s'.e + (s'.f + s'.g))), r);
    RetoldConcat(s.a, s'.a, s.b + (s.c + (s.d + (s.e + (s.f + s.g)))), s'.b + (s'.c + (s'.d + (s'.e + (s'.f + s'.g)))), r);
  }

  lemma {:induction false} DeltaRetold(num: Reading, d: Json, d': Json, r: Restorer)
    requires KeepsSteady(d, d', r)
    ensures Retold(DeltaFields(num, d), DeltaFields(num, d'), r)
  {
    ObjectEntries(d, d', r);
    if d.Obj? {
      var v, v' := ViewOf(d), ViewOf(d');
      StrAtKeeps(d, d', "content", r);
      StrAtKeeps(d, d', "reasoning_content", r);
      StrAtKeeps(d, d', "reasoning", r);
      ArgumentsKeep(d, d', "function_call", r);
      ItemsAtKeep(d, d', "reasoning_details", r);
      ItemsAtKeep(d, d', "tool_calls", r);
      FieldRetold("content", v.content, v'.content, false, r);
      FieldRetold("reason", v.reason, v'.reason, false, r);
      FieldRetold("reason2", v.reason2, v'.reason2, false, r);
      DetailsRetold(v.details, v'.details, 0, r);
      ToolsRetold(num, v.tools, v'.tools, 0, r);
      FieldRetold("fcall", v.call, v'.call, true, r);
      GenericRetold(d.entries, d'.entries, CHAT_KNOWN, r);
      JoinedRetold(SegmentsOf(num, v), SegmentsOf(num, v'), r);
    }
  }

  lemma {:induction false} PrefixedRetold(p: string, a: seq<Slot>, b: seq<Slot>, r: Restorer)
    requires Retold(a, b, r)
    ensures Retold(Prefixed(p, a), Prefixed(p, b), r)
  {
    var x, y := Prefixed(p, a), Prefixed(p, b);
    forall i | 0 <= i < |a| ensures x[i].channel == y[i].channel && Told(x[i].text, y[i].text, r) {
      assert a[i].channel == b[i].channel && Told(a[i].text, b[i].text, r);
    }
  }

  lemma {:induction false} ChoiceRetold(num: Reading, c: Json, c': Json, r: Restorer)
    requires KeepsSteady(c, c', r)
    ensures Retold(ChoiceFields(num, c), ChoiceFields(num, c'), r)
  {
    var d, d' := Get(c, "delta"), Get(c', "delta");
    GetKeeps(c, c', "delta", r);
    StrAtKeeps(c, c', "text", r);
    FieldRetold("text", StrAt(c, "text"), StrAt(c', "text"), false, r);
    if d.Some? { DeltaRetold(num, d.value, d'.value, r); }
    RetoldConcat(if d.Some? then DeltaFields(num, d.value) else [], if d'.Some? then DeltaFields(num, d'.value) else [],
                 Field("text", StrAt(c, "text"), false), Field("text", StrAt(c', "text"), false), r);
  }

  lemma {:induction false} ChoicesRetold(num: Reading, items: seq<Json>, items': seq<Json>, at: nat, r: Restorer)
    requires AllKeep(items, items', r)
    ensures Retold(Choices(num, items, at), Choices(num, items', at), r)
    decreases |items|
  {
    if items != [] {
      var p := Numbered("c", ChoiceNo(num, items[0], at));
      IndexAtKeeps(num, items[0], items'[0], "index", at, r);
      ChoiceRetold(num, items[0], items'[0], r);
      PrefixedRetold(p, ChoiceFields(num, items[0]), ChoiceFields(num, items'[0]), r);
      ChoicesRetold(num, items[1..], items'[1..], at + 1, r);
      RetoldConcat(Prefixed(p, ChoiceFields(num, items[0])), Prefixed(p, ChoiceFields(num, items'[0])),
                   Choices(num, items[1..], at + 1), Choices(num, items'[1..], at + 1), r);
    }
  }

  lemma {:induction false} NamedRetold(d: Json, d': Json, names: seq<Named>, r: Restorer)
    requires KeepsSteady(d, d', r)
    ensures Retold(NamedFields(d, names), NamedFields(d', names), r)
  {
    if names != [] {
      var n := names[0];
      StrAtKeeps(d, d', n.key, r);
      FieldRetold(n.field, StrAt(d, n.key), StrAt(d', n.key), n.escape, r);
      NamedRetold(d, d', names[1..], r);
      RetoldConcat(Field(n.field, StrAt(d, n.key), n.escape), Field(n.field, StrAt(d', n.key), n.escape),
                   NamedFields(d, names[1..]), NamedFields(d', names[1..]), r);
    }
  }

  lemma {:induction false} ObjectRetold(d: Json, d': Json, names: seq<Named>, known: seq<string>, r: Restorer)
    requires KeepsSteady(d, d', r)
    ensures Retold(ObjectFields(d, names, known), ObjectFields(d', names, known), r)
  {
    ObjectEntries(d, d', r);
    if d.Obj? {
      NamedRetold(d, d', names, r);
      GenericRetold(d.entries, d'.entries, known, r);
      RetoldConcat(NamedFields(d, names), NamedFields(d', names), Generic(d.entries, known), Generic(d'.entries, known), r);
    }
  }

  /** Nothing live in the type of the event. */
  ghost predicate TypeStays(d: Json, r: Restorer) { r(TypeOf(d), false) == TypeOf(d) == r(TypeOf(d), true) }

  lemma {:induction false} SameType(d: Json, d': Json, r: Restorer)
    requires KeepsSteady(d, d', r) && TypeStays(d, r)
    ensures TypeOf(d') == TypeOf(d)
  {
    StrAtKeeps(d, d', "type", r);
  }

  lemma {:induction false} BlocksRetold(num: Reading, d: Json, d': Json, r: Restorer)
    requires KeepsSteady(d, d', r) && TypeOf(d') == TypeOf(d)
    ensures Retold(BlockSlots(num, d), BlockSlots(num, d'), r)
  {
    GetKeeps(d, d', "delta", r);
    IndexAtKeeps(num, d, d', "index", 0, r);
    if Get(d, "delta").Some? {
      var v, v' := Get(d, "delta").value, Get(d', "delta").value;
      ObjectRetold(v, v', BLOCK, BLOCK_KNOWN, r);
      PrefixedRetold(Numbered("a", IndexAt(num, d, "index", 0)), ObjectFields(v, BLOCK, BLOCK_KNOWN), ObjectFields(v', BLOCK, BLOCK_KNOWN), r);
    }
  }

  lemma {:induction false} ResponsesRetold(num: Reading, d: Json, d': Json, r: Restorer)
    requires KeepsSteady(d, d', r) && TypeOf(d') == TypeOf(d)
    ensures Retold(ResponseSlots(num, d), ResponseSlots(num, d'), r)
  {
    var k := ResponseKind(TypeOf(d));
    IndexAtKeeps(num, d, d', "content_index", 0, r);
    IndexAtKeeps(num, d, d', "output_index", 0, r);
    StrAtKeeps(d, d', "delta", r);
    if k.Some? { FieldRetold(ResponsePrefix(num, d) + k.value.0, StrAt(d, "delta"), StrAt(d', "delta"), k.value.1, r); }
  }

  lemma {:induction false} LocalsRetold(d: Json, d': Json, r: Restorer)
    requires KeepsSteady(d, d', r)
    ensures Retold(LocalSlots(d), LocalSlots(d'), r)
  {
    GetKeeps(d, d', "done", r);
    if Get(d, "done").Some? {
      var m, m' := Get(d, "message"), Get(d', "message");
      GetKeeps(d, d', "message", r);
      StrAtKeeps(d, d', "response", r);
      StrAtKeeps(d, d', "thinking", r);
      FieldRetold("o.response", StrAt(d, "response"), StrAt(d', "response"), false, r);
      FieldRetold("o.thinking", StrAt(d, "thinking"), StrAt(d', "thinking"), false, r);
      if m.Some? {
        ObjectRetold(m.value, m'.value, MESSAGE, MESSAGE_KNOWN, r);
        PrefixedRetold("o.message.", ObjectFields(m.value, MESSAGE, MESSAGE_KNOWN), ObjectFields(m'.value, MESSAGE, MESSAGE_KNOWN), r);
      }
      var b, b' := Field("o.response", StrAt(d, "response"), false), Field("o.response", StrAt(d', "response"), false);
      var c, c' := Field("o.thinking", StrAt(d, "thinking"), false), Field("o.thinking", StrAt(d', "thinking"), false);
      RetoldConcat(b, b', c, c', r);
      RetoldConcat(MessageSlots(m), MessageSlots(m'), b + c, b' + c', r);
      LocalParts(d);
      LocalParts(d');
    }
  }

  /** Restoring an event lists the same channels, each text as it was or restored. */
  lemma {:induction false} RestoredSlots(num: Reading, d: Json, d': Json, r: Restorer)
    requires KeepsSteady(d, d', r) && TypeStays(d, r)
    ensures Retold(TextSlots(num, d), TextSlots(num, d'), r)
  {
    var a, b, c, o := ChoiceSlots(num, d), BlockSlots(num, d), ResponseSlots(num, d), LocalSlots(d);
    var a', b', c', o' := ChoiceSlots(num, d'), BlockSlots(num, d'), ResponseSlots(num, d'), LocalSlots(d');
    SameType(d, d', r);
    ItemsAtKeep(d, d', "choices", r);
    ChoicesRetold(num, ItemsAt(d, "choices"), ItemsAt(d', "choices"), 0, r);
    BlocksRetold(num, d, d', r);
    ResponsesRetold(num, d, d', r);
    LocalsRetold(d, d', r);
    RetoldConcat(c, c', o, o', r);
    RetoldConcat(b, b', c + o, c' + o', r);
    RetoldConcat(a, a', b + (c + o), b' + (c' + o'), r);
  }

  // --------------------------------------------------------------------- the instance

  /** A good event with nothing live in its keys and its type; its texts and other strings are any at all. */
  ghost predicate SteadyEvent(num: Reading, d: Json, r: Restorer) {
    GoodEvent(num, d) && Steady(d, r) && TypeStays(d, r)
  }

  ghost function SteadyWith(num: Reading, r: Restorer): Json -> bool { d => SteadyEvent(num, d, r) }

  /** The surroundings of a stream: the proxy's protocols and its pass over the whole event. */
  ghost predicate ProxyEnv(env: Env, num: Reading, jsonStr: string -> bool) {
    env.p == Proxied(num) && forall d :: env.tree(d) == RestoreTree(d, env.f, jsonStr, 0)
  }

  /** The real pass over an event, by any restorer, leaves its channels where they are. */
  lemma {:induction false} ProxiedRetells(env: Env, num: Reading, jsonStr: string -> bool)
    requires ProxyEnv(env, num, jsonStr)
    ensures Lawful(env.p, SteadyWith(num, env.f), EscapeOf) && Retelling(env, SteadyWith(num, env.f))
  {
    var good := SteadyWith(num, env.f);
    forall d | good(d) ensures Retold(env.p.slots(d), env.p.slots(env.tree(d)), env.f) {
      SteadyWellFormed(d, env.f);
      RestoreKeepsAll(d, env.f, jsonStr, 0);
      RestoredSlots(num, d, env.tree(d), env.f);
    }
    SteadyLawful(num, env.f);
  }

  lemma {:induction false} SteadyLawful(num: Reading, r: Restorer)
    ensures Lawful(Proxied(num), SteadyWith(num, r), EscapeOf)
  {
    var p, good := Proxied(num), GoodWith(num);
    var steady := SteadyWith(num, r);
    ProxiedLawful(num);
    forall d | steady(d) ensures good(d) {}
    forall d, ch, t | steady(d) && Lists(p.slots(d), ch) ensures steady(p.set_(d, ch, t)) {
      SetSlotLaw(num, d, ch, t);
      SetSlotSteady(num, d, ch, t, r);
    }
  }
}
