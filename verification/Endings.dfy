/**
 Which channels an event ends, said of the JSON itself, and what ending one does: what is held
 on it leaves ahead of the event and nothing stays held.
 */
module Endings {
  import opened Wrappers
  import opened Placeholders
  import opened Tree
  import opened Sse
  import opened Slots
  import opened SlotEvents
  import opened SlotLaws
  import Channel

  /** A finish reason that ends its choice: not null, and no blank string. */
  predicate Ending(v: Json) {
    match v
    case Null => false
    case Str(s) => exists k :: 0 <= k < |s| && !IsWhite(s[k])
    case _ => true
  }

  /** Some choice with a finish reason has channels that begin as ch does. */
  ghost predicate ChoiceEnds(num: Reading, d: Json, ch: string) {
    exists i :: 0 <= i < |ItemsAt(d, "choices")| && ChoiceEnded(num, ItemsAt(d, "choices")[i], i, ch)
  }

  predicate ChoiceEnded(num: Reading, c: Json, at: nat, ch: string) {
    var v := Get(c, "finish_reason");
    v.Some? && Ending(v.value) && Numbered("c", IndexAt(num, c, "index", at)) <= ch
  }

  /** The channel belongs to the output item of the event, and to its part if that is not the first. */
  predicate OfItem(num: Reading, d: Json, kind: string, ch: string) {
    var ci := IndexAt(num, d, "content_index", 0);
    Numbered("r", IndexAt(num, d, "output_index", 0)) + (if ci > 0 then Decimal(ci) + "." else "") + kind <= ch
  }

  /** What ends a channel, by the type of the event. */
  ghost predicate EndsChannel(num: Reading, d: Json, ch: string) {
    if !d.Obj? then false
    else Get(d, "done") == Some(Bool(true)) || EndsByType(num, d, TypeOf(d), ch)
  }

  /** What an event of a type ends: everything, a block, one text of an output item, or what its choices say. */
  datatype Ender = Everything | Block | Part(kind: string) | Choice

  function EnderOf(t: string): Ender {
    if t == "message_stop" || t == "message_delta" then Ender.Everything
    else if t == "response.completed" || t == "response.incomplete" || t == "response.failed" then Ender.Everything
    else if t == "content_block_stop" then Block
    else if t == "response.output_text.done" then Ender.Part("text")
    else if t == "response.reasoning_text.done" || t == "response.reasoning_summary_text.done" then Ender.Part("reason")
    else if t == "response.function_call_arguments.done" then Ender.Part("args")
    else Choice
  }

  ghost predicate EndsByType(num: Reading, d: Json, t: string, ch: string) {
    match EnderOf(t)
    case Everything => true
    case Block => Numbered("a", IndexAt(num, d, "index", 0)) <= ch
    case Part(kind) => OfItem(num, d, kind, ch)
    case Choice => ChoiceEnds(num, d, ch)
  }

  lemma {:induction false} FinishedIff(c: Json)
    ensures Finished(c) <==> Get(c, "finish_reason").Some? && Ending(Get(c, "finish_reason").value)
  {
  }

  /** One of the prefixes begins the channel. */
  predicate BeginsOne(ps: seq<string>, ch: string) { exists i :: 0 <= i < |ps| && ps[i] <= ch }

  lemma {:induction false} BeginsConcat(a: seq<string>, b: seq<string>, ch: string)
    ensures BeginsOne(a + b, ch) <==> BeginsOne(a, ch) || BeginsOne(b, ch)
  {
    var c := a + b;
    if i :| 0 <= i < |a| && a[i] <= ch { assert c[i] <= ch; }
    if i :| 0 <= i < |b| && b[i] <= ch { assert c[|a| + i] <= ch; }
    if i :| 0 <= i < |c| && c[i] <= ch { if i < |a| { assert a[i] <= ch; } else { assert b[i - |a|] <= ch; } }
  }

  lemma {:induction false} OnePrefix(p: string, ch: string)
    ensures BeginsOne([p], ch) <==> p <= ch
  {
    if p <= ch { assert [p][0] <= ch; }
  }

  lemma {:induction false} FirstEnds(num: Reading, c: Json, at: nat, ch: string)
    ensures BeginsOne(if Finished(c) then [Numbered("c", ChoiceNo(num, c, at))] else [], ch) <==> ChoiceEnded(num, c, at, ch)
  {
    FinishedIff(c);
    OnePrefix(Numbered("c", ChoiceNo(num, c, at)), ch);
  }

  lemma {:induction false} ChoicesEndFrom(num: Reading, items: seq<Json>, at: nat, ch: string) returns (i: nat)
    requires BeginsOne(FinishedChoices(num, items, at), ch)
    ensures i < |items| && ChoiceEnded(num, items[i], at + i, ch)
  {
    FirstEnds(num, items[0], at, ch);
    if ChoiceEnded(num, items[0], at, ch) {
      i := 0;
    } else {
      BeginsConcat(if Finished(items[0]) then [Numbered("c", ChoiceNo(num, items[0], at))] else [],
                   FinishedChoices(num, items[1..], at + 1), ch);
      i := ChoicesEndFrom(num, items[1..], at + 1, ch);
      i := i + 1;
    }
  }

  lemma {:induction false} ChoicesEndHas(num: Reading, items: seq<Json>, at: nat, ch: string, i: nat)
    requires i < |items| && ChoiceEnded(num, items[i], at + i, ch)
    ensures BeginsOne(FinishedChoices(num, items, at), ch)
  {
    BeginsConcat(if Finished(items[0]) then [Numbered("c", ChoiceNo(num, items[0], at))] else [],
                 FinishedChoices(num, items[1..], at + 1), ch);
    if i == 0 { FirstEnds(num, items[0], at, ch); } else { ChoicesEndHas(num, items[1..], at + 1, ch, i - 1); }
  }

  lemma {:induction false} ChoicesEnd(num: Reading, d: Json, ch: string)
    ensures BeginsOne(FinishedChoices(num, ItemsAt(d, "choices"), 0), ch) <==> ChoiceEnds(num, d, ch)
  {
    var items := ItemsAt(d, "choices");
    if BeginsOne(FinishedChoices(num, items, 0), ch) { var i := ChoicesEndFrom(num, items, 0, ch); }
    if i :| 0 <= i < |items| && ChoiceEnded(num, items[i], i, ch) { ChoicesEndHas(num, items, 0, ch, i); }
  }

  lemma {:induction false} AllEnders(t: string)
    ensures t in ["message_stop", "message_delta", "response.completed", "response.incomplete", "response.failed"]
       <==> t == "message_stop" || t == "message_delta" || t == "response.completed" || t == "response.incomplete" || t == "response.failed"
  {
    var all := ["message_stop", "message_delta", "response.completed", "response.incomplete", "response.failed"];
    assert all[0] == "message_stop" && all[1] == "message_delta" && all[2] == "response.completed"
        && all[3] == "response.incomplete" && all[4] == "response.failed";
  }

  /** The prefixes an event of type t gives, if it does not end everything by `done`. */
  function PrefixesOf(num: Reading, d: Json, t: string): Option<seq<string>> {
    if t in ["message_stop", "message_delta", "response.completed", "response.incomplete", "response.failed"] then None
    else if t == "content_block_stop" then Some([Numbered("a", IndexAt(num, d, "index", 0))])
    else if t == "response.output_text.done" then Some([ResponsePrefix(num, d) + "text"])
    else if t == "response.reasoning_text.done" || t == "response.reasoning_summary_text.done" then Some([ResponsePrefix(num, d) + "reason"])
    else if t == "response.function_call_arguments.done" then Some([ResponsePrefix(num, d) + "args"])
    else Some(FinishedChoices(num, ItemsAt(d, "choices"), 0))
  }

  lemma {:induction false} TerminalBy(num: Reading, d: Json)
    ensures TerminalPrefixes(num, d) ==
              if !d.Obj? then Some([]) else if Get(d, "done") == Some(Bool(true)) then None else PrefixesOf(num, d, TypeOf(d))
  {
  }

  predicate Among(o: Option<seq<string>>, ch: string) { o.None? || BeginsOne(o.value, ch) }

  lemma {:induction false} PrefixesBy(num: Reading, d: Json, t: string)
    ensures PrefixesOf(num, d, t) ==
              match EnderOf(t)
              case Everything => None
              case Block => Some([Numbered("a", IndexAt(num, d, "index", 0))])
              case Part(kind) => Some([ResponsePrefix(num, d) + kind])
              case Choice => Some(FinishedChoices(num, ItemsAt(d, "choices"), 0))
  {
    AllEnders(t);
  }

  lemma {:induction false} PrefixesIff(num: Reading, d: Json, t: string, ch: string)
    ensures Among(PrefixesOf(num, d, t), ch) <==> EndsByType(num, d, t, ch)
  {
    PrefixesBy(num, d, t);
    match EnderOf(t)
    case Everything =>
    case Block => OnePrefix(Numbered("a", IndexAt(num, d, "index", 0)), ch);
    case Part(kind) => OnePrefix(ResponsePrefix(num, d) + kind, ch);
    case Choice => ChoicesEnd(num, d, ch);
  }

  /** terminal_prefixes names exactly the channels that the event ends. */
  lemma {:induction false} ClosesIff(num: Reading, d: Json, ch: string)
    ensures Closes(Proxied(num), d, ch) <==> EndsChannel(num, d, ch)
  {
    var e := TerminalPrefixes(num, d);
    assert Proxied(num).ends(d) == e;
    assert Closes(Proxied(num), d, ch) <==> Among(e, ch);
    TerminalBy(num, d);
    PrefixesIff(num, d, TypeOf(d), ch);
  }

  /** Missing, null or blank. */
  predicate NoReason(v: Option<Json>) { v.None? || v.value.Null? || (v.value.Str? && All(IsWhite, v.value.s)) }

  /** A chat event whose finish reasons are missing, null or blank ends nothing, so nothing cut by it is let out. */
  lemma {:induction false} BlankEndsNothing(num: Reading, d: Json, ch: string)
    requires TypeOf(d) == "" && Get(d, "done").None?
    requires forall c :: c in ItemsAt(d, "choices") ==> NoReason(Get(c, "finish_reason"))
    ensures !Closes(Proxied(num), d, ch)
  {
    ClosesIff(num, d, ch);
    forall i | 0 <= i < |ItemsAt(d, "choices")| ensures !ChoiceEnded(num, ItemsAt(d, "choices")[i], i, ch) {
      assert NoReason(Get(ItemsAt(d, "choices")[i], "finish_reason"));
    }
  }

  lemma {:induction false} CalmItems(items: seq<Json>, i: nat)
    requires i < |items|
    ensures |CalmChoices(items)| == |items| && NoReason(Get(CalmChoices(items)[i], "finish_reason"))
  {
    if i == 0 {
      if items[0].Obj? { PutGetOther(items[0], "finish_reason", Null, "finish_reason"); }
      CalmLength(items[1..]);
    } else {
      CalmItems(items[1..], i - 1);
    }
  }

  lemma {:induction false} CalmLength(items: seq<Json>)
    ensures |CalmChoices(items)| == |items|
  {
    if items != [] { CalmLength(items[1..]); }
  }

  /** What a flush frame keeps of its template: the type, calm choices, and no `done` that is true. */
  lemma {:induction false} CalmIs(d: Json)
    requires d.Obj?
    ensures var e := Calm(d);
            && e.Obj? && TypeOf(e) == TypeOf(d) && Get(e, "done") != Some(Bool(true))
            && (Get(d, "choices").Some? && Get(d, "choices").value.Arr?
                ==> Get(e, "choices") == Some(Arr(CalmChoices(Get(d, "choices").value.items))))
            && (!(Get(d, "choices").Some? && Get(d, "choices").value.Arr?) ==> Get(e, "choices") == Get(d, "choices"))
  {
    var v := Get(d, "choices");
    var a := v.Some? && v.value.Arr?;
    var e := if a then Put(d, "choices", Arr(CalmChoices(v.value.items))) else d;
    if a { PutTop(d, "choices", Arr(CalmChoices(v.value.items))); }
    if Get(e, "done").Some? { PutTop(e, "done", Bool(false)); }
  }

  /** A frame made up for a flush ends nothing, whatever its template ended. */
  lemma {:induction false} CalmEndsNothing(num: Reading, d: Json, ch: string)
    requires EnderOf(TypeOf(d)).Choice?
    ensures !Closes(Proxied(num), Calm(d), ch)
  {
    var e := Calm(d);
    ClosesIff(num, e, ch);
    if d.Obj? {
      CalmIs(d);
      var items := ItemsAt(d, "choices");
      CalmLength(items);
      assert ItemsAt(e, "choices") == CalmChoices(items);
      forall i | 0 <= i < |CalmChoices(items)| ensures !ChoiceEnded(num, CalmChoices(items)[i], i, ch) { CalmItems(items, i); }
    }
  }

  // ------------------------------------------------------------- what ending one does

  /** The frames of the step but the last, which is the event itself. */
  function Ahead(frames: seq<Frame>): seq<Frame> { if frames == [] then [] else frames[..|frames| - 1] }

  lemma {:induction false} FlushReads(env: Env, esc: string -> bool, st: State, frames: seq<Frame>, ch: string)
    requires Reads(env, esc, st, frames, [Channel.Flush], ch)
    ensures ReadAll(env, frames, ch) == Restored(env, Held(st.pending, ch), esc(ch))
  {
    var pend := Held(st.pending, ch);
    OneOutput(env, pend, Channel.Flush, RestorerFor(env, esc, ch));
    assert pend + "" == pend && Channel.Confirmed(pend, Channel.Flush, env.m) == pend;
  }

  /**
   An event that ends a channel: what was held on it, restored, is read from the frames ahead
   of the event, and nothing is held on it afterwards.
   */
  lemma {:induction false} EndedLeaves(env: Env, good: Json -> bool, esc: string -> bool, st: State, d: Json, st': State,
                                       frames: seq<Frame>, ch: string)
    requires Lawful(env.p, good, esc) && Inv(env, good, st) && good(d) && Step(env, st, Event(d, false), st', frames)
    requires Closes(env.p, d, ch)
    ensures ReadAll(env, Ahead(frames), ch) == Restored(env, Held(st.pending, ch), esc(ch))
    ensures Held(st'.pending, ch) == ""
  {
    AheadReads(env, good, esc, st, d, st', frames, ch);
    StepHolds(env, good, esc, st, Event(d, false), st', frames, ch);
    EndedHolds(env, d, Held(st.pending, ch), ch);
  }

  lemma {:induction false} AheadReads(env: Env, good: Json -> bool, esc: string -> bool, st: State, d: Json, st': State,
                                      frames: seq<Frame>, ch: string)
    requires Lawful(env.p, good, esc) && Inv(env, good, st) && Step(env, st, Event(d, false), st', frames) && Closes(env.p, d, ch)
    ensures ReadAll(env, Ahead(frames), ch) == Restored(env, Held(st.pending, ch), esc(ch))
  {
    var mid, fl :| EventVia(env, st, d, false, mid, fl, st', frames);
    FlushFollows(env, good, esc, st, ClosesIn(env, d), mid, fl, ch);
    assert ClosesIn(env, d)(ch);
    FlushReads(env, esc, st, fl, ch);
    assert Ahead(frames) == fl;
  }

  lemma {:induction false} LastHolds(env: Env, pend: string, text: string)
    ensures Channel.PendingAfter(pend, [Channel.Delta(text, true)], env.m) == "" && Channel.PendingAfter(pend, [Channel.Flush], env.m) == ""
  {
    OneOutput(env, pend, Channel.Delta(text, true), s => s);
    OneOutput(env, pend, Channel.Flush, s => s);
  }

  lemma {:induction false} EndedHolds(env: Env, d: Json, pend: string, ch: string)
    requires Closes(env.p, d, ch)
    ensures Channel.PendingAfter(pend, ChannelEvents(env, Event(d, false), ch), env.m) == ""
  {
    var text := TextOf(env.p.slots(d), ch);
    var b := if Lists(env.p.slots(d), ch) then [Channel.Delta(text, true)] else [];
    var es := ChannelEvents(env, Event(d, false), ch);
    assert es == [Channel.Flush] + b && es[1..] == b && es[0] == Channel.Flush;
    LastHolds(env, Channel.Pending(pend, Channel.Flush, env.m), text);
    assert Channel.PendingAfter(pend, es, env.m) == Channel.PendingAfter(Channel.Pending(pend, Channel.Flush, env.m), b, env.m);
  }

  /** The stream's last event and its end leave nothing held either. */
  lemma {:induction false} LastLeaves(env: Env, good: Json -> bool, esc: string -> bool, st: State, input: Input, st': State,
                                      frames: seq<Frame>, ch: string)
    requires Lawful(env.p, good, esc) && Inv(env, good, st) && Step(env, st, input, st', frames)
    requires input.Done? || (input.final && good(input.d) && Lists(env.p.slots(input.d), ch))
    ensures Held(st'.pending, ch) == ""
  {
    StepHolds(env, good, esc, st, input, st', frames, ch);
    var text := if input.Event? then TextOf(env.p.slots(input.d), ch) else "";
    LastHolds(env, Held(st.pending, ch), text);
    assert ChannelEvents(env, input, ch) == if input.Event? then [Channel.Delta(text, true)] else [Channel.Flush];
  }
}
