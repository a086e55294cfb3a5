/**
 The event layer of src/stream/sse.rs: several text channels in one stream of events, what
 each of them holds back, and the flush frames ahead of terminal events. The theorem: what
 a client reads on one channel is that channel's own run, however the channels interleave.

 How an event carries its texts (src/stream/slots.rs) is a parameter here: a lens with laws.
 */
module Sse {
  import opened Wrappers
  import opened Tree
  import Channel
  import Placeholders

  // ------------------------------------------------------------------- the protocol

  /** A text in an event: its channel, the text, and whether it is JSON inside a string. */
  datatype Slot = Slot(channel: string, text: string, escape: bool)

  /**
   How a protocol family keeps text in events: the texts listed, one of them rewritten, the
   channels an event ends (None: all of them), and an event with its ending signals removed.
   */
  datatype Protocol = Protocol(
    slots: Json -> seq<Slot>,
    set_: (Json, string, string) -> Json,
    ends: Json -> Option<seq<string>>,
    calm: Json -> Json)

  predicate Lists(slots: seq<Slot>, ch: string) { exists i :: 0 <= i < |slots| && slots[i].channel == ch }

  ghost predicate DistinctChannels(slots: seq<Slot>) {
    forall i, j :: 0 <= i < j < |slots| ==> slots[i].channel != slots[j].channel
  }

  /** The list with the text of one channel replaced. */
  function PutText(slots: seq<Slot>, ch: string, text: string): seq<Slot> {
    if slots == [] then []
    else [if slots[0].channel == ch then Slot(ch, text, slots[0].escape) else slots[0]] + PutText(slots[1..], ch, text)
  }

  /** What the event says on the channel. */
  function TextOf(slots: seq<Slot>, ch: string): string {
    if slots == [] then ""
    else (if slots[0].channel == ch then slots[0].text else "") + TextOf(slots[1..], ch)
  }

  /** The lens laws, for the events that are `good`; esc tells the escape flag of a channel. */
  ghost predicate Lawful(p: Protocol, good: Json -> bool, esc: string -> bool) {
    && (forall d :: good(d) ==> DistinctChannels(p.slots(d)) && Flags(p.slots(d), esc))
    && (forall d, ch, t :: good(d) && Lists(p.slots(d), ch) ==>
          good(p.set_(d, ch, t)) && p.slots(p.set_(d, ch, t)) == PutText(p.slots(d), ch, t))
    && (forall d :: good(d) ==> p.slots(p.calm(d)) == p.slots(d))
  }

  ghost predicate Flags(slots: seq<Slot>, esc: string -> bool) {
    forall i :: 0 <= i < |slots| ==> slots[i].escape == esc(slots[i].channel)
  }

  /** The channels an event ends. */
  predicate Closes(p: Protocol, d: Json, ch: string) {
    var e := p.ends(d);
    e.None? || exists i :: 0 <= i < |e.value| && e.value[i] <= ch
  }

  // ---------------------------------------------------------------------- the state

  /** Per session: text held back by channel, and the last event of a channel that holds some. */
  datatype State = State(pending: map<string, string>, tmpl: map<string, Json>)

  /**
   What a client is sent: an event after the pass over the rest of it, an event made up for
   a flush, or text no event could be found for.
   */
  datatype Frame = Passed(d: Json) | Data(d: Json) | Bare(text: string)

  /** The surroundings: protocol, partial matcher, restorer, and the pass over the rest of the event. */
  datatype Env = Env(p: Protocol, m: Channel.Pattern, f: (string, bool) -> string, tree: Json -> Json)

  function Held(pending: map<string, string>, ch: string): string { if ch in pending then pending[ch] else "" }

  function SetHeld(pending: map<string, string>, ch: string, q: string): map<string, string> {
    if q == "" then pending - {ch} else pending[ch := q]
  }

  function Restored(env: Env, text: string, escape: bool): string { if text == "" then "" else env.f(text, escape) }

  // ---------------------------------------------------------------------- one event

  function SlotEvent(s: Slot, last: bool): Channel.Event { Channel.Delta(s.text, last) }

  /** The slots in turn: held text and new text are joined, what is certain is restored and written back. */
  function SlotPass(env: Env, d: Json, slots: seq<Slot>, pending: map<string, string>, last: string -> bool)
    : (Json, map<string, string>)
    decreases |slots|
  {
    if slots == [] then (d, pending)
    else
      var s := slots[0];
      var e := SlotEvent(s, last(s.channel));
      var pend := Held(pending, s.channel);
      SlotPass(env, env.p.set_(d, s.channel, Restored(env, Channel.Confirmed(pend, e, env.m), s.escape)),
               slots[1..], SetHeld(pending, s.channel, Channel.Pending(pend, e, env.m)), last)
  }

  /** The event becomes the template of each of its channels that holds something. */
  function StoreTemplates(tmpl: map<string, Json>, slots: seq<Slot>, pending: map<string, string>, d: Json): map<string, Json>
    decreases |slots|
  {
    if slots == [] then tmpl
    else
      var ch := slots[0].channel;
      StoreTemplates(if ch in pending then tmpl[ch := d] else tmpl, slots[1..], pending, d)
  }

  function LastOf(env: Env, d: Json, final: bool): string -> bool { ch => final || Closes(env.p, d, ch) }

  /** The event itself, after any flush. */
  function EventPass(env: Env, st: State, d: Json, final: bool): (State, Json) {
    var slots := env.p.slots(d);
    var (d', pending) := SlotPass(env, d, slots, st.pending, LastOf(env, d, final));
    (State(pending, StoreTemplates(st.tmpl, slots, pending, d')), d')
  }

  // ------------------------------------------------------------------------- flushes

  /** build_flush_frame: the template with this channel's text and no other. */
  function SetOnly(env: Env, d: Json, slots: seq<Slot>, ch: string, text: string): Json
    decreases |slots|
  {
    if slots == [] then d
    else SetOnly(env, env.p.set_(d, slots[0].channel, if slots[0].channel == ch then text else ""), slots[1..], ch, text)
  }

  function EscapeIn(slots: seq<Slot>, ch: string): bool {
    if slots == [] then false
    else if slots[0].channel == ch then slots[0].escape else EscapeIn(slots[1..], ch)
  }

  /** What is sent for one channel's held text. */
  function FlushFrame(env: Env, st: State, ch: string): seq<Frame> {
    var slots := if ch in st.tmpl then env.p.slots(st.tmpl[ch]) else [];
    var text := Restored(env, Held(st.pending, ch), EscapeIn(slots, ch));
    if text == "" then []
    else if Lists(slots, ch) then [Data(env.p.calm(SetOnly(env, st.tmpl[ch], slots, ch, text)))]
    else [Bare(text)]
  }

  function FlushFrames(env: Env, st: State, order: seq<string>): seq<Frame> {
    if order == [] then [] else FlushFrame(env, st, order[0]) + FlushFrames(env, st, order[1..])
  }

  function Without(st: State, chs: set<string>): State { State(st.pending - chs, st.tmpl - chs) }

  ghost predicate OrderOf(order: seq<string>, chs: set<string>) {
    && (forall i, j :: 0 <= i < j < |order| ==> order[i] != order[j])
    && (forall ch :: ch in order <==> ch in chs)
  }

  function Matching(st: State, m: string -> bool): set<string> { set ch | ch in st.pending && m(ch) }

  /** flush_pending_matching: the matching channels are sent, in any order, and forgotten. */
  ghost predicate Flushed(env: Env, st: State, m: string -> bool, st': State, frames: seq<Frame>) {
    exists order :: OrderOf(order, Matching(st, m)) && frames == FlushFrames(env, st, order)
                    && st' == Without(st, Matching(st, m))
  }

  // ---------------------------------------------------------------------------- runs

  /** An event, final when the stream ended with it, or the end of the stream (`[DONE]` too). */
  datatype Input = Event(d: Json, final: bool) | Done

  function ClosesIn(env: Env, d: Json): string -> bool { ch => Closes(env.p, d, ch) }

  function Everything(): string -> bool { _ => true }

  /** An event ends some channels first, unless it is the stream's last. */
  ghost predicate EventVia(env: Env, st: State, d: Json, final: bool, mid: State, fl: seq<Frame>, st': State, frames: seq<Frame>) {
    && (if final then mid == st && fl == [] else Flushed(env, st, ClosesIn(env, d), mid, fl))
    && st' == EventPass(env, mid, d, final).0
    && frames == fl + [Passed(EventPass(env, mid, d, final).1)]
  }

  /** restore_sse_event on one payload, and the flush at the end. */
  ghost predicate Step(env: Env, st: State, input: Input, st': State, frames: seq<Frame>) {
    if input.Done? then Flushed(env, st, Everything(), st', frames)
    else exists mid, fl :: EventVia(env, st, input.d, input.final, mid, fl, st', frames)
  }

  /** sts are the successive states, outs the frames of each step. */
  ghost predicate Run(env: Env, sts: seq<State>, ins: seq<Input>, outs: seq<seq<Frame>>) {
    |sts| == |ins| + 1 && |outs| == |ins| &&
    forall i :: 0 <= i < |ins| ==> Step(env, sts[i], ins[i], sts[i + 1], outs[i])
  }

  const START: State := State(map[], map[])

  // ----------------------------------------------------------------------- the client

  /** What a client that knows the protocol reads on a channel. */
  function Read(env: Env, fr: Frame, ch: string): string {
    if fr.Passed? then TextOf(env.p.slots(env.tree(fr.d)), ch)
    else if fr.Data? then TextOf(env.p.slots(fr.d), ch)
    else ""
  }

  function ReadAll(env: Env, frames: seq<Frame>, ch: string): string {
    if frames == [] then "" else Read(env, frames[0], ch) + ReadAll(env, frames[1..], ch)
  }

  function ReadRun(env: Env, outs: seq<seq<Frame>>, ch: string): string {
    if outs == [] then "" else ReadAll(env, outs[0], ch) + ReadRun(env, outs[1..], ch)
  }

  /** What one channel sees of an input. */
  function ChannelEvents(env: Env, input: Input, ch: string): seq<Channel.Event> {
    if input.Done? then [Channel.Flush]
    else
      var slots := env.p.slots(input.d);
      (if !input.final && Closes(env.p, input.d, ch) then [Channel.Flush] else [])
      + (if Lists(slots, ch) then [Channel.Delta(TextOf(slots, ch), input.final || Closes(env.p, input.d, ch))] else [])
  }

  function ChannelRun(env: Env, ins: seq<Input>, ch: string): seq<Channel.Event> {
    if ins == [] then [] else ChannelEvents(env, ins[0], ch) + ChannelRun(env, ins[1..], ch)
  }

  // ------------------------------------------------------------------ lists of slots

  lemma {:induction false} PutTextAt(slots: seq<Slot>, ch: string, text: string)
    ensures var r := PutText(slots, ch, text);
            |r| == |slots| && forall i :: 0 <= i < |slots| ==>
              r[i] == if slots[i].channel == ch then Slot(ch, text, slots[i].escape) else slots[i]
  {
    if slots != [] { PutTextAt(slots[1..], ch, text); }
  }

  lemma {:induction false} UnlistedText(slots: seq<Slot>, ch: string)
    requires !Lists(slots, ch)
    ensures TextOf(slots, ch) == "" && EscapeIn(slots, ch) == false
  {
    if slots != [] {
      assert slots[0].channel != ch;
      UnlistedTail(slots, ch);
      UnlistedText(slots[1..], ch);
    }
  }

  lemma {:induction false} UnlistedTail(slots: seq<Slot>, ch: string)
    requires slots != [] && !Lists(slots, ch)
    ensures !Lists(slots[1..], ch)
  {
    forall i | 0 <= i < |slots[1..]| ensures slots[1..][i].channel != ch { assert slots[i + 1].channel != ch; }
  }

  lemma {:induction false} ListsTail(slots: seq<Slot>, ch: string)
    requires slots != []
    ensures Lists(slots, ch) <==> slots[0].channel == ch || Lists(slots[1..], ch)
  {
    if i :| 0 <= i < |slots[1..]| && slots[1..][i].channel == ch { assert slots[i + 1].channel == ch; }
    if i :| 0 < i < |slots| && slots[i].channel == ch { assert slots[1..][i - 1].channel == ch; }
  }

  lemma {:induction false} DistinctTail(slots: seq<Slot>)
    requires slots != [] && DistinctChannels(slots)
    ensures DistinctChannels(slots[1..]) && !Lists(slots[1..], slots[0].channel)
  {
    forall i | 0 <= i < |slots[1..]| ensures slots[1..][i].channel != slots[0].channel {
      assert slots[0].channel != slots[i + 1].channel;
    }
    forall i, j | 0 <= i < j < |slots[1..]| ensures slots[1..][i].channel != slots[1..][j].channel {
      assert slots[i + 1].channel != slots[j + 1].channel;
    }
  }

  /** Writing one channel changes what is read on that channel only. */
  lemma {:induction false} PutTextOf(slots: seq<Slot>, ch: string, text: string, ch': string)
    requires DistinctChannels(slots)
    ensures TextOf(PutText(slots, ch, text), ch')
         == if ch' == ch && Lists(slots, ch) then text else TextOf(slots, ch')
  {
    if slots != [] {
      DistinctTail(slots);
      ListsTail(slots, ch);
      PutTextOf(slots[1..], ch, text, ch');
      if slots[0].channel == ch && ch' == ch {
        UnlistedText(slots[1..], ch);
        assert text + "" == text;
      }
    }
  }

  lemma {:induction false} EscapeFlag(slots: seq<Slot>, ch: string, esc: string -> bool)
    requires Flags(slots, esc) && Lists(slots, ch)
    ensures EscapeIn(slots, ch) == esc(ch)
  {
    ListsTail(slots, ch);
    if slots[0].channel != ch {
      forall i | 0 <= i < |slots[1..]| ensures slots[1..][i].escape == esc(slots[1..][i].channel) {
        assert slots[i + 1].escape == esc(slots[i + 1].channel);
      }
      EscapeFlag(slots[1..], ch, esc);
    } else {
      assert slots[0].escape == esc(slots[0].channel);
    }
  }

  // ----------------------------------------------------------------- laws, one by one

  ghost predicate SameChannels(a: seq<Slot>, b: seq<Slot>) {
    |a| == |b| && forall i :: 0 <= i < |a| ==> a[i].channel == b[i].channel
  }

  lemma {:induction false} SameLists(a: seq<Slot>, b: seq<Slot>, ch: string)
    requires SameChannels(a, b)
    ensures Lists(a, ch) <==> Lists(b, ch)
  {
    if i :| 0 <= i < |a| && a[i].channel == ch { assert b[i].channel == ch; }
    if i :| 0 <= i < |b| && b[i].channel == ch { assert a[i].channel == ch; }
  }

  lemma {:induction false} SetLaw(env: Env, good: Json -> bool, esc: string -> bool, d: Json, c: string, t: string, ch: string)
    requires Lawful(env.p, good, esc) && good(d) && Lists(env.p.slots(d), c)
    ensures var d' := env.p.set_(d, c, t);
            && good(d') && SameChannels(env.p.slots(d), env.p.slots(d'))
            && TextOf(env.p.slots(d'), ch) == if ch == c then t else TextOf(env.p.slots(d), ch)
  {
    PutTextAt(env.p.slots(d), c, t);
    PutTextOf(env.p.slots(d), c, t, ch);
  }

  /** The channels of `some` are channels of `all`. */
  ghost predicate Within(some: seq<Slot>, all: seq<Slot>) {
    forall i :: 0 <= i < |some| ==> Lists(all, some[i].channel)
  }

  lemma {:induction false} WithinTail(some: seq<Slot>, all: seq<Slot>, all': seq<Slot>)
    requires some != [] && Within(some, all) && SameChannels(all, all')
    ensures Within(some[1..], all')
  {
    forall i | 0 <= i < |some[1..]| ensures Lists(all', some[1..][i].channel) {
      assert Lists(all, some[i + 1].channel);
      SameLists(all, all', some[i + 1].channel);
    }
  }

  lemma {:induction false} HeldSet(pending: map<string, string>, c: string, q: string, ch: string)
    ensures Held(SetHeld(pending, c, q), ch) == if ch == c then q else Held(pending, ch)
  {
  }

  /** The listed slots an event pass starts from. */
  ghost predicate Passing(env: Env, good: Json -> bool, esc: string -> bool, d: Json, slots: seq<Slot>) {
    Lawful(env.p, good, esc) && good(d) && DistinctChannels(slots) && Flags(slots, esc) && Within(slots, env.p.slots(d))
  }

  lemma {:induction false} PassingTail(env: Env, good: Json -> bool, esc: string -> bool, d: Json, slots: seq<Slot>, t: string)
    requires slots != [] && Passing(env, good, esc, d, slots)
    ensures Lists(env.p.slots(d), slots[0].channel) && slots[0].escape == esc(slots[0].channel)
    ensures Passing(env, good, esc, env.p.set_(d, slots[0].channel, t), slots[1..])
  {
    var c := slots[0].channel;
    assert Lists(env.p.slots(d), c);
    SetLaw(env, good, esc, d, c, t, c);
    DistinctTail(slots);
    WithinTail(slots, env.p.slots(d), env.p.slots(env.p.set_(d, c, t)));
    forall i | 0 <= i < |slots[1..]| ensures slots[1..][i].escape == esc(slots[1..][i].channel) {
      assert slots[i + 1].escape == esc(slots[i + 1].channel);
    }
  }

  lemma {:induction false} PassingAll(env: Env, good: Json -> bool, esc: string -> bool, d: Json)
    requires Lawful(env.p, good, esc) && good(d)
    ensures Passing(env, good, esc, d, env.p.slots(d))
  {
    var slots := env.p.slots(d);
    forall i | 0 <= i < |slots| ensures Lists(slots, slots[i].channel) {}
  }

  /** The event one channel sees in an event pass. */
  function PassEvent(slots: seq<Slot>, ch: string, last: string -> bool): Channel.Event {
    Channel.Delta(TextOf(slots, ch), last(ch))
  }

  /** The first slot of a pass, and what is left to do. */
  function FirstOut(env: Env, slots: seq<Slot>, pending: map<string, string>, last: string -> bool): string
    requires slots != []
  {
    var s := slots[0];
    Restored(env, Channel.Confirmed(Held(pending, s.channel), SlotEvent(s, last(s.channel)), env.m), s.escape)
  }

  function FirstHeld(env: Env, slots: seq<Slot>, pending: map<string, string>, last: string -> bool): string
    requires slots != []
  {
    var s := slots[0];
    Channel.Pending(Held(pending, s.channel), SlotEvent(s, last(s.channel)), env.m)
  }

  lemma {:induction false} SlotPassStep(env: Env, d: Json, slots: seq<Slot>, pending: map<string, string>, last: string -> bool)
    requires slots != []
    ensures SlotPass(env, d, slots, pending, last)
         == SlotPass(env, env.p.set_(d, slots[0].channel, FirstOut(env, slots, pending, last)), slots[1..],
                     SetHeld(pending, slots[0].channel, FirstHeld(env, slots, pending, last)), last)
  {
  }

  /** The first slot is all its channel says; the other channels speak in the rest. */
  lemma {:induction false} FirstText(slots: seq<Slot>, ch: string)
    requires slots != [] && DistinctChannels(slots)
    ensures DistinctChannels(slots[1..])
    ensures slots[0].channel == ch ==> TextOf(slots, ch) == slots[0].text && Lists(slots, ch) && !Lists(slots[1..], ch)
    ensures slots[0].channel != ch ==> TextOf(slots, ch) == TextOf(slots[1..], ch) && (Lists(slots, ch) <==> Lists(slots[1..], ch))
  {
    DistinctTail(slots);
    ListsTail(slots, ch);
    if slots[0].channel == ch {
      UnlistedText(slots[1..], ch);
      assert slots[0].text + "" == slots[0].text;
    } else {
      assert "" + TextOf(slots[1..], ch) == TextOf(slots[1..], ch);
    }
  }

  /** What is held after an event pass: on listed channels what the channel alone would hold. */
  lemma {:induction false} SlotPassHolds(env: Env, d: Json, slots: seq<Slot>, pending: map<string, string>, last: string -> bool, ch: string)
    requires DistinctChannels(slots)
    ensures Held(SlotPass(env, d, slots, pending, last).1, ch)
         == if Lists(slots, ch) then Channel.Pending(Held(pending, ch), PassEvent(slots, ch, last), env.m)
            else Held(pending, ch)
    decreases |slots|
  {
    if slots != [] {
      var c, q := slots[0].channel, FirstHeld(env, slots, pending, last);
      SlotPassStep(env, d, slots, pending, last);
      SlotPassHolds(env, env.p.set_(d, c, FirstOut(env, slots, pending, last)), slots[1..], SetHeld(pending, c, q), last, ch);
      HeldSet(pending, c, q, ch);
      FirstText(slots, ch);
    }
  }

  /** What an event says after a pass: on listed channels what the channel alone would let out. */
  lemma {:induction false} SlotPassReads(env: Env, good: Json -> bool, esc: string -> bool, d: Json, slots: seq<Slot>,
                                         pending: map<string, string>, last: string -> bool, ch: string)
    requires Passing(env, good, esc, d, slots)
    ensures var d' := SlotPass(env, d, slots, pending, last).0;
            && good(d') && SameChannels(env.p.slots(d), env.p.slots(d'))
            && TextOf(env.p.slots(d'), ch)
                 == (if Lists(slots, ch)
                     then Restored(env, Channel.Confirmed(Held(pending, ch), PassEvent(slots, ch, last), env.m), esc(ch))
                     else TextOf(env.p.slots(d), ch))
    decreases |slots|
  {
    if slots != [] {
      var c, out, q := slots[0].channel, FirstOut(env, slots, pending, last), FirstHeld(env, slots, pending, last);
      SlotPassStep(env, d, slots, pending, last);
      PassingTail(env, good, esc, d, slots, out);
      SetLaw(env, good, esc, d, c, out, ch);
      HeldSet(pending, c, q, ch);
      FirstText(slots, ch);
      SlotPassReads(env, good, esc, env.p.set_(d, c, out), slots[1..], SetHeld(pending, c, q), last, ch);
    }
  }

  // ----------------------------------------------------------------- reachable states

  /** What is held on a channel is short, and a template for sending it is at hand. */
  ghost predicate Ready(env: Env, good: Json -> bool, st: State, ch: string) {
    ch in st.pending ==>
      && st.pending[ch] != "" && Placeholders.Utf8Size(st.pending[ch]) <= Channel.PARTIAL_MAX
      && ch in st.tmpl && good(st.tmpl[ch]) && Lists(env.p.slots(st.tmpl[ch]), ch)
  }

  lemma {:induction false} StoredTemplate(tmpl: map<string, Json>, slots: seq<Slot>, pending: map<string, string>, d: Json, ch: string)
    ensures var t := StoreTemplates(tmpl, slots, pending, d);
            && (Lists(slots, ch) && ch in pending ==> ch in t && t[ch] == d)
            && (!Lists(slots, ch) ==> (ch in t <==> ch in tmpl) && (ch in tmpl ==> t[ch] == tmpl[ch]))
            && (ch in tmpl && tmpl[ch] == d ==> ch in t && t[ch] == d)
    decreases |slots|
  {
    if slots != [] {
      var c := slots[0].channel;
      StoredTemplate(if c in pending then tmpl[c := d] else tmpl, slots[1..], pending, d, ch);
      ListsTail(slots, ch);
    }
  }

  lemma {:induction false} HeldShort(env: Env, pend: string, e: Channel.Event)
    ensures Placeholders.Utf8Size(Channel.Pending(pend, e, env.m)) <= Channel.PARTIAL_MAX
  {
    var buf := pend + Channel.Text(e);
    var i := Channel.FirstMatch(buf, env.m);
    if Channel.Hold(buf, env.m) == |buf| { assert buf[|buf|..] == ""; }
  }

  /** In a pending table no entry is empty. */
  ghost predicate NoneEmpty(pending: map<string, string>) { forall c :: c in pending ==> pending[c] != "" }

  lemma {:induction false} SlotPassNoneEmpty(env: Env, d: Json, slots: seq<Slot>, pending: map<string, string>, last: string -> bool)
    requires NoneEmpty(pending)
    ensures NoneEmpty(SlotPass(env, d, slots, pending, last).1)
    decreases |slots|
  {
    if slots != [] {
      var s := slots[0];
      var e := SlotEvent(s, last(s.channel));
      var pend := Held(pending, s.channel);
      SlotPassNoneEmpty(env, env.p.set_(d, s.channel, Restored(env, Channel.Confirmed(pend, e, env.m), s.escape)),
                        slots[1..], SetHeld(pending, s.channel, Channel.Pending(pend, e, env.m)), last);
    }
  }

  ghost predicate Inv(env: Env, good: Json -> bool, st: State) {
    forall ch :: Ready(env, good, st, ch)
  }

  lemma {:induction false} EventReady(env: Env, good: Json -> bool, esc: string -> bool, st: State, d: Json, final: bool, ch: string)
    requires Lawful(env.p, good, esc) && good(d) && Inv(env, good, st)
    ensures Ready(env, good, EventPass(env, st, d, final).0, ch)
  {
    var slots := env.p.slots(d);
    var last := LastOf(env, d, final);
    var (d', pending) := SlotPass(env, d, slots, st.pending, last);
    assert Ready(env, good, st, ch);
    PassingAll(env, good, esc, d);
    SlotPassReads(env, good, esc, d, slots, st.pending, last, ch);
    SlotPassHolds(env, d, slots, st.pending, last, ch);
    assert NoneEmpty(st.pending) by { forall c | c in st.pending ensures st.pending[c] != "" { assert Ready(env, good, st, c); } }
    SlotPassNoneEmpty(env, d, slots, st.pending, last);
    StoredTemplate(st.tmpl, slots, pending, d', ch);
    SameLists(slots, env.p.slots(d'), ch);
    HeldShort(env, Held(st.pending, ch), PassEvent(slots, ch, last));
  }

  lemma {:induction false} FlushReady(env: Env, good: Json -> bool, st: State, chs: set<string>)
    requires Inv(env, good, st)
    ensures Inv(env, good, Without(st, chs))
  {
    forall ch ensures Ready(env, good, Without(st, chs), ch) { assert Ready(env, good, st, ch); }
  }

  // ----------------------------------------------------------- what a flush says

  lemma {:induction false} SetOnlyReads(env: Env, good: Json -> bool, esc: string -> bool, d: Json, slots: seq<Slot>,
                                        c: string, text: string, ch: string)
    requires Passing(env, good, esc, d, slots)
    ensures var d' := SetOnly(env, d, slots, c, text);
            && good(d')
            && TextOf(env.p.slots(d'), ch)
                 == if Lists(slots, ch) then (if ch == c then text else "") else TextOf(env.p.slots(d), ch)
    decreases |slots|
  {
    if slots != [] {
      var t := if slots[0].channel == c then text else "";
      PassingTail(env, good, esc, d, slots, t);
      SetLaw(env, good, esc, d, slots[0].channel, t, ch);
      SetOnlyReads(env, good, esc, env.p.set_(d, slots[0].channel, t), slots[1..], c, text, ch);
      ListsTail(slots, ch);
    }
  }

  /** A flush frame says what was held on its channel, restored, and nothing on the others. */
  lemma {:induction false} FlushFrameReads(env: Env, good: Json -> bool, esc: string -> bool, st: State, c: string, ch: string)
    requires Lawful(env.p, good, esc) && c in st.pending && Ready(env, good, st, c)
    ensures ReadAll(env, FlushFrame(env, st, c), ch) == if ch == c then Restored(env, st.pending[c], esc(c)) else ""
  {
    var d := st.tmpl[c];
    var slots := env.p.slots(d);
    EscapeFlag(slots, c, esc);
    var text := Restored(env, Held(st.pending, c), EscapeIn(slots, c));
    PassingAll(env, good, esc, d);
    SetOnlyReads(env, good, esc, d, slots, c, text, ch);
    if !Lists(slots, ch) { UnlistedText(slots, ch); }
    if text != "" { OneFrame(env, Data(env.p.calm(SetOnly(env, d, slots, c, text))), ch); }
  }

  lemma {:induction false} OneFrame(env: Env, fr: Frame, ch: string)
    ensures ReadAll(env, [fr], ch) == Read(env, fr, ch)
  {
    var one := [fr];
    assert one[1..] == [];
    assert ReadAll(env, one, ch) == Read(env, fr, ch) + "";
  }

  lemma {:induction false} ReadConcat(env: Env, a: seq<Frame>, b: seq<Frame>, ch: string)
    ensures ReadAll(env, a + b, ch) == ReadAll(env, a, ch) + ReadAll(env, b, ch)
  {
    if a == [] { assert a + b == b; }
    else { assert (a + b)[1..] == a[1..] + b; ReadConcat(env, a[1..], b, ch); }
  }

  ghost predicate NoRepeat(order: seq<string>) { forall i, j :: 0 <= i < j < |order| ==> order[i] != order[j] }

  lemma {:induction false} FlushFramesRead(env: Env, good: Json -> bool, esc: string -> bool, st: State, order: seq<string>, ch: string)
    requires Lawful(env.p, good, esc) && Inv(env, good, st) && NoRepeat(order)
    requires forall i :: 0 <= i < |order| ==> order[i] in st.pending
    ensures ReadAll(env, FlushFrames(env, st, order), ch)
         == if ch in order then Restored(env, Held(st.pending, ch), esc(ch)) else ""
  {
    if order != [] {
      var c, rest := order[0], order[1..];
      assert Ready(env, good, st, c);
      assert order == [c] + rest;
      FlushFrameReads(env, good, esc, st, c, ch);
      ReadConcat(env, FlushFrame(env, st, c), FlushFrames(env, st, rest), ch);
      forall i, j | 0 <= i < j < |rest| ensures rest[i] != rest[j] { assert order[i + 1] != order[j + 1]; }
      forall i | 0 <= i < |rest| ensures rest[i] in st.pending && rest[i] != c { assert order[0] != order[i + 1]; }
      FlushFramesRead(env, good, esc, st, rest, ch);
    }
  }

  /** What one channel's run does with a text it lets out. */
  ghost function RestorerFor(env: Env, esc: string -> bool, ch: string): string -> string { s => Restored(env, s, esc(ch)) }

  /** What is read in the frames is what the channel's own events let out. */
  ghost predicate Reads(env: Env, esc: string -> bool, st: State, frames: seq<Frame>, es: seq<Channel.Event>, ch: string) {
    ReadAll(env, frames, ch) == Channel.Output(Held(st.pending, ch), es, env.m, RestorerFor(env, esc, ch))
  }

  /** What is held afterwards is what the channel's own events leave. */
  ghost predicate Holds(env: Env, st: State, st': State, es: seq<Channel.Event>, ch: string) {
    Held(st'.pending, ch) == Channel.PendingAfter(Held(st.pending, ch), es, env.m)
  }

  lemma {:induction false} OneOutput(env: Env, pend: string, e: Channel.Event, f: string -> string)
    ensures Channel.Output(pend, [e], env.m, f) == f(Channel.Confirmed(pend, e, env.m))
    ensures Channel.PendingAfter(pend, [e], env.m) == Channel.Pending(pend, e, env.m)
  {
    var es := [e];
    assert es[1..] == [];
    var q := Channel.Pending(pend, e, env.m);
    assert Channel.Output(q, es[1..], env.m, f) == "";
    assert Channel.Output(pend, es, env.m, f) == f(Channel.Confirmed(pend, e, env.m)) + "";
    assert Channel.PendingAfter(q, es[1..], env.m) == q;
  }

  lemma {:induction false} FlushFollows(env: Env, good: Json -> bool, esc: string -> bool, st: State, m: string -> bool,
                                        st': State, frames: seq<Frame>, ch: string)
    requires Lawful(env.p, good, esc) && Inv(env, good, st) && Flushed(env, st, m, st', frames)
    ensures Inv(env, good, st')
    ensures var es := if m(ch) then [Channel.Flush] else [];
            Reads(env, esc, st, frames, es, ch) && Holds(env, st, st', es, ch)
  {
    var chs := Matching(st, m);
    FlushReady(env, good, st, chs);
    var order :| OrderOf(order, chs) && frames == FlushFrames(env, st, order) && st' == Without(st, chs);
    forall i | 0 <= i < |order| ensures order[i] in st.pending { assert order[i] in order; }
    FlushFramesRead(env, good, esc, st, order, ch);
    var pend := Held(st.pending, ch);
    if m(ch) {
      OneOutput(env, pend, Channel.Flush, RestorerFor(env, esc, ch));
      assert pend + "" == pend;
    }
  }

  // ------------------------------------------------------- the pass over the whole event

  /** Restoring the text once more changes nothing, escaped or not. */
  ghost predicate Still(env: Env, text: string) { env.f(text, false) == text && env.f(text, true) == text }

  /** The same channels, and each text is as it was or restored once more. */
  ghost predicate Retold(a: seq<Slot>, b: seq<Slot>, f: (string, bool) -> string) {
    SameChannels(a, b) && forall i :: 0 <= i < |a| ==> b[i].text in [a[i].text, f(a[i].text, false), f(a[i].text, true)]
  }

  /** The pass over a good event leaves its channels where they are. */
  ghost predicate Retelling(env: Env, good: Json -> bool) {
    forall d :: good(d) ==> Retold(env.p.slots(d), env.p.slots(env.tree(d)), env.f)
  }

  lemma {:induction false} RetoldText(env: Env, a: seq<Slot>, b: seq<Slot>, ch: string)
    requires Retold(a, b, env.f) && DistinctChannels(a) && Still(env, TextOf(a, ch))
    ensures TextOf(b, ch) == TextOf(a, ch)
  {
    if a != [] {
      FirstText(a, ch);
      forall i, j | 0 <= i < j < |b| ensures b[i].channel != b[j].channel { assert a[i].channel != a[j].channel; }
      FirstText(b, ch);
      if a[0].channel != ch { RetoldText(env, a[1..], b[1..], ch); }
    }
  }

  /** Whatever the channel lets out is restored for good. */
  ghost predicate Settles(env: Env, esc: string -> bool, pend: string, es: seq<Channel.Event>, ch: string)
    decreases |es|
  {
    es != [] ==> Still(env, Restored(env, Channel.Confirmed(pend, es[0], env.m), esc(ch)))
                 && Settles(env, esc, Channel.Pending(pend, es[0], env.m), es[1..], ch)
  }

  lemma {:induction false} SettlesConcat(env: Env, esc: string -> bool, pend: string, a: seq<Channel.Event>, b: seq<Channel.Event>, ch: string)
    requires Settles(env, esc, pend, a + b, ch)
    ensures Settles(env, esc, pend, a, ch) && Settles(env, esc, Channel.PendingAfter(pend, a, env.m), b, ch)
    decreases |a|
  {
    if a == [] { assert a + b == b; }
    else {
      assert (a + b)[0] == a[0] && (a + b)[1..] == a[1..] + b;
      SettlesConcat(env, esc, Channel.Pending(pend, a[0], env.m), a[1..], b, ch);
    }
  }

  // --------------------------------------------------------------------- one payload

  /** What the channel sees of the event itself, after any flush. */
  function OwnEvents(env: Env, d: Json, final: bool, ch: string): seq<Channel.Event> {
    var slots := env.p.slots(d);
    if Lists(slots, ch) then [PassEvent(slots, ch, LastOf(env, d, final))] else []
  }

  lemma {:induction false} EventHolds(env: Env, good: Json -> bool, esc: string -> bool, st: State, d: Json, final: bool, ch: string)
    requires Lawful(env.p, good, esc) && good(d) && Inv(env, good, st)
    ensures var st' := EventPass(env, st, d, final).0;
            Inv(env, good, st') && Holds(env, st, st', OwnEvents(env, d, final, ch), ch)
  {
    var (st', d') := EventPass(env, st, d, final);
    forall c ensures Ready(env, good, st', c) { EventReady(env, good, esc, st, d, final, c); }
    var slots, last := env.p.slots(d), LastOf(env, d, final);
    SlotPassHolds(env, d, slots, st.pending, last, ch);
    if Lists(slots, ch) { OneOutput(env, Held(st.pending, ch), PassEvent(slots, ch, last), RestorerFor(env, esc, ch)); }
  }

  lemma {:induction false} EventReads(env: Env, good: Json -> bool, esc: string -> bool, st: State, d: Json, final: bool, ch: string)
    requires Lawful(env.p, good, esc) && Retelling(env, good) && good(d)
    requires Settles(env, esc, Held(st.pending, ch), OwnEvents(env, d, final, ch), ch)
    ensures Reads(env, esc, st, [Passed(EventPass(env, st, d, final).1)], OwnEvents(env, d, final, ch), ch)
  {
    var d' := EventPass(env, st, d, final).1;
    var slots, last := env.p.slots(d), LastOf(env, d, final);
    var out, again := env.p.slots(d'), env.p.slots(env.tree(d'));
    PassingAll(env, good, esc, d);
    SlotPassReads(env, good, esc, d, slots, st.pending, last, ch);
    OneFrame(env, Passed(d'), ch);
    if Lists(slots, ch) {
      OneOutput(env, Held(st.pending, ch), PassEvent(slots, ch, last), RestorerFor(env, esc, ch));
      RetoldText(env, out, again, ch);
    } else {
      SameLists(slots, out, ch);
      SameLists(out, again, ch);
      UnlistedText(again, ch);
    }
  }

  lemma {:induction false} OutputConcat(env: Env, pend: string, a: seq<Channel.Event>, b: seq<Channel.Event>, f: string -> string)
    ensures var m := env.m;
            var mid := Channel.PendingAfter(pend, a, m);
            && Channel.Output(pend, a + b, m, f) == Channel.Output(pend, a, m, f) + Channel.Output(mid, b, m, f)
            && Channel.PendingAfter(pend, a + b, m) == Channel.PendingAfter(mid, b, m)
    decreases |a|
  {
    if a == [] { assert a + b == b; }
    else {
      assert (a + b)[0] == a[0] && (a + b)[1..] == a[1..] + b;
      OutputConcat(env, Channel.Pending(pend, a[0], env.m), a[1..], b, f);
    }
  }

  lemma {:induction false} HoldsTwice(env: Env, st: State, mid: State, st': State, a: seq<Channel.Event>, b: seq<Channel.Event>, ch: string)
    requires Holds(env, st, mid, a, ch) && Holds(env, mid, st', b, ch)
    ensures Holds(env, st, st', a + b, ch)
  {
    OutputConcat(env, Held(st.pending, ch), a, b, s => s);
  }

  lemma {:induction false} ReadsTwice(env: Env, esc: string -> bool, st: State, mid: State, x: seq<Frame>, y: seq<Frame>,
                                      a: seq<Channel.Event>, b: seq<Channel.Event>, ch: string)
    requires Reads(env, esc, st, x, a, ch) && Reads(env, esc, mid, y, b, ch) && Holds(env, st, mid, a, ch)
    ensures Reads(env, esc, st, x + y, a + b, ch)
  {
    ReadConcat(env, x, y, ch);
    OutputConcat(env, Held(st.pending, ch), a, b, RestorerFor(env, esc, ch));
  }

  /** The flush an event sets off, if it ends the channel. */
  function FlushEvents(env: Env, d: Json, final: bool, ch: string): seq<Channel.Event> {
    if !final && Closes(env.p, d, ch) then [Channel.Flush] else []
  }

  lemma {:induction false} MidFollows(env: Env, good: Json -> bool, esc: string -> bool, st: State, d: Json, final: bool, mid: State,
                                      fl: seq<Frame>, st': State, frames: seq<Frame>, ch: string)
    requires Lawful(env.p, good, esc) && Inv(env, good, st) && EventVia(env, st, d, final, mid, fl, st', frames)
    ensures Inv(env, good, mid)
    ensures Reads(env, esc, st, fl, FlushEvents(env, d, final, ch), ch) && Holds(env, st, mid, FlushEvents(env, d, final, ch), ch)
  {
    if !final { FlushFollows(env, good, esc, st, ClosesIn(env, d), mid, fl, ch); }
  }

  /** One payload leaves on each channel what the channel's own events leave, and a state in order. */
  lemma {:induction false} StepHolds(env: Env, good: Json -> bool, esc: string -> bool, st: State, input: Input,
                                     st': State, frames: seq<Frame>, ch: string)
    requires Lawful(env.p, good, esc) && Inv(env, good, st) && Step(env, st, input, st', frames)
    requires input.Event? ==> good(input.d)
    ensures Inv(env, good, st') && Holds(env, st, st', ChannelEvents(env, input, ch), ch)
  {
    if input.Done? {
      FlushFollows(env, good, esc, st, Everything(), st', frames, ch);
    } else {
      var d, final := input.d, input.final;
      var mid, fl :| EventVia(env, st, d, final, mid, fl, st', frames);
      MidFollows(env, good, esc, st, d, final, mid, fl, st', frames, ch);
      EventHolds(env, good, esc, mid, d, final, ch);
      HoldsTwice(env, st, mid, st', FlushEvents(env, d, final, ch), OwnEvents(env, d, final, ch), ch);
    }
  }

  /** One payload is, on each channel, that channel's own events. */
  lemma {:induction false} StepFollows(env: Env, good: Json -> bool, esc: string -> bool, st: State, input: Input,
                                       st': State, frames: seq<Frame>, ch: string)
    requires Lawful(env.p, good, esc) && Retelling(env, good) && Inv(env, good, st) && Step(env, st, input, st', frames)
    requires input.Event? ==> good(input.d)
    requires Settles(env, esc, Held(st.pending, ch), ChannelEvents(env, input, ch), ch)
    ensures Reads(env, esc, st, frames, ChannelEvents(env, input, ch), ch)
  {
    if input.Done? {
      FlushFollows(env, good, esc, st, Everything(), st', frames, ch);
    } else {
      var d, final := input.d, input.final;
      var mid, fl :| EventVia(env, st, d, final, mid, fl, st', frames);
      var a, b := FlushEvents(env, d, final, ch), OwnEvents(env, d, final, ch);
      MidFollows(env, good, esc, st, d, final, mid, fl, st', frames, ch);
      SettlesConcat(env, esc, Held(st.pending, ch), a, b, ch);
      EventReads(env, good, esc, mid, d, final, ch);
      ReadsTwice(env, esc, st, mid, fl, [Passed(EventPass(env, mid, d, final).1)], a, b, ch);
    }
  }

  // ------------------------------------------------------------------- whole streams

  ghost predicate GoodInputs(good: Json -> bool, ins: seq<Input>) {
    forall i :: 0 <= i < |ins| && ins[i].Event? ==> good(ins[i].d)
  }

  /** After any run, a channel holds what its own events leave, whatever the others do. */
  lemma {:induction false} RunHolds(env: Env, good: Json -> bool, esc: string -> bool, sts: seq<State>, ins: seq<Input>,
                                    outs: seq<seq<Frame>>, ch: string)
    requires Lawful(env.p, good, esc) && GoodInputs(good, ins) && Run(env, sts, ins, outs) && Inv(env, good, sts[0])
    ensures Inv(env, good, sts[|ins|]) && Holds(env, sts[0], sts[|ins|], ChannelRun(env, ins, ch), ch)
    decreases |ins|
  {
    if ins != [] {
      assert Step(env, sts[0], ins[0], sts[1], outs[0]);
      StepHolds(env, good, esc, sts[0], ins[0], sts[1], outs[0], ch);
      RunTail(env, sts, ins, outs);
      RunHolds(env, good, esc, sts[1..], ins[1..], outs[1..], ch);
      HoldsTwice(env, sts[0], sts[1], sts[|ins|], ChannelEvents(env, ins[0], ch), ChannelRun(env, ins[1..], ch), ch);
    }
  }

  /** And what a client reads on it is what its own events let out. */
  lemma {:induction false} RunFollows(env: Env, good: Json -> bool, esc: string -> bool, sts: seq<State>, ins: seq<Input>,
                                      outs: seq<seq<Frame>>, ch: string)
    requires Lawful(env.p, good, esc) && Retelling(env, good) && GoodInputs(good, ins)
    requires Run(env, sts, ins, outs) && Inv(env, good, sts[0])
    requires Settles(env, esc, Held(sts[0].pending, ch), ChannelRun(env, ins, ch), ch)
    ensures ReadRun(env, outs, ch)
         == Channel.Output(Held(sts[0].pending, ch), ChannelRun(env, ins, ch), env.m, RestorerFor(env, esc, ch))
    decreases |ins|
  {
    if ins != [] {
      var now, later := ChannelEvents(env, ins[0], ch), ChannelRun(env, ins[1..], ch);
      assert Step(env, sts[0], ins[0], sts[1], outs[0]);
      SettlesConcat(env, esc, Held(sts[0].pending, ch), now, later, ch);
      StepHolds(env, good, esc, sts[0], ins[0], sts[1], outs[0], ch);
      StepFollows(env, good, esc, sts[0], ins[0], sts[1], outs[0], ch);
      RunTail(env, sts, ins, outs);
      RunFollows(env, good, esc, sts[1..], ins[1..], outs[1..], ch);
      OutputConcat(env, Held(sts[0].pending, ch), now, later, RestorerFor(env, esc, ch));
    }
  }

  lemma {:induction false} RunTail(env: Env, sts: seq<State>, ins: seq<Input>, outs: seq<seq<Frame>>)
    requires Run(env, sts, ins, outs) && ins != []
    ensures Run(env, sts[1..], ins[1..], outs[1..])
  {
    forall i | 0 <= i < |ins| - 1 ensures Step(env, sts[1..][i], ins[1..][i], sts[1..][i + 1], outs[1..][i]) {
      assert Step(env, sts[i + 1], ins[i + 1], sts[i + 2], outs[i + 1]);
    }
  }
}
