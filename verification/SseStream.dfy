/**
 The stream side of a session, as the object it is: the two maps `pending` and `flush_tmpl`
 that restore_channel and flush_pending_matching of src/stream/sse.rs update, and the theorems
 about whole streams.
 */
module SseStream {
  import opened Wrappers
  import opened Tree
  import opened Sse
  import Placeholders
  import Restore
  import Channel
  import Seqs

  class StreamSession {
    var pending: map<string, string>
    var flushTmpl: map<string, Json>

    function Now(): State reads this { State(pending, flushTmpl) }

    constructor ()
      ensures Now() == START
    {
      pending, flushTmpl := map[], map[];
    }

    /** restore_channel */
    method RestoreChannel(env: Env, text: string, channel: string, escape: bool, last: bool) returns (out: string)
      modifies this`pending
      ensures var pend, e := Held(old(pending), channel), Channel.Delta(text, last);
              && out == Restored(env, Channel.Confirmed(pend, e, env.m), escape)
              && pending == SetHeld(old(pending), channel, Channel.Pending(pend, e, env.m))
    {
      var buf := Held(pending, channel) + text;
      var confirmed := buf;
      if last {
        pending := pending - {channel};
      } else {
        var h := Channel.Hold(buf, env.m);
        confirmed := buf[..h];
        if h < |buf| { pending := pending[channel := buf[h..]]; } else { pending := pending - {channel}; }
        assert buf[h..] == "" <==> h == |buf|;
      }
      assert confirmed == Channel.Confirmed(Held(old(pending), channel), Channel.Delta(text, last), env.m);
      if confirmed == "" { return ""; }
      out := env.f(confirmed, escape);
    }

    /** One channel of a flush: it is forgotten, and what was held is sent. */
    method FlushChannel(env: Env, was: State, ch: string) returns (frames: seq<Frame>)
      modifies this
      ensures Now() == Without(old(Now()), {ch}) && frames == FlushFrame(env, was, ch)
    {
      pending := pending - {ch};
      flushTmpl := flushTmpl - {ch};
      frames := FlushFrame(env, was, ch);
    }

    /** flush_pending_matching */
    method FlushPendingMatching(env: Env, m: string -> bool) returns (frames: seq<Frame>)
      modifies this
      ensures Flushed(env, old(Now()), m, Now(), frames)
    {
      ghost var st, order: seq<string> := Now(), [];
      var was := Now();
      var todo := Matching(was, m);
      frames := [];
      NothingFlushed(env, st, m);
      while todo != {}
        invariant Halfway(env, st, Matching(st, m), todo, order, Now(), frames)
        decreases |todo|
      {
        var ch :| ch in todo;
        FlushedOneMore(env, st, Matching(st, m), todo, order, Now(), frames, ch);
        var frame := FlushChannel(env, was, ch);
        frames, todo, order := frames + frame, todo - {ch}, order + [ch];
      }
      assert Matching(st, m) - {} == Matching(st, m);
    }

    /** The slots of an event, one by one. */
    method RestoreSlots(env: Env, d: Json, slots: seq<Slot>, last: string -> bool) returns (restored: Json)
      modifies this`pending
      ensures (restored, pending) == SlotPass(env, d, slots, old(pending), last)
    {
      restored := d;
      assert slots[0..] == slots;
      for i := 0 to |slots|
        invariant SlotPass(env, d, slots, old(pending), last) == SlotPass(env, restored, slots[i..], pending, last)
      {
        assert slots[i..][0] == slots[i] && slots[i..][1..] == slots[i + 1..];
        var s := slots[i];
        var r := RestoreChannel(env, s.text, s.channel, s.escape, last(s.channel));
        restored := env.p.set_(restored, s.channel, r);
      }
    }

    /** The event is remembered for each of its channels that holds something. */
    method KeepTemplates(slots: seq<Slot>, restored: Json)
      modifies this`flushTmpl
      ensures flushTmpl == StoreTemplates(old(flushTmpl), slots, pending, restored)
    {
      assert slots[0..] == slots;
      for i := 0 to |slots|
        invariant StoreTemplates(old(flushTmpl), slots, pending, restored) == StoreTemplates(flushTmpl, slots[i..], pending, restored)
      {
        assert slots[i..][0] == slots[i] && slots[i..][1..] == slots[i + 1..];
        if slots[i].channel in pending { flushTmpl := flushTmpl[slots[i].channel := restored]; }
      }
    }

    /** restore_sse_event on one payload that is an object. */
    method HandleEvent(env: Env, d: Json, final: bool) returns (frames: seq<Frame>)
      modifies this
      ensures Step(env, old(Now()), Event(d, final), Now(), frames)
    {
      frames := [];
      if !final {
        frames := FlushPendingMatching(env, ClosesIn(env, d));
      }
      ghost var mid, fl := Now(), frames;
      var slots := env.p.slots(d);
      var restored := RestoreSlots(env, d, slots, LastOf(env, d, final));
      KeepTemplates(slots, restored);
      assert EventPass(env, mid, d, final) == (Now(), restored);
      assert EventVia(env, old(Now()), d, final, mid, fl, Now(), fl + [Passed(restored)]);
      frames := frames + [Passed(restored)];
    }

    /** flush_pending, at `[DONE]` and at the end of the stream. */
    method Finish(env: Env) returns (frames: seq<Frame>)
      modifies this
      ensures Step(env, old(Now()), Done, Now(), frames) && Now().pending == map[]
    {
      ghost var st := Now();
      frames := FlushPendingMatching(env, Everything());
      assert Matching(st, Everything()) == st.pending.Keys;
    }
  }

  /** A flush with the channels of `todo` still to do. */
  ghost predicate Halfway(env: Env, st: State, chs: set<string>, todo: set<string>, order: seq<string>, now: State, frames: seq<Frame>) {
    todo <= chs && OrderOf(order, chs - todo) && now == Without(st, chs - todo) && frames == FlushFrames(env, st, order)
  }

  lemma {:induction false} NothingFlushed(env: Env, st: State, m: string -> bool)
    ensures Halfway(env, st, Matching(st, m), Matching(st, m), [], st, [])
  {
    WithoutMore(st, {}, "");
    assert Matching(st, m) - Matching(st, m) == {};
  }

  lemma {:induction false} FlushedOneMore(env: Env, st: State, chs: set<string>, todo: set<string>, order: seq<string>, now: State,
                                          frames: seq<Frame>, ch: string)
    requires Halfway(env, st, chs, todo, order, now, frames) && ch in todo
    ensures Halfway(env, st, chs, todo - {ch}, order + [ch], Without(now, {ch}), frames + FlushFrame(env, st, ch))
  {
    assert chs - (todo - {ch}) == (chs - todo) + {ch};
    OrderMore(order, chs - todo, ch);
    FlushMore(env, st, order, ch);
    WithoutMore(st, chs - todo, ch);
  }

  lemma {:induction false} WithoutMore(st: State, gone: set<string>, ch: string)
    ensures Without(Without(st, gone), {ch}) == Without(st, gone + {ch})
    ensures Without(st, {}) == st
  {
    assert st.pending - (gone + {ch}) == st.pending - gone - {ch};
    assert st.tmpl - (gone + {ch}) == st.tmpl - gone - {ch};
  }

  lemma {:induction false} OrderMore(order: seq<string>, chs: set<string>, ch: string)
    requires OrderOf(order, chs) && ch !in chs
    ensures OrderOf(order + [ch], chs + {ch})
  {
  }

  lemma {:induction false} FlushMore(env: Env, st: State, order: seq<string>, ch: string)
    ensures FlushFrames(env, st, order + [ch]) == FlushFrames(env, st, order) + FlushFrame(env, st, ch)
  {
    if order == [] {
      assert [ch][1..] == [] && order + [ch] == [ch];
    } else {
      assert (order + [ch])[1..] == order[1..] + [ch];
      FlushMore(env, st, order[1..], ch);
    }
  }

  // ----------------------------------------------------------------------- whole streams

  /** What all inputs say on a channel, in order. */
  function Said(env: Env, ins: seq<Input>, ch: string): string {
    if ins == [] then ""
    else (if ins[0].Event? then TextOf(env.p.slots(ins[0].d), ch) else "") + Said(env, ins[1..], ch)
  }

  lemma {:induction false} InputConcat(a: seq<Channel.Event>, b: seq<Channel.Event>)
    ensures Channel.Input(a + b) == Channel.Input(a) + Channel.Input(b)
  {
    if a == [] { assert a + b == b; }
    else { assert (a + b)[0] == a[0] && (a + b)[1..] == a[1..] + b; InputConcat(a[1..], b); }
  }

  lemma {:induction false} OneInput(e: Channel.Event)
    ensures Channel.Input([e]) == Channel.Text(e)
  {
    var es := [e];
    assert es[1..] == [];
    assert Channel.Input(es) == Channel.Text(e) + "";
  }

  lemma {:induction false} SaidIsInput(env: Env, ins: seq<Input>, ch: string)
    ensures Channel.Input(ChannelRun(env, ins, ch)) == Said(env, ins, ch)
  {
    if ins != [] {
      SaidIsInput(env, ins[1..], ch);
      InputConcat(ChannelEvents(env, ins[0], ch), ChannelRun(env, ins[1..], ch));
      EventSays(env, ins[0], ch);
    }
  }

  lemma {:induction false} EventSays(env: Env, input: Input, ch: string)
    ensures Channel.Input(ChannelEvents(env, input, ch)) == if input.Event? then TextOf(env.p.slots(input.d), ch) else ""
  {
    OneInput(Channel.Flush);
    if input.Event? {
      var slots := env.p.slots(input.d);
      var a := if !input.final && Closes(env.p, input.d, ch) then [Channel.Flush] else [];
      var e := Channel.Delta(TextOf(slots, ch), input.final || Closes(env.p, input.d, ch));
      var b := if Lists(slots, ch) then [e] else [];
      OneInput(e);
      InputConcat(a, b);
      if !Lists(slots, ch) { UnlistedText(slots, ch); }
    }
  }

  /** Nothing is lost and nothing is added when nothing is replaced. */
  lemma {:induction false} OutputKeeps(pend: string, es: seq<Channel.Event>, m: Channel.Pattern, f: string -> string)
    requires forall s :: f(s) == s
    ensures Channel.Output(pend, es, m, f) + Channel.PendingAfter(pend, es, m) == pend + Channel.Input(es)
    decreases |es|
  {
    if es != [] {
      var q := Channel.Pending(pend, es[0], m);
      OutputKeeps(q, es[1..], m, f);
      var c, a, b := Channel.Confirmed(pend, es[0], m), Channel.Output(q, es[1..], m, f), Channel.PendingAfter(q, es[1..], m);
      assert c + q == pend + Channel.Text(es[0]);
      Seqs.Assoc(c, a, b);
      Seqs.Assoc(c, q, Channel.Input(es[1..]));
      Seqs.Assoc(pend, Channel.Text(es[0]), Channel.Input(es[1..]));
    }
  }

  lemma {:induction false} StartInv(env: Env, good: Json -> bool)
    ensures Inv(env, good, START)
  {
    forall ch ensures Ready(env, good, START, ch) {}
  }

  /** A stream from its start to its end. */
  ghost predicate Whole(env: Env, sts: seq<State>, ins: seq<Input>, outs: seq<seq<Frame>>) {
    Run(env, sts, ins, outs) && sts[0] == START && ins != [] && ins[|ins| - 1].Done?
  }

  lemma {:induction false} NothingLeft(env: Env, sts: seq<State>, ins: seq<Input>, outs: seq<seq<Frame>>, ch: string)
    requires Whole(env, sts, ins, outs)
    ensures Held(sts[|ins|].pending, ch) == ""
  {
    var n := |ins| - 1;
    assert Step(env, sts[n], ins[n], sts[n + 1], outs[n]);
  }

  lemma {:induction false} NothingResolvesSettles(env: Env, esc: string -> bool, pend: string, es: seq<Channel.Event>, ch: string)
    requires forall s, e :: env.f(s, e) == s
    ensures Settles(env, esc, pend, es, ch)
    decreases |es|
  {
    if es != [] { NothingResolvesSettles(env, esc, Channel.Pending(pend, es[0], env.m), es[1..], ch); }
  }

  /** A whole stream is, on each channel, the run of that channel, and leaves nothing held. */
  lemma {:induction false} WholeReads(env: Env, good: Json -> bool, esc: string -> bool, sts: seq<State>, ins: seq<Input>,
                                      outs: seq<seq<Frame>>, ch: string)
    requires Lawful(env.p, good, esc) && Retelling(env, good) && GoodInputs(good, ins) && Whole(env, sts, ins, outs)
    requires Settles(env, esc, "", ChannelRun(env, ins, ch), ch)
    ensures ReadRun(env, outs, ch) == Channel.Output("", ChannelRun(env, ins, ch), env.m, RestorerFor(env, esc, ch))
    ensures Channel.PendingAfter("", ChannelRun(env, ins, ch), env.m) == ""
  {
    StartInv(env, good);
    RunHolds(env, good, esc, sts, ins, outs, ch);
    RunFollows(env, good, esc, sts, ins, outs, ch);
    NothingLeft(env, sts, ins, outs, ch);
  }

  /**
   Conservation: when nothing resolves, a client reads on every channel exactly what the
   upstream said on it, in order, flush frames included, however the channels interleave.
   */
  lemma {:induction false} Conservation(env: Env, good: Json -> bool, esc: string -> bool, sts: seq<State>, ins: seq<Input>,
                                        outs: seq<seq<Frame>>, ch: string)
    requires Lawful(env.p, good, esc) && Retelling(env, good) && GoodInputs(good, ins) && Whole(env, sts, ins, outs)
    requires forall s, e :: env.f(s, e) == s
    ensures ReadRun(env, outs, ch) == Said(env, ins, ch)
  {
    NothingResolvesSettles(env, esc, "", ChannelRun(env, ins, ch), ch);
    WholeReads(env, good, esc, sts, ins, outs, ch);
    OutputKeeps("", ChannelRun(env, ins, ch), env.m, RestorerFor(env, esc, ch));
    SaidIsInput(env, ins, ch);
    var out := ReadRun(env, outs, ch);
    assert out + "" == out && "" + Said(env, ins, ch) == Said(env, ins, ch);
  }

  /** In every reachable state: what is held is at most 48 bytes, and a template that carries its channel is stored. */
  lemma {:induction false} ReachableHeld(env: Env, good: Json -> bool, esc: string -> bool, sts: seq<State>, ins: seq<Input>,
                                         outs: seq<seq<Frame>>, ch: string)
    requires Lawful(env.p, good, esc) && GoodInputs(good, ins) && Run(env, sts, ins, outs) && sts[0] == START
    ensures ch in sts[|ins|].pending ==>
              && 0 < Placeholders.Utf8Size(sts[|ins|].pending[ch]) <= Channel.PARTIAL_MAX
              && ch in sts[|ins|].tmpl && Lists(env.p.slots(sts[|ins|].tmpl[ch]), ch)
    ensures Held(sts[|ins|].pending, ch) == Channel.PendingAfter("", ChannelRun(env, ins, ch), env.m)
  {
    StartInv(env, good);
    RunHolds(env, good, esc, sts, ins, outs, ch);
    assert Ready(env, good, sts[|ins|], ch);
  }

  lemma {:induction false} SameOutput(pend: string, es: seq<Channel.Event>, m: Channel.Pattern, f: string -> string, g: string -> string)
    requires forall s :: f(s) == g(s)
    ensures Channel.Output(pend, es, m, f) == Channel.Output(pend, es, m, g)
    decreases |es|
  {
    if es != [] { SameOutput(Channel.Pending(pend, es[0], m), es[1..], m, f, g); }
  }

  /** The restorer of the environment is the three passes against one session. */
  ghost predicate RestoresBy(env: Env, r: Restore.Resolver) {
    forall s, e :: env.f(s, e) == Restore.RestoreFinal(s, Restore.Resolver(r.lookup, r.rescue, e))
  }

  lemma {:induction false} PiecesStill(env: Env, ps: seq<Restore.Piece>, r: Restore.Resolver)
    requires RestoresBy(env, r) && Restore.Restorable(ps, r)
    ensures Still(env, Restored(env, Restore.Render(ps), r.escape))
  {
    assert Restore.Resolver(r.lookup, r.rescue, r.escape) == r;
    Restore.RestoredIsStill(ps, r, false);
    Restore.RestoredIsStill(ps, r, true);
    assert Restore.RestoreFinal("", Restore.Resolver(r.lookup, r.rescue, false)) == "";
    assert Restore.RestoreFinal("", Restore.Resolver(r.lookup, r.rescue, true)) == "";
  }

  /** Whole pieces are let out, and what they are restored to stays as it is. */
  lemma {:induction false} PiecesSettle(env: Env, esc: string -> bool, ps: seq<Restore.Piece>, pend: string, es: seq<Channel.Event>,
                                        ch: string, r: Restore.Resolver)
    requires Channel.Lawful(env.m) && RestoresBy(env, r) && r.escape == esc(ch) && Restore.Restorable(ps, r)
    requires |pend| <= |Restore.Render(ps)| && pend == Restore.Render(ps)[..|pend|] && Channel.Cuts(ps, |pend|, es)
    ensures Settles(env, esc, pend, es, ch)
    decreases |es|
  {
    if es != [] {
      var j := Channel.OneEvent(ps, pend, es, env.m, r);
      PiecesStill(env, ps[..j], r);
      PiecesSettle(env, esc, ps[j..], Channel.Pending(pend, es[0], env.m), es[1..], ch, r);
    }
  }

  /** The run of one channel that ends with nothing held. */
  lemma {:induction false} ChannelRestores(env: Env, esc: string -> bool, ps: seq<Restore.Piece>, es: seq<Channel.Event>, ch: string,
                                           r: Restore.Resolver)
    requires env.m == Channel.Partial && RestoresBy(env, r) && r.escape == esc(ch)
    requires Restore.Restorable(ps, r) && Channel.Cuts(ps, 0, es) && Channel.PendingAfter("", es, env.m) == ""
    ensures Channel.Output("", es, env.m, RestorerFor(env, esc, ch)) == Restore.RestoreFinal(Restore.Render(ps), r)
    ensures Channel.Input(es) == Restore.Render(ps)
  {
    var f, g := RestorerFor(env, esc, ch), s => Restore.RestoreFinal(s, r);
    assert Restore.Resolver(r.lookup, r.rescue, r.escape) == r;
    assert Restore.RestoreFinal("", r) == "";
    assert forall s :: f(s) == g(s);
    SameOutput("", es, env.m, f, g);
    Channel.CutInvariance(ps, es, r);
    var out := Channel.Output("", es, env.m, f);
    assert out + "" == out;
    CutsInput(ps, 0, es);
    assert Restore.Render(ps)[0..] == Restore.Render(ps);
  }

  /**
   Cut invariance on a real stream: whatever other channels do in between, what a client
   reads on a channel is the restored whole of what was said on it, if flushes and last
   deltas fall between pieces. That the pass over the whole event leaves the restored
   pieces alone is part of the theorem.
   */
  lemma {:induction false} StreamCutInvariance(env: Env, good: Json -> bool, esc: string -> bool, sts: seq<State>, ins: seq<Input>,
                                               outs: seq<seq<Frame>>, ch: string, ps: seq<Restore.Piece>, r: Restore.Resolver)
    requires Lawful(env.p, good, esc) && Retelling(env, good) && GoodInputs(good, ins)
    requires Whole(env, sts, ins, outs) && env.m == Channel.Partial
    requires r.escape == esc(ch) && RestoresBy(env, r)
    requires Restore.Restorable(ps, r) && Channel.Cuts(ps, 0, ChannelRun(env, ins, ch))
    ensures ReadRun(env, outs, ch) == Restore.RestoreFinal(Said(env, ins, ch), r)
    ensures Said(env, ins, ch) == Restore.Render(ps)
  {
    var es := ChannelRun(env, ins, ch);
    Channel.PartialLawful();
    PiecesSettle(env, esc, ps, "", es, ch, r);
    WholeReads(env, good, esc, sts, ins, outs, ch);
    ChannelRestores(env, esc, ps, es, ch, r);
    SaidIsInput(env, ins, ch);
  }

  lemma {:induction false} CutsInput(ps: seq<Restore.Piece>, n: nat, es: seq<Channel.Event>)
    requires n <= |Restore.Render(ps)| && Channel.Cuts(ps, n, es)
    ensures Channel.Input(es) == Restore.Render(ps)[n..]
    decreases |es|
  {
    if es != [] {
      var s := Restore.Render(ps);
      var m := n + |Channel.Text(es[0])|;
      CutsInput(ps, m, es[1..]);
      Seqs.SliceRest(s, n, m);
    }
  }
}
