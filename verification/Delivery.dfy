/**
 What leaves the proxy, said of the JSON itself: each streamed text of each event reaches the
 client, and no original that the rules find leaves a request body.
 */
module Delivery {
  import opened Seqs
  import opened Members
  import opened Tree
  import Slots
  import SlotEvents
  import SlotTrees
  import Sse
  import SseStream
  import EndToEnd
  import M = Masking
  import Hiding
  import TreeBody
  import TreeMasked

  // ------------------------------------------------------------------ towards the client

  /** What the events say on a channel, found by place. */
  ghost function SpokenRun(num: Slots.Reading, ins: seq<Sse.Input>, ch: string): string {
    if ins == [] then ""
    else (if ins[0].Event? then Spoken(num, ins[0].d, ch) else "") + SpokenRun(num, ins[1..], ch)
  }

  ghost predicate GoodEvents(num: Slots.Reading, ins: seq<Sse.Input>) {
    forall i :: 0 <= i < |ins| && ins[i].Event? ==> SlotEvents.GoodEvent(num, ins[i].d)
  }

  lemma {:induction false} SaidIsSpoken(num: Slots.Reading, env: Sse.Env, jsonStr: string -> bool, ins: seq<Sse.Input>, ch: string)
    requires SlotTrees.ProxyEnv(env, num, jsonStr) && GoodEvents(num, ins)
    ensures SseStream.Said(env, ins, ch) == SpokenRun(num, ins, ch)
  {
    if ins != [] {
      if ins[0].Event? { SpokenIs(num, ins[0].d, ch); }
      SaidIsSpoken(num, env, jsonStr, ins[1..], ch);
    }
  }

  lemma {:induction false} SpokenSplit(num: Slots.Reading, ins: seq<Sse.Input>, i: nat, ch: string)
    requires i < |ins| && ins[i].Event?
    ensures SpokenRun(num, ins, ch) == SpokenRun(num, ins[..i], ch) + (Spoken(num, ins[i].d, ch) + SpokenRun(num, ins[i + 1..], ch))
  {
    if i > 0 {
      SpokenSplit(num, ins[1..], i - 1, ch);
      var said := if ins[0].Event? then Spoken(num, ins[0].d, ch) else "";
      assert ins[..i][1..] == ins[1..][..i - 1];
      Assoc(said, SpokenRun(num, ins[1..][..i - 1], ch), Spoken(num, ins[i].d, ch) + SpokenRun(num, ins[i + 1..], ch));
    }
  }

  /**
   Every text at every place of every event arrives on the channel of its place, whole, behind
   what was said there before and in front of what was said there afterwards.
   */
  lemma {:induction false} MembersDelivered(num: Slots.Reading, env: Sse.Env, jsonStr: string -> bool, sts: seq<Sse.State>,
                                            ins: seq<Sse.Input>, outs: seq<seq<Sse.Frame>>, i: nat, pl: Place, s: Sse.Slot)
    requires SlotTrees.ProxyEnv(env, num, jsonStr) && forall t, e :: env.f(t, e) == t
    requires forall k :: 0 <= k < |ins| && ins[k].Event? ==> SlotEvents.GoodEvent(num, ins[k].d) && WellFormed(ins[k].d)
    requires SseStream.Whole(env, sts, ins, outs)
    requires i < |ins| && ins[i].Event? && Carries(num, ins[i].d, pl, s)
    ensures Sse.ReadRun(env, outs, s.channel)
            == SpokenRun(num, ins[..i], s.channel) + (s.text + SpokenRun(num, ins[i + 1..], s.channel))
  {
    EndToEnd.ConservationThroughProxy(num, env, jsonStr, sts, ins, outs, s.channel);
    SaidIsSpoken(num, env, jsonStr, ins, s.channel);
    SpokenSplit(num, ins, i, s.channel);
    SpokenIs(num, ins[i].d, s.channel);
  }

  // ------------------------------------------------------------------ towards the upstream

  /** If masking hides the original from the text, it does not occur in what is sent. */
  ghost function Conceals(o: string, stages: seq<M.Stage>, names: M.Naming): TreeMasked.Standard {
    (s, out) => Hiding.Hidden(o, s, stages, names) ==> !Hiding.Occurs(o, out)
  }

  /** No original that the stages find is left in any string, number or key of a body that no table exempts. */
  lemma {:induction false} BodyHides(j: Json, p: Policy, stages: seq<M.Stage>, names: M.Naming, o: string)
    requires p.mask == EndToEnd.MaskWith(stages, names) && TreeBody.MaskBody(j, p).Ok?
    ensures TreeMasked.BodyDone(j, TreeBody.MaskBody(j, p).value, p, Conceals(o, stages, names))
  {
    forall s ensures Conceals(o, stages, names)(s, p.mask(s)) {
      if Hiding.Hidden(o, s, stages, names) { Hiding.MaskHides(s, stages, names, o); }
    }
    TreeMasked.MaskBodyDone(j, p, Conceals(o, stages, names));
  }
}
