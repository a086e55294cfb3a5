/**
 The pieces together: text and trees masked in a session come back through the store,
 through the stream and through a JSON string, whatever the store did in between.
 */
module EndToEnd {
  import opened Wrappers
  import opened Seqs
  import opened Placeholders
  import opened Codec
  import opened Restore
  import M = Masking
  import RT = RoundTrip
  import Channel
  import Slots
  import SlotEvents
  import SlotLaws
  import Sse
  import SseStream
  import SlotTrees
  import U = Utf8Stream
  import S = Store
  import opened Sessions
  import Runs = StoreRuns
  import Tree

  // ------------------------------------------------------------- the store resolves

  function LookIn(w: World, sid: string, now: int): string -> Option<string> { token => Lookup(w, token, sid, now) }

  function RescueIn(w: World): string -> Option<string> { text => S.RealToken(w.t, text) }

  /** The resolver the restore passes use in a session. */
  function StoreResolver(w: World, sid: string, now: int, escape: bool): Resolver {
    Resolver(LookIn(w, sid, now), RescueIn(w), escape)
  }

  /** The session has asked for the token in this run, or had it from the start; it has been open since. */
  ghost predicate Given(ws: seq<World>, ops: seq<Runs.Op>, sid: string, orig: string, token: string)
    requires Runs.Run(ws, ops)
  {
    || (Runs.Holds(ws[0], sid, orig, token) && forall j :: 0 <= j < |ops| ==> Runs.Leaves(ops[j], sid, token))
    || (exists i :: 0 <= i < |ops| && Runs.AskedAt(ws, ops, i, sid, orig, token))
  }

  /** Every original that masking hits was given its placeholder by the session. */
  ghost predicate Registered(ws: seq<World>, ops: seq<Runs.Op>, sid: string, hits: seq<string>, names: M.Naming, owner: Runs.Owner)
    requires Runs.Run(ws, ops)
  {
    forall key :: key in hits ==>
      && !S.HasPlaceholder(key) && Given(ws, ops, sid, key, M.NameToken(names, key))
      && (Runs.Holds(ws[0], sid, key, M.NameToken(names, key)) ==> owner(M.NameToken(names, key)) == key)
  }

  lemma {:induction false} HeldIsFound(w: World, sid: string, orig: string, token: string, now: int)
    requires Runs.Holds(w, sid, orig, token) && !S.HasPlaceholder(orig)
    ensures Lookup(w, token, sid, now) == Some(orig)
  {
    assert Direct(w, token, sid, now) == Some(orig);
  }

  lemma {:induction false} GivenHolds(ws: seq<World>, ops: seq<Runs.Op>, owner: Runs.Owner, sid: string, orig: string, token: string)
    requires Runs.Run(ws, ops) && Runs.SafeWorld(ws[0], owner) && !S.HasPlaceholder(orig) && Given(ws, ops, sid, orig, token)
    requires Runs.Holds(ws[0], sid, orig, token) ==> owner(token) == orig
    requires forall j :: 0 <= j < |ops| ==> Runs.Conforms(ws[j], ops[j], owner)
    ensures Runs.Holds(ws[|ops|], sid, orig, token)
  {
    if i :| 0 <= i < |ops| && Runs.AskedAt(ws, ops, i, sid, orig, token) {
      Runs.AskedHolds(ws, ops, owner, i, sid, orig, token);
    } else {
      Runs.RunHolds(ws, ops, owner, sid, orig, token);
    }
  }

  lemma {:induction false} RegisteredResolves(ws: seq<World>, ops: seq<Runs.Op>, owner: Runs.Owner, sid: string, now: int,
                                              m: M.Masked, names: M.Naming)
    requires Runs.Run(ws, ops) && Runs.SafeWorld(ws[0], owner) && Registered(ws, ops, sid, m.hits, names, owner)
    requires forall j :: 0 <= j < |ops| ==> Runs.Conforms(ws[j], ops[j], owner)
    ensures RT.SessionResolves(m, names, StoreResolver(ws[|ops|], sid, now, false))
  {
    var w := ws[|ops|];
    forall key | key in m.hits ensures Lookup(w, M.NameToken(names, key), sid, now) == Some(key) {
      GivenHolds(ws, ops, owner, sid, key, M.NameToken(names, key));
      HeldIsFound(w, sid, key, M.NameToken(names, key), now);
    }
  }

  /** Nothing in the text would be taken for a live placeholder. */
  ghost predicate Inert(text: string, r: Resolver) {
    && RT.NoBracedHit(text, r)
    && Scan(text, EscapedEditor(r)) == text && Scan(text, LooseEditor(r)) == text
  }

  /** A text in which no shape of a placeholder is live is inert. */
  lemma {:induction false} NothingLiveInert(text: string, r: Resolver)
    requires NothingLive(text, r)
    ensures Inert(text, r)
  {
    NothingLiveIdle(text, r);
    forall j | 0 <= j <= |text| && Braced(text[j..]).Some?
      ensures r.Found(Canonicalize(Braced(text[j..]).value.tag, Braced(text[j..]).value.suffix)).None?
    {
      assert NothingAt(text[j..], r);
    }
  }

  /**
   Masked text whose originals the session asked for, in a run from any safe store such as
   the empty one, is restored at its end to the original text, whatever the store issued,
   expired, pruned, rehydrated or reseeded before and in between.
   */
  lemma {:induction false} StoredRoundTrip(text: string, stages: seq<M.Stage>, names: M.Naming,
                                           ws: seq<World>, ops: seq<Runs.Op>, owner: Runs.Owner, sid: string, now: int)
    requires RT.Sound(text, stages, names) && RT.SafeNames(names) && M.Mask(text, stages, names).exact
    requires Runs.Run(ws, ops) && (ws[0] == Runs.EMPTY || Runs.SafeWorld(ws[0], owner))
    requires forall i :: 0 <= i < |ops| ==> Runs.Conforms(ws[i], ops[i], owner)
    requires Registered(ws, ops, sid, M.Mask(text, stages, names).hits, names, owner)
    requires Inert(text, StoreResolver(ws[|ops|], sid, now, false))
    ensures RestoreFinal(M.Mask(text, stages, names).out, StoreResolver(ws[|ops|], sid, now, false)) == text
  {
    var m, r := M.Mask(text, stages, names), StoreResolver(ws[|ops|], sid, now, false);
    Runs.EmptySafe(owner);
    RegisteredResolves(ws, ops, owner, sid, now, m, names);
    RT.MaskRoundTrip(text, stages, names, r);
  }

  // ------------------------------------------------------------------ through a stream

  function PieceOf(c: RT.Cell): Piece { if c.Char? then Plain(c.c) else Tok(c.tag, c.suffix) }

  function PiecesOf(cs: seq<RT.Cell>): (ps: seq<Piece>)
    ensures |ps| == |cs| && forall i :: 0 <= i < |cs| ==> ps[i] == PieceOf(cs[i])
  {
    seq(|cs|, i requires 0 <= i < |cs| => PieceOf(cs[i]))
  }

  /** A view whose characters are no braces and whose placeholders the session resolves. */
  ghost predicate Streamable(cs: seq<RT.Cell>, r: Resolver) {
    RT.ValidCells(cs) && RT.AllExact(cs) && RT.Resolves(cs, r) && BraceFree(RT.Source(cs))
  }

  lemma {:induction false} StreamableTail(cs: seq<RT.Cell>, r: Resolver)
    requires Streamable(cs, r) && cs != []
    ensures Streamable(cs[1..], r) && BraceFree(RT.CellSource(cs[0]))
  {
    var a, b := RT.CellSource(cs[0]), RT.Source(cs[1..]);
    assert RT.Source(cs) == a + b;
    assert forall c :: c in a || c in b ==> c in a + b;
    assert forall k :: 0 <= k < |cs[1..]| ==> cs[1..][k] == cs[k + 1];
  }

  lemma {:induction false} PlainsConcat(a: string, b: string)
    ensures Plains(a + b) == Plains(a) + Plains(b)
  {
  }

  lemma {:induction false} PiecesView(cs: seq<RT.Cell>, r: Resolver)
    requires Streamable(cs, r)
    ensures var ps := PiecesOf(cs);
            && Valid(ps) && CleanOriginals(ps, r)
            && Render(ps) == RT.Text(cs) && Expand(ps, r) == RT.Source(cs)
            && Residue(ps, r) == Plains(RT.Source(cs))
  {
    if cs != [] {
      StreamableTail(cs, r);
      PiecesView(cs[1..], r);
      PiecesCons(cs, r);
      PlainsConcat(RT.CellSource(cs[0]), RT.Source(cs[1..]));
    }
  }

  lemma {:induction false} PiecesCons(cs: seq<RT.Cell>, r: Resolver)
    requires cs != [] && Streamable(cs, r) && BraceFree(RT.CellSource(cs[0]))
    requires Valid(PiecesOf(cs[1..])) && CleanOriginals(PiecesOf(cs[1..]), r)
    ensures var ps := PiecesOf(cs);
            && ps[1..] == PiecesOf(cs[1..]) && Valid(ps) && CleanOriginals(ps, r)
            && RenderOne(ps[0]) == RT.CellText(cs[0]) && ExpandOne(ps[0], r) == RT.CellSource(cs[0])
            && Residue(ps, r) == Plains(RT.CellSource(cs[0])) + Residue(ps[1..], r)
  {
    var ps := PiecesOf(cs);
    assert ps[1..] == PiecesOf(cs[1..]);
    assert ps == [ps[0]] + ps[1..];
    if cs[0].Char? { assert cs[0].c in RT.CellSource(cs[0]); }
    assert ValidPiece(ps[0]);
  }

  lemma {:induction false} FirstDelta(s: string, n: nat, a: string, b: string)
    requires n <= |s| && a + b == s[n..]
    ensures n + |a| <= |s| && s[n..n + |a|] == a && s[n + |a|..] == b
  {
    Seam(a, b);
    TakeOfDrop(s, n, |a|);
    DropDrop(s, n, |a|);
  }

  /** Nothing more is said once the channel has been ended. */
  ghost predicate LateEnds(es: seq<Channel.Event>) {
    forall i :: 0 <= i < |es| && Channel.Ends(es[i]) ==> Channel.Input(es[i + 1..]) == ""
  }

  lemma {:induction false} LateTail(es: seq<Channel.Event>)
    requires es != [] && LateEnds(es)
    ensures LateEnds(es[1..]) && (Channel.Ends(es[0]) ==> Channel.Input(es[1..]) == "")
  {
    forall i | 0 <= i < |es[1..]| && Channel.Ends(es[1..][i]) ensures Channel.Input(es[1..][i + 1..]) == "" {
      assert es[1..][i] == es[i + 1] && es[1..][i + 1..] == es[i + 2..];
    }
  }

  lemma {:induction false} EndBoundary(ps: seq<Piece>)
    ensures Channel.AtBoundary(ps, |Render(ps)|)
  {
    assert ps[..|ps|] == ps;
  }

  /** Nothing is left to be said: the event that ends the channel stands at the end of the text. */
  lemma {:induction false} AtEnd(ps: seq<Piece>, m: nat, es: seq<Channel.Event>)
    requires es != [] && m <= |Render(ps)| && Channel.Input(es[1..]) == Render(ps)[m..]
    requires Channel.Ends(es[0]) ==> Channel.Input(es[1..]) == ""
    ensures Channel.Ends(es[0]) ==> Channel.AtBoundary(ps, m)
  {
    EndBoundary(ps);
    if Channel.Ends(es[0]) { assert |Render(ps)[m..]| == 0; }
  }

  /** Deltas that together are the rest of the text cut it, however long each is. */
  lemma {:induction false} AnyCut(ps: seq<Piece>, n: nat, es: seq<Channel.Event>)
    requires n <= |Render(ps)| && Channel.Input(es) == Render(ps)[n..] && LateEnds(es)
    ensures Channel.Cuts(ps, n, es)
    decreases |es|
  {
    if es != [] {
      var m := n + |Channel.Text(es[0])|;
      FirstDelta(Render(ps), n, Channel.Text(es[0]), Channel.Input(es[1..]));
      LateTail(es);
      AtEnd(ps, m, es);
      AnyCut(ps, m, es[1..]);
      Channel.CutsCons(ps, n, es, m);
    }
  }

  /** What one channel writes in all: its outputs and the final flush. */
  function Streamed(es: seq<Channel.Event>, r: Resolver): string {
    var f := s => RestoreFinal(s, r);
    Channel.Output("", es, Channel.Partial, f) + f(Channel.PendingAfter("", es, Channel.Partial))
  }

  /** Brace-free text without a live bare form, masked by words spelled as configured, in a session that knows them. */
  ghost predicate Echoable(text: string, stages: seq<M.Stage>, names: M.Naming, r: Resolver) {
    && RT.Sound(text, stages, names) && RT.SafeNames(names) && BraceFree(text) && NoBareHit(text, r)
    && M.Mask(text, stages, names).exact && RT.SessionResolves(M.Mask(text, stages, names), names, r)
  }

  /**
   Masked text echoed back on a stream, cut into deltas in any way at all, comes out as
   the original text.
   */
  lemma {:induction false} EchoRoundTrip(text: string, stages: seq<M.Stage>, names: M.Naming, es: seq<Channel.Event>, r: Resolver)
    requires Echoable(text, stages, names, r)
    requires Channel.Input(es) == M.Mask(text, stages, names).out && LateEnds(es)
    ensures Streamed(es, r) == text
  {
    var m := M.Mask(text, stages, names);
    var cs := RT.MaskView(text, stages, names);
    RT.ResolvesCells(m, names, r, cs);
    PiecesView(cs, r);
    VisiblePlain(text);
    var ps := PiecesOf(cs);
    Whole(Render(ps));
    AnyCut(ps, 0, es);
    Channel.CutInvariance(ps, es, r);
    RestoreRendered(ps, r);
  }

  /** The stream side of the proxy, restoring by the session. */
  ghost predicate Proxying(env: Sse.Env, num: Slots.Reading, jsonStr: string -> bool, r: Resolver, ch: string) {
    && SlotTrees.ProxyEnv(env, num, jsonStr) && env.m == Channel.Partial && SseStream.RestoresBy(env, r)
    && r.escape == SlotLaws.EscapeOf(ch)
  }

  /** Good events with nothing live in keys and types say the text on the channel, and no more once they ended it. */
  ghost predicate Echoes(env: Sse.Env, num: Slots.Reading, ins: seq<Sse.Input>, ch: string, text: string) {
    && Sse.GoodInputs(SlotTrees.SteadyWith(num, env.f), ins)
    && SseStream.Said(env, ins, ch) == text && LateEnds(Sse.ChannelRun(env, ins, ch))
  }

  /**
   The whole way back: masked text that the upstream echoes on one channel of a stream, in
   events of any protocol the proxy knows, cut anywhere and interleaved with anything, is
   read by the client as the original text. Of the events it is asked only that nothing live
   stands in their keys and types.
   */
  lemma {:induction false} EchoThroughProxy(text: string, stages: seq<M.Stage>, names: M.Naming, num: Slots.Reading, env: Sse.Env,
                                            jsonStr: string -> bool, sts: seq<Sse.State>, ins: seq<Sse.Input>,
                                            outs: seq<seq<Sse.Frame>>, ch: string, r: Resolver)
    requires Echoable(text, stages, names, r) && Proxying(env, num, jsonStr, r, ch)
    requires Echoes(env, num, ins, ch, M.Mask(text, stages, names).out) && SseStream.Whole(env, sts, ins, outs)
    ensures Sse.ReadRun(env, outs, ch) == text
  {
    var es := Sse.ChannelRun(env, ins, ch);
    var cs := RT.MaskView(text, stages, names);
    var ps := PiecesOf(cs);
    RT.ResolvesCells(M.Mask(text, stages, names), names, r, cs);
    PiecesView(cs, r);
    VisiblePlain(text);
    SseStream.SaidIsInput(env, ins, ch);
    Whole(Render(ps));
    AnyCut(ps, 0, es);
    SlotTrees.ProxiedRetells(env, num, jsonStr);
    SseStream.StreamCutInvariance(env, SlotTrees.SteadyWith(num, env.f), SlotLaws.EscapeOf, sts, ins, outs, ch, ps, r);
    RestoreRendered(ps, r);
  }

  /** The JSON object on the data line of a frame; None for `[DONE]`. */
  type Reader = string -> Option<Tree.Json>

  function InputOf(fr: U.Framed, reader: Reader): Sse.Input {
    var d := reader(fr.text);
    if d.Some? then Sse.Event(d.value, fr.final) else Sse.Done
  }

  /** What the event layer is handed: the frames, then the end of the stream. */
  function InputsOf(frames: seq<U.Framed>, reader: Reader): seq<Sse.Input> {
    if frames == [] then [Sse.Done] else [InputOf(frames[0], reader)] + InputsOf(frames[1..], reader)
  }

  /** The bytes of a text, cut into chunks. */
  ghost predicate Chunked(s: string, chunks: seq<seq<U.Byte>>, lossy: U.Lossy) {
    U.Decodes(lossy) && U.FairCut(chunks) && U.Joined(chunks) == U.Utf8(s) && U.Bounded("", s)
  }

  lemma {:induction false} SameInputs(s: string, chunks: seq<seq<U.Byte>>, lossy: U.Lossy, reader: Reader)
    requires Chunked(s, chunks, lossy)
    ensures var ins := InputsOf(U.Stream(U.Buffers("", []), chunks, lossy), reader);
            ins == InputsOf(U.Expected(U.Unix(s)), reader) && ins != [] && ins[|ins| - 1].Done?
  {
    U.ByteCutInvariance(s, chunks, lossy);
    EndsDone(U.Expected(U.Unix(s)), reader);
  }

  /**
   From bytes to text: the upstream's bytes may be cut into chunks anywhere but between CR
   and LF; what a client reads on the channel is the original text.
   */
  lemma {:induction false} EchoFromBytes(text: string, stages: seq<M.Stage>, names: M.Naming, num: Slots.Reading, env: Sse.Env,
                                         jsonStr: string -> bool, s: string, chunks: seq<seq<U.Byte>>, lossy: U.Lossy, reader: Reader,
                                         sts: seq<Sse.State>, ins: seq<Sse.Input>, outs: seq<seq<Sse.Frame>>, ch: string, r: Resolver)
    requires Echoable(text, stages, names, r) && Proxying(env, num, jsonStr, r, ch)
    requires Chunked(s, chunks, lossy) && ins == InputsOf(U.Stream(U.Buffers("", []), chunks, lossy), reader)
    requires Sse.Run(env, sts, ins, outs) && sts[0] == Sse.START
    requires Echoes(env, num, InputsOf(U.Expected(U.Unix(s)), reader), ch, M.Mask(text, stages, names).out)
    ensures Sse.ReadRun(env, outs, ch) == text
  {
    SameInputs(s, chunks, lossy, reader);
    EchoThroughProxy(text, stages, names, num, env, jsonStr, sts, ins, outs, ch, r);
  }

  lemma {:induction false} EndsDone(frames: seq<U.Framed>, reader: Reader)
    ensures var ins := InputsOf(frames, reader); ins != [] && ins[|ins| - 1].Done?
  {
    if frames != [] { EndsDone(frames[1..], reader); }
  }

  lemma {:induction false} WellFormedSteady(j: Tree.Json, f: Tree.Restorer)
    requires Tree.WellFormed(j) && forall s, e :: f(s, e) == s
    ensures SlotTrees.Steady(j, f)
  {
    match j
    case Arr(items) => forall i | 0 <= i < |items| ensures SlotTrees.Steady(items[i], f) { WellFormedSteady(items[i], f); }
    case Obj(entries) =>
      forall i | 0 <= i < |entries| ensures SlotTrees.Steady(entries[i].value, f) { WellFormedSteady(entries[i].value, f); }
    case _ =>
  }

  /**
   Conservation through the proxy: when nothing resolves, every text of every event of every
   protocol arrives, in order, through hold-back, flush frames and the pass over the whole event.
   */
  lemma {:induction false} ConservationThroughProxy(num: Slots.Reading, env: Sse.Env, jsonStr: string -> bool, sts: seq<Sse.State>,
                                                    ins: seq<Sse.Input>, outs: seq<seq<Sse.Frame>>, ch: string)
    requires SlotTrees.ProxyEnv(env, num, jsonStr) && forall s, e :: env.f(s, e) == s
    requires forall i :: 0 <= i < |ins| && ins[i].Event? ==> SlotEvents.GoodEvent(num, ins[i].d) && Tree.WellFormed(ins[i].d)
    requires SseStream.Whole(env, sts, ins, outs)
    ensures Sse.ReadRun(env, outs, ch) == SseStream.Said(env, ins, ch)
  {
    var good := SlotTrees.SteadyWith(num, env.f);
    forall i | 0 <= i < |ins| && ins[i].Event? ensures good(ins[i].d) { WellFormedSteady(ins[i].d, env.f); }
    SlotTrees.ProxiedRetells(env, num, jsonStr);
    SseStream.Conservation(env, good, SlotLaws.EscapeOf, sts, ins, outs, ch);
  }

  // --------------------------------------------------------------- inside a JSON string

  /** The pieces of the JSON string that holds the text of qs. */
  function EscapedPieces(qs: seq<Piece>): seq<Piece> {
    if qs == [] then []
    else (if qs[0].Plain? then Plains(JsonEscape([qs[0].c])) else [qs[0]]) + EscapedPieces(qs[1..])
  }

  /** Escaping the text escapes its pieces, and escaped restoration escapes the restored text. */
  lemma {:induction false} EscapedView(qs: seq<Piece>, r: Resolver)
    requires Valid(qs) && !r.escape
    ensures Render(EscapedPieces(qs)) == JsonEscape(Render(qs))
    ensures Expand(EscapedPieces(qs), Resolver(r.lookup, r.rescue, true)) == JsonEscape(Expand(qs, r))
  {
    if qs != [] {
      var e := Resolver(r.lookup, r.rescue, true);
      var rest := EscapedPieces(qs[1..]);
      assert ValidPiece(qs[0]);
      ValidDrop(qs, 1);
      EscapedView(qs[1..], r);
      LiteralConcat(RenderOne(qs[0]), Render(qs[1..]), false);
      LiteralConcat(ExpandOne(qs[0], r), Expand(qs[1..], r), false);
      var first := if qs[0].Plain? then Plains(JsonEscape([qs[0].c])) else [qs[0]];
      RenderConcat(first, rest);
      ExpandConcat(first, rest, e);
      EscapedFirst(qs[0], r);
    }
  }

  lemma {:induction false} EscapedFirst(q: Piece, r: Resolver)
    requires ValidPiece(q) && !r.escape
    ensures var first := if q.Plain? then Plains(JsonEscape([q.c])) else [q];
            && Render(first) == JsonEscape(RenderOne(q))
            && Expand(first, Resolver(r.lookup, r.rescue, true)) == JsonEscape(ExpandOne(q, r))
  {
    match q
    case Plain(c) =>
      RenderPlains(JsonEscape([c]));
      ExpandPlain(Plains(JsonEscape([c])), Resolver(r.lookup, r.rescue, true));
    case Tok(tag, suffix) =>
      EscapeFixesToken(tag, suffix);
      assert [q][1..] == [];
  }

  /**
   A placeholder inside a JSON string (tool-call arguments) is restored escaped: decoding
   the restored string gives what restoring the decoded string gives.
   */
  lemma {:induction false} EscapedRestoreDecodes(qs: seq<Piece>, r: Resolver)
    requires !r.escape && Restorable(qs, r) && Restorable(EscapedPieces(qs), Resolver(r.lookup, r.rescue, true))
    ensures Decode(RestoreFinal(JsonEscape(Render(qs)), Resolver(r.lookup, r.rescue, true)))
         == Some(RestoreFinal(Render(qs), r))
  {
    EscapedView(qs, r);
    RestoreRendered(qs, r);
    RestoreRendered(EscapedPieces(qs), Resolver(r.lookup, r.rescue, true));
    DecodeLiteral(Expand(qs, r), false);
  }

  // -------------------------------------------------------------------- through a tree

  function MaskWith(stages: seq<M.Stage>, names: M.Naming): string -> string { s => M.Mask(s, stages, names).out }

  function RestoreWith(r: Resolver): Tree.Restorer { (s, escape) => RestoreFinal(s, Resolver(r.lookup, r.rescue, escape)) }

  function Escaping(r: Resolver): Resolver { Resolver(r.lookup, r.rescue, true) }

  /** A string of the tree that masking inverts on: hits spelled as their keys, no JSON escape needed, nothing live in it. */
  ghost predicate Ready(s: string, stages: seq<M.Stage>, names: M.Naming, r: Resolver) {
    var m := M.Mask(s, stages, names);
    && RT.Sound(s, stages, names) && m.exact && RT.SessionResolves(m, names, r)
    && (forall key :: key in m.hits ==> All(IsLiteralSafe, key))
    && Inert(s, r) && Inert(s, Escaping(r))
  }

  lemma {:induction false} EscapedResolves(m: M.Masked, names: M.Naming, r: Resolver)
    requires !r.escape && RT.SessionResolves(m, names, r) && forall key :: key in m.hits ==> All(IsLiteralSafe, key)
    ensures RT.SessionResolves(m, names, Escaping(r))
  {
    forall key | key in m.hits ensures Escaping(r).Found(M.NameToken(names, key)) == Some(key) {
      EscapeFixesSafe(key);
    }
  }

  lemma {:induction false} ReadyInverts(s: string, stages: seq<M.Stage>, names: M.Naming, r: Resolver, p: Tree.Policy)
    requires RT.SafeNames(names) && !r.escape && Ready(s, stages, names, r)
    requires p.mask == MaskWith(stages, names)
    ensures Tree.Inverts(s, p, RestoreWith(r))
  {
    var m := M.Mask(s, stages, names);
    assert Resolver(r.lookup, r.rescue, false) == r;
    EscapedResolves(m, names, r);
    RT.MaskRoundTrip(s, stages, names, r);
    RT.MaskRoundTrip(s, stages, names, Escaping(r));
    assert M.Mask(s, [], names) == M.Masked(s, [], true);
    RT.MaskRoundTrip(s, [], names, r);
    RT.MaskRoundTrip(s, [], names, Escaping(r));
  }

  /** q holds of every string and key of the tree; keys are distinct and no number is rewritten. */
  ghost predicate Throughout(j: Tree.Json, q: string -> bool, p: Tree.Policy) {
    match j
    case Str(s) => q(s)
    case Num(text) => p.mask(text) == text
    case Arr(items) => forall i :: 0 <= i < |items| ==> Throughout(items[i], q, p)
    case Obj(entries) =>
      && Tree.Distinct(Tree.Keys(entries))
      && forall i :: 0 <= i < |entries| ==> q(entries[i].key) && Throughout(entries[i].value, q, p)
    case _ => true
  }

  lemma {:induction false} ThroughoutInvertible(j: Tree.Json, q: string -> bool, p: Tree.Policy, r: Tree.Restorer)
    requires Throughout(j, q, p) && forall s :: q(s) ==> Tree.Inverts(s, p, r)
    ensures Tree.Invertible(j, p, r)
  {
    match j
    case Arr(items) =>
      forall i | 0 <= i < |items| ensures Tree.Invertible(items[i], p, r) { ThroughoutInvertible(items[i], q, p, r); }
    case Obj(entries) =>
      forall i | 0 <= i < |entries| ensures Tree.Invertible(entries[i].value, p, r) {
        ThroughoutInvertible(entries[i].value, q, p, r);
      }
    case _ =>
  }

  ghost function ReadyIn(stages: seq<M.Stage>, names: M.Naming, r: Resolver): string -> bool {
    s => Ready(s, stages, names, r)
  }

  lemma {:induction false} AllReadyInvert(stages: seq<M.Stage>, names: M.Naming, r: Resolver, p: Tree.Policy)
    requires RT.SafeNames(names) && !r.escape && p.mask == MaskWith(stages, names)
    ensures forall s :: ReadyIn(stages, names, r)(s) ==> Tree.Inverts(s, p, RestoreWith(r))
  {
    forall s | ReadyIn(stages, names, r)(s) ensures Tree.Inverts(s, p, RestoreWith(r)) {
      ReadyInverts(s, stages, names, r, p);
    }
  }

  lemma {:induction false} EarlyOutHere(r: Resolver)
    ensures Tree.EarlyOut(RestoreWith(r))
  {
  }

  /**
   The whole way for a JSON tree: masked by any rules under any exemption tables and
   restored by the three passes against the session, the tree comes back as it was, with
   its key names and their order.
   */
  lemma {:induction false} StoredTreeRoundTrip(j: Tree.Json, stages: seq<M.Stage>, names: M.Naming, r: Resolver,
                                               p: Tree.Policy, jsonStr: string -> bool, depth: nat)
    requires RT.SafeNames(names) && !r.escape && p.mask == MaskWith(stages, names)
    requires Throughout(j, ReadyIn(stages, names, r), p)
    requires Tree.MaskTree(j, p, None, None, false, depth).Ok?
    ensures Tree.RestoreTree(Tree.MaskTree(j, p, None, None, false, depth).value, RestoreWith(r), jsonStr, depth) == j
  {
    AllReadyInvert(stages, names, r, p);
    EarlyOutHere(r);
    ThroughoutInvertible(j, ReadyIn(stages, names, r), p, RestoreWith(r));
    Tree.TreeRoundTrip(j, p, RestoreWith(r), jsonStr, None, None, false, depth);
  }
}
