/**
 What masking a text is for: what a stage finds clear of placeholders is replaced, and an
 original that some stage finds wherever it stands is in no part of the masked text.
 */
module Hiding {
  import opened Wrappers
  import opened Seqs
  import opened Placeholders
  import opened Masking

  predicate Occurs(o: string, s: string) { exists i :: 0 <= i <= |s| && OccursAt(s, i, o) }

  /** Laid over p so that both share a place, o agrees with it. */
  ghost predicate FitsOver(o: string, p: string) { exists i :: -|o| < i < |p| && Agrees(o, p, i) }

  /** The edits come in order and do not overlap, and none puts nothing. */
  ghost predicate Orderly(edits: seq<Edit>, last: nat, n: nat) {
    && EditsIn(edits, n)
    && (forall k :: 0 <= k < |edits| ==> last <= edits[k].start && edits[k].put != "")
    && (forall i, j :: 0 <= i < j < |edits| ==> edits[i].end <= edits[j].start)
  }

  lemma {:induction false} OrderlyRest(edits: seq<Edit>, last: nat, n: nat)
    requires edits != [] && Orderly(edits, last, n)
    ensures last <= edits[0].start <= edits[0].end <= n && Orderly(edits[1..], edits[0].end, n)
  {
    var r := edits[1..];
    forall k | 0 <= k < |r| ensures edits[0].end <= r[k].start && r[k].put != "" { assert r[k] == edits[k + 1]; }
    forall i, j | 0 <= i < j < |r| ensures r[i].end <= r[j].start { assert edits[i + 1].end <= edits[j + 1].start; }
  }

  predicate Apart(e: Edit, b: nat, n: nat) { e.end <= b || b + n <= e.start }

  /** The window of n characters at b of the text is touched by no edit. */
  ghost predicate Untouched(edits: seq<Edit>, b: nat, n: nat) { forall k :: 0 <= k < |edits| ==> Apart(edits[k], b, n) }

  // ------------------------------------------------- where a text in the result comes from

  /** A window of a + b + c lies in a, or reaches into b, or lies in c. */
  lemma {:induction false} WindowLeft(a: string, rest: string, o: string, i: nat)
    requires OccursAt(a + rest, i, o) && i + |o| <= |a|
    ensures OccursAt(a, i, o)
  {
    assert (a + rest)[i..i + |o|] == a[i..i + |o|];
  }

  lemma {:induction false} WindowRight(a: string, rest: string, o: string, i: nat)
    requires OccursAt(a + rest, i, o) && i >= |a|
    ensures OccursAt(rest, i - |a|, o)
  {
    SliceBehind(a, rest, i, i + |o|);
  }

  lemma {:induction false} WindowBeside(a: string, b: string, rest: string, o: string, i: nat)
    requires OccursAt(a + (b + rest), i, o) && !FitsOver(o, b)
    ensures i + |o| <= |a| || i >= |a| + |b|
  {
    if i + |o| > |a| && i < |a| + |b| { WindowOver(a, b, rest, o, i); }
  }

  lemma {:induction false} WindowOver(a: string, b: string, rest: string, o: string, i: nat)
    requires OccursAt(a + (b + rest), i, o) && i + |o| > |a| && i < |a| + |b|
    ensures FitsOver(o, b)
  {
    var s, d := a + (b + rest), i - |a|;
    forall k | 0 <= k < |o| && 0 <= d + k < |b| ensures o[k] == b[d + k] {
      assert o[k] == s[i..i + |o|][k] == s[i + k] == b[d + k];
    }
    assert Agrees(o, b, d);
  }

  /** What occurs in the spliced text fits over a text put there, or occurs in the text where no edit touches it. */
  lemma {:induction false} OccursInSplice(text: string, last: nat, edits: seq<Edit>, o: string, i: nat) returns (b: nat)
    requires last <= |text| && Orderly(edits, last, |text|) && o != "" && OccursAt(Splice(text, last, edits), i, o)
    requires forall k :: 0 <= k < |edits| ==> !FitsOver(o, edits[k].put)
    ensures last <= b && OccursAt(text, b, o) && Untouched(edits, b, |o|)
    decreases |edits|
  {
    if edits == [] {
      b := last + i;
      assert text[last..][i..i + |o|] == text[b..b + |o|];
    } else {
      b := OccursInFirst(text, last, edits, o, i);
    }
  }

  lemma {:induction false} OccursInFirst(text: string, last: nat, edits: seq<Edit>, o: string, i: nat) returns (b: nat)
    requires last <= |text| && edits != [] && Orderly(edits, last, |text|) && o != "" && OccursAt(Splice(text, last, edits), i, o)
    requires forall k :: 0 <= k < |edits| ==> !FitsOver(o, edits[k].put)
    ensures last <= b && OccursAt(text, b, o) && Untouched(edits, b, |o|)
    decreases |edits|, 0
  {
    var e := edits[0];
    OrderlyRest(edits, last, |text|);
    var gap, rest := text[last..e.start], Splice(text, e.end, edits[1..]);
    Assoc(gap, e.put, rest);
    assert Splice(text, last, edits) == gap + (e.put + rest);
    WindowBeside(gap, e.put, rest, o, i);
    if i + |o| <= |gap| {
      WindowLeft(gap, e.put + rest, o, i);
      b := last + i;
      SliceSlice(text, last, e.start, i, i + |o|);
      forall k | 0 <= k < |edits| ensures Apart(edits[k], b, |o|) { if k > 0 { assert edits[0].end <= edits[k].start; } }
    } else {
      WindowRight(gap, e.put + rest, o, i);
      WindowRight(e.put, rest, o, i - |gap|);
      forall k | 0 <= k < |edits[1..]| ensures !FitsOver(o, edits[1..][k].put) { assert edits[1..][k] == edits[k + 1]; }
      b := OccursInSplice(text, e.end, edits[1..], o, i - |gap| - |e.put|);
      forall k | 0 <= k < |edits| ensures Apart(edits[k], b, |o|) { if k > 0 { assert Apart(edits[1..][k - 1], b, |o|); } }
    }
  }

  lemma {:induction false} OccursBehind(a: string, rest: string, o: string, i: nat)
    requires OccursAt(rest, i, o)
    ensures OccursAt(a + rest, |a| + i, o)
  {
    SliceBehind(a, rest, |a| + i, |a| + i + |o|);
  }

  /** The other way round: what no edit touches is still there. */
  lemma {:induction false} SpliceShows(text: string, last: nat, edits: seq<Edit>, o: string, b: nat)
    requires last <= b && Orderly(edits, last, |text|) && o != "" && OccursAt(text, b, o) && Untouched(edits, b, |o|)
    ensures Occurs(o, Splice(text, last, edits))
    decreases |edits|
  {
    if edits == [] {
      SliceSlice(text, last, |text|, b - last, b - last + |o|);
      assert OccursAt(text[last..], b - last, o);
    } else {
      var e := edits[0];
      OrderlyRest(edits, last, |text|);
      var gap, rest := text[last..e.start], Splice(text, e.end, edits[1..]);
      assert Apart(e, b, |o|);
      if b + |o| <= e.start {
        ShowsInGap(text, last, e.start, o, b, e.put + rest);
        Assoc(gap, e.put, rest);
      } else {
        forall k | 0 <= k < |edits[1..]| ensures Apart(edits[1..][k], b, |o|) { assert Apart(edits[k + 1], b, |o|); }
        SpliceShows(text, e.end, edits[1..], o, b);
        var i :| 0 <= i <= |rest| && OccursAt(rest, i, o);
        OccursBehind(gap + e.put, rest, o, i);
      }
    }
  }

  lemma {:induction false} ShowsInGap(text: string, last: nat, end: nat, o: string, b: nat, rest: string)
    requires last <= b && b + |o| <= end <= |text| && OccursAt(text, b, o)
    ensures Occurs(o, text[last..end] + rest)
  {
    SliceSlice(text, last, end, b - last, b - last + |o|);
    assert OccursAt(text[last..end] + rest, b - last, o);
  }

  // ------------------------------------------------------------------- what a stage does

  /** The matches a stage takes: a rule's that touch no strict placeholder, a word's that lie in none. */
  ghost predicate Takes(stage: Stage, text: string, c: Cand)
    requires !stage.Everywhere?
  {
    c in stage.find(text) && if stage.Rule? then Clear(c, StrictSpans(text)) else !Contained(c, StrictSpans(text))
  }

  lemma {:induction false} KeepClearAll(cs: seq<Cand>, phs: seq<Span>, c: Cand)
    requires c in cs && Clear(c, phs)
    ensures c in KeepClear(cs, phs)
  {
    if cs[0] != c { assert c in cs[1..]; KeepClearAll(cs[1..], phs, c); }
  }

  lemma {:induction false} KeepOutsideAll(cs: seq<Cand>, phs: seq<Span>, c: Cand)
    requires c in cs && !Contained(c, phs)
    ensures c in KeepOutside(cs, phs)
  {
    if cs[0] != c { assert c in cs[1..]; KeepOutsideAll(cs[1..], phs, c); }
  }

  /** A stage keeps exactly these, in the order in which it found them. */
  lemma {:induction false} KeptIff(stage: Stage, text: string, c: Cand)
    requires !stage.Everywhere?
    ensures c in Kept(stage, text) <==> Takes(stage, text, c)
    ensures Ascending(Kept(stage, text), |text|)
  {
    var found, phs := stage.find(text), StrictSpans(text);
    assert Ascending(found, |text|);
    KeepClearSome(found, phs, |text|);
    KeepOutsideSome(found, phs, |text|);
    if c in found && Clear(c, phs) { KeepClearAll(found, phs, c); }
    if c in found && !Contained(c, phs) { KeepOutsideAll(found, phs, c); }
  }

  lemma {:induction false} TokenIsSome(tag: string, suffix: string)
    ensures Token(tag, suffix) != ""
  {
  }

  lemma {:induction false} EditsOrderly(cs: seq<Cand>, names: Naming, n: nat)
    requires Ascending(cs, n)
    ensures Orderly(Edits(cs, names), 0, n)
  {
    var es := Edits(cs, names);
    forall k | 0 <= k < |es| ensures es[k].put != "" && es[k].start <= es[k].end <= n {
      TokenIsSome(names(cs[k].key).0, names(cs[k].key).1);
      assert cs[k].start <= cs[k].from;
    }
    forall i, j | 0 <= i < j < |es| ensures es[i].end <= es[j].start { assert cs[i].end <= cs[j].start; }
  }

  /** What is put by an edit stands in the result. */
  lemma {:induction false} SplicePuts(text: string, last: nat, edits: seq<Edit>, k: nat)
    requires last <= |text| && Orderly(edits, last, |text|) && k < |edits|
    ensures Occurs(edits[k].put, Splice(text, last, edits))
    decreases |edits|
  {
    var e := edits[0];
    OrderlyRest(edits, last, |text|);
    var gap, rest := text[last..e.start], Splice(text, e.end, edits[1..]);
    if k == 0 {
      assert OccursAt(gap + e.put + rest, |gap|, e.put);
    } else {
      SplicePuts(text, e.end, edits[1..], k - 1);
      var i :| 0 <= i <= |rest| && OccursAt(rest, i, edits[1..][k - 1].put);
      OccursBehind(gap + e.put, rest, edits[k].put, i);
    }
  }

  /** What a stage takes is hit, and the placeholder of its key stands in the text afterwards. */
  lemma {:induction false} TakenIsHit(m: Masked, stage: Stage, names: Naming, c: Cand)
    requires !stage.Everywhere? && Takes(stage, m.out, c)
    ensures var r := StageStep(m, stage, names); c.key in r.hits && Occurs(NameToken(names, c.key), r.out)
  {
    var kept := Kept(stage, m.out);
    KeptIff(stage, m.out, c);
    var k :| 0 <= k < |kept| && kept[k] == c;
    assert KeysOf(kept)[k] == c.key;
    EditsOrderly(kept, names, |m.out|);
    SplicePuts(m.out, 0, Edits(kept, names), k);
  }

  // ------------------------------------------------------------------------ hiding

  /** The stage takes a match whose value reaches into the window of n characters at b. */
  ghost predicate TakesAt(stage: Stage, text: string, b: nat, n: nat)
    requires !stage.Everywhere?
  {
    exists c :: Takes(stage, text, c) && c.from < b + n && b < c.to
  }

  /** The stage finds the original wherever it stands; what is replaced everywhere is. */
  ghost predicate Finds(stage: Stage, text: string, o: string) {
    if stage.Everywhere? then o in stage.texts(text)
    else forall b :: 0 <= b <= |text| && OccursAt(text, b, o) ==> TakesAt(stage, text, b, |o|)
  }

  /** The original fits over none of the placeholders of these keys. */
  ghost predicate FitsNone(o: string, names: Naming, keys: seq<string>) { forall h :: h in keys ==> !FitsOver(o, NameToken(names, h)) }

  /** No text put by the edits is one o fits over. */
  lemma {:induction false} EditsFit(cs: seq<Cand>, names: Naming, o: string, keys: seq<string>)
    requires FitsNone(o, names, keys) && forall k :: 0 <= k < |cs| ==> cs[k].key in keys
    ensures forall k :: 0 <= k < |cs| ==> !FitsOver(o, Edits(cs, names)[k].put)
  {
  }

  lemma {:induction false} TakenTouches(stage: Stage, text: string, names: Naming, b: nat, n: nat)
    requires !stage.Everywhere? && TakesAt(stage, text, b, n)
    ensures !Untouched(Edits(Kept(stage, text), names), b, n)
  {
    var kept := Kept(stage, text);
    var c :| Takes(stage, text, c) && c.from < b + n && b < c.to;
    KeptIff(stage, text, c);
    var k :| 0 <= k < |kept| && kept[k] == c;
    assert !Apart(Edits(kept, names)[k], b, n);
  }

  lemma {:induction false} KeptStep(m: Masked, stage: Stage, names: Naming, o: string)
    requires !stage.Everywhere? && o != "" && FitsNone(o, names, StageStep(m, stage, names).hits)
    requires Finds(stage, m.out, o)
    ensures !Occurs(o, StageStep(m, stage, names).out)
  {
    var kept, text := Kept(stage, m.out), m.out;
    var edits, out := Edits(kept, names), Splice(text, 0, Edits(kept, names));
    EditsOrderly(kept, names, |text|);
    forall k | 0 <= k < |kept| ensures kept[k].key in (m.hits + KeysOf(kept)) { assert KeysOf(kept)[k] == kept[k].key; }
    EditsFit(kept, names, o, m.hits + KeysOf(kept));
    if i :| 0 <= i <= |out| && OccursAt(out, i, o) {
      var b := OccursInSplice(text, 0, edits, o, i);
      TakenTouches(stage, text, names, b, |o|);
    }
  }

  /** An edit of a stage touches the window if and only if the stage takes a match whose value does. */
  lemma {:induction false} TouchesIff(stage: Stage, text: string, names: Naming, b: nat, n: nat)
    requires !stage.Everywhere?
    ensures Untouched(Edits(Kept(stage, text), names), b, n) <==> !TakesAt(stage, text, b, n)
  {
    var kept := Kept(stage, text);
    if TakesAt(stage, text, b, n) { TakenTouches(stage, text, names, b, n); }
    if !TakesAt(stage, text, b, n) {
      forall k | 0 <= k < |kept| ensures Apart(Edits(kept, names)[k], b, n) { KeptIff(stage, text, kept[k]); }
    }
  }

  /**
   What a stage shows of an original that fits over no placeholder it puts: it is in the text
   afterwards if and only if it stood somewhere that no match taken reaches into.
   */
  lemma {:induction false} StageShowsIff(m: Masked, stage: Stage, names: Naming, o: string)
    requires !stage.Everywhere? && o != "" && FitsNone(o, names, StageStep(m, stage, names).hits)
    ensures Occurs(o, StageStep(m, stage, names).out) <==>
              exists b :: 0 <= b <= |m.out| && OccursAt(m.out, b, o) && !TakesAt(stage, m.out, b, |o|)
  {
    if b :| 0 <= b <= |m.out| && OccursAt(m.out, b, o) && !TakesAt(stage, m.out, b, |o|) {
      TouchesIff(stage, m.out, names, b, |o|);
      EditsOrderly(Kept(stage, m.out), names, |m.out|);
      SpliceShows(m.out, 0, Edits(Kept(stage, m.out), names), o, b);
    } else {
      KeptStep(m, stage, names, o);
    }
  }

  /** The scan for o from i on stops at s. */
  ghost predicate StopsAt(text: string, i: nat, o: string, s: nat)
    requires o != ""
    decreases |text| - i
  {
    i <= s && i <= |text|
    && if OccursAt(text, i, o) then s == i || StopsAt(text, i + |o|, o, s) else i < |text| && StopsAt(text, i + 1, o, s)
  }

  lemma {:induction false} OccurrencesHere(text: string, i: nat, o: string)
    requires o != "" && i <= |text|
    ensures OccursAt(text, i, o) ==> Occurrences(text, i, o) == [CandAt(i, o)] + Occurrences(text, i + |o|, o)
    ensures !OccursAt(text, i, o) && i < |text| ==> Occurrences(text, i, o) == Occurrences(text, i + 1, o)
  {
  }

  lemma {:induction false} StopIsOccurrence(text: string, i: nat, o: string, s: nat)
    requires o != "" && StopsAt(text, i, o, s)
    ensures CandAt(s, o) in Occurrences(text, i, o)
    decreases |text| - i
  {
    OccurrencesHere(text, i, o);
    if OccursAt(text, i, o) {
      if s != i { StopIsOccurrence(text, i + |o|, o, s); }
    } else {
      StopIsOccurrence(text, i + 1, o, s);
    }
  }

  /** No window of the text with o in it is left that the scan has not reached into. */
  lemma {:induction false} EveryReached(text: string, i: nat, o: string, b: nat) returns (s: nat)
    requires o != "" && i <= b && OccursAt(text, b, o)
    ensures StopsAt(text, i, o, s) && s < b + |o| && b < s + |o|
    decreases |text| - i
  {
    if OccursAt(text, i, o) {
      s := i;
      if b >= i + |o| { s := EveryReached(text, i + |o|, o, b); }
    } else {
      s := EveryReached(text, i + 1, o, b);
    }
  }

  lemma {:induction false} ReachedTouches(text: string, o: string, names: Naming, b: nat)
    requires o != "" && OccursAt(text, b, o)
    ensures !Untouched(TextEdits(text, o, names), b, |o|)
  {
    var s := EveryReached(text, 0, o, b);
    StopIsOccurrence(text, 0, o, s);
    var cs := Occurrences(text, 0, o);
    var k :| 0 <= k < |cs| && cs[k] == CandAt(s, o);
    assert !Apart(TextEdits(text, o, names)[k], b, |o|);
  }

  lemma {:induction false} OccurrencesFit(text: string, t: string, names: Naming, o: string)
    requires !FitsOver(o, NameToken(names, t))
    ensures Orderly(TextEdits(text, t, names), 0, |text|)
    ensures forall k :: 0 <= k < |TextEdits(text, t, names)| ==> !FitsOver(o, TextEdits(text, t, names)[k].put)
  {
    var cs := Occurrences(text, 0, t);
    EditsOrderly(cs, names, |text|);
    forall k | 0 <= k < |cs| ensures cs[k].key == t { assert cs[k] in cs; }
  }

  lemma {:induction false} TextStepHides(m: Masked, names: Naming, o: string)
    requires o != "" && !FitsOver(o, NameToken(names, o))
    ensures !Occurs(o, TextStep(m, o, names).out)
  {
    var text, out := m.out, TextStep(m, o, names).out;
    var edits := TextEdits(text, o, names);
    OccurrencesFit(text, o, names, o);
    if i :| 0 <= i <= |out| && OccursAt(out, i, o) {
      var b := OccursInSplice(text, 0, edits, o, i);
      ReachedTouches(text, o, names, b);
    }
  }

  /** What is not in the text does not come into it. */
  lemma {:induction false} TextStepKeeps(m: Masked, t: string, names: Naming, o: string)
    requires o != "" && !Occurs(o, m.out) && !FitsOver(o, NameToken(names, t))
    ensures !Occurs(o, TextStep(m, t, names).out)
  {
    var text, out := m.out, TextStep(m, t, names).out;
    OccurrencesFit(text, t, names, o);
    if i :| 0 <= i <= |out| && OccursAt(out, i, o) { var b := OccursInSplice(text, 0, TextEdits(text, t, names), o, i); }
  }

  lemma {:induction false} StageStepKeeps(m: Masked, stage: Stage, names: Naming, o: string)
    requires o != "" && !Occurs(o, m.out) && FitsNone(o, names, StageStep(m, stage, names).hits)
    ensures !Occurs(o, StageStep(m, stage, names).out)
  {
    if stage.Everywhere? {
      TextStepsKeep(m, stage.texts(m.out), names, o);
    } else {
      KeptStep(m, stage, names, o);
    }
  }

  lemma {:induction false} TextHits(m: Masked, ts: seq<string>, names: Naming)
    ensures forall h :: h in m.hits || h in ts ==> h in TextSteps(m, ts, names).hits
    decreases |ts|
  {
    if ts != [] {
      TextHits(TextStep(m, ts[0], names), ts[1..], names);
      forall h | h in m.hits || h in ts ensures h in TextSteps(m, ts, names).hits {
        assert h in (m.hits + [ts[0]]) || h in ts[1..];
      }
    }
  }

  lemma {:induction false} TextStepsKeep(m: Masked, ts: seq<string>, names: Naming, o: string)
    requires o != "" && !Occurs(o, m.out) && FitsNone(o, names, TextSteps(m, ts, names).hits)
    ensures !Occurs(o, TextSteps(m, ts, names).out)
    decreases |ts|
  {
    if ts != [] {
      TextHits(m, ts, names);
      TextStepKeeps(m, ts[0], names, o);
      TextStepsKeep(TextStep(m, ts[0], names), ts[1..], names, o);
    }
  }

  lemma {:induction false} TextStepsHide(m: Masked, ts: seq<string>, names: Naming, o: string)
    requires o != "" && o in ts && FitsNone(o, names, TextSteps(m, ts, names).hits)
    ensures !Occurs(o, TextSteps(m, ts, names).out)
    decreases |ts|
  {
    TextHits(m, ts, names);
    var u := TextStep(m, ts[0], names);
    if ts[0] == o {
      TextStepHides(m, names, o);
      TextStepsKeep(u, ts[1..], names, o);
    } else {
      TextStepsHide(u, ts[1..], names, o);
    }
  }

  lemma {:induction false} StageHides(m: Masked, stage: Stage, names: Naming, o: string)
    requires o != "" && Finds(stage, m.out, o) && FitsNone(o, names, StageStep(m, stage, names).hits)
    ensures !Occurs(o, StageStep(m, stage, names).out)
  {
    if stage.Everywhere? { TextStepsHide(m, stage.texts(m.out), names, o); } else { KeptStep(m, stage, names, o); }
  }

  // ---------------------------------------------------------------------- whole runs

  lemma {:induction false} StageHits(m: Masked, stage: Stage, names: Naming)
    ensures forall h :: h in m.hits ==> h in StageStep(m, stage, names).hits
  {
    if stage.Everywhere? { TextHits(m, stage.texts(m.out), names); }
  }

  lemma {:induction false} MaskHits(m: Masked, stages: seq<Stage>, names: Naming)
    ensures forall h :: h in m.hits ==> h in MaskFrom(m, stages, names).hits
    decreases |stages|
  {
    if stages != [] {
      StageHits(m, stages[0], names);
      MaskHits(StageStep(m, stages[0], names), stages[1..], names);
    }
  }

  lemma {:induction false} MaskKeeps(m: Masked, stages: seq<Stage>, names: Naming, o: string)
    requires o != "" && !Occurs(o, m.out) && FitsNone(o, names, MaskFrom(m, stages, names).hits)
    ensures !Occurs(o, MaskFrom(m, stages, names).out)
    decreases |stages|
  {
    if stages != [] {
      var u := StageStep(m, stages[0], names);
      MaskHits(u, stages[1..], names);
      StageStepKeeps(m, stages[0], names, o);
      MaskKeeps(u, stages[1..], names, o);
    }
  }

  /** Some stage finds the original wherever it stands in the text that this stage is given. */
  ghost predicate FoundFrom(m: Masked, stages: seq<Stage>, names: Naming, o: string)
    decreases |stages|
  {
    stages != [] && (Finds(stages[0], m.out, o) || FoundFrom(StageStep(m, stages[0], names), stages[1..], names, o))
  }

  lemma {:induction false} HidesFrom(m: Masked, stages: seq<Stage>, names: Naming, o: string)
    requires o != "" && FoundFrom(m, stages, names, o) && FitsNone(o, names, MaskFrom(m, stages, names).hits)
    ensures !Occurs(o, MaskFrom(m, stages, names).out)
    decreases |stages|
  {
    var u := StageStep(m, stages[0], names);
    MaskHits(u, stages[1..], names);
    if Finds(stages[0], m.out, o) {
      StageHides(m, stages[0], names, o);
      MaskKeeps(u, stages[1..], names, o);
    } else {
      HidesFrom(u, stages[1..], names, o);
    }
  }

  /** What the masked text may show of an original: nothing, if some stage finds it and it fits over no placeholder put. */
  ghost predicate Hidden(o: string, text: string, stages: seq<Stage>, names: Naming) {
    && o != "" && FitsNone(o, names, Mask(text, stages, names).hits)
    && (!Occurs(o, text) || FoundFrom(Masked(text, [], true), stages, names, o))
  }

  /**
   Nothing leaks: an original that some stage finds wherever it stands, and that is no part of a
   placeholder put in its stead, occurs nowhere in the masked text, across no seam either.
   */
  lemma {:induction false} MaskHides(text: string, stages: seq<Stage>, names: Naming, o: string)
    requires Hidden(o, text, stages, names)
    ensures !Occurs(o, Mask(text, stages, names).out)
  {
    var m := Masked(text, [], true);
    if Occurs(o, text) { HidesFrom(m, stages, names, o); } else { MaskKeeps(m, stages, names, o); }
  }

  /** A text without braces fits over a placeholder only if it is a part of it. */
  lemma {:induction false} BraceFreeFits(o: string, tag: string, suffix: string)
    requires BraceFree(o) && FitsOver(o, Token(tag, suffix))
    ensures Occurs(o, Token(tag, suffix))
  {
    var p := Token(tag, suffix);
    var i :| -|o| < i < |p| && Agrees(o, p, i);
    assert p[0] == '{' && p[|p| - 1] == '}';
    if i < 0 || i + |o| > |p| {
      assert OnEdge(o, p, i);
      EdgeHasBrace(o, p, i);
    } else {
      assert p[i..i + |o|] == o;
      assert OccursAt(p, i, o);
    }
  }

  /** A rule that finds the original everywhere and alone, as a pattern for it would. */
  lemma {:induction false} RuleHides(text: string, find: Finder, names: Naming, o: string)
    requires o != "" && BraceFree(o) && '{' !in text
    requires forall b :: 0 <= b <= |text| && OccursAt(text, b, o) ==> exists c :: c in find(text) && c.from < b + |o| && b < c.to
    requires forall h :: h in Mask(text, [Rule(find)], names).hits ==> !Occurs(o, NameToken(names, h))
    ensures !Occurs(o, Mask(text, [Rule(find)], names).out)
  {
    var stages, m := [Rule(find)], Masked(text, [], true);
    NoPlaceholders(text);
    forall b | 0 <= b <= |text| && OccursAt(text, b, o) ensures TakesAt(Rule(find), text, b, |o|) {
      var c :| c in find(text) && c.from < b + |o| && b < c.to;
      assert Takes(Rule(find), text, c);
    }
    assert FoundFrom(m, stages, names, o);
    forall h | h in Mask(text, stages, names).hits ensures !FitsOver(o, NameToken(names, h)) {
      if FitsOver(o, NameToken(names, h)) { BraceFreeFits(o, names(h).0, names(h).1); }
    }
    MaskHides(text, stages, names, o);
  }

  lemma {:induction false} NoPlaceholders(text: string)
    requires '{' !in text
    ensures StrictSpans(text) == []
  {
    if StrictSpans(text) != [] { SpanEnds(text, 0); }
  }
}
