/**
 What restoring makes of a placeholder that a model has spoilt: white space or another letter
 case inside, braces lost, braces escaped. Whatever its form, the original takes its place, and
 the text around it stays as it is.
 */
module Repairs {
  import opened Wrappers
  import opened Seqs
  import opened Placeholders
  import opened Restore
  import opened Degraded

  // ------------------------------------------------------------------ one pass, one place

  /** At place i of s the pass keeps the character or puts back a match that ends before n. */
  ghost predicate PassAt(s: string, i: nat, n: nat, edit: Editor) {
    i <= |s| && (edit(s[i..]).Put? ==> i + edit(s[i..]).len <= n <= |s| && edit(s[i..]).text == s[i..][..edit(s[i..]).len])
  }

  /** The pass goes over a, with the rest behind it, and leaves it as it is. */
  ghost predicate Passes(a: string, rest: string, edit: Editor) {
    forall i: nat :: i < |a| ==> PassAt(a + rest, i, |a|, edit)
  }

  lemma {:induction false} ScanStep(s: string, i: nat, n: nat, edit: Editor) returns (k: nat)
    requires i < n <= |s| && PassAt(s, i, n, edit)
    ensures i < k <= n && Scan(s[i..], edit) == s[i..k] + Scan(s[k..], edit)
  {
    var t := s[i..];
    assert Fits(edit(t), t);
    var m := if edit(t).Put? then edit(t).len else 1;
    k := i + m;
    DropDrop(s, i, m);
    assert Scan(t, edit) == t[..m] + Scan(t[m..], edit);
  }

  lemma {:induction false} ScanOver(s: string, i: nat, n: nat, edit: Editor)
    requires i <= n <= |s| && forall k: nat :: i <= k < n ==> PassAt(s, k, n, edit)
    ensures Scan(s[i..], edit) == s[i..n] + Scan(s[n..], edit)
    decreases n - i
  {
    if i < n {
      var k := ScanStep(s, i, n, edit);
      ScanOver(s, k, n, edit);
      Assoc(s[i..k], s[k..n], Scan(s[n..], edit));
      assert s[i..n] == s[i..k] + s[k..n];
    }
  }

  lemma {:induction false} PassesOver(a: string, rest: string, edit: Editor)
    requires Passes(a, rest, edit)
    ensures Scan(a + rest, edit) == a + Scan(rest, edit)
  {
    var s := a + rest;
    Whole(s);
    Seam(a, rest);
    ScanOver(s, 0, |a|, edit);
  }

  lemma {:induction false} PassReplaces(a: string, x: string, o: string, b: string, edit: Editor)
    requires Passes(a, x + b, edit) && x != "" && edit(x + b) == Put(|x|, o) && Scan(b, edit) == b
    ensures Scan(a + (x + b), edit) == a + (o + b)
  {
    PassesOver(a, x + b, edit);
    Seam(x, b);
  }

  lemma {:induction false} PassKeeps(a: string, x: string, b: string, edit: Editor)
    requires Passes(a, x + b, edit) && Passes(x, b, edit) && Scan(b, edit) == b
    ensures Scan(a + (x + b), edit) == a + (x + b)
  {
    PassesOver(a, x + b, edit);
    PassesOver(x, b, edit);
  }

  /** None of the three passes changes a or finds anything that reaches from it into the rest. */
  ghost predicate Before(a: string, rest: string, r: Resolver) {
    Passes(a, rest, BracedEditor(r)) && Passes(a, rest, EscapedEditor(r)) && Passes(a, rest, LooseEditor(r))
  }

  /** The three passes one after the other. */
  lemma {:induction false} ThreePasses(text: string, one: string, two: string, out: string, r: Resolver)
    requires '_' in text && Scan(text, BracedEditor(r)) == one
    requires two == if '\\' in one then Scan(one, EscapedEditor(r)) else one
    requires out == if '_' in two then Scan(two, LooseEditor(r)) else two
    ensures RestoreFinal(text, r) == out
  {
  }

  lemma {:induction false} LiveTail(x: string, b: string, r: Resolver)
    requires NothingLive(x + b, r)
    ensures NothingLive(b, r)
  {
    forall j | 0 <= j <= |b| ensures NothingAt(b[j..], r) {
      assert (x + b)[|x| + j..] == b[j..];
      assert NothingAt((x + b)[|x| + j..], r);
    }
  }

  lemma {:induction false} LiveTailIdle(a: string, o: string, b: string, r: Resolver)
    requires NothingLive(a + (o + b), r)
    ensures Scan(b, BracedEditor(r)) == b && Scan(b, EscapedEditor(r)) == b && Scan(b, LooseEditor(r)) == b
  {
    LiveTail(a, o + b, r);
    LiveTail(o, b, r);
    NothingLiveIdle(b, r);
  }

  // ------------------------------------------------------------------- the forms, pass by pass

  lemma {:induction false} HasUnderscore(a: string, f: Form, b: string)
    ensures '_' in a + (Shown(f) + b) && Shown(f) != ""
  {
    NameIn(f);
    InSum('_', Shown(f), b);
    InSum('_', a, Shown(f) + b);
  }

  lemma {:induction false} InSum(c: char, v: string, t: string)
    requires c in v || c in t
    ensures c in v + t
  {
    if c in t {
      var i :| 0 <= i < |t| && t[i] == c;
      assert (v + t)[|v| + i] == c;
    } else {
      var i :| 0 <= i < |v| && v[i] == c;
      assert (v + t)[i] == c;
    }
  }

  lemma {:induction false} NameIn(f: Form)
    ensures '_' in Shown(f)
  {
    var g := f.core;
    assert Name(g)[|g.lab|] == '_';
    InSum('_', Name(g), g.behind + Ending(f, ""));
    InSum('_', g.before, CoreText(f, ""));
    InSum('_', Slashes(f.slashes), g.before + CoreText(f, ""));
    InSum('_', Groups(f.opens, '{'), Inner(f, ""));
  }

  lemma {:induction false} BracedPassesForm(f: Form, b: string, r: Resolver)
    requires GoodForm(f) && Ends(f, b) && !PlainBraces(f, b)
    ensures Passes(Shown(f), b, BracedEditor(r))
  {
    var s := Shown(f) + b;
    ShownText(f, b);
    forall i: nat | i < |Shown(f)| ensures PassAt(s, i, |Shown(f)|, BracedEditor(r)) {
      NoBracedAt(f, b, i, s[i..]);
    }
  }

  lemma {:induction false} BracedTakes(f: Form, b: string, o: string, r: Resolver)
    requires GoodForm(f) && Unescaped(f) && |f.opens| == 2 && |f.closes| == 2
    requires r.Found(Canonicalize(f.core.lab, f.core.suf)) == Some(o)
    ensures BracedEdit(Shown(f) + b, r) == Put(|Shown(f)|, o)
  {
    BracedFormOn(f, b);
    ShownText(f, b);
  }

  /** Double braces with white space inside and in any letter case: the first pass restores them. */
  lemma {:induction false} TolerantBraces(a: string, f: Form, b: string, o: string, r: Resolver)
    requires GoodForm(f) && Unescaped(f) && |f.opens| == 2 && |f.closes| == 2
    requires r.Found(Canonicalize(f.core.lab, f.core.suf)) == Some(o)
    requires Before(a, Shown(f) + b, r) && NothingLive(a + (o + b), r)
    ensures RestoreFinal(a + (Shown(f) + b), r) == a + (o + b)
  {
    var out := a + (o + b);
    HasUnderscore(a, f, b);
    LiveTailIdle(a, o, b, r);
    BracedTakes(f, b, o, r);
    PassReplaces(a, Shown(f), o, b, BracedEditor(r));
    NothingLiveIdle(out, r);
    ThreePasses(a + (Shown(f) + b), out, out, out, r);
  }

  lemma {:induction false} EscapedTakes(f: Form, b: string, o: string, r: Resolver)
    requires GoodForm(f) && Stops(f, b) && f.opens != [] && f.closes != []
    requires o == GetOr(r.Found(Canonicalize(f.core.lab, f.core.suf)), Shown(f))
    ensures EscapedEdit(Shown(f) + b, r) == Put(|Shown(f)|, o)
  {
    EscapedOn(f, b);
    GroupsSize(f.closes, '}');
    Sizes(f, b);
    ShownText(f, b);
    Seam(Shown(f), b);
  }

  /**
   Braces behind backslashes, as inside a JSON string that was escaped once more: up to three
   of each, up to three backslashes everywhere, in any letter case. The second pass restores them.
   */
  lemma {:induction false} EscapedForm(a: string, f: Form, b: string, o: string, r: Resolver)
    requires GoodForm(f) && Stops(f, b) && f.opens != [] && f.closes != [] && !PlainBraces(f, b)
    requires '\\' in a + (Shown(f) + b) && r.Found(Canonicalize(f.core.lab, f.core.suf)) == Some(o)
    requires Before(a, Shown(f) + b, r) && NothingLive(a + (o + b), r)
    ensures RestoreFinal(a + (Shown(f) + b), r) == a + (o + b)
  {
    var text, out := a + (Shown(f) + b), a + (o + b);
    HasUnderscore(a, f, b);
    LiveTailIdle(a, o, b, r);
    BracedPassesForm(f, b, r);
    PassKeeps(a, Shown(f), b, BracedEditor(r));
    EscapedTakes(f, b, o, r);
    PassReplaces(a, Shown(f), o, b, EscapedEditor(r));
    NothingLiveIdle(out, r);
    ThreePasses(text, text, out, out, r);
  }

  // ---------------------------------------------------------------------- lost braces

  /** One or two opening braces and at most two closing ones, but not two of both. */
  ghost predicate LostBraces(f: Form) { Unescaped(f) && |f.opens| + |f.closes| < 4 }

  /** The label and suffix of an issued placeholder. */
  ghost predicate Issued(f: Form) { IsLabel(f.core.lab) && IsSuffix(f.core.suf) }

  /** The text goes on with no brace that the form could take for its own. */
  ghost predicate GoesOn(f: Form, a: string, b: string) {
    Ends(f, b) && (Group(b, '}') == 0 || (|f.closes| == 2 && '\\' !in a + (Shown(f) + b)))
  }

  lemma {:induction false} NoCloserNext(f: Form, a: string, b: string)
    requires GoesOn(f, a, b)
    ensures |f.closes| == 2 || NotFirst(IsCloser, b)
  {
    if b != "" && b[0] == '}' { assert Run(b, IsBackslash, 3) == 0; }
  }

  lemma {:induction false} LostNotPlain(f: Form, b: string)
    requires LostBraces(f) && (|f.closes| == 2 || NotFirst(IsCloser, b))
    ensures !PlainBraces(f, b)
  {
    if |f.opens| == 2 {
      ZeroGroups(f.closes, '}');
      if f.closes == [] { Whole(b); } else { assert Ending(f, b)[1..] == b; }
    }
  }

  lemma {:induction false} IssuedName(f: Form)
    requires Issued(f)
    ensures Canonicalize(f.core.lab, f.core.suf) == Wrap(Name(f.core)) == Token(f.core.lab, f.core.suf)
  {
    CanonicalFixed(f.core.lab, f.core.suf);
    assert Wrap(Name(f.core)) == Token(f.core.lab, f.core.suf);
  }

  lemma {:induction false} EndsNot(f: Form)
    requires GoodForm(f) && LostBraces(f)
    ensures Shown(f) != "" && Shown(f)[0] == '{' && !DoubleBraced(Shown(f))
  {
    var x := Shown(f);
    UnescapedAt(f, "");
    InnerHeads(f, "");
    BeforeRun(x, |f.opens|, f.core.before, CoreText(f, ""));
    if |f.opens| == 2 { LastTwo(f); } else { assert x[..2][1] == x[1]; }
  }

  lemma {:induction false} LastTwo(f: Form)
    requires GoodForm(f) && LostBraces(f) && |f.opens| == 2
    ensures |Shown(f)| >= 2 && Shown(f)[|Shown(f)| - 2] != '}'
  {
    var g, e := Form(f.opens, 0, f.core, []), Groups(f.closes, '}');
    Whole(e);
    assert Text(f, "") == Text(g, e);
    ShownText(g, e);
    ZeroGroups(f.closes, '}');
    ZeroGroups(f.opens, '{');
    InnerLacks(g, '}');
    Lacks('}', Groups(f.opens, '{'), Inner(g, ""));
    Sizes(g, "");
    assert Shown(f)[|Shown(f)| - 2] == Shown(g)[|Shown(f)| - 2];
  }

  lemma {:induction false} LooseTakes(f: Form, b: string, o: string, r: Resolver)
    requires GoodForm(f) && LostBraces(f) && Ends(f, b) && (|f.closes| == 2 || NotFirst(IsCloser, b))
    requires o == GetOr(r.FoundLoose(Wrap(Name(f.core)), true), Shown(f))
    ensures LooseEdit(Shown(f) + b, r) == Put(|Shown(f)|, o)
  {
    LooseFormOn(f, b);
    ShownText(f, b);
    Seam(Shown(f), b);
    EndsNot(f);
    assert (Shown(f) + b)[0] == Shown(f)[0];
  }

  lemma {:induction false} NoGroupAt(s: string, i: nat, n: nat, r: Resolver)
    requires i < |s| && s[i] !in "{\\"
    ensures PassAt(s, i, n, EscapedEditor(r))
  {
    assert s[i..][0] == s[i];
    assert Group(s[i..], '{') == 0;
  }

  lemma {:induction false} OpenChar(f: Form, b: string, i: nat)
    requires GoodForm(f) && Unescaped(f) && f.closes == [] && |f.opens| <= i < |Shown(f)|
    ensures (Shown(f) + b)[i] !in "{\\"
  {
    InnerLacks(f, '{');
    InnerLacks(f, '\\');
    ZeroGroups(f.opens, '{');
    assert Shown(f)[i] == Inner(f, "")[i - |f.opens|];
  }

  lemma {:induction false} OpenFails(f: Form, b: string, t: string)
    requires GoodForm(f) && f.opens != [] && f.closes == [] && Stops(f, b) && t == Text(f, b)
    ensures Escaped(t) == None
  {
    EscapedOn(f, b);
  }

  lemma {:induction false} OpenNotEscaped(f: Form, b: string, i: nat, t: string)
    requires GoodForm(f) && Unescaped(f) && f.closes == [] && Stops(f, b) && i < |f.opens| && i <= |Text(f, b)| && t == Text(f, b)[i..]
    ensures Escaped(t) == None
  {
    if i == 0 {
      Whole(Text(f, b));
      OpenFails(f, b, t);
    } else {
      TextHead(f, b);
      OpenFails(Less(f), b, t);
    }
  }

  lemma {:induction false} NotEscaped(t: string, r: Resolver)
    requires Escaped(t) == None
    ensures EscapedEdit(t, r) == Keep
  {
  }

  lemma {:induction false} OpenPassAt(f: Form, b: string, s: string, i: nat, n: nat, r: Resolver)
    requires GoodForm(f) && Unescaped(f) && f.closes == [] && Stops(f, b) && i < |Shown(f)| && s == Shown(f) + b
    ensures PassAt(s, i, n, EscapedEditor(r))
  {
    ShownText(f, b);
    if i < |f.opens| {
      OpenNotEscaped(f, b, i, s[i..]);
      NotEscaped(s[i..], r);
    } else {
      OpenChar(f, b, i);
      NoGroupAt(s, i, n, r);
    }
  }

  /** Without a closing brace there is nothing to find for the second pass. */
  lemma {:induction false} EscapedPassesOpen(f: Form, b: string, r: Resolver)
    requires GoodForm(f) && Unescaped(f) && f.closes == [] && Stops(f, b)
    ensures Passes(Shown(f), b, EscapedEditor(r))
  {
    forall i: nat | i < |Shown(f)| ensures PassAt(Shown(f) + b, i, |Shown(f)|, EscapedEditor(r)) {
      OpenPassAt(f, b, Shown(f) + b, i, |Shown(f)|, r);
    }
  }

  lemma {:induction false} LostPasses(a: string, f: Form, b: string, r: Resolver)
    requires GoodForm(f) && LostBraces(f) && GoesOn(f, a, b) && Before(a, Shown(f) + b, r) && Scan(b, BracedEditor(r)) == b
    ensures Scan(a + (Shown(f) + b), BracedEditor(r)) == a + (Shown(f) + b)
  {
    NoCloserNext(f, a, b);
    LostNotPlain(f, b);
    BracedPassesForm(f, b, r);
    PassKeeps(a, Shown(f), b, BracedEditor(r));
  }

  /** What the second pass makes of it, if it runs at all: the original if it finds a closing brace. */
  lemma {:induction false} LostEscaped(a: string, f: Form, b: string, o: string, r: Resolver)
    requires GoodForm(f) && LostBraces(f) && Stops(f, b) && Before(a, Shown(f) + b, r) && Scan(b, EscapedEditor(r)) == b
    requires f.closes != [] ==> o == GetOr(r.Found(Canonicalize(f.core.lab, f.core.suf)), Shown(f))
    requires f.closes == [] ==> o == Shown(f)
    ensures Scan(a + (Shown(f) + b), EscapedEditor(r)) == a + (o + b)
  {
    HasUnderscore(a, f, b);
    if f.closes == [] {
      EscapedPassesOpen(f, b, r);
      PassKeeps(a, Shown(f), b, EscapedEditor(r));
    } else {
      EscapedTakes(f, b, o, r);
      PassReplaces(a, Shown(f), o, b, EscapedEditor(r));
    }
  }

  lemma {:induction false} LostLoose(a: string, f: Form, b: string, o: string, r: Resolver)
    requires GoodForm(f) && LostBraces(f) && GoesOn(f, a, b) && Before(a, Shown(f) + b, r) && Scan(b, LooseEditor(r)) == b
    requires o == GetOr(r.FoundLoose(Wrap(Name(f.core)), true), Shown(f))
    ensures Scan(a + (Shown(f) + b), LooseEditor(r)) == a + (o + b)
  {
    HasUnderscore(a, f, b);
    NoCloserNext(f, a, b);
    LooseTakes(f, b, o, r);
    PassReplaces(a, Shown(f), o, b, LooseEditor(r));
  }

  /** An issued placeholder that has lost braces: one or two in front, fewer than four in all. */
  lemma {:induction false} LostBracesRestored(a: string, f: Form, b: string, o: string, r: Resolver)
    requires GoodForm(f) && LostBraces(f) && Issued(f) && GoesOn(f, a, b)
    requires r.Found(Token(f.core.lab, f.core.suf)) == Some(o)
    requires Before(a, Shown(f) + b, r) && NothingLive(a + (o + b), r)
    ensures RestoreFinal(a + (Shown(f) + b), r) == a + (o + b)
  {
    var text, out := a + (Shown(f) + b), a + (o + b);
    HasUnderscore(a, f, b);
    IssuedName(f);
    LiveTailIdle(a, o, b, r);
    LostPasses(a, f, b, r);
    NothingLiveIdle(out, r);
    LostLoose(a, f, b, o, r);
    if '\\' in text {
      var two := if f.closes == [] then text else out;
      LostEscaped(a, f, b, if f.closes == [] then Shown(f) else o, r);
      ThreePasses(text, text, two, out, r);
    } else {
      ThreePasses(text, text, text, out, r);
    }
  }

  /**
   The token is not known, but one live placeholder alone has its suffix: a form that begins with
   a brace becomes what that one stands for.
   */
  lemma {:induction false} LostBracesRescued(a: string, f: Form, b: string, k: string, o: string, r: Resolver)
    requires GoodForm(f) && LostBraces(f) && Issued(f) && GoesOn(f, a, b)
    requires r.lookup(Token(f.core.lab, f.core.suf)) == None && r.rescue(Token(f.core.lab, f.core.suf)) == Some(k) && r.Found(k) == Some(o)
    requires Before(a, Shown(f) + b, r) && NothingLive(a + (o + b), r)
    ensures RestoreFinal(a + (Shown(f) + b), r) == a + (o + b)
  {
    var text, out := a + (Shown(f) + b), a + (o + b);
    HasUnderscore(a, f, b);
    IssuedName(f);
    LiveTailIdle(a, o, b, r);
    LostPasses(a, f, b, r);
    LostLoose(a, f, b, o, r);
    if '\\' in text { LostEscaped(a, f, b, Shown(f), r); }
    ThreePasses(text, text, text, out, r);
  }

  // -------------------------------------------------------------------- no braces left

  function BareName(tag: string, suffix: string): string { tag + ("_" + suffix) }

  lemma {:induction false} BareAt(tag: string, suffix: string, b: string)
    requires IsLabel(tag) && IsSuffix(suffix)
    ensures var x := BareName(tag, suffix); Loose(x + b) == Some(LooseMatch(|x|, x, true)) && (x + b)[0] != '{'
    ensures Wrap(BareName(tag, suffix)) == Token(tag, suffix)
  {
    var g := Core(tag, suffix, "", "");
    NameParts(g, b);
    assert CoreAt(Name(g) + b, g, b);
    LabelHasNone(tag);
    BareOn(Name(g) + b, g, b);
    assert Wrap(Name(g)) == Token(tag, suffix);
  }

  lemma {:induction false} LabelHasNone(tag: string)
    requires IsLabel(tag)
    ensures '_' !in tag && '{' !in tag && '\\' !in tag
  {
    forall i | 0 <= i < |tag| ensures tag[i] !in "_{\\" {}
  }

  lemma {:induction false} BareTakes(tag: string, suffix: string, b: string, o: string, r: Resolver)
    requires IsLabel(tag) && IsSuffix(suffix) && o == GetOr(r.Found(Token(tag, suffix)), BareName(tag, suffix))
    ensures LooseEdit(BareName(tag, suffix) + b, r) == Put(|BareName(tag, suffix)|, o)
  {
    var x := BareName(tag, suffix);
    BareAt(tag, suffix, b);
    Seam(x, b);
    assert x[0] == (x + b)[0];
  }

  lemma {:induction false} SuffixIsCi(suffix: string)
    requires IsSuffix(suffix)
    ensures IsSuffixCi(suffix)
  {
  }

  lemma {:induction false} BarePasses(tag: string, suffix: string, b: string, r: Resolver)
    requires IsLabel(tag) && IsSuffix(suffix)
    ensures Passes(BareName(tag, suffix), b, BracedEditor(r)) && Passes(BareName(tag, suffix), b, EscapedEditor(r))
    ensures '_' in BareName(tag, suffix)
  {
    var x := BareName(tag, suffix);
    LabelHasNone(tag);
    SuffixIsCi(suffix);
    SuffixChars(suffix);
    assert '{' in "_{}\\" && '\\' in "_{}\\";
    Lacks('{', "_", suffix);
    Lacks('{', tag, "_" + suffix);
    Lacks('\\', "_", suffix);
    Lacks('\\', tag, "_" + suffix);
    assert x[|tag|] == '_';
    forall i: nat | i < |x| ensures PassAt(x + b, i, |x|, BracedEditor(r)) && PassAt(x + b, i, |x|, EscapedEditor(r)) {
      assert (x + b)[i] == x[i];
      NoGroupAt(x + b, i, |x|, r);
      NoBracedHere(x + b, i, (x + b)[i..]);
    }
  }

  /** What restoring makes of a placeholder without braces: the original, if its token is known; nothing is guessed. */
  lemma {:induction false} BareForm(a: string, tag: string, suffix: string, b: string, o: string, r: Resolver)
    requires IsLabel(tag) && IsSuffix(suffix) && o == GetOr(r.Found(Token(tag, suffix)), BareName(tag, suffix))
    requires Before(a, BareName(tag, suffix) + b, r) && NothingLive(b, r)
    ensures RestoreFinal(a + (BareName(tag, suffix) + b), r) == a + (o + b)
  {
    var x := BareName(tag, suffix);
    var text := a + (x + b);
    NothingLiveIdle(b, r);
    BarePasses(tag, suffix, b, r);
    InSum('_', x, b);
    InSum('_', a, x + b);
    PassKeeps(a, x, b, BracedEditor(r));
    PassKeeps(a, x, b, EscapedEditor(r));
    BareTakes(tag, suffix, b, o, r);
    PassReplaces(a, x, o, b, LooseEditor(r));
    ThreePasses(text, text, text, a + (o + b), r);
  }

  // ------------------------------------------------------------------ the text in front

  /**
   A text that may stand in front: no opening brace, no live placeholder without braces, and no
   end that could belong to what follows.
   */
  ghost predicate Plain(a: string, rest: string, r: Resolver) {
    && '{' !in a && NoBareHit(a, r)
    && (a != "" ==> a[|a| - 1] != '\\')
    && (a != "" && rest != "" && IsWordCharCi(rest[0]) ==> !IsWordCharCi(a[|a| - 1]))
  }

  lemma {:induction false} PlainBefore(a: string, rest: string, r: Resolver)
    requires Plain(a, rest, r)
    ensures Before(a, rest, r)
  {
    var s := a + rest;
    forall i: nat | i < |a|
      ensures PassAt(s, i, |a|, BracedEditor(r)) && PassAt(s, i, |a|, EscapedEditor(r)) && PassAt(s, i, |a|, LooseEditor(r))
    {
      assert s[i] == a[i];
      NoBracedHere(s, i, s[i..]);
      PlainEscaped(a, rest, i, r);
      PlainLoose(a, rest, i, s[i..], r);
    }
  }

  lemma {:induction false} InRun(s: string, k: nat)
    requires k < Run(s, IsBackslash, 3)
    ensures s[k] == '\\'
  {
    RunAll(s, IsBackslash, 3);
    assert s[..Run(s, IsBackslash, 3)][k] == s[k];
  }

  lemma {:induction false} PlainEscaped(a: string, rest: string, i: nat, r: Resolver)
    requires i < |a| && '{' !in a && a[|a| - 1] != '\\'
    ensures PassAt(a + rest, i, |a|, EscapedEditor(r))
  {
    var s := (a + rest)[i..];
    var n := Run(s, IsBackslash, 3);
    assert s[|a| - 1 - i] == a[|a| - 1];
    if i + n >= |a| { InRun(s, |a| - 1 - i); }
    assert s[n] == a[i + n];
    assert Group(s, '{') == 0;
  }

  lemma {:induction false} LooseIsBare(s: string)
    requires s != "" && s[0] != '{'
    ensures Loose(s) == BareTry(s, AtMost(12, s))
  {
  }

  lemma {:induction false} BarePutBack(s: string, m: LooseMatch, r: Resolver)
    requires s != "" && s[0] != '{' && Loose(s) == Some(m) && m.len <= |s| && r.lookup(Wrap(m.body)).None?
    ensures LooseEdit(s, r) == Put(m.len, s[..m.len])
  {
  }

  lemma {:induction false} NotLoose(s: string, r: Resolver)
    requires Loose(s) == None
    ensures LooseEdit(s, r) == Keep
  {
  }

  lemma {:induction false} PlainLoose(a: string, rest: string, i: nat, s: string, r: Resolver)
    requires i < |a| && Plain(a, rest, r) && s == (a + rest)[i..]
    ensures PassAt(a + rest, i, |a|, LooseEditor(r))
  {
    assert s[0] == a[i];
    var n := AtMost(12, s);
    LooseIsBare(s);
    if BareTry(s, n).None? {
      NotLoose(s, r);
    } else {
      var m := BareTry(s, n).value;
      BareTryShape(s, n);
      BareStays(a, rest, i, m.len - 7, r);
      BarePutBack(s, m, r);
    }
  }

  lemma {:induction false} BareChar(s: string, n: nat, j: nat)
    requires LabelSuffix(s, n, IsLabelChar) && j < n + 7
    ensures IsWordCharCi(s[j])
  {
    if j < n { assert s[j] == s[..n][j]; }
    if j > n { assert s[j] == s[n + 1..n + 7][j - n - 1]; SuffixWord(s[j]); }
  }

  lemma {:induction false} SuffixWord(c: char)
    requires IsHexCi(c) || IsConsonantCi(c)
    ensures IsWordCharCi(c)
  {
  }

  lemma {:induction false} BareInside(a: string, rest: string, i: nat, n: nat, r: Resolver)
    requires i < |a| && Plain(a, rest, r) && LabelSuffix((a + rest)[i..], n, IsLabelChar)
    ensures i + n + 7 <= |a|
  {
    var s := (a + rest)[i..];
    if i + n + 7 > |a| {
      assert s[|a| - 1 - i] == a[|a| - 1] && s[|a| - i] == rest[0];
      BareChar(s, n, |a| - i);
      BareChar(s, n, |a| - 1 - i);
    }
  }

  lemma {:induction false} BareStays(a: string, rest: string, i: nat, n: nat, r: Resolver)
    requires i < |a| && Plain(a, rest, r) && 1 <= n <= 12 && LabelSuffix((a + rest)[i..], n, IsLabelChar)
    ensures i + n + 7 <= |a| && r.lookup(Wrap((a + rest)[i..][..n + 7])).None?
  {
    var s, t := (a + rest)[i..], a[i..];
    BareInside(a, rest, i, n, r);
    assert t[..n + 7] == s[..n + 7];
    SameLabelSuffix(s, t, n);
  }

  /** Around a form there may be any text without underscores that does not end, in front of it, in its like. */
  lemma {:induction false} PlainText(a: string, rest: string, o: string, b: string, r: Resolver)
    requires '_' !in a + (o + b) && '{' !in a && (a != "" ==> a[|a| - 1] != '\\' && !IsWordCharCi(a[|a| - 1]))
    ensures Before(a, rest, r) && NothingLive(a + (o + b), r)
  {
    SparseNotLive(a + (o + b), r);
    assert forall i :: 0 <= i < |a| ==> a[i] == (a + (o + b))[i];
    NoUnderscoreNoBare(a, r);
    PlainBefore(a, rest, r);
  }
}
