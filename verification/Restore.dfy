/**
 The three restore passes of src/mask/engine.rs, as loops proved against a scan
 function, and the theorem that on text made of canonical placeholders and
 brace-free characters they compute exactly "each placeholder replaced by its
 original".
 */
module Restore {
  import opened Wrappers
  import opened Seqs
  import opened Placeholders
  import opened Codec

  /** A session's lookup (`lookup_with_db`), suffix rescue, and the escape flag of the slot. */
  datatype Resolver = Resolver(lookup: string -> Option<string>, rescue: string -> Option<string>, escape: bool)
  {
    /** apply_escape of what the token stands for. */
    function Found(token: string): Option<string> {
      match lookup(token)
      case Some(o) => Some(if escape then JsonEscape(o) else o)
      case None => None
    }

    /** The loose pass also tries the suffix index, but only for a match that begins with a brace. */
    function FoundLoose(token: string, braced: bool): Option<string> {
      if lookup(token).Some? || !braced then Found(token)
      else
        match rescue(token)
        case Some(target) => Found(target)
        case None => None
    }
  }

  function GetOr(o: Option<string>, d: string): string { if o.Some? then o.value else d }

  // --------------------------------------------------------------------- passes

  /** What a pass does at one position: nothing, or put `text` in place of `len` characters. */
  datatype Edit = Keep | Put(len: nat, text: string)

  predicate Fits(e: Edit, s: string) { e.Put? ==> 0 < e.len <= |s| }

  type Editor = f: string -> Edit | forall s :: Fits(f(s), s) witness (_ => Keep)

  /** `captures_iter` and the splice around it: leftmost matches, none overlapping. */
  function Scan(s: string, edit: Editor): string
    decreases |s|
  {
    if s == [] then []
    else
      assert Fits(edit(s), s);
      match edit(s)
      case Put(n, t) => t + Scan(s[n..], edit)
      case Keep => [s[0]] + Scan(s[1..], edit)
  }

  /** The loop all three passes share. */
  method RestorePass(text: string, edit: Editor) returns (out: string)
    ensures out == Scan(text, edit)
  {
    out := "";
    var last, i := 0, 0;
    ghost var rest := text;
    while i < |text|
      invariant 0 <= last <= i <= |text| && rest == text[i..]
      invariant Scan(text, edit) == out + text[last..i] + Scan(rest, edit)
    {
      var e := edit(text[i..]);
      assert Fits(edit(rest), rest);
      if e.Keep? {
        ScanKeep(out, text, last, i, rest, edit);
        rest := rest[1..];
        i := i + 1;
      } else {
        DropDrop(text, i, e.len);
        Assoc(out + text[last..i], e.text, Scan(rest[e.len..], edit));
        out := out + text[last..i] + e.text;
        rest := rest[e.len..];
        i := i + e.len;
        last := i;
      }
    }
    out := out + text[last..];
  }

  /** A character that stays joins the stretch not yet copied. */
  lemma {:induction false} ScanKeep(out: string, text: string, last: nat, i: nat, rest: string, edit: Editor)
    requires last <= i < |text| && rest == text[i..] && edit(rest) == Keep
    ensures rest[1..] == text[i + 1..]
    ensures out + text[last..i] + Scan(rest, edit) == out + text[last..i + 1] + Scan(rest[1..], edit)
  {
    assert text[last..i + 1] == text[last..i] + [rest[0]];
    Assoc(text[last..i], [rest[0]], Scan(rest[1..], edit));
    Assoc(out, text[last..i], [rest[0]] + Scan(rest[1..], edit));
    Assoc(out, text[last..i + 1], Scan(rest[1..], edit));
  }

  function BracedEdit(s: string, r: Resolver): (e: Edit)
    ensures Fits(e, s)
  {
    match Braced(s)
    case Some(m) => Put(m.len, GetOr(r.Found(Canonicalize(m.tag, m.suffix)), s[..m.len]))
    case None => Keep
  }

  function EscapedEdit(s: string, r: Resolver): (e: Edit)
    ensures Fits(e, s)
  {
    match Escaped(s)
    case Some(m) => Put(m.len, GetOr(r.Found(Canonicalize(m.tag, m.suffix)), s[..m.len]))
    case None => Keep
  }

  predicate DoubleBraced(whole: string) {
    && |whole| >= 2 && whole[..2] == "{{" && whole[|whole| - 2..] == "}}"
  }

  /** The loose pass passes over what the first pass has dealt with. */
  function LooseEdit(s: string, r: Resolver): (e: Edit)
    ensures Fits(e, s)
  {
    match Loose(s)
    case Some(m) =>
      var whole := s[..m.len];
      Put(m.len,
          if DoubleBraced(whole) then whole
          else GetOr(r.FoundLoose(Wrap(m.body), s[0] == '{'), whole))
    case None => Keep
  }

  function BracedEditor(r: Resolver): Editor { s => BracedEdit(s, r) }
  function EscapedEditor(r: Resolver): Editor { s => EscapedEdit(s, r) }
  function LooseEditor(r: Resolver): Editor { s => LooseEdit(s, r) }

  /** restore_final with blob skipping off, for a session that exists. */
  function RestoreFinal(text: string, r: Resolver): string {
    if '_' !in text && '{' !in text then text
    else
      var one := Scan(text, BracedEditor(r));
      var two := if '\\' in one then Scan(one, EscapedEditor(r)) else one;
      if '_' in two then Scan(two, LooseEditor(r)) else two
  }

  method RestoreText(text: string, r: Resolver) returns (out: string)
    ensures out == RestoreFinal(text, r)
  {
    if '_' !in text && '{' !in text {
      return text;
    }
    out := RestorePass(text, BracedEditor(r));
    if '\\' in out {
      out := RestorePass(out, EscapedEditor(r));
    }
    if '_' in out {
      out := RestorePass(out, LooseEditor(r));
    }
  }

  // --------------------------------------------------------------------- pieces

  /** Text as the upstream model writes it: single characters and canonical placeholders. */
  datatype Piece = Plain(c: char) | Tok(tag: string, suffix: string)

  ghost predicate ValidPiece(p: Piece) {
    match p
    case Plain(c) => c != '{' && c != '}'
    case Tok(tag, suffix) => IsLabel(tag) && IsSuffix(suffix)
  }

  ghost predicate Valid(ps: seq<Piece>) { forall i :: 0 <= i < |ps| ==> ValidPiece(ps[i]) }

  function RenderOne(p: Piece): (s: string)
    ensures s != []
  {
    match p
    case Plain(c) => [c]
    case Tok(tag, suffix) => Token(tag, suffix)
  }

  function Render(ps: seq<Piece>): string {
    if ps == [] then [] else RenderOne(ps[0]) + Render(ps[1..])
  }

  function ExpandOne(p: Piece, r: Resolver): string {
    match p
    case Plain(c) => [c]
    case Tok(tag, suffix) => GetOr(r.Found(Token(tag, suffix)), Token(tag, suffix))
  }

  /** Every placeholder replaced by what it stands for, where it stands for something. */
  function Expand(ps: seq<Piece>, r: Resolver): string {
    if ps == [] then [] else ExpandOne(ps[0], r) + Expand(ps[1..], r)
  }

  function Plains(s: string): (ps: seq<Piece>)
    ensures |ps| == |s| && forall i :: 0 <= i < |s| ==> ps[i] == Plain(s[i])
  {
    seq(|s|, i requires 0 <= i < |s| => Plain(s[i]))
  }

  /** The text after the first pass, again as pieces: only unresolved placeholders are left. */
  function Residue(ps: seq<Piece>, r: Resolver): seq<Piece> {
    if ps == [] then [] else ResidueOne(ps[0], r) + Residue(ps[1..], r)
  }

  function ResidueOne(p: Piece, r: Resolver): seq<Piece> {
    match p
    case Plain(_) => [p]
    case Tok(tag, suffix) =>
      match r.Found(Token(tag, suffix))
      case Some(o) => Plains(o)
      case None => [p]
  }

  /** The pieces with each placeholder blotted out by a brace. */
  function Visible(ps: seq<Piece>): string {
    if ps == [] then []
    else [if ps[0].Plain? then ps[0].c else '{'] + Visible(ps[1..])
  }

  /** The originals the pieces bring in contain no brace (once escaped for their slot). */
  ghost predicate CleanOriginals(ps: seq<Piece>, r: Resolver) {
    forall i :: 0 <= i < |ps| && ps[i].Tok? ==>
      var o := r.Found(Token(ps[i].tag, ps[i].suffix)); o.Some? ==> BraceFree(o.value)
  }

  /** No `LABEL_suffix` without braces in x names a live placeholder. */
  ghost predicate NoBareHit(x: string, r: Resolver) {
    forall i, n :: 0 <= i <= |x| && 1 <= n <= 12 && LabelSuffix(x[i..], n, IsLabelChar) ==>
      r.lookup(Wrap(x[i..][..n + 7])).None?
  }

  /** The condition under which restoring is replacing: originals without braces, no live bare form. */
  ghost predicate Restorable(ps: seq<Piece>, r: Resolver) {
    Valid(ps) && CleanOriginals(ps, r) && NoBareHit(Visible(Residue(ps, r)), r)
  }

  // ------------------------------------------------------------- concatenation

  lemma {:induction false} ValidDrop(ps: seq<Piece>, k: nat)
    requires k <= |ps| && Valid(ps)
    ensures Valid(ps[k..])
  {
    forall i | 0 <= i < |ps[k..]| ensures ValidPiece(ps[k..][i]) {
      assert ps[k..][i] == ps[k + i];
    }
  }

  lemma {:induction false} RenderConcat(a: seq<Piece>, b: seq<Piece>)
    ensures Render(a + b) == Render(a) + Render(b)
  {
    if a == [] { assert a + b == b; }
    else { assert (a + b)[1..] == a[1..] + b; RenderConcat(a[1..], b); }
  }

  lemma {:induction false} ExpandConcat(a: seq<Piece>, b: seq<Piece>, r: Resolver)
    ensures Expand(a + b, r) == Expand(a, r) + Expand(b, r)
  {
    if a == [] { assert a + b == b; }
    else { assert (a + b)[1..] == a[1..] + b; ExpandConcat(a[1..], b, r); }
  }

  lemma {:induction false} VisibleConcat(a: seq<Piece>, b: seq<Piece>)
    ensures Visible(a + b) == Visible(a) + Visible(b)
  {
    if a == [] { assert a + b == b; }
    else { assert (a + b)[1..] == a[1..] + b; VisibleConcat(a[1..], b); }
  }

  lemma {:induction false} ResidueConcat(a: seq<Piece>, b: seq<Piece>, r: Resolver)
    ensures Residue(a + b, r) == Residue(a, r) + Residue(b, r)
  {
    if a == [] { assert a + b == b; }
    else {
      assert (a + b)[0] == a[0] && (a + b)[1..] == a[1..] + b;
      ResidueConcat(a[1..], b, r);
      Assoc(ResidueOne(a[0], r), Residue(a[1..], r), Residue(b, r));
    }
  }

  lemma {:induction false} NoBareHitParts(a: string, b: string, r: Resolver)
    requires NoBareHit(a + b, r)
    ensures NoBareHit(a, r) && NoBareHit(b, r)
  {
    var x := a + b;
    forall i, n | 0 <= i <= |a| && 1 <= n <= 12 && LabelSuffix(a[i..], n, IsLabelChar)
      ensures r.lookup(Wrap(a[i..][..n + 7])).None?
    {
      assert x[i..][..n + 7] == a[i..][..n + 7];
      assert x[i..][..n] == a[i..][..n] && x[i..][n + 1..n + 7] == a[i..][n + 1..n + 7];
      assert LabelSuffix(x[i..], n, IsLabelChar);
    }
    forall i, n | 0 <= i <= |b| && 1 <= n <= 12 && LabelSuffix(b[i..], n, IsLabelChar)
      ensures r.lookup(Wrap(b[i..][..n + 7])).None?
    {
      assert x[|a| + i..] == b[i..];
    }
  }

  /** The condition passes to both halves of a text cut between pieces. */
  lemma {:induction false} RestorableParts(a: seq<Piece>, b: seq<Piece>, r: Resolver)
    requires Restorable(a + b, r)
    ensures Restorable(a, r) && Restorable(b, r)
  {
    forall i | 0 <= i < |a| ensures (a + b)[i] == a[i] {}
    forall i | 0 <= i < |b| ensures (a + b)[|a| + i] == b[i] {}
    ResidueConcat(a, b, r);
    VisibleConcat(Residue(a, r), Residue(b, r));
    NoBareHitParts(Visible(Residue(a, r)), Visible(Residue(b, r)), r);
  }

  // ------------------------------------------------------------ the three passes

  lemma {:induction false} RenderPlains(s: string)
    ensures Render(Plains(s)) == s
  {
    if s != [] {
      assert Plains(s)[1..] == Plains(s[1..]);
      RenderPlains(s[1..]);
    }
  }

  lemma {:induction false} RenderResidue(ps: seq<Piece>, r: Resolver)
    ensures Render(Residue(ps, r)) == Expand(ps, r)
  {
    if ps != [] {
      RenderResidue(ps[1..], r);
      match ps[0]
      case Plain(_) => RenderConcat([ps[0]], Residue(ps[1..], r));
      case Tok(tag, suffix) =>
        match r.Found(Token(tag, suffix))
        case Some(o) => RenderConcat(Plains(o), Residue(ps[1..], r)); RenderPlains(o);
        case None => RenderConcat([ps[0]], Residue(ps[1..], r));
    }
  }

  /** Valid pieces whose placeholders all stand for nothing. */
  ghost predicate Unresolved(qs: seq<Piece>, r: Resolver) {
    && Valid(qs)
    && forall i :: 0 <= i < |qs| && qs[i].Tok? ==> r.Found(Token(qs[i].tag, qs[i].suffix)).None?
  }

  lemma {:induction false} ResidueUnresolved(ps: seq<Piece>, r: Resolver)
    requires Valid(ps) && CleanOriginals(ps, r)
    ensures Unresolved(Residue(ps, r), r)
  {
    if ps != [] {
      assert ValidPiece(ps[0]);
      forall i | 0 <= i < |ps| - 1 ensures ps[1..][i] == ps[i + 1] {}
      ResidueUnresolved(ps[1..], r);
    }
  }

  lemma {:induction false} BracedPassRendered(ps: seq<Piece>, r: Resolver)
    requires Valid(ps)
    ensures Scan(Render(ps), BracedEditor(r)) == Expand(ps, r)
    decreases |ps|
  {
    if ps != [] {
      var rest := Render(ps[1..]);
      assert ValidPiece(ps[0]);
      BracedPassRendered(ps[1..], r);
      match ps[0]
      case Plain(c) => assert Render(ps)[1..] == rest;
      case Tok(tag, suffix) =>
        TokenIsAt(tag, suffix, rest);
        BracedToken(Render(ps), tag, suffix);
        CanonicalFixed(tag, suffix);
    }
  }

  /** A piece that begins with something else than a brace is a plain one, and the text goes on behind it. */
  lemma {:induction false} PlainFirst(qs: seq<Piece>, k: nat)
    requires 0 < k <= |Render(qs)| && '{' !in Render(qs)[..k]
    ensures qs != [] && qs[0].Plain? && Render(qs) == [qs[0].c] + Render(qs[1..])
    ensures Render(qs[1..]) == Render(qs)[1..] && Render(qs[1..])[..k - 1] == Render(qs)[..k][1..]
  {
    var whole := Render(qs);
    assert whole == RenderOne(qs[0]) + Render(qs[1..]);
    assert whole[..k][0] == whole[0];
    assert qs[0].Plain?;
    assert whole[1..] == Render(qs[1..]);
  }

  lemma {:induction false} PlainAfter(qs: seq<Piece>, k: nat)
    requires 0 < k <= |qs| && qs[0].Plain?
    ensures Render(qs[..k]) == [qs[0].c] + Render(qs[1..][..k - 1]) && qs[k..] == qs[1..][k - 1..]
    ensures Visible(qs) == [qs[0].c] + Visible(qs[1..])
  {
    assert qs[..k][1..] == qs[1..][..k - 1];
  }

  /** Brace-free text at the head of a rendering is that many plain pieces. */
  lemma {:induction false} PlainHead(qs: seq<Piece>, k: nat)
    requires k <= |Render(qs)| && '{' !in Render(qs)[..k]
    ensures k <= |qs| && (forall i :: 0 <= i < k ==> qs[i].Plain?)
    ensures Render(qs[..k]) == Render(qs)[..k]
    ensures Render(qs[k..]) == Render(qs)[k..]
    ensures k <= |Visible(qs)| && Visible(qs)[..k] == Render(qs)[..k]
  {
    if k > 0 {
      var t := qs[1..];
      PlainFirst(qs, k);
      PlainHead(t, k - 1);
      PlainAfter(qs, k);
      forall i | 0 < i < k ensures qs[i].Plain? { assert t[i - 1] == qs[i]; }
      TakeBehind([qs[0].c], Render(t), k);
      TakeBehind([qs[0].c], Visible(t), k);
      DropDrop(Render(qs), 1, k - 1);
    }
  }

  /** In brace-balanced residue, no closing group can follow a placeholder. */
  lemma {:induction false} NoCloser(qs: seq<Piece>)
    requires Valid(qs)
    ensures Group(Render(qs), '}') == 0
  {
    var s := Render(qs);
    var b := Run(s, IsBackslash, 3);
    if b < |s| && s[b] == '}' {
      RunAll(s, IsBackslash, 3);
      assert '{' !in s[..b];
      PlainHead(qs, b);
    }
  }

  /** Backslashes and an opening brace at the head of residue text: a placeholder follows the backslashes. */
  lemma {:induction false} TokenAfterBackslashes(qs: seq<Piece>) returns (j: nat)
    requires Valid(qs) && Group(Render(qs), '{') > 0
    ensures j < |qs| && j + 1 == Group(Render(qs), '{') && qs[j].Tok?
    ensures Render(qs)[j..] == Token(qs[j].tag, qs[j].suffix) + Render(qs[j + 1..])
  {
    var s := Render(qs);
    j := Group(s, '{') - 1;
    RunAll(s, IsBackslash, 3);
    assert '{' !in s[..j];
    PlainHead(qs, j);
    assert j < |qs|;
    assert qs[j..][0] == qs[j] && qs[j..][1..] == qs[j + 1..];
    assert ValidPiece(qs[j]) && s[j..][0] == '{';
  }

  /** The edit leaves the text as it is and goes on with `rest`. */
  ghost predicate Idle(e: Edit, s: string, rest: string) {
    if e.Keep? then s != [] && rest == s[1..]
    else 0 < e.len <= |s| && e.text == s[..e.len] && rest == s[e.len..]
  }

  /** An escaped match at backslashes and a placeholder is exactly those; unresolved, it is put back. */
  lemma {:induction false} EscapedKeeps(s: string, j: nat, tag: string, suffix: string, rest: string, r: Resolver)
    requires IsLabel(tag) && IsSuffix(suffix) && Group(rest, '}') == 0 && r.Found(Token(tag, suffix)).None?
    requires j <= |s| && s[j..] == Token(tag, suffix) + rest && Group(s, '{') == j + 1
    ensures Idle(EscapedEdit(s, r), s, rest)
  {
    TokenHead(tag, suffix, rest);
    EscapedToken(s, Token(tag, suffix) + rest, j, |tag| + 9, tag, suffix);
    CanonicalFixed(tag, suffix);
    AfterToken(s, j, tag, suffix, rest);
  }

  lemma {:induction false} AfterToken(s: string, j: nat, tag: string, suffix: string, rest: string)
    requires j <= |s| && |suffix| == 6 && s[j..] == Token(tag, suffix) + rest
    ensures j + |tag| + 11 <= |s| && rest == s[j + |tag| + 11..]
  {
    DropDrop(s, j, |tag| + 11);
  }

  lemma {:induction false} EscapedMiss(s: string, r: Resolver)
    requires s != [] && Group(s, '{') == 0
    ensures EscapedEdit(s, r) == Keep
  {
  }

  /** The escaped pass takes nothing apart: it keeps a character or puts a stretch of pieces back as it was. */
  lemma {:induction false} EscapedStep(qs: seq<Piece>, r: Resolver) returns (k: nat)
    requires Unresolved(qs, r) && qs != []
    ensures 0 < k <= |qs|
    ensures Idle(EscapedEdit(Render(qs), r), Render(qs), Render(qs[k..]))
  {
    var s := Render(qs);
    if Group(s, '{') > 0 {
      var j := TokenAfterBackslashes(qs);
      k := j + 1;
      assert ValidPiece(qs[j]);
      ValidDrop(qs, k);
      NoCloser(qs[k..]);
      EscapedKeeps(s, j, qs[j].tag, qs[j].suffix, Render(qs[k..]), r);
    } else {
      k := 1;
      assert ValidPiece(qs[0]);
      assert s == RenderOne(qs[0]) + Render(qs[1..]);
      assert Group(s, '{') == 0 ==> s[0] != '{';
      EscapedMiss(s, r);
    }
  }

  lemma {:induction false} UnresolvedDrop(qs: seq<Piece>, k: nat, r: Resolver)
    requires k <= |qs| && Unresolved(qs, r)
    ensures Unresolved(qs[k..], r)
  {
    ValidDrop(qs, k);
  }

  lemma {:induction false} EscapedIdle(s: string, rest: string, r: Resolver)
    requires Idle(EscapedEdit(s, r), s, rest) && Scan(rest, EscapedEditor(r)) == rest
    ensures Scan(s, EscapedEditor(r)) == s
  {
    IdleStep(s, rest, EscapedEditor(r));
  }

  lemma {:induction false} EscapedPassIdle(qs: seq<Piece>, r: Resolver)
    requires Unresolved(qs, r)
    ensures Scan(Render(qs), EscapedEditor(r)) == Render(qs)
    decreases |qs|
  {
    if qs != [] {
      var k := EscapedStep(qs, r);
      UnresolvedDrop(qs, k, r);
      EscapedPassIdle(qs[k..], r);
      EscapedIdle(Render(qs), Render(qs[k..]), r);
    }
  }

  /** One idle step of a scan, given that the rest of the scan is idle. */
  lemma {:induction false} IdleStep(s: string, rest: string, edit: Editor)
    requires Idle(edit(s), s, rest) && Scan(rest, edit) == rest
    ensures Scan(s, edit) == s
  {
    assert s == s[..|s| - |rest|] + rest;
  }

  lemma {:induction false} BareTryShape(s: string, n: nat)
    requires BareTry(s, n).Some?
    ensures var m := BareTry(s, n).value;
            && m.bare && 8 <= m.len <= n + 7 && m.len <= |s| && m.body == s[..m.len]
            && LabelSuffix(s, m.len - 7, IsLabelChar)
  {
    if !LabelSuffix(s, n, IsLabelChar) { BareTryShape(s, n - 1); }
  }

  /** A bare match lies in plain pieces. */
  lemma {:induction false} BareBraceFree(s: string, n: nat)
    requires LabelSuffix(s, n, IsLabelChar)
    ensures '{' !in s[..n + 7]
  {
    assert s[..n + 7] == s[..n] + [s[n]] + s[n + 1..n + 7];
  }

  lemma {:induction false} SameLabelSuffix(s: string, v: string, n: nat)
    requires LabelSuffix(s, n, IsLabelChar) && n + 7 <= |v| && v[..n + 7] == s[..n + 7]
    ensures LabelSuffix(v, n, IsLabelChar) && v[..n + 7] == s[..n + 7]
  {
    SameSlice(s, v, n + 7, 0, n);
    SameElement(s, v, n + 7, n);
    SameSlice(s, v, n + 7, n + 1, n + 7);
  }

  lemma {:induction false} NoBareHitHead(v: string, n: nat, r: Resolver)
    requires NoBareHit(v, r) && 1 <= n <= 12 && LabelSuffix(v, n, IsLabelChar)
    ensures r.lookup(Wrap(v[..n + 7])).None?
  {
    assert v[0..] == v;
    assert LabelSuffix(v[0..], n, IsLabelChar);
  }

  lemma {:induction false} NoBareHitDrop(qs: seq<Piece>, k: nat, r: Resolver)
    requires k <= |qs| && NoBareHit(Visible(qs), r)
    ensures NoBareHit(Visible(qs[k..]), r)
  {
    VisibleConcat(qs[..k], qs[k..]);
    Halves(qs, k);
    NoBareHitParts(Visible(qs[..k]), Visible(qs[k..]), r);
  }

  /** A bare match at the head of residue text names no live placeholder and ends between pieces. */
  lemma {:induction false} BareAtResidue(qs: seq<Piece>, r: Resolver) returns (k: nat)
    requires NoBareHit(Visible(qs), r)
    requires BareTry(Render(qs), AtMost(12, Render(qs))).Some?
    ensures var m := BareTry(Render(qs), AtMost(12, Render(qs))).value;
            k == m.len && r.lookup(Wrap(m.body)).None?
    ensures 0 < k <= |qs| && k <= |Render(qs)|
    ensures Render(qs[k..]) == Render(qs)[k..] && NoBareHit(Visible(qs[k..]), r)
  {
    var s, v := Render(qs), Visible(qs);
    var m := BareTry(s, AtMost(12, s)).value;
    BareTryShape(s, AtMost(12, s));
    k := m.len;
    BareBraceFree(s, k - 7);
    PlainHead(qs, k);
    SameLabelSuffix(s, v, k - 7);
    NoBareHitHead(v, k - 7, r);
    NoBareHitDrop(qs, k, r);
  }

  /** The loose pass passes over an unresolved placeholder. */
  lemma {:induction false} LooseKeepsToken(tag: string, suffix: string, rest: string, r: Resolver)
    requires IsLabel(tag) && IsSuffix(suffix)
    ensures LooseEdit(Token(tag, suffix) + rest, r) == Put(|tag| + 11, Token(tag, suffix))
  {
    TokenIsAt(tag, suffix, rest);
    LooseToken(Token(tag, suffix) + rest, tag, suffix);
    assert DoubleBraced(Token(tag, suffix));
  }

  lemma {:induction false} LooseStep(qs: seq<Piece>, r: Resolver) returns (k: nat)
    requires Unresolved(qs, r) && NoBareHit(Visible(qs), r) && qs != []
    ensures 0 < k <= |qs| && NoBareHit(Visible(qs[k..]), r)
    ensures Idle(LooseEdit(Render(qs), r), Render(qs), Render(qs[k..]))
  {
    var s := Render(qs);
    assert ValidPiece(qs[0]);
    if qs[0].Plain? && BareTry(s, AtMost(12, s)).Some? {
      k := BareAtResidue(qs, r);
      assert s[0] != '{';
    } else {
      k := 1;
      assert Visible(qs) == Visible(qs)[..1] + Visible(qs[1..]);
      NoBareHitParts(Visible(qs)[..1], Visible(qs[1..]), r);
      if qs[0].Tok? {
        TokenIsAt(qs[0].tag, qs[0].suffix, Render(qs[1..]));
        LooseKeepsToken(qs[0].tag, qs[0].suffix, Render(qs[1..]), r);
      }
    }
  }

  lemma {:induction false} LoosePassIdle(qs: seq<Piece>, r: Resolver)
    requires Unresolved(qs, r) && NoBareHit(Visible(qs), r)
    ensures Scan(Render(qs), LooseEditor(r)) == Render(qs)
    decreases |qs|
  {
    if qs != [] {
      var k := LooseStep(qs, r);
      LoosePassIdle(qs[k..], r);
      IdleStep(Render(qs), Render(qs[k..]), LooseEditor(r));
    }
  }

  lemma {:induction false} PlainHeadAll(ps: seq<Piece>)
    requires '{' !in Render(ps)
    ensures forall i :: 0 <= i < |ps| ==> ps[i].Plain?
  {
    var s := Render(ps);
    assert s[..|s|] == s;
    PlainHead(ps, |s|);
  }

  lemma {:induction false} ExpandPlain(ps: seq<Piece>, r: Resolver)
    requires forall i :: 0 <= i < |ps| ==> ps[i].Plain?
    ensures Expand(ps, r) == Render(ps)
  {
    if ps != [] { ExpandPlain(ps[1..], r); }
  }

  /**
   Restoring is replacing: on brace-free characters and canonical placeholders the
   three passes put each original in place and touch nothing else.
   */
  lemma {:induction false} RestoreRendered(ps: seq<Piece>, r: Resolver)
    requires Restorable(ps, r)
    ensures RestoreFinal(Render(ps), r) == Expand(ps, r)
  {
    if '{' !in Render(ps) {
      PlainHeadAll(ps);
      ExpandPlain(ps, r);
    }
    var qs := Residue(ps, r);
    BracedPassRendered(ps, r);
    RenderResidue(ps, r);
    ResidueUnresolved(ps, r);
    EscapedPassIdle(qs, r);
    LoosePassIdle(qs, r);
  }

  lemma {:induction false} ResidueOfUnresolved(qs: seq<Piece>, r: Resolver)
    requires Unresolved(qs, r)
    ensures Residue(qs, r) == qs && Expand(qs, r) == Render(qs)
  {
    if qs != [] {
      UnresolvedDrop(qs, 1, r);
      ResidueOfUnresolved(qs[1..], r);
      assert qs == [qs[0]] + qs[1..];
    }
  }

  /** What is restored once is restored for good: another pass, escaped or not, changes nothing. */
  lemma {:induction false} RestoredIsStill(ps: seq<Piece>, r: Resolver, escape: bool)
    requires Restorable(ps, r)
    ensures var out := RestoreFinal(Render(ps), r);
            RestoreFinal(out, Resolver(r.lookup, r.rescue, escape)) == out
  {
    var qs, again := Residue(ps, r), Resolver(r.lookup, r.rescue, escape);
    RestoreRendered(ps, r);
    RenderResidue(ps, r);
    ResidueUnresolved(ps, r);
    forall i | 0 <= i < |qs| && qs[i].Tok? ensures again.Found(Token(qs[i].tag, qs[i].suffix)).None? {
      assert r.Found(Token(qs[i].tag, qs[i].suffix)).None?;
    }
    ResidueOfUnresolved(qs, again);
    SameBareHits(Visible(qs), r, again);
    RestoreRendered(qs, again);
  }

  lemma {:induction false} SameBareHits(x: string, r: Resolver, again: Resolver)
    requires NoBareHit(x, r) && again.lookup == r.lookup
    ensures NoBareHit(x, again)
  {
  }

  // ------------------------------------------------------------------- nothing live

  /** At no place of the text does any of the three patterns find a placeholder that stands for something. */
  ghost predicate NothingLive(text: string, r: Resolver) {
    forall j :: 0 <= j <= |text| ==> NothingAt(text[j..], r)
  }

  ghost predicate NothingAt(s: string, r: Resolver) {
    && (Braced(s).Some? ==> r.Found(Canonicalize(Braced(s).value.tag, Braced(s).value.suffix)).None?)
    && (Escaped(s).Some? ==> r.Found(Canonicalize(Escaped(s).value.tag, Escaped(s).value.suffix)).None?)
    && (Loose(s).Some? ==>
          DoubleBraced(s[..Loose(s).value.len]) || r.FoundLoose(Wrap(Loose(s).value.body), s[0] == '{').None?)
  }

  /** No underscore has room for a suffix behind it. */
  predicate Sparse(s: string) { forall i :: 0 <= i < |s| && s[i] == '_' ==> |s| < i + 7 }

  lemma {:induction false} SparseDrop(s: string, k: nat)
    requires Sparse(s) && k <= |s|
    ensures Sparse(s[k..])
  {
    forall i | 0 <= i < |s[k..]| && s[k..][i] == '_' ensures |s[k..]| < i + 7 { assert s[k + i] == '_'; }
  }

  lemma {:induction false} SparseTry(s: string, n: nat)
    requires Sparse(s)
    ensures BracedTry(s, n).None? && EscapedTry(s, n).None? && LooseTry(s, n).None? && BareTry(s, n).None?
  {
    if n > 0 { SparseTry(s, n - 1); }
  }

  lemma {:induction false} SparseTryAt(s: string, p: nat)
    requires Sparse(s) && p <= |s|
    ensures var t := s[p..]; var n := AtMost(12, t); BracedTry(t, n).None? && EscapedTry(t, n).None? && LooseTry(t, n).None?
  {
    SparseDrop(s, p);
    SparseTry(s[p..], AtMost(12, s[p..]));
  }

  lemma {:induction false} SparseBraced(s: string)
    requires Sparse(s)
    ensures Braced(s).None?
  {
    if |s| >= 2 && s[0] == '{' && s[1] == '{' { SparseTryAt(s, 2 + Run(s[2..], IsWhite, |s|)); }
  }

  lemma {:induction false} SparseEscapedBody(s: string)
    requires Sparse(s)
    ensures EscapedBody(s).None?
  {
    var b := Run(s, IsBackslash, 3);
    SparseTryAt(s, b + Run(s[b..], IsWhite, |s|));
  }

  lemma {:induction false} SparseEscaped(s: string)
    requires Sparse(s)
    ensures Escaped(s).None?
  {
    var g := Openers(s, AtMost(3, s));
    SparseDrop(s, g);
    SparseEscapedBody(s[g..]);
  }

  lemma {:induction false} SparseLoose(s: string)
    requires Sparse(s)
    ensures Loose(s).None?
  {
    if |s| >= 2 { SparseTryAt(s, 2 + Run(s[2..], IsWhite, |s|)); }
    if |s| >= 1 { SparseTryAt(s, 1 + Run(s[1..], IsWhite, |s|)); }
    SparseTry(s, AtMost(12, s));
  }

  /** In such a text there is no placeholder of any form, for any session. */
  lemma {:induction false} SparseNotLive(text: string, r: Resolver)
    requires Sparse(text)
    ensures NothingLive(text, r)
  {
    forall j | 0 <= j <= |text| ensures NothingAt(text[j..], r) {
      SparseDrop(text, j);
      SparseBraced(text[j..]);
      SparseEscaped(text[j..]);
      SparseLoose(text[j..]);
    }
  }

  /** An edit that puts back what it takes. */
  ghost predicate PutsBack(e: Edit, s: string) { e.Put? ==> 0 < e.len <= |s| && e.text == s[..e.len] }

  lemma {:induction false} PutsBackScan(text: string, j: nat, edit: Editor)
    requires j <= |text| && forall k :: j <= k <= |text| ==> PutsBack(edit(text[k..]), text[k..])
    ensures Scan(text[j..], edit) == text[j..]
    decreases |text| - j
  {
    var s := text[j..];
    if s != [] {
      var n := if edit(s).Put? then edit(s).len else 1;
      assert PutsBack(edit(text[j..]), text[j..]);
      assert s[n..] == text[j + n..];
      PutsBackScan(text, j + n, edit);
      IdleStep(s, s[n..], edit);
    }
  }

  /** Then each pass leaves the text as it is, and so does restoring. */
  lemma {:induction false} NothingLiveIdle(text: string, r: Resolver)
    requires NothingLive(text, r)
    ensures Scan(text, BracedEditor(r)) == text && Scan(text, EscapedEditor(r)) == text && Scan(text, LooseEditor(r)) == text
    ensures RestoreFinal(text, r) == text
  {
    forall k | 0 <= k <= |text|
      ensures PutsBack(BracedEdit(text[k..], r), text[k..]) && PutsBack(EscapedEdit(text[k..], r), text[k..])
           && PutsBack(LooseEdit(text[k..], r), text[k..])
    {
      assert NothingAt(text[k..], r);
    }
    assert text[0..] == text;
    PutsBackScan(text, 0, BracedEditor(r));
    PutsBackScan(text, 0, EscapedEditor(r));
    PutsBackScan(text, 0, LooseEditor(r));
  }

  // --------------------------------------------------------------- one placeholder

  lemma {:induction false} OnePiece(tag: string, suffix: string, w: string, r: Resolver)
    requires r.Found(Token(tag, suffix)) == Some(w)
    ensures var ps := [Tok(tag, suffix)];
            Render(ps) == Token(tag, suffix) && Expand(ps, r) == w && Residue(ps, r) == Plains(w)
  {
    var p := Tok(tag, suffix);
    var ps := [p];
    assert ps[1..] == [];
    assert RenderOne(p) == Token(tag, suffix) && ExpandOne(p, r) == w;
    assert Render(ps) == RenderOne(p) + [];
    assert Expand(ps, r) == ExpandOne(p, r) + [];
    assert Residue(ps, r) == Plains(w) + [];
  }

  lemma {:induction false} VisiblePlain(s: string)
    ensures Visible(Plains(s)) == s
  {
    if s != [] {
      assert Plains(s)[1..] == Plains(s[1..]);
      VisiblePlain(s[1..]);
    }
  }

  lemma {:induction false} NoUnderscoreNoBare(w: string, r: Resolver)
    requires '_' !in w
    ensures NoBareHit(w, r)
  {
    forall i, n | 0 <= i <= |w| && 1 <= n <= 12 ensures !LabelSuffix(w[i..], n, IsLabelChar) {
      if n < |w[i..]| { assert w[i..][n] == w[i + n]; }
    }
  }

  /** A placeholder by itself, for an original without braces and underscores. */
  lemma {:induction false} OneToken(tag: string, suffix: string, w: string, r: Resolver)
    requires IsLabel(tag) && IsSuffix(suffix) && BraceFree(w) && '_' !in w && r.Found(Token(tag, suffix)) == Some(w)
    ensures RestoreFinal(Token(tag, suffix), r) == w
  {
    var ps := [Tok(tag, suffix)];
    OnePiece(tag, suffix, w, r);
    VisiblePlain(w);
    NoUnderscoreNoBare(w, r);
    assert ValidPiece(ps[0]);
    assert Valid(ps) && CleanOriginals(ps, r);
    RestoreRendered(ps, r);
  }
}
