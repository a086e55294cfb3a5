/**
 The duplicate-key scanner of src/mask/tree.rs: a flat scan with a stack of key sets,
 against the recursive meaning of "some object repeats a key".
 */
module DupKeys {
  import opened Wrappers
  import opened Seqs
  import opened Placeholders
  import opened Codec

  // ------------------------------------------------------------------ read_json_string

  /** `char::is_whitespace` of one byte, where a character begins: no white character is longer than a byte here. */
  predicate IsByteWhite(c: char) { '\U{9}' <= c <= '\U{D}' || c == ' ' }

  /** What one `\x` stands for, besides `\u`. */
  function SimpleEscape(c: char): char {
    if c == 'n' then '\n' else if c == 'r' then '\r' else if c == 't' then '\t'
    else if c == 'b' then '\U{8}' else if c == 'f' then '\U{C}' else c
  }

  /** `char::from_u32` of four hex digits: a surrogate is no character and adds nothing. */
  function UnitText(v: Option<nat>): string {
    match v
    case Some(cp) => if cp < 0xD800 || 0xE000 <= cp < 0x10000 then [cp as char] else ""
    case None => ""
  }

  /** From inside a literal: the text read and the characters consumed, closing quote included. */
  function ReadRest(s: string): (r: (string, nat))
    ensures r.1 <= |s|
    decreases |s|
  {
    if s == [] then ("", 0)
    else if s[0] == '"' then ("", 1)
    else if s[0] == '\\' && |s| > 1 then
      if s[1] == 'u' && |s| > 5 then
        var r := ReadRest(s[6..]);
        (UnitText(Hex4Value(s[2..])) + r.0, 6 + r.1)
      else
        var r := ReadRest(s[2..]);
        ([SimpleEscape(s[1])] + r.0, 2 + r.1)
    else
      var r := ReadRest(s[1..]);
      ([s[0]] + r.0, 1 + r.1)
  }

  // -------------------------------------------------------------------------- scanner

  /** A key set for an object, nothing for an array. */
  type Frame = Option<set<string>>

  predicate ColonNext(s: string) {
    var j := Run(s, IsByteWhite, |s|);
    j < |s| && s[j] == ':'
  }

  predicate InObject(stack: seq<Frame>) { stack != [] && stack[|stack| - 1].Some? }

  function Pop(stack: seq<Frame>): seq<Frame> { if stack == [] then [] else stack[..|stack| - 1] }

  /** detect_duplicate_keys from here on. */
  function Scan(s: string, stack: seq<Frame>): bool
    decreases |s|, 0
  {
    if s == [] then false
    else if s[0] == '{' then Scan(s[1..], stack + [Some({})])
    else if s[0] == '[' then Scan(s[1..], stack + [None])
    else if s[0] == '}' || s[0] == ']' then Scan(s[1..], Pop(stack))
    else if s[0] == '"' then
      var r := ReadRest(s[1..]);
      AfterString(s[1 + r.1..], stack, r.0)
    else Scan(s[1..], stack)
  }

  function DetectDuplicateKeys(text: string): bool { Scan(text, []) }

  method Detect(text: string) returns (dup: bool)
    ensures dup == DetectDuplicateKeys(text)
  {
    var stack: seq<Frame> := [];
    var i := 0;
    ghost var rest := text;
    Whole(text);
    while i < |text|
      invariant i <= |text| && rest == text[i..]
      invariant DetectDuplicateKeys(text) == Scan(rest, stack)
    {
      var more := 1;
      if text[i] == '"' {
        var repeated;
        repeated, stack, more := SeeString(text[i..], stack);
        if repeated { return true; }
      } else {
        stack := SeeChar(text[i..], stack);
      }
      DropDrop(text, i, more);
      rest := rest[more..];
      i := i + more;
    }
    return false;
  }

  method SeeChar(s: string, stack: seq<Frame>) returns (after: seq<Frame>)
    requires s != [] && s[0] != '"'
    ensures Scan(s, stack) == Scan(s[1..], after)
  {
    if s[0] == '{' { after := stack + [Some({})]; }
    else if s[0] == '[' { after := stack + [None]; }
    else if s[0] == '}' || s[0] == ']' { after := Pop(stack); }
    else { after := stack; }
  }

  method SeeString(s: string, stack: seq<Frame>) returns (repeated: bool, after: seq<Frame>, more: nat)
    requires s != [] && s[0] == '"'
    ensures 0 < more <= |s| && Scan(s, stack) == (repeated || Scan(s[more..], after))
  {
    var r := ReadRest(s[1..]);
    repeated, after, more := false, stack, 1 + r.1;
    if ColonNext(s[more..]) && InObject(stack) {
      var keys := stack[|stack| - 1].value;
      if r.0 in keys { repeated := true; } else { after := Pop(stack) + [Some(keys + {r.0})]; }
    }
  }

  /** A string just read is a key if a colon follows it inside an object. */
  function AfterString(rest: string, stack: seq<Frame>, key: string): bool
    decreases |rest|, 1
  {
    if ColonNext(rest) && InObject(stack) then
      var keys := stack[|stack| - 1].value;
      if key in keys then true else Scan(rest, Pop(stack) + [Some(keys + {key})])
    else Scan(rest, stack)
  }

  // ------------------------------------------------------------- JSON texts and meaning

  /** A JSON text with all its white space; a literal is its content as written. */
  datatype Doc =
    | Scalar(pre: string, word: string, post: string)
    | Text(pre: string, lit: string, post: string)
    | List(pre: string, items: seq<Doc>, gap: string, post: string)
    | Object(pre: string, members: seq<Member>, gap: string, post: string)

  datatype Member = Member(pre: string, lit: string, mid: string, value: Doc)

  predicate IsJsonWhite(c: char) { c == ' ' || c == '\t' || c == '\n' || c == '\r' }

  predicate IsWordOfScalar(c: char) { c !in "{}[]\",:" && !IsByteWhite(c) }

  /** Content of a string literal: no bare quote, every escape complete. */
  predicate IsLiteral(lit: string)
    decreases |lit|
  {
    if lit == [] then true
    else if lit[0] == '"' then false
    else if lit[0] == '\\' then
      if |lit| < 2 then false
      else if lit[1] == 'u' then |lit| >= 6 && Hex4Value(lit[2..]).Some? && IsLiteral(lit[6..])
      else lit[1] in "\"\\/nrtbf" && IsLiteral(lit[2..])
    else IsLiteral(lit[1..])
  }

  ghost predicate ValidDoc(d: Doc) {
    && All(IsJsonWhite, d.pre) && All(IsJsonWhite, d.post)
    && match d
       case Scalar(_, word, _) => word != "" && All(IsWordOfScalar, word)
       case Text(_, lit, _) => IsLiteral(lit)
       case List(_, items, gap, _) => All(IsJsonWhite, gap) && forall i :: 0 <= i < |items| ==> ValidDoc(items[i])
       case Object(_, members, gap, _) =>
         All(IsJsonWhite, gap) && forall i :: 0 <= i < |members| ==> ValidMember(members[i])
  }

  ghost predicate ValidMember(m: Member) {
    All(IsJsonWhite, m.pre) && IsLiteral(m.lit) && All(IsJsonWhite, m.mid) && ValidDoc(m.value)
  }

  function Quoted(lit: string): string { ['"'] + lit + ['"'] }

  function Print(d: Doc): string
    decreases d, 1
  {
    match d
    case Scalar(pre, word, post) => pre + (word + post)
    case Text(pre, lit, post) => pre + (Quoted(lit) + post)
    case List(pre, items, gap, post) => pre + (['['] + (PrintItems(items) + (gap + ([']'] + post))))
    case Object(pre, members, gap, post) => pre + (['{'] + (PrintMembers(members) + (gap + (['}'] + post))))
  }

  function PrintItems(items: seq<Doc>): string
    decreases items, 0
  {
    if items == [] then ""
    else if |items| == 1 then Print(items[0])
    else Print(items[0]) + ([','] + PrintItems(items[1..]))
  }

  function PrintMember(m: Member): string
    decreases m, 0
  {
    m.pre + (Quoted(m.lit) + (m.mid + ([':'] + Print(m.value))))
  }

  function PrintMembers(ms: seq<Member>): string
    decreases ms, 0
  {
    if ms == [] then ""
    else if |ms| == 1 then PrintMember(ms[0])
    else PrintMember(ms[0]) + ([','] + PrintMembers(ms[1..]))
  }

  /** The key a literal denotes to the scanner. */
  function KeyOf(lit: string): string { ReadRest(lit + ['"']).0 }

  /** Some object at some depth has two members with the same key. */
  ghost predicate RepeatsKey(d: Doc)
    decreases d
  {
    match d
    case List(_, items, _, _) => exists i :: 0 <= i < |items| && RepeatsKey(items[i])
    case Object(_, members, _, _) =>
      || (exists i, j :: 0 <= i < j < |members| && KeyOf(members[i].lit) == KeyOf(members[j].lit))
      || (exists i :: 0 <= i < |members| && RepeatsKey(members[i].value))
    case _ => false
  }

  // ------------------------------------------------------------------- reading literals

  /** Reading stops at the closing quote and does not look past it. */
  lemma {:induction false} ReadLiteral(lit: string, rest: string)
    requires IsLiteral(lit)
    ensures ReadRest(lit + ['"'] + rest) == (KeyOf(lit), |lit| + 1)
    decreases |lit|
  {
    var s, t := lit + ['"'] + rest, lit + ['"'];
    if lit != [] {
      var k := if lit[0] != '\\' then 1 else if lit[1] == 'u' then 6 else 2;
      ReadLiteral(lit[k..], rest);
      ReadLiteral(lit[k..], []);
      LiteralTail(lit, k, rest);
      if k == 6 { SameHex(lit, s); SameHex(lit, t); }
    }
  }

  lemma {:induction false} LiteralTail(lit: string, k: nat, rest: string)
    requires k <= |lit|
    ensures (lit + ['"'] + rest)[k..] == lit[k..] + ['"'] + rest
    ensures (lit + ['"'])[k..] == lit[k..] + ['"'] == lit[k..] + ['"'] + []
  {
  }

  lemma {:induction false} SameHex(lit: string, s: string)
    requires 6 <= |lit| <= |s| && s[..|lit|] == lit
    ensures Hex4Value(s[2..]) == Hex4Value(lit[2..])
  {
    assert forall i :: 2 <= i < 6 ==> s[i] == s[..|lit|][i];
    assert forall i :: 0 <= i < 4 ==> s[2..][i] == lit[2..][i];
  }

  // ------------------------------------------------------------------ scanning a document

  predicate IsSkipped(c: char) { c !in "{}[]\"" }

  lemma {:induction false} SkipOver(w: string, rest: string, stack: seq<Frame>)
    requires All(IsSkipped, w)
    ensures Scan(w + rest, stack) == Scan(rest, stack)
  {
    if w == "" {
      Whole(rest);
    } else {
      assert IsSkipped(w[0]);
      assert All(IsSkipped, w[1..]);
      assert (w + rest)[1..] == w[1..] + rest;
      SkipOver(w[1..], rest, stack);
    }
  }

  lemma {:induction false} WhiteSkipped(w: string)
    requires All(IsJsonWhite, w)
    ensures All(IsSkipped, w) && All(IsByteWhite, w)
  {
    forall i | 0 <= i < |w| ensures IsSkipped(w[i]) && IsByteWhite(w[i]) { assert IsJsonWhite(w[i]); }
  }

  lemma {:induction false} ColonAfterWhite(w: string, rest: string)
    requires All(IsJsonWhite, w)
    ensures ColonNext(w + rest) <==> ColonNext(rest)
  {
    if w == "" {
      Whole(rest);
    } else {
      assert IsJsonWhite(w[0]);
      assert All(IsJsonWhite, w[1..]);
      assert (w + rest)[1..] == w[1..] + rest;
      ColonAfterWhite(w[1..], rest);
      ColonStep(w + rest, w[1..] + rest);
    }
  }

  lemma {:induction false} ColonStep(s: string, t: string)
    requires s != [] && IsByteWhite(s[0]) && t == s[1..]
    ensures ColonNext(s) <==> ColonNext(t)
  {
    RunBound(t, IsByteWhite, |t|, |s| - 1);
    var j := Run(t, IsByteWhite, |t|);
    assert Run(s, IsByteWhite, |s|) == j + 1;
    if j < |t| { assert s[j + 1] == t[j]; }
  }

  lemma {:induction false} RunBound(s: string, p: char -> bool, a: nat, b: nat)
    requires a >= |s| && b >= |s|
    ensures Run(s, p, a) == Run(s, p, b)
  {
    if s != [] && p(s[0]) && a > 0 && b > 0 { RunBound(s[1..], p, a - 1, b - 1); }
  }

  /** The head of rest is a structural character other than a colon. */
  lemma {:induction false} NoColon(c: char, rest: string)
    requires !IsByteWhite(c) && c != ':'
    ensures !ColonNext([c] + rest)
  {
  }

  lemma {:induction false} ScanLiteral(lit: string, rest: string, stack: seq<Frame>)
    requires IsLiteral(lit)
    ensures Scan(Quoted(lit) + rest, stack)
         == if ColonNext(rest) && InObject(stack) then
              KeyOf(lit) in stack[|stack| - 1].value
              || Scan(rest, Pop(stack) + [Some(stack[|stack| - 1].value + {KeyOf(lit)})])
            else Scan(rest, stack)
  {
    var s := Quoted(lit) + rest;
    assert s[1..] == lit + ['"'] + rest;
    ReadLiteral(lit, rest);
    assert s[1 + (|lit| + 1)..] == rest;
  }

  lemma {:induction false} ScanWhite(w: string, rest: string, stack: seq<Frame>)
    requires All(IsJsonWhite, w)
    ensures Scan(w + rest, stack) == Scan(rest, stack)
  {
    WhiteSkipped(w);
    SkipOver(w, rest, stack);
  }

  lemma {:induction false} ScanChar(c: char, rest: string, stack: seq<Frame>)
    ensures c == '{' ==> Scan([c] + rest, stack) == Scan(rest, stack + [Some({})])
    ensures c == '[' ==> Scan([c] + rest, stack) == Scan(rest, stack + [None])
    ensures c == '}' || c == ']' ==> Scan([c] + rest, stack) == Scan(rest, Pop(stack))
    ensures IsSkipped(c) ==> Scan([c] + rest, stack) == Scan(rest, stack)
  {
    assert ([c] + rest)[1..] == rest;
  }

  /** The closing of a list or object, and what follows. */
  lemma {:induction false} ScanClose(gap: string, c: char, post: string, rest: string, stack: seq<Frame>, frame: Frame)
    requires All(IsJsonWhite, gap) && All(IsJsonWhite, post) && (c == '}' || c == ']')
    ensures Scan(gap + ([c] + (post + rest)), stack + [frame]) == Scan(rest, stack)
    ensures !ColonNext(gap + ([c] + (post + rest)))
  {
    ScanWhite(gap, [c] + (post + rest), stack + [frame]);
    ScanChar(c, post + rest, stack + [frame]);
    assert Pop(stack + [frame]) == stack;
    ScanWhite(post, rest, stack);
    NoColon(c, post + rest);
    ColonAfterWhite(gap, [c] + (post + rest));
  }

  lemma {:induction false} ScanScalar(pre: string, word: string, post: string, rest: string, stack: seq<Frame>)
    requires All(IsJsonWhite, pre) && All(IsJsonWhite, post) && All(IsWordOfScalar, word)
    ensures Scan(pre + (word + (post + rest)), stack) == Scan(rest, stack)
  {
    ScanWhite(pre, word + (post + rest), stack);
    assert All(IsSkipped, word) by {
      forall i | 0 <= i < |word| ensures IsSkipped(word[i]) { assert IsWordOfScalar(word[i]); }
    }
    SkipOver(word, post + rest, stack);
    ScanWhite(post, rest, stack);
  }

  lemma {:induction false} ScanText(pre: string, lit: string, post: string, rest: string, stack: seq<Frame>)
    requires All(IsJsonWhite, pre) && All(IsJsonWhite, post) && IsLiteral(lit) && !ColonNext(rest)
    ensures Scan(pre + (Quoted(lit) + (post + rest)), stack) == Scan(rest, stack)
  {
    ScanWhite(pre, Quoted(lit) + (post + rest), stack);
    ScanLiteral(lit, post + rest, stack);
    ColonAfterWhite(post, rest);
    ScanWhite(post, rest, stack);
  }

  /** Scanning a document answers for it and leaves the stack as it was. */
  lemma {:induction false} ScanDoc(d: Doc, rest: string, stack: seq<Frame>)
    requires ValidDoc(d) && !ColonNext(rest)
    ensures Scan(Print(d) + rest, stack) == (RepeatsKey(d) || Scan(rest, stack))
    decreases d, 1
  {
    match d
    case Scalar(pre, word, post) =>
      assert Print(d) + rest == pre + (word + (post + rest));
      ScanScalar(pre, word, post, rest, stack);
    case Text(pre, lit, post) =>
      assert Print(d) + rest == pre + (Quoted(lit) + (post + rest));
      ScanText(pre, lit, post, rest, stack);
    case List(pre, items, gap, post) =>
      ListAround(pre, items, gap, post, rest, stack);
      ScanItems(items, gap + ([']'] + (post + rest)), stack + [None]);
    case Object(pre, members, gap, post) =>
      ObjectAround(pre, members, gap, post, rest, stack);
      ScanMembers(members, gap + (['}'] + (post + rest)), stack, {});
  }

  /** A list is its items between brackets, which push and pop a frame. */
  lemma {:induction false} ListAround(pre: string, items: seq<Doc>, gap: string, post: string, rest: string, stack: seq<Frame>)
    requires All(IsJsonWhite, pre) && All(IsJsonWhite, gap) && All(IsJsonWhite, post)
    ensures var tail := gap + ([']'] + (post + rest));
            && Scan(Print(List(pre, items, gap, post)) + rest, stack) == Scan(PrintItems(items) + tail, stack + [None])
            && Scan(tail, stack + [None]) == Scan(rest, stack) && !ColonNext(tail)
  {
    var tail := gap + ([']'] + (post + rest));
    assert Print(List(pre, items, gap, post)) + rest == pre + (['['] + (PrintItems(items) + tail));
    ScanWhite(pre, ['['] + (PrintItems(items) + tail), stack);
    ScanChar('[', PrintItems(items) + tail, stack);
    ScanClose(gap, ']', post, rest, stack, None);
  }

  lemma {:induction false} ObjectAround(pre: string, members: seq<Member>, gap: string, post: string, rest: string, stack: seq<Frame>)
    requires All(IsJsonWhite, pre) && All(IsJsonWhite, gap) && All(IsJsonWhite, post)
    ensures var tail := gap + (['}'] + (post + rest));
            && Scan(Print(Object(pre, members, gap, post)) + rest, stack) == Scan(PrintMembers(members) + tail, stack + [Some({})])
            && Scan(tail, stack + [Some(KeysFrom(members, {}))]) == Scan(rest, stack) && !ColonNext(tail)
    ensures RepeatsKey(Object(pre, members, gap, post)) <==> Clash(members, {}) || SomeValue(members)
  {
    var tail := gap + (['}'] + (post + rest));
    assert Print(Object(pre, members, gap, post)) + rest == pre + (['{'] + (PrintMembers(members) + tail));
    ScanWhite(pre, ['{'] + (PrintMembers(members) + tail), stack);
    ScanChar('{', PrintMembers(members) + tail, stack);
    ScanClose(gap, '}', post, rest, stack, Some(KeysFrom(members, {})));
  }

  lemma {:induction false} ScanItems(items: seq<Doc>, rest: string, stack: seq<Frame>)
    requires (forall i :: 0 <= i < |items| ==> ValidDoc(items[i])) && !ColonNext(rest)
    ensures Scan(PrintItems(items) + rest, stack)
         == ((exists i :: 0 <= i < |items| && RepeatsKey(items[i])) || Scan(rest, stack))
    decreases items, 0
  {
    if items == [] {
      Whole(rest);
    } else if |items| == 1 {
      ScanDoc(items[0], rest, stack);
    } else {
      var tail := [','] + (PrintItems(items[1..]) + rest);
      assert PrintItems(items) + rest == Print(items[0]) + tail;
      NoColon(',', PrintItems(items[1..]) + rest);
      ScanDoc(items[0], tail, stack);
      ScanChar(',', PrintItems(items[1..]) + rest, stack);
      ScanItems(items[1..], rest, stack);
      SplitExists(items);
    }
  }

  lemma {:induction false} SplitExists(items: seq<Doc>)
    requires items != []
    ensures (exists i :: 0 <= i < |items| && RepeatsKey(items[i]))
       <==> RepeatsKey(items[0]) || exists i :: 0 <= i < |items[1..]| && RepeatsKey(items[1..][i])
  {
    if i :| 0 <= i < |items| && RepeatsKey(items[i]) {
      if i > 0 { assert items[1..][i - 1] == items[i]; }
    }
    if i :| 0 <= i < |items[1..]| && RepeatsKey(items[1..][i]) { assert items[i + 1] == items[1..][i]; }
  }

  /** A member's key is among those seen, or two members share a key. */
  ghost predicate Clash(ms: seq<Member>, keys: set<string>) {
    || (exists i :: 0 <= i < |ms| && KeyOf(ms[i].lit) in keys)
    || (exists i, j :: 0 <= i < j < |ms| && KeyOf(ms[i].lit) == KeyOf(ms[j].lit))
  }

  function KeysFrom(ms: seq<Member>, keys: set<string>): set<string> {
    if ms == [] then keys else KeysFrom(ms[1..], keys + {KeyOf(ms[0].lit)})
  }

  ghost predicate SomeValue(ms: seq<Member>) { exists i :: 0 <= i < |ms| && RepeatsKey(ms[i].value) }

  lemma {:induction false} ClashBehind(ms: seq<Member>, keys: set<string>)
    requires ms != [] && Clash(ms, keys)
    ensures KeyOf(ms[0].lit) in keys || Clash(ms[1..], keys + {KeyOf(ms[0].lit)})
  {
    var t, k := ms[1..], KeyOf(ms[0].lit);
    if i :| 0 <= i < |ms| && KeyOf(ms[i].lit) in keys {
      if i > 0 { assert t[i - 1] == ms[i]; }
    } else {
      var i, j :| 0 <= i < j < |ms| && KeyOf(ms[i].lit) == KeyOf(ms[j].lit);
      assert t[j - 1] == ms[j];
      if i > 0 { assert t[i - 1] == ms[i]; }
    }
  }

  lemma {:induction false} ClashAhead(ms: seq<Member>, keys: set<string>)
    requires ms != [] && (KeyOf(ms[0].lit) in keys || Clash(ms[1..], keys + {KeyOf(ms[0].lit)}))
    ensures Clash(ms, keys)
  {
    var t, k := ms[1..], KeyOf(ms[0].lit);
    if k !in keys {
      if i :| 0 <= i < |t| && KeyOf(t[i].lit) in keys + {k} {
        assert ms[i + 1] == t[i];
      } else {
        var i, j :| 0 <= i < j < |t| && KeyOf(t[i].lit) == KeyOf(t[j].lit);
        assert ms[i + 1] == t[i] && ms[j + 1] == t[j];
      }
    }
  }

  lemma {:induction false} ValueStep(ms: seq<Member>)
    requires ms != []
    ensures SomeValue(ms) <==> RepeatsKey(ms[0].value) || SomeValue(ms[1..])
  {
    var t := ms[1..];
    if i :| 0 <= i < |ms| && RepeatsKey(ms[i].value) { if i > 0 { assert t[i - 1] == ms[i]; } }
    if i :| 0 <= i < |t| && RepeatsKey(t[i].value) { assert ms[i + 1] == t[i]; }
  }

  lemma {:induction false} ClashStep(ms: seq<Member>, keys: set<string>)
    requires ms != []
    ensures Clash(ms, keys) <==> KeyOf(ms[0].lit) in keys || Clash(ms[1..], keys + {KeyOf(ms[0].lit)})
    ensures SomeValue(ms) <==> RepeatsKey(ms[0].value) || SomeValue(ms[1..])
  {
    if Clash(ms, keys) { ClashBehind(ms, keys); }
    else if KeyOf(ms[0].lit) in keys || Clash(ms[1..], keys + {KeyOf(ms[0].lit)}) { ClashAhead(ms, keys); }
    ValueStep(ms);
  }

  /** One member: its key is checked against those seen, its value is scanned for itself. */
  lemma {:induction false} ScanMember(m: Member, rest: string, stack: seq<Frame>, keys: set<string>)
    requires ValidMember(m) && !ColonNext(rest)
    ensures Scan(PrintMember(m) + rest, stack + [Some(keys)])
         == (KeyOf(m.lit) in keys || RepeatsKey(m.value) || Scan(rest, stack + [Some(keys + {KeyOf(m.lit)})]))
    decreases m, 0
  {
    var value := Print(m.value) + rest;
    var tail := m.mid + ([':'] + value);
    var top := stack + [Some(keys)];
    assert PrintMember(m) + rest == m.pre + (Quoted(m.lit) + tail);
    ScanWhite(m.pre, Quoted(m.lit) + tail, top);
    assert Run([':'] + value, IsByteWhite, |value| + 1) == 0;
    ColonAfterWhite(m.mid, [':'] + value);
    ScanLiteral(m.lit, tail, top);
    assert Pop(top) == stack;
    var next := stack + [Some(keys + {KeyOf(m.lit)})];
    ScanWhite(m.mid, [':'] + value, next);
    ScanChar(':', value, next);
    ScanDoc(m.value, rest, next);
  }

  lemma {:induction false} MembersStep(ms: seq<Member>, rest: string)
    requires |ms| > 1
    ensures PrintMembers(ms) + rest == PrintMember(ms[0]) + ([','] + (PrintMembers(ms[1..]) + rest))
  {
    Assoc(PrintMember(ms[0]), [','] + PrintMembers(ms[1..]), rest);
    Assoc([','], PrintMembers(ms[1..]), rest);
  }

  lemma {:induction false} LastMember(ms: seq<Member>, keys: set<string>)
    requires |ms| == 1
    ensures Clash(ms, keys) <==> KeyOf(ms[0].lit) in keys
    ensures SomeValue(ms) <==> RepeatsKey(ms[0].value)
    ensures KeysFrom(ms, keys) == keys + {KeyOf(ms[0].lit)} && PrintMembers(ms) == PrintMember(ms[0])
  {
    assert ms[1..] == [];
  }

  lemma {:induction false} ScanMembers(ms: seq<Member>, rest: string, stack: seq<Frame>, keys: set<string>)
    requires (forall i :: 0 <= i < |ms| ==> ValidMember(ms[i])) && !ColonNext(rest)
    ensures Scan(PrintMembers(ms) + rest, stack + [Some(keys)])
         == (Clash(ms, keys) || SomeValue(ms) || Scan(rest, stack + [Some(KeysFrom(ms, keys))]))
    decreases ms, 0
  {
    if ms == [] {
      Whole(rest);
    } else if |ms| == 1 {
      LastMember(ms, keys);
      ScanMember(ms[0], rest, stack, keys);
    } else {
      var k, more := KeyOf(ms[0].lit), PrintMembers(ms[1..]) + rest;
      ClashStep(ms, keys);
      MembersStep(ms, rest);
      NoColon(',', more);
      ScanMember(ms[0], [','] + more, stack, keys);
      ScanChar(',', more, stack + [Some(keys + {k})]);
      ScanMembers(ms[1..], rest, stack, keys + {k});
    }
  }

  /**
   The flat scan returns true exactly when some object at some depth repeats a key, for
   every JSON text, however it is spaced and however its keys are escaped.
   */
  lemma {:induction false} DetectsRepeatedKeys(d: Doc)
    requires ValidDoc(d)
    ensures DetectDuplicateKeys(Print(d)) <==> RepeatsKey(d)
  {
    Whole(Print(d));
    ScanDoc(d, "", []);
  }

  // -------------------------------------------------- what the scanner takes a key to be

  /** The literal writes some character as a surrogate pair. */
  predicate HasPair(lit: string)
    decreases |lit|
  {
    if lit == [] then false
    else if lit[0] == '\\' && |lit| >= 6 && lit[1] == 'u' then
      (match Hex4Value(lit[2..])
       case Some(v) => 0xD800 <= v < 0xE000
       case None => false)
      || HasPair(lit[6..])
    else if lit[0] == '\\' && |lit| >= 2 then HasPair(lit[2..])
    else HasPair(lit[1..])
  }

  lemma {:induction false} LiteralOfDecoded(lit: string)
    requires Decode(lit).Some?
    ensures IsLiteral(lit)
    decreases |lit|
  {
    if lit != [] {
      var u := DecodeUnit(lit).value;
      if u.1 == 12 {
        LiteralOfDecoded(lit[12..]);
        assert lit[6..][6..] == lit[12..];
      } else {
        LiteralOfDecoded(lit[u.1..]);
      }
    }
  }

  lemma {:induction false} KeyStep(lit: string, k: nat)
    requires IsLiteral(lit) && lit != []
    requires k == if lit[0] != '\\' then 1 else if lit[1] == 'u' then 6 else 2
    ensures KeyOf(lit) == (if k == 1 then [lit[0]] else if k == 2 then [SimpleEscape(lit[1])] else UnitText(Hex4Value(lit[2..])))
                          + KeyOf(lit[k..])
  {
    var t := lit + ['"'];
    assert t[k..] == lit[k..] + ['"'];
    if k == 6 { SameHex(lit, t); }
  }

  /**
   The scanner reads a key as section 7 of RFC 8259 does if and only if the key writes no
   surrogate pair: each half of a pair is dropped, so the key comes out shorter.
   */
  lemma {:induction false} KeyIsDecodedIff(lit: string)
    requires Decode(lit).Some?
    ensures |KeyOf(lit)| <= |Decode(lit).value|
    ensures KeyOf(lit) == Decode(lit).value <==> !HasPair(lit)
    ensures HasPair(lit) ==> |KeyOf(lit)| < |Decode(lit).value|
    decreases |lit|
  {
    if lit != [] {
      LiteralOfDecoded(lit);
      var u := DecodeUnit(lit).value;
      KeyIsDecodedIff(lit[u.1..]);
      if u.1 == 12 {
        KeyStep(lit, 6);
        KeyStep(lit[6..], 6);
        assert lit[6..][6..] == lit[12..];
      } else {
        KeyStep(lit, u.1);
      }
    }
  }

  // ------------------------------------------------------ what that means for documents

  /** Every key denotes a text, and none writes a surrogate pair. */
  ghost predicate PlainKeys(d: Doc)
    decreases d
  {
    match d
    case List(_, items, _, _) => forall i :: 0 <= i < |items| ==> PlainKeys(items[i])
    case Object(_, members, _, _) => forall i :: 0 <= i < |members| ==> PlainKey(members[i].lit) && PlainKeys(members[i].value)
    case _ => true
  }

  predicate PlainKey(lit: string) { Decode(lit).Some? && !HasPair(lit) }

  /** Some object at some depth has two members whose keys denote the same text, as section 7 of RFC 8259 reads them. */
  ghost predicate RepeatsDecoded(d: Doc)
    decreases d
  {
    match d
    case List(_, items, _, _) => exists i :: 0 <= i < |items| && RepeatsDecoded(items[i])
    case Object(_, members, _, _) =>
      || (exists i, j :: 0 <= i < j < |members| && Decode(members[i].lit) == Decode(members[j].lit))
      || (exists i :: 0 <= i < |members| && RepeatsDecoded(members[i].value))
    case _ => false
  }

  lemma {:induction false} SameMeaning(d: Doc)
    requires PlainKeys(d)
    ensures RepeatsKey(d) <==> RepeatsDecoded(d)
    decreases d
  {
    match d
    case List(_, items, _, _) =>
      forall i | 0 <= i < |items| ensures RepeatsKey(items[i]) <==> RepeatsDecoded(items[i]) { SameMeaning(items[i]); }
    case Object(_, members, _, _) =>
      forall i | 0 <= i < |members|
        ensures Decode(members[i].lit) == Some(KeyOf(members[i].lit))
        ensures RepeatsKey(members[i].value) <==> RepeatsDecoded(members[i].value)
      {
        KeyIsDecodedIff(members[i].lit);
        SameMeaning(members[i].value);
      }
    case _ =>
  }

  /**
   For every JSON text whose keys write no surrogate pair, however it is spaced and its keys
   escaped, the flat scan returns true exactly when some object at some depth repeats a
   decoded key.
   */
  lemma {:induction false} DetectsDecodedKeys(d: Doc)
    requires ValidDoc(d) && PlainKeys(d)
    ensures DetectDuplicateKeys(Print(d)) <==> RepeatsDecoded(d)
  {
    DetectsRepeatedKeys(d);
    SameMeaning(d);
  }

  /** `{"a":1,"b":2}` for literals a and b. */
  function TwoKeys(a: string, b: string): Doc {
    Object("", [Member("", a, "", Scalar("", "1", "")), Member("", b, "", Scalar("", "2", ""))], "", "")
  }

  lemma {:induction false} TwoKeysRepeat(a: string, b: string)
    ensures RepeatsKey(TwoKeys(a, b)) <==> KeyOf(a) == KeyOf(b)
    ensures RepeatsDecoded(TwoKeys(a, b)) <==> Decode(a) == Decode(b)
  {
    var ms := TwoKeys(a, b).members;
    assert ms[0].lit == a && ms[1].lit == b;
    assert !RepeatsKey(ms[0].value) && !RepeatsKey(ms[1].value) && !RepeatsDecoded(ms[0].value) && !RepeatsDecoded(ms[1].value);
  }

  lemma {:induction false} TwoKeysValid(a: string, b: string)
    requires IsLiteral(a) && IsLiteral(b)
    ensures ValidDoc(TwoKeys(a, b))
  {
    assert All(IsJsonWhite, "");
    assert ValidDoc(Scalar("", "1", "")) && ValidDoc(Scalar("", "2", ""));
    assert ValidMember(Member("", a, "", Scalar("", "1", ""))) && ValidMember(Member("", b, "", Scalar("", "2", "")));
  }

  /** What the scanner says of two keys, and what is the case. */
  lemma {:induction false} TwoKeysScanned(a: string, b: string)
    requires Decode(a).Some? && Decode(b).Some?
    ensures DetectDuplicateKeys(Print(TwoKeys(a, b))) <==> KeyOf(a) == KeyOf(b)
    ensures RepeatsDecoded(TwoKeys(a, b)) <==> Decode(a) == Decode(b)
  {
    LiteralOfDecoded(a);
    LiteralOfDecoded(b);
    TwoKeysValid(a, b);
    TwoKeysRepeat(a, b);
    DetectsRepeatedKeys(TwoKeys(a, b));
  }

  /** A character beyond the basic plane, written as a surrogate pair. */
  function PairOf(c: char): string { Literal([c], true) }

  lemma {:induction false} PairKey(c: char)
    requires c as int > 0xFFFF
    ensures Decode(PairOf(c)) == Some([c]) && KeyOf(PairOf(c)) == ""
  {
    var v := c as int - 0x10000;
    var hi, lo := 0xD800 + v / 1024, 0xDC00 + v % 1024;
    var a, rest := PairOf(c), UnicodeEscape(lo);
    BeyondLiteral(c, v, hi, lo);
    DecodeLiteral([c], true);
    assert [c][1..] == "";
    assert a == UnicodeEscape(hi) + rest;
    Hex4RoundTrip(hi, rest);
    Hex4RoundTrip(lo, "");
    assert rest + "" == rest;
    LiteralOfDecoded(a);
    assert a[6..] == rest && rest[6..] == "" && KeyOf("") == "";
    KeyStep(a, 6);
    KeyStep(rest, 6);
  }

  /** Any two different characters written as pairs are taken for the same key. */
  lemma {:induction false} DifferentPairsReported(c: char, d: char)
    requires c as int > 0xFFFF && d as int > 0xFFFF && c != d
    ensures DetectDuplicateKeys(Print(TwoKeys(PairOf(c), PairOf(d)))) && !RepeatsDecoded(TwoKeys(PairOf(c), PairOf(d)))
  {
    PairKey(c);
    PairKey(d);
    TwoKeysScanned(PairOf(c), PairOf(d));
  }

  /** Any such character written as a pair and then as itself is a repeated key that is missed. */
  lemma {:induction false} RepeatedPairMissed(c: char)
    requires c as int > 0xFFFF
    ensures !DetectDuplicateKeys(Print(TwoKeys(PairOf(c), [c]))) && RepeatsDecoded(TwoKeys(PairOf(c), [c]))
  {
    PairKey(c);
    assert [c][1..] == "" && [c] + "" == [c];
    assert Decode([c]) == Some([c]) && !HasPair([c]);
    KeyIsDecodedIff([c]);
    TwoKeysScanned(PairOf(c), [c]);
  }

  lemma {:induction false} PairIs(c: char, hi: nat, lo: nat)
    requires c as int > 0xFFFF && hi == 0xD800 + (c as int - 0x10000) / 1024 && lo == 0xDC00 + (c as int - 0x10000) % 1024
    ensures hi < 0x10000 && lo < 0x10000 && PairOf(c) == UnicodeEscape(hi) + UnicodeEscape(lo)
  {
    BeyondLiteral(c, c as int - 0x10000, hi, lo);
    var s, u := [c], LiteralChar(c, true);
    assert s[1..] == "" && u + "" == u;
    assert Literal(s, true) == u + Literal(s[1..], true);
  }

  /** Two faces, U+1F600 and U+1F601: the literals of the two failures. */
  lemma {:induction false} Faces()
    ensures PairOf('\U{1F600}') == "\\ud83d" + "\\ude00" && PairOf('\U{1F601}') == "\\ud83d" + "\\ude01"
  {
    PairIs('\U{1F600}', 0xD83D, 0xDE00);
    PairIs('\U{1F601}', 0xD83D, 0xDE01);
    assert UnicodeEscape(0xD83D) == "\\ud83d";
    assert UnicodeEscape(0xDE00) == "\\ude00";
    assert UnicodeEscape(0xDE01) == "\\ude01";
  }

  lemma {:induction false} EscapedNoPair(s: string)
    ensures !HasPair(JsonEscape(s))
  {
    if s != [] {
      EscapedNoPair(s[1..]);
      EscapedCharNoPair(s[0], JsonEscape(s[1..]));
    }
  }

  lemma {:induction false} EscapedCharNoPair(c: char, rest: string)
    ensures HasPair(LiteralChar(c, false) + rest) <==> HasPair(rest)
  {
    var u := LiteralChar(c, false);
    var s := u + rest;
    assert s[|u|..] == rest;
    if |u| == 6 { Hex4RoundTrip(c as int, rest); }
  }

  /**
   A key that writes a pair always has one the scanner misses: the same key spelled out.
   So for each key, the scanner is right beside every other plain key if and only if it
   writes no pair itself.
   */
  lemma {:induction false} RightBesideAllIff(a: string)
    requires Decode(a).Some?
    ensures !HasPair(a) <==>
              forall b :: PlainKey(b) ==> (DetectDuplicateKeys(Print(TwoKeys(a, b))) <==> RepeatsDecoded(TwoKeys(a, b)))
    ensures HasPair(a) ==> var b := JsonEscape(Decode(a).value);
              PlainKey(b) && Decode(b) == Decode(a) && !DetectDuplicateKeys(Print(TwoKeys(a, b)))
  {
    KeyIsDecodedIff(a);
    forall b | PlainKey(b)
      ensures DetectDuplicateKeys(Print(TwoKeys(a, b))) <==> KeyOf(a) == Decode(b).value
      ensures RepeatsDecoded(TwoKeys(a, b)) <==> Decode(a) == Decode(b)
    {
      KeyIsDecodedIff(b);
      TwoKeysScanned(a, b);
    }
    var b := JsonEscape(Decode(a).value);
    DecodeLiteral(Decode(a).value, false);
    EscapedNoPair(Decode(a).value);
    assert PlainKey(b);
  }
}
