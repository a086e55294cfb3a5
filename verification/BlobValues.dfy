/**
 Which values of a body are taken out, said of the bytes: the string literals, found by the parity
 of the backslashes before each quote, that no colon follows and that classify as blobs. All of
 them, in order, and no others.
 */
module BlobValues {
  import opened Wrappers
  import opened Seqs
  import opened Utf8Stream
  import opened Blobs

  // ----------------------------------------------------------------------- literals

  /** How many backslashes stand right before q, counted back to i. */
  function SlashRun(raw: Bytes, i: nat, q: nat): nat
    requires i <= q <= |raw|
  {
    if i < q && raw[q - 1] == 92 then 1 + SlashRun(raw, i, q - 1) else 0
  }

  /** A quote that no backslash escapes. */
  predicate Bare(raw: Bytes, i: nat, q: nat) { i <= q < |raw| && raw[q] == 34 && SlashRun(raw, i, q) % 2 == 0 }

  /** The first quote from i on that no backslash escapes. */
  ghost predicate Closes(raw: Bytes, i: nat, e: nat) { Bare(raw, i, e) && forall q :: i <= q < e ==> !Bare(raw, i, q) }

  lemma {:induction false} SlashRunFrom(raw: Bytes, i: nat, k: nat, q: nat)
    requires i < k <= q <= |raw| && (raw[k - 1] != 92 || SlashRun(raw, i, k) % 2 == 0)
    ensures SlashRun(raw, i, q) % 2 == SlashRun(raw, k, q) % 2
    decreases q
  {
    if k < q && raw[q - 1] == 92 { SlashRunFrom(raw, i, k, q - 1); }
  }

  /** A step of the scan does not change which quotes are escaped. */
  lemma {:induction false} ClosesFrom(raw: Bytes, i: nat, k: nat, e: nat)
    requires i < k <= |raw| && k <= e && (raw[k - 1] != 92 || SlashRun(raw, i, k) % 2 == 0)
    requires forall q :: i <= q < k ==> !Bare(raw, i, q)
    ensures Closes(raw, i, e) <==> Closes(raw, k, e)
  {
    forall q | k <= q < |raw| ensures Bare(raw, i, q) <==> Bare(raw, k, q) { SlashRunFrom(raw, i, k, q); }
  }

  /** The scan for the end of a string finds exactly the closing quote, and fails only if there is none. */
  lemma {:induction false} StringEndIff(raw: Bytes, i: nat, e: nat)
    requires i <= |raw|
    ensures StringEnd(raw, i) == Some(e) <==> Closes(raw, i, e)
    decreases |raw| - i
  {
    if i < |raw| && raw[i] == 34 {
      assert Bare(raw, i, i);
    } else if i < |raw| {
      var k := if raw[i] == 92 then i + 2 else i + 1;
      forall q | i <= q < k ensures !Bare(raw, i, q) { if q == i + 1 { assert SlashRun(raw, i, q) == 1 + SlashRun(raw, i, i); } }
      if k <= |raw| {
        StringEndIff(raw, k, e);
        if raw[i] == 92 { TwoSlashes(raw, i); }
        if k <= e { ClosesFrom(raw, i, k, e); }
      }
    }
  }

  lemma {:induction false} TwoSlashes(raw: Bytes, i: nat)
    requires i + 2 <= |raw| && raw[i] == 92
    ensures raw[i + 1] != 92 || SlashRun(raw, i, i + 2) % 2 == 0
  {
    assert SlashRun(raw, i, i + 1) == 1;
  }

  // ------------------------------------------------------------------------ the values

  /** White space as JSON has it, then a colon. */
  ghost predicate ColonAfter(raw: Bytes, i: nat) {
    exists j :: i <= j < |raw| && raw[j] == 58 && AllWhite(raw, i, j)
  }

  predicate AllWhite(raw: Bytes, i: nat, j: nat)
    requires j <= |raw|
  {
    forall k :: i <= k < j ==> raw[k] == 32 || raw[k] == 9 || raw[k] == 10 || raw[k] == 13
  }

  /** A string is taken for a key if and only if a colon follows it behind white space. */
  lemma {:induction false} IsKeyIff(raw: Bytes, i: nat)
    requires i <= |raw|
    ensures IsKey(raw, i) <==> ColonAfter(raw, i)
    decreases |raw| - i
  {
    if i < |raw| {
      if IsJsonWhite(raw[i]) {
        IsKeyIff(raw, i + 1);
        if j :| i <= j < |raw| && raw[j] == 58 && AllWhite(raw, i, j) { assert AllWhite(raw, i + 1, j); }
        if j :| i + 1 <= j < |raw| && raw[j] == 58 && AllWhite(raw, i + 1, j) { assert AllWhite(raw, i, j); }
      } else if raw[i] == 58 {
        assert AllWhite(raw, i, i);
      }
    }
  }

  /** A string literal with its quotes. */
  datatype Literal = Literal(open: nat, close: nat)

  /** The literals from i on, one behind the other: each begins at the first quote behind the last one. */
  ghost predicate LiteralsFrom(raw: Bytes, i: nat, ls: seq<Literal>)
    decreases |ls|
  {
    if ls == [] then i <= |raw| && forall k :: i <= k < |raw| ==> raw[k] != 34
    else
      && i <= ls[0].open < |raw| && raw[ls[0].open] == 34 && (forall k :: i <= k < ls[0].open ==> raw[k] != 34)
      && Closes(raw, ls[0].open + 1, ls[0].close) && LiteralsFrom(raw, ls[0].close + 1, ls[1..])
  }

  function Content(raw: Bytes, l: Literal): Bytes { if l.open < l.close <= |raw| then raw[l.open + 1..l.close] else [] }

  /** The contents of the literals that are no keys and may be taken. */
  ghost function Taken(raw: Bytes, ls: seq<Literal>, skip: Skippable): seq<Bytes> {
    if ls == [] then []
    else (if skip(Content(raw, ls[0])) && !ColonAfter(raw, ls[0].close + 1) then [Content(raw, ls[0])] else [])
         + Taken(raw, ls[1..], skip)
  }

  function Contents(ps: seq<Part>): seq<Bytes> { if ps == [] then [] else [ps[0].content] + Contents(ps[1..]) }

  lemma {:induction false} SkipsTo(raw: Bytes, g: nat, i: nat, j: nat, skip: Skippable)
    requires g <= i <= j <= |raw| && forall k :: i <= k < j ==> raw[k] != 34
    ensures PartsFrom(raw, g, i, skip) == PartsFrom(raw, g, j, skip)
    decreases j - i
  {
    if i < j { SkipsTo(raw, g, i + 1, j, skip); }
  }

  predicate IsTaken(raw: Bytes, l: Literal, skip: Skippable)
    requires l.open < l.close < |raw|
  {
    skip(raw[l.open + 1..l.close]) && !IsKey(raw, l.close + 1)
  }

  /** What extraction does at the first literal. */
  lemma {:induction false} FirstLiteral(raw: Bytes, g: nat, i: nat, l: Literal, skip: Skippable)
    requires g <= i <= l.open < |raw| && raw[l.open] == 34 && (forall k :: i <= k < l.open ==> raw[k] != 34)
    requires Closes(raw, l.open + 1, l.close)
    ensures IsTaken(raw, l, skip) ==>
              PartsFrom(raw, g, i, skip) == Prepend([Part(raw[g..l.open + 1], Content(raw, l))], PartsFrom(raw, l.close, l.close + 1, skip))
    ensures !IsTaken(raw, l, skip) ==> PartsFrom(raw, g, i, skip) == PartsFrom(raw, g, l.close + 1, skip)
  {
    SkipsTo(raw, g, i, l.open, skip);
    StringEndIff(raw, l.open + 1, l.close);
  }

  lemma {:induction false} ContentsPrepend(p: Part, rest: Option<(seq<Part>, Bytes)>)
    requires rest.Some?
    ensures Prepend([p], rest).Some? && Contents(Prepend([p], rest).value.0) == [p.content] + Contents(rest.value.0)
  {
    assert ([p] + rest.value.0)[1..] == rest.value.0;
  }

  lemma {:induction false} FirstTaken(raw: Bytes, g: nat, i: nat, l: Literal, ls: seq<Literal>, skip: Skippable,
                                      rest: Option<(seq<Part>, Bytes)>)
    requires g <= i <= l.open < |raw| && raw[l.open] == 34 && (forall k :: i <= k < l.open ==> raw[k] != 34)
    requires Closes(raw, l.open + 1, l.close)
    requires rest == PartsFrom(raw, if IsTaken(raw, l, skip) then l.close else g, l.close + 1, skip)
    requires rest.Some? && Contents(rest.value.0) == Taken(raw, ls, skip)
    ensures PartsFrom(raw, g, i, skip).Some?
    ensures Contents(PartsFrom(raw, g, i, skip).value.0) == Taken(raw, [l] + ls, skip)
  {
    FirstLiteral(raw, g, i, l, skip);
    IsKeyIff(raw, l.close + 1);
    TakenCons(raw, l, ls, skip);
    if IsTaken(raw, l, skip) { ContentsPrepend(Part(raw[g..l.open + 1], Content(raw, l)), rest); }
  }

  lemma {:induction false} TakenCons(raw: Bytes, l: Literal, ls: seq<Literal>, skip: Skippable)
    ensures Taken(raw, [l] + ls, skip)
         == (if skip(Content(raw, l)) && !ColonAfter(raw, l.close + 1) then [Content(raw, l)] else []) + Taken(raw, ls, skip)
  {
    assert ([l] + ls)[1..] == ls;
  }

  /** Given the literals of the body, the values taken out are all those that may be, in order, and no others. */
  lemma {:induction false} ValuesTaken(raw: Bytes, g: nat, i: nat, ls: seq<Literal>, skip: Skippable)
    requires g <= i <= |raw| && LiteralsFrom(raw, i, ls)
    ensures PartsFrom(raw, g, i, skip).Some? && Contents(PartsFrom(raw, g, i, skip).value.0) == Taken(raw, ls, skip)
    decreases |ls|
  {
    if ls == [] {
      SkipsTo(raw, g, i, |raw|, skip);
    } else {
      var l := ls[0];
      var h := if IsTaken(raw, l, skip) then l.close else g;
      ValuesTaken(raw, h, l.close + 1, ls[1..], skip);
      FirstTaken(raw, g, i, l, ls[1..], skip, PartsFrom(raw, h, l.close + 1, skip));
      assert ls == [l] + ls[1..];
    }
  }

  /** There are such literals if and only if extraction does not meet a string without an end. */
  lemma {:induction false} LiteralsIff(raw: Bytes, g: nat, i: nat, skip: Skippable)
    requires g <= i <= |raw|
    ensures PartsFrom(raw, g, i, skip).Some? <==> exists ls :: LiteralsFrom(raw, i, ls)
    decreases |raw| - i
  {
    if PartsFrom(raw, g, i, skip).Some? {
      var ls := LiteralsHere(raw, g, i, skip);
      assert LiteralsFrom(raw, i, ls);
    }
    forall ls | LiteralsFrom(raw, i, ls) ensures PartsFrom(raw, g, i, skip).Some? { ValuesTaken(raw, g, i, ls, skip); }
  }

  lemma {:induction false} LiteralsHere(raw: Bytes, g: nat, i: nat, skip: Skippable) returns (ls: seq<Literal>)
    requires g <= i <= |raw| && PartsFrom(raw, g, i, skip).Some?
    ensures LiteralsFrom(raw, i, ls)
    decreases |raw| - i
  {
    if i == |raw| {
      ls := [];
    } else if raw[i] != 34 {
      ls := LiteralsHere(raw, g, i + 1, skip);
    } else {
      var e := StringEnd(raw, i + 1).value;
      StringEndIff(raw, i + 1, e);
      var rest := LiteralsHere(raw, if !IsKey(raw, e + 1) && skip(raw[i + 1..e]) then e else g, e + 1, skip);
      ls := [Literal(i, e)] + rest;
      assert ls[1..] == rest;
    }
  }
}
