/**
 The byte side of a stream: `decode_chunk` and `push` of src/stream/sse.rs carry an unfinished
 UTF-8 character and an unfinished frame from chunk to chunk. The theorem: the frames do not
 depend on where the bytes were cut.
 */
module Utf8Stream {
  import opened Wrappers
  import opened Seqs
  import opened Placeholders

  type Byte = b: int | 0 <= b < 256

  // ---------------------------------------------------------------------- encoding

  /** The encoding of one character, section 3 of RFC 3629. */
  function Utf8Of(c: char): (bs: seq<Byte>)
    ensures 1 <= |bs| <= 4 && |bs| == Utf8Len(c)
  {
    var n := c as int;
    if n < 0x80 then [n]
    else if n < 0x800 then [0xC0 + n / 64, 0x80 + n % 64]
    else if n < 0x10000 then [0xE0 + n / 4096, 0x80 + n / 64 % 64, 0x80 + n % 64]
    else [0xF0 + n / 262144, 0x80 + n / 4096 % 64, 0x80 + n / 64 % 64, 0x80 + n % 64]
  }

  function Utf8(s: string): seq<Byte> {
    if s == [] then [] else Utf8Of(s[0]) + Utf8(s[1..])
  }

  lemma {:induction false} Utf8Concat(a: string, b: string)
    ensures Utf8(a + b) == Utf8(a) + Utf8(b)
  {
    if a == [] { assert a + b == b; }
    else { assert (a + b)[0] == a[0] && (a + b)[1..] == a[1..] + b; Utf8Concat(a[1..], b); }
  }

  // ------------------------------------------------------------------- decode_chunk

  /** What a byte says of the sequence it begins: its length, 0 for a byte that begins none. */
  function Need(b: Byte): nat {
    if b < 0x80 then 1
    else if 0xC0 <= b < 0xE0 then 2
    else if 0xE0 <= b < 0xF0 then 3
    else if 0xF0 <= b < 0xF8 then 4
    else 0
  }

  /** Where the unfinished character at the end begins, looking back from the back-th last byte. */
  function CutFrom(bytes: seq<Byte>, back: nat): (i: nat)
    requires back >= 1
    ensures |bytes| - 3 <= i <= |bytes|
    decreases 4 - back
  {
    if back > 3 || back > |bytes| then |bytes|
    else
      var need := Need(bytes[|bytes| - back]);
      if need == 0 then CutFrom(bytes, back + 1)
      else if back < need then |bytes| - back
      else |bytes|
  }

  /** from_utf8_lossy, of which only this is used: it decodes valid UTF-8. */
  type Lossy = seq<Byte> -> string

  ghost predicate Decodes(lossy: Lossy) { forall s :: lossy(Utf8(s)) == s }

  /** What the carried bytes and a chunk decode to. */
  function DecodeText(bytes: seq<Byte>, lossy: Lossy): string { lossy(bytes[..CutFrom(bytes, 1)]) }

  /** What is carried on to the next chunk. */
  function DecodeTail(bytes: seq<Byte>): (r: seq<Byte>)
    ensures |r| <= 3
  {
    bytes[CutFrom(bytes, 1)..]
  }

  /** Within a character only the first byte begins a sequence, and it tells the length. */
  lemma {:induction false} NeedOf(c: char, i: nat)
    requires i < |Utf8Of(c)|
    ensures Need(Utf8Of(c)[i]) == if i == 0 then |Utf8Of(c)| else 0
  {
    var n := c as int;
    if n >= 0x10000 { assert n / 262144 <= 4; }
    else if n >= 0x800 { assert n / 4096 < 16; }
    else if n >= 0x80 { assert n / 64 < 32; }
  }

  lemma {:induction false} LookBack(bytes: seq<Byte>, a: seq<Byte>, c: char, k: nat, back: nat)
    requires 1 <= back <= k <= |Utf8Of(c)| && bytes == a + Utf8Of(c)[..k]
    ensures CutFrom(bytes, back) == if k < |Utf8Of(c)| then |a| else |bytes|
    decreases 4 - back
  {
    if back <= 3 {
      assert bytes[|bytes| - back] == Utf8Of(c)[k - back];
      NeedOf(c, k - back);
      if back < k { LookBack(bytes, a, c, k, back + 1); }
    }
  }

  /** The cut falls behind the last complete character. */
  lemma {:induction false} CutAtCharacter(s: string, c: char, k: nat)
    requires k < |Utf8Of(c)|
    ensures CutFrom(Utf8(s) + Utf8Of(c)[..k], 1) == |Utf8(s)|
  {
    var bytes := Utf8(s) + Utf8Of(c)[..k];
    if k > 0 {
      LookBack(bytes, Utf8(s), c, k, 1);
    } else if s != [] {
      var n := |s| - 1;
      var last := Utf8Of(s[n]);
      assert s == s[..n] + [s[n]];
      Utf8Concat(s[..n], [s[n]]);
      assert Utf8([s[n]]) == last + Utf8([]);
      assert bytes == Utf8(s[..n]) + last[..|last|];
      LookBack(bytes, Utf8(s[..n]), s[n], |last|, 1);
    }
  }

  // ------------------------------------------------------------ what a chunk decodes to

  /** How many characters of s are complete within its first n bytes. */
  function Complete(s: string, n: nat): (k: nat)
    ensures k <= |s|
  {
    if s == [] || |Utf8Of(s[0])| > n then 0 else 1 + Complete(s[1..], n - |Utf8Of(s[0])|)
  }

  /** tail is a proper prefix of the first character of s, or nothing. */
  ghost predicate ProperTail(tail: seq<Byte>, s: string) {
    if s == "" then tail == [] else |tail| < |Utf8Of(s[0])| && tail == Utf8Of(s[0])[..|tail|]
  }

  /** The first character is complete: what holds of the rest holds of the whole. */
  lemma {:induction false} SplitCons(one: seq<Byte>, v: seq<Byte>, done: seq<Byte>, n: nat, p: seq<Byte>)
    requires |one| <= n <= |one| + |v| && v[..n - |one|] == done + p
    ensures (one + v)[..n] == one + done + p && |one + done| <= n && (one + v)[|one + done|..n] == p
  {
    TakeBehind(one, v, n);
    Assoc(one, done, p);
    var t := one + v;
    assert t[|one + done|..n] == t[..n][|one + done|..];
    Seam(one + done, p);
  }

  lemma {:induction false} FirstIncomplete(s: string, n: nat)
    requires s != "" && n < |Utf8Of(s[0])|
    ensures Utf8(s)[0..n] == Utf8Of(s[0])[..n] && n <= |Utf8(s)|
  {
  }

  lemma {:induction false} SplitBytes(s: string, n: nat)
    requires n <= |Utf8(s)|
    ensures var k := Complete(s, n);
            && |Utf8(s[..k])| <= n
            && Utf8(s)[..n] == Utf8(s[..k]) + Utf8(s)[|Utf8(s[..k])|..n]
            && ProperTail(Utf8(s)[|Utf8(s[..k])|..n], s[k..])
    decreases |s|
  {
    if s == [] {
    } else if |Utf8Of(s[0])| > n {
      FirstIncomplete(s, n);
      assert s[0..] == s;
    } else {
      var one, v := Utf8Of(s[0]), Utf8(s[1..]);
      SplitBytes(s[1..], n - |one|);
      var k := Complete(s[1..], n - |one|);
      var done := Utf8(s[1..][..k]);
      assert s[..k + 1][1..] == s[1..][..k] && s[k + 1..] == s[1..][k..];
      assert Utf8(s[..k + 1]) == one + done;
      SplitCons(one, v, done, n, v[|done|..n - |one|]);
    }
  }

  /** One chunk decodes to the characters it completes; what is carried on is again a proper prefix. */
  lemma {:induction false} ChunkDecodes(s: string, bytes: seq<Byte>, lossy: Lossy)
    requires Decodes(lossy) && |bytes| <= |Utf8(s)| && bytes == Utf8(s)[..|bytes|]
    ensures var k := Complete(s, |bytes|);
            && DecodeText(bytes, lossy) == s[..k]
            && ProperTail(DecodeTail(bytes), s[k..])
            && |bytes| == |Utf8(s[..k])| + |DecodeTail(bytes)|
  {
    var k := Complete(s, |bytes|);
    SplitBytes(s, |bytes|);
    CutProper(s[..k], Utf8(s)[|Utf8(s[..k])|..|bytes|], s[k..]);
  }

  lemma {:induction false} CutProper(a: string, p: seq<Byte>, rest: string)
    requires ProperTail(p, rest)
    ensures var bytes := Utf8(a) + p;
            && CutFrom(bytes, 1) == |Utf8(a)| && bytes[..|Utf8(a)|] == Utf8(a) && bytes[|Utf8(a)|..] == p
  {
    Seam(Utf8(a), p);
    if rest != "" {
      CutAtCharacter(a, rest[0], |p|);
    } else {
      CutAtCharacter(a, 'a', 0);
    }
  }

  // ------------------------------------------------------------------------ framing

  /** `replace("\r\n", "\n")` */
  function Unix(s: string): string
    decreases |s|
  {
    if s == "" then ""
    else if |s| >= 2 && s[0] == '\r' && s[1] == '\n' then ['\n'] + Unix(s[2..])
    else [s[0]] + Unix(s[1..])
  }

  /** Where the first blank line is, |t| if there is none. */
  function Blank(t: string): (i: nat)
    ensures i <= |t| && (i < |t| ==> i + 2 <= |t|)
  {
    if |t| < 2 then |t|
    else if t[0] == '\n' && t[1] == '\n' then 0
    else 1 + Blank(t[1..])
  }

  /** The complete frames of a buffer, and what is left. */
  function Frames(t: string): seq<string>
    decreases |t|
  {
    var i := Blank(t);
    if i == |t| then [] else [t[..i]] + Frames(t[i + 2..])
  }

  function Rest(t: string): string
    decreases |t|
  {
    var i := Blank(t);
    if i == |t| then t else Rest(t[i + 2..])
  }

  const SSE_BUF_MAX: nat := 4 * 1024 * 1024

  /** Where the last line break is, |t| if there is none. */
  function LastBreak(t: string): (i: nat)
    ensures i <= |t| && (i < |t| ==> t[i] == '\n')
  {
    if t == "" then 0
    else if t[|t| - 1] == '\n' then |t| - 1
    else
      var i := LastBreak(t[..|t| - 1]);
      if i == |t| - 1 then |t| else i
  }

  /** A frame handed to restore_frame: whether it is the stream's last, and whether a blank line follows it. */
  datatype Framed = Framed(text: string, final: bool, delim: bool)

  function Plainly(fs: seq<string>): (r: seq<Framed>)
    ensures |r| == |fs|
  {
    if fs == [] then [] else [Framed(fs[0], false, true)] + Plainly(fs[1..])
  }

  datatype Buffers = Buffers(buf: string, tail: seq<Byte>)

  /** Frames are taken out; a buffer that has grown too long is cut by force. */
  function Absorb(buf: string): (string, seq<Framed>) {
    var rest := Rest(buf);
    if Utf8Size(rest) <= SSE_BUF_MAX then (rest, Plainly(Frames(buf)))
    else
      var i := LastBreak(rest);
      if i < |rest| then (rest[i + 1..], Plainly(Frames(buf)) + [Framed(rest[..i], true, true)])
      else ("", Plainly(Frames(buf)) + [Framed(rest, true, true)])
  }

  /** push with data; push at the end of the stream, where data is empty. */
  function Pushed(st: Buffers, data: seq<Byte>, lossy: Lossy): (Buffers, seq<Framed>) {
    if data == [] then
      var text := if st.tail != [] then lossy(st.tail) else DecodeText([], lossy);
      var (rest, frames) := Absorb(st.buf + Unix(text));
      (Buffers("", []), frames + (if rest != "" then [Framed(rest, true, false)] else []))
    else
      var (rest, frames) := Absorb(st.buf + Unix(DecodeText(st.tail + data, lossy)));
      (Buffers(rest, DecodeTail(st.tail + data)), frames)
  }

  /** All the frames of a stream: its chunks, then its end. */
  function Stream(st: Buffers, chunks: seq<seq<Byte>>, lossy: Lossy): seq<Framed>
    decreases |chunks|
  {
    if chunks == [] then Pushed(st, [], lossy).1
    else Pushed(st, chunks[0], lossy).1 + Stream(Pushed(st, chunks[0], lossy).0, chunks[1..], lossy)
  }

  class StreamState {
    var buf: string
    var utf8Tail: seq<Byte>

    function Now(): Buffers reads this { Buffers(buf, utf8Tail) }

    constructor ()
      ensures Now() == Buffers("", [])
    {
      buf, utf8Tail := "", [];
    }

    method DecodeChunk(data: seq<Byte>, lossy: Lossy) returns (text: string)
      modifies this`utf8Tail
      ensures text == DecodeText(old(utf8Tail) + data, lossy) && utf8Tail == DecodeTail(old(utf8Tail) + data)
    {
      var bytes := utf8Tail + data;
      var cut := |bytes|;
      var back := 1;
      while back <= 3 && back <= |bytes|
        invariant 1 <= back <= 4 && cut == |bytes| && CutFrom(bytes, 1) == CutFrom(bytes, back)
      {
        var need := Need(bytes[|bytes| - back]);
        if need != 0 {
          if back < need { cut := |bytes| - back; }
          break;
        }
        back := back + 1;
      }
      assert cut == CutFrom(bytes, 1);
      utf8Tail := bytes[cut..];
      text := lossy(bytes[..cut]);
    }

    method Push(data: seq<Byte>, lossy: Lossy) returns (frames: seq<Framed>)
      modifies this
      ensures (Now(), frames) == Pushed(old(Now()), data, lossy)
      ensures |utf8Tail| <= 3
    {
      var text;
      if data == [] && utf8Tail != [] {
        text := lossy(utf8Tail);
        utf8Tail := [];
      } else {
        assert data == [] ==> utf8Tail + data == [] && DecodeTail([]) == [];
        text := DecodeChunk(data, lossy);
      }
      buf := buf + Unix(text);
      frames := TakeFrames();
      assert frames + [] == frames;
      if data == [] && buf != "" {
        frames := frames + [Framed(buf, true, false)];
        buf := "";
      }
    }

    /** The frame loop of push and the cut by force behind it. */
    method TakeFrames() returns (frames: seq<Framed>)
      modifies this`buf
      ensures (buf, frames) == Absorb(old(buf))
    {
      frames := [];
      while Blank(buf) < |buf|
        invariant Rest(old(buf)) == Rest(buf) && Plainly(Frames(old(buf))) == frames + Plainly(Frames(buf))
        decreases |buf|
      {
        var i := Blank(buf);
        PlainlyFirst(buf[..i], Frames(buf[i + 2..]));
        frames := frames + [Framed(buf[..i], false, true)];
        buf := buf[i + 2..];
      }
      assert Plainly(Frames(buf)) == [] && frames + [] == frames;
      if Utf8Size(buf) > SSE_BUF_MAX {
        var i := LastBreak(buf);
        if i < |buf| {
          frames := frames + [Framed(buf[..i], true, true)];
          buf := buf[i + 1..];
        } else {
          frames := frames + [Framed(buf, true, true)];
          buf := "";
        }
      }
    }
  }

  lemma {:induction false} PlainlyFirst(f: string, fs: seq<string>)
    ensures Plainly([f] + fs) == [Framed(f, false, true)] + Plainly(fs)
  {
    assert ([f] + fs)[1..] == fs;
  }

  // ------------------------------------------------------------------ cut invariance

  lemma {:induction false} BlankStays(t: string, x: string)
    requires Blank(t) < |t|
    ensures Blank(t + x) == Blank(t)
    decreases |t|
  {
    if !(t[0] == '\n' && t[1] == '\n') {
      assert (t + x)[1..] == t[1..] + x;
      BlankStays(t[1..], x);
    }
  }

  lemma {:induction false} FirstFrame(t: string, x: string)
    requires Blank(t) < |t|
    ensures var i := Blank(t);
            Blank(t + x) == i && (t + x)[..i] == t[..i] && (t + x)[i + 2..] == t[i + 2..] + x
  {
    BlankStays(t, x);
  }

  /** Frames may be taken out as soon as they are complete. */
  lemma {:induction false} FramesStream(t: string, x: string)
    ensures Frames(t + x) == Frames(t) + Frames(Rest(t) + x) && Rest(t + x) == Rest(Rest(t) + x)
    decreases |t|
  {
    var i := Blank(t);
    if i < |t| {
      FirstFrame(t, x);
      FramesStream(t[i + 2..], x);
      Assoc([t[..i]], Frames(t[i + 2..]), Frames(Rest(t) + x));
    }
  }

  lemma {:induction false} PlainlyConcat(a: seq<string>, b: seq<string>)
    ensures Plainly(a + b) == Plainly(a) + Plainly(b)
  {
    if a == [] { assert a + b == b; }
    else { assert (a + b)[0] == a[0] && (a + b)[1..] == a[1..] + b; PlainlyConcat(a[1..], b); }
  }

  /** The seam of a and b falls between CR and LF. */
  predicate CutsCrLf(a: string, b: string) { a != "" && b != "" && a[|a| - 1] == '\r' && b[0] == '\n' }

  lemma {:induction false} UnixConcat(a: string, b: string)
    requires !CutsCrLf(a, b)
    ensures Unix(a + b) == Unix(a) + Unix(b)
    decreases |a|
  {
    if a == "" {
      assert a + b == b;
    } else if |a| >= 2 && a[0] == '\r' && a[1] == '\n' {
      UnixConcat(a[2..], b);
      UnixPair(a, b);
    } else {
      assert |a| > 1 ==> a[1..][|a| - 2] == a[|a| - 1];
      UnixConcat(a[1..], b);
      UnixOne(a, b);
    }
  }

  lemma {:induction false} UnixPair(a: string, b: string)
    requires |a| >= 2 && a[0] == '\r' && a[1] == '\n' && Unix(a[2..] + b) == Unix(a[2..]) + Unix(b)
    ensures Unix(a + b) == Unix(a) + Unix(b)
  {
    assert (a + b)[2..] == a[2..] + b;
    Assoc(['\n'], Unix(a[2..]), Unix(b));
  }

  lemma {:induction false} UnixOne(a: string, b: string)
    requires a != "" && !CutsCrLf(a, b) && !(|a| >= 2 && a[0] == '\r' && a[1] == '\n')
    requires Unix(a[1..] + b) == Unix(a[1..]) + Unix(b)
    ensures Unix(a + b) == Unix(a) + Unix(b)
  {
    var s := a + b;
    assert s[1..] == a[1..] + b;
    assert s[0] == a[0] && (|a| >= 2 ==> s[1] == a[1]) && (|a| == 1 && b != "" ==> s[1] == b[0]);
    Assoc([a[0]], Unix(a[1..]), Unix(b));
  }

  /** No unfinished frame ever exceeds the limit. */
  ghost predicate Bounded(buf: string, s: string) {
    forall j :: 0 <= j <= |s| ==> Utf8Size(Rest(buf + Unix(s[..j]))) <= SSE_BUF_MAX
  }

  function Joined(chunks: seq<seq<Byte>>): seq<Byte> {
    if chunks == [] then [] else chunks[0] + Joined(chunks[1..])
  }

  const CR: Byte := 13
  const LF: Byte := 10

  ghost predicate NonEmpty(chunks: seq<seq<Byte>>) { forall i :: 0 <= i < |chunks| ==> chunks[i] != [] }

  /** Chunks are not empty and none ends between CR and LF. */
  ghost predicate FairCut(chunks: seq<seq<Byte>>) {
    && NonEmpty(chunks)
    && (forall i :: 0 <= i < |chunks| - 1 ==> chunks[i][|chunks[i]| - 1] != CR || chunks[i + 1][0] != LF)
  }

  /** What the frames are, said of the text alone. */
  function Expected(t: string): seq<Framed> {
    Plainly(Frames(t)) + (if Rest(t) != "" then [Framed(Rest(t), true, false)] else [])
  }

  lemma {:induction false} LastByte(t: string)
    requires t != ""
    ensures Utf8(t) != [] && Utf8(t)[|Utf8(t)| - 1] == Utf8Of(t[|t| - 1])[|Utf8Of(t[|t| - 1])| - 1]
  {
    var n := |t| - 1;
    assert t == t[..n] + [t[n]];
    Utf8Concat(t[..n], [t[n]]);
    assert Utf8([t[n]]) == Utf8Of(t[n]) + Utf8([]);
  }

  lemma {:induction false} NonEmptyTail(chunks: seq<seq<Byte>>)
    requires chunks != [] && NonEmpty(chunks)
    ensures NonEmpty(chunks[1..])
  {
    var rest := chunks[1..];
    forall i | 0 <= i < |rest| ensures rest[i] != [] { assert chunks[i + 1] != []; }
  }

  lemma {:induction false} FairTail(chunks: seq<seq<Byte>>)
    requires chunks != [] && FairCut(chunks)
    ensures FairCut(chunks[1..])
  {
    var rest := chunks[1..];
    NonEmptyTail(chunks);
    forall i | 0 <= i < |rest| - 1 ensures rest[i][|rest[i]| - 1] != CR || rest[i + 1][0] != LF {
      assert chunks[i + 1][|chunks[i + 1]| - 1] != CR || chunks[i + 2][0] != LF;
    }
  }

  /** a ends with CR and b begins with LF. */
  predicate Parts(a: seq<Byte>, b: seq<Byte>) { a != [] && b != [] && a[|a| - 1] == CR && b[0] == LF }

  lemma {:induction false} OneByte(c: char, i: nat)
    requires i < |Utf8Of(c)| && Utf8Of(c)[i] < 0x80
    ensures |Utf8Of(c)| == 1 && c as int == Utf8Of(c)[i]
  {
  }

  /** The bytes so far end with CR if and only if their text does and nothing is carried. */
  lemma {:induction false} EndsWithCr(a: string, tail: seq<Byte>, b: string)
    requires ProperTail(tail, b)
    ensures var bytes := Utf8(a) + tail;
            bytes != [] && bytes[|bytes| - 1] == CR <==> tail == [] && a != "" && a[|a| - 1] == '\r'
  {
    var bytes := Utf8(a) + tail;
    if tail != [] {
      assert bytes[|bytes| - 1] == Utf8Of(b[0])[|tail| - 1];
      if bytes[|bytes| - 1] == CR { OneByte(b[0], |tail| - 1); }
    } else if a != "" {
      LastByte(a);
      var c := a[|a| - 1];
      if bytes[|bytes| - 1] == CR { OneByte(c, |Utf8Of(c)| - 1); }
    }
  }

  lemma {:induction false} StartsWithLf(b: string)
    ensures Utf8(b) != [] && Utf8(b)[0] == LF <==> b != "" && b[0] == '\n'
  {
    if b != "" && Utf8(b)[0] == LF { OneByte(b[0], 0); }
  }

  /** A seam of chunks parts CR from LF in the bytes if and only if it does in the text. */
  lemma {:induction false} SeamIff(a: string, b: string, bytes: seq<Byte>, tail: seq<Byte>, chunks: seq<seq<Byte>>)
    requires chunks != [] && NonEmpty(chunks) && |chunks[0]| <= |bytes| && bytes[|bytes| - |chunks[0]|..] == chunks[0]
    requires bytes == Utf8(a) + tail && ProperTail(tail, b) && tail + Joined(chunks[1..]) == Utf8(b)
    ensures CutsCrLf(a, b) <==> |chunks| > 1 && Parts(chunks[0], chunks[1])
  {
    assert chunks[0] != [] && chunks[0][|chunks[0]| - 1] == bytes[|bytes| - 1];
    EndsWithCr(a, tail, b);
    StartsWithLf(b);
    if tail == [] {
      assert Joined(chunks[1..]) == Utf8(b);
      if |chunks| > 1 { assert chunks[1] != [] && Joined(chunks[1..])[0] == chunks[1][0]; }
    }
  }

  lemma {:induction false} BoundedRest(buf: string, s: string, k: nat)
    requires k <= |s| && Bounded(buf, s) && !CutsCrLf(s[..k], s[k..])
    ensures Bounded(Rest(buf + Unix(s[..k])), s[k..])
  {
    var t := s[k..];
    forall j | 0 <= j <= |t| ensures Utf8Size(Rest(Rest(buf + Unix(s[..k])) + Unix(t[..j]))) <= SSE_BUF_MAX {
      FramesStream(buf + Unix(s[..k]), Unix(t[..j]));
      UnixConcat(s[..k], t[..j]);
      assert s[..k + j] == s[..k] + t[..j];
      Assoc(buf, Unix(s[..k]), Unix(t[..j]));
      assert Utf8Size(Rest(buf + Unix(s[..k + j]))) <= SSE_BUF_MAX;
    }
  }

  lemma {:induction false} ExpectedStep(t: string, x: string)
    ensures Expected(t + x) == Plainly(Frames(t)) + Expected(Rest(t) + x)
  {
    FramesStream(t, x);
    PlainlyConcat(Frames(t), Frames(Rest(t) + x));
  }

  /** What a chunk completes, what it leaves, and what is still to come. */
  lemma {:induction false} OneChunk(s: string, tail: seq<Byte>, chunks: seq<seq<Byte>>, lossy: Lossy) returns (k: nat)
    requires Decodes(lossy) && chunks != [] && NonEmpty(chunks) && tail + Joined(chunks) == Utf8(s)
    ensures k <= |s| && (CutsCrLf(s[..k], s[k..]) <==> |chunks| > 1 && Parts(chunks[0], chunks[1]))
    ensures DecodeText(tail + chunks[0], lossy) == s[..k]
    ensures var tail' := DecodeTail(tail + chunks[0]);
            ProperTail(tail', s[k..]) && tail' + Joined(chunks[1..]) == Utf8(s[k..])
  {
    var bytes, more := tail + chunks[0], Joined(chunks[1..]);
    Assoc(tail, chunks[0], more);
    Seam(bytes, more);
    k := Complete(s, |bytes|);
    ChunkDecodes(s, bytes, lossy);
    SplitBytes(s, |bytes|);
    var tail' := DecodeTail(bytes);
    CutProper(s[..k], Utf8(s)[|Utf8(s[..k])|..|bytes|], s[k..]);
    Halves(s, k);
    Utf8Concat(s[..k], s[k..]);
    Assoc(Utf8(s[..k]), tail', more);
    Cancel(Utf8(s[..k]), tail' + more, Utf8(s[k..]));
    assert bytes[|bytes| - |chunks[0]|..] == chunks[0];
    SeamIff(s[..k], s[k..], bytes, tail', chunks);
  }

  lemma {:induction false} StreamIsExpected(s: string, tail: seq<Byte>, buf: string, chunks: seq<seq<Byte>>, lossy: Lossy)
    requires Decodes(lossy) && FairCut(chunks) && tail + Joined(chunks) == Utf8(s)
    requires ProperTail(tail, s) && Bounded(buf, s)
    ensures Stream(Buffers(buf, tail), chunks, lossy) == Expected(buf + Unix(s))
    decreases |chunks|
  {
    if chunks == [] {
      assert tail == Utf8(s);
      StreamEnds(s, tail, buf, lossy);
    } else {
      var k := OneChunk(s, tail, chunks, lossy);
      var t := buf + Unix(s[..k]);
      assert Utf8Size(Rest(t)) <= SSE_BUF_MAX;
      assert chunks[0] != [];
      BoundedRest(buf, s, k);
      FairTail(chunks);
      StreamIsExpected(s[k..], DecodeTail(tail + chunks[0]), Rest(t), chunks[1..], lossy);
      ExpectedStep(t, Unix(s[k..]));
      Halves(s, k);
      UnixConcat(s[..k], s[k..]);
      Assoc(buf, Unix(s[..k]), Unix(s[k..]));
    }
  }

  lemma {:induction false} FirstFits(s: string)
    ensures s != "" ==> |Utf8(s)| >= |Utf8Of(s[0])|
  {
  }

  lemma {:induction false} StreamEnds(s: string, tail: seq<Byte>, buf: string, lossy: Lossy)
    requires Decodes(lossy) && tail == Utf8(s) && ProperTail(tail, s) && Bounded(buf, s)
    ensures Pushed(Buffers(buf, tail), [], lossy).1 == Expected(buf + Unix(s))
  {
    FirstFits(s);
    assert s == "";
    assert Utf8("") == [] && lossy(Utf8("")) == "";
    assert DecodeText([], lossy) == "";
    assert s[..0] == "" && buf + "" == buf;
    assert Utf8Size(Rest(buf + Unix(s[..0]))) <= SSE_BUF_MAX;
  }

  /**
   Byte-cut invariance: for any UTF-8 text, however its bytes are cut into non-empty chunks
   that do not part CR from LF, the frames are those of the text itself.
   */
  lemma {:induction false} ByteCutInvariance(s: string, chunks: seq<seq<Byte>>, lossy: Lossy)
    requires Decodes(lossy) && FairCut(chunks) && Joined(chunks) == Utf8(s) && Bounded("", s)
    ensures Stream(Buffers("", []), chunks, lossy) == Expected(Unix(s))
  {
    assert [] + Joined(chunks) == Utf8(s);
    StreamIsExpected(s, [], "", chunks, lossy);
    assert "" + Unix(s) == Unix(s);
  }

  /** What is carried from chunk to chunk is always a proper prefix of one character. */
  lemma {:induction false} CarriedIsProper(s: string, tail: seq<Byte>, chunks: seq<seq<Byte>>, lossy: Lossy)
    requires Decodes(lossy) && chunks != [] && NonEmpty(chunks) && tail + Joined(chunks) == Utf8(s)
    ensures exists k :: 0 <= k <= |s| && ProperTail(DecodeTail(tail + chunks[0]), s[k..])
  {
    var k := OneChunk(s, tail, chunks, lossy);
  }

  // ------------------------------------------------- exactly which cuts change the frames

  function Crs(t: string): nat { if t == "" then 0 else (if t[0] == '\r' then 1 else 0) + Crs(t[1..]) }

  function FrameCrs(fs: seq<Framed>): nat { if fs == [] then 0 else Crs(fs[0].text) + FrameCrs(fs[1..]) }

  /** How many seams of the chunks part CR from LF. */
  function Parted(chunks: seq<seq<Byte>>): nat {
    if |chunks| < 2 then 0 else (if Parts(chunks[0], chunks[1]) then 1 else 0) + Parted(chunks[1..])
  }

  lemma {:induction false} CrsConcat(a: string, b: string)
    ensures Crs(a + b) == Crs(a) + Crs(b)
  {
    if a == "" { assert a + b == b; }
    else { assert (a + b)[0] == a[0] && (a + b)[1..] == a[1..] + b; CrsConcat(a[1..], b); }
  }

  lemma {:induction false} FrameCrsConcat(a: seq<Framed>, b: seq<Framed>)
    ensures FrameCrs(a + b) == FrameCrs(a) + FrameCrs(b)
  {
    if a == [] { assert a + b == b; }
    else { assert (a + b)[0] == a[0] && (a + b)[1..] == a[1..] + b; FrameCrsConcat(a[1..], b); }
  }

  lemma {:induction false} OneFrameCrs(f: Framed)
    ensures FrameCrs([f]) == Crs(f.text)
  {
    assert [f][1..] == [];
  }

  /** A text with its line feeds from i to j left out has all its CRs. */
  lemma {:induction false} CrsSkip(t: string, i: nat, j: nat)
    requires i <= j <= |t| && forall k :: i <= k < j ==> t[k] == '\n'
    ensures Crs(t) == Crs(t[..i]) + Crs(t[j..])
  {
    if i == j {
      Halves(t, i);
      CrsConcat(t[..i], t[i..]);
    } else {
      CrsSkip(t, i, j - 1);
      assert t[j - 1..][1..] == t[j..];
    }
  }

  lemma {:induction false} BlankIs(t: string)
    ensures Blank(t) < |t| ==> t[Blank(t)] == '\n' && t[Blank(t) + 1] == '\n'
  {
    if |t| >= 2 && !(t[0] == '\n' && t[1] == '\n') { BlankIs(t[1..]); }
  }

  /** Taking frames out loses line feeds only. */
  lemma {:induction false} FramesCrs(t: string)
    ensures FrameCrs(Plainly(Frames(t))) + Crs(Rest(t)) == Crs(t)
    decreases |t|
  {
    var i := Blank(t);
    if i < |t| {
      BlankIs(t);
      CrsSkip(t, i, i + 2);
      FramesCrs(t[i + 2..]);
      PlainlyFirst(t[..i], Frames(t[i + 2..]));
      FrameCrsConcat([Framed(t[..i], false, true)], Plainly(Frames(t[i + 2..])));
      OneFrameCrs(Framed(t[..i], false, true));
    }
  }

  /** So does the cut by force. */
  lemma {:induction false} AbsorbCrs(buf: string)
    ensures FrameCrs(Absorb(buf).1) + Crs(Absorb(buf).0) == Crs(buf)
  {
    FramesCrs(buf);
    var rest := Rest(buf);
    if Utf8Size(rest) > SSE_BUF_MAX {
      var i := LastBreak(rest);
      var f := Framed(if i < |rest| then rest[..i] else rest, true, true);
      if i < |rest| { CrsSkip(rest, i, i + 1); }
      FrameCrsConcat(Plainly(Frames(buf)), [f]);
      OneFrameCrs(f);
    }
  }

  lemma {:induction false} EndCrs(frames: seq<Framed>, rest: string, delim: bool)
    ensures FrameCrs(frames + (if rest != "" then [Framed(rest, true, delim)] else [])) == FrameCrs(frames) + Crs(rest)
  {
    if rest != "" {
      FrameCrsConcat(frames, [Framed(rest, true, delim)]);
      OneFrameCrs(Framed(rest, true, delim));
    } else {
      Whole(frames);
    }
  }

  lemma {:induction false} ExpectedCrs(t: string)
    ensures FrameCrs(Expected(t)) == Crs(t)
  {
    FramesCrs(t);
    EndCrs(Plainly(Frames(t)), Rest(t), false);
  }

  lemma {:induction false} PairCrs(t: string)
    ensures Crs(Unix("\r")) == 1 && Crs(Unix("\n" + t)) == Crs(Unix(t)) && Crs(Unix("\r\n" + t)) == Crs(Unix(t))
  {
    assert "\r"[1..] == "" && Unix("\r") == "\r" + Unix("");
    assert ("\r\n" + t)[2..] == t && ("\n" + t)[1..] == t;
    assert (['\n'] + Unix(t))[1..] == Unix(t);
  }

  /** A pair taken apart is not recognised, so its CR stays. */
  lemma {:induction false} UnixCrs(a: string, b: string)
    ensures Crs(Unix(a)) + Crs(Unix(b)) == Crs(Unix(a + b)) + if CutsCrLf(a, b) then 1 else 0
  {
    if CutsCrLf(a, b) {
      var h, t := a[..|a| - 1], b[1..];
      assert a == h + "\r" && b == "\n" + t && a + b == h + ("\r\n" + t);
      UnixConcat(h, "\r");
      UnixConcat(h, "\r\n" + t);
      CrsConcat(Unix(h), Unix("\r"));
      CrsConcat(Unix(h), Unix("\r\n" + t));
      PairCrs(t);
    } else {
      UnixConcat(a, b);
      CrsConcat(Unix(a), Unix(b));
    }
  }

  lemma {:induction false} EndOfStreamCrs(buf: string, lossy: Lossy)
    requires Decodes(lossy)
    ensures FrameCrs(Pushed(Buffers(buf, []), [], lossy).1) == Crs(buf)
  {
    assert Utf8("") == [] && lossy(Utf8("")) == "" && DecodeText([], lossy) == "";
    assert buf + Unix("") == buf;
    AbsorbCrs(buf);
    EndCrs(Absorb(buf).1, Absorb(buf).0, false);
  }

  /** However long the frames are: each pair parted leaves one CR more in them than the text has. */
  lemma {:induction false} StreamCrs(s: string, tail: seq<Byte>, buf: string, chunks: seq<seq<Byte>>, lossy: Lossy)
    requires Decodes(lossy) && NonEmpty(chunks) && tail + Joined(chunks) == Utf8(s) && ProperTail(tail, s)
    ensures FrameCrs(Stream(Buffers(buf, tail), chunks, lossy)) == Crs(buf) + Crs(Unix(s)) + Parted(chunks)
    decreases |chunks|
  {
    if chunks == [] {
      assert tail == Utf8(s);
      FirstFits(s);
      EndOfStreamCrs(buf, lossy);
    } else {
      var k := OneChunk(s, tail, chunks, lossy);
      var t := buf + Unix(s[..k]);
      var (rest, frames) := Absorb(t);
      assert chunks[0] != [];
      NonEmptyTail(chunks);
      StreamCrs(s[k..], DecodeTail(tail + chunks[0]), rest, chunks[1..], lossy);
      FrameCrsConcat(frames, Stream(Buffers(rest, DecodeTail(tail + chunks[0])), chunks[1..], lossy));
      AbsorbCrs(t);
      CrsConcat(buf, Unix(s[..k]));
      Halves(s, k);
      UnixCrs(s[..k], s[k..]);
      PartedFirst(chunks);
    }
  }

  lemma {:induction false} PartedFirst(chunks: seq<seq<Byte>>)
    requires chunks != []
    ensures Parted(chunks) == Parted(chunks[1..]) + if |chunks| > 1 && Parts(chunks[0], chunks[1]) then 1 else 0
  {
  }

  lemma {:induction false} NoneParted(chunks: seq<seq<Byte>>)
    requires NonEmpty(chunks)
    ensures Parted(chunks) == 0 ==> FairCut(chunks)
  {
    if |chunks| > 1 && Parted(chunks) == 0 {
      var rest := chunks[1..];
      NonEmptyTail(chunks);
      NoneParted(rest);
      forall i | 0 <= i < |chunks| - 1 ensures chunks[i][|chunks[i]| - 1] != CR || chunks[i + 1][0] != LF {
        assert chunks[i] != [] && chunks[i + 1] != [];
        if i > 0 { assert rest[i - 1] == chunks[i] && rest[i] == chunks[i + 1]; }
      }
    }
  }

  /**
   Exactly when: the frames are those of the text if and only if no chunk ends between a CR
   and its LF.
   */
  lemma {:induction false} CutChangesFramesIff(s: string, chunks: seq<seq<Byte>>, lossy: Lossy)
    requires Decodes(lossy) && NonEmpty(chunks) && Joined(chunks) == Utf8(s) && Bounded("", s)
    ensures Stream(Buffers("", []), chunks, lossy) == Expected(Unix(s)) <==> FairCut(chunks)
  {
    if FairCut(chunks) { ByteCutInvariance(s, chunks, lossy); }
    assert [] + Joined(chunks) == Utf8(s);
    StreamCrs(s, [], "", chunks, lossy);
    ExpectedCrs(Unix(s));
    NoneParted(chunks);
  }

  /** For instance, a blank line cut between its last CR and LF is missed altogether. */
  lemma {:induction false} CrLfCutMatters()
    ensures var s := "\r\n\r\n"; Frames(Unix(s)) == [""] && Frames(Unix(s[..3]) + Unix(s[3..])) == []
  {
    var s := "\r\n\r\n";
    assert s[2..] == "\r\n" && s[2..][2..] == "";
    assert Unix(s[2..]) == "\n" + Unix("");
    assert Unix(s) == "\n\n";
    assert Blank(Unix(s)) == 0 && Unix(s)[2..] == "" && Unix(s)[..0] == "";
    var a := s[..3];
    assert a == "\r\n\r" && a[2..] == "\r" && a[2..][1..] == "";
    assert Unix(a[2..]) == "\r" + Unix("");
    assert Unix(a) == "\n\r";
    assert s[3..] == "\n" && s[3..][1..] == "";
    var t := "\n\r\n";
    assert Unix(a) + Unix(s[3..]) == t;
    assert t[1..] == "\r\n" && t[1..][1..] == "\n";
    assert Blank(t[1..][1..]) == 1 && Blank(t[1..]) == 2 && Blank(t) == 3;
  }
}
