/** The tap on a streamed answer: an incremental line reader with a bounded buffer. */
module SseTap {
  import opened Options

  newtype byte = x: int | 0 <= x < 256

  type Bytes = seq<byte>

  const NEWLINE: byte := 10
  const MAX_LOGGED_CHARS := 262144

  /** What one line tells the tap: nothing, the end marker, or a chunk with usage or text. */
  datatype Effect = Ignored | EndMarker | Chunk(usage: Option<(int, int)>, delta: Option<string>)

  /** Decodes a line: its UTF-8, the `data:` prefix and the JSON behind it. */
  type Reader = Bytes -> Effect

  datatype Tap = Tap(pending: Bytes, usage: Option<(int, int)>, text: string, done: bool)

  const FRESH := Tap([], None, "", false)

  function Spaces(n: nat): string {
    seq(n, _ => ' ')
  }

  /** The length of a text in UTF-8 bytes. */
  function ByteLength(text: string): nat {
    if text == [] then 0
    else
      var c := text[0] as int;
      (if c < 0x80 then 1 else if c < 0x800 then 2 else if c < 0x1_0000 then 3 else 4) + ByteLength(text[1..])
  }

  function Logged(text: string, delta: string, keep: bool): string {
    if !keep then text + Spaces(if |delta| < MAX_LOGGED_CHARS then |delta| else MAX_LOGGED_CHARS)
    else if ByteLength(text) < MAX_LOGGED_CHARS then text + delta
    else text
  }

  function Apply(t: Tap, e: Effect, keep: bool): Tap {
    match e
    case Ignored => t
    case EndMarker => t.(done := true)
    case Chunk(usage, delta) =>
      t.(usage := if usage.Some? then usage else t.usage,
      text := if delta.Some? then Logged(t.text, delta.value, keep) else t.text)
  }

  // ----- lines -----

  /** The index of the first newline, or the length when there is none. */
  function FirstNewline(s: Bytes): (k: nat)
    ensures k <= |s| && (forall i :: 0 <= i < k ==> s[i] != NEWLINE) && (k < |s| ==> s[k] == NEWLINE)
  {
    if s == [] || s[0] == NEWLINE then 0 else 1 + FirstNewline(s[1..])
  }

  predicate HasLine(s: Bytes) {
    FirstNewline(s) < |s|
  }

  /** The first line with its newline, and what follows it. */
  function Head(s: Bytes): Bytes
    requires HasLine(s)
  {
    s[..FirstNewline(s) + 1]
  }

  function Tail(s: Bytes): Bytes
    requires HasLine(s)
  {
    s[FirstNewline(s) + 1..]
  }

  /** The complete lines of a stream, and the unfinished rest. */
  function Lines(s: Bytes): seq<Bytes>
    decreases |s|
  {
    if HasLine(s) then [Head(s)] + Lines(Tail(s)) else []
  }

  function Rest(s: Bytes): Bytes
    decreases |s|
  {
    if HasLine(s) then Rest(Tail(s)) else s
  }

  /** A runaway rest is dropped. */
  function Cut(s: Bytes): Bytes {
    if |s| > MAX_LOGGED_CHARS then [] else s
  }

  function ReadLines(t: Tap, lines: seq<Bytes>, read: Reader, keep: bool): Tap {
    if lines == [] then t
    else Apply(ReadLines(t, lines[..|lines| - 1], read, keep), read(lines[|lines| - 1]), keep)
  }

  /** The effect of feeding bytes. */
  function Fed(t: Tap, bytes: Bytes, read: Reader, keep: bool): Tap {
    var s := t.pending + bytes;
    ReadLines(t, Lines(s), read, keep).(pending := Cut(Rest(s)))
  }

  function FedAll(t: Tap, chunks: seq<Bytes>, read: Reader, keep: bool): Tap {
    if chunks == [] then t else Fed(FedAll(t, chunks[..|chunks| - 1], read, keep), chunks[|chunks| - 1], read, keep)
  }

  function Concat(chunks: seq<Bytes>): Bytes {
    if chunks == [] then [] else Concat(chunks[..|chunks| - 1]) + chunks[|chunks| - 1]
  }

  class Buffer {
    var pending: Bytes
    var usage: Option<(int, int)>
    var text: string
    var done: bool

    ghost function Contents(): Tap
      reads this
    {
      Tap(pending, usage, text, done)
    }

    constructor ()
      ensures Contents() == FRESH
    {
      pending, usage, text, done := [], None, "", false;
    }

    method Take(e: Effect, keep: bool)
      modifies this
      ensures Contents() == Apply(old(Contents()), e, keep)
    {
      match e
      case Ignored =>
      case EndMarker => done := true;
      case Chunk(u, delta) =>
        if u.Some? { usage := u; }
        if delta.Some? { text := Logged(text, delta.value, keep); }
    }

    /** Drains complete lines from the buffer, then drops a runaway rest. */
    method Feed(bytes: Bytes, read: Reader, keep: bool)
      modifies this
      ensures Contents() == Fed(old(Contents()), bytes, read, keep)
    {
      pending := pending + bytes;
      ghost var start := Contents();
      while HasLine(pending)
        invariant Drained(Contents(), read, keep) == Drained(start, read, keep)
        decreases |pending|
      {
        var end := FirstNewline(pending);
        var line := pending[..end + 1];
        DrainStep(Contents(), read, keep);
        pending := pending[end + 1..];
        Take(read(line), keep);
      }
      PendingIsApart(start, old(Contents()), Lines(start.pending), read, keep);
      if |pending| > MAX_LOGGED_CHARS { pending := []; }
    }
  }

  /** The tap once every complete line of its buffer is read. */
  function Drained(t: Tap, read: Reader, keep: bool): Tap {
    ReadLines(t, Lines(t.pending), read, keep).(pending := Rest(t.pending))
  }

  lemma {:induction false} DrainStep(t: Tap, read: Reader, keep: bool)
    requires HasLine(t.pending)
    ensures Drained(Apply(t.(pending := Tail(t.pending)), read(Head(t.pending)), keep), read, keep)
            == Drained(t, read, keep)
  {
    var head, tail := Head(t.pending), Tail(t.pending);
    ReadLinesAppend(t, [head], Lines(tail), read, keep);
    assert [head][..0] == [];
    var one := ReadLines(t, [head], read, keep);
    assert one == Apply(t, read(head), keep);
    PendingIsApart(one.(pending := tail), one, Lines(tail), read, keep);
  }

  /** Reading lines neither uses nor changes the buffer. */
  lemma {:induction false} PendingIsApart(t: Tap, u: Tap, lines: seq<Bytes>, read: Reader, keep: bool)
    requires t == u.(pending := t.pending)
    ensures ReadLines(t, lines, read, keep) == ReadLines(u, lines, read, keep).(pending := t.pending)
  {
    if lines != [] { PendingIsApart(t, u, lines[..|lines| - 1], read, keep); }
  }

  lemma {:induction false} ReadLinesAppend(t: Tap, a: seq<Bytes>, b: seq<Bytes>, read: Reader, keep: bool)
    ensures ReadLines(t, a + b, read, keep) == ReadLines(ReadLines(t, a, read, keep), b, read, keep)
    decreases |b|
  {
    if b == [] {
      assert a + b == a;
    } else {
      ReadLinesAppend(t, a, b[..|b| - 1], read, keep);
      assert (a + b)[..|a + b| - 1] == a + b[..|b| - 1];
    }
  }

  // ----- lines of a concatenation -----

  lemma {:induction false} NewlineOfPrefix(a: Bytes, b: Bytes)
    ensures HasLine(a) ==> HasLine(a + b) && Head(a + b) == Head(a) && Tail(a + b) == Tail(a) + b
  {
    if HasLine(a) {
      assert FirstNewline(a + b) == FirstNewline(a) by { NewlineIsUnique(a + b, FirstNewline(a)); }
    }
  }

  lemma {:induction false} NewlineIsUnique(s: Bytes, k: nat)
    requires k < |s| && s[k] == NEWLINE && forall i :: 0 <= i < k ==> s[i] != NEWLINE
    ensures FirstNewline(s) == k
  {
  }

  lemma {:induction false} LinesAppend(a: Bytes, b: Bytes)
    ensures Lines(a + b) == Lines(a) + Lines(Rest(a) + b)
    ensures Rest(a + b) == Rest(Rest(a) + b)
    decreases |a|
  {
    if HasLine(a) {
      NewlineOfPrefix(a, b);
      LinesAppend(Tail(a), b);
    }
  }

  lemma {:induction false} RestHasNoLine(s: Bytes)
    ensures !HasLine(Rest(s)) && |Rest(s)| <= |s|
    decreases |s|
  {
    if HasLine(s) { RestHasNoLine(Tail(s)); }
  }

  // ----- when chunking does not matter -----

  /** No line is longer than the buffer limit; the unfinished rest may be one byte longer. */
  ghost predicate Bounded(s: Bytes) {
    (forall i :: 0 <= i < |Lines(s)| ==> |Lines(s)[i]| - 1 <= MAX_LOGGED_CHARS) && |Rest(s)| <= MAX_LOGGED_CHARS + 1
  }

  /** Within bounds, the rest of a proper prefix fits the buffer. */
  lemma {:induction false} PrefixFits(a: Bytes, b: Bytes)
    requires Bounded(a + b) && b != []
    ensures |Rest(a)| <= MAX_LOGGED_CHARS
  {
    LinesAppend(a, b);
    RestHasNoLine(a);
    var r := Rest(a) + b;
    if HasLine(r) {
      assert FirstNewline(r) >= |Rest(a)|;
      assert Lines(a + b)[|Lines(a)|] == Lines(r)[0] == Head(r);
    }
  }

  lemma {:induction false} FedPrefix(t: Tap, a: Bytes, b: Bytes, read: Reader, keep: bool)
    requires t.pending == [] && Bounded(a + b)
    ensures Fed(Fed(t, a, read, keep), b, read, keep) == Fed(t, a + b, read, keep)
  {
    assert [] + a == a && [] + (a + b) == a + b;
    var mid := Fed(t, a, read, keep);
    if b == [] {
      assert a + b == a;
      RestHasNoLine(a);
      assert mid.pending + b == mid.pending;
      assert Lines([]) == [] && Lines(mid.pending) == [] && Cut(Rest(mid.pending)) == mid.pending;
    } else {
      PrefixFits(a, b);
      LinesAppend(a, b);
      var lines := Lines(Rest(a) + b);
      ReadLinesAppend(t, Lines(a), lines, read, keep);
      PendingIsApart(mid, ReadLines(t, Lines(a), read, keep), lines, read, keep);
    }
  }

  lemma {:induction false} BoundedPrefix(a: Bytes, b: Bytes)
    requires Bounded(a + b)
    ensures Bounded(a)
  {
    LinesAppend(a, b);
    assert forall i :: 0 <= i < |Lines(a)| ==> Lines(a)[i] == Lines(a + b)[i];
    if b == [] { assert a + b == a; } else { PrefixFits(a, b); }
  }

  /** Any split of a bounded stream leaves the tap as the whole stream would. */
  lemma {:induction false} ChunksAsWhole(chunks: seq<Bytes>, read: Reader, keep: bool)
    requires Bounded(Concat(chunks))
    ensures FedAll(FRESH, chunks, read, keep) == Fed(FRESH, Concat(chunks), read, keep)
  {
    if chunks != [] {
      var before, last := chunks[..|chunks| - 1], chunks[|chunks| - 1];
      BoundedPrefix(Concat(before), last);
      ChunksAsWhole(before, read, keep);
      FedPrefix(FRESH, Concat(before), last, read, keep);
    } else {
      assert FRESH.pending + [] == [];
    }
  }

  /** Every split gives what the whole stream gives, for every way of reading lines. */
  ghost predicate ChunkingIsInvisible(s: Bytes) {
    forall chunks: seq<Bytes>, read: Reader, keep: bool ::
      Concat(chunks) == s ==> FedAll(FRESH, chunks, read, keep) == Fed(FRESH, s, read, keep)
  }

  // ----- why the bound is needed -----

  /** The reader that counts one line. */
  function Counting(line: Bytes): Reader {
    l => if l == line then Chunk(None, Some("x")) else Ignored
  }

  lemma {:induction false} CountsLines(t: Tap, lines: seq<Bytes>, line: Bytes)
    ensures |ReadLines(t, lines, Counting(line), false).text| == |t.text| + multiset(lines)[line]
  {
    if lines != [] {
      var n := |lines| - 1;
      CountsLines(t, lines[..n], line);
      assert lines == lines[..n] + [lines[n]];
    }
  }

  /** Splitting the stream there loses a line or changes what stays in the buffer. */
  ghost predicate Harms(a: Bytes, b: Bytes, line: Bytes) {
    var r := Cut(Rest(a)) + b;
    Cut(Rest(r)) != Cut(Rest(a + b)) || multiset(Lines(a) + Lines(r))[line] < multiset(Lines(a + b))[line]
  }

  /** A stream out of bounds has a harmful split in two. */
  lemma {:induction false} BadSplit(s: Bytes) returns (a: Bytes, b: Bytes, line: Bytes)
    requires !Bounded(s)
    ensures a + b == s && Harms(a, b, line)
    decreases |s|
  {
    if !HasLine(s) {
      a, b, line := s[..|s| - 1], s[|s| - 1..], [];
      LongRestIsLost(s);
    } else if |Head(s)| - 1 > MAX_LOGGED_CHARS {
      a, b, line := s[..FirstNewline(s)], s[FirstNewline(s)..], Head(s);
      LongLineIsLost(s);
    } else {
      TailUnbounded(s);
      var a1, b1, line1 := BadSplit(Tail(s));
      a, b, line := Head(s) + a1, b1, line1;
      HarmAfterLine(Head(s), a1, b1, line1);
      assert Head(s) + (a1 + b1) == s;
    }
  }

  lemma {:induction false} LongRestIsLost(s: Bytes)
    requires !HasLine(s) && |s| > MAX_LOGGED_CHARS + 1
    ensures s[..|s| - 1] + s[|s| - 1..] == s && Harms(s[..|s| - 1], s[|s| - 1..], [])
  {
    var a, b := s[..|s| - 1], s[|s| - 1..];
    assert a + b == s;
    assert !HasLine(a) && !HasLine(b) && Cut(Rest(a)) + b == b;
  }

  /** A complete line in front changes neither the buffer nor what follows. */
  lemma {:induction false} AfterLine(head: Bytes, s: Bytes)
    requires head != [] && FirstNewline(head) == |head| - 1
    ensures Lines(head + s) == [head] + Lines(s) && Rest(head + s) == Rest(s)
  {
    NewlineIsUnique(head + s, |head| - 1);
    assert Head(head + s) == head && Tail(head + s) == s;
  }

  lemma {:induction false} HarmAfterLine(head: Bytes, a: Bytes, b: Bytes, line: Bytes)
    requires head != [] && FirstNewline(head) == |head| - 1 && Harms(a, b, line)
    ensures Harms(head + a, b, line) && head + a + b == head + (a + b)
  {
    assert head + a + b == head + (a + b);
    AfterLine(head, a);
    AfterLine(head, a + b);
    FewerAfterLine(head, Lines(a), Lines(Cut(Rest(a)) + b), Lines(a + b), line);
  }

  lemma {:induction false} FewerAfterLine(head: Bytes, x: seq<Bytes>, y: seq<Bytes>, z: seq<Bytes>, line: Bytes)
    ensures multiset(x + y)[line] < multiset(z)[line] <==> multiset([head] + x + y)[line] < multiset([head] + z)[line]
  {
    assert [head] + x + y == [head] + (x + y);
  }

  lemma {:induction false} TailUnbounded(s: Bytes)
    requires HasLine(s) && |Head(s)| - 1 <= MAX_LOGGED_CHARS && !Bounded(s)
    ensures !Bounded(Tail(s))
  {
    assert forall i :: 1 <= i < |Lines(s)| ==> Lines(s)[i] == Lines(Tail(s))[i - 1];
  }

  lemma {:induction false} FromNewline(s: Bytes)
    requires HasLine(s)
    ensures var b := s[FirstNewline(s)..]; Lines(b) == [[NEWLINE]] + Lines(Tail(s))
  {
    var b := s[FirstNewline(s)..];
    assert FirstNewline(b) == 0 && Head(b) == [NEWLINE] && Tail(b) == Tail(s);
  }

  lemma {:induction false} LongLineIsLost(s: Bytes)
    requires HasLine(s) && |Head(s)| - 1 > MAX_LOGGED_CHARS
    ensures var a, b := s[..FirstNewline(s)], s[FirstNewline(s)..]; a + b == s && Harms(a, b, Head(s))
  {
    var a, b := s[..FirstNewline(s)], s[FirstNewline(s)..];
    assert a + b == s;
    assert !HasLine(a);
    assert Cut(Rest(a)) + b == b;
    FromNewline(s);
    OneFewer(Lines(a), Lines(Tail(s)), [NEWLINE], Head(s));
  }

  lemma {:induction false} OneFewer(none: seq<Bytes>, rest: seq<Bytes>, short: Bytes, long: Bytes)
    requires none == [] && |short| < |long|
    ensures multiset(none + ([short] + rest))[long] < multiset([long] + rest)[long]
  {
    assert none + ([short] + rest) == [short] + rest;
  }

  /** Chunking is invisible exactly when no line exceeds the buffer limit. */
  lemma {:induction false} ChunkingIsInvisibleIff(s: Bytes)
    ensures ChunkingIsInvisible(s) <==> Bounded(s)
  {
    if Bounded(s) {
      forall chunks: seq<Bytes>, read: Reader, keep: bool | Concat(chunks) == s
        ensures FedAll(FRESH, chunks, read, keep) == Fed(FRESH, s, read, keep)
      {
        ChunksAsWhole(chunks, read, keep);
      }
    } else {
      var a, b, line := BadSplit(s);
      SplitDiffers(a, b, line);
      TwoChunks(a, b, Counting(line), false);
    }
  }

  lemma {:induction false} TwoChunks(a: Bytes, b: Bytes, read: Reader, keep: bool)
    ensures Concat([a, b]) == a + b
    ensures FedAll(FRESH, [a, b], read, keep) == Fed(Fed(FRESH, a, read, keep), b, read, keep)
  {
    assert [a, b][..1] == [a] && [a][..0] == [];
    assert Concat([a]) == [] + a == a;
    assert FedAll(FRESH, [], read, keep) == FRESH;
    assert FedAll(FRESH, [a], read, keep) == Fed(FRESH, a, read, keep);
  }

  lemma {:induction false} SplitDiffers(a: Bytes, b: Bytes, line: Bytes)
    requires Harms(a, b, line)
    ensures Fed(Fed(FRESH, a, Counting(line), false), b, Counting(line), false)
            != Fed(FRESH, a + b, Counting(line), false)
  {
    assert [] + a == a && [] + (a + b) == a + b;
    var mid := Fed(FRESH, a, Counting(line), false);
    CountsLines(FRESH, Lines(a), line);
    CountsLines(mid, Lines(Cut(Rest(a)) + b), line);
    CountsLines(FRESH, Lines(a + b), line);
  }
}
