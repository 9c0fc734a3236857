/**
 Newline framing of a TCP byte stream in one client slot: a fixed buffer that collects
 whatever `read` returned, hands out complete lines and keeps the rest. `FrameBuffer`
 is the in-place buffer, `Feed` its effect, and `Split` what a stream's lines are.
 */
module Framing {
  import opened Text

  const BUFFER_SIZE: nat := 1024
  const RECV_SIZE: nat := 2048

  /** Empty lines are not delivered. */
  function Line(s: string): seq<string> {
    if s == [] then [] else [s]
  }

  lemma Assoc<T>(a: seq<T>, b: seq<T>, c: seq<T>)
    ensures a + (b + c) == (a + b) + c
  {}

  /** What the stream means: its non-empty newline-terminated lines, and the unterminated tail. */
  function Split(s: string): (r: (seq<string>, string))
    ensures |r.1| <= |s|
    decreases |s|
  {
    var k := Find(s, '\n');
    if k == |s| then ([], s)
    else
      var (lines, tail) := Split(s[k + 1..]);
      (Line(s[..k]) + lines, tail)
  }

  /** `strchr(buf, '\n')` on a buffer that is read up to its first NUL; the length when there is none. */
  function NewlineBeforeNul(s: string): (k: nat)
    ensures k <= |s| && (k < |s| ==> s[k] == '\n')
  {
    var k := Find(s, '\n');
    if k < Find(s, '\0') then k else |s|
  }

  /** How much of a line of `k` bytes fits the line buffer. */
  function Cut(k: nat): (n: nat)
    ensures n <= k && n < BUFFER_SIZE
  {
    if k >= BUFFER_SIZE then BUFFER_SIZE - 1 else k
  }

  /** The line loop: lines longer than the line buffer are cut, and the cut-off part stays behind. */
  function Drain(s: string): (seq<string>, string)
    decreases |s|
  {
    var k := NewlineBeforeNul(s);
    if k == |s| then ([], s)
    else
      var n := Cut(k);
      var (lines, rest) := Drain(s[n + 1..]);
      (Line(s[..n]) + lines, rest)
  }

  /** One `read`: append (dropping what was pending if it would not fit), then drain. */
  function Feed(pending: string, chunk: string): (seq<string>, string) {
    Drain(if |pending| + |chunk| >= RECV_SIZE then chunk else pending + chunk)
  }

  function FeedAll(pending: string, chunks: seq<string>): (seq<string>, string)
    decreases |chunks|
  {
    if chunks == [] then ([], pending)
    else
      var (lines, p) := Feed(pending, chunks[0]);
      var (more, q) := FeedAll(p, chunks[1..]);
      (lines + more, q)
  }

  function Concat(chunks: seq<string>): string {
    if chunks == [] then "" else chunks[0] + Concat(chunks[1..])
  }

  /** What one `read` into the 1024-byte buffer can return. */
  ghost predicate Reads(chunks: seq<string>) {
    forall c <- chunks :: 1 <= |c| <= 1023
  }

  predicate LineFits(line: string) {
    |line| <= 1023 && '\0' !in line
  }

  /** Every terminated line is NUL-free and fits the line buffer; the tail fits the receive buffer. */
  ghost predicate Frameable(s: string) {
    (forall line <- Split(s).0 :: LineFits(line)) && |Split(s).1| <= 2047
  }

  // ---- Splitting ----

  /** The first line of a stream with a newline. */
  lemma SplitFirst(head: string, rest: string)
    requires '\n' !in head
    ensures Split(head + "\n" + rest) ==
      (Line(head) + Split(rest).0, Split(rest).1)
  {
    var s := head + "\n" + rest;
    FindAfter(head, '\n', rest);
    assert s[..|head|] == head && s[|head| + 1..] == rest;
  }

  lemma SplitTail(s: string)
    requires '\n' !in s
    ensures Split(s) == ([], s)
  {
    NoneBefore(s, '\n');
  }

  lemma {:induction false} TailIsUnterminated(s: string)
    ensures '\n' !in Split(s).1
    decreases |s|
  {
    NoneBefore(s, '\n');
    if Find(s, '\n') < |s| {
      TailIsUnterminated(s[Find(s, '\n') + 1..]);
    }
  }

  /** Lines do not depend on where a stream is cut: only the tail of the first part matters to the second. */
  lemma {:induction false} SplitAppend(s: string, t: string)
    ensures Split(s + t) == (Split(s).0 + Split(Split(s).1 + t).0, Split(Split(s).1 + t).1)
    decreases |s|
  {
    var k := Find(s, '\n');
    NoneBefore(s, '\n');
    if k < |s| {
      var head, rest := s[..k], s[k + 1..];
      var u := Split(rest).1 + t;
      CutAt(s, k);
      Assoc(head + "\n", rest, t);
      SplitFirst(head, rest);
      SplitFirst(head, rest + t);
      SplitAppend(rest, t);
      Assoc(Line(head), Split(rest).0, Split(u).0);
    } else {
      SplitTail(s);
      assert [] + Split(s + t).0 == Split(s + t).0;
    }
  }

  lemma CutAt(s: string, k: nat)
    requires k < |s| && s[k] == '\n'
    ensures s == s[..k] + "\n" + s[k + 1..]
  {}

  // ---- Draining ----

  lemma {:induction false} DrainSplits(s: string)
    requires forall line <- Split(s).0 :: LineFits(line)
    ensures Drain(s) == Split(s)
    decreases |s|
  {
    var k := Find(s, '\n');
    NoneBefore(s, '\n');
    if k < |s| {
      var head, rest := s[..k], s[k + 1..];
      assert s == head + "\n" + rest;
      SplitFirst(head, rest);
      if k > 0 {
        assert head in Split(s).0;
      }
      assert '\0' !in head;
      FindSkips(s, '\0', k);
      assert forall line <- Split(rest).0 :: line in Split(s).0;
      DrainSplits(rest);
    }
  }

  lemma DrainOne(s: string)
    requires NewlineBeforeNul(s) < |s|
    ensures var n := Cut(NewlineBeforeNul(s));
      Drain(s) == (Line(s[..n]) + Drain(s[n + 1..]).0, Drain(s[n + 1..]).1)
  {}

  /** With `s` still to drain after delivering `done`, and with `s'` after `done'`, the loop ends alike. */
  ghost predicate SameOutcome(s: string, done: seq<string>, s': string, done': seq<string>) {
    Drain(s').1 == Drain(s).1 && done' + Drain(s').0 == done + Drain(s).0
  }

  lemma DrainEnds(s: string, done: seq<string>, s': string, done': seq<string>)
    requires SameOutcome(s, done, s', done') && NewlineBeforeNul(s') == |s'|
    ensures s' == Drain(s).1 && done' == done + Drain(s).0
  {
    assert done' + [] == done';
  }

  /** Taking one line off the front leaves the outcome of the loop unchanged. */
  lemma DrainStep(base: string, start: seq<string>, s: string, done: seq<string>, k: nat)
    requires SameOutcome(base, start, s, done) && k == NewlineBeforeNul(s) && k < |s|
    ensures SameOutcome(base, start, s[Cut(k) + 1..], done + Line(s[..Cut(k)]))
  {
    var first, s' := Line(s[..Cut(k)]), s[Cut(k) + 1..];
    var ds, ds' := Drain(s), Drain(s');
    assert ds == (first + ds'.0, ds'.1) by {
      DrainOne(s);
    }
    Assoc(done, first, ds'.0);
  }

  lemma CutLineFits(s: string)
    requires NewlineBeforeNul(s) < |s|
    ensures LineFits(s[..Cut(NewlineBeforeNul(s))])
  {
    var k := NewlineBeforeNul(s);
    NoneBefore(s, '\0');
    assert s[..k] == s[..Find(s, '\0')][..k];
    assert s[..Cut(k)] == s[..k][..Cut(k)];
  }

  lemma {:induction false} DrainedLinesFit(s: string)
    ensures forall line <- Drain(s).0 :: LineFits(line)
    ensures |Drain(s).1| <= |s|
    decreases |s|
  {
    var k := NewlineBeforeNul(s);
    if k < |s| {
      var n := Cut(k);
      CutLineFits(s);
      DrainOne(s);
      DrainedLinesFit(s[n + 1..]);
    }
  }

  // ---- Whole streams ----

  lemma {:induction false} DeliveredLinesFit(pending: string, chunks: seq<string>)
    requires |pending| <= RECV_SIZE - 1 && Reads(chunks)
    ensures forall line <- FeedAll(pending, chunks).0 :: LineFits(line)
    ensures |FeedAll(pending, chunks).1| <= RECV_SIZE - 1
    decreases |chunks|
  {
    if chunks != [] {
      var c := chunks[0];
      DrainedLinesFit(if |pending| + |c| >= RECV_SIZE then c else pending + c);
      DeliveredLinesFit(Feed(pending, c).1, chunks[1..]);
    }
  }

  /** While the stream is frameable, no read overflows the receive buffer. */
  lemma NoOverflow(pending: string, chunk: string, later: string)
    requires '\n' !in pending && |chunk| <= BUFFER_SIZE - 1 && Frameable(pending + chunk + later)
    ensures |pending| + |chunk| < RECV_SIZE
  {
    var s := chunk + later;
    assert pending + chunk + later == pending + s;
    var k := Find(s, '\n');
    NoneBefore(s, '\n');
    if k < |s| {
      CutAt(s, k);
      Assoc(pending, s[..k] + "\n", s[k + 1..]);
      Assoc(pending, s[..k], "\n");
      FirstLineFits(pending + s[..k], s[k + 1..]);
    } else {
      SplitTail(pending + s);
    }
  }

  lemma FirstLineFits(head: string, rest: string)
    requires '\n' !in head && Frameable(head + "\n" + rest)
    ensures |head| <= BUFFER_SIZE - 1
  {
    SplitFirst(head, rest);
    if head != [] {
      assert head in Split(head + "\n" + rest).0;
    }
  }

  lemma {:induction false} FrameableStreams(pending: string, chunks: seq<string>)
    requires '\n' !in pending && Reads(chunks) && Frameable(pending + Concat(chunks))
    ensures FeedAll(pending, chunks) == Split(pending + Concat(chunks))
    decreases |chunks|
  {
    if chunks == [] {
      assert pending + Concat(chunks) == pending;
      SplitTail(pending);
    } else {
      var c, later := chunks[0], Concat(chunks[1..]);
      var s := pending + c;
      assert pending + Concat(chunks) == s + later;
      NoOverflow(pending, c, later);
      SplitAppend(s, later);
      TailIsUnterminated(s);
      assert forall line <- Split(s).0 :: line in Split(s + later).0;
      DrainSplits(s);
      assert forall line <- Split(Split(s).1 + later).0 :: line in Split(s + later).0;
      FrameableStreams(Split(s).1, chunks[1..]);
    }
  }

  /**
   Framing is chunk-independent, exactly when the stream is frameable: however the bytes
   were split into reads, the delivered lines are the stream's lines in order and the buffer
   holds its tail, if and only if every terminated line is NUL-free with at most 1023 bytes
   and the tail has at most 2047.
   */
  lemma FramingIsExact(chunks: seq<string>)
    requires Reads(chunks)
    ensures FeedAll("", chunks) == Split(Concat(chunks)) <==> Frameable(Concat(chunks))
  {
    DeliveredLinesFit("", chunks);
    if Frameable(Concat(chunks)) {
      assert "" + Concat(chunks) == Concat(chunks);
      FrameableStreams("", chunks);
    }
  }

  /** Bytes left in front of a stream always change its lines or its tail. */
  lemma GlueShows(pending: string, s: string)
    requires '\n' !in pending && pending != ""
    ensures Split(pending + s) != Split(s)
  {
    var k := Find(s, '\n');
    NoneBefore(s, '\n');
    if k < |s| {
      var head, rest := s[..k], s[k + 1..];
      CutAt(s, k);
      assert pending + s == (pending + head) + "\n" + rest;
      SplitFirst(head, rest);
      SplitFirst(pending + head, rest);
      var more := Split(rest).0;
      assert Split(pending + s).0 == [pending + head] + more && Split(s).0 == Line(head) + more;
      if head == [] {
        assert |[pending + head] + more| == 1 + |Line(head) + more|;
      } else {
        assert ([pending + head] + more)[0] != ([head] + more)[0];
      }
    } else {
      SplitTail(pending + s);
      SplitTail(s);
      assert |pending + s| > |s|;
    }
  }

  /** The slot's first read drops what was pending when both do not fit, and keeps it otherwise. */
  lemma FirstReadDecides(pending: string, chunks: seq<string>)
    requires chunks != [] && |pending| + |chunks[0]| >= RECV_SIZE
    ensures FeedAll(pending, chunks) == FeedAll("", chunks)
  {
    assert "" + chunks[0] == chunks[0];
  }

  /**
   A slot is reused without emptying its buffer. The next connection is framed correctly only when its
   own stream is frameable. When its first read overflows the buffer that is enough; otherwise, as
   long as everything fits, it is so exactly when the previous connection left nothing behind.
   */
  lemma ReusedSlot(pending: string, chunks: seq<string>)
    requires '\n' !in pending && |pending| < RECV_SIZE && Reads(chunks)
    ensures FeedAll(pending, chunks) == Split(Concat(chunks)) ==> Frameable(Concat(chunks))
    ensures chunks != [] && |pending| + |chunks[0]| >= RECV_SIZE
            ==> (FeedAll(pending, chunks) == Split(Concat(chunks)) <==> Frameable(Concat(chunks)))
    ensures Frameable(pending + Concat(chunks))
            ==> (FeedAll(pending, chunks) == Split(Concat(chunks)) <==> pending == "")
  {
    DeliveredLinesFit(pending, chunks);
    if chunks != [] && |pending| + |chunks[0]| >= RECV_SIZE {
      FirstReadDecides(pending, chunks);
      FramingIsExact(chunks);
    }
    if Frameable(pending + Concat(chunks)) {
      FrameableStreams(pending, chunks);
      if pending == "" {
        assert pending + Concat(chunks) == Concat(chunks);
      } else {
        GlueShows(pending, Concat(chunks));
      }
    }
  }

  lemma FeedTwo(pending: string, chunks: seq<string>)
    requires |chunks| == 2
    ensures var (a, p) := Feed(pending, chunks[0]); var (b, q) := Feed(p, chunks[1]);
      FeedAll(pending, chunks) == (a + b, q)
    ensures Concat(chunks) == chunks[0] + chunks[1]
  {
    var rest := chunks[1..];
    assert rest[0] == chunks[1] && rest[1..] == [];
    var (b, q) := Feed(Feed(pending, chunks[0]).1, chunks[1]);
    assert b + [] == b && FeedAll(q, rest[1..]) == ([], q);
    assert Concat(rest) == chunks[1] + "" == chunks[1];
  }

  lemma DrainNewline(s: string)
    requires |s| == 1 && s[0] == '\n'
    ensures Drain(s) == ([], "")
  {
    NoneBefore(s, '\0');
    assert NewlineBeforeNul(s) == 0;
    DrainOne(s);
    var rest := s[1..];
    assert rest == "" && NewlineBeforeNul(rest) == |rest| && Drain(rest) == ([], rest);
    assert Line(s[..0]) + Drain(rest).0 == [];
  }

  lemma DrainGlued(glued: string, line: string)
    requires |glued| == BUFFER_SIZE && '\n' !in glued && '\0' !in glued && line == glued[..BUFFER_SIZE - 1]
    ensures Drain(glued + "\n") == ([line], "")
  {
    var s := glued + "\n";
    FindAfter(glued, '\n', "");
    assert s + "" == s;
    NoneBefore(s, '\0');
    assert NewlineBeforeNul(s) == BUFFER_SIZE;
    DrainOne(s);
    assert s[..BUFFER_SIZE - 1] == line && s[BUFFER_SIZE..] == "\n" && [line] + [] == [line];
    DrainNewline(s[BUFFER_SIZE..]);
  }

  /** Where it does not fit, a coincidence can hide the left-over: one byte before a full line of the same byte. */
  lemma LeftOverGoesUnnoticed(x: char, line: string, chunks: seq<string>)
    requires x != '\n' && x != '\0' && |line| == BUFFER_SIZE - 1 && forall c <- line :: c == x
    requires |chunks| == 2 && chunks[0] == line && chunks[1] == "\n"
    ensures FeedAll([x], chunks) == Split(Concat(chunks)) && !Frameable([x] + Concat(chunks))
  {
    var glued := [x] + line;
    FeedTwo([x], chunks);
    OneLineStream(line);
    GluedFeeds(x, line, glued);
    assert [] + [line] == [line];
    assert [x] + (line + "\n") == glued + "\n";
    LongLineIsNotFrameable(glued);
  }

  lemma GluedFeeds(x: char, line: string, glued: string)
    requires x != '\n' && x != '\0' && |line| == BUFFER_SIZE - 1 && (forall c <- line :: c == x) && glued == [x] + line
    ensures Feed([x], line) == ([], glued) && Feed(glued, "\n") == ([line], "")
  {
    NoneBefore(glued, '\n');
    assert forall i :: 0 <= i < |line| ==> line[i] in line;
    assert line == glued[..BUFFER_SIZE - 1];
    DrainGlued(glued, line);
  }

  /** What is delivered of one terminated line: 1023 bytes at a time, and the byte after them lost each time. */
  function Pieces(line: string): seq<string>
    decreases |line|
  {
    if |line| <= 1023 then Line(line) else [line[..1023]] + Pieces(line[1024..])
  }

  /** One line, or as much of it as fits, leaves the loop with the rest. */
  lemma DrainFirst(line: string, rest: string)
    requires '\n' !in line && '\0' !in line
    ensures var n := if |line| <= 1023 then |line| else 1023;
      var s := line + "\n" + rest;
      Drain(s) == (Line(line[..n]) + Drain(s[n + 1..]).0, Drain(s[n + 1..]).1)
  {
    var s, n := line + "\n" + rest, if |line| <= 1023 then |line| else 1023;
    FindAfter(line, '\n', rest);
    NulComesLater(line, rest);
    DrainOne(s);
    assert s[..n] == line[..n];
  }

  /** The pieces of a terminated line come before whatever the rest delivers. */
  lemma {:induction false} LongLinesBreak(line: string, rest: string)
    requires '\n' !in line && '\0' !in line
    ensures Drain(line + "\n" + rest) == (Pieces(line) + Drain(rest).0, Drain(rest).1)
    decreases |line|
  {
    var s := line + "\n" + rest;
    DrainFirst(line, rest);
    if |line| <= 1023 {
      assert line[..|line|] == line && s[|line| + 1..] == rest;
    } else {
      var tail := line[1024..];
      assert s[1024..] == tail + "\n" + rest;
      LongLinesBreak(tail, rest);
      Assoc([line[..1023]], Pieces(tail), Drain(rest).0);
    }
  }

  lemma {:induction false} NulComesLater(line: string, rest: string)
    requires '\n' !in line && '\0' !in line
    ensures Find(line + "\n" + rest, '\0') > |line|
    decreases |line|
  {
    var s := line + "\n" + rest;
    if line != "" {
      assert s[1..] == line[1..] + "\n" + rest;
      NulComesLater(line[1..], rest);
    }
  }

  lemma LongLineIsNotFrameable(line: string)
    requires |line| >= BUFFER_SIZE && '\n' !in line
    ensures !Frameable(line + "\n")
  {
    OneLineStream(line);
    assert line in [line];
  }

  lemma OneLineStream(line: string)
    requires line != "" && '\n' !in line
    ensures Split(line + "\n") == ([line], "")
  {
    SplitFirst(line, "");
    SplitTail("");
    assert line + "\n" + "" == line + "\n" && [line] + [] == [line];
  }

  // ---- Streams of messages ----

  /** A message that is one line of the stream. */
  predicate Message(m: string) {
    m != "" && '\n' !in m && LineFits(m)
  }

  /** The messages, each followed by a newline. */
  function Terminated(msgs: seq<string>): string {
    if msgs == [] then "" else msgs[0] + "\n" + Terminated(msgs[1..])
  }

  lemma SplitMessage(m: string, rest: seq<string>, text: string)
    requires Message(m) && Split(text) == (rest, "")
    ensures Split(m + "\n" + text) == ([m] + rest, "")
  {
    SplitFirst(m, text);
  }

  lemma {:induction false} TerminatedSplits(msgs: seq<string>)
    requires forall m <- msgs :: Message(m)
    ensures Split(Terminated(msgs)) == (msgs, "")
  {
    if msgs == [] {
      SplitTail("");
    } else {
      var m, rest := msgs[0], msgs[1..];
      assert msgs == [m] + rest && Message(m);
      TerminatedSplits(rest);
      SplitMessage(m, rest, Terminated(rest));
    }
  }

  /** Terminated messages are delivered as they are, whatever the reads. */
  lemma MessagesArrive(msgs: seq<string>, chunks: seq<string>)
    requires Reads(chunks) && (forall m <- msgs :: Message(m)) && Concat(chunks) == Terminated(msgs)
    ensures FeedAll("", chunks) == (msgs, "")
  {
    TerminatedSplits(msgs);
    FramingIsExact(chunks);
  }

  /** A stream without a newline delivers nothing at all, however long it is. */
  lemma {:induction false} UnterminatedIsLost(pending: string, chunks: seq<string>)
    requires '\n' !in pending && '\n' !in Concat(chunks)
    ensures FeedAll(pending, chunks).0 == [] && '\n' !in FeedAll(pending, chunks).1
    decreases |chunks|
  {
    if chunks != [] {
      var c := chunks[0];
      assert forall x <- c :: x in Concat(chunks);
      assert forall x <- Concat(chunks[1..]) :: x in Concat(chunks);
      NoneBefore(if |pending| + |c| >= RECV_SIZE then c else pending + c, '\n');
      UnterminatedIsLost(Feed(pending, c).1, chunks[1..]);
    }
  }

  /** The receive buffer of one client slot. */
  class FrameBuffer {
    const buf: array<char>
    var len: nat
    /** The lines handed to `on_receive`, oldest first. */
    var delivered: seq<string>

    ghost predicate Valid()
      reads this, buf
    {
      buf.Length == RECV_SIZE && len < RECV_SIZE && buf[len] == '\0'
    }

    ghost function Pending(): string
      reads this, buf
      requires len <= buf.Length
    {
      buf[..len]
    }

    constructor ()
      ensures Valid() && fresh(buf) && Pending() == "" && delivered == []
    {
      buf := new char[RECV_SIZE](_ => '\0');
      len := 0;
      delivered := [];
    }

    /** Copy `chunk` behind the pending bytes and terminate the buffer. */
    method Append(chunk: string)
      requires buf.Length == RECV_SIZE && len + |chunk| < RECV_SIZE
      modifies this`len, buf
      ensures Valid() && Pending() == old(Pending()) + chunk
    {
      var i := 0;
      while i < |chunk|
        invariant 0 <= i <= |chunk| && len == old(len)
        invariant buf[..len] == old(buf[..len]) && buf[len..len + i] == chunk[..i]
      {
        buf[len + i] := chunk[i];
        i := i + 1;
      }
      len := len + |chunk|;
      buf[len] := '\0';
      assert buf[..len] == buf[..old(len)] + buf[old(len)..len];
    }

    /** `strchr`: scan for a newline up to the terminating NUL. */
    method Newline() returns (k: nat)
      requires Valid()
      ensures k == NewlineBeforeNul(Pending())
    {
      k := 0;
      while buf[k] != '\n' && buf[k] != '\0'
        invariant k <= len
        invariant '\n' !in buf[..k] && '\0' !in buf[..k]
        decreases len - k
      {
        k := k + 1;
      }
      ScanEnds(buf[..len], k, if k < len then buf[k] else '\0');
      if buf[k] != '\n' {
        k := len;
      }
    }

    /** Drop the first `n` bytes by moving the rest to the front. */
    method Shift(n: nat)
      requires Valid() && n <= len
      modifies this`len, buf
      ensures Valid() && Pending() == old(Pending())[n..]
    {
      var i := 0;
      while i < len - n
        invariant 0 <= i <= len - n && len == old(len)
        invariant buf[..i] == old(buf[n..n + i]) && buf[n + i..len] == old(buf[n + i..len])
      {
        assert buf[n + i] == buf[n + i..len][0];
        assert old(buf[n + i..len])[1..] == old(buf[n + i + 1..len]) && buf[n + i..len][1..] == buf[n + i + 1..len];
        buf[i] := buf[n + i];
        i := i + 1;
      }
      len := len - n;
      buf[len] := '\0';
      assert old(buf[..len])[n..] == old(buf[n..len]);
    }

    /** One `read` that returned `chunk`. */
    method Receive(chunk: string)
      requires Valid() && 1 <= |chunk| <= BUFFER_SIZE - 1
      modifies this`len, this`delivered, buf
      ensures Valid()
      ensures Pending() == Feed(old(Pending()), chunk).1
      ensures delivered == old(delivered) + Feed(old(Pending()), chunk).0
    {
      if len + |chunk| >= RECV_SIZE {
        len := 0;
        assert Pending() + chunk == chunk;
      }
      Append(chunk);
      DeliverLines();
    }

    /** Deliver every complete line in the buffer. */
    method DeliverLines()
      requires Valid()
      modifies this`len, this`delivered, buf
      ensures Valid()
      ensures Pending() == Drain(old(Pending())).1
      ensures delivered == old(delivered) + Drain(old(Pending())).0
    {
      ghost var base, start := Pending(), delivered;
      var more := true;
      while more
        invariant Valid() && SameOutcome(base, start, Pending(), delivered)
        invariant !more ==> NewlineBeforeNul(Pending()) == len
        decreases more, len
      {
        more := DeliverLine(base, start);
      }
      DrainEnds(base, start, Pending(), delivered);
    }

    /** Deliver the first complete line, cut to the line buffer, unless it is empty; false if there is none. */
    method DeliverLine(ghost base: string, ghost start: seq<string>) returns (more: bool)
      requires Valid() && SameOutcome(base, start, Pending(), delivered)
      modifies this`len, this`delivered, buf
      ensures Valid() && SameOutcome(base, start, Pending(), delivered)
      ensures if more then len < old(len) else len == old(len) && NewlineBeforeNul(Pending()) == len
    {
      ghost var s := Pending();
      var k := Newline();
      more := k < len;
      if more {
        DrainStep(base, start, s, delivered, k);
        var n := Cut(k);
        var line := buf[..n];
        assert line == s[..n];
        Shift(n + 1);
        delivered := delivered + Line(line);
      }
    }
  }

  /** A scan that stopped at `k` has found the first newline or the first NUL. */
  lemma ScanEnds(s: string, k: nat, c: char)
    requires k <= |s| && '\n' !in s[..k] && '\0' !in s[..k]
    requires if k < |s| then c == s[k] && (c == '\n' || c == '\0') else c == '\0'
    ensures NewlineBeforeNul(s) == if c == '\n' then k else |s|
  {
    FindSkips(s, '\n', k);
    FindSkips(s, '\0', k);
  }
}
