/**
 A membership record on the wire: printed as a `PROPAGATE_ADD` command, carried as a line by
 one of the two receivers, and parsed again. A server slot collects lines from any reads; a
 client splits every read into lines on its own.
 */
module Propagation {
  import opened Text
  import opened Cluster
  import opened Framing
  import Commands

  const COMMAND_SIZE: nat := 256
  const ADD := "PROPAGATE_ADD "
  const REMOVE := "PROPAGATE_REMOVE "
  /** What the receiving buffers keep of a name and of an ip. */
  const NAME_KEPT: nat := 63
  const IP_KEPT: nat := 15

  function Fields(r: NodeRecord): string {
    Print(r.id) + (" " + (r.name + (" " + (r.ip + (" " + (Print(r.ralePort) + (" " + Print(r.dstorePort))))))))
  }

  function PrintAdd(r: NodeRecord): string {
    Truncate(ADD + Fields(r), COMMAND_SIZE)
  }

  /** A command of up to 255 bytes is sent whole, of a longer one the first 255. */
  lemma CommandIsCut(r: NodeRecord)
    ensures var text := ADD + Fields(r); PrintAdd(r) == if |text| <= 255 then text else text[..255]
  {}

  function Keep(s: string, n: nat): string {
    if |s| <= n then s else s[..n]
  }

  /** The record the handler's five tokens give; a missing token leaves its default. */
  function ParseAdd(command: string): NodeRecord
    requires |command| >= 13
  {
    var t := Tokens(command[13..], ' ', ' ');
    NodeRecord(if |t| > 0 then Atoi(t[0]) else -1,
               if |t| > 1 then Keep(t[1], NAME_KEPT) else "",
               if |t| > 2 then Keep(t[2], IP_KEPT) else "",
               if |t| > 3 then Atoi(t[3]) % 0x1_0000 else 0,
               if |t| > 4 then Atoi(t[4]) % 0x1_0000 else 0)
  }

  // ---- The two receivers ----

  /** Server side: the lines of the framer. */
  function ServerLines(chunks: seq<string>): seq<string> {
    FeedAll("", chunks).0
  }

  /** Client side: every read is cut at a NUL and split at its newlines; nothing is kept for the next one. */
  function ClientLines(chunks: seq<string>): seq<string> {
    if chunks == [] then []
    else Tokens(chunks[0][..Find(chunks[0], '\0')], '\n', '\n') + ClientLines(chunks[1..])
  }

  /** What a client does with a line. */
  function ClientDispatch(known: bool, line: string): Commands.Command {
    if line == "KEEP_ALIVE" then Commands.KeepAlive else Commands.Store(known, line)
  }

  function ClientDispatchAll(known: bool, lines: seq<string>): (r: seq<Commands.Command>)
    ensures |r| == |lines|
  {
    if lines == [] then [] else [ClientDispatch(known, lines[0])] + ClientDispatchAll(known, lines[1..])
  }

  function ClientReceived(known: bool, chunks: seq<string>): seq<Commands.Command> {
    ClientDispatchAll(known, ClientLines(chunks))
  }

  /**
   A receiver that knows any member hands exactly the lines that start with `PROPAGATE_ADD ` to the
   handler, unchanged, on both sides; one that knows none hands over nothing.
   */
  lemma AddIsDispatched(known: bool, line: string)
    ensures known && StartsWith(line, ADD) <==> Commands.Dispatch(known, line).PropagateAdd?
    ensures known && StartsWith(line, ADD) <==> ClientDispatch(known, line).PropagateAdd?
    ensures known && StartsWith(line, ADD) ==>
      Commands.Dispatch(known, line) == ClientDispatch(known, line) == Commands.PropagateAdd(line)
  {
    if StartsWith(line, ADD) {
      assert line[0] == ADD[0] == 'P' && line[1] == ADD[1] == 'R';
      assert "HELLO "[0] == 'H' && "GET "[0] == 'G' && "FORWARD_DELETE "[0] == 'F' && "DELETE "[0] == 'D';
      assert "LEADER_ELECTED "[0] == 'L' && "LEADER "[0] == 'L' && "FORWARD_PUT "[0] == 'F' && "KEEP_ALIVE"[0] == 'K';
    }
  }

  predicate Sound(line: string) {
    '\n' !in line && '\0' !in line
  }

  lemma ServerLinesAreSound(chunks: seq<string>)
    requires Reads(chunks)
    ensures forall line <- ServerLines(chunks) :: Sound(line)
  {
    DeliveredLinesFit("", chunks);
    Commands.DeliveredLinesAreLines("", chunks);
  }

  lemma {:induction false} TokenChars(s: string, sep: char, sep': char)
    ensures forall t <- Tokens(s, sep, sep'), c <- t :: c in s && c != sep
    decreases |s|
  {
    if s != [] {
      if s[0] == sep || s[0] == sep' {
        TokenChars(s[1..], sep, sep');
        assert forall c <- s[1..] :: c in s;
      } else {
        var k := TokenEnd(s, sep, sep');
        TokenEndClean(s, sep, sep');
        TokenChars(s[k..], sep, sep');
        assert forall c <- s[..k] :: c in s;
        assert forall c <- s[k..] :: c in s;
      }
    }
  }

  lemma {:induction false} TokenEndClean(s: string, sep: char, sep': char)
    ensures sep !in s[..TokenEnd(s, sep, sep')]
  {
    if s != [] && s[0] != sep && s[0] != sep' {
      TokenEndClean(s[1..], sep, sep');
      assert s[..TokenEnd(s, sep, sep')] == [s[0]] + s[1..][..TokenEnd(s[1..], sep, sep')];
    }
  }

  lemma {:induction false} ClientLinesAreSound(chunks: seq<string>)
    ensures forall line <- ClientLines(chunks) :: Sound(line)
  {
    if chunks != [] {
      var s := chunks[0][..Find(chunks[0], '\0')];
      NoneBefore(chunks[0], '\0');
      TokenChars(s, '\n', '\n');
      ClientLinesAreSound(chunks[1..]);
    }
  }

  /** Terminated messages that come in one read are the lines of that read. */
  lemma {:induction false} ReadOfMessages(msgs: seq<string>)
    requires forall m <- msgs :: Message(m)
    ensures Tokens(Terminated(msgs), '\n', '\n') == msgs
  {
    if msgs != [] {
      var m, rest := msgs[0], msgs[1..];
      assert msgs == [m] + rest && Message(m);
      ReadOfMessages(rest);
      assert m + "\n" + Terminated(rest) == m + ("\n" + Terminated(rest));
      FirstToken(m, '\n', '\n', "\n" + Terminated(rest));
      NextToken('\n', '\n', Terminated(rest));
    }
  }

  lemma {:induction false} TerminatedIsNulFree(msgs: seq<string>)
    requires forall m <- msgs :: Message(m)
    ensures '\0' !in Terminated(msgs)
  {
    if msgs != [] {
      assert msgs == [msgs[0]] + msgs[1..] && Message(msgs[0]);
      TerminatedIsNulFree(msgs[1..]);
    }
  }

  function Flatten<T>(groups: seq<seq<T>>): seq<T> {
    if groups == [] then [] else groups[0] + Flatten(groups[1..])
  }

  /** Reads that end where messages end: read number `i` brings the messages of group `i`. */
  ghost predicate Aligned(chunks: seq<string>, groups: seq<seq<string>>) {
    Reads(chunks) && |chunks| == |groups| && forall i :: 0 <= i < |chunks| ==> chunks[i] == Terminated(groups[i])
  }

  lemma {:induction false} AlignedMessagesArrive(chunks: seq<string>, groups: seq<seq<string>>)
    requires Aligned(chunks, groups) && forall m <- Flatten(groups) :: Message(m)
    ensures ClientLines(chunks) == Flatten(groups)
    decreases |chunks|
  {
    if chunks != [] {
      var s := chunks[0];
      assert forall m <- groups[0] :: m in Flatten(groups);
      assert forall m <- Flatten(groups[1..]) :: m in Flatten(groups);
      TerminatedIsNulFree(groups[0]);
      NoneBefore(s, '\0');
      assert s[..Find(s, '\0')] == s;
      ReadOfMessages(groups[0]);
      AlignedMessagesArrive(chunks[1..], groups[1..]);
    }
  }

  // ---- One record ----

  /** Records a command can carry. */
  predicate Sendable(r: NodeRecord) {
    && ' ' !in r.name && ' ' !in r.ip && Sound(r.name) && Sound(r.ip)
    && |r.name| <= 63 && |r.ip| <= 15
  }

  predicate Word(t: string) {
    t != [] && ' ' !in t
  }

  lemma FieldToken(t: string, rest: string)
    requires Word(t) && (rest == [] || rest[0] == ' ')
    ensures Tokens(" " + (t + rest), ' ', ' ') == [t] + Tokens(rest, ' ', ' ')
  {
    NextToken(' ', ' ', t + rest);
    FirstToken(t, ' ', ' ', rest);
  }

  lemma FiveTokens(a: string, b: string, c: string, d: string, e: string)
    requires Word(a) && Word(b) && Word(c) && Word(d) && Word(e)
    ensures Tokens(" " + (a + (" " + (b + (" " + (c + (" " + (d + (" " + e)))))))), ' ', ' ') == [a, b, c, d, e]
  {
    FieldToken(e, "");
    assert e + "" == e;
    FieldToken(d, " " + e);
    FieldToken(c, " " + (d + (" " + e)));
    FieldToken(b, " " + (c + (" " + (d + (" " + e)))));
    FieldToken(a, " " + (b + (" " + (c + (" " + (d + (" " + e)))))));
  }

  lemma FieldsFit(r: NodeRecord)
    requires RecordOk(r) && Sendable(r)
    ensures |Fields(r)| <= 97 && Sound(Fields(r))
  {
    SmallNumber(r.id);
    SmallNumber(r.ralePort);
    SmallNumber(r.dstorePort);
  }

  lemma FieldsParse(r: NodeRecord)
    requires RecordOk(r) && Sendable(r)
    ensures ParseAdd(ADD + Fields(r)) == r
  {
    SmallNumber(r.id);
    SmallNumber(r.ralePort);
    SmallNumber(r.dstorePort);
    FiveTokens(Print(r.id), r.name, r.ip, Print(r.ralePort), Print(r.dstorePort));
    assert (ADD + Fields(r))[13..] == " " + Fields(r);
  }

  /** A sendable record is printed whole, as a message that parses back to it. */
  lemma SentIsReceived(r: NodeRecord)
    requires RecordOk(r) && Sendable(r)
    ensures StartsWith(PrintAdd(r), ADD) && Message(PrintAdd(r)) && |PrintAdd(r)| < COMMAND_SIZE
    ensures ParseAdd(PrintAdd(r)) == r
  {
    FieldsFit(r);
    FieldsParse(r);
  }

  lemma KeptToken(line: string, t: string, n: nat)
    requires |line| >= 13 && Sound(line) && t in Tokens(line[13..], ' ', ' ')
    ensures ' ' !in Keep(t, n) && Sound(Keep(t, n)) && |Keep(t, n)| <= n
  {
    TokenChars(line[13..], ' ', ' ');
    assert forall c <- line[13..] :: c in line;
    assert forall c <- Keep(t, n) :: c in t;
  }

  /** Whatever arrives as a line can be sent on. */
  lemma ReceivedIsSendable(line: string)
    requires |line| >= 13 && Sound(line)
    ensures Sendable(ParseAdd(line))
  {
    var t := Tokens(line[13..], ' ', ' ');
    if |t| > 1 {
      KeptToken(line, t[1], NAME_KEPT);
    }
    if |t| > 2 {
      KeptToken(line, t[2], IP_KEPT);
    }
  }

  /** The handler was called once, with the command that adds `r`. */
  predicate Arrives(cmds: seq<Commands.Command>, r: NodeRecord) {
    |cmds| == 1 && cmds[0].PropagateAdd? && |cmds[0].line| >= 13 && ParseAdd(cmds[0].line) == r
  }

  /**
   To a server: the printed record and a newline, in any reads, reach the handler as the command that
   adds this record if and only if the receiver knows any member, and name and ip are free of spaces,
   newlines and NULs and have at most 63 and 15 bytes.
   */
  lemma WireIsExact(known: bool, r: NodeRecord, chunks: seq<string>)
    requires RecordOk(r) && Reads(chunks) && Concat(chunks) == PrintAdd(r) + "\n"
    ensures Arrives(Commands.Received(known, chunks), r) <==> known && Sendable(r)
  {
    var lines := ServerLines(chunks);
    if known && Sendable(r) {
      SentIsReceived(r);
      Commands.OneMessageArrives(PrintAdd(r), chunks);
      AddIsDispatched(known, PrintAdd(r));
      Commands.DispatchOne(known, PrintAdd(r));
    } else if Arrives(Commands.Received(known, chunks), r) {
      ServerLinesAreSound(chunks);
      assert Commands.Dispatch(known, lines[0]) == Commands.Received(known, chunks)[0] && lines[0] in lines;
      AddIsDispatched(known, lines[0]);
      ReceivedIsSendable(lines[0]);
    }
  }

  /** To a client: the same, when the line comes in one read. */
  lemma ClientWireIsExact(known: bool, r: NodeRecord)
    requires RecordOk(r)
    ensures Arrives(ClientReceived(known, [PrintAdd(r) + "\n"]), r) <==> known && Sendable(r)
  {
    var chunks := [PrintAdd(r) + "\n"];
    var lines := ClientLines(chunks);
    if known && Sendable(r) {
      SentIsReceived(r);
      OneRead(PrintAdd(r));
      AddIsDispatched(known, PrintAdd(r));
      assert lines[1..] == [];
    } else if Arrives(ClientReceived(known, chunks), r) {
      ClientLinesAreSound(chunks);
      assert ClientDispatch(known, lines[0]) == ClientReceived(known, chunks)[0] && lines[0] in lines;
      AddIsDispatched(known, lines[0]);
      ReceivedIsSendable(lines[0]);
    }
  }

  lemma OneRead(m: string)
    requires Message(m) && |m| < BUFFER_SIZE - 1
    ensures ClientLines([m + "\n"]) == [m]
  {
    var msgs := [m];
    assert msgs[1..] == [] && m + "\n" + "" == m + "\n" && Terminated(msgs) == m + "\n";
    var groups := [msgs];
    assert groups[1..] == [] && msgs + [] == msgs && Flatten(groups) == msgs;
    AlignedMessagesArrive([m + "\n"], groups);
  }
}
