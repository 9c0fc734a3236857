/**
 The data store's other lines from the bytes on: leader lines, from their printers through the framer to
 the text of `rale.state`, and the `GET`, `DELETE`, `FORWARD_DELETE` and `HELLO` commands.
 */
module LeaderLines {
  import opened Options
  import opened Text
  import opened Framing
  import opened Commands
  import opened RaleState
  import opened Election
  import opened NodeLaws
  import opened NodeAnswers

  function LeaderLine(term: int, leader: int): string {
    "LEADER " + (Print(term) + " " + Print(leader))
  }

  function ElectedLine(term: int, leader: int): string {
    "LEADER_ELECTED " + (Print(term) + " " + Print(leader))
  }

  lemma PairOfPrinted(term: int, leader: int)
    ensures LeaderPair(Print(term) + " " + Print(leader)) == (term, leader)
  {
    var t, l := Print(term), Print(leader);
    NoNewlineInPrint(term);
    FindAfter(t, ' ', l);
    assert t + " " + l == t + (" " + l) && (t + " " + l)[|t| + 1..] == l;
    ScanPrinted(term, " " + l);
    AtoiPrinted(leader);
  }

  lemma SnapshotIsDispatched(known: bool, pair: string)
    ensures var (t, l) := LeaderPair(pair);
      Dispatch(known, "LEADER " + pair) == if known && t >= 0 && l >= 0 then LeaderSnapshot(t, l) else Rejected
  {
    var line := "LEADER " + pair;
    assert line[0] == 'L' && line[6] == ' ' && line[7..] == pair && line[..7] == "LEADER ";
    assert "HELLO "[0] == 'H' && "GET "[0] == 'G' && "FORWARD_DELETE "[0] == 'F' && "DELETE "[0] == 'D';
    assert "LEADER_ELECTED "[6] == '_' && "KEEP_ALIVE"[0] == 'K';
  }

  lemma ElectedIsDispatched(known: bool, pair: string)
    ensures var (t, l) := LeaderPair(pair);
      Dispatch(known, "LEADER_ELECTED " + pair) == if known && t >= 0 && l >= 0 then LeaderElected(t, l) else Rejected
  {
    var line := "LEADER_ELECTED " + pair;
    assert line[0] == 'L' && line[15..] == pair && line[..15] == "LEADER_ELECTED ";
    assert "HELLO "[0] == 'H' && "GET "[0] == 'G' && "FORWARD_DELETE "[0] == 'F' && "DELETE "[0] == 'D';
    assert "KEEP_ALIVE"[0] == 'K';
  }

  lemma LeaderLineFits(term: int32, leader: int32)
    ensures var pair := Print(term as int) + " " + Print(leader as int);
      |pair| <= 23 && '\n' !in pair && '\0' !in pair
  {
    PrintLength(term);
    PrintLength(leader);
  }

  lemma OneLineReceived(known: bool, line: string, chunks: seq<string>)
    requires Reads(chunks) && line != "" && '\n' !in line && LineFits(line) && Concat(chunks) == line + "\n"
    ensures Received(known, chunks) == [Dispatch(known, line)]
  {
    OneMessageArrives(line, chunks);
    DispatchOne(known, line);
  }

  /**
   A printed leader line and a newline, in any reads, are received as that one term and leader if and only
   if the receiver knows any member and neither number is negative; else as a rejected line.
   */
  lemma LeaderLineArrives(known: bool, term: int32, leader: int32, chunks: seq<string>)
    requires Reads(chunks) && Concat(chunks) == LeaderLine(term as int, leader as int) + "\n"
    ensures Received(known, chunks) ==
      [if known && term >= 0 && leader >= 0 then LeaderSnapshot(term as int, leader as int) else Rejected]
  {
    var line := LeaderLine(term as int, leader as int);
    LeaderLineFits(term, leader);
    assert LineFits(line) && '\n' !in line;
    OneLineReceived(known, line, chunks);
    PairOfPrinted(term as int, leader as int);
    SnapshotIsDispatched(known, Print(term as int) + " " + Print(leader as int));
  }

  lemma ElectedLineArrives(known: bool, term: int32, leader: int32, chunks: seq<string>)
    requires Reads(chunks) && Concat(chunks) == ElectedLine(term as int, leader as int) + "\n"
    ensures Received(known, chunks) ==
      [if known && term >= 0 && leader >= 0 then LeaderElected(term as int, leader as int) else Rejected]
  {
    var line := ElectedLine(term as int, leader as int);
    LeaderLineFits(term, leader);
    assert LineFits(line) && '\n' !in line;
    OneLineReceived(known, line, chunks);
    PairOfPrinted(term as int, leader as int);
    ElectedIsDispatched(known, Print(term as int) + " " + Print(leader as int));
  }

  // ---- The file ----

  /** What a received command does to the text of `rale.state`. */
  function FileAfter(file: Option<string>, cmd: Command): Option<string> {
    match cmd
    case LeaderElected(t, l) => Some(WriteLeader(file, t, l))
    case LeaderSnapshot(t, l) => Some(WriteLeader(file, t, l))
    case _ => file
  }

  function FileAfterAll(file: Option<string>, cmds: seq<Command>): Option<string>
    decreases |cmds|
  {
    if cmds == [] then file else FileAfterAll(FileAfter(file, cmds[0]), cmds[1..])
  }

  function Shown(disk: Option<Record>): Option<string> {
    match disk
    case None => None
    case Some(r) => Some(Show(r))
  }

  /** All numbers in the file and on the line are C `int`s. */
  ghost predicate Printable(disk: Option<Record>, term: int, leader: int) {
    Fits(term) && Fits(leader) && (disk.Some? ==> Representable(disk.value))
  }

  /** An accepted leader line leaves the text of the rewritten record; a rejected one leaves the file. */
  lemma LearnedText(disk: Option<Record>, known: bool, term: int32, leader: int32, cmd: Command)
    requires disk.Some? ==> Representable(disk.value)
    requires cmd == LeaderSnapshot(term as int, leader as int) || cmd == LeaderElected(term as int, leader as int)
    ensures var t, l := term as int, leader as int;
      FileAfter(Shown(disk), if known && t >= 0 && l >= 0 then cmd else Rejected)
      == Shown(if known then LearnLeader(disk, t, l) else disk)
  {
    var r := if disk.Some? then disk.value else Record(0, 0, 0, 0, 0);
    FileRefinesRecord(r, term as int, leader as int);
  }

  lemma FileAfterOne(file: Option<string>, cmds: seq<Command>)
    requires |cmds| == 1
    ensures FileAfterAll(file, cmds) == FileAfter(file, cmds[0])
  {
    assert cmds[1..] == [];
  }

  lemma PeerLineLearned(c: Config, id: int, n: Node, t: int, l: int)
    ensures React(c, id, n, PeerLeader(t, l)).0.disk == if c.members != [] then LearnLeader(n.disk, t, l) else n.disk
  {}

  /** What the line handler makes of the text is the text of the node's reaction to the line. */
  lemma LeaderLineText(c: Config, id: int, n: Node, term: int, leader: int)
    requires Printable(n.disk, term, leader)
    ensures FileAfter(Shown(n.disk), Dispatch(c.members != [], LeaderLine(term, leader)))
      == Shown(React(c, id, n, PeerLeader(term, leader)).0.disk)
  {
    var known := c.members != [];
    PairOfPrinted(term, leader);
    SnapshotIsDispatched(known, Print(term) + " " + Print(leader));
    LearnedText(n.disk, known, term as int32, leader as int32, LeaderSnapshot(term, leader));
    PeerLineLearned(c, id, n, term, leader);
  }

  /**
   From the bytes to the file: a `LEADER` line of any term and leader, in any reads, leaves in `rale.state` the
   text of what the node's reaction to that line leaves there.
   */
  lemma LeaderLineReachesFile(c: Config, id: int, n: Node, term: int32, leader: int32, chunks: seq<string>)
    requires n.disk.Some? ==> Representable(n.disk.value)
    requires Reads(chunks) && Concat(chunks) == LeaderLine(term as int, leader as int) + "\n"
    ensures FileAfterAll(Shown(n.disk), Received(c.members != [], chunks))
      == Shown(React(c, id, n, PeerLeader(term as int, leader as int)).0.disk)
  {
    var known := c.members != [];
    LeaderLineArrives(known, term, leader, chunks);
    FileAfterOne(Shown(n.disk), Received(known, chunks));
    LearnedText(n.disk, known, term, leader, LeaderSnapshot(term as int, leader as int));
    PeerLineLearned(c, id, n, term as int, leader as int);
  }

  /** On a well-formed file an accepted line leaves the old record with that term and that leader, in text. */
  lemma LeaderLineRewritesText(c: Config, id: int, n: Node, term: int32, leader: int32, chunks: seq<string>)
    requires n.disk.Some? && Representable(n.disk.value) && RecordOk(n.disk.value)
    requires Reads(chunks) && Concat(chunks) == LeaderLine(term as int, leader as int) + "\n"
    ensures FileAfterAll(Some(Show(n.disk.value)), Received(c.members != [], chunks)) == Some(Show(
      if c.members != [] && term >= 0 && leader >= 0
      then n.disk.value.(term := term as int, leaderId := leader as int) else n.disk.value))
  {
    LeaderLineReachesFile(c, id, n, term, leader, chunks);
    if c.members != [] && term >= 0 && leader >= 0 {
      LeaderLineRewrites(c, id, n, term as int, leader as int);
    } else {
      LeaderLineIgnored(c, id, n, term as int, leader as int);
    }
  }

  /** What a winner's own `LEADER_ELECTED` line makes of its saved file is what becoming leader leaves there. */
  lemma WinnerWritesItsLine(c: Config, id: int32, n: Node)
    requires NodeOk(id as int, n) && id > 0 && n.role == Candidate && Representable(RecordOf(n))
    ensures Shown(BecomeLeader(c, id as int, n).disk) ==
      FileAfter(Some(Show(RecordOf(n.(leaderId := id as int)))),
                Dispatch(c.members != [], ElectedLine(n.term, id as int)))
  {
    var r := RecordOf(n.(leaderId := id as int));
    var known := c.members != [];
    PairOfPrinted(n.term, id as int);
    ElectedIsDispatched(known, Print(n.term) + " " + Print(id as int));
    LearnedText(Some(r), known, n.term as int32, id, LeaderElected(n.term, id as int));
  }

  // ---- Lines with a key, and greetings ----

  /** The line of a command that carries a key. */
  function KeyLine(cmd: Command): string
    requires cmd.Get? || cmd.Delete?
  {
    match cmd
    case Get(key) => "GET " + key
    case Delete(key, forwarded) => (if forwarded then "FORWARD_DELETE " else "DELETE ") + key
  }

  lemma KeyLineDispatches(known: bool, cmd: Command)
    requires cmd.Get? || cmd.Delete?
    ensures Dispatch(known, KeyLine(cmd)) == cmd
  {
    var line := KeyLine(cmd);
    assert "HELLO "[0] == 'H' && "GET "[0] == 'G' && "FORWARD_DELETE "[0] == 'F' && "DELETE "[0] == 'D';
    assert "KEEP_ALIVE"[0] == 'K';
    match cmd {
      case Get(key) =>
        assert line[0] == 'G' && line[..4] == "GET " && line[4..] == key;
      case Delete(key, forwarded) =>
        if forwarded {
          assert line[0] == 'F' && line[..15] == "FORWARD_DELETE " && line[15..] == key;
        } else {
          assert line[0] == 'D' && line[..7] == "DELETE " && line[7..] == key;
        }
    }
  }

  lemma Rejoined(line: string, k: nat)
    requires k <= |line|
    ensures line == line[..k] + line[k..]
  {}

  lemma GetLines(known: bool, line: string, key: string)
    requires Dispatch(known, line) == Get(key)
    ensures line == "GET " + key
  {
    assert StartsWith(line, "GET ") && line[4..] == key;
    Rejoined(line, 4);
  }

  lemma DeleteLines(known: bool, line: string, key: string, forwarded: bool)
    requires Dispatch(known, line) == Delete(key, forwarded)
    ensures line == (if forwarded then "FORWARD_DELETE " else "DELETE ") + key
  {
    if forwarded {
      assert StartsWith(line, "FORWARD_DELETE ") && line[15..] == key;
      Rejoined(line, 15);
    } else {
      assert StartsWith(line, "DELETE ") && line[7..] == key;
      Rejoined(line, 7);
    }
  }

  /** No other line is taken for it. */
  lemma KeyLineIsUnique(known: bool, line: string, cmd: Command)
    requires (cmd.Get? || cmd.Delete?) && Dispatch(known, line) == cmd
    ensures line == KeyLine(cmd)
  {
    match cmd {
      case Get(key) => GetLines(known, line, key);
      case Delete(key, forwarded) => DeleteLines(known, line, key, forwarded);
    }
  }

  predicate KeyTravels(cmd: Command)
    requires cmd.Get? || cmd.Delete?
  {
    '\n' !in cmd.key && '\0' !in cmd.key && |KeyLine(cmd)| <= 1023
  }

  lemma InBoth(word: string, key: string, x: char)
    requires x !in word
    ensures x in word + key <==> x in key
  {
    assert (word + key)[|word|..] == key;
  }

  lemma KeyLineFits(cmd: Command)
    requires cmd.Get? || cmd.Delete?
    ensures KeyTravels(cmd) <==> LineFits(KeyLine(cmd)) && '\n' !in KeyLine(cmd)
  {
    var word := if cmd.Get? then "GET " else if cmd.forwarded then "FORWARD_DELETE " else "DELETE ";
    InBoth(word, cmd.key, '\n');
    InBoth(word, cmd.key, '\0');
  }

  lemma OnlyReceived(known: bool, chunks: seq<string>) returns (line: string)
    requires Reads(chunks) && |Received(known, chunks)| == 1
    ensures Received(known, chunks) == [Dispatch(known, line)] && LineFits(line) && '\n' !in line
  {
    var lines := FeedAll("", chunks).0;
    line := lines[0];
    assert lines == [line] && line in lines;
    DispatchOne(known, line);
    DeliveredLinesFit("", chunks);
    DeliveredLinesAreLines("", chunks);
  }

  /**
   A `GET`, `DELETE` or `FORWARD_DELETE` of any key, in any reads and whoever is known, is received as that one
   command if and only if the key has no newline or NUL and the line at most 1023 bytes.
   */
  lemma KeyCommandRoundTrip(known: bool, cmd: Command, chunks: seq<string>)
    requires cmd.Get? || cmd.Delete?
    requires Reads(chunks) && Concat(chunks) == KeyLine(cmd) + "\n"
    ensures Received(known, chunks) == [cmd] <==> KeyTravels(cmd)
  {
    KeyLineFits(cmd);
    if KeyTravels(cmd) {
      KeyLineDispatches(known, cmd);
      OneLineReceived(known, KeyLine(cmd), chunks);
    }
    if Received(known, chunks) == [cmd] {
      var line := OnlyReceived(known, chunks);
      KeyLineIsUnique(known, line, cmd);
    }
  }

  lemma HelloDispatches(known: bool, peer: int)
    ensures Dispatch(known, "HELLO " + Print(peer)) == Hello(if peer >= 0 then peer else -1)
  {
    var number := Print(peer);
    var line := "HELLO " + number;
    AtoiPrinted(peer);
    assert line[0] == 'H' && "KEEP_ALIVE"[0] == 'K';
    assert line[..6] == "HELLO " && line[6..] == number && line[6] == number[0];
    assert number[0] in number;
  }

  /** A greeting with any number introduces that node, and with a negative one nobody. */
  lemma HelloArrives(known: bool, peer: int32, chunks: seq<string>)
    requires Reads(chunks) && Concat(chunks) == "HELLO " + Print(peer as int) + "\n"
    ensures Received(known, chunks) == [Hello(if peer >= 0 then peer as int else -1)]
  {
    var line := "HELLO " + Print(peer as int);
    PrintLength(peer);
    assert LineFits(line) && '\n' !in line;
    OneLineReceived(known, line, chunks);
    HelloDispatches(known, peer as int);
  }
}
