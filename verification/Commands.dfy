/**
 The data store's line commands: how a received line is dispatched, and the `PUT` line
 from the leader's printer through the framer to the receiver's parser.
 */
module Commands {
  import opened Limits
  import opened Options
  import opened Text
  import opened Framing

  const REPLICATION_BUFFER: nat := MAX_KEY_SIZE + MAX_VALUE_SIZE + 10

  datatype Command =
    | KeepAlive
    | Hello(peer: int)
    | Get(key: string)
    | Delete(key: string, forwarded: bool)
    | LeaderElected(term: int, leader: int)
    | LeaderSnapshot(term: int, leader: int)
    | PropagateAdd(line: string)
    | PropagateRemove(line: string)
    | Put(key: string, value: string)
    | Rejected

  /** Term and leader id of a leader line; both -1 without a second word. */
  function LeaderPair(s: string): (int, int) {
    var k := Find(s, ' ');
    if k == |s| then (-1, -1) else (Atoi(s), Atoi(s[k + 1..]))
  }

  /** `key=value`, with the key up to the first `=`; both must fit their buffers. */
  function ParsePair(s: string): Option<(string, string)> {
    var k := Find(s, '=');
    if k == |s| || k == 0 || k >= MAX_KEY_SIZE || |s| - k - 1 >= MAX_VALUE_SIZE then None
    else Some((s[..k], s[k + 1..]))
  }

  /**
   `dstore_put_from_command`, up to the point where the pair is accepted. `known` says whether the
   membership table has any node: without one every line is turned away.
   */
  function Store(known: bool, line: string): Command {
    if !known then Rejected
    else if StartsWith(line, "LEADER_ELECTED ") then
      var (term, leader) := LeaderPair(line[15..]);
      if term >= 0 && leader >= 0 then LeaderElected(term, leader) else Rejected
    else if StartsWith(line, "LEADER ") then
      var (term, leader) := LeaderPair(line[7..]);
      if term >= 0 && leader >= 0 then LeaderSnapshot(term, leader) else Rejected
    else if StartsWith(line, "FORWARD_PUT ") && ParsePair(line[12..]).None? then Rejected
    else if StartsWith(line, "PROPAGATE_ADD ") then PropagateAdd(line)
    else if StartsWith(line, "PROPAGATE_REMOVE ") then PropagateRemove(line)
    else if !StartsWith(line, "PUT ") then Rejected
    else
      match ParsePair(line[4..])
      case None => Rejected
      case Some((key, value)) => Put(key, value)
  }

  /** One line of a server-side client, as `dstore_server_on_receive` dispatches it. */
  function Dispatch(known: bool, line: string): Command {
    if line == "KEEP_ALIVE" then KeepAlive
    else if StartsWith(line, "HELLO ") then
      Hello(if |line| > 6 && IsDigit(line[6]) then Atoi(line[6..]) else -1)
    else if StartsWith(line, "GET ") then Get(line[4..])
    else if StartsWith(line, "FORWARD_DELETE ") then Delete(line[15..], true)
    else if StartsWith(line, "DELETE ") then Delete(line[7..], false)
    else Store(known, line)
  }

  function DispatchAll(known: bool, lines: seq<string>): (r: seq<Command>)
    ensures |r| == |lines|
  {
    if lines == [] then [] else [Dispatch(known, lines[0])] + DispatchAll(known, lines[1..])
  }

  /** The replication message; none when it does not fit the message buffer. */
  function PrintPut(key: string, value: string): Option<string> {
    var message := "PUT " + key + "=" + value;
    if |message| >= REPLICATION_BUFFER then None else Some(message)
  }

  lemma PrintsExactly(key: string, value: string)
    ensures PrintPut(key, value) == if |key| + |value| <= 1283 then Some("PUT " + key + "=" + value) else None
  {}

  /** What the receiver's slot makes of a byte stream that arrives in these reads. */
  function Received(known: bool, chunks: seq<string>): seq<Command> {
    DispatchAll(known, FeedAll("", chunks).0)
  }

  predicate Transmissible(key: string, value: string) {
    && 1 <= |key| <= 254 && '=' !in key
    && '\n' !in key && '\n' !in value && '\0' !in key && '\0' !in value
    && |key| + |value| <= 1018
  }

  lemma ParsedPair(key: string, value: string)
    requires '=' !in key
    ensures ParsePair(key + "=" + value) ==
      if 1 <= |key| < MAX_KEY_SIZE && |value| < MAX_VALUE_SIZE then Some((key, value)) else None
  {
    var s := key + "=" + value;
    FindAfter(key, '=', value);
    assert s[..|key|] == key && s[|key| + 1..] == value;
  }

  /** No other branch catches a line that starts with `PUT `; an empty membership table turns it away. */
  lemma PutIsDispatched(known: bool, line: string)
    requires StartsWith(line, "PUT ")
    ensures Dispatch(known, line) ==
      if !known then Rejected else match ParsePair(line[4..]) case None => Rejected case Some((k, v)) => Put(k, v)
  {
    assert line[0] == "PUT "[0] == 'P' && line[1] == "PUT "[1] == 'U';
    assert "HELLO "[0] == 'H' && "GET "[0] == 'G' && "FORWARD_DELETE "[0] == 'F' && "DELETE "[0] == 'D';
    assert "LEADER_ELECTED "[0] == 'L' && "LEADER "[0] == 'L' && "FORWARD_PUT "[0] == 'F';
    assert "PROPAGATE_ADD "[1] == 'R' && "PROPAGATE_REMOVE "[1] == 'R';
  }

  /** A pair that parses is exactly what was printed, and its parts fit. */
  lemma PairText(s: string)
    requires ParsePair(s).Some?
    ensures var (key, value) := ParsePair(s).value;
      s == key + "=" + value && 1 <= |key| < MAX_KEY_SIZE && '=' !in key
  {
    var k := Find(s, '=');
    NoneBefore(s, '=');
    assert s == s[..k] + "=" + s[k + 1..];
  }

  /** Whatever line yields a `Put` is the line that prints that pair. */
  lemma PutLines(known: bool, line: string, key: string, value: string)
    requires Dispatch(known, line) == Put(key, value)
    ensures known && line == "PUT " + key + "=" + value && 1 <= |key| < MAX_KEY_SIZE && '=' !in key
  {
    assert known && StartsWith(line, "PUT ") && ParsePair(line[4..]) == Some((key, value));
    PairText(line[4..]);
    assert line == "PUT " + line[4..];
  }

  lemma PrintedPutDispatches(key: string, value: string)
    requires '=' !in key && 1 <= |key| < MAX_KEY_SIZE && |value| < MAX_VALUE_SIZE
    ensures Dispatch(true, "PUT " + key + "=" + value) == Put(key, value)
  {
    var message := "PUT " + key + "=" + value;
    assert message[4..] == key + "=" + value && message[..4] == "PUT ";
    PutIsDispatched(true, message);
    ParsedPair(key, value);
  }

  lemma OneMessageArrives(message: string, chunks: seq<string>)
    requires Reads(chunks) && message != "" && '\n' !in message && LineFits(message)
    requires Concat(chunks) == message + "\n"
    ensures FeedAll("", chunks).0 == [message]
  {
    OneLineStream(message);
    FramingIsExact(chunks);
  }

  lemma GoodPutArrives(key: string, value: string, chunks: seq<string>)
    requires Reads(chunks) && Transmissible(key, value)
    requires Concat(chunks) == "PUT " + key + "=" + value + "\n"
    ensures Received(true, chunks) == [Put(key, value)]
  {
    var message := "PUT " + key + "=" + value;
    assert LineFits(message) && '\n' !in message;
    OneMessageArrives(message, chunks);
    PrintedPutDispatches(key, value);
    DispatchOne(true, message);
  }

  lemma DispatchOne(known: bool, line: string)
    ensures DispatchAll(known, [line]) == [Dispatch(known, line)]
  {
    assert [line][1..] == [];
  }

  /**
   The `PUT` codec end to end, decided for every key and value: the printed line followed by
   a newline, arriving in any reads whatever, is received as that one pair, if and only if
   the receiver knows any member, the key has 1 to 254 bytes and no `=`, neither part has a
   newline or NUL, and together they have at most 1018 bytes.
   */
  lemma PutRoundTrip(known: bool, key: string, value: string, chunks: seq<string>)
    requires Reads(chunks)
    requires PrintPut(key, value).Some? && Concat(chunks) == PrintPut(key, value).value + "\n"
    ensures Received(known, chunks) == [Put(key, value)] <==> known && Transmissible(key, value)
  {
    if known && Transmissible(key, value) {
      GoodPutArrives(key, value, chunks);
    } else if Received(known, chunks) == [Put(key, value)] {
      var lines := FeedAll("", chunks).0;
      assert Dispatch(known, lines[0]) == Received(known, chunks)[0] && lines[0] in lines;
      PutLines(known, lines[0], key, value);
      DeliveredLinesFit("", chunks);
      DeliveredLinesAreLines("", chunks);
    }
  }

  lemma {:induction false} DrainedLinesAreLines(s: string)
    ensures forall line <- Drain(s).0 :: '\n' !in line
    decreases |s|
  {
    var k := NewlineBeforeNul(s);
    if k < |s| {
      NoneBefore(s, '\n');
      assert s[..Cut(k)] == s[..k][..Cut(k)];
      DrainedLinesAreLines(s[Cut(k) + 1..]);
    }
  }

  lemma {:induction false} DeliveredLinesAreLines(pending: string, chunks: seq<string>)
    ensures forall line <- FeedAll(pending, chunks).0 :: '\n' !in line
    decreases |chunks|
  {
    if chunks != [] {
      var c := chunks[0];
      DrainedLinesAreLines(if |pending| + |c| >= RECV_SIZE then c else pending + c);
      DeliveredLinesAreLines(Feed(pending, c).1, chunks[1..]);
    }
  }

  /** A follower's forwarded `PUT` falls through to the `PUT ` test and is never stored, whatever it carries. */
  lemma ForwardedPutIsRejected(known: bool, pair: string)
    ensures Dispatch(known, "FORWARD_PUT " + pair) == Rejected
  {
    var line := "FORWARD_PUT " + pair;
    assert line[0] == 'F' && line[8] == 'P' && line[9] == 'U';
    assert "HELLO "[0] == 'H' && "GET "[0] == 'G' && "FORWARD_DELETE "[8] == 'D' && "DELETE "[0] == 'D';
    assert "LEADER_ELECTED "[0] == 'L' && "LEADER "[0] == 'L' && "PROPAGATE_ADD "[0] == 'P';
    assert "PROPAGATE_REMOVE "[0] == 'P' && "PUT "[0] == 'P' && "KEEP_ALIVE"[0] == 'K';
  }
}
