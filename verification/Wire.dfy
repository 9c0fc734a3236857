/** The text of the protocol's datagrams. */
module Wire {
  import opened Text
  import opened Election

  function ShowPair(word: string, a: int, b: int): string {
    word + (" " + (Print(a) + (" " + Print(b))))
  }

  function Show(m: Message): string {
    match m
    case VoteRequest(candidate, term) => ShowPair("VOTE_REQUEST", candidate, term)
    case VoteGranted(voter, term) => ShowPair("VOTE_GRANTED", voter, term)
    case VoteDenied(voter, term) => ShowPair("VOTE_DENIED", voter, term)
    case Heartbeat(leader, term) => ShowPair("HEARTBEAT", leader, term)
    case BareHeartbeat => "HEARTBEAT"
    case HeartbeatAck => "HEARTBEAT_ACK"
    case ElectionTimeout => "ELECTION_TIMEOUT"
    case Unknown => ""
  }

  /** The number after the keyword, and the one after the next space; -1 for an absent second number. */
  function ReadPair(s: string): (int, int) {
    var k := Find(s, ' ');
    (Atoi(s), if k + 1 < |s| then Atoi(s[k + 1..]) else -1)
  }

  /** Keywords are matched by prefix, in the handler's order; 15 letters decide an election timeout. */
  function Parse(s: string): Message {
    if StartsWith(s, "VOTE_REQUEST") then
      if |s| > 12 && s[12] == ' ' then var (a, b) := ReadPair(s[13..]); VoteRequest(a, b) else VoteRequest(0, -1)
    else if StartsWith(s, "HEARTBEAT") then
      if |s| > 9 && s[9] == ' ' then var (a, b) := ReadPair(s[10..]); Heartbeat(a, b) else BareHeartbeat
    else if StartsWith(s, "VOTE_GRANTED") then
      if |s| > 12 && s[12] == ' ' then var (a, b) := ReadPair(s[13..]); VoteGranted(a, b) else VoteGranted(-1, -1)
    else if StartsWith(s, "ELECTION_TIMEOU") then ElectionTimeout
    else Unknown
  }

  lemma ReadShownPair(a: int, b: int)
    ensures ReadPair(Print(a) + (" " + Print(b))) == (a, b)
  {
    var s := Print(a) + (" " + Print(b));
    NoNewlineInPrint(a);
    assert s == Print(a) + [' '] + Print(b);
    FindAfter(Print(a), ' ', Print(b));
    assert s[|Print(a)| + 1..] == Print(b);
    ScanPrinted(a, " " + Print(b));
    AtoiPrinted(b);
  }

  lemma PairBody(word: string, a: int, b: int)
    ensures var s := ShowPair(word, a, b);
      StartsWith(s, word) && |s| > |word| && s[|word|] == ' ' && s[|word| + 1..] == Print(a) + (" " + Print(b))
  {}

  lemma ParseVoteRequest(a: int, b: int)
    ensures Parse(ShowPair("VOTE_REQUEST", a, b)) == VoteRequest(a, b)
  {
    PairBody("VOTE_REQUEST", a, b);
    ReadShownPair(a, b);
  }

  lemma ParseVoteGranted(a: int, b: int)
    ensures Parse(ShowPair("VOTE_GRANTED", a, b)) == VoteGranted(a, b)
  {
    PairBody("VOTE_GRANTED", a, b);
    ReadShownPair(a, b);
    var s := ShowPair("VOTE_GRANTED", a, b);
    assert s[0] == 'V' && s[5] == 'G';
    assert "VOTE_REQUEST"[5] == 'R' && "HEARTBEAT"[0] == 'H';
  }

  lemma ParseVoteDenied(a: int, b: int)
    ensures Parse(ShowPair("VOTE_DENIED", a, b)) == Unknown
  {
    var s := ShowPair("VOTE_DENIED", a, b);
    assert s[0] == 'V' && s[5] == 'D';
    assert "VOTE_REQUEST"[5] == 'R' && "VOTE_GRANTED"[5] == 'G' && "HEARTBEAT"[0] == 'H' && "ELECTION_TIMEOU"[0] == 'E';
  }

  lemma ParseHeartbeat(a: int, b: int)
    ensures Parse(ShowPair("HEARTBEAT", a, b)) == Heartbeat(a, b)
  {
    PairBody("HEARTBEAT", a, b);
    ReadShownPair(a, b);
    assert ShowPair("HEARTBEAT", a, b)[0] == 'H' && "VOTE_REQUEST"[0] == 'V';
  }

  lemma ParseAck()
    ensures Parse("HEARTBEAT_ACK") == BareHeartbeat && Parse("HEARTBEAT") == BareHeartbeat
    ensures Parse("ELECTION_TIMEOUT") == ElectionTimeout
  {
    assert "VOTE_REQUEST"[0] == 'V' && "HEARTBEAT"[0] == 'H' && "VOTE_GRANTED"[0] == 'V';
    assert "HEARTBEAT_ACK"[..9] == "HEARTBEAT";
    assert "ELECTION_TIMEOUT"[..15] == "ELECTION_TIMEOU";
  }

  lemma ReadOneNumber(a: int)
    ensures ReadPair(Print(a)) == (a, -1)
  {
    NoNewlineInPrint(a);
    NoneBefore(Print(a), ' ');
    AtoiPrinted(a);
  }

  /** A word with one number lacks its term, and one with none has the defaults of the handler. */
  lemma ParseShort(a: int)
    ensures Parse("VOTE_REQUEST " + Print(a)) == VoteRequest(a, -1) && Parse("VOTE_REQUEST") == VoteRequest(0, -1)
    ensures Parse("HEARTBEAT " + Print(a)) == Heartbeat(a, -1)
    ensures Parse("VOTE_GRANTED " + Print(a)) == VoteGranted(a, -1) && Parse("VOTE_GRANTED") == VoteGranted(-1, -1)
  {
    ReadOneNumber(a);
    var r, h, g := "VOTE_REQUEST " + Print(a), "HEARTBEAT " + Print(a), "VOTE_GRANTED " + Print(a);
    assert r[..12] == "VOTE_REQUEST" && r[13..] == Print(a);
    assert h[..9] == "HEARTBEAT" && h[10..] == Print(a) && h[0] == 'H';
    assert g[..12] == "VOTE_GRANTED" && g[13..] == Print(a) && g[5] == 'G';
    assert "VOTE_REQUEST"[0] == 'V' && "VOTE_REQUEST"[5] == 'R' && "VOTE_GRANTED"[5] == 'G' && "HEARTBEAT"[0] == 'H';
  }

  /** Fifteen letters make an election timeout, whatever follows. */
  lemma ParseTimeout(tail: string)
    ensures Parse("ELECTION_TIMEOU" + tail) == ElectionTimeout
  {
    var s := "ELECTION_TIMEOU" + tail;
    assert s[0] == 'E' && s[..15] == "ELECTION_TIMEOU";
    assert "VOTE_REQUEST"[0] == 'V' && "HEARTBEAT"[0] == 'H' && "VOTE_GRANTED"[0] == 'V';
  }

  /**
   Printing a message and parsing it at the receiver has the effect of the message itself,
   in every state. A denial comes back as an unknown message and an acknowledgement as a
   heartbeat; the handler treats them alike.
   */
  lemma WireIsFaithful(c: Config, id: int, n: Node, src: int, m: Message, now: int, rnd: nat)
    ensures OnMessage(c, id, n, src, Parse(Show(m)), now, rnd) == OnMessage(c, id, n, src, m, now, rnd)
  {
    match m
    case VoteRequest(a, b) => ParseVoteRequest(a, b);
    case VoteGranted(a, b) => ParseVoteGranted(a, b);
    case VoteDenied(a, b) => ParseVoteDenied(a, b);
    case Heartbeat(a, b) => ParseHeartbeat(a, b);
    case _ => ParseAck();
  }
}
