/**
 What a node answers, decided for every node in order: when a vote is given, what a heartbeat does,
 and what a leader line leaves in the file.
 */
module NodeAnswers {
  import opened Options
  import opened Election
  import opened NodeLaws

  function Max(a: int, b: int): int {
    if a > b then a else b
  }

  /** A request of an older term than the node's; one without a term is never older. */
  predicate Older(n: Node, term: int) {
    term != -1 && term < n.term
  }

  /** What has to hold for a vote: no older term, no leader of that very term, and no promise broken by it. */
  predicate MayVote(n: Node, candidate: int, term: int) {
    && !Older(n, term) && !(n.role == Leader && term <= n.term)
    && Honours(Memory(n), Promise(Max(term, n.term), candidate))
  }

  /** The node's own candidacy is put off by one to two timeouts. */
  predicate Postponed(c: Config, n: Node, now: int) {
    now + TimeoutOf(c) <= n.electionDeadline < now + 2 * TimeoutOf(c)
  }

  ghost predicate Answers(sent: seq<Packet>, dst: int, msg: Message) {
    |sent| == 1 && sent[0].dst == dst && sent[0].msg == msg
  }

  /**
   A vote request gets the vote of the later term if and only if the node may give it, a denial with the
   node's own term if and only if it is older, and no answer otherwise. The vote changes neither the
   leader nor the log position known, and makes a follower of whoever it takes to a later term.
   */
  lemma GrantedExactly(c: Config, id: int, n: Node, src: int, candidate: int, term: int, now: int, rnd: nat)
    requires NodeOk(id, n) && candidate > 0
    ensures var (m, sent) := OnMessage(c, id, n, src, VoteRequest(candidate, term), now, rnd);
      && (Answers(sent, src, VoteGranted(id, Max(term, n.term))) <==> MayVote(n, candidate, term))
      && (Answers(sent, src, VoteDenied(id, n.term)) <==> Older(n, term))
      && (!Older(n, term) && !MayVote(n, candidate, term) ==> sent == [])
      && (MayVote(n, candidate, term) ==>
            && Memory(m) == Promise(Max(term, n.term), candidate)
            && m.role == (if term > n.term then Follower else n.role)
            && RecordOf(m) == RecordOf(n).(term := m.term, votedFor := candidate) && Postponed(c, m, now))
      && (!MayVote(n, candidate, term) ==> m == n)
  {}

  /** A request that was granted is granted again when it comes again, with the same answer. */
  lemma GrantedAgain(c: Config, id: int, n: Node, src: int, term: int, now: int, rnd: nat, now': int, rnd': nat)
    requires NodeOk(id, n) && id > 0 && src > 0 && MayVote(n, src, term)
    ensures var m := OnMessage(c, id, n, src, VoteRequest(src, term), now, rnd).0;
      Answers(OnMessage(c, id, m, src, VoteRequest(src, term), now', rnd').1, src, VoteGranted(id, Max(term, n.term)))
  {
    var m := OnMessage(c, id, n, src, VoteRequest(src, term), now, rnd).0;
    MessageKeepsPromise(c, id, n, src, VoteRequest(src, term), now, rnd);
    GrantedExactly(c, id, n, src, src, term, now, rnd);
    GrantedExactly(c, id, m, src, src, term, now', rnd');
  }

  /**
   A heartbeat that names its leader makes the node its follower in the later of the two terms, and every
   heartbeat is acknowledged once, to whoever sent it.
   */
  lemma HeartbeatFollowed(c: Config, id: int, n: Node, src: int, leader: int, term: int, now: int, rnd: nat)
    requires leader >= 0
    ensures var (m, sent) := OnMessage(c, id, n, src, Heartbeat(leader, term), now, rnd);
      && m.role == Follower && m.leaderId == leader && m.term == Max(term, n.term) && !m.active && m.votes == 0
      && m.votedFor == (if term > n.term then -1 else n.votedFor) && Postponed(c, m, now)
      && Answers(sent, src, HeartbeatAck)
  {}

  /** One without a leader, or an acknowledgement, changes neither role nor term nor vote. */
  lemma BareHeartbeatHeard(c: Config, id: int, n: Node, src: int, now: int, rnd: nat)
    requires n.term >= 0
    ensures var (m, sent) := OnMessage(c, id, n, src, BareHeartbeat, now, rnd);
      && OnMessage(c, id, n, src, HeartbeatAck, now, rnd) == (m, sent)
      && m.role == n.role && RecordOf(m) == RecordOf(n) && m.active == n.active && m.votes == n.votes
      && Answers(sent, src, HeartbeatAck)
  {}

  /**
   A grant makes a candidate lead exactly when it is of no later term and completes a strict majority;
   no other node is moved by one, and nobody answers it.
   */
  lemma GrantElectsExactly(c: Config, id: int, n: Node, src: int, voter: int, term: int, now: int, rnd: nat)
    requires NodeOk(id, n)
    ensures var (m, sent) := OnMessage(c, id, n, src, VoteGranted(voter, term), now, rnd);
      && sent == []
      && (m.role == Leader <==>
            n.role == Leader || (n.role == Candidate && term <= n.term && 2 * (n.votes + 1) > |c.members|))
      && (n.role != Candidate || term > n.term ==> m == n)
      && (m.role == Leader && n.role == Candidate ==> m.leaderId == id && m.term == n.term && m.votedFor == id)
      && (m.role == Candidate && term <= n.term ==> m.votes == n.votes + 1)
  {}

  /** An accepted leader line changes the term and the leader of a well-formed file and nothing else. */
  lemma LeaderLineRewrites(c: Config, id: int, n: Node, term: int, leader: int)
    requires c.members != [] && n.disk.Some? && RecordOk(n.disk.value)
    ensures React(c, id, n, PeerLeader(term, leader)) ==
      (if term >= 0 && leader >= 0 then n.(disk := Some(n.disk.value.(term := term, leaderId := leader))) else n, [])
  {}

  /** Without a file it makes one, with no vote in it. */
  lemma LeaderLineCreates(c: Config, id: int, n: Node, term: int, leader: int)
    requires c.members != [] && n.disk.None?
    ensures React(c, id, n, PeerLeader(term, leader)).0 ==
      if term >= 0 && leader >= 0 then n.(disk := Some(Record(term, -1, leader, 0, 0))) else n
  {}

  /** A node without members, or a line with a negative part, leaves the file alone. */
  lemma LeaderLineIgnored(c: Config, id: int, n: Node, term: int, leader: int)
    requires c.members == [] || term < 0 || leader < 0
    ensures React(c, id, n, PeerLeader(term, leader)) == (n, [])
  {}

  /** Who has just won tells the file: its own id as leader, in its term, with its own vote. */
  lemma WinnerIsOnFile(c: Config, id: int, n: Node)
    requires NodeOk(id, n) && id > 0 && n.role == Candidate
    ensures var m := BecomeLeader(c, id, n);
      m.disk == Some(Record(n.term, id, id, n.lastLogIndex, n.lastLogTerm)) && GateOpen(id, m.disk)
  {}
}
