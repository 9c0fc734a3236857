/**
 What one node does: its volatile state, its `rale.state` record, and the reaction to
 every message, timer pass, admin command and restart, as functions on values.
 Clock readings and random numbers are arguments. `RaleNode` carries out the same
 operations in place; `Protocol` runs many nodes against a network.
 */
module Election {
  import opened Options

  datatype Role = Follower | Candidate | Leader

  /** The five fields of `rale.state`, in file order. */
  datatype Record = Record(term: int, votedFor: int, leaderId: int, lastLogIndex: int, lastLogTerm: int)

  /** `members` lists the node ids of the membership table, in table order. */
  datatype Config = Config(members: seq<int>, keepAliveTimeout: nat, keepAliveInterval: nat)

  datatype Node = Node(
    term: int,
    votedFor: int,
    leaderId: int,
    role: Role,
    lastLogIndex: int,
    lastLogTerm: int,
    lastHeartbeat: int,
    electionDeadline: int,
    votes: int,
    active: bool,
    nextHeartbeatAt: int,
    nextVoteRequestAt: int,
    disk: Option<Record>)

  /** A received datagram after parsing; -1 stands for an absent term, voter or leader. */
  datatype Message =
    | VoteRequest(candidate: int, term: int)
    | VoteGranted(voter: int, term: int)
    | VoteDenied(voter: int, term: int)
    | Heartbeat(leader: int, term: int)
    | BareHeartbeat
    | HeartbeatAck
    | ElectionTimeout
    | Unknown

  /** A datagram, with the sender's state and its `rale.state` file at the moment of sending. */
  datatype Packet = Packet(src: int, dst: int, msg: Message, memory: Record, disk: Option<Record>)

  datatype Event =
    | Receive(packet: Packet, now: int, rnd: nat)
    | Timeout(now: int, rnd: nat)
    | Tick(now: int, rnd: nat)
    | TriggerElection(now: int)
    | StepDown(now: int, rnd: nat)
    | Restart(now: int, rnd: nat)
    | PeerLeader(term: int, leader: int)

  const DEFAULT_ELECTION_TIMEOUT := 5
  const DEFAULT_HEARTBEAT_INTERVAL := 1

  function TimeoutOf(c: Config): int {
    if c.keepAliveTimeout > 0 then c.keepAliveTimeout else DEFAULT_ELECTION_TIMEOUT
  }

  function IntervalOf(c: Config): int {
    if c.keepAliveInterval > 0 then c.keepAliveInterval else DEFAULT_HEARTBEAT_INTERVAL
  }

  function Deadline(c: Config, now: int, rnd: nat): int {
    now + TimeoutOf(c) + rnd % TimeoutOf(c)
  }

  function RecordOf(n: Node): Record {
    Record(n.term, n.votedFor, n.leaderId, n.lastLogIndex, n.lastLogTerm)
  }

  function Save(n: Node): Node {
    n.(disk := Some(RecordOf(n)))
  }

  /** What a restart reads back: a missing file or a negative field leaves the default. */
  function Recover(disk: Option<Record>): Record {
    match disk
    case None => Record(0, -1, -1, 0, 0)
    case Some(r) =>
      Record(if r.term >= 0 then r.term else 0,
             if r.votedFor >= 0 then r.votedFor else -1,
             if r.leaderId >= 0 then r.leaderId else -1,
             if r.lastLogIndex >= 0 then r.lastLogIndex else 0,
             if r.lastLogTerm >= 0 then r.lastLogTerm else 0)
  }

  function Boot(c: Config, disk: Option<Record>, now: int, rnd: nat): Node {
    var r := Recover(disk);
    Node(r.term, r.votedFor, r.leaderId, Follower, r.lastLogIndex, r.lastLogTerm,
         now, Deadline(c, now, rnd), 0, false, now + IntervalOf(c), 0, disk)
  }

  /** The data store's rewrite of `rale.state` when it learns of a leader. */
  function OverwriteLeader(disk: Option<Record>, term: int, leader: int): Option<Record> {
    var r := match disk case None => Record(-1, -1, -1, -1, -1) case Some(r) => r;
    var t := if term >= 0 then term else r.term;
    Some(Record(if t >= 0 then t else 0,
                if r.votedFor >= 0 then r.votedFor else -1,
                leader,
                if r.lastLogIndex >= 0 then r.lastLogIndex else 0,
                if r.lastLogTerm >= 0 then r.lastLogTerm else 0))
  }

  /** The data store's handling of both `LEADER_ELECTED` and `LEADER` lines. */
  function LearnLeader(disk: Option<Record>, term: int, leader: int): Option<Record> {
    if term >= 0 && leader >= 0 then OverwriteLeader(disk, term, leader) else disk
  }

  function BecomeLeader(c: Config, id: int, n: Node): Node {
    var saved := Save(n.(role := Leader, leaderId := id, active := false, votes := 0));
    var disk := if c.members == [] then saved.disk else LearnLeader(saved.disk, n.term, id);
    saved.(disk := disk, nextHeartbeatAt := 0)
  }

  function BecomeFollower(c: Config, n: Node, leader: int, now: int, rnd: nat): Node {
    Save(n.(role := Follower,
            leaderId := if leader >= 0 then leader else n.leaderId,
            active := false,
            votes := 0,
            electionDeadline := Deadline(c, now, rnd)))
  }

  function Send(id: int, n: Node, dst: int, msg: Message): Packet {
    Packet(id, dst, msg, RecordOf(n), n.disk)
  }

  /** One packet to each listed member other than the sender, in table order. */
  function Broadcast(members: seq<int>, id: int, n: Node, msg: Message): seq<Packet> {
    if members == [] then []
    else
      (if members[0] == id then [] else [Send(id, n, members[0], msg)])
      + Broadcast(members[1..], id, n, msg)
  }

  function RequestVotes(c: Config, id: int, n: Node, now: int): (Node, seq<Packet>) {
    (n.(nextVoteRequestAt := now + 1), Broadcast(c.members, id, n, VoteRequest(id, n.term)))
  }

  function Candidacy(c: Config, id: int, n: Node, now: int, rnd: nat): Node {
    Save(n.(term := n.term + 1, votedFor := id, role := Candidate, active := true, votes := 1,
            electionDeadline := Deadline(c, now, rnd)))
  }

  function StartElection(c: Config, id: int, n: Node, now: int, rnd: nat): (Node, seq<Packet>) {
    RequestVotes(c, id, Candidacy(c, id, n, now, rnd), now)
  }

  function OnVoteRequest(c: Config, id: int, n: Node, src: int, candidate: int, term: int, now: int, rnd: nat)
    : (Node, seq<Packet>)
  {
    if term != -1 && term < n.term then
      (n, [Send(id, n, src, VoteDenied(id, n.term))])
    else
      var m := if term > n.term
               then BecomeFollower(c, n.(term := term, votedFor := -1), -1, now, rnd)
               else n;
      if m.role != Leader && (m.votedFor == -1 || m.votedFor == candidate) then
        var g := Save(m.(votedFor := candidate, electionDeadline := Deadline(c, now, rnd)));
        (g, [Send(id, g, src, VoteGranted(id, g.term))])
      else
        (m, [])
  }

  /** `HEARTBEAT_ACK` starts with `HEARTBEAT`, so an acknowledgement takes this path too. */
  function OnHeartbeat(c: Config, id: int, n: Node, src: int, leader: int, term: int, now: int, rnd: nat)
    : (Node, seq<Packet>)
  {
    var a := n.(lastHeartbeat := now);
    var b := if term > a.term then a.(term := term, votedFor := -1) else a;
    var d := if leader >= 0 then BecomeFollower(c, b, leader, now, rnd) else b;
    (d, [Send(id, d, src, HeartbeatAck)])
  }

  function OnVoteGranted(c: Config, id: int, n: Node, term: int): Node {
    if !n.active || term > n.term then n
    else
      var m := n.(votes := n.votes + 1);
      if m.votes > |c.members| / 2 then BecomeLeader(c, id, m) else m
  }

  function OnElectionTimeout(c: Config, id: int, n: Node, now: int, rnd: nat): (Node, seq<Packet>) {
    if now - n.lastHeartbeat > c.keepAliveTimeout then
      var m := Candidacy(c, id, n, now, rnd).(nextVoteRequestAt := 0);
      (m, Broadcast(c.members, id, m, VoteRequest(id, m.term)))
    else
      (n, [])
  }

  function OnMessage(c: Config, id: int, n: Node, src: int, msg: Message, now: int, rnd: nat): (Node, seq<Packet>) {
    match msg
    case VoteRequest(candidate, term) => OnVoteRequest(c, id, n, src, candidate, term, now, rnd)
    case Heartbeat(leader, term) => OnHeartbeat(c, id, n, src, leader, term, now, rnd)
    case BareHeartbeat => OnHeartbeat(c, id, n, src, -1, -1, now, rnd)
    case HeartbeatAck => OnHeartbeat(c, id, n, src, -1, -1, now, rnd)
    case VoteGranted(_, term) => (OnVoteGranted(c, id, n, term), [])
    case ElectionTimeout => OnElectionTimeout(c, id, n, now, rnd)
    case VoteDenied(_, _) => (n, [])
    case Unknown => (n, [])
  }

  function OnTick(c: Config, id: int, n: Node, now: int, rnd: nat): (Node, seq<Packet>) {
    match n.role
    case Leader =>
      if now >= n.nextHeartbeatAt
      then (n.(nextHeartbeatAt := now + IntervalOf(c)), Broadcast(c.members, id, n, Heartbeat(id, n.term)))
      else (n, [])
    case Candidate =>
      var (a, sent) := if now >= n.nextVoteRequestAt then RequestVotes(c, id, n, now) else (n, []);
      if now > a.electionDeadline then
        var (b, more) := StartElection(c, id, a, now, rnd);
        (b, sent + more)
      else
        (a, sent)
    case Follower =>
      if now > n.lastHeartbeat + TimeoutOf(c) then StartElection(c, id, n, now, rnd) else (n, [])
  }

  /** The reaction of node `id` to one event: its next state and the packets it sends. */
  function React(c: Config, id: int, n: Node, ev: Event): (Node, seq<Packet>) {
    match ev
    case Receive(p, now, rnd) => OnMessage(c, id, n, p.src, p.msg, now, rnd)
    case Timeout(now, rnd) => OnMessage(c, id, n, id, ElectionTimeout, now, rnd)
    case Tick(now, rnd) => OnTick(c, id, n, now, rnd)
    case TriggerElection(now) => (n.(lastHeartbeat := 0, electionDeadline := now), [])
    case StepDown(now, rnd) => (BecomeFollower(c, n, -1, now, rnd), [])
    case Restart(now, rnd) => (Boot(c, n.disk, now, rnd), [])
    case PeerLeader(term, leader) =>
      (n.(disk := if c.members == [] then n.disk else LearnLeader(n.disk, term, leader)), [])
  }

  /** The data store's write gate: who `rale.state` says the leader is, if it can be read. */
  function ReadLeader(disk: Option<Record>): int {
    match disk
    case None => -1
    case Some(r) =>
      if r.term < 0 || r.votedFor < 0 || r.leaderId < 0 || r.lastLogIndex < 0 || r.lastLogTerm < 0 then -1
      else r.leaderId
  }

  predicate GateOpen(id: int, disk: Option<Record>) {
    disk.Some? && ReadLeader(disk) >= 0 && ReadLeader(disk) == id
  }
}
