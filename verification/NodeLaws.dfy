/**
 What every reaction of a single node keeps, for all states, messages and clock readings.
 */
module NodeLaws {
  import opened Options
  import opened Election

  /** A promise: the node is in `term` and, unless `vote` is -1, has voted for `vote` there. */
  datatype Promise = Promise(term: int, vote: int)

  function PromiseOf(r: Record): Promise {
    Promise(r.term, r.votedFor)
  }

  /** `q` honours `p`: a later term, or the same term without revoking the vote. */
  predicate Honours(p: Promise, q: Promise) {
    p.term < q.term || (p.term == q.term && (p.vote == -1 || p.vote == q.vote))
  }

  function Memory(n: Node): Promise {
    PromiseOf(RecordOf(n))
  }

  /** The promise a restart would find in the file. */
  function Stored(disk: Option<Record>): Promise {
    PromiseOf(Recover(disk))
  }

  predicate RecordOk(r: Record) {
    && r.term >= 0
    && (r.votedFor == -1 || r.votedFor > 0)
    && r.leaderId >= -1
    && r.lastLogIndex >= 0
    && r.lastLogTerm >= 0
  }

  /** Well-formed fields, the role invariant, and a file with the memory's vote and no earlier term. */
  predicate NodeOk(id: int, n: Node) {
    && RecordOk(RecordOf(n))
    && (n.disk.Some? ==> RecordOk(n.disk.value))
    && (n.active <==> n.role == Candidate)
    && (n.role != Follower ==> n.votedFor == id)
    && (n.role == Leader ==> n.leaderId == id)
    && Stored(n.disk).term >= n.term
    && Stored(n.disk).vote == n.votedFor
  }

  /** A restart at this moment would reproduce all five fields. */
  predicate Synced(memory: Record, disk: Option<Record>) {
    Recover(disk) == memory
  }

  /** Messages as members send them: with their own, positive id. */
  predicate MessageOk(src: int, msg: Message) {
    match msg
    case VoteRequest(candidate, _) => candidate == src && src > 0
    case VoteGranted(voter, _) => voter == src
    case Heartbeat(leader, _) => leader == src && src > 0
    case _ => true
  }

  predicate EventOk(id: int, ev: Event) {
    ev.Receive? ==> ev.packet.dst == id && MessageOk(ev.packet.src, ev.packet.msg)
  }

  /** A peer's `LEADER` line that rolls the stored term back behind the memory. */
  predicate RollsBack(n: Node, ev: Event) {
    ev.PeerLeader? && 0 <= ev.term < n.term && ev.leader >= 0
  }

  /** A packet says what its sender held, and a granted vote was on disk before it left. */
  predicate PacketOk(p: Packet) {
    && MessageOk(p.src, p.msg)
    && match p.msg
       case VoteGranted(_, term) => Promise(term, p.dst) == PromiseOf(p.memory) == Stored(p.disk)
       case VoteRequest(_, term) => Promise(term, p.src) == PromiseOf(p.memory)
       case Heartbeat(_, term) => Promise(term, p.src) == PromiseOf(p.memory)
       case _ => true
  }

  lemma {:induction false} BroadcastPackets(members: seq<int>, id: int, n: Node, msg: Message)
    ensures forall p <- Broadcast(members, id, n, msg) ::
              p == Send(id, n, p.dst, msg) && p.dst in members && p.dst != id
    ensures forall d <- members :: d != id ==> Send(id, n, d, msg) in Broadcast(members, id, n, msg)
  {
    if members != [] {
      BroadcastPackets(members[1..], id, n, msg);
    }
  }

  /**
   Every reaction keeps the node's invariant and revokes no promise. The one exception
   is a `LEADER` line that rolls the file back; see `OverwriteKeepsPromise`.
   */
  lemma ReactionKeepsPromise(c: Config, id: int, n: Node, ev: Event)
    requires NodeOk(id, n) && id > 0 && EventOk(id, ev) && !RollsBack(n, ev)
    ensures NodeOk(id, React(c, id, n, ev).0)
    ensures Honours(Memory(n), Memory(React(c, id, n, ev).0))
  {
    match ev
    case Receive(p, now, rnd) => MessageKeepsPromise(c, id, n, p.src, p.msg, now, rnd);
    case Timeout(now, rnd) => MessageKeepsPromise(c, id, n, id, ElectionTimeout, now, rnd);
    case _ =>
  }

  lemma MessageKeepsPromise(c: Config, id: int, n: Node, src: int, msg: Message, now: int, rnd: nat)
    requires NodeOk(id, n) && id > 0 && MessageOk(src, msg)
    ensures NodeOk(id, OnMessage(c, id, n, src, msg, now, rnd).0)
    ensures Honours(Memory(n), Memory(OnMessage(c, id, n, src, msg, now, rnd).0))
  {
    match msg
    case VoteRequest(_, term) =>
    case Heartbeat(_, _) =>
    case _ =>
  }

  /** What a sent packet says about its sender, before and after the reaction. */
  ghost predicate SentOk(c: Config, id: int, n: Node, src: int, m: Node, p: Packet) {
    && p.src == id && PacketOk(p)
    && ((p.dst != id && p.dst in c.members) || p.dst == src)
    && (p.msg.VoteGranted? ==> Promise(p.msg.term, p.dst) == Memory(m))
    && (Synced(RecordOf(n), n.disk) ==> Synced(p.memory, p.disk))
  }

  lemma RepliesAreOk(c: Config, id: int, n: Node, src: int, msg: Message, now: int, rnd: nat, p: Packet)
    requires NodeOk(id, n) && id > 0 && MessageOk(src, msg) && !msg.ElectionTimeout?
    requires p in OnMessage(c, id, n, src, msg, now, rnd).1
    ensures SentOk(c, id, n, src, OnMessage(c, id, n, src, msg, now, rnd).0, p)
  {}

  lemma CampaignIsOk(c: Config, id: int, n: Node, src: int, now: int, rnd: nat, p: Packet)
    requires NodeOk(id, n) && id > 0
    requires p in OnElectionTimeout(c, id, n, now, rnd).1
    ensures SentOk(c, id, n, src, OnElectionTimeout(c, id, n, now, rnd).0, p)
  {
    var m := Candidacy(c, id, n, now, rnd).(nextVoteRequestAt := 0);
    BroadcastPackets(c.members, id, m, VoteRequest(id, m.term));
  }

  lemma DutiesAreOk(c: Config, id: int, n: Node, now: int, rnd: nat, p: Packet)
    requires NodeOk(id, n) && id > 0
    requires p in OnTick(c, id, n, now, rnd).1
    ensures SentOk(c, id, n, id, OnTick(c, id, n, now, rnd).0, p)
  {
    BroadcastPackets(c.members, id, n, Heartbeat(id, n.term));
    BroadcastPackets(c.members, id, n, VoteRequest(id, n.term));
    var again := n.(nextVoteRequestAt := now + 1);
    var m, m' := Candidacy(c, id, n, now, rnd), Candidacy(c, id, again, now, rnd);
    BroadcastPackets(c.members, id, m, VoteRequest(id, m.term));
    BroadcastPackets(c.members, id, m', VoteRequest(id, m'.term));
  }

  /** Every packet names its sender truthfully and, on a node in step with its file, was written ahead. */
  lemma SentPackets(c: Config, id: int, n: Node, ev: Event, p: Packet)
    requires NodeOk(id, n) && id > 0 && EventOk(id, ev)
    requires p in React(c, id, n, ev).1
    ensures SentOk(c, id, n, if ev.Receive? then ev.packet.src else id, React(c, id, n, ev).0, p)
  {
    match ev
    case Receive(q, now, rnd) =>
      if q.msg.ElectionTimeout? {
        CampaignIsOk(c, id, n, q.src, now, rnd, p);
      } else {
        RepliesAreOk(c, id, n, q.src, q.msg, now, rnd, p);
      }
    case Timeout(now, rnd) => CampaignIsOk(c, id, n, id, now, rnd, p);
    case Tick(now, rnd) => DutiesAreOk(c, id, n, now, rnd, p);
    case _ =>
  }

  /** Away from the peers' `LEADER` lines, a node and its file never part. */
  lemma ReactionStaysSynced(c: Config, id: int, n: Node, ev: Event)
    requires NodeOk(id, n) && id > 0 && EventOk(id, ev) && !ev.PeerLeader?
    requires Synced(RecordOf(n), n.disk)
    ensures Synced(RecordOf(React(c, id, n, ev).0), React(c, id, n, ev).0.disk)
  {
    ReactionKeepsPromise(c, id, n, ev);
  }

  /**
   Messages after which the handler answers from a state it has not stored: a later term
   from a negative leader id (never saved), and a vote granted to a candidate id below -1
   (saved, but dropped when read back).
   */
  predicate AnswersUnsaved(n: Node, msg: Message) {
    match msg
    case Heartbeat(leader, term) => leader < 0 && term > n.term
    case VoteRequest(candidate, term) =>
      candidate < -1 && (term > n.term || ((term == n.term || term == -1) && n.role != Leader && n.votedFor == -1))
    case _ => false
  }

  /** Write-ahead, decided for every message, malformed ones included. */
  lemma WriteAheadExactly(c: Config, id: int, n: Node, src: int, msg: Message, now: int, rnd: nat)
    requires NodeOk(id, n) && id > 0 && Synced(RecordOf(n), n.disk)
    ensures (forall p <- OnMessage(c, id, n, src, msg, now, rnd).1 :: Synced(p.memory, p.disk))
            <==> !AnswersUnsaved(n, msg)
  {
    var (m, sent) := OnMessage(c, id, n, src, msg, now, rnd);
    if msg.ElectionTimeout? {
      forall p <- sent ensures Synced(p.memory, p.disk) {
        CampaignIsOk(c, id, n, src, now, rnd, p);
      }
    } else if AnswersUnsaved(n, msg) {
      assert sent[0] in sent && !Synced(sent[0].memory, sent[0].disk);
    }
  }

  /** A peer's `LEADER` line leaves the file honouring the memory exactly when its term is not behind. */
  lemma OverwriteKeepsPromise(c: Config, id: int, n: Node, term: int, leader: int)
    requires NodeOk(id, n) && c.members != [] && term >= 0 && leader >= 0
    ensures Honours(Memory(n), Stored(React(c, id, n, PeerLeader(term, leader)).0.disk)) <==> term >= n.term
  {}

  /**
   The price of a rolled-back file, for every voter: after a crash it votes again, for any
   other candidate that asks in the old term. With any other `LEADER` line it never does.
   */
  lemma RolledBackVoterVotesTwice(c: Config, id: int, n: Node, term: int, leader: int, other: int,
                                  src: int, now: int, rnd: nat)
    requires NodeOk(id, n) && c.members != [] && term >= 0 && leader >= 0
    requires n.votedFor > 0 && other > 0 && other != n.votedFor
    ensures var a := React(c, id, n, PeerLeader(term, leader)).0;
            var b := React(c, id, a, Restart(now, rnd)).0;
            var d := OnMessage(c, id, b, src, VoteRequest(other, n.term), now, rnd).0;
            Memory(d) == Promise(n.term, other) <==> term < n.term
  {}

  /** The write gate follows the stored leader id, not the role. */
  lemma GateFollowsLeaderId(id: int, n: Node)
    requires NodeOk(id, n) && id > 0 && Synced(RecordOf(n), n.disk)
    ensures GateOpen(id, n.disk) <==> n.votedFor != -1 && n.leaderId == id
    ensures n.role == Leader ==> GateOpen(id, n.disk)
  {}

  /** A deposed leader keeps accepting writes: stepping down or restarting leaves its gate open. */
  lemma SteppingDownLeavesGateOpen(c: Config, id: int, n: Node, ev: Event)
    requires NodeOk(id, n) && id > 0 && Synced(RecordOf(n), n.disk) && n.role == Leader
    requires ev.StepDown? || ev.Restart?
    ensures var m := React(c, id, n, ev).0; m.role == Follower && GateOpen(id, m.disk)
  {}

  /** Everything a step of a node owes: its invariant, its promises, and packets that are truthful and written ahead. */
  ghost predicate Lawful(id: int, n: Node, m: Node, sent: seq<Packet>) {
    && NodeOk(id, m) && Honours(Memory(n), Memory(m))
    && (forall p <- sent :: p.src == id && PacketOk(p))
    && (Synced(RecordOf(n), n.disk) ==>
          Synced(RecordOf(m), m.disk) && forall p <- sent :: Synced(p.memory, p.disk))
  }

  lemma ReactionIsLawful(c: Config, id: int, n: Node, ev: Event)
    requires NodeOk(id, n) && id > 0 && EventOk(id, ev) && !ev.PeerLeader?
    ensures Lawful(id, n, React(c, id, n, ev).0, React(c, id, n, ev).1)
  {
    ReactionKeepsPromise(c, id, n, ev);
    if Synced(RecordOf(n), n.disk) {
      ReactionStaysSynced(c, id, n, ev);
    }
    forall p <- React(c, id, n, ev).1
      ensures p.src == id && PacketOk(p) && (Synced(RecordOf(n), n.disk) ==> Synced(p.memory, p.disk))
    {
      SentPackets(c, id, n, ev, p);
    }
  }
}
