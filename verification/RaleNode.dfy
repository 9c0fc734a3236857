/**
 The protocol module of one process, updating its state in place and writing its file,
 step by step. Every method is proved to do what `Election` says, including
 what each packet found in memory and on disk at the moment it was sent.
 */
module RaleNode {
  import opened Options
  import opened Election
  import opened NodeLaws
  import opened NodeAnswers
  import opened NodeTimers
  import Commands
  import LeaderLines

  class RaleProto {
    const id: int
    const config: Config

    var currentTerm: int
    var votedFor: int
    var leaderId: int
    var role: Role
    var lastLogIndex: int
    var lastLogTerm: int
    var lastHeartbeat: int
    var electionDeadline: int
    var votesReceived: int
    var electionActive: bool
    var nextHeartbeatAt: int
    var nextVoteRequestAt: int

    /** The content of `rale.state`, shared with the data store. */
    var file: Option<Record>
    /** Everything sent so far, oldest first. */
    var outbox: seq<Packet>

    ghost function View(): Node
      reads this
    {
      Node(currentTerm, votedFor, leaderId, role, lastLogIndex, lastLogTerm, lastHeartbeat,
           electionDeadline, votesReceived, electionActive, nextHeartbeatAt, nextVoteRequestAt, file)
    }

    constructor (id: int, config: Config, file: Option<Record>, now: int, rnd: nat)
      ensures this.id == id && this.config == config && outbox == []
      ensures View() == Boot(config, file, now, rnd)
    {
      this.id, this.config, this.file := id, config, file;
      currentTerm, votedFor, leaderId, role := 0, -1, -1, Follower;
      lastLogIndex, lastLogTerm := 0, 0;
      lastHeartbeat, electionDeadline := now, Deadline(config, now, rnd);
      votesReceived, electionActive := 0, false;
      nextHeartbeatAt, nextVoteRequestAt := now + IntervalOf(config), 0;
      outbox := [];
      new;
      StateLoad();
    }

    method StateLoad()
      modifies this
      ensures outbox == old(outbox)
      ensures old(file).None? ==> View() == old(View())
      ensures old(file).Some? ==>
        var r := old(file).value;
        View() == old(View()).(
          term := if r.term >= 0 then r.term else old(currentTerm),
          votedFor := if r.votedFor >= 0 then r.votedFor else old(votedFor),
          leaderId := if r.leaderId >= 0 then r.leaderId else old(leaderId),
          lastLogIndex := if r.lastLogIndex >= 0 then r.lastLogIndex else old(lastLogIndex),
          lastLogTerm := if r.lastLogTerm >= 0 then r.lastLogTerm else old(lastLogTerm))
    {
      if file.Some? {
        if file.value.term >= 0 { currentTerm := file.value.term; }
        if file.value.votedFor >= 0 { votedFor := file.value.votedFor; }
        if file.value.leaderId >= 0 { leaderId := file.value.leaderId; }
        if file.value.lastLogIndex >= 0 { lastLogIndex := file.value.lastLogIndex; }
        if file.value.lastLogTerm >= 0 { lastLogTerm := file.value.lastLogTerm; }
      }
    }

    method StateSave()
      modifies this`file
      ensures View() == Save(old(View()))
    {
      file := Some(Record(currentTerm, votedFor, leaderId, lastLogIndex, lastLogTerm));
    }

    method SendMessage(msg: Message, dst: int)
      modifies this`outbox
      ensures outbox == old(outbox) + [Send(id, View(), dst, msg)]
    {
      var record := Record(currentTerm, votedFor, leaderId, lastLogIndex, lastLogTerm);
      outbox := outbox + [Packet(id, dst, msg, record, file)];
    }

    method NoteLeader(leader: int)
      modifies this`leaderId, this`file
      ensures View() == if leader >= 0 && leader != old(leaderId)
                        then Save(old(View()).(leaderId := leader)) else old(View())
    {
      if leader >= 0 && leader != leaderId {
        leaderId := leader;
        StateSave();
      }
    }

    method BecomeLeader()
      modifies this
      ensures View() == Election.BecomeLeader(config, id, old(View())) && outbox == old(outbox)
    {
      role := Leader;
      leaderId := id;
      electionActive := false;
      votesReceived := 0;
      StateSave();
      if config.members != [] {
        file := LearnLeader(file, currentTerm, leaderId);
      }
      nextHeartbeatAt := 0;
    }

    method BecomeFollower(knownLeader: int, now: int, rnd: nat)
      modifies this
      ensures View() == Election.BecomeFollower(config, old(View()), knownLeader, now, rnd) && outbox == old(outbox)
    {
      role := Follower;
      if knownLeader >= 0 {
        NoteLeader(knownLeader);
      }
      electionActive := false;
      votesReceived := 0;
      electionDeadline := Deadline(config, now, rnd);
      StateSave();
    }

    /** The sending loop shared by heartbeats and vote requests. */
    method SendToOthers(msg: Message)
      modifies this`outbox
      ensures outbox == old(outbox) + Broadcast(config.members, id, View(), msg)
    {
      var i := 0;
      assert config.members[0..] == config.members;
      while i < |config.members|
        invariant 0 <= i <= |config.members|
        invariant outbox + Broadcast(config.members[i..], id, View(), msg)
                  == old(outbox) + Broadcast(config.members, id, View(), msg)
      {
        ghost var rest := config.members[i..];
        assert rest[0] == config.members[i] && rest[1..] == config.members[i + 1..];
        if config.members[i] != id {
          SendMessage(msg, config.members[i]);
        }
        i := i + 1;
      }
    }

    method SendHeartbeat(now: int)
      modifies this`outbox, this`nextHeartbeatAt
      ensures View() == old(View()).(nextHeartbeatAt := now + IntervalOf(config))
      ensures outbox == old(outbox) + Broadcast(config.members, id, old(View()), Heartbeat(id, currentTerm))
    {
      SendToOthers(Heartbeat(id, currentTerm));
      nextHeartbeatAt := now + IntervalOf(config);
    }

    method RequestVotes(now: int)
      modifies this`outbox, this`nextVoteRequestAt
      ensures var (n, sent) := Election.RequestVotes(config, id, old(View()), now);
        View() == n && outbox == old(outbox) + sent
    {
      SendToOthers(VoteRequest(id, currentTerm));
      nextVoteRequestAt := now + 1;
    }

    /** The state change that both ways of starting an election share. */
    method BecomeCandidate(now: int, rnd: nat)
      modifies this
      ensures View() == Candidacy(config, id, old(View()), now, rnd) && outbox == old(outbox)
    {
      currentTerm := currentTerm + 1;
      votedFor := id;
      role := Candidate;
      electionActive := true;
      votesReceived := 1;
      electionDeadline := Deadline(config, now, rnd);
      StateSave();
    }

    method StartElection(now: int, rnd: nat)
      modifies this
      ensures var (n, sent) := Election.StartElection(config, id, old(View()), now, rnd);
        View() == n && outbox == old(outbox) + sent
    {
      BecomeCandidate(now, rnd);
      RequestVotes(now);
    }

    /** A node in order votes exactly when it may, denies exactly an older request, and else says nothing. */
    method HandleVoteRequest(src: int, candidate: int, term: int, now: int, rnd: nat)
      modifies this
      ensures var (n, sent) := OnVoteRequest(config, id, old(View()), src, candidate, term, now, rnd);
        View() == n && outbox == old(outbox) + sent
      ensures NodeOk(id, old(View())) && candidate > 0 ==>
        var sent := outbox[|old(outbox)|..];
        && (Answers(sent, src, VoteGranted(id, Max(term, old(currentTerm)))) <==> MayVote(old(View()), candidate, term))
        && (Answers(sent, src, VoteDenied(id, old(currentTerm))) <==> Older(old(View()), term))
        && (sent != [] ==> MayVote(old(View()), candidate, term) || Older(old(View()), term))
    {
      ghost var before := View();
      AnswerVoteRequest(src, candidate, term, now, rnd);
      if NodeOk(id, before) && candidate > 0 {
        GrantedExactly(config, id, before, src, candidate, term, now, rnd);
      }
      assert outbox[|old(outbox)|..] == OnVoteRequest(config, id, before, src, candidate, term, now, rnd).1;
    }

    method AnswerVoteRequest(src: int, candidate: int, term: int, now: int, rnd: nat)
      modifies this
      ensures var (n, sent) := OnVoteRequest(config, id, old(View()), src, candidate, term, now, rnd);
        View() == n && outbox == old(outbox) + sent
    {
      if term != -1 && term < currentTerm {
        SendMessage(VoteDenied(id, currentTerm), src);
        return;
      }
      if term > currentTerm {
        currentTerm := term;
        votedFor := -1;
        BecomeFollower(-1, now, rnd);
      }
      if role != Leader && (votedFor == -1 || votedFor == candidate) {
        votedFor := candidate;
        electionDeadline := Deadline(config, now, rnd);
        StateSave();
        SendMessage(VoteGranted(id, currentTerm), src);
      }
    }

    /** A heartbeat with a leader makes the node its follower, whose wait begins now. */
    method HandleHeartbeat(src: int, leader: int, term: int, now: int, rnd: nat)
      modifies this
      ensures var (n, sent) := OnHeartbeat(config, id, old(View()), src, leader, term, now, rnd);
        View() == n && outbox == old(outbox) + sent
      ensures leader >= 0 && old(currentTerm) >= 0 ==>
        Waiting(View(), now) && leaderId == leader && currentTerm == Max(term, old(currentTerm))
    {
      lastHeartbeat := now;
      if term > currentTerm {
        currentTerm := term;
        votedFor := -1;
      }
      if leader >= 0 {
        BecomeFollower(leader, now, rnd);
      }
      SendMessage(HeartbeatAck, src);
    }

    method HandleVoteGranted(term: int)
      modifies this
      ensures View() == OnVoteGranted(config, id, old(View()), term) && outbox == old(outbox)
    {
      if !electionActive || term > currentTerm {
        return;
      }
      votesReceived := votesReceived + 1;
      if votesReceived > |config.members| / 2 {
        BecomeLeader();
      }
    }

    method HandleElectionTimeout(now: int, rnd: nat)
      modifies this
      ensures var (n, sent) := OnElectionTimeout(config, id, old(View()), now, rnd);
        View() == n && outbox == old(outbox) + sent
    {
      if now - lastHeartbeat > config.keepAliveTimeout {
        BecomeCandidate(now, rnd);
        nextVoteRequestAt := 0;
        SendToOthers(VoteRequest(id, currentTerm));
      }
    }

    /** A well-formed message leaves a node that was in order in order, and everything sent is truthful and saved. */
    method HandleMessage(src: int, msg: Message, now: int, rnd: nat)
      modifies this
      ensures var (n, sent) := OnMessage(config, id, old(View()), src, msg, now, rnd);
        View() == n && outbox == old(outbox) + sent
      ensures id > 0 && NodeOk(id, old(View())) && MessageOk(src, msg) ==>
        Lawful(id, old(View()), View(), outbox[|old(outbox)|..])
    {
      ghost var before := View();
      Dispatch(src, msg, now, rnd);
      if id > 0 && NodeOk(id, before) && MessageOk(src, msg) {
        ReactionIsLawful(config, id, before, Receive(Packet(src, id, msg, RecordOf(before), file), now, rnd));
      }
      assert outbox[|old(outbox)|..] == OnMessage(config, id, before, src, msg, now, rnd).1;
    }

    method Dispatch(src: int, msg: Message, now: int, rnd: nat)
      modifies this
      ensures var (n, sent) := OnMessage(config, id, old(View()), src, msg, now, rnd);
        View() == n && outbox == old(outbox) + sent
    {
      match msg {
        case VoteRequest(candidate, term) => HandleVoteRequest(src, candidate, term, now, rnd);
        case Heartbeat(leader, term) => HandleHeartbeat(src, leader, term, now, rnd);
        case BareHeartbeat => HandleHeartbeat(src, -1, -1, now, rnd);
        case HeartbeatAck => HandleHeartbeat(src, -1, -1, now, rnd);
        case VoteGranted(_, term) => HandleVoteGranted(term);
        case ElectionTimeout => HandleElectionTimeout(now, rnd);
        case VoteDenied(_, _) =>
        case Unknown =>
      }
    }

    /** The duties of one processing pass, after the pending datagrams have been handled, are lawful too. */
    method Duties(now: int, rnd: nat)
      modifies this
      ensures var (n, sent) := OnTick(config, id, old(View()), now, rnd);
        View() == n && outbox == old(outbox) + sent
      ensures id > 0 && NodeOk(id, old(View())) ==> Lawful(id, old(View()), View(), outbox[|old(outbox)|..])
      ensures DutyDone(config, id, old(View()), now, View(), outbox[|old(outbox)|..])
    {
      ghost var before := View();
      DutiesByRole(now, rnd);
      if id > 0 && NodeOk(id, before) {
        ReactionIsLawful(config, id, before, Tick(now, rnd));
      }
      assert outbox[|old(outbox)|..] == OnTick(config, id, before, now, rnd).1;
    }

    method DutiesByRole(now: int, rnd: nat)
      modifies this
      ensures var (n, sent) := OnTick(config, id, old(View()), now, rnd);
        View() == n && outbox == old(outbox) + sent
      ensures DutyDone(config, id, old(View()), now, View(), outbox[|old(outbox)|..])
    {
      ghost var before := View();
      if role == Leader {
        if now >= nextHeartbeatAt {
          SendHeartbeat(now);
        }
      } else if role == Candidate {
        if now >= nextVoteRequestAt {
          RequestVotes(now);
        }
        if now > electionDeadline {
          StartElection(now, rnd);
        }
      } else {
        if now > lastHeartbeat + TimeoutOf(config) {
          role := Candidate;
          StartElection(now, rnd);
        }
      }
      TickDoesDuty(config, id, before, now, rnd);
      assert outbox[|old(outbox)|..] == OnTick(config, id, before, now, rnd).1;
    }

    method ProcessTriggerElection(now: int)
      modifies this`lastHeartbeat, this`electionDeadline
      ensures View() == React(config, id, old(View()), TriggerElection(now)).0
    {
      lastHeartbeat := 0;
      electionDeadline := now;
    }

    /** Stepping down breaks no promise; the file still names this node as leader if it was one. */
    method ProcessStepDown(now: int, rnd: nat)
      modifies this
      ensures View() == React(config, id, old(View()), StepDown(now, rnd)).0 && outbox == old(outbox)
      ensures id > 0 && NodeOk(id, old(View())) ==>
        && Lawful(id, old(View()), View(), []) && role == Follower
        && (Synced(RecordOf(old(View())), old(file)) && old(role) == Leader ==> GateOpen(id, file))
    {
      ghost var before := View();
      BecomeFollower(-1, now, rnd);
      if id > 0 && NodeOk(id, before) {
        ReactionIsLawful(config, id, before, StepDown(now, rnd));
        if Synced(RecordOf(before), before.disk) && before.role == Leader {
          SteppingDownLeavesGateOpen(config, id, before, StepDown(now, rnd));
        }
      }
    }

    /**
     The data store of this process handles a `LEADER` line from a peer: the file changes, the memory
     does not. The stored promise is kept if and only if the line is not of an older term. The text of
     the file becomes what the data store's line handler makes of it.
     */
    method ProcessLeaderLine(term: int, leader: int)
      modifies this`file
      ensures View() == React(config, id, old(View()), PeerLeader(term, leader)).0
      ensures id > 0 && NodeOk(id, old(View())) ==>
        && (config.members != [] && term >= 0 && leader >= 0 ==>
              (Honours(Memory(View()), Stored(file)) <==> term >= currentTerm))
        && (term >= currentTerm || term < 0 || leader < 0 ==> NodeOk(id, View()))
      ensures LeaderLines.Printable(old(file), term, leader) ==>
        LeaderLines.Shown(file) == LeaderLines.FileAfter(LeaderLines.Shown(old(file)),
          Commands.Dispatch(config.members != [], LeaderLines.LeaderLine(term, leader)))
    {
      ghost var before := View();
      if LeaderLines.Printable(file, term, leader) {
        LeaderLines.LeaderLineText(config, id, before, term, leader);
      }
      if config.members != [] && term >= 0 && leader >= 0 {
        file := OverwriteLeader(file, term, leader);
      }
      if id > 0 && NodeOk(id, before) {
        if config.members != [] && term >= 0 && leader >= 0 {
          OverwriteKeepsPromise(config, id, before, term, leader);
        }
        if term >= before.term || term < 0 || leader < 0 {
          ReactionKeepsPromise(config, id, before, PeerLeader(term, leader));
        }
      }
    }
  }
}
