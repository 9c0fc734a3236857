/**
 The text of `rale.state`, its two readers and its two writers. The protocol reads the
 file with `fscanf`; the data store reads it with `fgets`, `strtok` and `atoi`.
 */
module RaleState {
  import opened Options
  import opened Text
  import Election

  type Record = Election.Record

  ghost predicate Fits(i: int) {
    -0x8000_0000 <= i < 0x8000_0000
  }

  /** The fields are C `int`s. */
  ghost predicate Representable(r: Record) {
    Fits(r.term) && Fits(r.votedFor) && Fits(r.leaderId) && Fits(r.lastLogIndex) && Fits(r.lastLogTerm)
  }

  /** `"%d %d %d %d %d\n"` */
  function Show(r: Record): string {
    Print(r.term) + (" " + (Print(r.votedFor) + (" " + (Print(r.leaderId)
    + (" " + (Print(r.lastLogIndex) + (" " + (Print(r.lastLogTerm) + "\n"))))))))
  }

  /** The protocol's reader; `None` when fewer than five numbers are found. */
  function ScanRecord(file: string): Option<Record> {
    match ScanInt(file) case None => None case Some((a, s1)) =>
    match ScanInt(s1) case None => None case Some((b, s2)) =>
    match ScanInt(s2) case None => None case Some((c, s3)) =>
    match ScanInt(s3) case None => None case Some((d, s4)) =>
    match ScanInt(s4) case None => None case Some((e, _)) =>
    Some(Election.Record(a, b, c, d, e))
  }

  function Field(tokens: seq<string>, i: nat): int {
    if i < |tokens| then Atoi(tokens[i]) else -1
  }

  /** The data store's reader: a missing token leaves -1, an empty file yields nothing. */
  function TokenRecord(file: string): Option<Record> {
    if file == "" then None
    else
      var t := Tokens(Fgets(file, 256), ' ', '\n');
      Some(Election.Record(Field(t, 0), Field(t, 1), Field(t, 2), Field(t, 3), Field(t, 4)))
  }

  /** The state a restart loads from the file; `None` stands for a file that does not exist. */
  function Load(file: Option<string>): Record {
    if file.None? then Election.Recover(None) else Election.Recover(ScanRecord(file.value))
  }

  function CurrentLeader(file: Option<string>): int {
    if file.None? then -1 else Election.ReadLeader(TokenRecord(file.value))
  }

  /** The data store's rewrite of the file, through a 256-byte line. */
  function WriteLeader(file: Option<string>, term: int, leader: int): string {
    var r := if file.None? then None else TokenRecord(file.value);
    var line := Show(Election.OverwriteLeader(r, term, leader).value);
    line[..if |line| <= 255 then |line| else 255]
  }

  lemma ShowLength(r: Record)
    requires Representable(r)
    ensures |Show(r)| <= 60
  {
    PrintLength(r.term as int32);
    PrintLength(r.votedFor as int32);
    PrintLength(r.leaderId as int32);
    PrintLength(r.lastLogIndex as int32);
    PrintLength(r.lastLogTerm as int32);
  }

  lemma ScanSpaced(i: int, t: string)
    requires t == [] || !IsDigit(t[0])
    ensures ScanInt(" " + (Print(i) + t)) == Some((i, t))
  {
    ScanPrinted(i, t);
    assert (" " + (Print(i) + t))[1..] == Print(i) + t;
    assert Print(i)[0] in Print(i) && (Print(i) + t)[0] == Print(i)[0];
  }

  lemma ScanShown(r: Record)
    ensures ScanRecord(Show(r)) == Some(r)
  {
    var t5 := "\n";
    var t4 := " " + (Print(r.lastLogTerm) + t5);
    var t3 := " " + (Print(r.lastLogIndex) + t4);
    var t2 := " " + (Print(r.leaderId) + t3);
    var t1 := " " + (Print(r.votedFor) + t2);
    ScanPrinted(r.term, t1);
    ScanSpaced(r.votedFor, t2);
    ScanSpaced(r.leaderId, t3);
    ScanSpaced(r.lastLogIndex, t4);
    ScanSpaced(r.lastLogTerm, t5);
  }

  lemma TokenOf(i: int, rest: string)
    requires rest != [] && (rest[0] == ' ' || rest[0] == '\n')
    ensures Tokens(Print(i) + rest, ' ', '\n') == [Print(i)] + Tokens(rest[1..], ' ', '\n')
  {
    NoNewlineInPrint(i);
    FirstToken(Print(i), ' ', '\n', rest);
    NextToken(' ', '\n', rest[1..]);
    assert rest == [rest[0]] + rest[1..];
  }

  lemma ShownTokens(r: Record)
    ensures Tokens(Show(r), ' ', '\n')
      == [Print(r.term), Print(r.votedFor), Print(r.leaderId), Print(r.lastLogIndex), Print(r.lastLogTerm)]
  {
    var t5 := "\n";
    var t4 := Print(r.lastLogTerm) + t5;
    var t3 := Print(r.lastLogIndex) + (" " + t4);
    var t2 := Print(r.leaderId) + (" " + t3);
    var t1 := Print(r.votedFor) + (" " + t2);
    assert (" " + t1)[1..] == t1 && (" " + t2)[1..] == t2 && (" " + t3)[1..] == t3 && (" " + t4)[1..] == t4;
    TokenOf(r.term, " " + t1);
    TokenOf(r.votedFor, " " + t2);
    TokenOf(r.leaderId, " " + t3);
    TokenOf(r.lastLogIndex, " " + t4);
    TokenOf(r.lastLogTerm, t5);
    assert t5[1..] == [];
  }

  /** `fgets` hands the data store the whole line. */
  lemma ShownLine(r: Record)
    requires Representable(r)
    ensures Fgets(Show(r), 256) == Show(r)
  {
    ShowLength(r);
    var body := Print(r.term) + " " + Print(r.votedFor) + " " + Print(r.leaderId)
              + " " + Print(r.lastLogIndex) + " " + Print(r.lastLogTerm);
    NoNewlineInPrint(r.term);
    NoNewlineInPrint(r.votedFor);
    NoNewlineInPrint(r.leaderId);
    NoNewlineInPrint(r.lastLogIndex);
    NoNewlineInPrint(r.lastLogTerm);
    assert Show(r) == body + ['\n'] + "";
    FindAfter(body, '\n', "");
  }

  /** Both readers recover all five fields of every representable state from what was printed. */
  lemma BothReadersAgree(r: Record)
    requires Representable(r)
    ensures ScanRecord(Show(r)) == Some(r) == TokenRecord(Show(r))
  {
    ScanShown(r);
    ShownLine(r);
    ShownTokens(r);
    AtoiPrinted(r.term);
    AtoiPrinted(r.votedFor);
    AtoiPrinted(r.leaderId);
    AtoiPrinted(r.lastLogIndex);
    AtoiPrinted(r.lastLogTerm);
  }

  /** A file whose line has fewer than five words names no leader; one with fewer than five numbers is not loaded. */
  lemma PartialFile(file: string)
    ensures |Tokens(Fgets(file, 256), ' ', '\n')| < 5 ==> CurrentLeader(Some(file)) == -1
    ensures ScanRecord(file).None? ==> Load(Some(file)) == Load(None) == Election.Record(0, -1, -1, 0, 0)
  {}

  /**
   The file behaves as the abstract record the protocol's proofs use: restarting, reading
   the leader and rewriting the leader commute with printing. A rewrite with a
   non-negative term changes the term and the leader and nothing else of a sound record.
   */
  lemma FileRefinesRecord(r: Record, term: int, leader: int)
    requires Representable(r) && Fits(term) && Fits(leader)
    ensures Load(Some(Show(r))) == Election.Recover(Some(r))
    ensures CurrentLeader(Some(Show(r))) == Election.ReadLeader(Some(r))
    ensures WriteLeader(Some(Show(r)), term, leader) == Show(Election.OverwriteLeader(Some(r), term, leader).value)
    ensures WriteLeader(None, term, leader) == Show(Election.OverwriteLeader(None, term, leader).value)
    ensures term >= 0 && r.votedFor >= -1 && r.lastLogIndex >= 0 && r.lastLogTerm >= 0 ==>
      ScanRecord(WriteLeader(Some(Show(r)), term, leader)) == Some(r.(term := term, leaderId := leader))
  {
    BothReadersAgree(r);
    ShowLength(Election.OverwriteLeader(Some(r), term, leader).value);
    ShowLength(Election.OverwriteLeader(None, term, leader).value);
    ScanShown(Election.OverwriteLeader(Some(r), term, leader).value);
  }
}
