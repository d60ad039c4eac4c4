/** The text commands that clients, servers and the tracker exchange, as string streams read them. */
module CommandText {
  import opened Prelude
  import opened Decimal
  import opened Serial
  import Tracker

  /** `Undefined`: a command without the number it needs leaves the variable uninitialised. */
  datatype ServerCommand =
    | Connect(remote: ClusterID) | Disconnect(remote: ClusterID) | RunAs(id: ClusterID) | Exit
    | ForCluster(text: string) | Undefined

  function WordLength(s: string): (k: nat)
    ensures k <= |s|
  {
    if s == [] || IsSpace(s[0]) then 0 else 1 + WordLength(s[1..])
  }

  /** `ss >> command >> param`: the first word, and the number behind it if there is anything to read. */
  function Split(text: string): (string, Option<ClusterID>) {
    var t := SkipSpace(text);
    var k := WordLength(t);
    (t[..k], ReadUnsigned(t[k..]))
  }

  /** `ss >> x` for an unsigned int: 0 where no number stands, the largest one on overflow. */
  function ReadUnsigned(s: string): Option<ClusterID> {
    if SkipSpace(s) == [] then None
    else
      match Scan(In(s, false, false)).0
      case None => Some(0)
      case Some(n) => Some(if Abs(n) >= 0x1_0000_0000 then 0xFFFF_FFFF else n % 0x1_0000_0000)
  }

  /** Which branch of `Server::parseCommand` is taken, and its parameter. */
  function ServerReads(text: string): ServerCommand {
    var (word, param) := Split(text);
    if word == "EXIT" then Exit
    else if word != "CONNECT" && word != "DROP" && word != "RUN" then ForCluster(text)
    else match param
      case None => Undefined
      case Some(n) => if word == "CONNECT" then Connect(n) else if word == "DROP" then Disconnect(n) else RunAs(n)
  }

  /** Which branch of `Tracker::run` is taken, and its parameter; None if that is uninitialised. */
  function TrackerReads(text: string): Option<Tracker.Command> {
    var (word, param) := Split(text);
    if word == "LIST" then Some(Tracker.List)
    else if word != "ID" && word != "GET" then Some(Tracker.Other)
    else match param
      case None => None
      case Some(n) => Some(if word == "ID" then Tracker.Id(n) else Tracker.Get(n))
  }

  /** A command word with its number. */
  function Text(word: string, n: ClusterID): string {
    word + " " + Itoa(n)
  }

  ghost predicate IsWord(s: string) {
    s != [] && forall i | 0 <= i < |s| :: !IsSpace(s[i])
  }

  lemma {:induction false} WordEnds(word: string, rest: string)
    requires (forall i | 0 <= i < |word| :: !IsSpace(word[i])) && rest != [] && IsSpace(rest[0])
    ensures WordLength(word + rest) == |word|
  {
    if word == [] {
      assert word + rest == rest;
    } else {
      assert (word + rest)[1..] == word[1..] + rest;
      WordEnds(word[1..], rest);
    }
  }

  lemma UnsignedReadsBack(n: ClusterID)
    ensures ReadUnsigned(" " + Itoa(n)) == Some(n)
  {
    var text := " " + Itoa(n);
    DigitsAreDigits(n);
    ReadDigitsOfDigits(n);
    assert text[1..] == Digits(n) == Digits(n) + "";
    ScanReadsNumber(In(text, false, false), false, Digits(n), "");
  }

  lemma SplitsBack(word: string, n: ClusterID)
    requires IsWord(word)
    ensures Split(Text(word, n)) == (word, Some(n))
  {
    var rest := " " + Itoa(n);
    var text := Text(word, n);
    assert text == word + rest;
    assert text[0] == word[0] && SkipSpace(text) == text;
    WordEnds(word, rest);
    assert text[..|word|] == word && text[|word|..] == rest;
    UnsignedReadsBack(n);
  }

  function ServerText(c: ServerCommand): string
    requires c.Connect? || c.Disconnect? || c.RunAs?
  {
    match c
    case Connect(remote) => Text("CONNECT", remote)
    case Disconnect(remote) => Text("DROP", remote)
    case RunAs(id) => Text("RUN", id)
  }

  function TrackerText(c: Tracker.Command): string
    requires c.Id? || c.Get?
  {
    match c
    case Id(newId) => Text("ID", newId)
    case Get(what) => Text("GET", what)
  }

  /** A server reads what clients and the tracker send it as what it was. */
  lemma ServerReadsBack(c: ServerCommand)
    requires c.Connect? || c.Disconnect? || c.RunAs?
    ensures ServerReads(ServerText(c)) == c
  {
    match c
    case Connect(remote) => SplitsBack("CONNECT", remote);
    case Disconnect(remote) => SplitsBack("DROP", remote);
    case RunAs(id) => SplitsBack("RUN", id);
  }

  /** The tracker reads what servers and clients send it as what it was. */
  lemma TrackerReadsBack(c: Tracker.Command)
    requires c.Id? || c.Get?
    ensures TrackerReads(TrackerText(c)) == Some(c)
  {
    match c
    case Id(newId) => SplitsBack("ID", newId);
    case Get(what) => SplitsBack("GET", what);
  }

  lemma {:induction false} BareWord(word: string)
    requires IsWord(word)
    ensures Split(word) == (word, None)
  {
    BareWordLength(word);
    assert word[..|word|] == word && word[|word|..] == [];
  }

  lemma {:induction false} BareWordLength(word: string)
    requires forall i | 0 <= i < |word| :: !IsSpace(word[i])
    ensures WordLength(word) == |word|
  {
    if word != [] {
      BareWordLength(word[1..]);
    }
  }

  /** Commands without a number: LIST and EXIT need none, the others are undefined without theirs. */
  lemma {:induction false} BareCommands(word: string)
    requires IsWord(word)
    ensures TrackerReads(word) == if word == "LIST" then Some(Tracker.List)
                                  else if word == "ID" || word == "GET" then None else Some(Tracker.Other)
    ensures ServerReads(word) == if word == "EXIT" then Exit
                                 else if word == "CONNECT" || word == "DROP" || word == "RUN" then Undefined
                                 else ForCluster(word)
  {
    BareWord(word);
  }

  /** Whatever is no command of the server goes to the cluster as it came. */
  lemma {:induction false} OthersGoToCluster(word: string, n: ClusterID)
    requires IsWord(word) && word != "CONNECT" && word != "DROP" && word != "RUN" && word != "EXIT"
    ensures ServerReads(Text(word, n)) == ForCluster(Text(word, n))
  {
    SplitsBack(word, n);
  }
}
