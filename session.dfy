/**
 * The process-wide session record of the game and the operations that
 * change it: set-up, registration, selection, playing a round and the two
 * resets.
 */
module Session {
  import opened Options
  import opened Rules
  import opened Scoring

  /** The keys of the session record; a key is missing until something assigns it. */
  datatype StateKey = Participants | CurrentParticipant | LastResult | LastPlayerChoice | LastComputerChoice

  const AllKeys: set<StateKey> :=
    {Participants, CurrentParticipant, LastResult, LastPlayerChoice, LastComputerChoice}

  /**
   * The last-round message: the current participant's name when the player
   * won, the computer when it won, or a draw.
   */
  datatype RoundMessage = ParticipantWon(participant: string) | ComputerWon | Draw

  /** The message recorded for a round played by `name` that ended with `o`. */
  function Announce(name: string, o: Outcome): (m: RoundMessage)
    ensures OutcomeOf(m) == o
    ensures m.ParticipantWon? ==> m.participant == name
  {
    match o
    case PlayerWins => ParticipantWon(name)
    case ComputerWins => ComputerWon
    case Tie => Draw
  }

  /** Reads the outcome back from a message. */
  function OutcomeOf(m: RoundMessage): Outcome
  {
    match m
    case ParticipantWon(_) => PlayerWins
    case ComputerWon => ComputerWins
    case Draw => Tie
  }

  /** The two participants a new session starts with, in order, each with a zeroed record. */
  const DefaultNames: seq<string> := ["Jugador1", "Jugador2"]
  const DefaultTable: map<string, Stats> := map["Jugador1" := Zero, "Jugador2" := Zero]

  /** No name occurs twice in the sequence. */
  ghost predicate NoDuplicates(s: seq<string>)
  {
    |s| > 0 ==> s[0] !in s[1..] && NoDuplicates(s[1..])
  }

  /** Appending a name not yet listed keeps the list free of duplicates. */
  lemma {:induction false} NoDuplicatesAppend(s: seq<string>, x: string)
    requires NoDuplicates(s) && x !in s
    ensures NoDuplicates(s + [x])
  {
    if |s| > 0 {
      assert (s + [x])[1..] == s[1..] + [x];
      NoDuplicatesAppend(s[1..], x);
    }
  }

  /** The recursive definition means what it says: distinct positions hold distinct names. */
  lemma {:induction false} NoDuplicatesDistinct(s: seq<string>, i: nat, j: nat)
    requires NoDuplicates(s)
    requires i < j < |s|
    ensures s[i] != s[j]
  {
    if i == 0 {
      assert s[j] == s[1..][j - 1];
    } else {
      NoDuplicatesDistinct(s[1..], i - 1, j - 1);
    }
  }

  /** Every listed name is non-empty and has a consistent record in the table. */
  ghost predicate RecordsValid(names: seq<string>, table: map<string, Stats>)
  {
    |names| > 0 ==>
      && |names[0]| > 0 && names[0] in table && Consistent(table[names[0]])
      && RecordsValid(names[1..], table)
  }

  /** What `RecordsValid` gives for one listed name. */
  lemma {:induction false} RecordsValidAt(names: seq<string>, table: map<string, Stats>, n: string)
    requires RecordsValid(names, table) && n in names
    ensures |n| > 0 && n in table && Consistent(table[n])
  {
    if names[0] != n {
      RecordsValidAt(names[1..], table, n);
    }
  }

  /** Giving a non-empty name a consistent record keeps every listed record valid. */
  lemma {:induction false} RecordsValidUpdate(names: seq<string>, table: map<string, Stats>, x: string, s: Stats)
    requires RecordsValid(names, table) && |x| > 0 && Consistent(s)
    ensures RecordsValid(names, table[x := s])
  {
    if |names| > 0 {
      RecordsValidUpdate(names[1..], table, x, s);
    }
  }

  /** Listing a non-empty name with a consistent record keeps every listed record valid. */
  lemma {:induction false} RecordsValidAppend(names: seq<string>, table: map<string, Stats>, x: string, s: Stats)
    requires RecordsValid(names, table) && |x| > 0 && Consistent(s)
    ensures RecordsValid(names + [x], table[x := s])
  {
    if |names| > 0 {
      assert (names + [x])[1..] == names[1..] + [x];
      RecordsValidAppend(names[1..], table, x, s);
    }
  }

  /** Names in order of registration: no name twice, and exactly the keys of the table. */
  ghost predicate TableValid(names: seq<string>, table: map<string, Stats>)
  {
    && NoDuplicates(names)
    && (forall n :: n in names <==> n in table)
    && RecordsValid(names, table)
  }

  /** The default participants form a valid table. */
  lemma DefaultTableValid()
    ensures TableValid(DefaultNames, DefaultTable)
  {
  }

  /** The last round is either wholly absent or consistent with the rules. */
  ghost predicate LastRoundValid(player: Option<Choice>, computer: Option<Choice>, result: Option<RoundMessage>)
  {
    && (player.Some? <==> result.Some?)
    && (computer.Some? <==> result.Some?)
    && (result.Some? ==> OutcomeOf(result.value) == DetermineWinner(player.value, computer.value))
  }

  /** The session record's keys and values, as one value. */
  datatype Snapshot = Snapshot(
    present: set<StateKey>,
    names: seq<string>,
    table: map<string, Stats>,
    current: Option<string>,
    lastResult: Option<RoundMessage>,
    lastPlayerChoice: Option<Choice>,
    lastComputerChoice: Option<Choice>)

  /** Initialization: every missing key gets its default, every present key keeps its value. */
  function Initialized(s: Snapshot): (r: Snapshot)
    ensures r.present == AllKeys
    ensures s.present == AllKeys ==> r == s
    ensures Participants in s.present ==> r.names == s.names && r.table == s.table
    ensures CurrentParticipant in s.present ==> r.current == s.current
    ensures LastResult in s.present ==> r.lastResult == s.lastResult
    ensures LastPlayerChoice in s.present ==> r.lastPlayerChoice == s.lastPlayerChoice
    ensures LastComputerChoice in s.present ==> r.lastComputerChoice == s.lastComputerChoice
    ensures Participants !in s.present ==> r.names == ["Jugador1", "Jugador2"] && TableValid(r.names, r.table)
    ensures CurrentParticipant !in s.present ==>
      r.current == (if r.names == [] then None else Some(r.names[0]))
    ensures LastResult !in s.present ==> r.lastResult == None
    ensures LastPlayerChoice !in s.present ==> r.lastPlayerChoice == None
    ensures LastComputerChoice !in s.present ==> r.lastComputerChoice == None
    ensures s.present == {} ==>
      r == Snapshot(AllKeys, ["Jugador1", "Jugador2"], map["Jugador1" := Zero, "Jugador2" := Zero],
                    Some("Jugador1"), None, None, None)
  {
    var unset := Participants !in s.present;
    var names := if unset then DefaultNames else s.names;
    Snapshot(
      AllKeys,
      names,
      if unset then DefaultTable else s.table,
      if CurrentParticipant in s.present then s.current else if names != [] then Some(names[0]) else None,
      if LastResult in s.present then s.lastResult else None,
      if LastPlayerChoice in s.present then s.lastPlayerChoice else None,
      if LastComputerChoice in s.present then s.lastComputerChoice else None)
  }

  /** Initializing twice is the same as initializing once. */
  lemma InitializedIdempotent(s: Snapshot)
    ensures Initialized(Initialized(s)) == Initialized(s)
  {
  }

  class SessionState {
    /** Which keys the session record holds. */
    var present: set<StateKey>
    /** The participant table: names in insertion order, and each name's record. */
    var names: seq<string>
    var table: map<string, Stats>
    var current: Option<string>
    var lastResult: Option<RoundMessage>
    var lastPlayerChoice: Option<Choice>
    var lastComputerChoice: Option<Choice>

    /** The session invariant, which holds once every key is present. */
    ghost predicate Valid()
      reads this
    {
      && present == AllKeys
      && TableValid(names, table)
      && (current.Some? ==> current.value in table && |current.value| > 0)
      && (current.None? ==> names == [])
      && LastRoundValid(lastPlayerChoice, lastComputerChoice, lastResult)
    }

    /** Whether a participant is selected, with the truthiness test on the name. */
    predicate HasCurrent()
      reads this
    {
      current.Some? && |current.value| > 0
    }

    /** A new session holds no keys at all. */
    constructor ()
      ensures present == {}
    {
      present := {};
      names := [];
      table := map[];
      current := None;
      lastResult := None;
      lastPlayerChoice := None;
      lastComputerChoice := None;
    }

    /** The whole session record as one value. */
    function View(): Snapshot
      reads this
    {
      Snapshot(present, names, table, current, lastResult, lastPlayerChoice, lastComputerChoice)
    }

    /**
     * Gives each missing key its default and leaves present keys as they are;
     * the fresh session it makes is valid, and a complete one is untouched.
     */
    method Initialize()
      modifies this
      ensures View() == Initialized(old(View()))
      ensures old(present) == {} ==> Valid()
      ensures old(present) == AllKeys ==> unchanged(this)
    {
      var unset := Participants !in present;
      var n := if unset then DefaultNames else names;
      var tb := if unset then DefaultTable else table;
      var c := if CurrentParticipant in present then current
        else if n != [] then Some(n[0]) else None;
      var r := if LastResult in present then lastResult else None;
      var p := if LastPlayerChoice in present then lastPlayerChoice else None;
      var q := if LastComputerChoice in present then lastComputerChoice else None;
      names, table, current, lastResult, lastPlayerChoice, lastComputerChoice, present :=
        n, tb, c, r, p, q, AllKeys;
      assert unset ==> TableValid(names, table) by {
        DefaultTableValid();
      }
    }

    /**
     * Adds a participant with a zeroed record and selects them, when the name
     * is non-empty and not yet registered; otherwise changes nothing. The
     * last round is never touched.
     */
    method Register(name: string) returns (ok: bool)
      requires Valid()
      modifies this
      ensures Valid()
      ensures ok <==> |name| > 0 && name !in old(table)
      ensures ok ==> names == old(names) + [name] && table == old(table)[name := Zero]
      ensures ok ==> current == Some(name)
      ensures !ok ==> unchanged(this)
      ensures present == old(present)
      ensures lastResult == old(lastResult)
      ensures lastPlayerChoice == old(lastPlayerChoice)
      ensures lastComputerChoice == old(lastComputerChoice)
    {
      if |name| > 0 && name !in table {
        assert name !in names;
        NoDuplicatesAppend(names, name);
        RecordsValidAppend(names, table, name, Zero);
        names := names + [name];
        table := table[name := Zero];
        current := Some(name);
        return true;
      }
      return false;
    }

    /** Makes a registered participant the current one; nothing else changes. */
    method Select(name: string)
      requires Valid()
      requires name in table
      modifies this
      ensures Valid()
      ensures current == Some(name)
      ensures names == old(names) && table == old(table) && present == old(present)
      ensures lastResult == old(lastResult)
      ensures lastPlayerChoice == old(lastPlayerChoice)
      ensures lastComputerChoice == old(lastComputerChoice)
    {
      RecordsValidAt(names, table, name);
      if current != Some(name) {
        current := Some(name);
      }
    }

    /** The current participant's record, if a participant is selected. */
    function CurrentParticipantData(): (r: Option<Stats>)
      reads this
      requires Valid()
      ensures r.Some? <==> current.Some?
      ensures r.Some? ==> current.value in table && r.value == table[current.value]
      ensures r.Some? ==> Consistent(r.value)
    {
      if HasCurrent() then
        RecordsValidAt(names, table, current.value);
        Some(table[current.value])
      else None
    }

    /**
     * Plays one round with the computer's sign given. With no participant
     * selected nothing changes; otherwise the current participant's record
     * takes the round's outcome and the round becomes the last round, and no
     * other participant changes.
     */
    method Play(playerChoice: Choice, computerChoice: Choice) returns (played: bool)
      requires Valid()
      modifies this
      ensures Valid()
      ensures played <==> old(current).Some?
      ensures !played ==> unchanged(this)
      ensures played ==>
        var name := old(current).value;
        var outcome := DetermineWinner(playerChoice, computerChoice);
        && table == old(table)[name := Record(old(table)[name], outcome)]
        && lastResult == Some(Announce(name, outcome))
      // A corollary of the map update above, stated for readers: no other participant changes.
      ensures played ==> forall n :: n in old(table) && Some(n) != old(current) ==> table[n] == old(table)[n]
      ensures played ==> lastPlayerChoice == Some(playerChoice) && lastComputerChoice == Some(computerChoice)
      ensures names == old(names) && current == old(current) && present == old(present)
    {
      if !HasCurrent() {
        return false;
      }
      var outcome := DetermineWinner(playerChoice, computerChoice);
      lastPlayerChoice := Some(playerChoice);
      lastComputerChoice := Some(computerChoice);
      var name := current.value;
      RecordsValidAt(names, table, name);
      RecordsValidUpdate(names, table, name, Record(table[name], outcome));
      table := table[name := Record(table[name], outcome)];
      lastResult := Some(Announce(name, outcome));
      return true;
    }

    /**
     * Zeroes the current participant's record and clears the last round;
     * does nothing when no participant is selected.
     */
    method ResetParticipant()
      requires Valid()
      modifies this
      ensures Valid()
      ensures old(current).None? ==> unchanged(this)
      ensures old(current).Some? ==>
        && table == old(table)[old(current).value := Zero]
        && lastResult == None && lastPlayerChoice == None && lastComputerChoice == None
      ensures names == old(names) && current == old(current) && present == old(present)
    {
      if HasCurrent() {
        var name := current.value;
        RecordsValidUpdate(names, table, name, Zero);
        table := table[name := Zero];
        lastResult := None;
        lastPlayerChoice := None;
        lastComputerChoice := None;
      }
    }

    /** Empties the table, deselects, and clears the last round, from any state. */
    method ResetAll()
      modifies this
      ensures Valid()
      ensures names == [] && table == map[] && current == None
      ensures lastResult == None && lastPlayerChoice == None && lastComputerChoice == None
    {
      names := [];
      table := map[];
      current := None;
      lastResult := None;
      lastPlayerChoice := None;
      lastComputerChoice := None;
      present := AllKeys;
    }
  }
}
