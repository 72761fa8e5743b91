/**
 * The rules engine of the game: the three hand signs, the outcome of one
 * round, and the emoji shown for a sign.
 */
module Rules {

  /** A hand sign. The game passes these around as the strings given by `Name`. */
  datatype Choice = Rock | Paper | Scissors

  /** The outcome of a round, seen from the player: "tie", "player" or "computer". */
  datatype Outcome = Tie | PlayerWins | ComputerWins

  /** The string the game uses for a sign (the button values and the computer's draw list). */
  function Name(c: Choice): string
  {
    match c
    case Rock => "Rock"
    case Paper => "Paper"
    case Scissors => "Scissors"
  }

  /** Position of a sign on the cycle Rock -> Paper -> Scissors -> Rock. */
  function Index(c: Choice): int
  {
    match c
    case Rock => 0
    case Paper => 1
    case Scissors => 2
  }

  /**
   * The reference beats-relation, stated independently of the game's case list:
   * a sign beats the sign just before it on the cycle.
   */
  predicate Beats(a: Choice, b: Choice)
  {
    (Index(a) - Index(b)) % 3 == 1
  }

  /**
   * Decides a round. Equal signs tie; otherwise the player wins exactly on
   * (Rock, Scissors), (Paper, Rock) and (Scissors, Paper), and the computer
   * wins every other pair.
   */
  function DetermineWinner(player: Choice, computer: Choice): (r: Outcome)
    ensures r == Tie <==> player == computer
    ensures r == PlayerWins <==> Beats(player, computer)
    ensures r == ComputerWins <==> Beats(computer, player)
  {
    if player == computer then Tie
    else if (player == Rock && computer == Scissors)
         || (player == Paper && computer == Rock)
         || (player == Scissors && computer == Paper) then PlayerWins
    else ComputerWins
  }

  /** For distinct signs, swapping the two sides swaps the winner. */
  lemma WinnerSwaps(a: Choice, b: Choice)
    requires a != b
    ensures DetermineWinner(a, b) == PlayerWins <==> DetermineWinner(b, a) == ComputerWins
    ensures DetermineWinner(a, b) == ComputerWins <==> DetermineWinner(b, a) == PlayerWins
  {
  }

  /**
   * Rock beats Scissors, Scissors beats Paper, Paper beats Rock; every sign
   * beats exactly one sign and loses to exactly one sign.
   */
  lemma BeatsIsCyclic(a: Choice)
    ensures Beats(Rock, Scissors) && Beats(Scissors, Paper) && Beats(Paper, Rock)
    ensures exists b :: Beats(a, b)
    ensures exists b :: Beats(b, a)
    ensures forall b, b' :: Beats(a, b) && Beats(a, b') ==> b == b'
    ensures forall b, b' :: Beats(b, a) && Beats(b', a) ==> b == b'
    ensures !Beats(a, a)
  {
    assert Beats(Rock, Scissors) && Beats(Scissors, Paper) && Beats(Paper, Rock);
    match a
    case Rock => assert Beats(Rock, Scissors) && Beats(Paper, Rock);
    case Paper => assert Beats(Paper, Rock) && Beats(Scissors, Paper);
    case Scissors => assert Beats(Scissors, Paper) && Beats(Rock, Scissors);
  }

  /**
   * The emoji shown beside a sign's string: one per sign, and the empty
   * string for any other string.
   */
  function ChoiceEmoji(s: string): (r: string)
    ensures r != "" <==> exists c :: s == Name(c)
  {
    if s == "Rock" then assert s == Name(Rock); "\U{1FAA8}"
    else if s == "Paper" then assert s == Name(Paper); "\U{1F4C4}"
    else if s == "Scissors" then assert s == Name(Scissors); "\U{2702}\U{FE0F}"
    else ""
  }

  /** The emoji tells the signs apart. */
  lemma EmojiDistinguishesChoices(a: Choice, b: Choice)
    ensures ChoiceEmoji(Name(a)) == ChoiceEmoji(Name(b)) <==> a == b
  {
  }
}
