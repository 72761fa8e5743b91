/**
 * A participant's statistics and how one round updates them.
 */
module Scoring {
  import opened Options
  import opened Rules

  /**
   * The record kept per participant: `wins`, `losses`, `ties`, `total_games`,
   * unbounded integers as in the game; that they are never negative is part
   * of `Consistent`.
   */
  datatype Stats = Stats(wins: int, losses: int, ties: int, totalGames: int)

  /** The record a participant starts with, and is reset to. */
  const Zero := Stats(0, 0, 0, 0)

  /** No counter is negative, and every game counted is exactly one win, loss or tie. */
  predicate Consistent(s: Stats)
  {
    var Stats(wins, losses, ties, totalGames) := s;
    && wins >= 0 && losses >= 0 && ties >= 0
    && totalGames == wins + losses + ties
  }

  /** The counter that an outcome increments. */
  function Count(s: Stats, o: Outcome): int
  {
    match o
    case PlayerWins => s.wins
    case ComputerWins => s.losses
    case Tie => s.ties
  }

  /**
   * The update that one played round makes to the current participant's
   * record: one more game, and one more of the counter named by the outcome.
   */
  function Record(s: Stats, o: Outcome): (r: Stats)
    ensures r.totalGames == s.totalGames + 1
    ensures Count(r, o) == Count(s, o) + 1
    ensures forall o' :: o' != o ==> Count(r, o') == Count(s, o')
    ensures Consistent(s) ==> Consistent(r)
  {
    var s' := s.(totalGames := s.totalGames + 1);
    match o
    case PlayerWins => s'.(wins := s.wins + 1)
    case ComputerWins => s'.(losses := s.losses + 1)
    case Tie => s'.(ties := s.ties + 1)
  }

  /** How many rounds of a series ended with outcome `o`. */
  function Occurrences(os: seq<Outcome>, o: Outcome): nat
  {
    if os == [] then 0
    else (if os[0] == o then 1 else 0) + Occurrences(os[1..], o)
  }

  /** The record after a series of rounds played one after another by one participant. */
  function RecordAll(s: Stats, os: seq<Outcome>): Stats
    decreases |os|
  {
    if os == [] then s else RecordAll(Record(s, os[0]), os[1..])
  }

  /**
   * After N rounds, the participant has N more games, each counter has grown
   * by the number of rounds with its outcome, and a consistent record stays
   * consistent.
   */
  lemma {:induction false} RecordAllCounts(s: Stats, os: seq<Outcome>, o: Outcome)
    ensures RecordAll(s, os).totalGames == s.totalGames + |os|
    ensures Count(RecordAll(s, os), o) == Count(s, o) + Occurrences(os, o)
    ensures Consistent(s) ==> Consistent(RecordAll(s, os))
    decreases |os|
  {
    if os != [] {
      RecordAllCounts(Record(s, os[0]), os[1..], o);
    }
  }

  /** Starting from a fresh record, N rounds give a consistent record of N games. */
  lemma RoundsFromZero(os: seq<Outcome>)
    ensures RecordAll(Zero, os).totalGames == |os|
    ensures Consistent(RecordAll(Zero, os))
    ensures RecordAll(Zero, os).wins == Occurrences(os, PlayerWins)
  {
    RecordAllCounts(Zero, os, PlayerWins);
  }

  /**
   * The percentage of won games, shown only for a participant who has
   * played: there is none when no game was played.
   */
  function WinPercentage(s: Stats): (r: Option<real>)
    ensures r.Some? <==> s.totalGames > 0
    ensures r.Some? ==> r.value * (s.totalGames as real) == 100.0 * (s.wins as real)
    ensures r.Some? && Consistent(s) ==> 0.0 <= r.value <= 100.0
    ensures r.Some? && Consistent(s) ==> (r.value == 100.0 <==> s.wins == s.totalGames)
  {
    if s.totalGames > 0 then
      var w, t := s.wins as real, s.totalGames as real;
      assert Consistent(s) ==> w / t <= 1.0 by {
        if Consistent(s) {
          assert w <= t;
          assert w / t * t == w;
        }
      }
      assert (w / t) * 100.0 * t == 100.0 * w by {
        assert w / t * t == w;
      }
      Some((w / t) * 100.0)
    else None
  }
}
