/**
 * Whole-session runs of the core operations: the set-up the page performs on
 * every rerun, registration, rounds and the resets.
 */
module Scenarios {
  import opened Options
  import opened Rules
  import opened Scoring
  import opened Session

  /**
   * A new participant registers and wins one round with Rock against
   * Scissors: the record shows one win in one game, the message names the
   * winner, and registering the same name again is refused.
   */
  method RegisterAndWin() returns (data: Option<Stats>, message: Option<RoundMessage>, again: bool)
    ensures data == Some(Stats(1, 0, 0, 1))
    ensures message == Some(ParticipantWon("Ana"))
    ensures !again
  {
    var s := new SessionState();
    s.Initialize();
    var ok := s.Register("Ana");
    var played := s.Play(Rock, Scissors);
    data := s.CurrentParticipantData();
    message := s.lastResult;
    again := s.Register("Ana");
  }

  /**
   * Erasing everything and rerunning the set-up does not bring the default
   * participants back: every key is present, so initialization keeps the
   * empty table and the absent selection. A round asked for afterwards is
   * refused by the round's own guard and changes nothing; the page itself
   * never asks for it, since it hides the play buttons while nobody is current.
   */
  method ResetAllThenRerun() returns (names: seq<string>, current: Option<string>, played: bool)
    ensures names == [] && current == None
    ensures !played
  {
    var s := new SessionState();
    s.Initialize();
    var _ := s.Play(Paper, Paper);
    s.ResetAll();
    s.Initialize();
    played := s.Play(Rock, Paper);
    names, current := s.names, s.current;
  }
}
