# Piedra, Papel o Tijera — verified model of the game and scoring core

The application is a one-page Rock-Paper-Scissors game. The player registers
participants, selects one, and plays rounds against a computer that draws a
random sign. The page keeps a per-participant record of wins, losses, ties
and games, and shows the last round. All state lives in one process-wide
session record with five keys:

- the participant table;
- the current participant;
- the last result;
- the last player choice;
- the last computer choice.

Every run of the page first initializes any key that is missing.

This project models that core in Dafny:

- `Rules` (rules.dfy): the three signs, the outcome of a round, and the emoji
  shown for a sign. The outcome is proved against an independent cyclic
  "beats" relation.
- `Scoring` (scoring.dfy): a participant's record and how one round updates
  it. It includes the consistency of the counters and the win percentage
  shown for a participant who has played.
- `Session` (session.dfy): the session record as a class whose fields are the
  five keys. The table is kept as the names in registration order plus a map
  from name to record. The class has a validity invariant: names are
  distinct and are exactly the table's keys, each record is consistent, the
  current participant is registered, nobody is current only when the table
  is empty, and the last round is wholly
  present or wholly absent and agrees with the rules. Its methods are
  set-up, registration, selection, playing a round and the two resets. Each
  one preserves the invariant and states exactly what it changes. Set-up is
  specified by the pure function `Initialized` on a `Snapshot` of the
  record.
- `Scenarios` (scenarios.dfy): two whole-session runs of the core operations,
  starting with the set-up the page performs on every rerun.
- `Options` (options.dfy): the optional value used for the `None`-able keys.

## Model

| member | source | states |
|---|---|---|
| Rules.DetermineWinner | PiedraPapelTijera/app.py:33-42 | The result is a tie exactly when the signs are equal. The player wins exactly when the player's sign beats the computer's on the Rock→Scissors→Paper→Rock cycle, and the computer wins exactly in the converse case. |
| Rules.WinnerSwaps | PiedraPapelTijera/app.py:37-42 | For distinct signs, the player wins (a, b) exactly when the computer wins (b, a), and the other way round. |
| Rules.BeatsIsCyclic | PiedraPapelTijera/app.py:286-289 | Rock beats Scissors, Scissors beats Paper and Paper beats Rock. Each sign beats exactly one sign and is beaten by exactly one sign; no sign beats itself. |
| Rules.ChoiceEmoji | PiedraPapelTijera/app.py:114-122 | The emoji is non-empty exactly for the three sign names; any other string gives the empty string. |
| Rules.EmojiDistinguishesChoices | PiedraPapelTijera/app.py:114-122 | Two signs get the same emoji only if they are the same sign. |
| Scoring.Record | PiedraPapelTijera/app.py:80-91 | A round adds one game and one to the counter the outcome names. The other two counters are unchanged, and a consistent record stays consistent. |
| Scoring.RecordAllCounts | PiedraPapelTijera/app.py:80-91 | After a series of rounds, the games count has grown by the series' length and each counter by the number of rounds with its outcome. Consistency is preserved. |
| Scoring.RoundsFromZero | PiedraPapelTijera/app.py:46-52 | From a new participant's zeroed record, N rounds give a consistent record of N games whose wins are the rounds won. |
| Scoring.WinPercentage | PiedraPapelTijera/app.py:239-240 | A percentage exists exactly when games have been played, and it is wins / games × 100. For a consistent record it lies between 0 and 100, and it is 100 exactly when every game was won. |
| Session.Announce | PiedraPapelTijera/app.py:84-92 | The last-round message records the round's outcome, and a win message names the participant who played. |
| Session.NoDuplicatesAppend | PiedraPapelTijera/app.py:46-52 | Adding a name that is not yet registered keeps registered names distinct, as dictionary keys are. |
| Session.NoDuplicatesDistinct | PiedraPapelTijera/app.py:46-52 | Under the distinctness invariant, two positions of the name list never hold the same name. |
| Session.RecordsValidAt | PiedraPapelTijera/app.py:81 | Any registered name is non-empty and has a consistent record in the table, so the lookup of the current participant cannot fail. |
| Session.RecordsValidUpdate | PiedraPapelTijera/app.py:81-91 | Giving a registered name another consistent record keeps every record consistent. |
| Session.RecordsValidAppend | PiedraPapelTijera/app.py:46-52 | Registering a non-empty name with a consistent record keeps every record consistent. |
| Session.DefaultTableValid | PiedraPapelTijera/app.py:6-20 | The two default participants form a valid table: distinct names, exactly the table's keys, consistent records. |
| Session.Initialized | PiedraPapelTijera/app.py:4-31 | After set-up every key is present, and every key that was already present keeps its value. A missing table becomes the two default participants, a missing selection becomes the first registered name (none if the table is empty), and a missing last-round key becomes none. A record that already holds every key is unchanged. A record that holds no key becomes Jugador1 and Jugador2, in that order, with zeroed records, with Jugador1 current and no last round. |
| Session.InitializedIdempotent | PiedraPapelTijera/app.py:4-31 | Setting up twice gives the same record as setting up once. |
| Session.SessionState.Initialize | PiedraPapelTijera/app.py:4-31 | The new record is `Initialized` of the old one. A record that held no key becomes valid, and a record holding every key is left unchanged. |
| Session.SessionState.Register | PiedraPapelTijera/app.py:44-55 | Returns true exactly when the name is non-empty and not yet registered. On success it appends the name with a zeroed record and makes it current. On failure nothing changes. The last round is never touched, and the invariant is kept. |
| Session.SessionState.Select | PiedraPapelTijera/app.py:165-166 | A registered name becomes current. Nothing else changes, and the invariant is kept. |
| Session.SessionState.CurrentParticipantData | PiedraPapelTijera/app.py:57-61 | There is a record exactly when a participant is current. It is that participant's table entry, and it is consistent. |
| Session.SessionState.Play | PiedraPapelTijera/app.py:63-92 | With no participant current nothing changes. Otherwise the current participant's record takes the outcome of `DetermineWinner`, the two signs and the message become the last round, and every other participant, the name order and the selection are unchanged. The invariant is kept, in particular games = wins + losses + ties. |
| Session.SessionState.ResetParticipant | PiedraPapelTijera/app.py:94-104 | With no participant current nothing changes. Otherwise only the current participant's record becomes zero and the last round is cleared. Names, selection and invariant are kept. |
| Session.SessionState.ResetAll | PiedraPapelTijera/app.py:106-112 | From any state, the table becomes empty, no participant is current, the last round is cleared, and the invariant holds. |
| Scenarios.RegisterAndWin | PiedraPapelTijera/app.py:127-182 | Set-up, registering "Ana" and playing Rock against Scissors gives Ana a record of one win in one game and a win message naming her. Registering "Ana" again is refused. |
| Scenarios.ResetAllThenRerun | PiedraPapelTijera/app.py:253-256 | After "erase everything" and the rerun's set-up, the table stays empty with nobody current, because every key is present. A round asked for afterwards is refused by the round's own guard (app.py:65-67) and changes nothing; the page itself never asks, since it hides the play buttons while nobody is current (app.py:170). |

## Left out

- The page itself is not modelled: titles, columns, buttons, the selection box widget, the success, warning and error messages, `st.rerun`, the rules expander and the statistics display in `main` (app.py:124-295). Only the order in which `main` calls the core is used, in `Scenarios`.
- The computer's random draw (app.py:70-71) is not modelled. `Session.SessionState.Play` takes the computer's sign as a parameter.
- Signs reach the core as the strings "Rock", "Paper" and "Scissors" from the three buttons. They are modelled as the `Choice` datatype, because the page never passes any other string. `Rules.ChoiceEmoji` keeps its string argument, since it also handles other strings.
- The text of the last result, its emoji decoration, and the display test on the substring "Gana" (app.py:86-92, 210-215) are not modelled. The result is modelled as `RoundMessage`: the participant won, the computer won, or a draw.
- Scoring.WinPercentage: the value is an exact rational rather than a floating-point number, and its one-decimal formatting and progress bar (app.py:241-242) are left out. There is no percentage for a participant with no games, because the code only computes one when games > 0 (app.py:239).
- The pandas summary table of all participants (app.py:259-280) is not modelled. It is display through a foreign library.
- Counters are unbounded integers, as in Python. That they are never negative is part of the consistency invariant rather than of their type.
- Register, Select, CurrentParticipantData, Play and ResetParticipant require the validity invariant, which is the state set-up establishes. `main` runs set-up first on every rerun (app.py:127), and reset-all restores the invariant from any state.
- Play and ResetParticipant: the source changes counters in place in the participant's dictionary (app.py:80-91, 97-101). The model replaces that participant's map entry instead. No other reference to that dictionary exists, so the observable state is the same.
- The truth test on the current participant (app.py:65, 96) is modelled as "present and non-empty". Under the invariant this is the same as "present".
- Persistence of the session record across reruns and concurrent sessions are outside the model.
