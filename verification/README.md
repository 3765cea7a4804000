# Farkle in Dafny

A model of the dice game in `farkle.py`, with proofs about it. It covers
five parts:

- **The `Roll` algebra** (module `Dice`): scoring by face groups, the
  multiset subset test, `trim` and `isTrimmed`.
- **The turn loop** of `Game.turn` (module `Turns`). The dice generator is
  replaced by a supplied list of throws.
- **The bots and the human player's acceptance test** (module `Players`).
- **The remote player's framing and answer parsing** (module `Protocol`).
- **Awarding points, the end-game counter and the final ranking** of
  `Game.play` (module `Game`).

Worked examples are in `DiceExamples` and `TurnExamples`. `Wrappers` holds
the `Option` type.

A few points where the model follows the code closely:

- **`RemotePlayer.sendMessage` frame.** It writes a start byte, the decimal
  length, an end byte and the message itself once (farkle.py:58).
- **`TakeOnlyOnesAndRerollWithThree`.** With three or more dice, it builds a
  roll of its ones and then drops it, so `move` returns `None` and the bot
  banks (farkle.py:31-32). With fewer dice it keeps the trimmed roll.
- **The re-roll check at farkle.py:194.** The turn loop asks only that the
  kept dice be trimmed and score. It does not check that they come from the
  roll.
  - A keep longer than the roll asks for a negative number of dice.
  - `range` of a negative number is empty, so that roll farkles.
- **The human player's zero-score test.** The test of farkle.py:47 comes
  after a `return` and never runs. The model proves that an accepted
  nonempty answer always scores anyway.
- **Player names.** Players with equal names share one entry of the score
  dictionary.
- **A game without players.** It cycles over nothing, and `play` returns
  `None` (`NoPlayers`).

## Model

| member | source | states |
|---|---|---|
| Dice.Score | farkle.py:112-122 | a roll without dice scores nothing; `Dice.ScoreTable` gives the score of real dice face by face |
| Dice.RemoveFirst | farkle.py:100 | `list.remove` takes away exactly one die of the face named and keeps every other die |
| Dice.ScoreSplit | farkle.py:112-122 | the score is the points of any one face group plus the score of the other dice, so the order in which groups are visited does not matter |
| Dice.ScoreIgnoresOrder | farkle.py:114 | two rolls with the same dice, in any order, score the same (the effect of `sorted` before `groupby`) |
| Dice.ScoreByFaceGroups | farkle.py:114-121 | two rolls whose face groups are worth the same points face by face score the same |
| Dice.ScoreTable | farkle.py:116-121 | for dice showing 1 to 6, the score is the sum over the six faces of the rule table: 1000 per triple of ones and 100 per other one, 500 per triple of fives and 50 per other five, 100 times the face per triple of any other face |
| Dice.ScoreNonNegative | farkle.py:112-122 | a roll of positive faces never scores below zero |
| Dice.FaceScoreZero | farkle.py:116-121 | a group of a real face scores nothing exactly when it is empty (ones, fives) or smaller than a triple (other faces) |
| Dice.ScoreZeroIff | farkle.py:184 | a roll of real dice farkles (scores 0) exactly when it has no one, no five and no face three or more times |
| Dice.IsSubsetOf | farkle.py:94-102 | striking each die off a copy of the other roll succeeds exactly when the dice form a sub-multiset of the other roll, duplicates counted |
| Dice.TrimFace | farkle.py:108-109 | removing dice of face `n` while their count is not a multiple of three leaves the largest multiple of three not above the count and touches no other face |
| Dice.Trim | farkle.py:104-110 | faces 2, 3, 4 and 6 are cut down to whole triples, every other face keeps all its dice, and the result is a sub-multiset of the roll |
| Dice.TrimFixpoint | farkle.py:104-110 | trim returns the roll unchanged exactly when its faces 2, 3, 4 and 6 already come in whole triples |
| Dice.TrimIdempotent | farkle.py:104-110 | trimming a trimmed roll changes nothing |
| Dice.TrimKeepsScore | farkle.py:105 | trim only drops dice that score nothing: the trimmed roll scores what the roll scores |
| Dice.TrimKeepsFaceScores | farkle.py:105 | every face group is worth the same points before and after trimming |
| Dice.IsTrimmed | farkle.py:124-131 | a roll is trimmed exactly when each face it shows is 1, 5, or present a multiple of three times; the empty roll is trimmed |
| Dice.TrimIsTrimmedIff | farkle.py:104-131 | the trimmed roll passes `isTrimmed` exactly when no face outside 1..6 is left in an incomplete group, as trim never touches such faces |
| Dice.TrimIsTrimmed | farkle.py:104-131 | for dice showing 1 to 6, the trimmed roll always passes `isTrimmed` |
| Dice.TrimmedScores | farkle.py:124-131 | a nonempty trimmed roll of real dice always scores |
| DiceExamples.ScoreExamples | farkle.py:116-121 | three ones score 1000, two ones 200, three fives 500 and three twos 200 |
| DiceExamples.ScoreExampleMixed | farkle.py:112-122 | three ones and a five score 1050 |
| DiceExamples.TrimExampleTwos | farkle.py:104-110 | trimming 2 2 2 3 leaves the three twos |
| DiceExamples.TrimExampleStraight | farkle.py:104-110 | trimming one die of each face leaves the one and the five |
| DiceExamples.IsTrimmedExamples | farkle.py:124-131 | 1 5 and the empty roll are trimmed and 2 2 is not |
| DiceExamples.SubsetExamples | farkle.py:94-102 | 1 1 is a subset of 1 1 5 but 1 1 1 is not: duplicates count |
| Turns.RollDice | farkle.py:81-86 | a roll of `n` dice has `n` dice drawn from the throw, and none when `n` is not positive |
| Turns.RerollCount | farkle.py:198-199 | after a keep, the dice not kept are rolled again, or all six when every die was kept |
| Turns.ValidKeep | farkle.py:194 | the check a keep must pass to go on: it is trimmed and scores, so it holds at least one die |
| Turns.Throw | farkle.py:184-207 | one pass of the loop: it farkles exactly when the roll scores nothing; on a scoring roll, `None` or a keep failing the check banks the roll's score, and a keep passing it goes on with the dice left and the keep's score; a pass never leaves the turn unfinished |
| Turns.ThrowGoesOn | farkle.py:194-199 | a keep that is trimmed and scores adds its score and rolls the remaining dice |
| Turns.Segment | farkle.py:183-207 | the loop from a given throw on; its passes are stated by `Turns.ZeroRollFarkles`, `Turns.BankAddsRoll` and `Turns.KeepGoesOn` |
| Turns.ZeroRollFarkles | farkle.py:184-187 | a roll that scores nothing ends the turn with a farkle, whatever points were kept before |
| Turns.BankAddsRoll | farkle.py:188-207 | on a scoring roll, `None` or a keep failing the check ends the turn with the points kept so far plus the whole roll's score |
| Turns.KeepGoesOn | farkle.py:194-200 | on a scoring roll, a keep passing the check goes on to the next throw with the dice left and the keep's score added |
| Turns.Turn | farkle.py:179-187 | a turn starts with six dice and nothing kept: a first roll that scores nothing farkles, a scoring first roll the player banks at once awards its score, and no throws leave it unfinished |
| Turns.KeptPointsCarry | farkle.py:182-207 | points kept earlier in a turn never change how the rest of the turn goes: a bank adds them and a farkle wipes them out |
| Turns.HonestThrowGains | farkle.py:184-207 | on real dice, a pass by a player who keeps only offered dice banks or keeps a positive number of points |
| Turns.HonestSegmentGains | farkle.py:183-207 | on real dice and with such a player, a turn that banks ends above the points it started with |
| Turns.HonestTurnAward | farkle.py:179-208 | on real dice and with such a player, a turn awards zero on a farkle and a positive number of points on a bank |
| Turns.OverlongKeepFarkles | farkle.py:194-199 | a keep that passes the check but holds more dice than the roll leads to an empty roll, so the turn farkles |
| TurnExamples.TurnExampleBank | farkle.py:179-208 | keeping three ones (1000), then throwing three fives on the three dice rerolled and banking, awards 1500 |
| TurnExamples.TurnExampleFarkle | farkle.py:184-187 | the same start followed by a throw with no score farkles, and the 1000 points kept are lost |
| TurnExamples.FirstPass | farkle.py:194-200 | the first roll 1 1 1 2 3 4 with the ones kept goes on with three dice and 1000 points |
| Players.Threshold | farkle.py:17-27 | each `RerollWith` bot needs between two and four dice to roll again |
| Players.Move | farkle.py:17-34 | a bot keeps the trimmed roll exactly when it holds at least its threshold of dice; the ones-only bot banks with three or more dice and keeps the trimmed roll otherwise |
| Players.MoveIsValidKeep | farkle.py:17-34 | on a scoring roll of real dice, what a bot keeps passes the check of farkle.py:194 |
| Players.Bot | farkle.py:17-34 | a bot answers every roll of a turn with its `move` |
| Players.BotIsHonest | farkle.py:17-34 | a bot keeps only dice of the roll it was offered |
| Players.BotTurnAward | farkle.py:179-208 | a bot's turn on real dice awards zero or more points, and more than zero on a bank |
| Players.TakeOnlyOnesBanksFirstRoll | farkle.py:29-34 | the command-line bot's turn is the score of its first six dice, or a farkle |
| Players.HumanAccepts | farkle.py:42 | the prompt accepts an answer exactly when its dice are a sub-multiset of the roll and the answer is trimmed |
| Players.HumanAnswer | farkle.py:46 | an accepted empty answer banks; any other accepted answer is kept as typed |
| Players.FirstAccepted | farkle.py:40-45 | the prompt stops at the first accepted answer: every earlier answer was refused |
| Players.HumanMove | farkle.py:37-46 | the player decides exactly when some answer is accepted, and then with an accepted answer |
| Players.HumanKeepIsValid | farkle.py:42-47 | a nonempty answer that gets through the prompt on a roll of real dice passes the check of farkle.py:194, so the zero-score test at line 47 could never fire |
| Players.HumanIsHonest | farkle.py:42 | a player whose every keep passed the prompt keeps only offered dice |
| Protocol.NatToString | farkle.py:58 | `str` of a natural number is a canonical decimal numeral |
| Protocol.NatToStringRoundTrip | farkle.py:58 | reading back the decimal numeral of `n` gives `n` |
| Protocol.CanonicalRoundTrip | farkle.py:58 | every canonical numeral is the one written for its own value |
| Protocol.IntToString | farkle.py:89 | `str` of an integer is never empty; `Protocol.IntRoundTrip` reads it back |
| Protocol.ParseInt | farkle.py:72 | `int(token)` gives a value exactly when the token is an optional sign followed by digits |
| Protocol.IntRoundTrip | farkle.py:72 | `int(str(i))` is `i` for every integer |
| Protocol.Word | farkle.py:72 | the first word of a text is its longest leading run without spaces |
| Protocol.Split | farkle.py:72 | `split()` yields only nonempty words without spaces |
| Protocol.SplitJoin | farkle.py:72 | splitting words joined by single spaces gives the words back |
| Protocol.Frame | farkle.py:57-58 | the frame is longer than the message by at least the start byte, one length digit and the end byte |
| Protocol.FrameRoundTrip | farkle.py:57-58 | a receiver that reads the length field recovers exactly the message framed |
| Protocol.UnframeOnlyFrames | farkle.py:57-58 | only the frame of a message reads back as that message |
| Protocol.FrameIff | farkle.py:57-58 | a text reads back as `msg` if and only if it is the frame of `msg` |
| Protocol.RollText | farkle.py:88-89 | `str(roll)` is a bracketed list; `Protocol.RollTextRoundTrip` states its items |
| Protocol.ListItems | farkle.py:89 | the items of a nonempty list are written as a nonempty text; `Protocol.ReadItemsRoundTrip` reads them back |
| Protocol.ReadList | farkle.py:89 | a text read as a list of integers is bracketed |
| Protocol.ReadItemsRoundTrip | farkle.py:89 | the numbers `str` writes between the brackets, separated by a comma and a space, read back as the dice in order |
| Protocol.RollTextRoundTrip | farkle.py:88-89 | the text of a roll sent to the client reads back as exactly its dice, in order |
| Protocol.NextResponse | farkle.py:65-66 | the answer acted on is never `NOP`, and is a received string unless the connection gave nothing |
| Protocol.NopsSkipped | farkle.py:66 | any number of leading `NOP`s is skipped |
| Protocol.ParseInts | farkle.py:71-74 | the words parse exactly when each is an integer token, and then each value is that word's integer |
| Protocol.ReadAnswer | farkle.py:68-77 | an answer becomes a keep exactly when it is not the bank token, all its words are integers, and those dice are a sub-multiset of the roll |
| Protocol.RemoteMove | farkle.py:63-77 | the player sends the framed text of the roll, and any keep it returns holds only dice of the roll |
| Protocol.ReadKeep | farkle.py:68-77 | the space-separated numbers of dice taken from the roll read back as exactly those dice |
| Protocol.RemoteKeepRoundTrip | farkle.py:63-77 | a client that answers with some of the roll's dice, after any number of `NOP`s, gets exactly those dice kept |
| Protocol.KeepTextIsNotBank | farkle.py:68 | the answer for a keep is never taken for the bank token |
| Protocol.KeepTextIsNotNop | farkle.py:66 | the answer for a keep is never skipped as a `NOP` |
| Protocol.RemoteBank | farkle.py:66-69 | the bank token, after any number of `NOP`s, banks |
| Protocol.Remote | farkle.py:63-77 | the remote player answers the `i`-th roll of a turn with its `move` on the `i`-th answers received |
| Protocol.RemoteIsHonest | farkle.py:76-77 | the subset filter means the remote player keeps only offered dice |
| Game.InitialScores | farkle.py:143-146 | every named player starts at zero, and no one else has a total |
| Game.Award | farkle.py:210-211 | the player's total grows by the points awarded, and every other total and name stays as it was |
| Game.PlayerAt | farkle.py:162 | the player of each turn is one of the seated players |
| Game.PlayerAtCycles | farkle.py:162 | the first round seats the players in order, and every round after repeats it |
| Game.ScoresAfter | farkle.py:162-163 | after any number of turns, exactly the seated players have totals |
| Game.InsertSorted | farkle.py:173-174 | inserting a seat into a listing sorted by descending total keeps it sorted |
| Game.SortSeats | farkle.py:173-174 | the seats, sorted by descending total with ties in seat order, list every seat exactly once |
| Game.Rank | farkle.py:173-176 | the final listing holds every player once, by descending total, with ties in seat order as Python's stable sort leaves them |
| Game.SortedUnique | farkle.py:173-174 | two listings of the same seats sorted this way are equal, so the ranking is the one the stable sort produces |
| Game.EndgameCounter | farkle.py:166-167 | the end-game counter never exceeds the number of turns played |
| Game.EndgameCounterMeans | farkle.py:166-167 | the counter is zero until a turn first leaves its player above the goal, and from then on counts the turns since that one, that one included |
| Game.CounterReached | farkle.py:164-169 | the counter first reaches the number of players after a turn if and only if the first crossing of the goal lies that many turns back |
| Game.CrossingFixesCounter | farkle.py:164-167 | once a first crossing happened, the counter counts the turns from it on |
| Game.FirstCrossingUnique | farkle.py:166 | there is only one first crossing of the goal |
| Game.CounterBelowPlayers | farkle.py:169 | a counter that never reaches the number of players means no crossing came early enough |
| Game.Play | farkle.py:159-177 | with no players there is no result; otherwise the game stops right after the turn that makes the counter reach the number of players, with the totals after those turns and the stable ranking, or it is undecided when the turns run out |
| Game.ScoresNeverDecrease | farkle.py:210-211 | with no negative awards, no total ever goes down |
| Game.OthersUnchanged | farkle.py:210-211 | a turn changes only its own player's total |

## Left out

- **Dice.** `random.randint` is replaced by supplied throws. Each throw
  lists the six faces the generator would show, and a roll of `n` dice shows
  the first `n` of them. A turn that needs more throws than supplied ends
  `Unfinished`.
- **Messages and timing.** `gameMsg`, `gameLog`, printing and `time.sleep`
  only report, so they are not modelled. `quickRun` is not modelled either:
  the flag of the same name replaces the method in `__init__`.
- **The remote player's setup and the broadcast to remote players.**
  - `RemotePlayer.__init__` is not modelled, nor is the `"conn" in dir(p)`
    test.
  - Sending game messages to remote players does not change the game, so it
    is left out.
- **Sockets and byte decoding.**
  - The answers are the strings `recvMessage` returns, one after another. A
    closed connection gives the empty string.
  - `str(bytes)[2:-1]` turns a received newline byte into the two
    characters backslash and `n`. That text is not the bank token, but
    `int` rejects it, so it banks anyway. The model reads the bank token as
    the decoded newline.
  - The frame's length field counts characters, not UTF-8 bytes. The two
    differ only for non-ASCII text, and a roll's text is ASCII.
- **`int` and `split`.** `int` also accepts surrounding spaces, underscores
  between digits and non-ASCII digits. The model accepts only an optional
  sign and ASCII digits, which are the tokens the clients produce.
- **The human player's input.**
  - `input` is modelled as the sequence of answers typed.
  - A word that is not a number raises `ValueError` and ends the program;
    the model has no such answer.
- Players.HumanMove: its contract does not say that the answer it returns
  is the first accepted one; Players.FirstAccepted states that.
- **The game loop.**
  - `itertools.cycle` runs forever. The model takes the sequence of turn
    awards and reports `Undecided` when it runs out before the game ends.
  - `Game.Play` takes the awards as given, without running the turns.
    Turns.Turn produces one award per turn.
- **The command-line entry point** (`__main__`) is not modelled.
