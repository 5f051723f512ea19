# Zombie infection on a toroidal grid — a verified model

This project models the engine of a zombie-infection simulation. The world is an N×N grid
whose edges wrap around, like a torus. One zombie starts at a given cell, and creatures
sit on other cells. All zombies share one movement sequence of the letters U, D, L and R.

Zombies take their turns from a FIFO queue, and each walks the whole sequence before the
next one starts. A step lands on the wrapped neighbour cell. If an infectable creature is
indexed at that cell, the creature dies and a new zombie appears there, joining the back
of the queue. Every step announces a `ZombieMoved` event. Every infection also announces a
`CreatureInfected` event, right after the move that caused it. The result lists every
zombie in creation order and the living creatures in placement order. It is printed as
two lines of text.

The modules follow the source files:

| module | models |
|---|---|
| `Wrappers` | `Option` and `Result` |
| `Topology` | `src/world.py`: positions, directions, `Direction.parse`, wrapping and moving, enumerating the grid |
| `Entities` | `src/entities.py`: creatures, zombies and the `EntityTracker` with its position index |
| `Engine` | `src/simulation.py`: the event kinds, the `Simulation` class and `format_output` |
| `EngineProperties` | what a run guarantees: turn order, one move event per direction, infections paired with their moves, the queue, and the roster flags |
| `Survival` | creatures that no step can reach: they are never infected, and they survive |
| `Scenarios` | the regression scenarios of `tests/test_simulation.py`, stated and proved as lemmas about the model |
| `OutputFormat` | the shape of the text `format_output` writes |
| `Parsing` | `src/parser.py`: `parse_moves`, the integer conversion of a textual grid size, and `parse_config` |

Each stateful entity has two forms:

- a value view: `CreatureRec`, `ZombieRec`, `TrackerState` and `State`, whose operations
  are specification functions;
- a class: `Creature`, `Zombie`, `EntityTracker` and `Simulation`. Its methods update
  fields in place, as the Python objects do. Each method ensures that its new value view is
  the specification function applied to the old one.

The properties are lemmas about the value view. They reach the classes through these
method contracts.

Run termination uses the measure "queued zombies plus indexed creatures". A turn removes
one zombie from the queue. Each infection adds one zombie to the queue and removes one
creature from the index. So every turn lowers the measure by exactly one.

## Model

| member | source | states |
|---|---|---|
| Topology.ToUpper | src/world.py:38 | lower-case ASCII letters become upper case, and every other character is unchanged |
| Topology.PositionText | src/world.py:16-17 | `str(Position)` is "(x,y)": it starts with '(' and ends with ')', and it contains no space and no newline |
| Topology.DirectionOf | src/world.py:27-32 | a character names a direction exactly when it is one of U, D, L, R, and that direction's letter is the character |
| Topology.Delta | src/world.py:27-32 | each direction's delta is a unit step: U is (0,-1), D is (0,1), L is (-1,0) and R is (1,0) |
| Topology.ParseDirections | src/world.py:34-45 | succeeds exactly when every character is a direction letter (either case) or whitespace; it then yields exactly the letters, in order; otherwise it fails with the upper-cased form of the first illegal character of the input |
| Topology.DirectionsInAppend | src/world.py:37-45 | the parsed directions keep input order: parsing a concatenation concatenates the results |
| Topology.NewWorld | src/world.py:61-64 | building a world fails, with the size error, exactly when the size is below 1 |
| Topology.Wrap | src/world.py:70-75 | the wrapped position is inside the grid and differs from the input by a multiple of the size in each coordinate (floor modulo, so -1 goes to size-1) |
| Topology.WrapValid | src/world.py:70-75 | wrapping leaves a position that is already inside the grid where it is |
| Topology.Move | src/world.py:77-81 | a move from any position, even one outside the grid, lands inside the grid |
| Topology.MoveFromValid | src/world.py:77-81 | from a cell inside the grid, a move changes exactly one coordinate by one step, and crossing an edge lands on the opposite edge |
| Topology.AllPositions | src/world.py:87-91 | yields size*size cells, with y in the outer loop and x in the inner loop; they are distinct and inside the grid, and every cell of the grid occurs |
| Topology.RowMajorGrid | src/world.py:87-91 | any row-major enumeration of size*size entries is valid, free of repeats and covers the grid |
| Entities.NewCreature | src/entities.py:26-28 | a new creature is alive, at the given position |
| Entities.InfectAtMostOnce | src/entities.py:54-63 | after a successful infection the creature is dead, and any later infection fails and changes nothing |
| Entities.ImmuneUnchanged | src/entities.py:59-60 | infecting a creature that cannot be infected fails and leaves it exactly as it was |
| Entities.InfectOnlyKills | src/entities.py:54-63 | infection succeeds exactly on a living, infectable creature, and its only effect is to kill it |
| Entities.LivingMembers | src/entities.py:140-142 | the living creatures are exactly the members of the list that are alive |
| Entities.LivingAppend | src/entities.py:140-142 | the filter keeps placement order: filtering a concatenation concatenates the filtered parts |
| Entities.LivingAllOrNone | src/entities.py:140-142 | when every creature is alive all are kept, and when none is alive none is kept |
| Entities.LivingIdempotent | src/entities.py:140-142 | filtering the living creatures twice gives the same list as filtering once |
| Entities.TrackerState.AddCreature | src/entities.py:109-112 | appends the creature and indexes it under its position, replacing any earlier entry there; every other key is unchanged and the index invariant is kept |
| Entities.TrackerState.CreatureAt | src/entities.py:114-119 | finds a creature exactly when the position is indexed, and then it is a living creature placed at that position |
| Entities.TrackerState.RemoveCreatureAt | src/entities.py:121-127 | returns a creature exactly when one is indexed at the position and is infectable; then that creature is dead and its key dropped, and otherwise nothing changes |
| Entities.TrackerState.CreateZombieAt | src/entities.py:129-134 | the new zombie's id is the roster length before the call and it is appended last, so ids stay 0..n-1 in list order |
| Entities.EmptyTracker | src/entities.py:100-103 | a new tracker is empty and satisfies the index invariant |
| Entities.AddCreatureShadows | src/entities.py:109-112 | when two creatures share a position, the index names the later one, and the earlier one stays in the list |
| Entities.Creature.constructor | src/entities.py:26-28 | a new creature is alive, at the given position |
| Entities.Creature.Infect | src/entities.py:54-63 | the outcome and the new state are those of the value-level infection |
| Entities.Zombie.constructor | src/entities.py:77-84 | a new zombie has the given id and position and has not moved |
| Entities.Zombie.MoveTo | src/entities.py:86-88 | only the position changes; the id and the moved flag are untouched |
| Entities.AliveOnes | src/entities.py:142 | keeps exactly the living creatures, in order, and agrees with the value-level filter |
| Entities.EntityTracker.constructor | src/entities.py:100-103 | the tracker starts with no zombies, no creatures and an empty index |
| Entities.EntityTracker.AddZombie | src/entities.py:105-107 | appends the zombie to the roster; the creatures and the index are unchanged |
| Entities.EntityTracker.AddCreature | src/entities.py:109-112 | appends the creature and maps its position to it, replacing any earlier creature there; the invariant "every indexed creature is alive" is kept |
| Entities.EntityTracker.GetCreatureAt | src/entities.py:114-119 | returns a creature exactly when the position is indexed; that creature is alive and placed there |
| Entities.EntityTracker.RemoveCreatureAt | src/entities.py:121-127 | the new state and the returned creature are those of the value-level removal: the key is dropped only when the infection succeeds |
| Entities.EntityTracker.InfectIndexed | src/entities.py:124 | the indexed creature's infection succeeds exactly as the value level says; on failure nothing changes |
| Entities.EntityTracker.Unindex | src/entities.py:125 | dropping the key of the creature just infected restores the invariant; only the index changes |
| Entities.EntityTracker.CreateZombieAt | src/entities.py:129-134 | a fresh zombie with id equal to the old roster length is appended last, as at the value level |
| Entities.EntityTracker.LivingCreatures | src/entities.py:140-142 | exactly the living creatures, in placement order |
| Engine.SimulationResult.FormatOutput | src/simulation.py:118-136 | the text is the zombies line, a newline, then the creatures line (see OutputFormat for its shape) |
| Engine.FormatLine | src/simulation.py:123-127 | a line is the heading, then ": ", then the "(x,y)" texts joined by single spaces, or "none" for an empty list |
| Engine.NewCreatures | src/simulation.py:66-68 | one living, infectable creature per given position, in order |
| Engine.PlaceCreatures | src/simulation.py:67-68 | placing the creatures appends them all, keeps the roster and the index invariant, and adds at most one key per creature |
| Engine.State.MoveZombie | src/simulation.py:78-81 | moving and announcing a zombie keeps the invariant, the roster size and the measure |
| Engine.State.Spawn | src/simulation.py:85-92 | an infection adds exactly one zombie, keeps the invariant and the index, and queues the new zombie |
| Engine.State.Land | src/simulation.py:84-92 | landing trades index entries for zombies one for one, and keeps the measure |
| Engine.State.Step | src/simulation.py:77-92 | one step keeps the invariant and the measure; the zombies gained equal the index entries lost |
| Engine.State.ProcessMoves | src/simulation.py:77-92 | a pass over the moves keeps the invariant and the measure; the zombies gained equal the index entries lost |
| Engine.State.ProcessZombie | src/simulation.py:75-94 | a zombie's whole turn keeps the invariant and the measure |
| Engine.State.Turn | src/simulation.py:102-104 | one iteration of `run` lowers the termination measure by exactly one |
| Engine.State.Run | src/simulation.py:96-109 | `run` terminates with an empty queue; the zombies gained equal the index entries lost |
| Engine.Initial | src/simulation.py:56-68 | the configured state satisfies the invariant, and its measure is at most one plus the number of creatures |
| Engine.Simulation.constructor | src/simulation.py:48-68 | construction gives exactly the initial state: zombie 0 at the start cell, not wrapped, is queued, and the creatures are placed in order |
| Engine.Simulation.AddFirstZombie | src/simulation.py:63-64 | the first zombie is created with id 0 at the start position and queued |
| Engine.Simulation.AddCreatures | src/simulation.py:67-68 | the loop places one new creature per position, in order |
| Engine.Simulation.PlaceCreature | src/simulation.py:68 | one iteration adds a new basic creature at the position to the tracker |
| Engine.Simulation.Emit | src/simulation.py:70-73 | each event is appended to the handler's log, in emission order |
| Engine.Simulation.Enqueue | src/simulation.py:87 | the zombie joins the back of the queue |
| Engine.Simulation.MoveZombie | src/simulation.py:78-81 | the zombie moves to the wrapped neighbour cell, and the move is announced |
| Engine.Simulation.Spawn | src/simulation.py:85-92 | a new zombie is created at the cell, queued last, and announced after the move |
| Engine.Simulation.Land | src/simulation.py:84-92 | the creature indexed at the landing cell is infected if it can be, and a zombie replaces it |
| Engine.Simulation.Step | src/simulation.py:77-92 | one iteration of the loop in `_process_zombie` is the value-level step |
| Engine.Simulation.ProcessZombie | src/simulation.py:75-94 | the zombie walks the whole sequence and is then marked as moved, as at the value level |
| Engine.Simulation.MarkMoved | src/simulation.py:94 | only the zombie's moved flag changes |
| Engine.Simulation.Run | src/simulation.py:96-109 | the loop ends in the value-level final state, and the result is every zombie together with the living creatures |
| Engine.Simulation.TakeTurn | src/simulation.py:102-104 | one loop iteration is the value-level turn |
| Engine.Simulation.Outcome | src/simulation.py:106-109 | the result is the snapshot of the current state |
| Engine.Simulation.Dequeue | src/simulation.py:103 | `popleft` returns the front zombie and removes it from the queue |
| Engine.RunSimulation | src/simulation.py:56-64 | succeeds exactly when every movement character is legal; otherwise it fails with the first illegal character, before any zombie, creature or queue exists; on success the result is that of the specified run |
| EngineProperties.ViewsAppend | src/simulation.py:70-73 | the move, spawn and infection views of a concatenated event log are the concatenated views |
| EngineProperties.StepEffect | src/simulation.py:77-92 | a step emits the move event; exactly when the indexed creature is infectable, it also creates zombie n at the landing cell, queues it last and emits the infection event right after the move |
| EngineProperties.StepQueue | src/simulation.py:84-92 | a step queues and announces exactly the zombies it created, in id order |
| EngineProperties.StepMoved | src/simulation.py:77-92 | a step emits one move event of its zombie, and keeps every infection right after its move |
| EngineProperties.StepKeepsRoster | src/simulation.py:77-92 | a step changes no other zombie's record, and not its own zombie's moved flag |
| EngineProperties.StepNewUnmoved | src/simulation.py:86 | a zombie created by a step has not moved yet |
| EngineProperties.ProcessMovesQueue | src/simulation.py:77-92 | a pass queues and announces the zombies it created, in id order |
| EngineProperties.ProcessMovesMoved | src/simulation.py:77-92 | a pass emits exactly one move event of its zombie per direction, with each infection right after its move |
| EngineProperties.ProcessMovesKeepsRoster | src/simulation.py:77-92 | during a pass, only its own zombie's record changes |
| EngineProperties.ProcessMovesNewUnmoved | src/simulation.py:77-92 | the zombies created during a pass have not moved yet |
| EngineProperties.ProcessMovesAppend | src/simulation.py:77-92 | a pass over a + b is the pass over a, then the pass over b from the state it ended in |
| EngineProperties.InitialOrdered | src/simulation.py:63-68 | the initial state satisfies the ordering invariant: zero turns done, and the queue holds zombie 0 |
| EngineProperties.TurnPass | src/simulation.py:102-104 | a turn is the front zombie's pass over the moves, after which it is marked as moved |
| EngineProperties.TurnQueue | src/simulation.py:102-104 | a turn dequeues the front zombie, then queues the zombies it created, in id order |
| EngineProperties.TurnMoved | src/simulation.py:102-104 | a turn emits exactly one move event of the front zombie per direction |
| EngineProperties.TurnRoster | src/simulation.py:102-104 | a turn marks the front zombie as moved, leaves every other flag alone, and adds only unmoved zombies |
| EngineProperties.FlagsAfterTurn | src/simulation.py:94 | after the turn of zombie k, exactly zombies 0..k have moved |
| EngineProperties.TurnOrdered | src/simulation.py:102-104 | a turn preserves the ordering invariant, going from k to k+1 whole turns |
| EngineProperties.RunOrdered | src/simulation.py:102-104 | the whole loop preserves the ordering invariant |
| EngineProperties.RunFinal | src/simulation.py:96-109 | a finished, ordered run has given every zombie its whole turn in id order, and has created zombies 1..n-1 in order |
| EngineProperties.RunInTurnOrder | src/simulation.py:96-109 | after a run with n zombies, n is at most 1 + the number of creatures, and the moves are m by zombie 0, then m by zombie 1, and so on; infections created zombies 1..n-1 in order, each right after its move, and every zombie has moved |
| EngineProperties.TurnsNeverInterleave | src/simulation.py:102-104 | in whole turns of m moves, the owner of move i is i/m, so owners never go down |
| EngineProperties.MovesNeverInterleave | tests/test_simulation.py:60-89 | every move of zombie k comes before any move of a zombie with a larger id, even one that k created, and there are m moves per zombie |
| Survival.StepOutOfReach | src/simulation.py:84-92 | a step keeps an unreachable creature unreachable and unchanged |
| Survival.ProcessMovesOutOfReach | src/simulation.py:77-92 | so does a whole pass |
| Survival.RunOutOfReach | src/simulation.py:102-104 | so does a whole run |
| Survival.PlaceCreaturesLatest | src/entities.py:109-112 | after placement, each index key names the last creature placed at that position |
| Survival.InitialCreatures | src/simulation.py:63-68 | the initial tracker holds one new creature per position, indexed so that the latest creature wins |
| Survival.OutOfReachSurvives | src/simulation.py:106-109 | a creature that no step can reach at the start is unchanged at the end and is reported as a survivor |
| Survival.OutsideCreatureSurvives | src/simulation.py:63-68 | a creature placed outside the grid is never infected and survives, because every step lands inside the grid |
| Survival.ShadowedCreatureSurvives | src/entities.py:109-112 | a creature whose position a later creature shares loses its index entry; it is never infected and survives |
| Scenarios.StepIsOutcome | src/simulation.py:77-92 | the engine's step equals its closed form: move, then infect and spawn if the indexed creature is infectable |
| Scenarios.TurnWithNothingIndexed | src/simulation.py:75-94 | with nothing indexed, a turn only walks the zombie, announces each move and marks the zombie |
| Scenarios.RunWithoutMoves | src/simulation.py:96-109 | with no moves, a run from one queued zombie only marks that zombie as moved |
| Scenarios.InitialRoster | src/simulation.py:63-68 | a run starts with zombie 0, unmoved, at the start cell, the new creatures, zombie 0 queued, and no events |
| Scenarios.NoMovesEnd | tests/test_simulation.py:152-164 | with no moves, no event is emitted, and zombie 0 stays at its start cell and is marked as moved |
| Scenarios.NewCreaturesLiving | src/simulation.py:67-68 | every creature that `__init__` places is alive |
| Scenarios.NoMoves | tests/test_simulation.py:152-184 | with no moves, the result is zombie 0 at its start cell and every creature alive, including one at the start cell |
| Scenarios.ExampleInitial | tests/test_simulation.py:95-112 | the canonical configuration (size 4, zombie (3,1), creatures (0,1) (1,2) (1,1), moves RDRU) builds the stated start state |
| Scenarios.ExampleRun | tests/test_simulation.py:95-123 | the canonical run ends in the stated end state |
| Scenarios.ExampleOutcome | tests/test_simulation.py:95-123 | in the canonical end state the zombies stand at (1,1), (2,1), (3,2), (3,1) with ids 0..3, all have moved, and no creature survives |
| Scenarios.ExampleEvents | tests/test_simulation.py:125-146 | the canonical run emits 19 events: four moves per zombie in id order, and infections at (0,1), (1,2), (1,1) that create zombies 1, 2, 3 |
| Scenarios.WorkedExample | tests/test_simulation.py:95-146 | the canonical scenario, from configuration to `SimulationResult`: all four zombies, and no survivors |
| Scenarios.LoneZombie | src/simulation.py:96-109 | with no creatures, the result is zombie 0 alone, marked as moved, at the cell its walk over the moves ends on |
| Scenarios.WalkInOneCell | src/world.py:77-81 | on a 1×1 grid every walk from (0,0) ends at (0,0) |
| Scenarios.MinimalWorld | tests/test_simulation.py:186-198 | on a 1×1 grid, whatever the moves, the single zombie ends at (0,0) |
| Scenarios.CrowdInitial | tests/test_simulation.py:200-210 | size 4, zombie (0,0), creatures (1,0) (2,0), moves RR builds the stated start state |
| Scenarios.CrowdTurn0 | tests/test_simulation.py:213-214 | zombie 0's turn infects the creatures at (1,0) and (2,0), creating zombies 1 and 2 there, so zombies 0 and 2 then share the cell (2,0) |
| Scenarios.CrowdRun | tests/test_simulation.py:200-216 | that run ends in the stated end state: zombie 0 infects both creatures, then zombies 1 and 2 walk RR |
| Scenarios.CrowdOutcome | tests/test_simulation.py:212-219 | in that end state the zombies stand at (2,0), (3,0) and (0,0), and no creature survives |
| Scenarios.CrowdScenario | tests/test_simulation.py:200-219 | from configuration to `SimulationResult`: the run ends in the stated end state, the three zombies stand at (2,0), (3,0) and (0,0), and no creature survives |
| OutputFormat.SplitJoin | src/simulation.py:124 | splitting a join at its one-character separator gives the parts back, when no part contains the separator |
| OutputFormat.PositionsJoined | src/simulation.py:124 | the joined positions form a non-empty text starting with '(' and without a newline, and splitting it at spaces gives the "(x,y)" texts back |
| OutputFormat.LineNone | src/simulation.py:123-127 | a line reads "heading: none" exactly when its list is empty |
| OutputFormat.LineFields | src/simulation.py:123-125 | a non-empty line is the heading, ": ", then the position texts separated by single spaces |
| OutputFormat.TextLines | src/simulation.py:118-136 | the output is exactly two lines: the zombies line, then the creatures line |
| OutputFormat.TextEmpty | tests/test_simulation.py:225-232 | a result with no zombies and no creatures reads "zombies' positions: none", a newline, then "creatures' positions: none" |
| Parsing.MoveLetters | src/parser.py:51 | the direction letters in one character's upper-case form: the letter itself for u, d, l, r in either case, "L" for the ligatures ﬂ and ﬄ, and nothing for any other character |
| Parsing.ParseMoves | src/parser.py:48-51 | the normalised string is no longer than the input, and contains only U, D, L and R |
| Parsing.ParseMovesAppend | src/parser.py:51 | the filter keeps order: normalising a concatenation concatenates the results |
| Parsing.ParseMovesIgnoresCase | tests/test_parser.py:38-42 | strings equal up to letter case give the same moves |
| Parsing.ParseMovesKeepsLetters | src/parser.py:51 | a string of direction letters is its own normal form |
| Parsing.ParseMovesIdempotent | src/parser.py:51 | normalising twice is normalising once |
| Parsing.ParseMovesDropsOthers | tests/test_parser.py:44-46 | characters whose upper-case form holds no direction letter, such as spaces and dashes, are dropped |
| Parsing.ParseMovesAgreesWithDirections | src/parser.py:51 | on text without the ligatures ﬂ and ﬄ, `parse_moves` picks out the same directions as `Direction.parse`, in order |
| Parsing.NormalisedMovesLegal | src/parser.py:51 | a normalised string is always accepted by `Direction.parse` and yields exactly its own letters; for input without the two ligatures these are the directions of the raw input |
| Parsing.LettersInjective | src/world.py:27-32 | directions are recovered from their letters |
| Parsing.DashSeparated | tests/test_parser.py:44-46 | four direction letters separated by dashes normalise to the four letters |
| Parsing.DashesDropped | tests/test_parser.py:44-46 | "R-D-R-U" normalises to "RDRU", though `Direction.parse` would reject the dash |
| Parsing.LigaturesGiveL | src/parser.py:51 | ﬂ and ﬄ each normalise to "L", since Python upper-cases them to "FL" and "FFL", while `Direction.parse` rejects them |
| Parsing.Strip | src/parser.py:68 | the result is a slice of the input such that everything cut before and after it is whitespace, and neither end of the slice is whitespace; it is empty exactly when the input is all whitespace |
| Parsing.StripPadded | src/parser.py:68 | text with non-whitespace ends, padded with whitespace on both sides, strips back to exactly that text |
| Parsing.SignedValue | src/parser.py:62 | a stripped text denotes a number exactly when it is a non-empty run of digits, or '+' or '-' followed by one |
| Parsing.ParseInt | src/parser.py:62 | `int` succeeds exactly when the text, once the whitespace it skips is cut from both ends, is an optional sign then digits; a failure names the text |
| Parsing.ParseIntRejects | src/parser.py:62 | any character that is not a digit, a sign or whitespace `int` skips makes `int` fail |
| Parsing.ParseIntBlank | src/parser.py:62 | empty or whitespace-only text is not a number |
| Parsing.SignedDigits | src/parser.py:62 | an optional sign followed by digits denotes the signed value of the digits |
| Parsing.ParseIntPadded | src/parser.py:62 | an optional sign and digits, with whitespace `int` skips on either side, read as the signed value of the digits |
| Parsing.DigitsValueNatText | src/parser.py:62 | reading the digits of a natural number gives the number back |
| Parsing.ParseIntTextPadded | src/parser.py:62 | `int(w1 + str(i) + w2) == i` for every integer i and all whitespace `w1`, `w2` that `int` skips |
| Parsing.ParseIntText | src/parser.py:62 | `int(str(i)) == i` for every integer i |
| Parsing.SizeValue | src/parser.py:62 | a numeric size is used as it is |
| Parsing.ParseConfig | src/parser.py:53-76 | on success the size is at least 1 and equals the converted input; the start is the parsed position, the moves are normalised, and blank creature text gives no creatures |
| Parsing.ConfigSizeCheck | src/parser.py:62-65 | the configuration fails with the size error exactly when the converted size is below 1 |
| Parsing.ConfigAccepts | src/parser.py:53-76 | the configuration succeeds exactly when the size converts and is at least 1, and the start position parses |
| Parsing.ConfigSizeText | tests/test_parser.py:75-83 | a size given as the text of a number configures the same run as the number itself |
| Parsing.ConfigBlankCreatures | tests/test_parser.py:65-73 | creature text that is empty or only whitespace gives an empty creature list |

## Left out

- The event handler is a ghost log (`Simulation.log`). Events name zombies by id rather than by object. Whether a handler is installed, and what it does, is not modelled.
- The `print` side effects of `create_default_logger` are not modelled. Neither are `main.py` (terminal input, rendering, the interactive loop, `GameState.move_zombie`) and `run_tests.py`.
- The `Creature` subclasses are reduced to an `infectable` flag that stands for `can_be_infected()`. `on_infected` and `on_zombie_nearby` do nothing in the source and are not modelled.
- `InputParser.parse_position` and `parse_positions` are regular-expression searches. Their outcomes are parameters of `Parsing.ParseConfig` (an `Option<Position>` and a list of positions).
- Engine.SimulationResult holds value snapshots of the zombies and creatures, not the live objects. In the source these share state with the tracker, but the run has ended when the result is made, so the two agree.
- Entities.EntityTracker.AddCreature requires the creature to be alive and not yet tracked. The source checks neither, but its only caller passes a new creature.
- Topology.ToUpper upper-cases ASCII letters only. Python's `str.upper` also maps non-ASCII characters, some of them to several characters. Of those, only ﬂ (U+FB02) and ﬄ (U+FB04) hold a direction letter, an L; `Parsing.MoveLetters` gives them that L, so `parse_moves` agrees with Python. Whether `Direction.parse` succeeds, and the directions it yields, do not depend on the rest of the mapping. The character named in its error for non-ASCII input may differ from Python's: for ﬂ Python names 'F', the model names ﬂ itself.
- Parsing.ParseMovesAgreesWithDirections is stated only for text without ﬂ and ﬄ. On those two, `parse_moves` finds an L while `Direction.parse` rejects the character.
- Parsing.ParseInt accepts an optional sign and ASCII decimal digits, with surrounding whitespace of the kind `int` skips (`Parsing.IsIntSpace`: `str.isspace` without the ASCII separators U+001C to U+001F, which `int` rejects). Python's underscores between digits and its non-ASCII digits are not modelled.
- Parsing.SizeInput does not model Python's `bool` being an `int`, so a size of `True` is not modelled.
- The chain-infection scenario of `tests/test_simulation.py` (lines 60-89) is stated as the general ordering lemma `EngineProperties.MovesNeverInterleave`, not written out on its concrete input.
- Dataclass immutability, hashing and `__repr__` are not modelled: Dafny datatypes have value equality.
