# TCP player client: a Dafny model

This project models the game logic of a TCP game-arena player client. The
client receives frames from a game server and keeps a bot's picture of the
arena up to date. Once per loop iteration the bot decides an action, and
the client sends the matching frame.

The project has eight modules.

- `Wire` (wire.dfy) holds the protocol constants, the `GET_BYTE_3`..`GET_BYTE_0`
  macros, and the host/network order conversions.
  - Bytes, 16-bit fields and 32-bit fields are integers restricted to
    their ranges, not bit-vectors.
  - On such values, masking out a byte and shifting it down is a division
    and a remainder, and OR-ing bytes into disjoint positions is an
    addition. That is how the macros and the field assembly are written.
  - The host byte order is a parameter (`HostOrder`). The decoder
    assembles each field top byte first and only then applies
    `ntohl`/`ntohs`; the encoders apply `htonl` and then write the top byte
    first. So bytes travel in host order: least-significant first on a
    little-endian host, network order only on a big-endian one.
- `Codec` (codec.dfy) covers the frame formats.
  - `Decode` is what `processServerMessage` reads out of the 1024-byte
    receive buffer after a `recv` of `bytes` bytes.
  - It has the three client frames the send functions build, plus a server
    encoder (`EncodeServer`) used as the decoder's inverse.
- `Chunks` (chunks.dfy) holds facts about sequences laid end to end. The
  frame proofs use them.
- `Arena` (arena.dfy) models the `Bot` base class.
  - It is a Dafny class whose slot array is an `array<Player>`, with the
    killer and the last action time as fields.
  - Its update methods are proved against value-level functions on
    `BotState`.
- `DumbBot` and `PunisherBot` (dumb_bot.dfy, punisher_bot.dfy) hold the two
  `performAction` methods.
  - Each is proved against a `Decide` function, with lemmas about what a
    decision does.
- `BotFactory` (bot_factory.dfy) holds `createBot`.
- `Session` (session.dfy) says, on values, what one `processServerMessage` call does.
  - The `Effect` datatype covers: fail, nothing, a new bot, or the bot in
    a new state.
  - It also gives the frame the run loop sends for each action.
- `PlayerClient` (player_client.dfy) is the client object: its receive
  and send buffers as arrays, plus the bot pointer.
  - `ProcessServerMessage` walks the receive buffer with the code's
    `index += 16` / `index += 4` loops. It is proved to have exactly the
    effect `Session.Process` describes.
  - `Act` runs the bot's `performAction` and builds the frame of the
    chosen action in the send buffer.

The model takes everything outside the program as parameters:
- The socket calls: a `recv` is its outcome (`failed`, `data`) and a send
  is the frame left in the send buffer.
- The clock: `now`, in clock ticks, `CLOCKS_PER_SEC` = 1,000,000.
- The values of `rand()`: `rDir`, `rx`, `ry`, `rz`.
- The reinterpretation of float bits, in both directions (`floatOf`,
  `bitsOf`).

Positions are reals.

The code never checks player ids against the slot array, nor record
counts against the buffer. It indexes out of bounds when they are wrong.
The model refuses such a frame: return code -1, and nothing changes. The
`PastBuffer` error and the id checks in `Session.Handle` are these
refusals; the code itself has no such checks.

## Model

| member | source | states |
|---|---|---|
| `Wire.MessageCodesPartition` | PlayerClient.h:45-51 | the seven message codes are distinct; 1..3 are client codes and 4..7 server codes, and no code is both |
| `Wire.ByteSplitRecombines` | PlayerClient.h:58-61 | joining GET_BYTE_3..GET_BYTE_0 of a word, top byte first, gives the word back |
| `Wire.JoinSplits` | PlayerClient.h:58-61 | the macros applied to a joined word give back the four bytes joined |
| `Wire.NtohlUndoesHtonl` | PlayerClient.cpp:283-289 | ntohl inverts htonl on either host order |
| `Wire.NtohsInvolutive` | PlayerClient.cpp:361-365 | ntohs applied twice is the identity |
| `Wire.WordBytes` | PlayerClient.cpp:606-613 | the encoder's layout of a 32-bit field is four bytes |
| `Wire.HalfBytes` | PlayerClient.cpp:361-365 | a reference layout of a 16-bit field as a server writes it (the client never writes one): two bytes; that the decoder's read inverts it is `Wire.ReadHalfOfHalfBytes` |
| `Wire.ReadWordOfWordBytes` | PlayerClient.cpp:283-289 | reading four bytes written by the encoder's layout for x yields x, on either host |
| `Wire.ReadHalfOfHalfBytes` | PlayerClient.cpp:361-365 | the 16-bit read of a field laid out for x yields x |
| `Wire.WireOrderIsHostOrder` | PlayerClient.cpp:606-613 | a little-endian host sends the least-significant byte first; only a big-endian host sends network order |
| `Wire.LengthEighteenOnLittleEndian` | PlayerClient.cpp:588-613 | the 18-byte length goes out as 18, 0, 0, 0 on a little-endian host |
| `Wire.ToInt32` | PlayerClient.cpp:379 | the int32_t cast gives a value in the signed range that is non-negative exactly below 2^31 and congruent to the word modulo 2^32 |
| `Wire.ToInt16` | PlayerClient.cpp:365 | the int16_t cast gives a value in the signed range that is non-negative exactly below 2^15 and congruent modulo 2^16 |
| `Wire.GetByte3` | PlayerClient.h:58 | GET_BYTE_3: the most significant byte of a word, a value in 0..255 |
| `Wire.GetByte2` | PlayerClient.h:59 | GET_BYTE_2: the second byte of a word, a value in 0..255 |
| `Wire.GetByte1` | PlayerClient.h:60 | GET_BYTE_1: the third byte of a word, a value in 0..255 |
| `Wire.GetByte0` | PlayerClient.h:61 | GET_BYTE_0: the least significant byte of a word, a value in 0..255 |
| `Wire.Join32` | PlayerClient.cpp:284-287 | the shift-and-OR assembly of four buffer bytes, top byte first, as a sum of disjoint byte positions |
| `Wire.Join16` | PlayerClient.cpp:362-363 | the shift-and-OR assembly of two buffer bytes, top byte first |
| `Wire.Ntohl` | PlayerClient.cpp:289 | ntohl: a byte swap on a little-endian host, the identity on a big-endian one |
| `Wire.Htonl` | PlayerClient.cpp:589 | htonl: the same byte permutation as ntohl |
| `Wire.Ntohs` | PlayerClient.cpp:365 | ntohs: a swap of the two bytes on a little-endian host, the identity on a big-endian one |
| `Wire.ReadWord` | PlayerClient.cpp:283-289 | the decoder's read of a 32-bit field: assemble the four bytes top first, then ntohl |
| `Wire.ReadHalf` | PlayerClient.cpp:361-365 | the decoder's read of a 16-bit field: assemble the two bytes top first, then ntohs |
| `Arena.ActionCodesDistinct` | Bot.h:13-16 | the action codes 12..15 are distinct |
| `Arena.CoolDownDone` | Bot.cpp:44-51 | true exactly when no action was taken yet or at least ACTION_COOLDOWN seconds of ticks have passed |
| `Arena.CoolDownAfterAction` | Bot.cpp:44-51 | after an action at t the cooldown runs for a full second of ticks and is done from then on |
| `Arena.Abs` | Bot.cpp:36-38 | abs is non-negative and equals its argument or its negation |
| `Arena.DistanceSquared` | Bot.cpp:34-41 | the squared distance is non-negative |
| `Arena.DistanceSymmetric` | Bot.cpp:34-41 | getDistance is symmetric |
| `Arena.DistanceToSelfIsZero` | Bot.cpp:34-41 | the distance of a position to itself is 0 |
| `Arena.SpawnUpdateEffect` | Bot.cpp:54-61 | a spawn update makes that slot created and alive at the position, keeps its score, and leaves every other slot and field alone |
| `Arena.LocationUpdateEffect` | Bot.cpp:73-79 | a location update makes that slot alive at the position, keeps isCreated and the score, and leaves everything else alone |
| `Arena.KilledUpdateEffect` | Bot.cpp:64-70 | a killed update marks any slot dead and restarts the action clock, whoever was killed |
| `Arena.ScoreIncrementedEffect` | Bot.cpp:88-91 | incrementScore adds only to the bot's own score |
| `Arena.KillerSetEffect` | Bot.cpp:82-85 | setKiller changes only killerID |
| `Arena.SpawnUpdate` | Bot.cpp:54-61 | playerSpawnUpdate on values: the slot becomes created and alive at the position |
| `Arena.LocationUpdate` | Bot.cpp:73-79 | playerLocationUpdat on values: the slot becomes alive at the position |
| `Arena.KilledUpdate` | Bot.cpp:64-70 | playerKilledUpdate on values: the slot dies and the action clock is set to now, for any id |
| `Arena.KillerSet` | Bot.cpp:82-85 | setKiller on values: the remembered killer becomes the id |
| `Arena.ScoreIncremented` | Bot.cpp:88-91 | incrementScore on values: the bot's own score is raised by n |
| `Arena.Bot.constructor` | Bot.cpp:3-25 | every slot is neither created nor alive except the bot's own, which is created with score 0; no action taken, no killer |
| `Arena.Bot.PlayerSpawnUpdate` | Bot.cpp:54-61 | the array afterwards is the spawn update of the array before |
| `Arena.Bot.PlayerKilledUpdate` | Bot.cpp:64-70 | the state afterwards is the killed update at time now |
| `Arena.Bot.PlayerLocationUpdate` | Bot.cpp:73-79 | the state afterwards is the location update |
| `Arena.Bot.SetKiller` | Bot.cpp:82-85 | the state afterwards has the new killer |
| `Arena.Bot.IncrementScore` | Bot.cpp:88-91 | the state afterwards has the bot's score raised by n |
| `DumbBot.SpawnCoordinate` | DumbBot.cpp:24-26 | (rand() % 10) / 10 is one of the ten grid values 0.0..0.9 |
| `DumbBot.SpawnPositionInCube` | DumbBot.cpp:24-26 | every spawn position lies in [0,1]^3 |
| `DumbBot.MoveChangesOneAxis` | DumbBot.cpp:64-144 | a move changes only the coordinate on its axis, raising it by BOT_STEP up to 1 or lowering it by BOT_STEP down to 0 |
| `DumbBot.MoveStaysInCube` | DumbBot.cpp:64-144 | a move from inside [0,1]^3 stays inside |
| `DumbBot.MoveAlong` | DumbBot.cpp:64-144 | the six-way move switch: one BOT_STEP along +x, -x, +y, -y, +z or -z, stopping at 1 or 0 |
| `DumbBot.IsTarget` | DumbBot.cpp:40 | the explosion test of one slot: alive, not the bot, within EXPLOSION_RADIUS (compared squared) |
| `DumbBot.HasTarget` | DumbBot.cpp:37-50 | the scan finds a target when some slot passes the explosion test |
| `DumbBot.Spawned` | DumbBot.cpp:19-34 | the spawn branch: the bot's slot at the grid position, alive, clock set to now |
| `DumbBot.Exploded` | DumbBot.cpp:46-48 | the explode branch: the bot's slot dead, clock set to now |
| `DumbBot.SelfMoved` | DumbBot.cpp:64-144 | the move branch on the bot's own slot |
| `DumbBot.Decide` | DumbBot.cpp:10-150 | one performAction call of the dumb bot: standby, spawn, explode or move, in that order of tests, with the resulting state |
| `DumbBot.DecideStandby` | DumbBot.cpp:13-16 | STANDBY exactly when the bot's slot is not created or the cooldown runs, and then nothing changes |
| `DumbBot.DecideSpawn` | DumbBot.cpp:19-34 | a ready dead bot spawns alive at a grid position inside [0,1]^3 |
| `DumbBot.DecideExplode` | DumbBot.cpp:37-50 | a ready live bot explodes exactly when some other live slot is within EXPLOSION_RADIUS, and is then dead where it was; otherwise it moves |
| `DumbBot.DecideMove` | DumbBot.cpp:60-149 | a MOVE moves the bot along the random direction, keeps it alive, and keeps it inside [0,1]^3 if it was |
| `DumbBot.DecideFrame` | DumbBot.cpp:10-150 | only the bot's own slot and the clock change; killer, created flag and score stay; the clock is now after every action but STANDBY |
| `DumbBot.MoveSelf` | DumbBot.cpp:64-144 | the six-way switch moves the bot's own slot as MoveAlong says |
| `DumbBot.SpawnSelf` | DumbBot.cpp:22-33 | the spawn branch puts the bot alive at the grid position and restarts the clock |
| `DumbBot.PerformAction` | DumbBot.cpp:10-150 | the action returned and the bot's new state are Decide of the old state |
| `PunisherBot.ChaseDirection` | PunisherBot.cpp:91-112 | the chase direction is one of the six moves |
| `PunisherBot.ChaseDirectionMeaning` | PunisherBot.cpp:91-112 | the chosen axis has the largest gap, every earlier axis a strictly smaller one, and the step is positive exactly when the bot is below the target |
| `PunisherBot.ChaseClosesGap` | PunisherBot.cpp:115-195 | inside [0,1]^3, with a gap of at least BOT_STEP, one chase step shrinks the chosen gap by exactly BOT_STEP |
| `PunisherBot.ChaseExample` | PunisherBot.cpp:91-112 | from (0.2, 0.5, 0.9) toward the origin the bot steps -z to 0.8 |
| `PunisherBot.ScannedKiller` | PunisherBot.cpp:37-43 | the remembered killer after the scan: forgotten when its slot is dead |
| `PunisherBot.Decide` | PunisherBot.cpp:10-201 | one performAction call of the punisher: the dumb bot's tests, the killer forgotten on an explosion or when dead, and a chase step toward a remembered killer |
| `PunisherBot.SameActionAsDumb` | PunisherBot.cpp:10-60 | the punisher takes the dumb bot's action in every state, with identical standby and spawn states, an explosion that also forgets the killer, and the random move when no live killer is left |
| `PunisherBot.KillerAfterDecide` | PunisherBot.cpp:37-58 | after a decision the killer is forgotten or was remembered and alive; an explosion always forgets it |
| `PunisherBot.MoveChasesKiller` | PunisherBot.cpp:70-113 | with a live killer remembered, a move steps along the chase direction and keeps the killer |
| `PunisherBot.MoveStaysInside` | PunisherBot.cpp:115-195 | a chasing or random move keeps a bot in [0,1]^3 inside it |
| `PunisherBot.DecideFrame` | PunisherBot.cpp:10-201 | only the bot's own slot, the killer and the clock change |
| `PunisherBot.PerformAction` | PunisherBot.cpp:10-201 | the action and new state are the punisher's Decide of the old state, including the lazy clearing of a dead killer during the scan |
| `BotFactory.StrategyFor` | BotFactory.cpp:3-25 | PUNISHER_BOT and only it selects the punisher; DUMB_BOT and every other value the dumb bot |
| `BotFactory.CreateBot` | BotFactory.cpp:3-25 | a fresh bot of the selected strategy in the constructor state for numPlayers slots and the id |
| `Codec.FrameLength` | PlayerClient.cpp:283-289 | the declared frame length, the 32-bit field at offset 0 |
| `Codec.ReadRecord` | PlayerClient.cpp:373-411 | one 16-byte MapUpdate record: the signed id, then the raw bits of x, y and z |
| `Codec.LengthAccepted` | PlayerClient.cpp:315-501 | the length rule of each server code: exactly 10, at least 8, exactly 22, at least 12; no other code is accepted |
| `Codec.Decode` | PlayerClient.cpp:268-583 | the reading of the receive buffer: the length, version and code checks in order, each code's length rule, then the message with its fields and records, or the error |
| `Codec.ReadRecords` | PlayerClient.cpp:367-421 | the loop reads exactly n records |
| `Codec.ReadVictims` | PlayerClient.cpp:535-565 | the loop reads exactly n victim ids |
| `Codec.ReadRecordsAt` | PlayerClient.cpp:367-420 | record i is read at offset 8 + 16 * i |
| `Codec.ReadVictimsAt` | PlayerClient.cpp:535-564 | victim i is read at offset 12 + 4 * i |
| `Codec.ReadRecordsAll` | PlayerClient.cpp:367-420 | every record i is read at offset 8 + 16 * i |
| `Codec.ReadVictimsAll` | PlayerClient.cpp:535-564 | every victim i is read at offset 12 + 4 * i |
| `Codec.DecodeRejects` | PlayerClient.cpp:292-308 | a declared length beyond the bytes received, a wrong version, and a code outside 4..7 are each refused with their own error |
| `Codec.DecodeAccepts` | PlayerClient.cpp:292-580 | a frame is accepted exactly when it is all there, has version 1, a server code whose length rule holds and counts that fit the buffer; the message kind follows the code |
| `Codec.DecodeJoinResponse` | PlayerClient.cpp:315-343 | an accepted JoinResponse is exactly 10 bytes and carries the signed id read at offset 6 |
| `Codec.DecodeSpawnWithId` | PlayerClient.cpp:428-479 | an accepted SpawnWithId is exactly 22 bytes with the id at 6 and x, y, z at 10, 14, 18 |
| `Codec.DecodeMapUpdate` | PlayerClient.cpp:349-421 | an accepted MapUpdate has at least 8 bytes and as many records as a positive count says, record i read at 8 + 16 * i |
| `Codec.DecodeAnnihilationResults` | PlayerClient.cpp:494-565 | an accepted AnnihilationResults has at least 12 bytes, the killer at 6, the signed kill count at 10, and as many victims as a positive count says, victim i at 12 + 4 * i |
| `Codec.TrailingBytesIgnored` | PlayerClient.cpp:270-313 | a fixed-size message decodes the same whatever lies after its 22 leading bytes: bytes after the first frame are never parsed |
| `Codec.DeclaredLengthNotChecked` | PlayerClient.cpp:349-421 | a MapUpdate declaring 8 bytes and a count of 1 still yields the record at offset 8, beyond the declared frame |
| `Codec.JoinResponseReadsTenBytes` | PlayerClient.cpp:315-343 | a JoinResponse decodes the same for any two buffers agreeing on their first 10 bytes |
| `Codec.Header` | PlayerClient.cpp:610-615 | the 6-byte header every client frame starts with: length, version, code |
| `Codec.SpawnFrame` | PlayerClient.cpp:610-627 | the spawn frame is 18 bytes |
| `Codec.MoveFrame` | PlayerClient.cpp:684-701 | the move frame is 18 bytes |
| `Codec.SelfAnnihilateFrame` | PlayerClient.cpp:739-744 | the self-annihilate frame is 6 bytes |
| `Codec.MoveAndSpawnFramesReadBack` | PlayerClient.cpp:586-627 | the decoder's own reads of a move or spawn frame give length 18, version 1, the code, and x, y, z at 6, 10, 14 |
| `Codec.SelfAnnihilateFrameReadsBack` | PlayerClient.cpp:734-744 | the decoder's reads of a self-annihilate frame give length 6, version 1 and code 2 |
| `Codec.ReadRecordOfBytes` | PlayerClient.cpp:373-411 | a record laid out by the server encoder reads back as that record |
| `Codec.ReadRecordsOfBytes` | PlayerClient.cpp:367-421 | encoded records read back one by one |
| `Codec.ReadVictimsOfBytes` | PlayerClient.cpp:538-565 | encoded victim ids read back one by one |
| `Codec.SpawnBodyRead` | PlayerClient.cpp:441-479 | an encoded spawn body reads back as its id and coordinates |
| `Codec.DecodeOfEncoded` | PlayerClient.cpp:268-583 | every consistent server frame at the start of the buffer decodes to the message it carries, whatever follows it |
| `Codec.DecodeOfJoinFrame` | PlayerClient.cpp:315-343 | round trip for JoinResponse |
| `Codec.DecodeOfSpawnIdFrame` | PlayerClient.cpp:428-479 | round trip for SpawnWithId |
| `Codec.DecodeOfMapFrame` | PlayerClient.cpp:349-421 | round trip for MapUpdate |
| `Codec.DecodeOfAnnihilationFrame` | PlayerClient.cpp:494-565 | round trip for AnnihilationResults |
| `Session.ReturnCode` | PlayerClient.cpp:310 | the return code is -1 exactly for a failure and 0 otherwise |
| `Session.PositionOf` | PlayerClient.cpp:394-411 | the memcpy of the three raw words into floats |
| `Session.Handle` | PlayerClient.cpp:315-573 | what each decoded message does: a JoinResponse with an id below PLAYER_LIMIT makes the bot of the configured type; the other messages are ignored while there is no bot and otherwise apply the location, spawn or annihilation updates, failing on any id outside the slots |
| `Session.DecodeEffect` | PlayerClient.cpp:282-580 | a refused frame fails; an accepted one is handled |
| `Session.Process` | PlayerClient.cpp:268-583 | one processServerMessage call: a recv error fails, a closed connection does nothing, otherwise the delivered bytes are decoded over the stale buffer and handled |
| `Session.ApplyLocations` | PlayerClient.cpp:370-421 | the record loop keeps the slot array's size, the bot's id, the killer and the clock |
| `Session.ApplyVictims` | PlayerClient.cpp:538-565 | the victim loop keeps the slot array's size and the bot's id |
| `Session.VictimUpdate` | PlayerClient.cpp:546-559 | one victim keeps the slot array's size and the bot's id |
| `Session.ApplyLocationsStep` | PlayerClient.cpp:370-421 | one more record applies one more location update |
| `Session.ApplyVictimsStep` | PlayerClient.cpp:538-565 | one more victim applies one more victim update |
| `Session.Annihilation` | PlayerClient.cpp:505-565 | the killer's death, its score and the victims keep the slot array's size and the bot's id |
| `Session.Received` | PlayerClient.cpp:270 | recv overwrites the front of the buffer with the delivered bytes and leaves the rest as it was |
| `Session.RefusedFrameFails` | PlayerClient.cpp:272-302 | a recv error, a short frame, and any refused frame fail |
| `Session.NoBotYet` | PlayerClient.cpp:414-559 | before a JoinResponse every other message succeeds and changes nothing; a JoinResponse creates a bot of the selected type exactly when the id names a slot |
| `Session.JoinReplacesBot` | PlayerClient.cpp:342 | a JoinResponse replaces any existing bot |
| `Session.LastRecordFor` | PlayerClient.cpp:370-421 | the index found is the last record for the slot, or -1 when no record names it |
| `Session.MapUpdateLastWins` | PlayerClient.cpp:370-421 | records apply in order: a slot with a record ends alive at its last record's position, a slot without one is untouched, created flags never change |
| `Session.EmptyMapUpdateChangesNothing` | PlayerClient.cpp:370 | a count of zero or less applies no update |
| `Session.VictimsEffect` | PlayerClient.cpp:538-565 | the victim loop kills exactly the listed slots, remembers the killer exactly when the bot is a victim, and restarts the clock if there was any victim |
| `Session.AnnihilationEffect` | PlayerClient.cpp:505-565 | killer and victims dead, other slots keep their liveness, positions and created flags unchanged, only the bot's score changes and only when it is the killer, killer remembered only when the bot is a victim, clock restarted |
| `Session.NoVictims` | PlayerClient.cpp:538 | with a kill count of zero or less only the killer dies and scores |
| `Session.SpawnOfSelf` | PlayerClient.cpp:482-485 | a SpawnWithId for the bot's own slot brings it back to life at the announced position |
| `Session.OutOfRangeIdFails` | PlayerClient.cpp:414-559 | an id outside the slot array refuses the whole frame |
| `Session.Decision` | PlayerClient.cpp:215-218 | performAction of the subclass the factory built |
| `Session.Outgoing` | PlayerClient.cpp:220-240 | the action switch of the run loop: MOVE a move frame, EXPLODE a self-annihilate frame, SPAWN a spawn frame, STANDBY nothing |
| `Session.OutgoingOnlyWhenActing` | PlayerClient.cpp:220-240 | STANDBY sends nothing, every other action a frame |
| `Session.OutgoingHeader` | PlayerClient.cpp:220-240 | MOVE, SPAWN and EXPLODE send frames that declare their own length (18, 18, 6), version 1 and the codes 1, 3, 2 |
| `Session.OutgoingPosition` | PlayerClient.cpp:220-240 | a move or spawn frame carries the bits of the position it was built from |
| `PlayerClient.PlayerClient.constructor` | PlayerClient.cpp:53 | a client with two distinct receive and send buffers of BUFFER_SIZE bytes, both all zero as the memset of the server record leaves them, and no bot yet |
| `PlayerClient.PlayerClient.ReadWordAt` | PlayerClient.cpp:283-289 | the 32-bit read of the receive buffer is ReadWord |
| `PlayerClient.PlayerClient.ReadHalfAt` | PlayerClient.cpp:361-365 | the 16-bit read of the receive buffer is ReadHalf |
| `PlayerClient.PlayerClient.ReadRecordAt` | PlayerClient.cpp:373-411 | the record read is ReadRecord |
| `PlayerClient.PlayerClient.Deliver` | PlayerClient.cpp:270 | the receive buffer afterwards is Received of the old one |
| `PlayerClient.PlayerClient.ProcessServerMessage` | PlayerClient.cpp:268-583 | return code and bot afterwards are those of Session.Process: a fresh bot in the constructor state, the updated bot, or nothing changed |
| `PlayerClient.PlayerClient.HandleFrame` | PlayerClient.cpp:282-580 | header checks, then the message code's handler, with the effect DecodeEffect describes |
| `PlayerClient.PlayerClient.HandleJoinResponse` | PlayerClient.cpp:315-345 | the JoinResponse case has the DecodeEffect effect |
| `PlayerClient.PlayerClient.HandleMapUpdate` | PlayerClient.cpp:346-424 | the MapUpdate case has the DecodeEffect effect |
| `PlayerClient.PlayerClient.HandleSpawnWithId` | PlayerClient.cpp:425-490 | the SpawnWithId case has the DecodeEffect effect |
| `PlayerClient.PlayerClient.HandleAnnihilationResults` | PlayerClient.cpp:491-573 | the AnnihilationResults case has the DecodeEffect effect |
| `PlayerClient.PlayerClient.ApplyMapUpdate` | PlayerClient.cpp:367-421 | the record loop succeeds exactly when every id names a slot, and then leaves the bot in ApplyLocations of its old state |
| `PlayerClient.PlayerClient.ApplyAnnihilation` | PlayerClient.cpp:505-565 | succeeds exactly when killer and victims name slots, and then leaves the bot in Annihilation of its old state |
| `PlayerClient.PlayerClient.ApplyVictimsAt` | PlayerClient.cpp:535-565 | the victim loop leaves the bot in ApplyVictims of its old state |
| `PlayerClient.PlayerClient.KillVictim` | PlayerClient.cpp:546-559 | one pass of the victim loop is VictimUpdate |
| `PlayerClient.PlayerClient.RecordIdsInRange` | PlayerClient.cpp:370-379 | true exactly when every record id names a slot |
| `PlayerClient.PlayerClient.VictimIdsInRange` | PlayerClient.cpp:538-546 | true exactly when every victim id names a slot |
| `PlayerClient.PlayerClient.PutWord` | PlayerClient.cpp:610-613 | writes the four bytes of the word's layout and nothing else |
| `PlayerClient.PlayerClient.PutHeader` | PlayerClient.cpp:610-615 | writes the 6-byte header and nothing after it |
| `PlayerClient.PlayerClient.WriteCoordinateFrame` | PlayerClient.cpp:610-627 | writes the header and the x, y, z words, leaving the rest of the buffer |
| `PlayerClient.PlayerClient.SendPlayerSpawnMessage` | PlayerClient.cpp:586-627 | the 18 bytes at the front of the send buffer are the spawn frame of the bot's own position |
| `PlayerClient.PlayerClient.SendPlayerMoveMessage` | PlayerClient.cpp:660-701 | the 18 bytes at the front of the send buffer are the move frame of the bot's own position |
| `PlayerClient.PlayerClient.SendPlayerSelfAnnihilateMessage` | PlayerClient.cpp:734-744 | the 6 bytes at the front of the send buffer are the self-annihilate frame |
| `PlayerClient.PlayerClient.Act` | PlayerClient.cpp:211-240 | with no bot the action is STANDBY and nothing is sent; otherwise the bot decides through its subclass and the send buffer holds the frame for that action and the position after it; the receive buffer is left untouched |

## Left out

- Sockets: address lookup, socket creation, non-blocking mode, connect and its retries, the `select` loop, and `send`/`recv` with the send retry loops. These are operating-system I/O. A `recv` is passed in as its outcome, and a send as the frame left in the send buffer.
- The send functions' return codes (0 when `send` delivered the frame, -1 otherwise) depend on `send` alone and are not modelled.
- All `fprintf` logging, the target report in the bots, and main.cpp's argument parsing.
- IEEE-754 floats. Positions are reals, with no rounding. `sqrt` is replaced by comparing the squared distance with EXPLOSION_RADIUS squared. The memcpy between a float and its bits is the parameter `floatOf` (receiving) or `bitsOf` (sending), each uninterpreted.
- `lastActionTime` is a float in the code and holds `clock()` ticks. It is an integer here, so precision loss at large tick counts is not modelled.
- `srand`, `rand`, `time` and `clock` are parameters. A single `now` serves every `clock()` call of one frame, whereas the code calls `clock()` anew for each killed player and may see later times. Likewise one `now` serves a whole `performAction` call, so the cooldown test (`coolDownDone` reads the clock at Bot.cpp:48) and the `lastActionTime` stored after the action (DumbBot.cpp:31, 47 and 147; PunisherBot.cpp:31, 53 and 198) see the same time, where the code reads the clock twice and the stored time may be a later tick than the one the cooldown compared.
- No frame reassembly: as in the code, only the first frame of each receive buffer is parsed, and later bytes are ignored.
- The loop does not end when `recv` returns 0. That is run-loop control flow and is outside the model; the model returns 0 and changes nothing, as the code does.
- Session.Handle: out-of-range ids are refused up front, as a model rejection. The code has no check. It would apply the leading records of a map update or the killer's death before indexing out of bounds. A JoinResponse id outside 0..PLAYER_LIMIT-1 is refused the same way; the code would construct the bot with it.
- Codec.Decode: a record count or kill count whose records would lie beyond the 1024-byte buffer is refused (`PastBuffer`). The code reads past the buffer then, even without a bot. Records beyond the declared length but inside the buffer are read, as the code reads them.
- The class's `bot` pointer starts as null. The code's constructor never initialises it.
- A second JoinResponse replaces the bot without freeing the old one. The leak has no counterpart in the model.
- The score is an unbounded integer, so `int` overflow of `incrementScore` is not modelled.
- The getters `getX`, `getY`, `getZ`, `getScore`, `getID`, `isAlive` and `isCreated` are read as the fields they return.
- When there is no bot, the model skips the MapUpdate record loop, which the code runs without effect. The difference cannot be observed.
