# Astute tank-game client: decoder, world snapshots and game state

This project models the core of the Astute client for a 20x20 grid tank game:

- **Frame tokenizer** (`InputConvertors`). It strips the `#` terminator, splits on `:`, `;` and `,`
  (trimming and dropping blank pieces), and turns `SCREAMING_SNAKE` codes into identifiers.
- **Message decoder** (`MessageFactory.GetMessage`). It reads a frame as one of the long-form
  messages `S`, `I`, `G`, `L` and `C`, or as a short failure code. The result is either a message,
  `null`, or the exception the C# code would throw (`FormatException`, `OverflowException`,
  `IndexOutOfRangeException`, `InvalidOperationException`).
- **Immutable world snapshots** (`World`). A snapshot is six entity collections and a grid.
  Its private setters paint the collections onto the grid in initialiser order, so a later
  collection overwrites an earlier one. `FromMessage` folds one message into the next snapshot.
- **Mutable game state** (`State`). One grid and six lists, changed in place:
  - `Update` applies the player records, then the damage records, then the pickup clocks.
  - `ShowLifepack`, `ShowCoinpack` and `SetMyTank` each append an entity and write its cell.

Files:

- `wrappers.dfy`, `entities.dfy`, `messages.dfy`: the data model.
  - `Overlay` is the "last item on a cell wins" painter.
  - `Paint` is the loop that performs it on an `array2`.
- `parsing.dfy`: `int.Parse` and array indexing.
- `input_convertors.dfy`, `message_factory.dfy`: the decoder.
- Decoder properties:
  - `message_properties.dfy`: every encodable message decodes back to itself.
  - `short_codes.dfy`: short codes.
  - `decoder_failures.dfy`: error paths.
- `world.dfy`: the snapshot model.
  - Pure functions say what each transition builds.
  - The `World` class builds the grid through its setters.
- `world_properties.dfy`: what the snapshots guarantee.
- `state.dfy`: the `State` class. Each loop is proved against left-recursive specification functions.
- `state_properties.dfy`: what the player, damage and clock phases guarantee.

Where the written specification of the system and the code disagree, the model follows the code:

- **Damage records in a snapshot broadcast.** `FromBroadcastMessage` copies the old brick with its
  old health, one per damage record. It ignores the damage level, and it drops every brick that no
  record names.
- **Unknown codes and tags.** An unknown short code or long-form tag decodes to `null`, not to an
  error.
- **Pickups under tanks.** A coin pack or life pack that appears under a tank is not evicted. Only a
  broadcast drops pickups under tanks.

## Model

| member | source | states |
|---|---|---|
| InputConvertors.Trim | Astute/Communication/InputConvertors.cs:12 | the result starts and ends with non-whitespace |
| InputConvertors.TrimKeepsOut | Astute/Communication/InputConvertors.cs:12 | trimming never introduces a character |
| InputConvertors.TrimOfTrimmed | Astute/Communication/InputConvertors.cs:12 | an already trimmed string is unchanged |
| InputConvertors.TrimHash | Astute/Communication/InputConvertors.cs:10-13 | the result starts with non-whitespace and does not end with `#` |
| InputConvertors.TrimHashIdempotentIff | Astute/Communication/InputConvertors.cs:10-13 | `TrimHash` is idempotent exactly when no whitespace precedes the removed `#`s |
| InputConvertors.TrimHashNotIdempotentExample | Astute/Communication/InputConvertors.cs:10-13 | `"a #"` gives `"a "`, and a second call gives `"a"` |
| InputConvertors.TrimHashOfTerminated | Astute/Communication/InputConvertors.cs:10-13 | a trimmed body followed by one or more `#` gives the body back |
| InputConvertors.Split | Astute/Communication/InputConvertors.cs:16-31 | every piece is non-empty, trimmed and free of the delimiter |
| InputConvertors.SplitJoinWith | Astute/Communication/InputConvertors.cs:16-31 | splitting plain pieces joined by the delimiter returns those pieces |
| InputConvertors.SplitConcat | Astute/Communication/InputConvertors.cs:16-31 | splitting keeps wire order: the pieces left of a delimiter come first |
| InputConvertors.SplitSingle | Astute/Communication/InputConvertors.cs:16-31 | a non-blank string without the delimiter is one trimmed piece |
| InputConvertors.SegmentsJoinWith | Astute/Communication/InputConvertors.cs:18 | the raw `String.Split` pieces, joined back with the delimiter, give the string back |
| InputConvertors.SegmentsLengths | Astute/Communication/InputConvertors.cs:18 | the raw pieces hold every character except the delimiters |
| InputConvertors.ToLower | Astute/Communication/InputConvertors.cs:39 | lower-cases each ASCII letter in place and keeps the length |
| InputConvertors.CamelCaseShape | Astute/Communication/InputConvertors.cs:34-40 | the identifier has no `_` and is as long as the code without its underscores |
| InputConvertors.CamelCaseConcat | Astute/Communication/InputConvertors.cs:34-40 | the words on either side of an `_` are converted independently, left to right |
| InputConvertors.CamelCaseWord | Astute/Communication/InputConvertors.cs:39 | a single word keeps its first character and lower-cases the rest |
| InputConvertors.CamelCaseOfWords | Astute/Communication/InputConvertors.cs:34-40 | each `_`-separated word keeps its first character and lower-cases the rest |
| Parsing.At | Astute/Communication/Replies/MessageFactory.cs:31-38 | indexing past the end throws `IndexOutOfRangeException`; otherwise it gives the element |
| Parsing.ParseInt | Astute/Communication/Replies/MessageFactory.cs:31 | a success is a 32-bit value; a failure is `FormatException` or `OverflowException` |
| Parsing.ParseInts | Astute/Communication/Replies/MessageFactory.cs:33 | parses every piece, in order, or fails |
| Parsing.ParseIntToString | Astute/Communication/Replies/MessageFactory.cs:31 | printing then parsing gives back every 32-bit integer |
| Messages.CommandFailByName | Astute/Communication/Replies/MessageFactory.cs:124-125 | finds the reason whose identifier is the name, or none when no reason has it |
| Messages.JoinFailByName | Astute/Communication/Replies/MessageFactory.cs:126-127 | finds the reason whose identifier is the name, or none when no reason has it |
| MessageFactory.DecodeJoin | Astute/Communication/Replies/MessageFactory.cs:25-39 | a success is a join message with exactly one tank |
| MessageFactory.DecodeInitiation | Astute/Communication/Replies/MessageFactory.cs:41-60 | a success is an initiation message |
| MessageFactory.PlayerRecords | Astute/Communication/Replies/MessageFactory.cs:65 | the records are the fields strictly between the tag and the last field |
| MessageFactory.DecodePlayers | Astute/Communication/Replies/MessageFactory.cs:64-86 | one player record per field |
| MessageFactory.DecodeDamages | Astute/Communication/Replies/MessageFactory.cs:88-95 | one damage record per item |
| MessageFactory.DecodeBroadcast | Astute/Communication/Replies/MessageFactory.cs:62-97 | a success is a broadcast message |
| MessageFactory.DecodeLifepack | Astute/Communication/Replies/MessageFactory.cs:99-105 | a success is a life pack message |
| MessageFactory.DecodeCoinpack | Astute/Communication/Replies/MessageFactory.cs:106-113 | a success is a coin pack message |
| MessageFactory.DecodeLongForm | Astute/Communication/Replies/MessageFactory.cs:23-116 | a decoded message carries the tag of its frame; an unknown tag gives null |
| MessageFactory.DecodeShortCode | Astute/Communication/Replies/MessageFactory.cs:120-130 | a decoded short code is a join failure or a command failure |
| MessageFactory.GetMessage | Astute/Communication/Replies/MessageFactory.cs:14-131 | a frame with `:` gives a long-form message or null; a frame without `:` gives a failure message or null; an empty colon split throws `IndexOutOfRangeException` |
| MessageFactoryProperties.GetMessageOfEncode | Astute/Communication/Replies/MessageFactory.cs:14-116 | every message the server can write decodes back to itself |
| MessageFactoryProperties.InitiationExample | Astute/Communication/Replies/MessageFactory.cs:41-60 | `I:P1:0,0;1,1:2,2:3,3#` decodes to player 1, bricks (0,0) and (1,1), stone (2,2), water (3,3) |
| MessageFactoryProperties.JoinExample | Astute/Communication/Replies/MessageFactory.cs:25-39 | `S:P1;0,0;0#` decodes to the join of player 1 at (0,0) facing 0 |
| MessageFactoryProperties.FieldsDecode | Astute/Communication/Replies/MessageFactory.cs:23-113 | the colon fields of an encodable message decode back to it under its tag |
| MessageFactoryProperties.EncodeJoinDetailsParses | Astute/Communication/Replies/MessageFactory.cs:29-39 | the `S` field `P<n>;<x>,<y>;<d>` reads back as its one tank |
| MessageFactoryProperties.InitiationFieldsRead | Astute/Communication/Replies/MessageFactory.cs:43-55 | the `I` fields read back as the player number and the three point lists |
| MessageFactoryProperties.EncodePlayerDetailsParses | Astute/Communication/Replies/MessageFactory.cs:68-85 | a `G` player record reads back as its details, including the shot flag |
| MessageFactoryProperties.EncodeDamagesParses | Astute/Communication/Replies/MessageFactory.cs:88-95 | the `G` damage field reads back as its damage records |
| MessageFactoryProperties.LifepackFieldsRead | Astute/Communication/Replies/MessageFactory.cs:101-105 | the `L` fields read back as location and remaining time |
| MessageFactoryProperties.CoinpackFieldsRead | Astute/Communication/Replies/MessageFactory.cs:108-113 | the `C` fields read back as location, remaining time and coin value, in that order |
| ShortCodeProperties.GetMessageOfShortFrame | Astute/Communication/Replies/MessageFactory.cs:120-130 | the first piece names the reason, a command failure before a join failure; otherwise the result is null |
| ShortCodeProperties.ShortFrameSuffixIgnored | Astute/Communication/Replies/MessageFactory.cs:123 | `<code>;<n>#` decodes exactly as `<code>#` |
| ShortCodeProperties.CommandFailFrame | Astute/Communication/Replies/MessageFactory.cs:124-125 | the code of a command failure decodes to that failure |
| ShortCodeProperties.JoinFailFrame | Astute/Communication/Replies/MessageFactory.cs:126-127 | the code of a join failure decodes to that failure |
| ShortCodeProperties.ObstacleExample | Astute/Communication/Replies/MessageFactory.cs:121-125 | the frame `OBSTACLE;25#` decodes to the command failure `Obstacle` |
| ShortCodeProperties.JoinFailNameNotCommand | Astute/Communication/Replies/MessageFactory.cs:124-127 | no join-failure identifier is a command-failure identifier, so the lookup order hides nothing |
| DecoderFailures.JoinMissingDirection | Astute/Communication/Replies/MessageFactory.cs:35 | a join field without its direction part throws `IndexOutOfRangeException` |
| DecoderFailures.LifepackShortLocation | Astute/Communication/Replies/MessageFactory.cs:101-104 | a one-number location throws `IndexOutOfRangeException` |
| DecoderFailures.LifepackBadTime | Astute/Communication/Replies/MessageFactory.cs:105 | a malformed remaining time throws what `int.Parse` throws |
| DecoderFailures.CoinpackMissingValue | Astute/Communication/Replies/MessageFactory.cs:113 | a coin pack frame without its value field throws `IndexOutOfRangeException` |
| DecoderFailures.PlayersFailOn | Astute/Communication/Replies/MessageFactory.cs:64-86 | the first bad player record makes the whole broadcast fail with its exception |
| DecoderFailures.DamagesFailOn | Astute/Communication/Replies/MessageFactory.cs:88-95 | the first bad damage item makes the whole broadcast fail with its exception |
| DecoderFailures.BlankShortFrame | Astute/Communication/Replies/MessageFactory.cs:123 | a short frame with no non-blank piece throws `InvalidOperationException` from `First` |
| Entities.Paint | Astute/Engine/World.cs:44-45 | each cell ends as the last painted item on it, or as it was |
| Entities.OverlayCovers | Astute/Engine/World.cs:38-119 | a collection with an item on a cell hides whatever was painted before |
| WorldModel.InitiationWorld | Astute/Engine/World.cs:126-138 | the player number comes from the message; one brick, stone or water per point, in order; no tanks or pickups |
| WorldModel.JoinWorld | Astute/Engine/World.cs:147-162 | keeps the number and walls; each tank is unshot and controlled exactly when it is the player's own; no pickups |
| WorldModel.DamagedBricks | Astute/Engine/World.cs:172-180 | one brick per damage record, at that location, with the old brick's health |
| WorldModel.BroadcastTanks | Astute/Engine/World.cs:182-194 | one tank per player record, with the record's values and the control flag recomputed |
| WorldModel.DecayCoinpacks | Astute/Engine/World.cs:207-215 | no survivor has run out or stands under a tank |
| WorldModel.BroadcastWorld | Astute/Engine/World.cs:170-226 | keeps stones, water and number; the bricks are `DamagedBricks`; each tank carries every field of its record (location, health, direction, points, coins, number, shot flag), with the control flag recomputed; the pickups decay |
| WorldModel.CoinpackWorld | Astute/Engine/World.cs:234-246 | appends the coin pack; nothing else changes |
| WorldModel.LifepackWorld | Astute/Engine/World.cs:254-266 | appends the life pack; nothing else changes |
| WorldModel.NextWorld | Astute/Engine/World.cs:268-318 | failures and null keep the world; only an initiation changes the number, stones or water |
| WorldModel.NextWorldWellPlaced | Astute/Engine/World.cs:268-318 | a message whose points fit never makes a setter index outside the grid |
| WorldModel.World.constructor | Astute/Engine/World.cs:22-25 | an empty world with a fresh grid that projects its empty collections |
| WorldModel.World.SetBrickWalls | Astute/Engine/World.cs:38-47 | assigns the bricks; the grid stays the projection of the collections |
| WorldModel.World.SetStoneWalls | Astute/Engine/World.cs:52-61 | assigns the stones; the grid stays the projection |
| WorldModel.World.SetWaters | Astute/Engine/World.cs:66-75 | assigns the water; the grid stays the projection |
| WorldModel.World.SetTanks | Astute/Engine/World.cs:80-91 | assigns the tanks; the grid stays the projection |
| WorldModel.World.SetLifepacks | Astute/Engine/World.cs:96-105 | assigns the life packs; the grid stays the projection |
| WorldModel.World.SetCoinpacks | Astute/Engine/World.cs:110-119 | assigns the coin packs; the grid stays the projection |
| WorldModel.World.FromInitiationMessage | Astute/Engine/World.cs:126-138 | builds a fresh world whose contents are `InitiationWorld` and whose grid projects them |
| WorldModel.World.FromJoinMessage | Astute/Engine/World.cs:147-162 | builds a fresh world whose contents are `JoinWorld` |
| WorldModel.World.FromBroadcastMessage | Astute/Engine/World.cs:170-226 | builds a fresh world whose contents are `BroadcastWorld` |
| WorldModel.World.FromCoinpackMessage | Astute/Engine/World.cs:234-246 | builds a fresh world whose contents are `CoinpackWorld` |
| WorldModel.World.FromLifepackMessage | Astute/Engine/World.cs:254-266 | builds a fresh world whose contents are `LifepackWorld` |
| WorldModel.World.FromMessage | Astute/Engine/World.cs:268-318 | an initiation ignores the old world; failures and null return the old world itself; other messages build `NextWorld`, or throw `NullReferenceException` when the old world is null |
| WorldProperties.CellAtLaterWins | Astute/Engine/World.cs:38-119 | a cell shows an item of the last collection, in initialiser order, that has one there, and is null when none has |
| WorldProperties.InitiationCells | Astute/Engine/World.cs:126-138 | after an initiation a cell shows water, else stone, else brick, else null |
| WorldProperties.DecayCoinpacksMembers | Astute/Engine/World.cs:207-215 | a coin pack comes through, one tick older, exactly when it has more than one tick and no tank covers it |
| WorldProperties.DecayLifepacksMembers | Astute/Engine/World.cs:216-224 | the same for life packs |
| WorldProperties.LifepackLifecycle | Astute/Engine/World.cs:216-224 | an uncovered life pack with two ticks survives one broadcast and is gone after the next |
| WorldProperties.CoinpackLifecycle | Astute/Engine/World.cs:207-215 | the same for coin packs |
| WorldProperties.BroadcastTankCells | Astute/Engine/World.cs:196-224 | after a broadcast every tank's cell shows a tank |
| WorldProperties.BroadcastIgnoresDamageLevel | Astute/Engine/World.cs:172-180 | two broadcasts that differ only in damage levels give the same world |
| WorldProperties.BroadcastDropsUnreportedBricks | Astute/Engine/World.cs:172-198 | a brick that no damage record names is gone after a broadcast |
| WorldProperties.CoinpackShown | Astute/Engine/World.cs:234-246 | the new coin pack shows unless a life pack is on its cell, even over a tank; no other cell changes |
| WorldProperties.LifepackShown | Astute/Engine/World.cs:254-266 | the new life pack always shows on its cell; no other cell changes |
| WorldProperties.InitiationIgnoresOld | Astute/Engine/World.cs:272-276 | an initiation builds the same world whatever came before |
| WorldProperties.NextWorldKeepsControlFlags | Astute/Engine/World.cs:151-192 | every transition keeps "controlled exactly when it is the player's own" |
| StateModel.DamagedHealth | Astute/Engine/State.cs:84 | `4 - level` in 32-bit arithmetic; it is 0 exactly at level 4 |
| StateModel.FirstTank | Astute/Engine/State.cs:58-68 | the index of the first tank with the number, or none when no tank has it |
| StateModel.FirstBrick | Astute/Engine/State.cs:83 | the index of the first brick on the point |
| StateModel.AfterPlayers | Astute/Engine/State.cs:56-79 | every tank keeps its place, number and flags |
| StateModel.CoinpacksForEachAsWritten | Astute/Engine/State.cs:94-99 | as written, the loop throws `InvalidOperationException` exactly when some pack expires |
| StateModel.State.constructor | Astute/Engine/State.cs:10-42 | bricks of health 4, stones and water, in input order, each written into its cell; no tanks or pickups |
| StateModel.State.Update | Astute/Engine/State.cs:53-106 | the lists and every cell equal the player, damage and clock phases applied in that order |
| StateModel.State.ApplyPlayers | Astute/Engine/State.cs:56-79 | the tanks and cells after the player records equal `AfterPlayers` and `PlayersCell` |
| StateModel.State.ApplyRecord | Astute/Engine/State.cs:58-78 | the first tank of the player is moved: its old cell is nulled and its new cell shows it; a player without a tank gets a grid-only tank |
| StateModel.State.ApplyDamages | Astute/Engine/State.cs:81-90 | the bricks and cells after the damage records equal `AfterDamages` and `DamagesCell` |
| StateModel.State.ApplyDamage | Astute/Engine/State.cs:83-89 | the first brick on the point gets `4 - level`; at 0 it is removed and its cell nulled |
| StateModel.State.TickCoinpacks | Astute/Engine/State.cs:94-99 | expired coin packs are removed and their cells nulled; survivors take their new time |
| StateModel.State.TickLifepacks | Astute/Engine/State.cs:100-105 | the same for life packs |
| StateModel.State.ShowLifepack | Astute/Engine/State.cs:108-113 | appends a life pack of health 5 and shows it; no other cell changes |
| StateModel.State.ShowCoinpack | Astute/Engine/State.cs:115-120 | appends the coin pack and shows it; no other cell changes |
| StateModel.State.SetMyTank | Astute/Engine/State.cs:122-126 | appends the tank and shows it; no other cell changes |
| StateProperties.ConstructorCells | Astute/Engine/State.cs:14-36 | after the constructor a cell shows water, else stone, else a health-4 brick, else null |
| StateProperties.ConstructorAgreesWithWorld | Astute/Engine/State.cs:10-42 | the constructor's grid equals the grid of the snapshot built from the same initiation |
| StateProperties.LastRecordWins | Astute/Engine/State.cs:56-79 | the player's first tank ends with the values of that player's last record |
| StateProperties.UnreportedTankUnchanged | Astute/Engine/State.cs:56-79 | a tank whose player sends no record is unchanged |
| StateProperties.FreshTankOnGridOnly | Astute/Engine/State.cs:61-78 | a player without a tank gets one on the grid, with default flags, but the list is unchanged |
| StateProperties.PlayersCellUntouched | Astute/Engine/State.cs:56-79 | a cell that no record names and no tank stands on keeps its occupant |
| StateProperties.DamageOnBrick | Astute/Engine/State.cs:83-89 | level 4 removes the first brick on the point and nulls the cell; another level sets health `4 - level` |
| StateProperties.UnnamedBrickKept | Astute/Engine/State.cs:81-90 | a brick on a point no damage record names stays |
| StateProperties.DamagesCellUntouched | Astute/Engine/State.cs:81-90 | a cell no damage record names keeps its occupant |
| StateProperties.TickedCoinpacksMembers | Astute/Engine/State.cs:94-99 | a coin pack stays, with its new time, exactly when its tick reports no expiry |
| StateProperties.ExpiredCoinpackCleared | Astute/Engine/State.cs:96-97 | an expired coin pack's cell ends null |
| StateProperties.CoinpacksTickCellUntouched | Astute/Engine/State.cs:94-99 | a cell with no coin pack is untouched by the clocks |
| StateProperties.TickedLifepacksMembers | Astute/Engine/State.cs:100-105 | a life pack stays, with its new time, exactly when its tick reports no expiry |
| StateProperties.ExpiredLifepackCleared | Astute/Engine/State.cs:102-103 | an expired life pack's cell ends null |
| StateProperties.LifepacksTickCellUntouched | Astute/Engine/State.cs:100-105 | a cell with no life pack is untouched by the clocks |
| StateProperties.ForEachRemoveThrows | Astute/Engine/State.cs:94-99 | one expiring pack makes the loop as written throw, where the filter drops the pack |

## Left out

- **I/O and hosting.** The TCP listener and its frame stream (`Input.cs`), the timer and console
  wiring (`Program.cs`) and the random move policy (`Engine.cs`) are outside the core. Logging and
  `Debug.Fail`/`Debug.WriteLine` are side effects only.
- **Assertions.** `Debug.Assert`/`Trace.Assert` in `FromBroadcastMessage` is modelled as a
  precondition (`DamagesOnBricks`), not as behaviour.
- **Grid bounds.** Indexing `GridItems` outside 20x20 throws. The model requires every point to lie
  on the grid (`MessageFits`, `Valid`) instead of modelling that exception.
- **Text handling.** .NET text handling is reduced to ASCII: `ToLower` folds only `A`–`Z`.
  `Enum.GetNames`/`Enum.Parse` become fixed name tables. `(Direction)` casts keep the raw integer.
- **Constructor defaults.** The entity classes are not part of this model. The values their shorter
  constructors fill in (a brick's default health, a new tank's health, points, coins and flags, a
  life pack's health value) are a `ConstructorDefaults` parameter.
- **Identity.** Entities are values, not objects:
  - `HashSet` reference identity is replaced by sequences in insertion order, which is the order the
    setters paint in.
  - `Point` equality in `Contains` and `First` is value equality.
- **Aliasing in `State`.** In `State`, a list and the grid share one object. A mutation (`tank.Location`,
  `brick.Health`, `Tick()`) is modelled by rewriting the grid cell only if that cell still holds the old
  value.
- StateModel.State.Update: `Tick()` is a parameter that reports expiry and a new remaining time, so a
  tick never moves a pickup or changes its value. The clock behind it is not part of this model.
- StateModel.State.Update: a damage record with no brick under it makes `First` throw. The model
  requires `DamagesApplicable` instead of modelling that exception.
- StateModel.State.ApplyDamage: the cell is refreshed when it holds a brick EQUAL to the damaged one, not the same object. If the constructor gets one point twice, C# damages the first `BrickWall` object while the cell shows the second, undamaged one. The model shows the damaged health there. `CellAfterDamage` and `DamagesCell` share this. Giving each entity an identity would be needed to capture it.
- StateModel.State.TickCoinpacks: modelled as the filter the loop is evidently meant to be, not as
  the `ForEach` that throws (see Findings).
- StateModel.State.TickLifepacks: the same as `TickCoinpacks`.
- StateModel.State.Update: when a `ForEach` throws after its first removal, the broadcast stops with
  a half-applied state. The model does not capture that partial state.

## Findings

| source | as written | input that shows it | evidently intended | confidence | as-written member | corrected member |
|---|---|---|---|---|---|---|
| Astute/Engine/State.cs:94-105 | `Coinpacks.ForEach` (and `Lifepacks.ForEach`) calls `Remove` on the list it enumerates; `List<T>.ForEach` then throws `InvalidOperationException` | a coin pack list `[c]` whose `Tick()` reports expiry | expired pickups are dropped and their cells cleared, survivors keep ticking | medium (depends on the .NET runtime's `ForEach` version check), not executed | StateModel.CoinpacksForEachAsWritten | StateModel.State.TickCoinpacks |
