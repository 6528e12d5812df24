# DMX node firmware: verified model

This project models the parts of a DMX lighting node that decide something: how a frame of DMX data
becomes motion of stepper motors, how driver calls travel over a daisy-chained SPI bus, how the
configuration reaches flash memory, and a number of small algorithms around them. Where the program
changes state step by step, the model is a class or a method with a loop, proved against a function;
what the program promises is then proved of those functions, over all inputs, all runs and all
interleavings. `dafny verify dfyconfig.toml` checks everything.

## The modules

- **Stepper motion.** `StepperMotor` is an L6470 as the positioning modes see it: a shaft, a 22-bit
  counter that wraps, at most one motion in progress, and a sequence of ticks chosen by the environment,
  so a statement about all tick sequences is one about every progress the motor can make. `PositionAxis`
  is one motor in mode 3, 4 or 5 as a value, with runs of frames, new start addresses and elapsing time.
  `CallOrder` says in which order the driver calls of a frame are made. `SparkFunDmx` holds the classes:
  device handle, mode object, window cache and the board with its three-phase dispatch, whose devices
  share a log of the calls.
- **SPI framing.** `L6470Board` is a board as a machine that consumes bytes, with register lengths and
  command codes of sections 9.1 and 9.2 of the ST datasheet DocID16737 Rev 7. `L6470Long` is the driver's
  32-bit long as four bytes and `L6470Number` those bytes as numbers, `L6470Kept` what a register of so
  many bits keeps of a number, `AutoDriver` the driver calls on a chain of boards, `L6470Config` the register fields, `L6470Settings` any sequence of their setters,
  `L6470Speed` the conversions between speeds and register values. `StepperBus` joins the two halves:
  the motor that the modes command and the board that receives the bytes.
- **Configuration store.** `ConfigLayout` places the stores in the image, `ConfigCache` has one function
  for each operation on the RAM image and the flash behind it, `ConfigStore` the class.
  `ConfigDurability`, `ConfigTiming`, `ConfigIsolation` and `ConfigContents` hold what is proved of all
  interleavings, of when the flash is touched, of what one call leaves alone, and of every byte that it
  writes and reads. Flash has NOR behaviour: erase sets
  bytes to all ones, write clears bits, and a pending call may have reached any set of bytes.
- **Serial output.** `FileNames`, `FileIndex`, `DirectoryScan`, `ChannelData` and `SerialOutput`: the
  channel files, the sort of their numbers, their lines, and the filter that sends a string when a
  channel changes. `SerialSetup` joins the scan and the filter.
- **Light sets.** `AddressHull`, `LightSets` and `LightSetChain`: the slots a light set, its motors and a
  chain of light sets occupy, which start addresses each kind of light set takes, and what it says about
  its slots. `SparkFunDmx.SparkFunDmx.SetDmxStartAddress` is proved to move the board as the chain sees it.
  `SlotInfo`: their textual form. `HtpMerge`: the merge of two sources.
- **Devices.** `Ema`: the moving average. `Glyph` and `Max7219Matrix`: the LED matrix.
- **Shared.** `Dmx`: frames and slots. `Bytes`: bytes and their bits. `Words`: numbers of 16 bits. `Text`:
  characters and digits.

## Assumptions

- Initialisation has finished with every motor at rest at position 0. A soft stop halts between the
  current position and the target, a GoTo_DIR to the current position does not move, and a status read
  takes time in which a stopping motor makes progress. The scale of a mode is a non-negative real number
  and the product is floored; the travel is below 2^21 steps. A frame is its slots and the byte in front
  of them, which start address 0 reads. Motors share nothing but the log, so the time in which a motor
  is not addressed is accounted for at its next access.
- `long` has 32 bits, and a conversion from a number to an integer is used only where C++ defines it.
  Boards have distinct positions below the number of boards, which is the length of the chain. A register
  accepts a write whenever it arrives: the restrictions to a stopped motor or high impedance, and the
  clearing of status flags by a read, are not modelled.
- The flash chip is detected and the device reports no error. For `ConfigStore.ConfigStore.Close` the
  clock advances between two flush calls by at least 1 and at most 2^32 - 100 ms, and the device leaves
  only so many calls in a row unfinished; `ConfigTiming.RunIsQuiet` assumes only that true time does not
  go back.
- Channels of the serial output are distinct and at least 2, as its assertion demands
  (`SerialSetup.ScannedIsValidIff`); names in a directory are distinct. `isdigit` returns 1 for a digit.
  Characters are unsigned, and the built-in font has more than 32 glyphs.
- Pointers have 32 bits: with no channel file the index 4294967295 then reads the word in front of the table.
- Slot information is read for at most 32 slots, the width of its mask. The members of a chain that is asked
  about its slots have fewer than 2^15 slots each. Assertions are switched off where a light set refuses a
  start address.

## What the code does that its comments do not say

- A window that ends on the last slot of a frame is ignored (`PositionAxis.IgnoredLastWindow`).
- The bytes 3984 to 4095 of the image are erased but never written
  (`ConfigDurability.TailSurvivesIffErased`), and a set list that reads all ones in RAM reads zero after
  a reload (`ConfigDurability.IdleIsDurable`).
- `Copy` stores the default of an absent record at the beginning of its store
  (`ConfigIsolation.CopyStoresDefaultIff`).
- An all-zero record counts as absent, so data of zeros is not read back (`ConfigContents.UpdateThenCopyIff`), and an
  offset between zero and one hour, which is never accepted, would be read as other minutes
  (`ConfigContents.UtcPartsTellIff`).
- An update whose set-list bits overlap its own data marks the image changed every time
  (`ConfigIsolation.RepeatedUpdate`).
- `UpdateCharacter` accepts the code just behind the font; the model gives the font eight more bytes, so
  that this can be said (`Max7219Matrix.UpdateStaysInFontIff`).
- The text of k slots takes 8k characters with its NUL, while the buffer has 7 for each slot, and a mask
  that selects no slot writes its NUL in front (`SlotInfo.StaysInBufferIff`). With the four slots of the
  stepper modes, four selected ones do not fit (`SlotInfo.FourSlots`), and the closing assertion does not
  catch a text that is one character too long (`SlotInfo.AssertionMissesIff`).
- A line whose list is rejected has already given its value a new buffer, under the length an earlier line
  recorded (`ChannelData.FilledIff`, `ChannelData.CutShortExample`).
- The NUL behind the last number of a line without a newline is skipped, and the list goes on with what an
  earlier line has left in the buffer (`ChannelData.BehindNulIff`, `ChannelData.RunsOnExample`).
- A synchronisation before the first kept frame updates from uninitialised memory
  (`SerialOutput.UninitialisedIff`).
- A 64th number of a line is stored but not counted (`ChannelData.LineRoundTrip`), and chl000.txt is
  accepted as a channel file (`FileNames.NumberOfName`).
- The check of a new chain member compares footprint minus start with 512, where the members that lie in the
  universe are those whose sum of both is at most 513: it lets others pass (`LightSetChain.AcceptedIff`). A member that reaches beyond the 16 bits is accepted, but the chain then does not cover
  it (`AddressHull.WidenedIsHullIff`); one at 0xFFFF without slots is covered in a chain that is not empty,
  while a first member at 0xFFFF is accepted and discarded by the next addition
  (`LightSetChain.FirstAtMarkIsLost`), because that address marks an empty chain.
- A chain drops the answers of its members when it moves. LEDs take 1 to 512 less their slots only, so with the
  board at 1 and LEDs at 5 the address 500 leaves the LEDs behind while the chain claims 500 to 515
  (`LightSetChain.LedsStayBehind`, `LightSetChain.MovesAsWholeIff`); moving back need not restore them
  (`LightSetChain.LedsComeBackElsewhere`). With more than 512 slots the limit of the LEDs wraps around, and they take
  any address but 0.
- A light set that is in a chain twice moves twice as far, if it takes both addresses
  (`LightSetChain.MovedTimesFar`).
- A negative speed reads as the fastest one in the conversions that go through `long`
  (`L6470Speed.OrderedIff`); the one that rounds up takes the speeds just below zero for one or zero steps
  (`L6470Speed.RoundedUpOrderedIff`). `spdCalc` converts straight to unsigned, which C++ does not define
  for scaled speeds of -1 and below, so `AutoDriver.AutoDriver.Run` and `AutoDriver.AutoDriver.GoUntil`
  ask for more than that.
- With no channel file the last slot is read from in front of the table
  (`DirectoryScan.ScanDirectory`).

## Model

| member | source | states |
|---|---|---|
| `StepperMotor.InsideAtEveryMoment` | lib-l6470dmx/src/l6470dmxmode4.cpp:118-150 | From a state inside its travel, a motor never leaves it, never wraps its 22-bit counter and never seeks away from its target, at any moment of any progress; the signed reading equals the shaft position throughout |
| `StepperMotor.StoppingEnds` | lib-l6470dmx/src/sparkfundmx.cpp:355-360 | A motor that is not seeking comes strictly closer to rest with every status read, which is why the polling loop ends |
| `StepperMotor.Arrives` | lib-l6470dmx/src/l6470dmxmode4.cpp:145 | A motor inside its travel that is given time rests exactly at the target it was sent to |
| `StepperMotor.DistanceShrinks` | lib-l6470dmx/src/l6470dmxmode4.cpp:145 | One step in a direction shortens the way to the target around the 22-bit circle by exactly one |
| `StepperMotor.StaysInsideIffToward` | lib-l6470dmx/src/l6470dmxmode4.cpp:127-145 | Sent in some direction, a resting motor stays within its travel under every possible progress if and only if that direction leads to the target |
| `StepperMotor.RunsAway` | lib-l6470dmx/src/l6470dmxmode4.cpp:127-145 | Sent the wrong way, the shaft moves on step by step until it is outside its travel |
| `StepperMotor.BusyIgnoresCommand` | lib-l6470dmx/src/sparkfundmx.cpp:355-366 | A busy motor ignores a new command altogether, which is why the frame handling waits |
| `StepperMotor.SeekingMayWait` | lib-l6470dmx/src/sparkfundmx.cpp:355-360 | A seeking motor may take any time: nothing proved depends on how fast it is |
| `PositionAxis.StepsMonotone` | lib-l6470dmx/src/l6470dmxmode5.cpp:122-123 | A larger slot value never means a smaller position, whatever the scale |
| `PositionAxis.Value` | lib-l6470dmx/src/l6470dmxmode5.cpp:122 | One slot is its own value; of two, the first is the high byte and the second the low byte |
| `PositionAxis.StepsOfWindow` | lib-l6470dmx/src/l6470dmxmode5.cpp:122-123 | The position computed for an accepted frame is the only one its slots ask for: the number that the one or two slots from the start address on spell, high byte first, times the scale, rounded down |
| `PositionAxis.AsUint32` | lib-l6470dmx/src/l6470dmxmode5.cpp:129 | A position read back as unsigned 32 bits: itself if it is not negative, 2^32 more if it is |
| `PositionAxis.FullScale` | lib-l6470dmx/src/l6470dmxmode3.cpp:49 | The largest slot value is exactly the configured number of steps in modes 4 and 5, and one revolution of microsteps in mode 3 |
| `PositionAxis.IgnoredLastWindow` | lib-l6470dmx/src/l6470dmxmodes.cpp:245-248 | A frame that holds the whole window is ignored if and only if the window ends on its last slot |
| `PositionAxis.ReadsInsideFrame` | lib-l6470dmx/src/l6470dmxmodes.cpp:245-252 | The window of an accepted frame does not depend on what lies in front of the frame in memory if and only if the start address is not 0 |
| `PositionAxis.ChangedIff` | lib-l6470dmx/src/l6470dmxmodes.cpp:210-253 | A window counts as changed if and only if the frame is long enough and one of its slots differs from what the cache holds |
| `PositionAxis.PhasesCompose` | lib-l6470dmx/src/sparkfundmx.cpp:340-366 | The three phases of one motor, each with its own share of time, compose to what the frame does to that motor alone; after the first phase it is not seeking |
| `PositionAxis.NewIsOnTrack` | lib-l6470dmx/src/l6470dmxmode4.cpp:75-81 | A motor just initialised at rest at 0 with a zeroed cache satisfies the invariant |
| `PositionAxis.TimeKeepsTrack` | lib-l6470dmx/src/l6470dmxmode4.cpp:118-150 | Between frames any progress of the motor keeps the invariant: cache, previous value and target belong together |
| `PositionAxis.QuiescedRests` | lib-l6470dmx/src/sparkfundmx.cpp:340-360 | After the wait the motor rests inside its travel, and if it was not busy at the check it rests exactly where the previous value had sent it |
| `PositionAxis.RetargetedFromRest` | lib-l6470dmx/src/l6470dmxmode4.cpp:118-150 | From rest, either way of choosing the direction (position read back, or previous value) gives the direction of the new target |
| `PositionAxis.RetargetedTowardGoal` | lib-l6470dmx/src/l6470dmxmode5.cpp:119-150 | Handling a changed window commands the direction in which the new position lies, the command is accepted, and the invariant holds again |
| `PositionAxis.RepeatedFrame` | lib-l6470dmx/src/l6470dmxmodes.cpp:210-253 | A frame whose window says what the last one said leaves the motor alone, whatever time has passed in between |
| `PositionAxis.FrameMomentsInside` | lib-l6470dmx/src/sparkfundmx.cpp:333-369 | At every moment while a frame is handled the motor is inside its travel |
| `PositionAxis.RunIsSafe` | lib-l6470dmx/src/sparkfundmx.cpp:333-402 | Motion safety: over every sequence of frames, of new start addresses (0 and any beyond the universe included) and of any progress of the motor between and within them, no moment leaves 0 up to the travel, wraps the counter or seeks away from the target |
| `PositionAxis.RunTracksLastValue` | lib-l6470dmx/src/l6470dmxmodes.cpp:210-281 | After any run the cached window is that of the last frame accepted, read at the start address of that time |
| `PositionAxis.EndsAtLastValue` | lib-l6470dmx/src/sparkfundmx.cpp:333-402 | After any run with enough time at its end, the shaft is at the position of the value asked for last, whatever start addresses were set in between |
| `CallOrder.StopPhase` | lib-l6470dmx/src/sparkfundmx.cpp:340-353 | The calls of the first phase, motor after motor: only changed motors are addressed, none is sent, and exactly those found busy are stopped |
| `CallOrder.PollPhase` | lib-l6470dmx/src/sparkfundmx.cpp:355-360 | Those of the second: every changed motor is last heard to be not busy |
| `CallOrder.SendPhase` | lib-l6470dmx/src/sparkfundmx.cpp:362-366 | Those of the third: every changed motor is sent to its target exactly once, and no other; the position is read of exactly those found busy |
| `CallOrder.PhasesInOrder` | lib-l6470dmx/src/sparkfundmx.cpp:340-366 | The three phases in a row keep the order across motors: when any motor is sent, every stop of the frame is behind, and every changed motor was last heard, after its own stop, to be not busy |
| `SparkFunDmx.L6470.AwaitNotBusy` | lib-l6470dmx/src/sparkfundmx.cpp:357-358 | Polling ends with the motor not busy, whatever progress it makes between the reads |
| `SparkFunDmx.L6470.SoftStop` | lib-l6470/src/l6470commands.cpp:164-166 | As the modes see it: a seeking motor begins to stop, any other is left alone |
| `SparkFunDmx.L6470.GoToDir` | lib-l6470/src/l6470commands.cpp:113-122 | As the modes see it: accepted by a motor that is not busy, ignored by one that is |
| `SparkFunDmx.PositionMode.HandleBusy` | lib-l6470dmx/src/l6470dmxmode4.cpp:95-109 | Records whether the motor was busy and soft-stops it exactly in that case |
| `SparkFunDmx.PositionMode.Data` | lib-l6470dmx/src/l6470dmxmode5.cpp:119-150 | Stores the value, of two slots the first as the high byte, and sends the motor to its position, in the direction found from the position read back (as unsigned 32 bits) or from the previous value |
| `SparkFunDmx.DmxModes.constructor` | lib-l6470dmx/src/l6470dmxmodes.cpp:50-120 | A new motor has a zeroed window cache in front of its mode |
| `SparkFunDmx.DmxModes.IsDmxDataChanged` | lib-l6470dmx/src/l6470dmxmodes.cpp:210-253 | Answers whether the accepted window differs from the cached one and leaves the cache equal to the window, at any start address |
| `SparkFunDmx.DmxModes.DmxData` | lib-l6470dmx/src/l6470dmxmodes.cpp:255-281 | Delivers the window to the mode, under the same guard |
| `SparkFunDmx.DmxModes.SetDmxStartAddress` | lib-l6470dmx/include/l6470dmxmodes.h:66-68 | Is the readdressing step of the runs: cache, previous value and motor stay |
| `SparkFunDmx.SparkFunDmx.StopChanged` | lib-l6470dmx/src/sparkfundmx.cpp:340-353 | First phase over all motors: exactly those whose window changed are marked, cached and, if busy, stopped; the calls made are those of the marked motors in turn |
| `SparkFunDmx.SparkFunDmx.AwaitChanged` | lib-l6470dmx/src/sparkfundmx.cpp:355-360 | Second phase: each marked motor is polled until not busy, no other is touched or addressed |
| `SparkFunDmx.SparkFunDmx.SendChanged` | lib-l6470dmx/src/sparkfundmx.cpp:362-366 | Third phase: each marked motor, and no other, is sent to its new position, with one command |
| `SparkFunDmx.SparkFunDmx.SetData` | lib-l6470dmx/src/sparkfundmx.cpp:333-369 | All eight motors at once: a motor is sent once, exactly when its window changed, and to the position that the slots of the frame themselves ask for; the log of the calls made shows that no motor is sent before every stop has been given and every changed motor has reported not busy after its stop; each motor does what is prescribed for it alone, keeps its invariant, and motors whose window did not change are left alone |
| `StepperBus.TargetOnTheWire` | lib-l6470/src/l6470commands.cpp:113-122 | The three argument bytes of a target below 2^22 say that target, after the driver limits it and the board masks it |
| `StepperBus.PositionOnTheWire` | lib-l6470/src/l6470commands.cpp:42-52 | The long read from a board whose ABS_POS shows a motor is the signed position of that motor |
| `StepperBus.GetPos` | lib-l6470/src/l6470commands.cpp:42-52 | The bytes exchanged give the position that the positioning modes see |
| `StepperBus.BusyCheck` | lib-l6470/src/autodriver.cpp:83-107 | The bytes exchanged, or the busy pin, give the answer that the positioning modes see |
| `StepperBus.GoToDir` | lib-l6470/src/l6470commands.cpp:113-122 | The board carries out one more command, which sends the motor in the given direction to exactly the given position |
| `StepperBus.SoftStop` | lib-l6470/src/l6470commands.cpp:164-166 | The board carries out one more command, which stops the motor softly |
| `L6470Board.IgnoresNop` | lib-l6470/src/autodriver.cpp:118-120 | A board at a command boundary is unchanged by the zero byte that boards not addressed receive |
| `L6470Board.ExchangedAppend` | lib-l6470/src/l6470support.cpp:359-361 | Exchanging bytes one at a time is exchanging them all |
| `L6470Board.ArgumentCompletes` | lib-l6470/src/l6470commands.cpp:82-84 | Argument bytes are collected until the last one executes the command with all of them |
| `L6470Board.ReplyCompletes` | lib-l6470/src/l6470commands.cpp:184-186 | A reply is clocked out by as many NOPs as it has bytes, after which the board is at a boundary |
| `L6470Board.CommandFramed` | lib-l6470/src/l6470commands.cpp:66-134 | A command byte and an argument of the right length leave the board at a boundary with exactly that command executed |
| `L6470Board.ReadFramed` | lib-l6470/src/l6470commands.cpp:36-40 | A read with the right number of NOPs returns the register and leaves the board unchanged |
| `L6470Board.ExecutedValid` | lib-l6470/src/l6470commands.cpp:31-34 | No command ever makes a register hold more bits or bytes than it has |
| `L6470Board.RegisterTable` | lib-l6470/src/l6470support.cpp:183-334 | How many bits each of the 25 registers has, by address, and which three are read-only |
| `L6470Board.CommandTable` | lib-l6470/include/l6470constants.h:241-259 | What each of the 256 bytes means at a command boundary: which are register writes and reads, which take an argument of 20 or of 22 bits, which take none |
| `L6470Board.MotionExecuted` | lib-l6470/src/l6470commands.cpp:66-134 | A motion command is recorded with the 20 or 22 bits of its argument and changes no register |
| `L6470Board.PlainExecuted` | lib-l6470/src/l6470commands.cpp:136-178 | A command without argument is recorded; of all of them only the two resets change registers, one to zero positions and one to the defaults |
| `L6470Board.DefaultTable` | lib-l6470/src/l6470support.cpp:209-318 | The contents of the registers after a reset |
| `L6470Board.DefaultZeros` | lib-l6470/src/l6470support.cpp:183-318 | The other registers are zero after a reset |
| `L6470Long.PositionRoundTrip` | lib-l6470/src/l6470commands.cpp:42-64 | A long sent as three bytes to a 22-bit register and read back with its sign is unchanged if and only if it lies in -2^21 up to 2^21 - 1 |
| `AutoDriver.SameByteLength` | lib-l6470/src/l6470support.cpp:183-334 | The bit counts the driver uses are those of the registers but for four short ones, which it takes for 8 bits, and give the same number of bytes for all 25 |
| `L6470Kept.KeptLow` | lib-l6470/src/l6470support.cpp:343-364 | For every length a register can have, the bytes sent and masked are the number modulo the capacity of that many bits |
| `L6470Kept.NumberTellsLong` | lib-l6470/src/l6470support.cpp:343-364 | Different longs are different numbers |
| `AutoDriver.SentIsKept` | lib-l6470/src/l6470support.cpp:174-336 | What a register that can be written keeps of the bytes sent is the value modulo the capacity of the register, whatever the driver masks before |
| `AutoDriver.NothingSpuriousIsSent` | lib-l6470/src/l6470support.cpp:199-331 | Nothing but zeros is sent to SPEED and STATUS, and K_THERM, OCD_TH and STALL_TH are sent no bits beyond their own |
| `AutoDriver.Chain.Transfer` | lib-l6470/src/autodriver.cpp:127 | Bytes shifted through the boards, one register each, give every board its byte and return every board's reply in its place |
| `AutoDriver.Chain.Shift` | lib-l6470/src/autodriver.cpp:127 | What is clocked out takes the place of what was clocked in, byte by byte |
| `AutoDriver.Delivered` | lib-l6470/src/autodriver.cpp:116-131 | With the boards' replies in the registers, one packet makes board k take byte k and puts its reply at place k |
| `AutoDriver.AutoDriver.SPIXfer` | lib-l6470/src/autodriver.cpp:113-132 | One exchange: the addressed board takes the byte and its reply is returned, all other boards are unchanged |
| `AutoDriver.AutoDriver.XferBytes` | lib-l6470/src/l6470support.cpp:356-363 | Sends the low bytes of a value, most significant first, and puts the replies together in the same order |
| `AutoDriver.AutoDriver.XferParam` | lib-l6470/src/l6470support.cpp:343-364 | Transfers as many bytes as the bit count needs |
| `AutoDriver.AutoDriver.ParamHandler` | lib-l6470/src/l6470support.cpp:174-336 | For every register the board receives exactly as many bytes as its register has; of a register that can be written they hold the value modulo its capacity, and zeros go to SPEED and STATUS |
| `AutoDriver.AutoDriver.PerformedByBytes` | lib-l6470/src/l6470commands.cpp:66-134 | From the bytes exchanged: all boards are at a boundary, the addressed one has executed exactly this command, the others are unchanged |
| `AutoDriver.AutoDriver.SetParam` | lib-l6470/src/l6470commands.cpp:31-34 | Afterwards a register that can be written shows the value if it fits its bits and the lowest bits of it if not, the read-only ones and all other registers show what they did; every other board is unchanged and all are at a boundary |
| `AutoDriver.AutoDriver.GetParam` | lib-l6470/src/l6470commands.cpp:36-40 | Returns the contents of the register and changes no board |
| `AutoDriver.AutoDriver.GetStatus` | lib-l6470/src/l6470commands.cpp:180-189 | Returns the contents of STATUS and changes no board |
| `AutoDriver.AutoDriver.GetPos` | lib-l6470/src/l6470commands.cpp:42-52 | Returns ABS_POS with its sign extended and changes no board |
| `AutoDriver.AutoDriver.GetMark` | lib-l6470/src/l6470commands.cpp:54-64 | Returns MARK with its sign extended and changes no board |
| `AutoDriver.AutoDriver.SetPos` | lib-l6470/src/l6470commands.cpp:152-154 | Executes the write; what getPos then returns is the position set if and only if it fits 22 bits with sign |
| `AutoDriver.AutoDriver.SetMark` | lib-l6470/src/l6470commands.cpp:148-150 | The same for MARK |
| `AutoDriver.AutoDriver.Run` | lib-l6470/src/l6470commands.cpp:66-85 | Executes Run in the given direction with the register value of the speed given in steps per second, big-endian; all framing guarantees |
| `AutoDriver.AutoDriver.Move` | lib-l6470/src/l6470commands.cpp:91-100 | Executes Move with the steps limited to 22 bits |
| `AutoDriver.AutoDriver.GoTo` | lib-l6470/src/l6470commands.cpp:102-111 | Executes GoTo with a position limited from above only |
| `AutoDriver.AutoDriver.GoToDir` | lib-l6470/src/l6470commands.cpp:113-122 | Executes GoTo_DIR in the given direction with a position limited from above only |
| `AutoDriver.AutoDriver.GoUntil` | lib-l6470/src/l6470commands.cpp:124-134 | Executes GoUntil with action, direction and the register value of the speed given in steps per second |
| `AutoDriver.AutoDriver.SoftStop` | lib-l6470/src/l6470commands.cpp:164-166 | Executes SoftStop on the addressed board only |
| `AutoDriver.AutoDriver.ResetPos` | lib-l6470/src/l6470commands.cpp:156-158 | Executes ResetPos; ABS_POS then reads zero |
| `AutoDriver.AutoDriver.ResetDev` | lib-l6470/src/l6470commands.cpp:160-162 | Executes ResetDevice; CONFIG then reads its power-up value 0x2E88 |
| `AutoDriver.AutoDriver.BusyCheck` | lib-l6470/src/autodriver.cpp:83-107 | Without a busy pin the status bit decides; with one, the status bit detects the start and the pin the end; no board changes |
| `L6470Long.ClampedArguments` | lib-l6470/src/l6470commands.cpp:69-84 | A limited value fits its argument bits: the board keeps all of it |
| `L6470Number.LimitsOf` | lib-l6470/src/l6470commands.cpp:69-84 | The limits, tested on the bytes of a long, let through exactly the numbers of 20 and 22 bits |
| `L6470Number.Limited` | lib-l6470/src/l6470commands.cpp:66-111 | An argument that is too large for 20 or 22 bits becomes the largest number that fits, any other stays what it is |
| `L6470Number.PositionLimited` | lib-l6470/src/l6470commands.cpp:91-122 | A position above 22 bits becomes the largest number of 22 bits; a negative one stays what it is, however far below |
| `L6470Number.SignedNumber` | lib-l6470/src/l6470commands.cpp:42-52 | A 22-bit number read back as a position is that number in two's complement |
| `AutoDriver.MotionOps` | lib-l6470/src/l6470commands.cpp:66-134 | Direction and action bits added to a motion command byte never make it another command |
| `AutoDriver.SetParamOp` | lib-l6470/src/l6470commands.cpp:31-40 | For every register address the driver's command byte decodes to the write, or the read, of that register |
| `AutoDriver.PacketLands` | lib-l6470/src/autodriver.cpp:116-131 | Pushed through a chain of as many byte registers, byte k of the packet reaches the k-th farthest board and its reply comes back at place k |
| `L6470Config.PutGet` | lib-l6470/src/l6470config.cpp:112-193 | What a setter puts in a field is read back from it |
| `L6470Config.PutOther` | lib-l6470/src/l6470config.cpp:112-193 | Fields without common bits read as before |
| `L6470Config.FieldsAreIndependent` | lib-l6470/src/l6470config.cpp:34-241 | After any sequence of setter calls a field reads as it was last set, or as before if no call set it, provided the other fields share no bit with it |
| `L6470Config.ConfigFieldsIndependent` | lib-l6470/src/l6470config.cpp:112-193 | The proviso holds for the seven CONFIG fields, so they are independent in any order of calls |
| `L6470Config.OtherFieldsApart` | lib-l6470/src/l6470config.cpp:34-241 | So do the two fields of STEP_MODE and the two of MIN_SPEED, which together are all the bits the driver touches there |
| `L6470Config.FieldTable` | lib-l6470/include/l6470constants.h:46-190 | Which bits each of the eleven fields is |
| `L6470Config.SetConfigField` | lib-l6470/src/l6470config.cpp:130-189 | A CONFIG setter over the bus: CONFIG ends with that field replaced and all other bits kept, and exactly one write is executed |
| `L6470Config.GetConfigField` | lib-l6470/src/l6470config.cpp:122-193 | A CONFIG getter over the bus returns the field and changes no board |
| `L6470Config.SetPWMFreq` | lib-l6470/src/l6470config.cpp:112-120 | Replaces the two PWM fields in one write, as setting one after the other would; no other register and no other board changes |
| `L6470Config.ConfigStepMode` | lib-l6470/src/l6470config.cpp:43-50 | Replaces the step selection and keeps the other five bits of STEP_MODE; no other register and no other board changes |
| `L6470Config.GetStepMode` | lib-l6470/src/l6470config.cpp:52-54 | Returns the step selection and changes no board |
| `L6470Config.ConfigSyncPin` | lib-l6470/src/l6470config.cpp:34-41 | Replaces the upper four bits of STEP_MODE and keeps the step selection; no other register and no other board changes |
| `L6470Config.SetMinSpeed` | lib-l6470/src/l6470config.cpp:66-71 | Replaces the 12-bit value by that of the speed given and keeps the optimisation bit; no other register and no other board changes |
| `L6470Config.GetMinSpeed` | lib-l6470/src/l6470config.cpp:73-75 | Returns the speed of the value in MIN_SPEED, whatever the optimisation bit, and changes no board |
| `L6470Config.SetLoSpdOpt` | lib-l6470/src/l6470config.cpp:227-237 | Switches the optimisation bit and keeps the speed; no other register and no other board changes |
| `L6470Config.GetLoSpdOpt` | lib-l6470/src/l6470config.cpp:239-241 | Returns the optimisation bit and changes no board |
| `L6470Settings.FieldReadsLastSet` | lib-l6470/src/l6470config.cpp:34-241 | After any sequence of setter calls on CONFIG, STEP_MODE and MIN_SPEED, every field of the three reads as it was last set, or as before if no call set it |
| `L6470Settings.Apply` | lib-l6470/src/l6470config.cpp:34-241 | One setter call over the bus: one write of its register is executed on the addressed board, every other register and every other board is unchanged |
| `L6470Settings.ApplyAll` | lib-l6470/src/l6470config.cpp:34-241 | Any sequence of setter calls over the bus: as many commands, the three registers as the calls say, everything else unchanged |
| `L6470Settings.ApplyAllAndRead` | lib-l6470/src/l6470config.cpp:34-241 | The fields as independent lenses over the bus: after any sequence of setter calls each getter returns what was last set, or what was there before |
| `L6470Settings.MinSpeedSetIsShown` | lib-l6470/src/l6470config.cpp:66-75 | A minimum speed set last is shown as what its register value stands for, whatever is set before and after it elsewhere |
| `L6470Speed.OrderedIff` | lib-l6470/src/l6470support.cpp:52-60 | A conversion through long keeps the order against all larger numbers it is defined for if and only if the scaled number is above -1; anything at or below reads as the largest value |
| `L6470Speed.RoundedUpOrderedIff` | lib-l6470/src/l6470support.cpp:36-94 | The conversion that rounds up keeps it if and only if the scaled number is not negative or lies between -2 and -1 |
| `L6470Speed.ParsedAndBack` | lib-l6470/src/l6470support.cpp:52-169 | Every register value, read as a speed and written back, is unchanged, for all seven conversions |
| `L6470Speed.ParsedAre` | lib-l6470/src/l6470support.cpp:59-172 | How many steps per second each register value stands for, conversion by conversion |
| `L6470Speed.BeyondTheLargest` | lib-l6470/src/l6470support.cpp:49-168 | A speed beyond the last register value is written as that value |
| `L6470Speed.SpdRoundsDown` | lib-l6470/src/l6470support.cpp:158-169 | A speed in range is written as the largest value that does not read back as more |
| `L6470Speed.MaxSpdRoundsUp` | lib-l6470/src/l6470support.cpp:86-98 | The maximum speed in range is written as the smallest value that does not read back as less |
| `ConfigLayout.GetStoreOffset` | lib-configstore/src/configstore.cpp:136-148 | The loop returns where the store begins |
| `ConfigLayout.UsedIsEndOfLastStore` | lib-configstore/src/configstore.cpp:108-116 | The part of the image that is written ends with the last store and fits the image |
| `ConfigLayout.FirstStores` | lib-configstore/src/configstore.cpp:46 | Where the first ten stores begin |
| `ConfigLayout.MiddleStores` | lib-configstore/src/configstore.cpp:46 | Where the next nine begin |
| `ConfigLayout.LastStores` | lib-configstore/src/configstore.cpp:46 | Where the last eight begin, and where the last one ends |
| `ConfigLayout.RecordTable` | lib-l6470dmx/include/l6470dmxstore.h:78-92 | Where each record of a motor begins and how long it is |
| `ConfigLayout.StoresAreDisjoint` | lib-configstore/src/configstore.cpp:46 | Every store lies behind the environment and inside the written part, and no two share a byte |
| `ConfigLayout.RecordsAreDisjoint` | lib-l6470dmx/include/l6470dmxstore.h:78-92 | The records of all motors fit the motors store and no two share a byte |
| `ConfigStore.ConfigStore.constructor` | lib-configstore/src/configstore.cpp:60-134 | RAM becomes the flash contents, normalised; without the signature a blank image marked changed |
| `ConfigStore.ConfigStore.ResetSetList` | lib-configstore/src/configstore.cpp:150-161 | The first four bytes of the store are zero, no other byte has changed, and the image is marked changed |
| `ConfigStore.ConfigStore.Update` | lib-configstore/src/configstore.cpp:163-204 | Replaces the bytes that differ and, if any did, adds the set-list bits and marks the image changed; otherwise changes nothing |
| `ConfigStore.ConfigStore.Copy` | lib-configstore/src/configstore.cpp:206-237 | A record of which any byte is not zero is returned byte for byte and nothing changes; in place of an all-zero one the caller keeps its default, which is stored in the image if asked |
| `ConfigStore.ConfigStore.Delay` | lib-configstore/src/configstore.cpp:239-243 | Sends a pending flush back to its beginning and leaves an idle store idle |
| `ConfigStore.ConfigStore.Flash` | lib-configstore/src/configstore.cpp:245-303 | One step of the flush, for every state and every progress of the device; says whether it wants to be called again |
| `ConfigStore.ConfigStore.SetEnvUtcOffset` | lib-configstore/include/configstore.h:108-127 | Stores an accepted offset if it differs, and rejects any other without a change |
| `ConfigStore.ConfigStore.GetEnvUtcOffset` | lib-configstore/include/configstore.h:129-144 | Returns the hours and minutes of the four bytes in the image, in the 32-bit and 8-bit arithmetic of the code |
| `ConfigStore.StoreDevice.Erase` | lib-configstore/src/configstore.cpp:264 | Erase sets bytes to all ones, all of them when it reports success, some of them before |
| `ConfigStore.StoreDevice.Write` | lib-configstore/src/configstore.cpp:286 | Write can only clear bits, and only in the used part of the image |
| `ConfigDurability.NormalisedIffSetListsWritten` | lib-configstore/src/configstore.cpp:118-128 | Normalising changes an image if and only if some set list reads all ones |
| `ConfigDurability.NormalisedIsNormal` | lib-configstore/src/configstore.cpp:118-128 | A normalised image has nothing left to normalise |
| `ConfigDurability.LoadedInv` | lib-configstore/src/configstore.cpp:60-134 | The invariant holds after power-up from any flash contents |
| `ConfigDurability.WrittenIsDurable` | lib-configstore/src/configstore.cpp:284-293 | The write that completes leaves the RAM image in flash |
| `ConfigDurability.PartialWriteKeepsInv` | lib-configstore/src/configstore.cpp:284-293 | A write that gets only part of the way leaves every byte erased or equal to RAM |
| `ConfigDurability.StepKeepsInv` | lib-configstore/src/configstore.cpp:150-303 | Every mutator and every flush call keeps the invariant |
| `ConfigDurability.RunKeepsInv` | lib-configstore/src/configstore.cpp:150-303 | So does every interleaving of them |
| `ConfigDurability.RunAppend` | lib-configstore/src/configstore.cpp:163-303 | A run of mutators and flush calls goes on event by event |
| `ConfigDurability.FlashedAgainIff` | lib-configstore/src/configstore.cpp:245-303 | A flush call asks to be called again if and only if the store is not idle after it |
| `ConfigDurability.IdleIsDurable` | lib-configstore/src/configstore.cpp:245-303 | Durability: after any flash contents and any interleaving, an idle store reloads to its RAM image, with erased set lists read as zero; to the very same image if and only if no set list reads all ones |
| `ConfigDurability.TailSurvivesIffErased` | lib-configstore/src/configstore.cpp:284-293 | The bytes behind the last store survive a flush if and only if RAM holds the erased value in all of them |
| `ConfigTiming.ElapsedIsLowerBound` | lib-configstore/src/configstore.cpp:256 | The 32-bit difference of two readings never exceeds the true time between them |
| `ConfigTiming.MutatorsDisturbOrDoNothing` | lib-configstore/src/configstore.cpp:150-243 | A mutator that finds something to change marks the image changed; any other changes nothing at all |
| `ConfigTiming.RecordKeepsTimeInv` | lib-configstore/src/configstore.cpp:245-303 | Every event keeps what the states say about true time |
| `ConfigTiming.PowerUpTimeInv` | lib-configstore/src/configstore.cpp:60-134 | They hold at power-up, at any time |
| `ConfigTiming.RunIsQuiet` | lib-configstore/src/configstore.cpp:245-303 | Quiet time over every run, clock wrap included: no erase within 100 ms of the last disturbance, no write within 100 ms of the erase |
| `ConfigStore.FlushAdvances` | lib-configstore/src/configstore.cpp:245-303 | A flush call in any state but idle moves on to the next state, or stays with fewer calls left, also when the readings wrap; it never changes RAM |
| `ConfigStore.ConfigStore.Close` | lib-configstore/include/configstore.h:79-82 | The flush loop of the destructor ends, from every state, with the store idle and RAM unchanged, and a reload would then give the image it was closed with |
| `ConfigIsolation.UpdateFrame` | lib-configstore/src/configstore.cpp:163-204 | An update changes nothing outside its data and its set-list word |
| `ConfigIsolation.UpdateStaysInStore` | lib-configstore/src/configstore.cpp:163-204 | With the set-list word in its own store, an update leaves every other store, the signature and the environment alone |
| `ConfigIsolation.UpdateStaysInRecord` | lib-l6470dmx/include/l6470dmxstore.h:78-92 | Inside the motors store it leaves every other record of every motor alone |
| `ConfigIsolation.RepeatedUpdate` | lib-configstore/src/configstore.cpp:163-204 | Repeating an update never changes RAM again, and leaves the flush alone if and only if there was nothing to do the first time or the set list adds no bit to the data |
| `ConfigIsolation.CopyStoresDefaultIff` | lib-configstore/src/configstore.cpp:226-234 | After a copy of an absent record the record holds the default if and only if it is the first of its store or the default is all zeros |
| `ConfigIsolation.UtcRoundTrip` | lib-configstore/include/configstore.h:108-144 | Reading back an accepted UTC offset gives the hours and minutes it was set from |
| `ConfigContents.CopyReadsRecord` | lib-configstore/src/configstore.cpp:206-237 | Of any record in any store: if a byte of it is not zero it is read as it stands in the image and nothing changes, otherwise the default is returned |
| `ConfigContents.CopyStoresAtFirst` | lib-configstore/src/configstore.cpp:232-234 | With an absent record and update requested, the default lies at the first bytes of the store afterwards and nothing else has changed |
| `ConfigContents.UpdateWrites` | lib-configstore/src/configstore.cpp:163-204 | Every byte of the image after an update: the data, the bits of the set list added in their word, and the rest as it was; data that is there already changes nothing at all |
| `ConfigContents.UpdateThenCopyIff` | lib-configstore/src/configstore.cpp:163-237 | Reading back what was just updated gives the data if and only if the set list adds no bit to it or it was there already, and it is not all zeros or is what the reader has for a default anyway |
| `ConfigContents.UpdateThenCopy` | lib-configstore/src/configstore.cpp:163-237 | With its set list elsewhere, data that is not all zeros always comes back |
| `ConfigContents.ResetClearsSetList` | lib-configstore/src/configstore.cpp:150-161 | The four bytes of the set list are zero afterwards and every other byte is as before |
| `ConfigContents.UnsignedLoadsBlank` | lib-configstore/src/configstore.cpp:93-106 | Flash without the signature loads as the signature and zeros behind the first sixteen bytes, and is to be written |
| `ConfigContents.LoadedWordIs` | lib-configstore/src/configstore.cpp:118-128 | The first word of each store and of the environment loads as zero where it reads all ones in flash, and as it is where not |
| `ConfigContents.LoadedElsewhere` | lib-configstore/src/configstore.cpp:87-128 | Every other byte of a signed flash loads as it is, and the store rests |
| `ConfigContents.UtcIsStored` | lib-configstore/include/configstore.h:108-127 | After an accepted offset the four bytes in the image read back, in two's complement, as its seconds, from which the same hours and minutes come out; other bytes stay, and one that is not accepted changes nothing |
| `ConfigContents.UtcTable` | lib-hal/include/utc.h:58-92 | Which hours and minutes are accepted, and how many seconds each stands for |
| `ConfigContents.UtcPartsTellIff` | lib-configstore/include/configstore.h:129-144 | Of any number of seconds in the image, the hours and minutes returned stand for it if and only if it is a whole number of minutes and not between zero and one hour |
| `Ema.EMA.constructor` | lib-device/include/ema.h:46 | The state begins at rest at the initial value, cut to 16 bits |
| `Ema.EMA.Reset` | lib-device/include/ema.h:55-57 | The same for a reset |
| `Ema.EMA.Filter` | lib-device/include/ema.h:59-64 | Output and new state are those of the specification, with every 16-bit truncation |
| `Ema.ShiftRightIff` | lib-device/include/ema.h:61 | A right shift yields q exactly on the 2^k numbers from q << k on |
| `Ema.OutputRounds` | lib-device/include/ema.h:59-71 | Whatever the state and the input, wrapped or not: with t the 16-bit sum of both the output is t / 2^K rounded to the nearest, halves up, and the state keeps what is left of t |
| `Ema.CallBetween` | lib-device/include/ema.h:59-64 | Inside the range one call does not wrap, and output and state keep to their intervals |
| `Ema.OutputsStayInRange` | lib-device/include/ema.h:46-71 | For every K: from a reset inside [lo, hi] with hi * 2^K below 2^16, any inputs inside [lo, hi] produce only outputs inside it, and the state stays inside [lo * (2^K - 1), hi * (2^K - 1)] |
| `Ema.SteadyIffFits` | lib-device/include/ema.h:46-64 | A value fed right after a reset to it comes back if and only if value * 2^K is below 2^16 |
| `Ema.CallConverges` | lib-device/include/ema.h:59-64 | With constant input a call whose output differs from it brings the state strictly closer to rest and not past it; the output is right exactly within a rounding of rest |
| `Ema.Stays` | lib-device/include/ema.h:59-64 | Once the output is the input it stays so, and so does the state |
| `Ema.Converges` | lib-device/include/ema.h:59-64 | Fed one input, the filter yields it from some call on and not before, at the latest after as many calls as the state is away from rest |
| `Ema.Approaches` | lib-device/include/ema.h:59-64 | Over any number of calls the state stays on its side of rest and never moves away |
| `Glyph.ColumnBit` | lib-device/src/max7219matrix.cpp:166-175 | Bit y of a rotated byte is bit x of row y |
| `Glyph.TurnedBit` | lib-device/src/max7219matrix.cpp:144-150 | Pixel (j, y) of the turned glyph is pixel (y, 7 - j) of the original |
| `Glyph.FourTurns` | lib-device/src/max7219matrix.cpp:46-50 | Four quarter turns give the glyph back |
| `Glyph.TurnedApart` | lib-device/src/max7219matrix.cpp:46-50 | Different glyphs look different on a module |
| `Max7219Matrix.ShiftedAt` | lib-device/src/max7219matrix.cpp:130 | Bytes pushed into the chain lie there in reverse order, older contents behind them |
| `Max7219Matrix.FrameArrives` | lib-device/src/max7219matrix.cpp:130 | After a frame every module latches the word meant for it |
| `Max7219Matrix.FrameAddresses` | lib-device/src/max7219matrix.cpp:112-128 | A built frame holds for module k the word of character k, and a no-operation beyond the text |
| `Max7219Matrix.FrameAdvances` | lib-device/src/max7219matrix.cpp:107-131 | Sending frame i adds row i to every shown character and leaves the modules beyond the text unchanged |
| `Max7219Matrix.TextIsReadable` | lib-device/src/max7219matrix.cpp:98-132 | Module k shows the turned built-in glyph of character k, a space for a code outside the font; modules beyond the text are unchanged |
| `Max7219Matrix.UpdateStaysInFontIff` | lib-device/src/max7219matrix.cpp:134-151 | A character update keeps inside the font for every glyph if and only if the code is not the one just behind it |
| `Max7219Matrix.UpdateRestores` | lib-device/src/max7219matrix.cpp:134-151 | Updating a character with its built-in glyph restores the memory the constructor built |
| `Max7219Matrix.ReplacedGlyphs` | lib-device/src/max7219matrix.cpp:134-151 | An update changes its character and no other |
| `Max7219Matrix.Chain.ShiftIn` | lib-device/src/max7219matrix.cpp:130 | Bytes move through the registers one by one |
| `Max7219Matrix.Chain.Latch` | lib-device/src/max7219matrix.cpp:130 | Every module acts on the word in its register |
| `Max7219Matrix.Chain.Write` | lib-device/src/max7219matrix.cpp:130 | One chip-select period acts like the frame on all modules |
| `Max7219Matrix.Max7219Matrix.constructor` | lib-device/src/max7219matrix.cpp:38-53 | The driver's copy holds every glyph turned |
| `Max7219Matrix.Max7219Matrix.Rotate` | lib-device/src/max7219matrix.cpp:166-175 | Collects bit x of the eight rows |
| `Max7219Matrix.Max7219Matrix.UpdateCharacter` | lib-device/src/max7219matrix.cpp:134-151 | Stores the turned glyph; ignores codes beyond the guard |
| `Max7219Matrix.Max7219Matrix.FillFrame` | lib-device/src/max7219matrix.cpp:108-128 | The buffer holds the frame of this row |
| `Max7219Matrix.Max7219Matrix.Write` | lib-device/src/max7219matrix.cpp:98-132 | After all eight frames module k shows the stored glyph of character k, for as many characters as there are modules, and the other modules are unchanged |
| `SlotInfo.EntryParses` | lib-lightset/src/dmxslotinfo.cpp:120-127 | A printed entry parses to itself and the reading goes on behind its separator |
| `SlotInfo.EntryGrammar` | lib-lightset/src/dmxslotinfo.cpp:147-210 | The grammar of one entry: at most two digits for the type, any one character, four digits, and then the end, or a comma or a space behind which the next entry begins; its numbers are those of its digits |
| `SlotInfo.Digits` | lib-lightset/src/dmxslotinfo.cpp:147-210 | The sixteen digits in upper and in lower case, and what each stands for |
| `SlotInfo.DigitsOnly` | lib-lightset/src/dmxslotinfo.cpp:147-210 | There are no others |
| `SlotInfo.CaseNeverMatters` | lib-lightset/src/dmxslotinfo.cpp:71-96 | Texts that differ in the case of their digits have the same entries |
| `SlotInfo.FilledWithEntries` | lib-lightset/src/dmxslotinfo.cpp:71-96 | The slots set are the entries of the text, from slot 0 on, and the mask has that many ones |
| `SlotInfo.OnesGrow` | lib-lightset/src/dmxslotinfo.cpp:91 | Adding bit i to a mask of i ones gives a mask of i + 1 ones |
| `SlotInfo.WithBitHas` | lib-lightset/src/dmxslotinfo.cpp:91 | Setting a bit of the mask sets that bit and no other |
| `SlotInfo.PutsSelected` | lib-lightset/src/dmxslotinfo.cpp:115-131 | Printing goes through the selected slots in order, each with a comma behind it |
| `SlotInfo.PrintedParses` | lib-lightset/src/dmxslotinfo.cpp:71-139 | Reading back what was printed gives the selected slots, in order, from slot 0 on |
| `SlotInfo.RoundTripIff` | lib-lightset/src/dmxslotinfo.cpp:71-139 | The mask survives printing and reading back if and only if it selects a first few slots and no others; then so do the slots |
| `SlotInfo.PrintedLength` | lib-lightset/src/dmxslotinfo.cpp:115-136 | The text of k slots has 8k - 1 characters |
| `SlotInfo.DmxSlotInfo.constructor` | lib-lightset/src/dmxslotinfo.cpp:41-53 | Every slot begins as primary and undefined |
| `SlotInfo.DmxSlotInfo.Parse` | lib-lightset/src/dmxslotinfo.cpp:147-210 | The two loops recognise exactly the entries of the grammar, from any position, in either letter case |
| `SlotInfo.DmxSlotInfo.FromString` | lib-lightset/src/dmxslotinfo.cpp:71-96 | Stores the entries up to the first invalid one; the mask is 2^k - 1 for k of them; other slots are unchanged |
| `SlotInfo.DmxSlotInfo.PutSelected` | lib-lightset/src/dmxslotinfo.cpp:113-131 | The loop writes the entries of the selected slots, 8 characters each, from the beginning of the buffer on and wherever they end up, and nothing else |
| `SlotInfo.DmxSlotInfo.ToString` | lib-lightset/src/dmxslotinfo.cpp:98-139 | For every mask, what memory holds afterwards, in the buffer, in front of it and behind it |
| `SlotInfo.WrittenIsPrinted` | lib-lightset/src/dmxslotinfo.cpp:98-139 | If the mask is 0 or selects a slot, the buffer then begins with the printed text and its NUL |
| `SlotInfo.StaysInBufferIff` | lib-lightset/src/dmxslotinfo.cpp:98-139 | Printing changes nothing outside its buffer of 7 characters for each slot if and only if the mask is 0, or selects at least one slot and so few that 8 characters for each fit |
| `SlotInfo.OneSlotOverruns` | lib-lightset/src/dmxslotinfo.cpp:98-139 | With one slot selected out of one the NUL lands just behind the buffer |
| `SlotInfo.FourSlots` | lib-l6470dmx/src/modeparams.cpp:65-69 | With the four slots of the stepper modes, printing stays inside exactly for the mask 0 and for one to three selected slots |
| `SlotInfo.AssertionMissesIff` | lib-lightset/src/dmxslotinfo.cpp:136 | The closing assertion holds whenever printing stays inside, and lets through exactly the masks whose text is one character too long |
| `AddressHull.IsHullIsSmallest` | lib-lightset/src/lightsetchain.cpp:206-210 | An interval covers the hull if and only if it covers every member |
| `AddressHull.WidenedIsHullIff` | lib-lightset/src/lightsetchain.cpp:182-210 | Adding a member to a chain that is not empty keeps the pair of start and footprint the smallest interval around all members, in 16-bit arithmetic, if and only if the member ends within the 16 bits |
| `AddressHull.MovedBack` | lib-lightset/src/lightsetchain.cpp:115 | Moving an address and moving it back is nothing, whatever wraps |
| `AddressHull.MovedNested` | lib-lightset/src/lightsetchain.cpp:115-117 | Moving along with something that moves along is moving along with the outermost |
| `AddressHull.OffsetsKept` | lib-lightset/src/lightsetchain.cpp:113-118 | Two addresses moved together keep their offset |
| `AddressHull.HullMovesIff` | lib-lightset/src/lightsetchain.cpp:105-124 | When some spans move along and the others stay, the moved interval is the hull of what results if and only if those that move keep their start in the 16 bits, those that stay lie inside it already, and both of its ends are taken |
| `AddressHull.AllMoveIff` | lib-lightset/src/lightsetchain.cpp:105-124 | If all of them move, that is exactly that no start address leaves the 16 bits |
| `LightSets.MemberMovesIff` | lib-lightset/src/lightsetchain.cpp:113-118 | A member moves by what the chain moves by if and only if it accepts the address that takes; then its motors move by the same, and otherwise nothing of it changes |
| `LightSets.MemberMovesBackIff` | lib-lightset/src/lightsetchain.cpp:105-124 | Giving the chain its old address back restores a member and its motors if and only if it accepts both addresses or refuses both requests, whatever wrapped |
| `LightSets.FitsAfterIff` | lib-lightset/src/lightsetchain.cpp:182-210 | An interval goes on fitting if and only if the next slots end within the 16 bits and the first do not begin at 0xFFFF |
| `LightSets.ConfiguredFits` | lib-l6470dmx/src/sparkfundmx.cpp:255-264 | Configuring the next motor keeps the slots of the board the smallest interval around those of its motors |
| `LightSets.LightSet.constructor` | lib-lightset/include/lightset.h:206-215 | The slots each kind of light set begins with |
| `LightSets.LightSet.Configure` | lib-l6470dmx/src/sparkfundmx.cpp:234-264 | Adds the motor if its address and mode are acceptable and its board answers, keeping the smallest interval |
| `LightSets.LightSet.SetDmxStartAddress` | lib-tlc59711dmx/src/tlc59711dmx.cpp:231-241 | The board takes any address, moves every configured motor along and saves their addresses; a string of LEDs and a monitor take and save what fits the universe, the console monitor takes 1 only, the others nothing; a refusal changes nothing |
| `LightSets.LightSet.MoveMotors` | lib-l6470dmx/src/sparkfundmx.cpp:379-402 | Moves every configured motor along, saves exactly their new addresses and keeps the footprint |
| `LightSets.LightSet.GetSlotInfo` | lib-l6470dmx/src/sparkfundmx.cpp:404-430 | What a light set says about each of its slots: the board the first motor that occupies it and how far from the start of that motor it is, LEDs red, green, blue or white in turn, the others intensity or nothing; for the offset just behind the last slot the board finds no motor, while LEDs answer |
| `LightSets.MotorAnswerIs` | lib-l6470dmx/src/sparkfundmx.cpp:404-430 | The answer for an address names the first motor whose slots it is among and counts from the start of that motor, or says that it is among none |
| `LightSetChain.AllMovedIff` | lib-lightset/src/lightsetchain.cpp:113-118 | Every member moves with the chain if and only if each accepts its new address |
| `LightSetChain.MovedHullIff` | lib-lightset/src/lightsetchain.cpp:105-124 | The interval of the moved chain is the hull of its members if and only if those that accept stay in the 16 bits, those that refuse lie inside it already, and both of its ends are taken |
| `LightSetChain.MovesAsWholeIff` | lib-lightset/src/lightsetchain.cpp:105-124 | Every member keeps its place in the chain and the interval is the smallest around them if and only if each member accepts its new address and none leaves the 16 bits |
| `LightSetChain.MovesBackIff` | lib-lightset/src/lightsetchain.cpp:105-124 | Moving a chain and moving it back restores it if and only if every member accepts both addresses or refuses both requests |
| `LightSetChain.LedsStayBehind` | lib-lightset/src/lightsetchain.cpp:113-120 | The board at 1 to 4 with twelve slots of LEDs at 5, moved to 500: the LEDs refuse 504 and stay, the chain claims 500 to 515 and is no hull, although no address leaves the 16 bits |
| `LightSetChain.RefusalSurrounded` | lib-lightset/src/lightsetchain.cpp:113-120 | A member that refuses can still be inside the moved interval, which then is a hull although not every member has moved |
| `LightSetChain.LedsComeBackElsewhere` | lib-lightset/src/lightsetchain.cpp:113-120 | LEDs that refuse the way there but not the way back end up somewhere else |
| `LightSetChain.KeepsMembersIff` | lib-lightset/src/lightsetchain.cpp:183-201 | The next addition keeps the members there are if and only if the chain does not begin at 0xFFFF |
| `LightSetChain.FirstAtMarkIsLost` | lib-lightset/src/lightsetchain.cpp:180-201 | A first member at 0xFFFF is accepted, and gone when the second comes |
| `LightSetChain.AcceptedIff` | lib-lightset/src/lightsetchain.cpp:180 | A member is refused if and only if it begins at 0 or has at least 512 slots more than its start address; so every one inside the universe passes, and of those that end beyond it exactly the ones with 514 - start to 511 + start slots |
| `LightSetChain.LetsThroughIff` | lib-lightset/src/lightsetchain.cpp:180 | A start address admits a member that ends beyond the universe if and only if it is 2 or more |
| `LightSetChain.AddedIsLast` | lib-lightset/src/lightsetchain.cpp:183-201 | The new member comes behind those there are, and replaces them all if the chain begins at 0xFFFF |
| `LightSetChain.Chain.Add` | lib-lightset/src/lightsetchain.cpp:166-225 | Accepts a member, also one that is there already, if and only if there are fewer than 16, it does not begin at 0 and has at most 511 slots more than its start address; keeps the smallest interval around the members exactly under the stated condition |
| `LightSetChain.Chain.SetDmxStartAddress` | lib-lightset/src/lightsetchain.cpp:105-124 | Asks every member to move, one that is in the table several times once for each, drops their answers, and takes the address itself |
| `LightSetChain.MovesOnce` | lib-lightset/src/lightsetchain.cpp:113-118 | A member that is in the chain once is asked once |
| `LightSetChain.MovedTimesFar` | lib-lightset/src/lightsetchain.cpp:113-118 | One that is in it n times moves along once for each request it accepts |
| `LightSetChain.AcceptsAllIff` | lib-lightset/src/lightsetchain.cpp:113-118 | That is n times if and only if it takes every address on the way |
| `LightSetChain.AheadIsFar` | lib-lightset/src/lightsetchain.cpp:115 | Moving along n times is moving n times as far, up to whole turns |
| `LightSetChain.Chain.GetSlotInfo` | lib-lightset/src/lightsetchain.cpp:126-164 | Finds the first member, of whatever kind, that has an answer for the slot, and its answer, or none if no member has; the 16-bit offsets never mislead it, however long the chain |
| `SparkFunDmx.SparkFunDmx.SetDmxStartAddress` | lib-l6470dmx/src/sparkfundmx.cpp:379-402 | The board with its mode objects moves as the member of a chain does: each motor is readdressed by what the board moves by, and nothing else of it changes |
| `FileIndex.InnerStep` | lib-dmxserial/src/dmxserial.cpp:191-197 | Within a round: the prefix stays sorted, and the maximum of the whole table is in the slot before the round's own until that has been looked at, then in the round's own |
| `FileIndex.Sort` | lib-dmxserial/src/dmxserial.cpp:190-198 | The double full-range loop sorts ascending and permutes; the rest of the table is unchanged |
| `FileNames.CheckFileName` | lib-dmxserial/src/dmxserialstatic.cpp:46-103 | Accepts exactly the names with prefix, three digits up to 512 and suffix, and returns their number |
| `FileNames.NameOfNumber` | lib-dmxserial/src/dmxserialstatic.cpp:35-103 | A generated name is accepted and gives its number back |
| `FileNames.NumberOfName` | lib-dmxserial/src/dmxserialstatic.cpp:35-103 | An accepted name is the generated one of its number if and only if it is not chl000.txt |
| `DirectoryScan.Collect` | lib-dmxserial/src/dmxserial.cpp:166-187 | Collects the numbers of the accepted names in order, as many as the table holds |
| `DirectoryScan.ScanDirectory` | lib-dmxserial/src/dmxserial.cpp:148-204 | The table holds the accepted numbers sorted, -1 behind them, and the last slot is the greatest of them; with no file it is what lies in front of the table, and a directory that cannot be opened leaves it alone |
| `SerialSetup.ScannedIsValidIff` | lib-dmxserial/src/dmxserial.cpp:102-106 | The scanned channels meet the assertions of the output if and only if neither chl000.txt nor chl001.txt is in the directory |
| `SerialOutput.TurnsSendExpected` | lib-dmxserial/src/dmxserial.cpp:102-128 | One frame sends exactly what the reference asks for and leaves the values last seen remembered |
| `SerialOutput.RunSendsExpected` | lib-dmxserial/src/dmxserial.cpp:86-137 | Over any sequence of frames of any lengths exactly the non-empty strings of channels whose value differs from the last one seen are sent, ascending by channel within a frame |
| `SerialOutput.RepeatSendsNothing` | lib-dmxserial/src/dmxserial.cpp:99-129 | Repeating a frame sends nothing |
| `SerialOutput.DmxSerial.Update` | lib-dmxserial/src/dmxserial.cpp:99-129 | The loop sends and remembers what the specification of one frame says |
| `SerialOutput.CallsSendExpected` | lib-dmxserial/src/dmxserial.cpp:86-137 | Over frames that update at once, frames that are kept and synchronisations, in any order, what is sent is what the reference asks for the frames that the calls update from |
| `SerialOutput.UninitialisedIff` | lib-dmxserial/include/dmxserial.h:109-113 | Which frames are used depends on what the uninitialised memory held if and only if some synchronisation comes before the first kept frame |
| `SerialOutput.DmxSerial.SetData` | lib-dmxserial/src/dmxserial.cpp:86-97 | Updates at once or keeps the frame for the next synchronisation |
| `SerialOutput.DmxSerial.Sync` | lib-dmxserial/src/dmxserial.cpp:135-137 | Updates from the kept frame |
| `ChannelData.NumberRead` | lib-dmxserial/src/dmxserialchanneldata.cpp:152-179 | Digits followed by anything else are read as their value, or rejected if above 255, and the character behind them is skipped |
| `ChannelData.ListOutcomeIs` | lib-dmxserial/src/dmxserialchanneldata.cpp:147-184 | What a list of numbers leads to: rejection if one of the first 64 exceeds 255, with those before it stored, otherwise the bytes, with the length at most 63 |
| `ChannelData.LineRoundTrip` | lib-dmxserial/src/dmxserialchanneldata.cpp:125-184 | A printed line parses back to its value and its bytes, or is rejected exactly for a value above 255 or for an entry above 255, whatever is behind it in the buffer |
| `ChannelData.UnterminatedLine` | lib-dmxserial/src/dmxserialchanneldata.cpp:152-179 | A line without a newline is parsed as if nothing were behind its NUL, unless its last number is accepted: then the list goes on with what is there |
| `ChannelData.BehindNulIff` | lib-dmxserial/src/dmxserialchanneldata.cpp:152-179 | The outcome of a line does not depend on what is behind its NUL if and only if no accepted number ends at it |
| `ChannelData.PrintedRunsOnIff` | lib-dmxserial/src/dmxserialchanneldata.cpp:125-184 | A printed line that lacks its newline runs on if and only if it is not rejected and has fewer than 64 entries |
| `ChannelData.RunsOnExample` | lib-dmxserial/src/dmxserialchanneldata.cpp:113-184 | In a file of the lines 5 1,20 and 6 7 without a newline at its end the value 6 gets the bytes 7 and 20 |
| `ChannelData.LengthIsLastRecorded` | lib-dmxserial/src/dmxserialchanneldata.cpp:113-184 | After any lines the length of a value is the one that the last line that succeeded for it recorded |
| `ChannelData.BytesAreLastGiven` | lib-dmxserial/src/dmxserialchanneldata.cpp:113-184 | After any lines the bytes of a value are those that the last list for it, rejected or not, has stored |
| `ChannelData.FileRoundTrip` | lib-dmxserial/src/dmxserialchanneldata.cpp:60-184 | Writing and reading a whole file: of the lines printed from any entries of 1 to 63 bytes, each value gets exactly the bytes of its last entry and their number as the length, and a value without entry gets nothing |
| `ChannelData.FilledIff` | lib-dmxserial/src/dmxserialchanneldata.cpp:60-184 | After a file every recorded length lies within the bytes written to its buffer if and only if the last line parsed did not fail inside the list of a value for which an earlier line had recorded more numbers than it stored |
| `ChannelData.CutShortExample` | lib-dmxserial/src/dmxserialchanneldata.cpp:60-184 | The lines 5 1,2,3 and 5 1,300 leave one byte in the buffer of 5 under a length of 3 |
| `ChannelData.LengthsFitBuffer` | lib-dmxserial/src/dmxserialchanneldata.cpp:147-184 | No recorded length reaches beyond the 64 bytes of the buffer itself |
| `ChannelData.DmxSerialChannelData.Parse` | lib-dmxserial/src/dmxserialchanneldata.cpp:60-87 | Parses the lines of a file up to its end or the first that fails, and none behind it |
| `ChannelData.DmxSerialChannelData.GetNextLine` | lib-dmxserial/src/dmxserialchanneldata.cpp:113-123 | Takes the next line; one that does not begin with a digit changes nothing |
| `ChannelData.DmxSerialChannelData.ParseLine` | lib-dmxserial/src/dmxserialchanneldata.cpp:125-145 | Stores the numbers of the line under its value; a rejected list leaves the numbers before the bad one in a new buffer and every recorded length as it was |
| `ChannelData.DmxSerialChannelData.ParseSerialData` | lib-dmxserial/src/dmxserialchanneldata.cpp:147-184 | The loop computes the outcome of the list grammar, what it has stored when it fails included |
| `ChannelData.DmxSerialChannelData.GetData` | lib-dmxserial/src/dmxserialchanneldata.cpp:89-97 | Returns the buffer of a value and the length recorded for it, none for a value without a buffer |
| `HtpMerge.SourcesHoldLast` | lib-lightset/include/lightsetdata.h:107-145 | Each source buffer holds what that source last wrote to each slot |
| `HtpMerge.HighestIff` | lib-lightset/include/lightsetdata.h:107-190 | After any history of merges, clears and restores a slot shows the higher of what the sources last wrote if and only if nobody wrote to it or the last write to it left it so |
| `HtpMerge.HtpShowsHighest` | lib-lightset/include/lightsetdata.h:107-145 | With HTP merges only, of any lengths in any order, all 512 slots show the higher source |
| `HtpMerge.ShowsLastWrite` | lib-lightset/include/lightsetdata.h:107-190 | After any history a slot shows what the last write to it left: the byte of a merge by latest, the higher of the two sources after one by highest, zero after a clear, the restored value, or zero if there was none |
| `HtpMerge.LengthIsLastSet` | lib-lightset/include/lightsetdata.h:107-190 | After any history the length is that of the last merge, 512 after a clear, 0 after the length was cleared; restoring leaves it |
| `HtpMerge.OutputPort.MergeSourceA` | lib-lightset/include/lightsetdata.h:107-125 | The loop and the copies do what the specification of a merge says |
| `HtpMerge.OutputPort.MergeSourceB` | lib-lightset/include/lightsetdata.h:127-145 | The same for the other source |
| `HtpMerge.OutputPort.OutputClear` | lib-lightset/include/lightsetdata.h:161-168 | Zeroes the output and sets the full length, leaving the sources alone |
| `HtpMerge.OutputPort.Restore` | lib-lightset/include/lightsetdata.h:185-190 | Replaces the output, leaving the sources and the length alone |

## Left out

- Network, UDP, TFTP, Art-Net, E1.31 and RDM: input and output, or libraries that are not part of this model.
- Configuration files and the `Params` classes: repetitive copying of fields under a mask.
- Modes 0, 1, 2 and 6, and `Start` and `Stop` of modes 3 to 5, whose bodies are empty.
- Sensors, clocks, displays other than the LED matrix, and the hardware layer.
- Motor dynamics beyond the assumptions above.
- IEEE rounding: scales and speed conversions are over exact real numbers.
- Initialising and clearing the LED matrix: constants sent to all modules.
- The file and UDP commands of the serial output.
- ConfigStore.StoreDevice.Erase: a pending call may have erased any bytes, which covers sector by sector progress; the device's own bookkeeping between calls is not modelled.
- ConfigStore.StoreDevice.Write: likewise for a pending write.
- L6470Config.SetConfigField: stands for the five setters that differ in the field only; the repository writes the same three lines out for each.
- ChannelData.DmxSerialChannelData.ParseLine: the channel value is an unbounded number, so the overflow of a 32-bit one by more than nine digits is not modelled.
- Max7219Matrix.Max7219Matrix.constructor: the number of modules is that of the chain and at most 32, to which `Init` limits it.
