# Janus-UAE: verified models of its hardware cores

Janus-UAE emulates an Amiga. This Dafny project models those of its parts that are small machines which must agree with
something much simpler, whatever their surroundings do, and proves that they do: the blitter against a word-by-word
reference on every bus schedule, Paula's sound against the memory it plays, the Ethernet card's rings against the frames
that go through them, and so on. Every modelled operation that changes state in the program is a method that changes
state here, proved equal to a function; the laws are lemmas about these functions, over all inputs, runs and schedules.

| files | part of the program |
|---|---|
| `Bits.dfy` | fixed-width numbers, bits, arithmetic |
| `AreaFill.dfy`, `BarrelShifter.dfy`, `BlitterRows.dfy`, `BlitterMeaning.dfy` | what the blitter computes: fill, shifter, rows, words |
| `BlitterModel.dfy`, `BlitterPipe.dfy`, `PipeRefines.dfy`, `PipeRuns.dfy`, `BusSlots.dfy`, `SourcelessBlits.dfy`, `BlitterAgreement.dfy`, `Blitter.dfy` | the two block blitters, and exactly when they agree |
| `LineModel.dfy`, `LineMachine.dfy` | line mode |
| `PaulaChannel.dfy`, `AudioEvents.dfy`, `AudioPlays.dfy`, `Paula.dfy` | Paula's channels, the event loop over them, and what a channel plays in it |
| `MacTranslation.dfy`, `DescriptorRing.dfy`, `LanceReceive.dfy`, `LanceTransmit.dfy`, `Lance.dfy` | the A2065 Ethernet card |
| `ChunkyToPlanar.dfy`, `ResponseChannel.dfy`, `SubcodeRing.dfy` | Akiko |
| `ScsiDma.dfy` | the A2091 DMA engine |
| `SyncWindows.dfy` | window order |
| `SignalQueue.dfy` | the socket library's signal queue |
| `Subchannel.dfy` | CD subchannel layouts |

`dafny verify dfyconfig.toml` verifies the whole project.

## Where the code does not do what it seems to

Each of these is a lemma with the exact condition or an example.

- The fast blit reloads the fill carry on every row, the cycle-exact one does not if D is the only channel. `WordsAgreeIff`
  and `MachinesAgree` say for which registers that shows, `DOnlyFillDisagrees` is an example.
- Without any channel the cycle-exact blit computes no word, so its zero flag stays set: `NoChannelBlit`, with the example
  `NoChannelDisagrees`.
- The fast loops take a pointer that is 0 for a channel that is off (`ZeroPointerDisagrees`).
- The replacement of a zero UDP checksum by 0xffff is decided on 32 bits and never happens (`StoredChecksum`), and there are
  datagrams that end up with a stored zero (`StoresZero`); RFC 768 reads it as "no checksum".
- A zero byte is always stored after a repaired datagram. If that is a byte of the client address, or one that the second
  translation goes by, a second translation does not undo the first (`IpTwice`, `PadLosesAddress`).
- A full subcode ring looks empty to its consumer: it is stuck, and the next call of the player discards all of it
  (`FullIsStuck`, `FullLosesAll`).
- A handler run that skips a cancelled base leaves its bits behind for the next signal (`CancelledBitsLinger`, `OnlyFreshBits`).
- The card clears only the ownership bit of a receive descriptor: an end mark the driver has left there cuts
  the frame short (`FetchedBack`, `StaleMarkLoses`).

## Assumptions on the surroundings

Chip memory is a word array addressed modulo its size. A bus schedule is any sequence of slots that are free, taken, or
without blitter DMA. Sound DMA slots come from any environment that serves a request before the word playing ends. SCSI
devices are arbitrary: any bytes, any stopping point. The CPU moves Akiko's receive limit and switches as it likes. The
host's window order stays put while it is being copied, its windows are distinct and on the screen, and a move has taken
effect by the next call. Ethernet buffers handed to the card are disjoint from each other and from the ring.

## Model

| member | source | states |
|---|---|---|
| `AreaFill.FillOneByte` | src/blitter.cpp:244-259 | one entry of the fill table: the eight bits filled one after the other, least significant first, and the carry out |
| `AreaFill.BuildFillTable` | src/blitter.cpp:236-262 | every byte, carry and mode has its serial fill in the table |
| `AreaFill.CarryIsParity` | src/blitter.cpp:236-262 | the carry is the parity of the edges seen so far |
| `AreaFill.InclusiveFillMeaning` | src/blitter.cpp:236-262 | inclusive fill sets the edges and what has an odd number of edges before it |
| `AreaFill.ExclusiveFillMeaning` | src/blitter.cpp:236-262 | exclusive fill is a running XOR |
| `AreaFill.ExclusiveFillInvertible` | src/blitter.cpp:236-262 | exclusive fill has an inverse, on both sides |
| `AreaFill.WordFillIsSerial` | src/blitter.cpp:936-945 | two table lookups, the carry passed from the low byte to the high one, are one serial fill of the 16 bits |
| `AreaFill.RowFillIsSerial` | src/blitter.cpp:481-516 | a row of any width filled by lookups, the carry threaded through, is one serial fill of the row |
| `AreaFill.ExclusiveRowFillInjective` | src/blitter.cpp:481-516 | no two rows have the same exclusive fill |
| `BlitterMeaning.ShiftedBit` | src/blitter.cpp:926-934 | the barrel shifter moves each bit by the shift, down or up, and lets in bits of the word before |
| `BlitterMeaning.MaskedBit` | src/blitter.cpp:926-929 | first-word and last-word masks apply at the ends of a row, both in a row of one word |
| `BlitterMeaning.WordBit` | src/blitter.cpp:919-936 | without fill, each bit of a word is the minterm bit that the A, B and C bits select |
| `BlitterMeaning.HeldB` | src/blitter.cpp:1011-1024 | B words go through the shifter unmasked; with the channel off the hold register stays |
| `BlitterMeaning.SourcesRead` | src/blitter.cpp:1005-1031 | which word of memory each source reads for word k, in closed form: two bytes a word, the modulo for each full row, either direction; a channel that is off leaves its register alone |
| `BlitterMeaning.DecodeMeans` | src/blitter.cpp:1271-1403 | the control registers bit by bit |
| `BlitterMeaning.LineDecodeMeans` | src/blitter.cpp:1448-1468 | the same for lines |
| `BlitterMeaning.ZeroFlag` | src/blitter.cpp:947-951 | the zero flag stays set exactly if every word of the blit is zero |
| `BlitterMeaning.StoredWords` | src/blitter.cpp:444-542 | every place in memory ends up with the last word stored there, overlaps included; the rest is untouched |
| `BarrelShifter.AscendingDivides` | src/blitter.cpp:476-500 | ascending, the shifted words of a stream are the floor of the stream divided by 2^shift |
| `BarrelShifter.DescendingMultiplies` | src/blitter.cpp:575-599 | descending, they are the stream times 2^shift modulo 2^(16n) |
| `BarrelShifter.HeldIsStream` | src/blitter.cpp:930-934 | the words the A channel hands to the minterms are the shifted stream of the masked A words of the whole blit |
| `BarrelShifter.BlitShiftsAsInteger` | src/blitter.cpp:476-500 | over a whole blit of either direction that is one division, or one multiplication, of one big integer |
| `BlitterRows.WordFromStream` | src/blitter.cpp:919-952 | every word of a blit is the minterm of the shifted A stream, B and C, filled or not |
| `BlitterRows.RowSoFar` | src/blitter.cpp:936-945 | the stored words of a row so far are the fill of the words before the fill, and so is the carry |
| `BlitterRows.RowsAreFilledSerially` | src/blitter.cpp:481-516 | every row a filling blit stores is one serial fill of the row of minterm results |
| `FastRefines.FastIsReference` | src/blitter.cpp:444-641 | the two row and word loops compute the reference blit (addresses in closed form, word by word), when no pointer they run over is 0 |
| `PipeRefines.DiagramFacts` | src/blitter.cpp:100-150 | in every diagram each enabled source comes once and D after all sources |
| `PipeRuns.TickKeeps` | src/blitter.cpp:1096-1231 | every bus slot keeps the invariant that ties the machine to a stage of the reference blit, and a free slot brings it nearer its end |
| `PipeRuns.RunKeeps` | src/blitter.cpp:1096-1231 | the same over whole runs |
| `BusSlots.TakenSlot` | src/blitter.cpp:1137-1193 | in a slot that is not granted nothing is fetched, computed or stored and no pointer moves; before the last two cycles nothing happens at all; no blit with channels ends there |
| `BusSlots.LastIdle` | src/blitter.cpp:1147-1160 | the last idle cycle needs no grant, except in fills that store without reading C |
| `BusSlots.MovesAreGranted` | src/blitter.cpp:1137-1231 | over every run the blit moves at most as often as it is granted a slot |
| `BusSlots.NeverFree` | src/blitter.cpp:1137-1231 | on a bus that is never free a blit with channels changes nothing and does not end |
| `BusSlots.NeverBegins` | src/blitter.cpp:1137-1231 | nor does it even begin |
| `BusSlots.DiagramShape` | src/blitter.cpp:100-150 | all sixteen channel diagrams and the four longer ones for fills, from which channels are on |
| `BlitterAgreement.ExactComputesReference` | src/blitter.cpp:1096-1231 | under every bus schedule: a finished cycle-exact blit has computed the reference and raised the interrupt, enough free slots finish it, and it takes one for each channel cycle of each word and two to start |
| `BlitterAgreement.CopperWaits` | src/blitter.cpp:1139-1144 | a copper start costs exactly one slot |
| `BlitterAgreement.InterruptMeans` | src/blitter.cpp:1219-1224 | when the interrupt comes at most the very last store is still missing from the result |
| `SourcelessBlits.CarryIs` | src/blitter.cpp:954-991 | the fill carry at every word of a blit without source channels, with and without the reload, from the registers alone: with the reload it is the carry in and the parity of the edges before the word in its row, without it the parities of the rows before join in |
| `SourcelessBlits.CarryInvisible` | src/blitter.cpp:936-945 | another carry in gives another word, except in an inclusive fill of a word that is all ones |
| `SourcelessBlits.WordsAgreeIff` | src/blitter.cpp:954-991 | all words of such a blit come out the same without the reload if and only if there is no fill, or one row, or an inclusive fill of later rows that are all ones, or the first row has an even number of edges and so has, from three rows on, every later one |
| `SourcelessBlits.MemoryAgreesIff` | src/blitter.cpp:954-991 | memory comes out the same, however the words overlap, if and only if those that stay in memory do |
| `SourcelessBlits.ZeroFlagIff` | src/blitter.cpp:936-951 | the zero flag of such a blit, from the registers alone |
| `SourcelessBlits.ReloadIff` | src/blitter.cpp:954-991 | memory, zero flag, pointers and data registers come out the same if and only if the words that stay and the zero flag do |
| `SourcelessBlits.ReloadIffDistinct` | src/blitter.cpp:954-991 | where no two words share a place, if and only if all words do |
| `BlitterAgreement.MachinesAgree` | src/blitter.cpp:993-1056 | for every schedule with enough free slots the cycle-exact blit ends; it leaves the memory, pointers, zero flag and data registers the fast blit leaves, overlapping areas included, if and only if it has a source channel or the registers of a D-only blit meet the condition above |
| `BlitterAgreement.AgreeableCases` | src/blitter.cpp:993-1056 | that condition holds with source channels, without fill and with one row; for distinct places it is the condition on all words |
| `BlitterAgreement.FairBlitsAgree` | src/blitter.cpp:1096-1231 | on every endless schedule that is free infinitely often the blit ends, and agrees under the same condition |
| `BlitterAgreement.NoChannelBlit` | src/blitter.cpp:1137-1231 | with no channel enabled the two agree if and only if every word the constant registers give, filled as they say, is zero |
| `BlitterAgreement.DOnlyFillDisagrees` | src/blitter.cpp:954-991 | a D-only fill of two rows on which the two machines differ under every schedule |
| `BlitterAgreement.NoChannelDisagrees` | src/blitter.cpp:1137-1231 | a blit without channels on which their zero flags differ |
| `BlitterAgreement.ZeroPointerDisagrees` | src/blitter.cpp:481-497 | a copy from address 0: the fast loops take the pointer for a channel that is off, and memory differs |
| `Blitter.Chip.BltSet` | src/blitter.cpp:1271-1403 | decoding the control registers; source count and D flag agree with the diagram |
| `Blitter.Chip.StartInit` | src/blitter.cpp:1448-1468 | the state a blit starts in, with what an earlier blit left in the pipeline and in the fetch counter |
| `Blitter.Chip.Doblit` | src/blitter.cpp:919-952 | one word computed in place |
| `Blitter.Chip.DoDma` | src/blitter.cpp:993-1056 | one fetch; the last of a word computes it and moves the counters on |
| `Blitter.Chip.DoDDma` | src/blitter.cpp:954-991 | one store, from the pipeline or computed on the spot |
| `Blitter.Chip.OneSlot` | src/blitter.cpp:1137-1231 | one bus slot, whatever it offers: the step of the machine the slot laws are about |
| `Blitter.Chip.DecideBlitter` | src/blitter.cpp:1096-1231 | slot after slot: the run of the machine; without a free slot memory, registers and pointers stay |
| `Blitter.Chip.FastOneWord` | src/blitter.cpp:470-530 | the body of the word loop |
| `Blitter.Chip.DoFast` | src/blitter.cpp:444-641 | both fast loops in place, pointer registers advanced beforehand |
| `Blitter.Chip.ImmediateBlit` | src/blitter.cpp:848-874 | an immediate blit is the fast one, and leaves the reference result where the pointers avoid 0 |
| `Blitter.Chip.ExactBlit` | src/blitter.cpp:1448-1611 | a cycle-exact blit over any slots: what it leaves when done, how many free slots are enough and how many it takes, that the interrupt has come and the fetch counter is back at 0, and exactly when this is what the fast one would leave |
| `LineDraw.MinorBounds` | src/blitter.cpp:709-744 | the closed form of the minor coordinate is within half a pixel of the exact line |
| `LineDraw.NearestPixel` | src/blitter.cpp:709-744 | 2*|dmaj*m - dmin*k| <= dmaj after k steps |
| `LineDraw.MinorStep` | src/blitter.cpp:709-744 | the sign of the error register decides the next minor move, and the register stays within 16 bits |
| `LineDraw.MoveEncodes` | src/blitter.cpp:670-696 | pointer and shift keep encoding the point, in all four directions |
| `LineDraw.PenPutsBit` | src/blit.h:408 | minterm 0xCA with a one-bit pen replaces one bit of the word |
| `LineDraw.StaysOnLine` | src/blitter.cpp:698-752 | after every number of steps: position, error, texture and memory are those of the line so far |
| `LineDraw.LineIsNearest` | src/blitter.cpp:848-866 | line mode plots the nearest points of the line, textured, and changes nothing else; the pointers rest on the point after the last |
| `LineDraw.LineFlag` | src/blitter.cpp:655-668 | after every number of pixels the zero flag is set exactly if it was set and no pixel drawn was due a word other than zero |
| `LineDraw.LineFlagMeans` | src/blitter.cpp:848-866 | for a line of nearest points: exactly if the word of every point drawn is zero once it is drawn |
| `LineDraw.RotateBits` | src/blitter.cpp:747-752 | one step of the texture rotates it by one bit |
| `LineDraw.TextureCycles` | src/blitter.cpp:747-752 | the texture repeats after 16 points |
| `LinePipe.LineMachinesAgree` | src/blitter.cpp:760-846 | the cycle-exact line is the immediate line under every bus schedule; enough free slots finish it, and it takes two to start and four for each pixel |
| `BusSlots.LineTakenSlot` | src/blitter.cpp:767-791 | in a slot that is not granted a line reads, steps and writes nothing |
| `BusSlots.LineNeverFree` | src/blitter.cpp:760-846 | on a bus that is never free it stays where it is |
| `BlitterMeaning.TextureBit` | src/blitter.cpp:1463 | bit i of the texture is bit (i + shift) mod 16 of the data register |
| `LineBlitter.Chip.Proc` | src/blitter.cpp:709-744 | error, minor move, major move, sign |
| `LineBlitter.Chip.ActuallyDoLine` | src/blitter.cpp:848-866 | the immediate line in place, with the zero flag it leaves; where the registers are set up for a slope, it is the plot of the nearest points |
| `LineBlitter.Chip.DecideLine` | src/blitter.cpp:760-846 | the cycle-exact line, slot after slot |
| `LineBlitter.Chip.ExactLine` | src/blitter.cpp:760-846 | a cycle-exact line from its start: what it leaves, its zero flag, and when |
| `PaulaPlays.LeftNext` | src/audio.cpp:2007-2021 | the word counter while word j plays, in closed form, steps as AUDxDAT makes it |
| `PaulaPlays.AddressNext` | src/audio.cpp:2036-2045 | the pointer runs through the block and is reloaded after its last word |
| `PaulaPlays.Started` | src/audio.cpp:1441-1454 | a channel switched on while idle waits for its first word |
| `PaulaPlays.PassKeeps` | src/audio.cpp:1526-1590 | the end of a period keeps the invariant: low byte, then next word |
| `PaulaPlays.CollectKeeps` | src/audio.cpp:1278-1290 | sampling the request lines keeps it |
| `PaulaPlays.SlotKeeps` | src/custom.cpp:7708-7730 | a DMA slot keeps it: the first word is thrown away, the next starts the sound, later ones wait |
| `PaulaPlays.NudgeKeeps` | src/audio.cpp:1609-1619 | running the state machine for another reason keeps it |
| `PaulaPlays.PlaysMemory` | src/audio.cpp:1439-1592 | over every run that serves fetches in time: byte i of the sound is the high or low byte of memory[lc + 2*((i/2) mod L)], held for exactly one period; interrupts come at the start and with the last word of each block |
| `PaulaPlays.InterruptCount` | src/audio.cpp:1567-1573 | how many interrupts that makes: one more for every L words |
| `PaulaPlays.ProcessorWord` | src/audio.cpp:1463-1477 | a channel fed by the processor: both bytes of the word behind one interrupt, then silence or the next word |
| `PaulaPlays.WordWaits` | src/audio.cpp:2007-2021 | while the channel plays a word from the processor waits for its turn |
| `PaulaPlays.SwitchedOff` | src/audio.cpp:1456-1592 | DMA switched off: before the first byte the channel falls silent at the next step; while it plays it goes on to the end of its word and is then silent if an interrupt is pending |
| `PaulaPlays.IdleStays` | src/audio.cpp:1441-1454 | an idle channel with nothing to play stays idle |
| `Paula.AudioChannel.StateMachine` | src/audio.cpp:1396-1592 | the whole state machine, in place |
| `Paula.AudioChannel.WriteDat` | src/audio.cpp:1989-2030 | a word arrives: counter and block end while playing, a step of the machine otherwise |
| `AudioEvents.RoundKeeps` | src/audio.cpp:1903-1959 | after a round every event lies ahead again, so the loop ends |
| `AudioEvents.RoundInTwo` | src/audio.cpp:1881-1959 | a round taken in two parts is the round taken at once |
| `AudioEvents.SplitOnce` | src/audio.cpp:1866-1963 | two calls are one call for the sum of the times |
| `AudioEvents.SplitAnyhow` | src/audio.cpp:1866-1963 | any sequence of calls leaves the same channels, timed samples, interrupts and output instants as one |
| `AudioEvents.PumpTime` | src/audio.cpp:1866-1963 | time moves by the cycles given; the sample clock by one period for each output |
| `AudioEvents.OutputInstants` | src/audio.cpp:1891-1894 | outputs come at the integers nearest to the ticks of an exact real clock, none missing |
| `AudioEvents.NoOutput` | src/audio.cpp:1887-1894 | with the sound off no sample is output |
| `AudioPlays.RoundIsPass` | src/audio.cpp:1911-1959 | for a channel a round of update_audio is time passing up to the end of its period and through it |
| `AudioPlays.PumpIsPasses` | src/audio.cpp:1866-1963 | after update_audio each channel is where a run of its own would be after the same time |
| `AudioPlays.ServedIff` | src/audio.cpp:1866-1963 | without a fetch a channel plays on without a gap exactly as long as the words it has been given last |
| `AudioPlays.PumpPlaysOn` | src/audio.cpp:1866-1963 | a channel in the midst of its block plays on through update_audio for that long |
| `AudioPlays.ChannelsAreAlone` | src/audio.cpp:1866-1963 | over every mixture of calls and channel events each channel goes through its own history, whatever the others do |
| `AudioPlays.MixerPlaysMemory` | src/audio.cpp:1866-1963 | over every such run that serves its fetches in time, a channel plays its block of memory: bytes, periods and interrupts |
| `AudioPlays.OutputsHear` | src/audio.cpp:1926-1940 | every output sample holds the byte each channel was sounding when it was taken |
| `Paula.Mixer.NextEvent` | src/audio.cpp:1881-1900 | the minimum over channels, sample clock and time left |
| `Paula.Mixer.RoundedTime` | src/audio.cpp:1891-1894 | rounding by floor and remainder is rounding to the nearest |
| `Paula.Mixer.Take` | src/audio.cpp:1903-1959 | one round over all channels in place |
| `Paula.Mixer.UpdateAudio` | src/audio.cpp:1866-1963 | the loop, which ends, is the function that the laws on splitting, output and playing are about |
| `DescriptorRing.RingOf` | src/a2065.cpp:592-597 | address and length of a ring from its register: 1 to 128 descriptors |
| `LanceReceive.RoundMeans` | src/a2065.cpp:378-421 | one round fills one buffer, hands back its descriptor, and leaves the rest |
| `LanceReceive.ReceiveMeans` | src/a2065.cpp:366-426 | success: a contiguous segment of owned descriptors, each used once; the buffers concatenate to the frame; first and last marked, length in the last; OWN cleared on exactly these; nothing else written |
| `LanceReceive.ReceivedIff` | src/a2065.cpp:389-400 | a frame is received if and only if the buffers owned from the current one on have room for it, missed if and only if there is none |
| `LanceReceive.StopsAt` | src/a2065.cpp:378-426 | where the chip stands after a frame; if the buffers did not suffice, what it has filled and the marks on the descriptor where it stopped |
| `LanceReceive.NotSooner` | src/a2065.cpp:389-421 | a received frame has used no more buffers than it needed: all but the last have less room than the frame has bytes |
| `LanceReceive.FetchedBack` | src/a2065.cpp:401-421 | the driver, reading up to the end mark, gets the frame back if and only if it left no stale end mark before the last descriptor of the frame |
| `LanceReceive.StaleMarkLoses` | src/a2065.cpp:401-421 | a memory with a stale end mark, disjoint buffers and room enough, from which no frame of five bytes comes back |
| `LanceTransmit.ReleaseCounts` | src/a2065.cpp:488-500 | each round of the transmit loop clears one ownership bit, so it ends |
| `LanceTransmit.ChainMeans` | src/a2065.cpp:472-501 | a complete chain: owned descriptors up to the end mark, each used once and given back, their buffers concatenated in order |
| `LanceTransmit.CompleteIff` | src/a2065.cpp:472-501 | a chain is complete if and only if owned descriptors lead to an end mark |
| `LanceTransmit.TransmitMeans` | src/a2065.cpp:446-535 | when a frame goes out, what it is, and that it loses four bytes exactly with DTCR set and ADD_FCS clear in the first descriptor |
| `LanceTransmit.ChainBreaks` | src/a2065.cpp:472-501 | a chain that breaks off: what it took is given back, the descriptor it stopped at has the error marks, nothing else is written |
| `LanceTransmit.TransmitFails` | src/a2065.cpp:481-513 | a transmission that fails, for want of an owned descriptor or of 60 bytes: which descriptor is marked, and where the chip stands |
| `Lance.Incoming` | src/a2065.cpp:345-371 | what goes into the buffers is the translated frame and four checksum bytes |
| `Lance.AcceptsMeans` | src/a2065.cpp:288-331 | the filter case by case: broadcast, multicast, this station, other stations, short frames |
| `Lance.IncomingHeader` | src/a2065.cpp:357-371 | both header addresses reach the buffers exchanged, type and length as they came |
| `Lance.AddressedToCard` | src/a2065.cpp:309-357 | out of promiscuous mode a unicast frame that gets through carries the card's own address in the buffers |
| `Lance.StatusAfter` | src/a2065.cpp:386-424 | received, missed or receiver off, by the room in the buffers |
| `Lance.CrcMeans` | src/a2065.cpp:366-371 | the checksum goes behind the frame most significant byte first |
| `Lance.Card.GotFrame` | src/a2065.cpp:269-426 | a frame from the host: filtered as above, translated, scattered; nothing happens to others |
| `Lance.Card.Scatter` | src/a2065.cpp:366-426 | the receive loop in place, with status bits |
| `Lance.Card.FillOne` | src/a2065.cpp:401-421 | one descriptor in place |
| `Lance.Card.DoTransmit` | src/a2065.cpp:446-535 | transmit in place: memory, buffer, length, and TINT and TXON by how it went |
| `Lance.Card.Gather` | src/a2065.cpp:472-501 | the transmit loop in place; it ends |
| `Lance.Card.CheckTransmit` | src/a2065.cpp:537-545 | nothing happens while a frame waits or the transmitter is off, otherwise one transmission does |
| `Lance.Card.GetFrame` | src/a2065.cpp:428-444 | the host fetches the frame once, or loses it if it is too long |
| `OnesComplement.FoldKeeps` | src/a2065.cpp:244-245 | the folding loop keeps the value modulo 0xffff |
| `OnesComplement.ComplementCompletes` | src/a2065.cpp:244-250 | adding the complement of a folded sum makes it fold to 0xffff |
| `MacTranslation.Macs.FlipTwice` | src/a2065.cpp:177-188 | the exchange of the two addresses undoes itself |
| `MacTranslation.ArpTwice` | src/a2065.cpp:211-215 | translating ARP twice restores it |
| `MacTranslation.IpTwice` | src/a2065.cpp:216-255 | translating an IPv4 payload twice restores every byte outside checksum and pad byte if and only if the zero byte put after the datagram spoils neither the address nor what the second translation goes by; without a repair it restores everything |
| `MacTranslation.MungedTwice` | src/a2065.cpp:194-260 | the same for whole frames; all other frames are restored entirely |
| `MacTranslation.ArpMeans` | src/a2065.cpp:211-215 | both addresses of an ARP packet for Ethernet are exchanged, and nothing else |
| `MacTranslation.IpMeans` | src/a2065.cpp:216-255 | which IPv4 payloads change and in which bytes: client address, checksum, the byte after the datagram |
| `MacTranslation.MungedMeans` | src/a2065.cpp:194-260 | both header addresses of every frame of 20 bytes are exchanged; the payload goes by its type; shorter frames stay |
| `MacTranslation.ArpFrame` | src/a2065.cpp:194-215 | an ARP frame is translated in exactly four places |
| `MacTranslation.DhcpFrame` | src/a2065.cpp:216-229 | a DHCP frame in three |
| `MacTranslation.NoneStays` | src/a2065.cpp:177-188 | neither address stays where it has been exchanged |
| `MacTranslation.PadLosesAddress` | src/a2065.cpp:233-234 | datagrams whose pad byte lies in the client address are not restored |
| `MacTranslation.RepairedSum` | src/a2065.cpp:229-252 | after a repair pseudo-header and datagram sum to 0xffff (section 1 of RFC 1071) |
| `MacTranslation.StoredChecksum` | src/a2065.cpp:246-250 | the stored checksum is never 0xffff, and 0 exactly for sums divisible by 0xffff: the replacement of 0 never happens |
| `MacTranslation.StoresZero` | src/a2065.cpp:246-250 | for every pair of addresses a DHCP datagram whose repaired checksum is stored as 0 |
| `MacTranslation.DoFakeMac` | src/a2065.cpp:177-188 | one exchange in place, and whether it happened |
| `MacTranslation.FoldLoop` | src/a2065.cpp:244-245 | the folding loop ends with the fold |
| `MacTranslation.SumLoop` | src/a2065.cpp:235-237 | the summing loop, within 32 bits |
| `MacTranslation.Repair` | src/a2065.cpp:230-252 | the repair in place |
| `MacTranslation.MungePacket` | src/a2065.cpp:194-260 | the whole translation in place: the frame the address laws are about |
| `ChunkyToPlanar.ChunkyPlanes` | src/akiko.cpp:138-149 | the planes give the chunky longs back: the conversion is injective |
| `ChunkyToPlanar.PlanesChunky` | src/akiko.cpp:138-149 | and onto |
| `ChunkyToPlanar.Akiko.constructor` | src/akiko.cpp:151-163 | both tables hold what the optimised form relies on |
| `ChunkyToPlanar.Akiko.ConvertSimply` | src/akiko.cpp:138-149 | the plain 256-step loop computes the planes |
| `ChunkyToPlanar.Akiko.Convert` | src/akiko.cpp:165-203 | so does the table-driven form |
| `ChunkyToPlanar.Akiko.C2pWrite` | src/akiko.cpp:206-216 | a byte written: its lane, the slot, the positions |
| `ChunkyToPlanar.Akiko.C2pRead` | src/akiko.cpp:218-230 | a byte read: when it converts, which byte, the positions |
| `ChunkyToPlanar.Akiko.LongPut` | src/akiko.cpp:1621-1630 | four byte writes are one long write to the next slot |
| `ChunkyToPlanar.Akiko.LongGet` | src/akiko.cpp:1480-1491 | four byte reads are one long read of the next plane |
| `ChunkyToPlanar.WritesFill` | src/akiko.cpp:206-216 | eight long writes fill the eight slots in order |
| `ChunkyToPlanar.ReadsConvert` | src/akiko.cpp:218-230 | eight long reads give the planes in order |
| `ChunkyToPlanar.AfterAnyRead` | src/akiko.cpp:206-230 | whatever went before, after any read eight writes and eight reads convert those eight longs |
| `ResponseHistory.PacketSum` | src/akiko.cpp:663-674 | a response and its checksum sum to 0xff |
| `ResponseHistory.DeliveredInOrder` | src/akiko.cpp:646-695 | over every run of polls, limits, DMA switching and responses: each byte delivered once, in order, at consecutive places modulo 256 |
| `ResponseHistory.AcceptedArePackets` | src/akiko.cpp:627-636 | the bytes taken up are the packets of the responses offered while nothing was pending |
| `ResponseHistory.PollRespectsLimit` | src/akiko.cpp:681-691 | a poll never passes the limit, and raises the interrupt exactly when it meets it |
| `ResponseHistory.PollExhausts` | src/akiko.cpp:681-691 | with DMA on a poll goes on until nothing is pending or the limit is met; without, it moves nothing |
| `ResponseHistory.PacketCompletes` | src/akiko.cpp:681-694 | a packet goes through at once exactly when DMA is on and the limit leaves room |
| `ResponseChannel.Akiko.ReturnData` | src/akiko.cpp:646-695 | a poll in place: memory, index, interrupt, what is left |
| `ResponseChannel.Akiko.RunCommand` | src/akiko.cpp:913-984 | when a command is taken, that this raises the transmit interrupt, and how the command is judged |
| `ResponseChannel.Akiko.Internal` | src/akiko.cpp:1151-1162 | deliver first, then take and answer a command if the channel is free |
| `ResponseChannel.CommandTable` | src/akiko.cpp:625 | the length of every command |
| `ResponseChannel.CommandTaken` | src/akiko.cpp:913-984 | a well-formed command on the page is answered by the firmware, and the index moves past it |
| `ResponseChannel.DamageRefused` | src/akiko.cpp:962-1000 | a command damaged in any one byte after the first is refused with the checksum error |
| `ResponseChannel.UnknownRefused` | src/akiko.cpp:944-1000 | an unknown command is refused with the other error |
| `ResponseChannel.ZeroSkipped` | src/akiko.cpp:929-934 | a zero byte is skipped |
| `ResponseChannel.Akiko.Handler` | src/akiko.cpp:1101-1148 | reports of the drive wait for the channel; what is reported and the drive after it |
| `ResponseChannel.TableThrice` | src/akiko.cpp:742-760 | every entry of the table of contents goes out three times, in order, and nothing after the last |
| `ResponseChannel.ReportsOnce` | src/akiko.cpp:1101-1141 | a changed disk, the end of play and its failure are each reported once, in this order |
| `ResponseChannel.PlayStarts` | src/akiko.cpp:1117-1124 | play starts after exactly the lines it was put off by |
| `SubcodeRing.InOrder` | src/akiko.cpp:369-405 | over every run packets come out in the order they went in since the ring was last emptied |
| `SubcodeRing.LosesNothing` | src/akiko.cpp:382-403 | a call of the player loses nothing exactly when the ring is not full and all packets fit |
| `SubcodeRing.TakesWhatFits` | src/akiko.cpp:390-403 | of too many packets the ring takes the leading ones until it is full |
| `SubcodeRing.EveryPacketComes` | src/akiko.cpp:1188-1212 | a ring that is not full delivers a packet at every chance while the disc plays, and none while it does not |
| `SubcodeRing.FullIsStuck` | src/akiko.cpp:1190-1192 | a full ring delivers nothing until the player calls again |
| `SubcodeRing.FullLosesAll` | src/akiko.cpp:382-388 | and then all 36 packets are lost |
| `SubcodeRing.HalvesAlternate` | src/akiko.cpp:1193-1202 | two packets in a row never share a byte of the page |
| `SubcodeRing.Subcode.Subfunc` | src/akiko.cpp:369-405 | the producer in place; the in-use flags stay the cyclic interval between the indices |
| `SubcodeRing.Subcode.HsyncHandler` | src/akiko.cpp:1188-1212 | the consumer in place: which packet, which bytes of the page, when |
| `ScsiDma.Dmac.DmaCheck` | src/a2091.cpp:609-622 | address up; word count down on odd addresses; interrupt when it has run out |
| `ScsiDma.WordsRunOut` | src/a2091.cpp:609-622 | the word count after k bytes in closed form, and when it has run out |
| `ScsiDma.Dmac.CountByte` | src/a2091.cpp:707-757 | after every byte the three counters are those of the run so far, and the run stops exactly at its limit |
| `ScsiDma.Dmac.DmaIn` | src/a2091.cpp:707-728 | device to memory: how many bytes, where, and all counters |
| `ScsiDma.Dmac.DmaOut` | src/a2091.cpp:732-754 | memory to device: how many bytes, which, and all counters |
| `ScsiDma.WrittenMeans` | src/a2091.cpp:719-720 | byte i of a run is at the start address plus i, other addresses are untouched |
| `ScsiDma.KeptMeans` | src/a2091.cpp:721-722 | the 32-byte buffer keeps the leading bytes |
| `ScsiDma.FullTransfer` | src/a2091.cpp:545-553 | a run moves the full transfer count unless device or word count end it sooner, and never more; with a count of zero, one byte |
| `ScsiDma.TerminalCount` | src/a2091.cpp:609-622 | with terminal count, an even address and w words a run stops at exactly 2*w bytes with the interrupt, unless count or device end it sooner |
| `WindowOrder.MovedAt` | amiga/sync-windows.c:555 | what a move does to the order |
| `WindowOrder.MoveLengthens` | amiga/sync-windows.c:651-668 | a move of the first window out of place lengthens the matching front and keeps the windows |
| `WindowOrder.CallHelps` | amiga/sync-windows.c:506-563 | every call brings the order nearer, or an ignored move nearer its turn; at the goal nothing changes |
| `WindowOrder.Converges` | amiga/sync-windows.c:506-563 | the host order is reached within n + 99 calls and nothing moves afterwards |
| `WindowOrder.FreshConverges` | amiga/sync-windows.c:48-60 | without a remembered move, within n calls |
| `SyncWindows.Daemon.MoveWindowInFrontOf` | amiga/sync-windows.c:506-563 | the suppression of repeated moves in place |
| `SyncWindows.Daemon.SyncWindows` | amiga/sync-windows.c:577-670 | the walk over the linked layers asks for the move of the first window out of order |
| `SyncWindows.Daemon.WindowAhead` | amiga/sync-windows.c:653-664 | several layers of one window count once |
| `SignalHistory.SignalledIff` | src/bsdsocket.cpp:287-329 | the next run signals a base if and only if a request is neither cancelled nor handled since |
| `SignalHistory.OutstandingDelivered` | src/bsdsocket.cpp:287-329 | and delivers all bits of such a request |
| `SignalHistory.BitsSinceRun` | src/bsdsocket.cpp:287-329 | what the collected bits are made of |
| `SignalHistory.CancelledBitsLinger` | src/bsdsocket.cpp:349-354 | bits of a cancelled request come with the next signal |
| `SignalHistory.OnlyFreshBits` | src/bsdsocket.cpp:311-329 | exactly when a run leaves nothing behind |
| `SignalQueue.DeliveriesMean` | src/bsdsocket.cpp:318-325 | each queued base to be signalled gets one signal with all its bits |
| `SignalQueue.Queue.Add` | src/bsdsocket.cpp:287-306 | bits collected, base linked once; the list stays acyclic and exact |
| `SignalQueue.Queue.Cancel` | src/bsdsocket.cpp:349-354 | the base stays linked but is not signalled |
| `SignalQueue.Queue.Handler` | src/bsdsocket.cpp:309-330 | one run over the linked list: who is signalled, with what, and the queue empty after it |
| `Subchannel.DeinterleaveInterleave` | src/blkdev_cdimage.cpp:280-313 | interleaving, then de-interleaving gives the block back |
| `Subchannel.InterleaveDeinterleave` | src/blkdev_cdimage.cpp:280-313 | and the reverse |
| `Subchannel.SubToInterleaved` | src/blkdev_cdimage.cpp:280-296 | the interleaving loop |
| `Subchannel.SubToDeinterleaved` | src/blkdev_cdimage.cpp:297-313 | the de-interleaving loop |

## Left out

- LineDraw.LineIsNearest: for slopes whose error register stays within 16 bits, minterm 0xCA, a full first-word mask and BLTDPT starting where BLTCPT does, since the first pixel is stored through it.
- MacTranslation.RepairedSum: needs an IP header of at least 20 and a datagram of at least 8 bytes; with less the checksum would lie outside the words summed.
- MacTranslation.MungePacket: the length field of a datagram to be repaired must not reach beyond the 4000-byte buffer; the program does not check.
- LanceReceive.ReceiveMeans: frames of at most 4000 bytes with their checksum, the size of the program's own buffer.
- Lance.Card.DoTransmit: chains longer than the 4000-byte transmit buffer are excluded; the program does not check for them.
- BlitterAgreement.MachinesAgree: pointers that pass 0 at a word or row end are excluded, since the fast loops take 0 for "channel off" (`ZeroPointerDisagrees`).
- WindowOrder.Converges: windows closed between two calls are covered by the method only.
- Blitter: the specialised `blitfunc_dofast` routines (not part of this model), register writes during a blit, frozen and faulty modes, cycle statistics, the test for a line width of 2, which only the immediate path makes, and the B data register, which the descending loop overwrites with the C word (src/blitter.cpp:602).
- Blitter.Chip.ExactBlit: needs the fetch counter `blitter_cyclecounter` at 0, as the program starts with it and every finished blit leaves it; a blit broken off between two fetches is not followed up.
- Audio: filters, interpolation, the accumulators fed by `best_evtime / CYCLE_UNIT`, attached channels, the workarounds for fast processors, volume, CD and sound-board channels.
- Audio: the sample clock is a real number, not a float; register writes during a call of `update_audio`.
- A2065: host network driver, autoconfiguration, register file, interrupt line; the checksum is an arbitrary function of the frame.
- Akiko: sector counter and buffer mask behind the flag register, EEPROM, sector transfer, CD commands (their answers are arbitrary), byte and word order of C2P accesses other than full longs.
- Akiko: the subcode producer and consumer run one at a time; the consumer's first look at the indices outside the lock is not modelled.
- A2091: SCSI commands, the other DMA chips, status bits beside E_INT.
- Signal queue: `free_socketbase`, waiting, and everything to do with sockets; the lock makes each operation one step.
- Window order: Intuition locks, screen changes, the transport of the host's list.
- Subchannel: nothing but the two layouts.
- Save states, logging and debugging everywhere.
