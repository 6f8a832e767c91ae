# Verification of the acquisition datapath

A Dafny model of the FPGA acquisition datapath and of the C code next to it, with
proofs of what each part is for. `dafny verify dfyconfig.toml` checks everything.

## How it is built

Each clocked module is a record of its registers and a function that gives the
registers after one clock edge, all right-hand sides reading the state before the
edge. Beside it stands a class that updates the same registers in place, as the
`always` blocks do; its step method is proved to produce that function's state. The
theorems are about runs of the function from reset under arbitrary inputs, and relate
the registers to references that know nothing of them:

- `PacketRing`, `Framing`, `RingInvariant`, `RingTheorems`: the store-and-forward
  packet ring against a framer that cuts the accepted words into frames and an
  unbounded stream of words. The output follows section 2.2.1 of the AMBA
  AXI4-Stream protocol specification (ARM IHI 0051A).
- `DmaReader`: the receive loop's header decoding and accounting, against the ring.
- `FramePacker`, `StreamPath`, `StreamFailures`: decimation, packing of sixteen channels
  into five words, and the packer feeding the ring; one- and two-channel words.
- `CaptureControl`, `Capture`, `Statistics`, `CaptureRun`, `CaptureTheorems`,
  `CaptureExceptions`, `CaptureFields`, `CaptureAnyInput`: trigger and region counters against a reference that counts
  samples; the integrator driven by them against sums over lists of samples.
- `ConversionPacing`, `WordAlignment`: the deserializer.
- `DelayTraining`, `DelaySequencer`: choice of the delay tap, error counters, loading.
- `Discovery`, `DiscoveryResponder`: the beacon codec and the responder.

## Conditions

The theorems carry these conditions. A lemma named beside a condition shows that the
code needs it; for the others that is not claimed.

- Ring: a word that opens a packet comes with num_samples >= 1 (needed:
  `SafeExactlyFromOne`). Resets may occur at any time; registers and RAM are arbitrary
  at power-up.
- Whole samples in packets: the sample after a full packet comes at least 9 clocks after
  the one before (needed, exactly: `NineClocksApart`; implied by any decimation:
  `DecimationSpaces`), a frame size that is a multiple of 5, valid samples at least 5
  clocks apart, enable and num_samples constant, and room for a packet.
- Integration, what a triggered cycle delivers: no two valid samples in consecutive
  clocks (as the header of subsystem_capture.sv says), R, size and ena_delay at least 1,
  settings constant, and ena_delay + start_delay + R * (size + 1) < 65536.
  `CaptureAnyInput` needs none of this.
- Word alignment: at least one low DCO slot before a burst beyond the one that carries
  its first two bits (needed: `TouchingBursts`).
- Spacing of replies (`RepliesApart`): uptime does not go back.

## Where code and documentation part

The model follows the code.

- A packet closed by enable falling between two words has a length field one too
  large (axi_stream_ts_data.sv:215); the consumer then counts one sample and eight
  bytes too many (`LengthsAgree`; a run: `GapHappens`).
- num_samples = 0 wraps to a limit of 65535 words and the packet runs over the RAM
  (`SafeExactlyFromOne`, with a run).
- The closing sample of every region but the last of a cycle is left out of that
  region's sums and of the window's, while samples_captured counts it: it reaches the
  accumulators in the clock in which init_mm is high.
- The label of the last packet of a cycle is 0 if the next trigger comes in the clock
  right after the cycle; with ena_delay = 1 and a sample in the following clock
  samples_captured of the next first region is one too high (`PacketsOfCycle`,
  `SamplesCaptured`; a run: `EarlyTriggerHappens`).
- Samples every 17 clocks of 250 MHz are 8 or 9 clocks of 125 MHz apart, and
  subsystem_capture.sv:3-4 speaks of about 8. In undecimated all-channel streaming the
  sample after a full packet needs 9: at 8 its first word is lost
  (`NineClocksApart`; a run: `EightClocksLose`).
- capture_control.v:25 calls 16'h1DC4 7500; it is 7620. The code's value is modelled.
- A conversion in the very first clock after reset is followed by a gap of 256 clocks
  whatever sample_rate is: conv_wait_time is still 0 and 0 - 1 is cut to eight bits
  (ltc2387_deserializer.sv:84-91; `ConversionSchedule`).
- adc_mux.sv:13-16 has no `else` between reset and load, so the reset never shows.
- A discovery request whose uptime is smaller than the last one counts as in time, since
  the difference is unsigned (`AnsweredExactly`).
- A discovery request that is due but does not match also restarts the 5-unit delay,
  since last_uptime is set before the fields are compared (discovery.c:57; for every
  device: `OtherRequestBlocks`).

## Model

| member | source | states |
|---|---|---|
| `PacketRing.Ring.Step` | hdl/src/axi_stream_ts_data.sv:57-293 | one clock of the whole module is `Next` of the old registers and RAM: every block reads the state before the edge, the RAM word read is the one before this edge's write |
| `PacketRing.WriteSide.Edge` | hdl/src/axi_stream_ts_data.sv:140-291 | the in-place updates of the write FSM give exactly the register values of `NextWriter` |
| `PacketRing.ReadSide.Edge` | hdl/src/axi_stream_ts_data.sv:82-125 | the in-place updates of the read side give exactly `NextReader` |
| `PacketRing.SpaceCheck.Edge` | hdl/src/axi_stream_ts_data.sv:127-138 | the two-register free-space check: `check` is computed from the `used` of the clock before |
| `RingTheorems.SentIsFramed` | hdl/src/axi_stream_ts_data.sv:76-291 | on every run the words transferred, then the word on the output, then the RAM from rd_pos on, are exactly the wire image (header, timestamp, data with one final TLAST, numbers 1, 2, 3, ...) of the published frames: nothing lost, duplicated, reordered or shown early |
| `RingTheorems.AcceptedIsFramed` | hdl/src/axi_stream_ts_data.sv:154-246 | the input words taken are exactly the data words of the frames plus those of the open frame, in order; frame k has number k + 1 mod 2^32, at least one word and at most max(2, min(num_samples, 8190)), exactly that many when it closed by count |
| `RingTheorems.NoOverwrite` | hdl/src/axi_stream_ts_data.sv:127-182 | the pending RAM write never hits an unread published word, and a packet only starts when a maximal packet fits beside all unread words, although the check is stale |
| `RingTheorems.CountersAreTrue` | hdl/src/axi_stream_ts_data.sv:64-69 | `in_pkts != out_pkts` exactly when a published packet is not fully sent; 16-bit `wr_start - rd_pos` is the true number of unread words, in 0..2^15 |
| `RingTheorems.OutputFlags` | hdl/src/axi_stream_ts_data.sv:82-123 | TFIRST exactly on the header, TLAST exactly on the last word, and `word_cnt` is 0 exactly there (1 for a frame closed by enable falling in a gap); without TVALID flags and data are zero |
| `RingTheorems.ReadyExactly` | hdl/src/axi_stream_ts_data.sv:142-278 | in_tready is high exactly while a packet is open or after an idle clock that saw room, and low after reset |
| `RingTheorems.OutputHeld` | hdl/src/axi_stream_ts_data.sv:96-114 | an offered output word, its flags and the position stay unchanged for any number of clocks without TREADY |
| `RingTheorems.Drains` | hdl/src/axi_stream_ts_data.sv:96-123 | with TREADY high every published word is out after at most two clocks per word, whatever is written meanwhile |
| `RingTheorems.ReadyAgain` | hdl/src/axi_stream_ts_data.sv:127-182 | three clocks after the unread words leave room for a packet, at the latest, an idle ring is ready |
| `RingTheorems.ReadyEventually` | hdl/src/axi_stream_ts_data.sv:96-182 | an idle ring with TREADY high on its output is ready within two clocks for every published word not yet sent, and three more |
| `RingTheorems.Preserved` | hdl/src/axi_stream_ts_data.sv:76-291 | every clock of any input (reset included) keeps the invariant that relates the modular registers and the RAM to the unbounded stream of frames |
| `RingTheorems.ZeroNeverCloses` | hdl/src/axi_stream_ts_data.sv:159-190 | a packet started with num_samples = 0 gets max_samples 65535 and no number of words closes it by count |
| `RingTheorems.EndlessWraps` | hdl/src/axi_stream_ts_data.sv:77-80 | such a packet reaches its own first RAM word again after 2^15 more words |
| `RingTheorems.SafeExactlyFromOne` | hdl/src/axi_stream_ts_data.sv:76-182 | with num_samples constant, every run from every power-up state keeps the unread words and the open packet's words in the RAM if and only if num_samples is not 0; the failing run starts at reset and overwrites its first word |
| `RingInvariant.WriterStep` | hdl/src/axi_stream_ts_data.sv:140-291 | one clock of the write FSM is one step of the reference framer, from every state in which they correspond |
| `RingInvariant.SpaceStep` | hdl/src/axi_stream_ts_data.sv:127-138 | the staleness of `used` and `space_check` is covered by ST_WR_LEN, ST_WR_TS, ST_WR_UPDATE and the first idle clock |
| `RingInvariant.PendingIsFree` | hdl/src/axi_stream_ts_data.sv:154-274 | a pending write lies behind every published word and less than one turn of the ring ahead of the reader |
| `RingInvariant.StreamStep` | hdl/src/axi_stream_ts_data.sv:76-80 | unread published words stay in the RAM; publishing appends one complete frame to them |
| `RingInvariant.BuildStep` | hdl/src/axi_stream_ts_data.sv:184-260 | the words of the packet being built are where the final image needs them, the last one re-written with TLAST when enable falls in a gap |
| `RingInvariant.CountersDoNotAlias` | hdl/src/axi_stream_ts_data.sv:68-83 | two packet counts in reach of each other agree modulo 2^15 only if they are equal, since a packet takes at least 3 of 2^15 words |
| `DmaReader.Counters.Receive` | sw/linux/project-spec/meta-user/recipes-apps/moller/files/src/task_dma.c:142-205 | one pass of the receive loop updates every counter as `Count` says |
| `DmaReader.LengthsAgree` | sw/linux/project-spec/meta-user/recipes-apps/moller/files/src/task_dma.c:146-168 | id 0xDD, packet number and lengths come out of the header; bytes and samples are those of the frame if and only if it was not closed by enable falling in a gap, otherwise both are one word too high |
| `DmaReader.GapHappens` | hdl/src/axi_stream_ts_data.sv:207-216 | a good run from any power-up state makes a frame of one word whose header counts two |
| `DmaReader.TotalsAgree` | sw/linux/project-spec/meta-user/recipes-apps/moller/files/src/task_dma.c:140-205 | for any sequence of transfers - ADC packets, averages, other packets, timeouts, errors in any order - every counter is the number of its kind, and samples, bytes and ADC packets are those of the frames that arrived, modulo 2^32, plus one word per gap-closed frame |
| `DmaReader.RunTotals` | sw/linux/project-spec/meta-user/recipes-apps/moller/files/src/task_dma.c:140-205 | the same on every run of the ring, when the ADC packets received are those sent out completely: bytes against the words sent, samples against the input words accepted |
| `FramePacker.PackerRegs.Step` | hdl/src/subsystem_stream.sv:70-129 | one clock of decimator, data register and packing in all three modes gives exactly `NextPacker` |
| `FramePacker.Mux.Step` | hdl/src/adc_mux.sv:12-18 | the multiplexer register takes the selected channel in every clock, reset or not |
| `FramePacker.ScaledDivIsFloat` | hdl/src/subsystem_stream.sv:29-36 | rate_div is mantissa * 4^exponent |
| `FramePacker.DecimationIsExact` | hdl/src/subsystem_stream.sv:70-84 | for constant rate_div, from any registers once reset was high or enable low, with more such clocks at any time and any gaps between valid samples: the k-th valid sample since the last of them is streamed exactly when k mod (scaled_div + 1) = 0, and nothing else is |
| `FramePacker.RateTakesEffect` | hdl/src/subsystem_stream.sv:74-79 | with rate_div changing, the sample streamed after one under rate_div is the (scaled_div + 1)-th valid one, scaled_div as it was in that clock |
| `FramePacker.DataHeld` | hdl/src/subsystem_stream.sv:70-86 | in every mode, enabled or not: data_reg is the latest valid data, in_ts and stream_in_ts are the timestamps one and two clocks back |
| `FramePacker.HalfFields` | hdl/src/subsystem_stream.sv:112-126 | channel value, block, rate_div and select can be read back from each half of a one- or two-channel word |
| `FramePacker.TwoChannelWord` | hdl/src/subsystem_stream.sv:124-126 | different selects: a word for every clock that finds in_tvalid high and for no other; upper half mux_ch0, block, rate_div, ch0_sel, lower half mux_ch1, block, rate_div, ch1_sel, read back by division; the beat stays |
| `FramePacker.TwoChannelSamples` | hdl/src/subsystem_stream.sv:46-126 | with the multiplexers in place, each sample streamed gives one word one clock later: its values of the two selected channels, each tagged with its channel, under its timestamp |
| `FramePacker.BeatCounts` | hdl/src/subsystem_stream.sv:110-123 | with equal selects the beat counts the results modulo 16 |
| `FramePacker.ErrorWord` | hdl/src/subsystem_stream.sv:98-99 | a sample that comes before the words of the last are out is marked by 64 ones, a word no sample contains and no start mark |
| `FramePacker.PackFields` | hdl/src/subsystem_stream.sv:100-107 | where each of the sixteen channels and the block bits are in the five words |
| `FramePacker.SameChannelPairs` | hdl/src/subsystem_stream.sv:110-123 | with equal selects, from an even beat, the words are the selected channel's results paired up in order, none lost or repeated, whatever the gaps |
| `FramePacker.UnpackPack` | hdl/src/subsystem_stream.sv:86-109 | the five words carry all sixteen channels and the block bits |
| `FramePacker.StartMarks` | hdl/src/subsystem_stream.sv:100-107 | bits 63:62 are 10 exactly on the first word of a sample |
| `FramePacker.ParsePackAll` | hdl/src/subsystem_stream.sv:96-109 | parsing any packed stream gives the samples back |
| `FramePacker.ParseFromAnywhere` | hdl/src/subsystem_stream.sv:96-109 | on packed samples with an incomplete one at the end, a parser that joins at any word recovers exactly the samples whose first word it sees |
| `StreamPath.SelfSynchronizes` | hdl/src/subsystem_stream.sv:68-109 | the words the packer registers show, whatever the ring does: from rest, with enable held and valid samples at least 5 clocks apart, they are the packing of the samples taken plus the beginning of the next, and a parser that joins at any word recovers every sample it sees in full |
| `StreamPath.WholeFrames` | hdl/src/subsystem_stream.sv:86-153 | while samples at packet ends are far enough apart, the j-th packet since the start is exactly the packing of the j-th group of samples, so that parsing gives them back, and its timestamp is that of the clock in which the group's first sample was valid |
| `StreamPath.NineClocksApart` | hdl/src/subsystem_stream.sv:96-153 | in any all-channel streaming with samples at least 5 clocks apart, the ring has taken every word shown if and only if every sample shown so far that follows a multiple of g others (g samples to a packet) came at least 9 clocks after the one before |
| `StreamFailures.EightClocksLose` | hdl/src/subsystem_stream.sv:96-153 | from any registers, after a reset and six idle clocks, two samples 8 clocks apart with one sample to a packet lose a word |
| `StreamPath.DecimationSpaces` | hdl/src/subsystem_stream.sv:29-84 | with any nonzero scaled_div, valid samples 5 clocks apart already satisfy that condition |
| `StreamPath.ComesToRest` | hdl/src/subsystem_stream.sv:88-109 | from any registers a reset and six clocks with enable low, in all-channel mode, lead to the state in which streaming starts |
| `CaptureControl.ControlRegs.Step` | hdl/src/capture_control.v:33-65 | the in-place update of the four counters gives exactly `NextControl` |
| `CaptureControl.Wires` | hdl/src/capture_control.v:37-43 | cycle_active, cap_start, cap_ena and all_end in terms of the reference cycle |
| `CaptureControl.ControlRefines` | hdl/src/capture_control.v:47-65 | the counters refine the reference cycle: trigger, skip ena_delay + start_delay samples, fill R regions of size + 1, return to idle; a trigger restarts the delay and is ignored while measuring |
| `CaptureTheorems.OneTrigger` | hdl/src/capture_control.v:37-65 | on the composed machines, after a trigger and with none while cycle_active is low: cycle_active is low for the first ena_delay + start_delay samples, high for the next R * (size + 1), then low with cycle_cnt = 0; the `captured` wire is high once per region, in the clock after its last sample, R times in all; the k-th packet is labelled k mod 16 |
| `CaptureFields.CycleStart` | hdl/src/capture_control.v:33-63 | from the inputs, test mode included: unless a region is being measured a cycle starts in exactly the clocks with a trigger and, in test mode, from every multiple of 7620 samples until the next sample; while measuring a trigger changes nothing |
| `CaptureFields.TestPosition` | hdl/src/capture_control.v:33-35 | in test mode tmp_cnt is the number of samples mod 7620, and shows 7620 in the one clock after each multiple |
| `Capture.Integrator.Step` | hdl/src/subsystem_capture.sv:63-178 | one clock updates the shared registers and all sixteen channels from the state before the edge |
| `Capture.Integrator.StepChannel` | hdl/src/subsystem_capture.sv:72-144 | the in-place update of one channel gives `NextChan` and leaves the other channels alone |
| `Capture.Integrator.StepShared` | hdl/src/subsystem_capture.sv:147-176 | started, samples_captured, cap_ts and pkt_counter, with start_reg, cap_reg and cap_cnt of lines 51-54, become those of `NextShared` |
| `CaptureRun.SystemStep` | hdl/src/subsystem_capture.sv:51-176 | one clock of both machines keeps the invariant that ties every accumulator to the lists of samples taken so far |
| `CaptureTheorems.PacketContents` | hdl/src/subsystem_capture.sv:87-142 | at the r-th packet of a cycle each channel's count, sum, sum of squares, their window versions and ch_misc are the true ones of the samples summed; nothing has wrapped |
| `CaptureFields.PacketTrigger` | hdl/src/subsystem_capture.sv:128 | in every packet the trigger bits of ch_misc of a channel that summed anything are the trigger input of the clock in which its last value was summed, recorded from the inputs |
| `CaptureFields.PacketNumber` | hdl/src/subsystem_capture.sv:51-154 | pkt_counter is the number of packets taken since reset, this one included, mod 2^64; cap_cnt counts them mod 2^16 from its power-up value |
| `CaptureAnyInput.SharedFromInputs` | hdl/src/subsystem_capture.sv:51-176 | whatever enable, start, samples and resets do: start_reg, started, cap_reg, samples_captured, cap_ts and pkt_counter are what the inputs since the reset say |
| `CaptureAnyInput.ChannelFromInputs` | hdl/src/subsystem_capture.sv:72-144 | likewise for any channel: region and window accumulators are the sums mod 2^64, ch_min and ch_max the extremes, of lists of values made from the inputs alone, samples in consecutive clocks included |
| `CaptureAnyInput.MiscFromInputs` | hdl/src/subsystem_capture.sv:126-128 | likewise ch_misc: trigger and extremes as of the latest value compared |
| `CaptureTheorems.PacketCounts` | hdl/src/subsystem_capture.sv:99-124 | with all channels valid a region sums size samples, the last one size + 1, and the window after r packets r * size, plus 1 at the last |
| `CaptureTheorems.WindowFields` | hdl/src/subsystem_capture.sv:117-124 | over every run from power-up: the window registers in a cap_reg clock equal the sum of what the region registers showed in the cap_reg clocks since the cycle's start edge, this one included |
| `CaptureTheorems.AccumulatorsAreTrue` | hdl/src/subsystem_capture.sv:87-142 | in every reachable state region and window accumulators are the true sums, sum^2 <= count * sumsq, abs(sum) <= 2^17 * count, sumsq <= 2^34 * count, and ch_min / ch_max are the extremes since the last start edge or capture |
| `CaptureTheorems.PacketsOfCycle` | hdl/src/subsystem_capture.sv:51-56 | a packet is taken exactly in the clock after `captured`; in the clock after the cycle's last sample (cycle_cnt = 0, R regions closed) a trigger makes its label 0, otherwise every packet is labelled with the regions closed since the start edge |
| `CaptureExceptions.SamplesCaptured` | hdl/src/subsystem_capture.sv:157-174 | over any triggers and samples from the clock after a cycle's last sample to the next cycle's first packet: samples_captured is size + 1, and size + 2 if and only if ena_delay is 1, a trigger came in that first clock and a sample in the next |
| `CaptureExceptions.SamplesAfterPowerUp` | hdl/src/subsystem_capture.sv:147-174 | the first packet after power-up has size + 1 |
| `CaptureExceptions.SamplesOfLaterPackets` | hdl/src/subsystem_capture.sv:157-174 | so has every packet of a cycle but the first |
| `CaptureExceptions.LastLabel` | hdl/src/capture_control.v:44-63 | in the clock after a cycle's last sample, a trigger in that clock decides the last label: 0 with it, R without |
| `CaptureExceptions.EarlyTriggerHappens` | hdl/src/capture_control.v:47-65 | from any power-up state a run of 13 clocks under a permitted setting shows both: label 0 instead of 1, and samples_captured = size + 2 |
| `CaptureExceptions.PacketStamp` | hdl/src/subsystem_capture.sv:157-174 | with nonzero timestamps, cap_ts of every packet with samples_captured = size + 1 is the timestamp of its region's first sample |
| `Statistics.CauchySchwarz` | hdl/src/subsystem_capture.sv:118-124 | sum^2 <= count * sum of squares for every list of values |
| `Statistics.Extremes` | hdl/src/subsystem_capture.sv:126-127 | what ch_min / ch_max fold up are members of the list and bound it |
| `Statistics.HoldsTrue` | hdl/src/subsystem_capture.sv:118-124 | below 2^29 samples the 64-bit two's-complement accumulators read as the true sums |
| `ConversionPacing.Pacer.Step` | hdl/src/ltc2387_deserializer.sv:78-110 | the in-place update of conversion and read-back clock registers gives exactly `Next` |
| `ConversionPacing.ConversionSchedule` | hdl/src/ltc2387_deserializer.sv:66-99 | on every run with resets at any time: a conversion starts exactly in the clocks with start high that lie max(17, sample_rate) or more behind every earlier one, sample_rate taken in the clock before that one (256 behind one in the first clock); adc_cnv and ready one clock later |
| `ConversionPacing.QuietAfterReset` | hdl/src/ltc2387_deserializer.sv:79-85 | adc_cnv and ready are low after a clock in reset or with the FIFO in reset |
| `ConversionPacing.ConversionsApart` | hdl/src/ltc2387_deserializer.sv:78-99 | for every start and sample_rate history conversions are at least 17 clocks apart |
| `ConversionPacing.FivePulses` | hdl/src/ltc2387_deserializer.sv:101-110 | each conversion has its own five read-back pulses, 18, 20, 22, 24 and 26 clocks after it, and there are no others, but for the rest of a burst that a FIFO reset interrupts, in the first ten clocks |
| `ConversionPacing.ResetEndsBurst` | hdl/src/ltc2387_deserializer.sv:102-110 | a reset also ends the burst: after it there are only the pulses of later conversions |
| `ConversionPacing.TimestampsPaired` | hdl/src/ltc2387_deserializer.sv:95-129 | the timestamps written to the FIFO are those of the conversions, in order, one each, 16 clocks later, before the next conversion can start |
| `WordAlignment.ChannelRegs.Step` | hdl/src/ltc2387_deserializer.sv:176-199 | the in-place update of shift registers, flag and data gives exactly `NextChannel` |
| `WordAlignment.EveryBurstOnce` | hdl/src/ltc2387_deserializer.sv:176-199 | any stream of bursts, each with its own gap and so its own phase, matches exactly one clock per burst and yields exactly the words sent, in order |
| `WordAlignment.OutputKeepsLast` | hdl/src/ltc2387_deserializer.sv:183-198 | over clocks with their own clear: the flag is up exactly when a window looked at since the last clear matched, and the data is the last such word, else all zeros |
| `WordAlignment.LastBurstShown` | hdl/src/ltc2387_deserializer.sv:176-199 | from a clear on, over any stream of bursts: the flag is up exactly when there was one, and the data is the word of the last |
| `WordAlignment.TouchingBursts` | hdl/src/ltc2387_deserializer.sv:188-191 | with no low slot between two bursts, from the second slot of the first on, one phase matches five times and the other never, so it loses the second word: the gap EveryBurstOnce asks for is needed |
| `DelayTraining.FindMidOfLongestRun` | sw/linux/project-spec/meta-user/recipes-apps/moller/files/src/task_cmd.c:175-210 | the result is the middle of the leftmost longest error-free run |
| `DelayTraining.LongestRunUnique` | sw/linux/project-spec/meta-user/recipes-apps/moller/files/src/task_cmd.c:183-206 | there is only one such run, so the result is determined |
| `DelayTraining.MidIsBest` | sw/linux/project-spec/meta-user/recipes-apps/moller/files/src/task_cmd.c:208-209 | the middle is a tap below 512, error-free if any tap is, and no tap has a larger symmetric error-free margin |
| `DelayTraining.AdcInit` | sw/linux/project-spec/meta-user/recipes-apps/moller/files/src/task_cmd.c:137-173 | for any hardware that answers reads: the accesses made are exactly those of the source, sleeps included, and every channel is given the middle of the longest run in the counts read for it |
| `DelayTraining.MeasureAll` | sw/linux/project-spec/meta-user/recipes-apps/moller/files/src/task_cmd.c:140-160 | 512 taps are tried in order on all channels, and row ch holds what channel ch's register answered after each |
| `DelayTraining.CounterRegs.Step` | hdl/src/subsystem_adc.sv:39-57 | the counter arrays become those of `NextCounters`, channel by channel |
| `DelayTraining.TapIsTried` | sw/linux/project-spec/meta-user/recipes-apps/moller/files/src/task_cmd.c:140-158 | of the accesses: when the counters of tap n are read, the last value written to each of the sixteen delays is n, and since then the counters were reset (0xD0000000) and released (0xC0000000) in test mode with 1000 us before, between and after |
| `DelayTraining.DelaysStay` | sw/linux/project-spec/meta-user/recipes-apps/moller/files/src/task_cmd.c:161-172 | at the end each delay was last written with the tap chosen for it, and the counters were reset and test mode left |
| `DelayTraining.CountersSaturate` | hdl/src/subsystem_adc.sv:41-53 | from any registers, with reset and mode of every clock their own: each counter is min(number of bad words since the last reset, 65535), with no reset yet on top of what it held |
| `DelayTraining.ZeroMeansClean` | hdl/src/subsystem_adc.sv:42-48 | after a reset, whatever came before: a counter reads 0 if and only if every word since the last reset was aligned, and in test mode was 0x330FC |
| `DelaySequencer.Sequencer.Step` | hdl/src/delay_reset_seq.sv:29-88 | the in-place update of the five-state machine gives exactly `Next` |
| `DelaySequencer.LoadsOnce` | hdl/src/delay_reset_seq.sv:50-84 | in IDLE the held value is the loaded one; it is constant through a load; every change has exactly one load pulse; `done` only when idle and loaded |
| `DelaySequencer.CountsDown` | hdl/src/delay_reset_seq.sv:40-84 | each clock with rdy high brings `done` one clock nearer, from every state |
| `DelaySequencer.WaitsForReady` | hdl/src/delay_reset_seq.sv:29-53 | after a reset, with more resets at any time: RESET is left in the clock in which rdy is first high, no load pulse and no `done` come before, EN_VTC is high until the clock after and low in every load |
| `DelaySequencer.LoadPulse` | hdl/src/delay_reset_seq.sv:50-84 | from idle with a new load_value: EN_VTC low and the value held throughout, LOAD high in the 23rd clock only, `done` back at the 45th |
| `DelaySequencer.DoneRises` | hdl/src/delay_reset_seq.sv:40-84 | from any reachable state with rdy high and load_value constant, `done` rises after an exact number of clocks, at most 88, with that value loaded, and stays |
| `Discovery.CreateBeaconInMem` | sw/linux/project-spec/meta-user/recipes-apps/moller/files/src/lib/discovery/discovery.c:142-196 | writes exactly the encoded beacon into the first 256 bytes and leaves the rest; a NULL or short buffer fails and is not touched |
| `Discovery.StrNCpy` | sw/linux/project-spec/meta-user/recipes-apps/moller/files/src/lib/discovery/discovery.c:180-192 | the string cut to the field, or padded with zeros, and nothing outside the field |
| `Discovery.PutNumber` | sw/linux/project-spec/meta-user/recipes-apps/moller/files/src/lib/discovery/discovery.c:152-177 | eight bytes, least significant first, behind what is already there |
| `Discovery.LeRoundTrip` | sw/linux/project-spec/meta-user/recipes-apps/moller/files/src/lib/discovery/discovery.c:115-125 | reading back the eight shifted bytes gives the number |
| `Discovery.BeaconRoundTrip` | sw/linux/project-spec/meta-user/recipes-apps/moller/files/src/lib/discovery/discovery.c:95-196 | decoding an encoded beacon or request, whatever follows it in the buffer, gives back the kind, the three numbers and each string cut to its field, NULL as empty |
| `Discovery.Accepted` | sw/linux/project-spec/meta-user/recipes-apps/moller/files/src/lib/discovery/discovery.c:95-112 | exactly the buffers of 256 bytes or more that begin with RQUEST01 or BEACON01, A-Z and a-z taken as equal, decode, the first kind as requests |
| `Discovery.EncodeSlices` | sw/linux/project-spec/meta-user/recipes-apps/moller/files/src/lib/discovery/discovery.c:142-196 | where the magic text, the three numbers and the four strings lie in the 256 bytes |
| `Discovery.LeBytes` | sw/linux/project-spec/meta-user/recipes-apps/moller/files/src/lib/discovery/discovery.c:152-177 | byte k of a number is its digit k to the base 256 |
| `DiscoveryResponder.Responder.constructor` | sw/linux/project-spec/meta-user/recipes-apps/moller/files/src/lib/discovery/discovery.c:6-14 | a new context holds the identity's beacon at uptime 0 |
| `DiscoveryResponder.Responder.ProcessRequest` | sw/linux/project-spec/meta-user/recipes-apps/moller/files/src/lib/discovery/discovery.c:24-93 | new context and reply are those of `Process`; NULL and short input change nothing |
| `DiscoveryResponder.SameNoCaseIsEquality` | sw/linux/project-spec/meta-user/recipes-apps/moller/files/src/lib/discovery/discovery.c:67-81 | strncasecmp on terminated fields is equality of the strings up to ASCII case |
| `DiscoveryResponder.MessageIsBeacon` | sw/linux/project-spec/meta-user/recipes-apps/moller/files/src/lib/discovery/discovery.c:83-92 | over any run the stored message is the identity's beacon with the uptime of the last reply |
| `DiscoveryResponder.RestNeverChanges` | sw/linux/project-spec/meta-user/recipes-apps/moller/files/src/lib/discovery/discovery.c:83-90 | over any run no byte of the message outside 8..15 changes |
| `DiscoveryResponder.RepliesDecode` | sw/linux/project-spec/meta-user/recipes-apps/moller/files/src/lib/discovery/discovery.c:83-92 | every reply of a run decodes to the original identity and the uptime at which it was sent |
| `DiscoveryResponder.RepliesApart` | sw/linux/project-spec/meta-user/recipes-apps/moller/files/src/lib/discovery/discovery.c:53-57 | with nondecreasing uptime any two replies are at least 5 apart |
| `DiscoveryResponder.AnsweredExactly` | sw/linux/project-spec/meta-user/recipes-apps/moller/files/src/lib/discovery/discovery.c:24-93 | after any run any datagram is answered if and only if it decodes to a request (256 bytes or more, RQUEST01 first), 5 has passed since the last request of the run that came in time, counted on a 64-bit clock, and every field that is not a wildcard matches, case aside |
| `DiscoveryResponder.EncodedRequestAnswered` | sw/linux/project-spec/meta-user/recipes-apps/moller/files/src/lib/discovery/discovery.c:16-93 | in particular a request made by the encoder for given fields, with NULL strings as wildcards, whatever follows it in the datagram |
| `DiscoveryResponder.OtherRequestBlocks` | sw/linux/project-spec/meta-user/recipes-apps/moller/files/src/lib/discovery/discovery.c:53-61 | for every device and uptime from 5 on, a request for another device is not answered but makes one that matches, less than 5 later, go unanswered |

## Left out

- max_pkt_len (axi_stream_ts_data.sv:72) is never driven; the model takes it as different from 3, so the single-word packet of lines 164-168 does not occur.
- The `default` branches of the state machines: the state registers only hold declared states.
- Module parameters have the values of the one instance of each module.
- simple_packetizer, frequency counter, register map and the 10 GbE path: their sources are not part of this model; a packet of the integrator is the set of register values in the cap_reg clock.
- The timestamp FIFO is the sequence of its writes; its read side with q_count, q_ts and q_valid (ltc2387_deserializer.sv:131-159), clock-domain crossing, IDDRE1 and metastability are not modelled.
- The delay primitive is the value it last loaded; delay ranges and times are not modelled.
- Settings of the integrator change only between runs.
- The hardware behind adc_init's register map: what a read answers is an arbitrary function of the accesses made before it.
- The "Max words exceeded" branch of task_dma.c:176-179 cannot be taken: a 16-bit length is below 4 MiB / 8. Publishing, status messages and printf are left out, and the counters that only they use.
- discovery.c: the checks for a NULL context; strncasecmp uses ASCII letters only. Sockets, the response list and the renamed copy under adoption are left out.
- trigger_source, subsystem_trigger, subsystem_timestamp, subsystem_led, task_sensor.c, task_tinode.c, moller.c, the DMA and sensor drivers, the peek and poke tools, and the ZeroMQ command loop of task_cmd.c.
