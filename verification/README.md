# Verified model of the Bluetooth voice terminal

An STM32 board plays music from a phone, mixes in spoken replies, records speech while a button is held, exchanges
bytes over a Bluetooth serial port and draws text from a font in SPI flash. This project models the audio data path,
the state machines that control it, the font pipeline from the host scripts to the glyph lookup, and three driver
kernels, and proves what they promise.

The code is imperative, and so is the model: every context structure is a class whose methods update its fields
and arrays in place. Where a method's effect is more than a line, a specification function gives it a meaning on
values, the method is proved to compute that function on its whole state, and the promises are lemmas about the
function over all inputs and all runs. Concurrency is modelled in two ways. Where one lock or one interrupt-locked
section protects the state, each such section is one method and the class invariant is what holds between any two of
them, whatever the order (`SppLink`, `AvrcpQueue`, `PushToTalk`, `A2dpGate.A2dpSink`). Where several locks and the
render interrupt interleave, an explicit state machine has any number of threads, each at its own step
(`PlaybackSession`, and `A2dpGate.Gate` for the steps inside the gate's events and calls).

Calls into BTstack, the HAL, the file system and the flash chip appear as parameters that say which of them fail, or
as nondeterministic outcomes.

## Files

- `FixedPoint`, `Streams`: 16/32-bit ranges, shifts and divisions of C; step functions run along a stream.
- `FrameRing`, `MixArithmetic`, `MixSpec`, `AudioMixer`, `PlaybackSession`: the mixer, from ring indices to interleavings.
- `DriverModes`, `CodecDriver`, `PlaybackRamp`, `CapturePath`: the codec driver's mode machine, DMA fill and capture side.
- `VoiceChain`, `VoiceResponse`, `ReplyReassembly`, `RecordingFile`: microphone processing and what it lets through, reply
  decoding and the recording file.
- `SppLink`, `AvrcpQueue`, `A2dpGate`, `PushToTalk`, `Encoder`: the session protocols and the controls.
- `Crc32`, `Crc16`, `FontFormat`, `FontFlash`, `FontReader`: building, sending, flashing, verifying and reading the font.
- `UartDma`, `PwmTimer`: DMA byte accounting and the PWM unit conversion.

## What the code does not promise

The proofs turned up places where the code falls short of what one would expect; each is proved with an input that
shows it and with the exact condition under which the code does meet the expectation.

- A second `es8311_audio_start_capture` while capture runs, or a re-clocking under it, can leave `capture_running` set
  over a stopped DMA (`DriverModes.SecondCaptureStartBreaks`, `ReclockDuringCaptureBreaks`). `SafetyGuardIsExact` gives
  the guard a caller has to check. The application's calls satisfy it as long as capture is still off when the mixer
  configures the codec (`ApplicationRunsAreSafe`); the mixer checks that, but a call set up between its check and the
  configure defeats it (`CheckThenConfigureRaces`).
- Stopping capture first and playback second leaves the duplex DMA of a call running with nobody using it
  (`DriverModes.StopOrderMatters`, exact); `es8311_audio_set_run_mode` takes the other order.
- The media gate is lost in two windows: a close that comes while a stream-started event starts the source
  (`A2dpGate.CloseInsideStartIsLost`), and the end of a stream that comes while an opening starts it
  (`SuspendInsideOpeningIsLost`). `RunsHoldExactly` and `GateHoldsOutsideWindows` say when the gate holds.
- The transfer-complete interrupt of the newer UART driver reports a whole buffer when nothing is outstanding
  (`UartDma.SettledLapReportsABuffer`, `OverreportsExactly`, over runs `RunsOverreportExactly`), and the index arithmetic of the driver that is built
  is right only within a lap (`SimpleIdleMiscounts`, `SimpleDmaMiscounts`, `SimpleIdleIsExact`, `SimpleDmaIsExact`, over runs `SimpleRunsAreExact`).
- The noise gate never opens fully: rounding stops it at 32765 of 32768 (`VoiceChain.GateNeverFullyOpens`, with
  `GateRestPoints`). The high-pass leaves a constant input standing at an offset of -58 to 0 (`HighPassRestPoints`,
  `ConstantOffsetDiesOut`).
- A failed `rfcomm_send` also drops the follow-up request, so the transmit ring then waits for the next write
  (`SppLink.FailedSendStrandsTheRing`; `SppContext.FinishKick` says exactly when).
- `drv_pwm_get` multiplies in 32 bits; beyond that its result is off by more than a tick
  (`PwmTimer.HundredMillisecondsReadBackWrong`, `PeriodRoundTrip`, `PulseRoundTrip`).
- fontlib/README.md says that `font_app_init` checks the CRC; it checks magic, count and index only
  (`FontReader.BlankGlyphWithWrongCrc`, `InitIgnoresCrc`). Verifying first, as `font_update` and `font_info` do, makes up
  for it exactly (`InitVerified`).
- The length that the CRC covers is taken modulo 2^32 (`FontReader.CoveredLengthWraps`, `CoversWholePayload`); for counts
  that `font_app_init` accepts it is the whole payload.

## Model

| member | source | states |
|---|---|---|
| `FrameRing.Ring.WriteNewest` | applications/audio_mixer.c:423-489 | after a write the ring holds exactly the last `capacity` frames of old contents followed by the new frames |
| `FrameRing.Ring.DropOldest` | applications/audio_mixer.c:97-109 | forgets exactly the oldest frames, whatever the wrap |
| `FrameRing.Ring.Push` | applications/audio_mixer.c:450-487 | a stored frame becomes the newest one |
| `FrameRing.Ring.Pop` | applications/audio_mixer.c:580-593 | a taken frame is the oldest one and the rest keeps its order |
| `FrameRing.KeepLastConcat` | applications/audio_mixer.c:97-109 | dropping early and dropping late leave the same frames, so bursts may be split anywhere |
| `FrameRing.RunDeliversInOrder` | applications/audio_mixer.c:364-491 | after any history of writes and renders: what is held is the newest part of all offers, what was delivered is a subsequence in order, nothing repeated or invented |
| `FrameRing.OffersOnly` | applications/audio_mixer.c:364-491 | writes alone leave the last `capacity` frames of everything written |
| `MixArithmetic.EnvelopeConstants` | applications/audio_mixer.c:21-28 | the envelope steps are 5 ms and 250 ms of the mixer rate, rounded up |
| `MixArithmetic.GainTableIsMonotone` | applications/audio_mixer.c:30-52 | the volume table never gets quieter upwards, mutes only at 0 and is unity only from 127 |
| `MixArithmetic.DuckStaysInRange` | applications/audio_mixer.c:609-625 | the envelope stays in 0..32768 on every run |
| `MixArithmetic.DuckGainRange` | applications/audio_mixer.c:627-631 | the duck gain stays in 1638..32768 and meets its ends only at the ends of the envelope |
| `MixArithmetic.DuckGainMovesSlowly` | applications/audio_mixer.c:609-631 | one frame moves the gain by at most 142, in the direction of the overlap |
| `MixArithmetic.DuckRunClosedForm` | applications/audio_mixer.c:609-625 | n equal frames move the envelope by n steps, clamped at the end |
| `MixArithmetic.DuckSettles` | applications/audio_mixer.c:609-631 | after any history 220 voiced frames reach exactly 1638 (219 from rest do not) and 11025 unvoiced ones return to exactly 32768 |
| `MixArithmetic.MixNeverOverflows` | applications/audio_mixer.c:627-643 | no intermediate of the mix leaves 32 bits and the result is a 16-bit sample |
| `MixArithmetic.BackgroundTermIsMonotone` | applications/audio_mixer.c:627-638 | the background term keeps its sign, never exceeds its input, grows with volume and shrinks with duck |
| `MixArithmetic.VolumeEndpoints` | applications/audio_mixer.c:627-643 | volume 0 leaves the voice exactly; full volume without duck is the clamped sum |
| `MixArithmetic.SaturateIsClamp` | applications/audio_mixer.c:111-123 | saturation is the clamp to -32768..32767 |
| `MixArithmetic.GainsAreProducts` | applications/audio_mixer.c:627-638 | duck gain, effective gain and background term are the exact products of their factors, each rounded down by less than one unit |
| `MixArithmetic.TableFollowsTheCodec` | applications/audio_mixer.c:30-52 | from full volume downwards each setting is one or two half-decibel steps below the next, the steps of its DAC register 0x00..0xBF, within the rounding of the table |
| `MixSpec.RenderIsPointwise` | applications/audio_mixer.c:546-646 | output frame i is the mix of the i-th frames of both queues at the envelope of i+1 frames; only active, non-empty sources are consumed |
| `MixSpec.RenderSplits` | applications/audio_mixer.c:546-646 | rendering n+k frames is rendering n and then k |
| `MixSpec.ChannelsKeepTheirSides` | applications/audio_mixer.c:546-646 | output i is, on each side, that side of background frame i at the gain of its moment plus voice sample i, clamped to 16 bits |
| `MixSpec.MusicAlonePasses` | applications/audio_mixer.c:546-646 | music alone at full volume comes out exactly as it went in |
| `MixSpec.VoiceAlonePasses` | applications/audio_mixer.c:546-646 | a reply alone comes out exactly, on both sides, at any volume |
| `MixSpec.VoiceDucksMusic` | applications/audio_mixer.c:609-631 | over music a reply has ducked the music to 1638 after 220 frames; 11025 frames after its end the music is back at unity |
| `AudioMixer.Mixer.RenderStereo` | applications/audio_mixer.c:546-646 | the interrupt fills the interleaved buffer, left sample first, with exactly the specified mix of the ring contents, moves the state accordingly and touches nothing beyond |
| `AudioMixer.Mixer.RenderOne` | applications/audio_mixer.c:564-643 | one loop iteration is one step of the specification |
| `AudioMixer.Mixer.Write` | applications/audio_mixer.c:364-491 | an accepted write changes only its own ring, stores the newest frames of the interleaved input, and asks for the sink iff 3000 frames of active music or 1024 of an active reply are then held |
| `AudioMixer.Mixer.ReadyMeans` | applications/audio_mixer.c:130-141 | ready means 3000 held frames of active music or 1024 of an active reply |
| `AudioMixer.Mixer.AcceptedWrites` | applications/audio_mixer.c:364-422 | which writes are accepted: initialised, 44100 Hz, active source, one or two channels for music and one for a reply |
| `AudioMixer.FramesInterleave` | applications/audio_mixer.c:455-476 | frame i of a stereo input is its samples 2i and 2i+1, of a mono input sample i on both sides |
| `AudioMixer.SwitchingSources` | applications/audio_mixer.c:143-155 | switching a source on or off touches its own flag and queue alone, a running source keeps its frames, and the envelope is cleared with the last source |
| `AudioMixer.Mixer.Init` | applications/audio_mixer.c:157-191 | initialisation succeeds iff mutex and renderer registration do, and leaves silent empty sources at full volume |
| `AudioMixer.Mixer.SetBackgroundVolume` | applications/audio_mixer.c:321-346 | the setting is clamped and changes the background gain alone |
| `AudioMixer.Mixer.SourceStart` | applications/audio_mixer.c:193-254 | start is rejected without effect, or ends with the source active over a running sink, or rolled back to silence with the sink down |
| `AudioMixer.Mixer.RejectedStarts` | applications/audio_mixer.c:193-217 | which starts are rejected at once |
| `AudioMixer.Mixer.SourceStop` | applications/audio_mixer.c:256-282 | the source is emptied; the sink stops with the last source and otherwise is untouched |
| `AudioMixer.Mixer.StopAll` | applications/audio_mixer.c:284-303 | both sources and the sink are silenced |
| `AudioMixer.Mixer.Deactivate` | applications/audio_mixer.c:143-155 | rollback and stop empty one source and clear the envelope with the last |
| `AudioMixer.OpenSinkOutcome` | applications/audio_mixer.c:231-250 | opening the sink succeeds iff playback runs or re-clocking and codec do not fail, then with playback pending at 44100 Hz; otherwise nothing runs |
| `PlaybackSession.RunKeepsInvariant` | applications/audio_mixer.c:193-303 | the session invariant holds on every interleaving of writers, starters, stoppers and the render interrupt |
| `PlaybackSession.DmaStartsOnlyAtWatermark` | applications/audio_mixer.c:490-509 | in every interleaving playback DMA starts only while an active source is at its watermark |
| `PlaybackSession.DmaStartNeedsReadiness` | applications/es8311_audio.c:1094-1129 | the only step that starts it is the one after the readiness check under the mutex |
| `PlaybackSession.SinkHasSourceUnlessStopping` | applications/audio_mixer.c:219-282 | in every state of every run a running sink has an active source, except for the next step of a stop that has just silenced the last |
| `PlaybackSession.RunningSinkHasSource` | applications/audio_mixer.c:219-282 | whenever no session call is in progress a running sink has an active source |
| `PlaybackSession.SessionsAreExclusive` | applications/audio_mixer.c:211-253 | at most one thread is inside a session call |
| `PlaybackSession.StepKeepsInvariant` | applications/audio_mixer.c:193-303 | one step of any thread or of the interrupt keeps the invariant |
| `PlaybackSession.StartAlone` | applications/audio_mixer.c:193-254 | the steps of one start, taken without interference, activate the source and open the sink as the sequential call does, or roll back |
| `PlaybackSession.StopAlone` | applications/audio_mixer.c:256-303 | the steps of one stop are the silencing and, with the last source, the driver's stop |
| `PlaybackSession.NotifyAlone` | applications/audio_mixer.c:492-509 | the steps of one notification are the driver's, made iff a source is still ready; a DMA start takes exactly the 1024 frames of the two prefilled halves from the sources |
| `PlaybackSession.FilledIsRingLevel` | applications/audio_mixer.c:97-109 | the level arithmetic of the state machine is that of the real ring |
| `PlaybackSession.ReadyIsTheMixersReady` | applications/audio_mixer.c:130-141 | the readiness of the state machine is that of the mixer: 3000 active background or 1024 active voice frames |
| `PlaybackSession.WritesMatch` | applications/audio_mixer.c:423-490 | a write fills the counted queue as the ring is filled and asks for the sink iff the mixer would |
| `PlaybackSession.RenderDrains` | applications/audio_mixer.c:564-607 | a render drains the counted queues by what it consumes of the held ones |
| `PlaybackSession.SwitchesMatch` | applications/audio_mixer.c:143-155 | switching sources on and off in the state machine is what the mixer does |
| `PlaybackSession.InterruptRenders` | applications/es8311_audio.c:538-560 | with the mutex free the interrupt renders iff playback DMA runs with the mixer as renderer, and otherwise takes nothing |
| `PlaybackSession.ReadyWriterStartsPlayback` | applications/audio_mixer.c:492-509 | with the sink pending, a writer that finds a source ready starts the DMA or, if the DMA fails, gives playback up |
| `PlaybackSession.StartUnderCaptureAlone` | applications/audio_mixer.c:211-217 | a start that finds capture running changes nothing |
| `DriverModes.SetRunModeIsAllOrNothing` | applications/es8311_audio.c:923-1009 | a mode switch succeeds iff none of its hardware calls fails, then with the flags of the mode, an empty capture ring and the call rate for a call, 44100 Hz otherwise; else nothing runs and the DMA is stopped |
| `DriverModes.ReconfigureWhenQuiet` | applications/es8311_audio.c:445-536 | re-clocking an idle driver succeeds iff its calls do and starts nothing |
| `DriverModes.EnterModeWhenQuiet` | applications/es8311_audio.c:374-432 | entering a mode from rest is all or nothing |
| `DriverModes.RunsStayCoherent` | applications/es8311_audio.c:923-1216 | on every guarded run, whatever fails: capture implies duplex DMA, playback DMA implies playback running, not pending and no capture |
| `DriverModes.SafetyGuardIsExact` | applications/es8311_audio.c:1155-1194 | a call keeps flags and DMA coherent under every fault iff it is not a second capture start or a re-clocking during capture |
| `DriverModes.SecondCaptureStartBreaks` | applications/es8311_audio.c:1181-1188 | the input on which the second start breaks coherence |
| `DriverModes.ReclockDuringCaptureBreaks` | applications/es8311_audio.c:462-488 | the input on which re-clocking during capture breaks it |
| `DriverModes.ApplicationRunsAreSafe` | applications/es8311_audio.c:841-1216 | no run of the calls the application makes trips the guard, as long as every configure still finds capture off |
| `DriverModes.RunModeCallsAreSafe` | applications/es8311_audio.c:923-1009 | runs of mode switches and ready notifications alone always satisfy the guard |
| `DriverModes.CheckThenConfigureRaces` | applications/audio_mixer.c:213-241 | the interleaving in which a call is set up between the mixer's capture check and its configure, and the driver ends incoherent |
| `DriverModes.ReclockRestoresDma` | applications/es8311_audio.c:445-536 | re-clocking under load succeeds iff its own checks do, then with the DMA in the one mode the flags call for; a failure keeps the old rate on record; the flags never change |
| `DriverModes.SwitchIsIdempotent` | applications/es8311_audio.c:896-1009 | asking again for a mode that was reached touches nothing, whatever would fail |
| `DriverModes.CallRateTakesEffect` | applications/es8311_audio.c:862-877 | an accepted call rate is one of the two and is the rate of the next call, also over a running one |
| `DriverModes.RunsKeepCallRate` | applications/es8311_audio.c:862-877 | on every run the kept call rate is one a call can have |
| `DriverModes.OnlySettersSet` | applications/es8311_audio.c:841-1216 | call rate and renderer change only through their setters, the renderer only without playback |
| `DriverModes.RendererIsStableUnderPlayback` | applications/es8311_audio.c:1073-1092 | as long as playback keeps running its renderer stays the same, whatever is called |
| `DriverModes.NotifyStartsPending` | applications/es8311_audio.c:1094-1129 | a notification sets pending playback running or, if the DMA fails, gives it up; any other notification changes nothing |
| `DriverModes.StartsExcludeEachOther` | applications/es8311_audio.c:1011-1194 | playback takes over from capture, capture never from playback; what a start that succeeds has started |
| `DriverModes.ConfigureOutcome` | applications/es8311_audio.c:841-860 | configuring forgets the captured samples and on success leaves the rate asked for |
| `DriverModes.StopsKeepTheOtherSide` | applications/es8311_audio.c:1052-1216 | a stop of one side leaves the DMA that the other side uses |
| `DriverModes.StopOrderMatters` | applications/es8311_audio.c:1052-1216 | stopping playback, then capture always stops the DMA; the other order leaves it running iff it was a duplex DMA with playback |
| `DriverModes.UninitialisedIsInert` | applications/es8311_audio.c:841-1216 | before initialisation no call but the flush has any effect |
| `DriverModes.SafeCallKeepsCoherence` | applications/es8311_audio.c:841-1216 | each guarded call keeps coherence under every fault pattern |
| `CodecDriver.Es8311Audio.Init` | applications/es8311_audio.c:755-793 | a first init succeeds iff probe, clocking and DMA setup do, and leaves the driver idle |
| `CodecDriver.Es8311Audio.I2sReconfigure` | applications/es8311_audio.c:445-536 | the imperative re-clocking with its partial rollback; it succeeds iff its own checks do, then at the new rate, and keeps flags and DMA in agreement unless capture runs |
| `CodecDriver.Es8311Audio.StartCallDuplexNow` | applications/es8311_audio.c:374-432 | starting the call sets both flags only with the duplex DMA |
| `CodecDriver.Es8311Audio.SwitchRunMode` | applications/es8311_audio.c:923-1009 | the imperative switch is all or nothing: in the mode, at the call rate or at 44100 Hz, iff no hardware call it needs fails, else quiet; coherence is kept |
| `CodecDriver.Es8311Audio.StartPlaybackNow` | applications/es8311_audio.c:1011-1050 | start of playback, undone when the codec refuses; coherence is kept |
| `CodecDriver.Es8311Audio.StopPlaybackNow` | applications/es8311_audio.c:1052-1071 | stop clears the flags and only playback DMA |
| `CodecDriver.Es8311Audio.StartCaptureNow` | applications/es8311_audio.c:1155-1194 | start of capture, refused under playback; coherence is kept unless capture runs already |
| `CodecDriver.Es8311Audio.StopCaptureNow` | applications/es8311_audio.c:1196-1216 | stop leaves a duplex DMA that playback still needs |
| `CodecDriver.Es8311Audio.NotifyReady` | applications/es8311_audio.c:1094-1129 | the pending start is consumed once and undone on DMA failure; coherence is kept |
| `CodecDriver.Es8311Audio.ConfigureNow` | applications/es8311_audio.c:841-860 | configuration flushes capture, then re-clocks; coherence is kept unless capture runs |
| `CodecDriver.Es8311Audio.DmaInit` | applications/es8311_audio.c:246-307 | the DMA is initialised once |
| `PlaybackRamp.RampIsPointwise` | applications/es8311_audio.c:553-579 | frame k since DMA start is scaled by exactly k/1023 on both channels and later frames pass unchanged |
| `PlaybackRamp.RampRises` | applications/es8311_audio.c:553-579 | the ramp starts at silence, ends at unity and never falls, within 32 bits |
| `PlaybackRamp.RampIsContinuous` | applications/es8311_audio.c:538-594 | the ramp does not depend on how rendered frames are divided among fills |
| `PlaybackRamp.RampIsAFraction` | applications/es8311_audio.c:560-579 | a ramped sample keeps its sign and k/1023 of its magnitude, rounded down |
| `PlaybackRamp.TxFiller.StretchInterleaves` | applications/es8311_audio.c:560-579 | left and right samples alternate in the transmit buffer |
| `PlaybackRamp.TxFiller.FillTxRange` | applications/es8311_audio.c:538-594 | a fill leaves the ramped rendered frames followed by silence in its stretch and nothing else changed |
| `PlaybackRamp.TxFiller.Prefill` | applications/es8311_audio.c:309-338 | a DMA start restarts the ramp, and both prefilled halves hold the ramp of the rendered stream from its first frame on |
| `PlaybackRamp.TxFiller.RampRendered` | applications/es8311_audio.c:560-579 | the loop that stops at the end of the ramp equals the ramp of the whole stretch |
| `PlaybackRamp.TxFiller.PadSilence` | applications/es8311_audio.c:586-593 | every remaining sample of the stretch is zero |
| `CapturePath.CollectSlotStats` | applications/es8311_audio.c:141-175 | counts and extremes of one slot |
| `CapturePath.PickedSlotIsLive` | applications/es8311_audio.c:177-205 | whenever a slot carries audio the chosen one does |
| `CapturePath.LeftSlotComesFirst` | applications/es8311_audio.c:177-205 | the left slot is chosen whenever it carries audio, the right one when it alone does |
| `CapturePath.RightSlotExactly` | applications/es8311_audio.c:177-205 | the right slot is chosen iff the left alone is all at the rails, or, unless the right alone is, alone all silent |
| `CapturePath.SlotsAndRails` | applications/es8311_audio.c:141-175 | slot 0 is the left sample, slot 1 the right one, and the rails are -32768 and 32767 |
| `CapturePath.Capture.LockSlot` | applications/es8311_audio.c:612-648 | the slot is locked iff not every sample of both slots is at the rails |
| `CapturePath.Capture.WriteCaptureMono` | applications/es8311_audio.c:596-689 | every offered frame is stored in order from the one locked slot or counted as dropped |
| `CapturePath.Capture.StoreFrames` | applications/es8311_audio.c:650-688 | what fits is stored, the rest is counted |
| `CapturePath.Capture.ReadCapture` | applications/es8311_audio.c:1227-1255 | reads the oldest samples in order, as many as fit |
| `CapturePath.Capture.Flush` | applications/es8311_audio.c:1218-1225 | the accounts and the slot choice start afresh |
| `CapturePath.Capture.ReadMicPcm` | applications/bt_hfp_hf_app.c:120-158 | with captures coming at any point: returns consecutive samples after the stale part, zero-filled if short, and beside newcomers leaves at most one packet |
| `CapturePath.Capture.DropStale` | applications/bt_hfp_hf_app.c:127-147 | skips exactly the samples that were beyond two packets on entry, whatever arrives meanwhile |
| `CapturePath.ExpandMonoInPlace` | applications/bt_hfp_hf_app.c:76-107 | the backward in-place expansion overwrites no sample before it is copied |
| `VoiceChain.FiltersStayBounded` | applications/uart_send_pcm.c:54-169 | on any input the recursive filters stay within 3900000 and no 32-bit value overflows |
| `VoiceChain.GateStaysBounded` | applications/uart_send_pcm.c:172-229 | envelope and gain stay in 0..30000 and 3277..32768 and the gate only attenuates |
| `VoiceChain.LowPassBetween` | applications/uart_send_pcm.c:159-161 | the low-pass output lies between its previous output and its input |
| `VoiceChain.OutputIsLimited` | applications/uart_send_pcm.c:163-231 | every output is within 30000, no louder than the limited sample and of its sign |
| `VoiceChain.PeakIsLoudestOutput` | applications/uart_send_pcm.c:234-244 | over a whole session the recorded peak is the loudest output |
| `VoiceChain.BlocksDoNotMatter` | applications/uart_send_pcm.c:135-246 | processing in any split gives the same samples and state |
| `VoiceChain.GateNeverFullyOpens` | applications/uart_send_pcm.c:202-223 | from a reset the gate gain stays at 32765 or below on every input |
| `VoiceChain.GateRestPoints` | applications/uart_send_pcm.c:202-223 | the gains at which the gate rests, exactly |
| `VoiceChain.HighPassRestPoints` | applications/uart_send_pcm.c:153-157 | the offsets that rounding leaves standing are exactly -58..0 |
| `VoiceChain.HeldHighPassSettles` | applications/uart_send_pcm.c:153-157 | the feedback loses 556/32768 of its value a sample, so 830 samples empty the whole range |
| `VoiceChain.ConstantOffsetDiesOut` | applications/uart_send_pcm.c:153-157 | from any state an input held for 830 samples (19 ms) has driven the high-pass output into -58..0 for good |
| `VoiceChain.VoiceProcessor.ProcessSamples` | applications/uart_send_pcm.c:135-246 | the in-place loop computes the specified chain on samples and state; the laws of `VoiceResponse` say what it lets through |
| `VoiceChain.VoiceProcessor.ProcessOne` | applications/uart_send_pcm.c:146-244 | one loop iteration is one step of the chain |
| `VoiceChain.VoiceProcessor.Reset` | applications/uart_send_pcm.c:124-133 | reset restores the initial state |
| `VoiceResponse.HighPassResponds` | applications/uart_send_pcm.c:156-160 | the high-pass passes every step of its input and keeps 32212/32768 of its last output, rounded down |
| `VoiceResponse.LowPassApproaches` | applications/uart_send_pcm.c:162-164 | one sample leaves the low-pass at most 12968/32768 of its distance from the input |
| `VoiceResponse.HeldLowPassSettles` | applications/uart_send_pcm.c:162-164 | from anywhere in its range the low-pass is at a held input, or one unit below it, after 23 samples |
| `VoiceResponse.GainIsNineEighths` | applications/uart_send_pcm.c:166-177 | the gain is nine eighths rounded down, the limiter a clamp to 30000 |
| `VoiceResponse.LimiterCounts` | applications/uart_send_pcm.c:166-177 | the counter counts exactly the samples that are cut |
| `VoiceResponse.EnvelopeFollows` | applications/uart_send_pcm.c:195-202 | the envelope goes a thirty-second of the way to the level |
| `VoiceResponse.GainFollows` | applications/uart_send_pcm.c:204-226 | the gate gain goes a quarter of the way up over 900, a thirty-second of the way down under 550 and stays in between |
| `VoiceResponse.GateOpens` | applications/uart_send_pcm.c:195-226 | from any state 946 samples of 932 or more open the gate to 32765 or above |
| `VoiceResponse.GateStaysOpen` | applications/uart_send_pcm.c:195-226 | and it stays open as long as they continue |
| `VoiceResponse.LoudInputPasses` | applications/uart_send_pcm.c:146-231 | in any run of loud samples each one from the 946th on leaves at nine eighths of the low-pass within four units, unless the limiter cuts it |
| `VoiceResponse.FirstSample` | applications/uart_send_pcm.c:146-231 | after a reset a first sample of 16000 comes out at 1087 |
| `VoiceResponse.ToneIsHeard` | applications/uart_send_pcm.c:135-246 | the fastest full-scale tone comes out at 6400 or more with its own sign from the 946th sample on, for as long as it lasts |
| `ReplyReassembly.ChoppingDoesNotMatter` | applications/uart_send_pcm.c:392-444 | for any split into reads of at most 1024 bytes the samples are the pairs of the whole stream and the carried byte its odd tail |
| `ReplyReassembly.ClipIsLossless` | applications/uart_send_pcm.c:418-422 | the buffer clip loses samples iff carried byte and block exceed 1025 bytes |
| `ReplyReassembly.SampleRoundTrip` | applications/uart_send_pcm.c:404-429 | decoding undoes little-endian encoding for every sample |
| `ReplyReassembly.ReplyRoundTrip` | applications/uart_send_pcm.c:392-437 | samples sent as little-endian pairs are decoded to the same samples, however the link cuts the bytes |
| `ReplyReassembly.AttenuatedToAnEighth` | applications/uart_send_pcm.c:439-444 | attenuation is division by 8, rounded down |
| `ReplyReassembly.ReplyReceiver.Receive` | applications/uart_send_pcm.c:392-465 | what reaches the mixer is the decoded block attenuated to 1/8; a failed start loses samples but never the carried byte |
| `ReplyReassembly.ReplyReceiver.DecodeInto` | applications/uart_send_pcm.c:402-431 | carry, tail and pair loop together decode the block after the carried byte |
| `RecordingFile.FileRecorder.WriteDirect` | applications/uart_send_pcm.c:728-775 | short writes, failures and the cap: written plus dropped is offered, without a failure the file is the offered prefix, and a reliable file system causes none |
| `RecordingFile.FileRecorder.FlushCache` | applications/uart_send_pcm.c:777-787 | a flush empties the cache into the file |
| `RecordingFile.FileRecorder.WriteFile` | applications/uart_send_pcm.c:789-828 | file, drops and cache always add up to everything offered |
| `RecordingFile.FileRecorder.Close` | applications/uart_send_pcm.c:948-950 | at the end the file is everything offered up to the cap, unless a write failed |
| `RecordingFile.FileRecorder.Open` | applications/uart_send_pcm.c:700-726 | a new recording starts with empty accounts |
| `SppLink.SppContext.TxWrite` | applications/bt_spp_app.c:473-508 | a write is taken whole or not at all and schedules a callback iff none is scheduled |
| `SppLink.SppContext.KickFromCallback` | applications/bt_spp_app.c:128-165 | a kick sends iff the channel is open, can send and bytes wait: the oldest ones, all of them or a full frame; if the channel cannot send it asks for a can-send event |
| `SppLink.SppContext.KickFromEvent` | applications/bt_spp_app.c:330-333 | the can-send event runs the same kick |
| `SppLink.SppContext.FinishKick` | applications/bt_spp_app.c:166-177 | the frame is handed on; the link stays awake exactly if another wake-up is on its way or the send worked and bytes remain |
| `SppLink.FailedSendStrandsTheRing` | applications/bt_spp_app.c:167-171 | the run in which a failed send leaves a connected link with bytes in the ring and no wake-up on its way |
| `SppLink.SppContext.HandedIsPrefix` | applications/bt_spp_app.c:128-177 | bytes handed to the peer are a prefix of accepted writes, all of them once the ring is empty |
| `SppLink.SppContext.DrainByPendingWakeUps` | applications/bt_spp_app.c:128-177 | while sends succeed the wake-ups already on their way deliver everything accepted |
| `SppLink.SppContext.ServeOneWakeUp` | applications/bt_spp_app.c:128-177 | each wake-up shortens the ring |
| `SppLink.SppContext.IncomingConnection` | applications/bt_spp_app.c:225-264 | a connection is accepted only when none is pending or open |
| `SppLink.SppContext.ChannelOpened` | applications/bt_spp_app.c:266-302 | an open starts both streams afresh; a failed one forgets only its own request |
| `SppLink.SppContext.ChannelClosed` | applications/bt_spp_app.c:304-328 | a close of this channel clears ids and rings, any other changes nothing |
| `SppLink.SppContext.DataPacket` | applications/bt_spp_app.c:184-216 | a prefix is kept, the rest counted; other channels are ignored |
| `SppLink.SppContext.RxRead` | applications/bt_spp_app.c:406-426 | reads the oldest bytes in order |
| `SppLink.SppContext.RegisterCallback` | applications/bt_spp_app.c:502-505 | a registration moves from the writer to the run loop, which may merge it with the one it holds |
| `AvrcpQueue.CommandQueue.Post` | applications/bt_avrcp_ct_app.c:743-791 | accepted iff connected and not full, registers iff no callback is pending |
| `AvrcpQueue.CommandQueue.TakeNext` | applications/bt_avrcp_ct_app.c:717-738 | the runner takes the oldest command, or clears the pending flag on a dry queue |
| `AvrcpQueue.CommandQueue.SendTaken` | applications/bt_avrcp_ct_app.c:740 | a taken command is executed once |
| `AvrcpQueue.CommandQueue.ExecutedIsPrefix` | applications/bt_avrcp_ct_app.c:713-791 | executed commands are a prefix of accepted ones; one registration at most; no callback pending means nothing waits |
| `AvrcpQueue.CommandQueue.RunDry` | applications/bt_avrcp_ct_app.c:713-791 | no lost wake-up: the callback on its way executes everything accepted |
| `A2dpGate.A2dpSink.Handle` | applications/bt_a2dp_sink_app.c:196-339 | no event opens the gate; media is let in only by a start with the gate open and the source running |
| `A2dpGate.A2dpSink.SetLocalMediaEnabled` | applications/bt_a2dp_sink_app.c:467-493 | closing always works; opening lets media in iff stream and source run |
| `A2dpGate.A2dpSink.MediaPacket` | applications/bt_a2dp_sink_app.c:97-132 | a processed packet belongs to this stream, active, with the gate open |
| `A2dpGate.UninterruptedCalls` | applications/bt_a2dp_sink_app.c:225-491 | the steps of a close, an opening and a start, taken without interference, do what the calls do as one |
| `A2dpGate.CloseInsideStartIsLost` | applications/bt_a2dp_sink_app.c:225-251 | the interleaving in which a close inside a start is overwritten |
| `A2dpGate.SuspendInsideOpeningIsLost` | applications/bt_a2dp_sink_app.c:467-493 | the interleaving in which a suspend inside an opening is overwritten |
| `A2dpGate.OnlyOvertakenStepsBreakTheGate` | applications/bt_a2dp_sink_app.c:225-491 | a step breaks the gate iff it permits media for a gate closed, or a stream ended, since it looked |
| `A2dpGate.RunsHoldExactly` | applications/bt_a2dp_sink_app.c:225-491 | on every run allowed media always implies an active stream and an open gate iff no such step occurs |
| `A2dpGate.GateHoldsOutsideWindows` | applications/bt_a2dp_sink_app.c:225-491 | it holds on every run with no close begun inside a start and no stream ended while an opening starts its source |
| `PushToTalk.PttControl.Start` | applications/control_app.c:131-263 | capture is entered with the gate closed or everything is undone, whatever keys and events arrive while it blocks; a key held throughout enters it unless export or capture fails |
| `PushToTalk.PttControl.EnterCapture` | applications/control_app.c:203-262 | the last part enters capture or gives back export, gate and pause |
| `PushToTalk.PttControl.Stop` | applications/control_app.c:265-310 | each held pause gets exactly one play attempt, or is forfeited iff the phone is disconnected |
| `PushToTalk.PttControl.Poll` | applications/control_app.c:312-336 | between polls: resume implies capturing, gate closed iff capturing, not held and no request implies not capturing; each accepted pause gets one play attempt or is forfeited while disconnected |
| `PushToTalk.PttControl.LongPress` | applications/control_app.c:338-390 | a press posts a start request |
| `PushToTalk.PttControl.LongPressRelease` | applications/control_app.c:338-390 | a release posts a stop request |
| `Encoder.TableDecodesQuadrature` | applications/control_app.c:403-413 | the table is the quadrature code with clk leading in the positive direction: neighbours give one step, others none, and reversal negates |
| `Encoder.SamplesStayInRange` | applications/control_app.c:430-476 | on every pin sequence less than a command is accumulated and at most four wait |
| `Encoder.SteadyTurnCounts` | applications/control_app.c:430-476 | a steady turn makes one command per two quarter-steps, up to four |
| `Encoder.SteadyTurnBackCounts` | applications/control_app.c:430-476 | a steady turn back makes one command down per two quarter-steps, up to four |
| `Encoder.ReversalsAndGlitches` | applications/control_app.c:444-458 | a quarter-step against what has been gathered starts over in the new direction, and a skipped one forgets it |
| `Encoder.BouncingIsSilent` | applications/control_app.c:430-476 | a contact bouncing from rest makes no command |
| `Encoder.EncoderState.SamplePins` | applications/control_app.c:430-476 | the imperative sampler is the specified step |
| `Crc32.CrcMatchesReference` | applications/font_update.c:42-56 | the branch-free CRC equals the table-driven CRC-32 of section 8 of RFC 1952 on every input |
| `Crc32.CrcUpdate` | applications/font_update.c:42-56 | the nested loops compute the bytewise fold |
| `Crc32.UpdateConcat` | applications/font_update.c:132-152 | chunks of any size give the CRC of the whole |
| `Crc32.ByteStepMatchesReference` | applications/font_update.c:47-54 | eight masked shifts are one table step |
| `Crc32.SingleByteErrorIsDetected` | applications/font_update.c:112-158 | no single corrupted byte leaves the CRC unchanged |
| `Crc32.CrcOfA` | applications/font_update.c:42-56 | the CRC of the one byte "a" is 0xE8B7BE43 |
| `Crc16.Crc16Xmodem` | fontlib/font_send.py:43-50 | the nested loops compute the packet CRC |
| `Crc16.TrailerLeavesZero` | fontlib/font_send.py:80-85 | a packet followed by its CRC, high byte first, has CRC zero |
| `Crc16.DamagedByteIsDetected` | fontlib/font_send.py:43-50 | no single damaged byte leaves the packet CRC unchanged |
| `Crc16.CrcIsLinear` | fontlib/font_send.py:43-50 | the CRC of the empty packet is 0, and the CRC of the xor of two packets of one length is the xor of their CRCs |
| `Crc16.CrcOfOne` | fontlib/font_send.py:43-50 | the CRC of the one byte 1 is the polynomial 0x1021 |
| `FontFormat.BuildCharset` | fontlib/font_gen.py:35-48 | the charset is ascending without repetition and holds exactly ASCII and the decoded basic-plane characters |
| `FontFormat.PackingIsInvertible` | fontlib/font_gen.py:67-89 | bit packing and unpacking are inverse, both ways |
| `FontFormat.PreviewShowsTheGlyph` | fontlib/font_gen.py:67-89 | bit 15-c of the two bytes of row r, high byte first, is pixel c of the row: the preview shows the glyph |
| `FontFormat.RenderGlyph` | fontlib/font_gen.py:67-79 | the pixel loops give the specified packing |
| `FontFormat.BuildImage` | fontlib/font_gen.py:120-141 | the file written is header, ascending index and bitmaps with the CRC of both |
| `FontFormat.EntryLayout` | fontlib/font_gen.py:120-141 | index entry i and glyph i lie at the offsets the reader uses |
| `FontFormat.HeaderLayout` | fontlib/font_gen.py:134-141 | magic, count and CRC lie at the offsets the reader uses |
| `FontFormat.ImageBegins` | fontlib/font_gen.py:134-141 | the file begins with "ZBFT", version 1, 16 by 16 pixels of one bit |
| `FontFormat.FieldsAreLittleEndian` | applications/font_update.c:84-87 | what the bytes of each field are read as: low byte first |
| `FontFormat.Le32RoundTrip` | applications/font_update.c:84-87 | the reader decodes the 32-bit fields that the builder packed |
| `FontFormat.CrcBytesRoundTrip` | applications/font_update.c:86-87 | the CRC field survives byte packing |
| `FontFlash.EraseThenProgram` | applications/font_update.c:216-233 | programming a freshly erased sector stores the data itself |
| `FontFlash.ProgrammingOnlyClears` | applications/font_update.c:216-233 | without the erase a program only clears bits of its own cells |
| `FontFlash.FlashedCell` | applications/font_update.c:216-309 | cell by cell: payload, then erased up to the next multiple of 4096, then the old contents |
| `FontFlash.SizeRoundTrip` | applications/font_update.c:235-260 | the receiver reads back the size the sender wrote; an empty file reads as unknown |
| `FontFlash.AtoiForms` | applications/font_update.c:235-260 | the size field is read past blanks and with its sign |
| `FontFlash.FilePacketShape` | fontlib/font_send.py:98-101 | packet 0 is 128 bytes when name and size fit, else 1024: name, NUL, size, NULs |
| `FontFlash.FontReceiver.OnBegin` | applications/font_update.c:235-260 | a file is refused iff its reported size exceeds the partition |
| `FontFlash.FontReceiver.FlushBlock` | applications/font_update.c:216-233 | a flush rewrites exactly one sector |
| `FontFlash.FontReceiver.OnData` | applications/font_update.c:262-299 | after any packet, padding stripped, full sectors are on the medium, the rest is in the buffer and later sectors are untouched; on reliable flash it fails only for lack of room |
| `FontFlash.FontReceiver.TakeChunk` | applications/font_update.c:280-295 | one round keeps received = written + buffered and the partition equal to the payload |
| `FontFlash.FontReceiver.OnEnd` | applications/font_update.c:301-309 | the last sector completes the payload; later sectors are untouched |
| `FontFlash.FontReceiver.ReceiveSession` | applications/font_update.c:235-309 | for any packet sizes the partition ends up with the first min(size, total) payload bytes and the old contents beyond the last sector |
| `FontFlash.Packetise` | fontlib/font_send.py:105-114 | packets are 1024 bytes and begin with the file; less than one packet of 0x1A follows |
| `FontFlash.SendFile` | fontlib/font_send.py:87-114 | on reliable flash a file is stored iff it fits; stored means byte for byte |
| `FontReader.ReadHeader` | applications/font_update.c:84-109 | the header is accepted iff the magic is there |
| `FontReader.VerifyCrc` | applications/font_update.c:112-158 | verification succeeds iff the CRC-32 of the covered bytes is the recorded one |
| `FontReader.ReadCrc` | applications/font_update.c:132-157 | the 1 KiB chunk loop computes the CRC of the whole range |
| `FontReader.FontUpdate` | applications/font_update.c:311-408 | an update that reports success has the file on the medium with matching CRC |
| `FontReader.FontApp.Init` | applications/font_app.c:154-214 | init succeeds iff magic, count and index are there, and caches the index of the medium |
| `FontReader.InitIgnoresCrc` | applications/font_app.c:175-203 | acceptance does not depend on the CRC field |
| `FontReader.OneCrcVerifies` | applications/font_update.c:122-158 | of all values of the CRC field exactly one verifies |
| `FontReader.AcceptedButCorrupt` | applications/font_app.c:175-203 | beside every accepted and verified medium lie accepted ones that do not verify |
| `FontReader.BlankGlyphWithWrongCrc` | applications/font_app.c:175-203 | a medium of one blank glyph that is accepted and does not verify |
| `FontReader.InitVerified` | applications/font_update.c:401-411 | verifying first makes ready equivalent to accepted and verified |
| `FontReader.CoversWholePayload` | applications/font_update.c:122-126 | the CRC covers the whole payload iff the count is at most 126322567 |
| `FontReader.CoveredLengthWraps` | applications/font_update.c:122-126 | one glyph more and 16 bytes are covered |
| `FontReader.FontApp.FindGlyph` | applications/font_app.c:68-92 | binary search finds only the letter, and finds it if the index is ascending |
| `FontReader.FontApp.GlyphBitmap` | applications/font_app.c:126-152 | the bitmap returned is the letter's own 32 bytes on the medium |
| `FontReader.CachedIndex` | applications/font_app.c:190-203 | the index cached from a flashed image is the font's, hence ascending |
| `FontReader.FlashedImage` | fontlib/font_gen.py:120-141 | a flashed image is found, counted and verified, whatever lies behind it |
| `FontReader.BuildAndFlash` | fontlib/font_send.py:87-114 | building and flashing succeeds on reliable flash that the font fits |
| `FontReader.BuildFlashLookUp` | applications/font_app.c:126-152 | build, flash, verify, init, look up: each character of the font returns its own packed glyph, every other none |
| `UartDma.WhatIsReported` | drivers/drv_usart_v2.c:395-415 | what each interrupt reports for any number of outstanding bytes and laps |
| `UartDma.OverreportsExactly` | drivers/drv_usart_v2.c:408-411 | bytes that never came are reported iff a lap interrupt finds nothing outstanding |
| `UartDma.SettledLapReportsABuffer` | drivers/drv_usart_v2.c:408-411 | a lap interrupt right after a report reports a whole buffer, for every size and position |
| `UartDma.IdleSettlesExactly` | drivers/drv_usart_v2.c:397-402 | an idle interrupt settles the account iff less than a lap is outstanding |
| `UartDma.OnTimeIsAllOrNothing` | drivers/drv_usart_v2.c:395-415 | an interrupt on time reports all outstanding bytes or defers them all |
| `UartDma.RunsOverreportExactly` | drivers/drv_usart_v2.c:383-425 | over any run the total never exceeds the bytes received iff no lap interrupt comes idle |
| `UartDma.IdleLeavesNothing` | drivers/drv_usart_v2.c:383-425 | in such runs every idle interrupt within a lap leaves reported equal to received |
| `UartDma.ReportKeepsTrack` | drivers/drv_usart_v2.c:417-421 | the remembered counter is always the position of the last report, across wraps |
| `UartDma.DmaReceiver.RecvIsr` | drivers/drv_usart_v2.c:383-425 | the handler takes the specified step |
| `UartDma.SimpleReceiver.IdleIsr` | drivers/drv_usart.c:616-630 | the idle branch with its 32-bit wrap takes its step of the account and keeps the index of the last interrupt |
| `UartDma.SimpleReceiver.DmaIsr` | drivers/drv_usart.c:695-725 | the half and full lap handler with its 32-bit wrap, likewise |
| `UartDma.SimpleIdleIsExact` | drivers/drv_usart.c:616-630 | the idle branch is right iff the position is still in the lap of the last report, for any number of outstanding bytes short of the 32-bit word |
| `UartDma.SimpleIdleMiscounts` | drivers/drv_usart.c:619-622 | ten bytes over the end of the buffer wrap the reported length, a whole lap makes it vanish |
| `UartDma.SimpleDmaIsExact` | drivers/drv_usart.c:695-725 | the lap handler is right iff in the same lap, or at its end with at most a lap outstanding and something |
| `UartDma.SimpleDmaMiscounts` | drivers/drv_usart.c:704-711 | a lap end that idle has already reported is reported again |
| `UartDma.SimpleRunsAreExact` | drivers/drv_usart.c:616-725 | over any run of the built driver every interrupt leaves reported equal to received iff every interrupt comes in time |
| `UartDma.SimpleStepIsExact` | drivers/drv_usart.c:616-725 | one interrupt keeps the account exact iff it comes in time |
| `UartDma.DriversAgreeWithinALap` | drivers/drv_usart.c:616-630 | within a lap both drivers report the same |
| `UartDma.DriversAgreeAtTheLapEnd` | drivers/drv_usart.c:695-725 | at the lap end with something outstanding they also agree |
| `PwmTimer.Timer.Set` | drivers/drv_pwm.c:281-339 | the registers always describe 2 <= pulse <= period <= 65534 |
| `PwmTimer.PeriodFits` | drivers/drv_pwm.c:316-326 | the prescaler is large enough for every 32-bit tick count |
| `PwmTimer.PrescalerIsLeast` | drivers/drv_pwm.c:317-319 | the prescaler is the least one under which the period stays below 65535 counts |
| `PwmTimer.PrescalerFits` | drivers/drv_pwm.c:317-319 | the prescaler fits its own register iff the period is below 65535 * 65536 ticks |
| `PwmTimer.PulseFits` | drivers/drv_pwm.c:328-336 | the pulse is never below the minimum nor above the period |
| `PwmTimer.PeriodRoundTrip` | drivers/drv_pwm.c:236-339 | an unclamped period reads back at most as asked and short by less than a prescaled tick and 1 ns iff the product fits 32 bits |
| `PwmTimer.HundredMillisecondsReadBackWrong` | drivers/drv_pwm.c:274 | 100 ms at 84 MHz read back wrong |
| `PwmTimer.PulseRoundTrip` | drivers/drv_pwm.c:236-339 | the same for an unclamped pulse |
| `PwmTimer.SetThenGet` | drivers/drv_pwm.c:236-339 | set followed by get on one timer: period and pulse each read back within this bound iff their product fits |

## Left out

- BTstack, the STM32 HAL, the codec registers, SBC and mSBC decoding, the RT-Thread kernel and rt_ringbuffer are not part
  of this model: their calls succeed or fail, their rings are bounded sequences whose put stores a prefix.
- LCD, LVGL, console commands, logging, littlefs mounting and SPI attachment: input/output without state of its own.
- The YMODEM exchange: packets reach the receiver complete and in order; retries and time-outs are not modelled.
- The GB2312 table itself and the rasterising of glyphs: both are inputs of the builder.
- Waiting times and time-outs: a wait ends whenever it ends, and keys and stream events may come meanwhile.
- FontFlash.SizeRoundTrip: file sizes are unbounded, so the overflow of a C int in atoi is not modelled.
- CodecDriver.Es8311Audio.I2sReconfigure: says nothing about the recorded rate matching the hardware after a failure, since
  the code restores the old number over the new clock.
- DriverModes.SetRunModeIsAllOrNothing: claims no 44100 Hz when playback or capture is already the mode, since the code
  returns before re-clocking.
- PlaybackSession.DmaStartsOnlyAtWatermark: covers the mixer's own calls; the hands-free thread, and the control thread
  around a push-to-talk conversation, which drive the codec directly, are not among the threads.
- FrameRing.Ring.WriteNewest: background frames are pairs of samples, so the doubled sample index of the stereo buffer is
  not modelled.
- AvrcpQueue.CommandQueue.Post: the absolute-volume delta callback, whose pending flag a session reset clears, is left
  out. The command queue itself is not cleared at disconnection, as in the code.
- A2dpGate.A2dpSink.Handle: each event is one step; the steps inside them are those of A2dpGate.Gate.
- A2dpGate.A2dpSink.SetLocalMediaEnabled: the call is one step; what can come between its steps is modelled by A2dpGate.Gate.
- PushToTalk.PttControl.Start: opens and closes the gate in one step, for the same reason. Keys may arrive while it blocks,
  although the code polls them on the same thread; the read-then-clear of PushToTalk.PttControl.Poll relies on that.
- PwmTimer.Timer.Get: the division of the clock by the timer's clock division is a parameter, and a clock below 1 MHz,
  which divides by zero, is excluded.
- UartDma.DmaReceiver.RecvIsr: counts bytes; the buffer contents and the serial framework above are not modelled.
- FontFlash.SendFile: a chip that reports success and discards the write (write protection) is not modelled; the CRC check
  after the transfer is what notices it.
- RTP and SBC header parsing, the remaining vendor drivers and the bootloader: straight-line code or not shown.
