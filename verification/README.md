# Verified model of the multichannel audio recorder

The repository streams multichannel audio over UDP and TCP, records it to WAV files and carries a
fixed-point DTMF (telephone keypad tone) detector and generator. This project models the parts
whose correctness is hard to see from the code and proves what they are for.

## The DTMF pair

`FixedPoint` models the C arithmetic: 16- and 32-bit conversions wrap, `>>` is floor division, `/`
truncates, and the multiply `MPY48SR` is assembled from two halves as in the code. `Resonator` is
the integer recurrence `v' = round(2c * v1) - v2 + x` that the Goertzel filter and the tone
oscillator share. Its central argument is the energy `v1^2 + v2^2 - 2c * v1 * v2`, whose square
root grows by at most `|x| + 1/2` per sample. From it follows that the 32-bit loop never overflows
for any of the eighteen filter coefficients (`Goertzel`) and that generated tones never leave 16
bits (`Tones`). `Spectrum` and `Response` connect the integer recurrence with the exact one over the
reals: its energy is the squared modulus of the window's Fourier sum, rounding moves the state
by a bounded amount, and impulse and step responses have closed forms. These settle the two
coefficients that the energy bound does not reach: with 102-sample windows the 16-bit conversions of
the magnitude are exact for every coefficient except 32706, for which a failing window is given
that the filter does receive and whose reported power is wrong. `Accuracy` puts the pieces together: the power
that a filter reports is the window's spectral power, within a stated slack in both directions, for exactly the
other coefficients.

`Frequencies` says which tone each coefficient stands for: the detector's are the cosines of whole
multiples of a turn in 102 samples, the generator's tones are nearest to the filters of the same index, and
the powers that the decision reads stand in that order.

`Normalisation` is the power gate and the block floating point of the detector, `Decision` the step
from eighteen powers to a key of ITU-T Recommendation Q.23, `Debounce` the key log, and `Detection`
the functions computed by the whole detector. `Detector` is the object itself, with its arrays
updated in place, proved against them. `Generator` is the tone and pause scheduler as a
state machine, `GeneratorObject` the object and the documented drive loop.

## The streaming path

`RingBuffer` is the ring buffer without a fullness check, `Handoff` its use by two
threads that hold different mutexes, as an interleaving of single steps; `SpinLock` is the re-entrant
spin lock as compare-and-swap, load and store steps of any number of threads. `UdpServer` is
the receiver's loss accounting, filler lists and de-interleaving. `WavFile` is the WAV object over a sequence of
bytes, `Recording` the slots of the recorder over runs of recorded lists and timer swaps, as values,
and `Recorder` the recorder object.

## What the proofs show about the code

- `RingBuffer.ReadAllIff`: `readAll` agrees with reading until empty only while the write index is not
  below the read index; otherwise the plain pointer difference is negative and the allocation throws.
- `RingBuffer.QueueIff`: a write that finds `getSize()` values unread silently empties the buffer.
  `RingBuffer.OverrunHappens` and `RingBuffer.ReadAllFails` are runs that reach these states.
- `Handoff.HandoffSafeIff`: how many unread frames the hand-off bears depends on where the consumer is.
  While it uses a slot, the frame being copied counts as unread and `getSize()` is the limit; counting it
  only after the write head has moved lets the consumer see a torn frame (`Handoff.LateCountingFails`).
- `SpinLock.NestingIff`: the 32-bit lock count makes nesting beyond 2^32 unsafe, and only that.
- `UdpServer.LossIsMissing`: after a reset the server expects the counter 1. A stream that begins with 0 is
  counted one short, so that without any loss 2^32 - 1 frames count as lost (`UdpServer.FirstCounterZero`).
- `UdpServer.LossConservation` holds for every order of packets, but the number of lists passed on
  (`UdpServer.CallsIff`) matches the counter advance only for packets that are 1 to 2^31 ahead.
- `UdpServer.FillersIff`: the list for missing frames is reused, so in a gap of several frames each call
  passes on one more copy of the channels unless the last plug-in of the chain clears its lists. The recorder,
  when it is last, does not (recorder/recorder.cpp:251-258).
- `UdpServer.WholeIff`: a frame passed on as a whole is only half copied.
- The first frame after a slot was silent is not written: it only opens the file
  (recorder/recorder.cpp:400-404). `Recording.Heard` says so.
- `WavFile.ClosedFileParses`: recordings read back only when the configuration says what is written. The
  configuration is not checked (recorder/recorder.cpp:446-465), and attributes that are absent are zero: without a
  format length no recording can be read back at all (`WavFile.NoFormatLength`).
- The comment at DFT/DtmfDetector.cpp:250 speaks of a ratio of four; the code compares with three
  eighths (`T[Row] / 2 - T[Row] / 8`), and the model follows the code.
- The header's `block_align` and `byte_rate` ignore the channel count (utils/wav-writer.cpp:219-220); they are
  right exactly for one channel (`WavFile.ConsistentIffMono`).

## Model

The main results come first, then the laws they rest on, then the operations that are proved
against the functions those results are about.

| member | source | states |
|---|---|---|
| Accuracy.TracksIff | DFT/DtmfDetector.cpp:21-50 | over all 102-sample windows that reach the filters, the power a filter reports always follows the exact recurrence's energy - both ways, its root within 2099 at the scale of the window, up to the rounding of the quadratic form - if and only if the coefficient is not 32706 |
| Accuracy.PowerIsSpectral | DFT/DtmfDetector.cpp:21-50 | that energy is the squared modulus of the window's Fourier sum: in windows of up to 102 samples the power reported by every filter but that of 32706 is the spectral power, within the stated slack in both directions |
| Goertzel.FilterNeverOverflows | DFT/DtmfDetector.cpp:27-35 | for all eighteen coefficients and all windows of up to 2014 samples no operation of the loop overflows 32 bits, and the result is the ideal one |
| Detection.CastsExactIff | DFT/DtmfDetector.cpp:37-48 | over all 102-sample windows that pass the gate, every 16-bit conversion in the filter of the normalised window is value-preserving if and only if the coefficient is not 32706 |
| Detection.PowerExactIff | DFT/DtmfDetector.cpp:37-48 | over the same windows the power reported is always the quadratic form of the scaled state if and only if the coefficient is not 32706 |
| Frequencies.FilterBins | DFT/DtmfDetector.cpp:77-83 | each of the eighteen coefficients is the cosine, rounded, of its filter's frequency in turns per 102 samples |
| Frequencies.DialPowers | DFT/DtmfDetector.cpp:196-204 | the first eight powers of a window are those of the filters nearest to the generator's four row and four column tones, in this order |
| Frequencies.BinPowers | DFT/DtmfDetector.cpp:196-204 | each of the eighteen powers of a window is that of the filter that listens at its position's frequency |
| Decision.DecideIff | DFT/DtmfDetector.cpp:207-314 | the key of a row and column is returned if and only if both are the first loudest of their group, reach six times the mean of the rest, are balanced, reach sixteen times each out-of-band power, and every other in-band power ties or is faint |
| Detection.DetectIff | DFT/DtmfDetector.cpp:155-314 | on a window of up to 102 samples a key is reported if and only if the gate passes and the key's row and column meet all acceptance conditions |
| Detection.GainInvariance | DFT/DtmfDetector.cpp:162-204 | amplifying a window that passes the gate by 2^k, if it still fits 16 bits, changes neither the normalised window nor the key |
| Normalisation.GateIff | DFT/DtmfDetector.cpp:160-171 | a window passes the gate if and only if its samples, without their signs, sum to at least 328 a piece |
| Normalisation.LosslessAndMaximal | DFT/DtmfDetector.cpp:160-192 | when the power gate passes the shift is in 0..6, no sample loses a bit, and one bit more would overflow some sample |
| Detection.DetectorLog | DFT/DtmfDetector.cpp:107-153 | the whole detector: from a fresh start the log holds the second key of each maximal non-blank run of blocks of the sample stream |
| Detector.DtmfDetector.DtmfDetecting | DFT/DtmfDetector.cpp:107-153 | one call has exactly the effect of feeding the frame to the stream state; all indices stay in the buffer |
| Debounce.DebounceClosedForm | DFT/DtmfDetector.cpp:120-145 | over any run of window results the state is a closed form: log, pending flag, previous result |
| Debounce.StoredIsSecondOfEachRun | DFT/DtmfDetector.cpp:124-141 | the keys stored are one per maximal non-blank run of at least two windows: its second |
| Debounce.StoreRate | DFT/DtmfDetector.cpp:124-141 | k stores in n windows satisfy 3k <= n + 1 |
| Debounce.LogContents | DFT/DtmfDetector.cpp:128-131 | the log holds the latest stores in order, and where it is terminated, across the wrap at 64 |
| Generator.TransmissionNeverWraps | DFT/DtmfGenerator.cpp:33-59 | if 8 * duration + frame size is at most 1698, every sample of every transmission is silence or the exact mean of two 16-bit oscillator values, whatever keys are sent |
| Tones.FrameBoundaryInvisible | DFT/DtmfGenerator.cpp:21-51 | running the oscillators for a and then b samples is running them for a + b: frame boundaries are invisible |
| Tones.KeyTone | DFT/DtmfGenerator.cpp:53-197 | each key sounds the coefficient of its row and that of its column, written as numbers, and starts both oscillators at level 31000 |
| Tones.KeySounds | DFT/DtmfGenerator.cpp:33-45 | n samples into a key's tone both oscillators deviate from the exact oscillations of the row's and the column's frequency by a root energy of at most n/2 |
| Generator.WholeTransmission | DFT/DtmfGenerator.cpp:69-254 | a ready generator sends the first twenty keys in n * (P + Q) frames of tone and pause, and call n * (P + Q) writes nothing and makes it ready, no call earlier |
| Generator.CallEmits | DFT/DtmfGenerator.cpp:69-229 | call k (from 0) of a transmission emits a frame of button k div (P + Q): a piece of its tone, from the point reached, in the first P calls of the button, and silence in the other Q |
| Generator.TransmitIff | DFT/DtmfGenerator.cpp:233 | a request is accepted if and only if the generator is ready, and a refused one changes nothing of what is still to be emitted |
| Generator.ResetLeavesNoTrace | DFT/DtmfGenerator.hpp:63-68 | a reset at any point leaves the next transmission identical to that of an idle generator |
| GeneratorObject.Drive | DFT/DtmfGenerator.hpp:91-104 | the documented drive loop, including the event that resets the generator, terminates; it stops at the first such event or the end; and the frames collected are that many frames from the beginning of the transmission, or all of it |
| RingBuffer.QueueIff | utils/ring-buffer.h:48-67 | the buffer is a first-in first-out queue if and only if no write found getSize() values unread |
| RingBuffer.UnreadValues | utils/ring-buffer.h:48-67 | the number of unread values is writes minus successful reads, modulo the size |
| RingBuffer.ReadAllIff | utils/ring-buffer.h:33-46 | readAll returns nothing if and only if nothing is unread; otherwise what reading until empty returns if and only if the write index is not below the read index, and else the allocation fails |
| Handoff.HandoffSafe | udp-streamer/tcp-server.cpp:162-183 | in every interleaving with room for the unread frames the consumer sees the accepted frames in order, and the slot it uses holds the frame it was handed until it is done |
| Handoff.HandoffSafeIff | udp-streamer/tcp-server.cpp:96-106 | an interleaving keeps, in all its states, the slot in use and the slot about to be handed out intact and unread frames visible to a polling consumer, if and only if there is room in all its states |
| SpinLock.NestingIff | utils/thread.cpp:241-266 | mutual exclusion holds in all runs that nest at most n deep if and only if n is at most 2^32 |
| SpinLock.MutualExclusion | utils/thread.cpp:241-266 | in every run that nests at most 2^32 deep at most one thread has positive depth, it is the recorded owner, and the count is its depth up to its own unlock in flight |
| SpinLock.UnlockSucceeds | utils/thread.cpp:254-266 | an owner's unlock always returns true and frees the lock exactly when it gives up the last level |
| UdpServer.LossConservation | udp-streamer/server.cpp:257-276 | frames received plus total lost is the last counter modulo 2^32, for every sequence of counters |
| UdpServer.LossIsMissing | udp-streamer/server.cpp:257-276 | for increasing counters the total lost is exactly the number of counters that never arrived if and only if the first counter is not 0, and otherwise one less modulo 2^32 |
| UdpServer.CallsConservation | udp-streamer/server.cpp:280-341 | after the first mismatch, over counters moving forward: calls = counter advance - desynchronisations |
| UdpServer.AudioDelivered | udp-streamer/server.cpp:257-341 | over every run of datagrams the lists passed on for the frames in turn interleave to exactly those frames' samples, in order |
| UdpServer.InTurnCarries | udp-streamer/server.cpp:310-340 | for a frame whose counter follows the last one exactly one list is passed on: an entry for each channel with its signal and every channels-th sample, which interleave to the frame's samples |
| UdpServer.FillersIff | udp-streamer/server.cpp:276-308 | each missing frame is passed on as one entry per channel if and only if the chain clears its lists, the gap is a single frame, or there are no channels |
| UdpServer.InterleaveAfterDeinterleave | udp-streamer/server.cpp:314-331 | interleaving the channel lists again gives back the frame's prefix |
| UdpServer.DeinterleaveAfterInterleave | udp-streamer/server.cpp:314-331 | every list of channels is obtained from its interleaving: de-interleaving is a bijection |
| Recording.AudioPreserved | recorder/recorder.cpp:383-414 | over every run, whichever files can be created, the data of a slot's files in order is exactly what the slot alone, without any files, has heard |
| Recording.NothingLostIff | recorder/recorder.cpp:383-414 | what a slot alone has heard is the samples of every frame with a signal whose predecessor had one - the same with any swaps as with none - if and only if no such samples arrived while a file could not be created |
| Recording.FreshSizeBound | recorder/recorder.cpp:576-614 | in size-based mode, from the initial slots, no file outgrows max(limit, 44) by more than one frame over any run, whichever files can be created |
| Recording.RenewedIff | recorder/recorder.cpp:383-614 | an event gives a slot a file of a new name exactly if a timer tick finds one open, or a list finds one larger than the limit in size-based mode, or a frame with a signal finds none open |
| Recording.FreshNames | recorder/recorder.cpp:113-129 | over every run of a fresh recorder that creates fewer than 2^32 files all file names differ, and serial numbers grow along each slot's files |
| WavFile.ClosedFileParses | utils/wav-writer.cpp:132-152 | a reader of the RIFF WAVE form, which walks the chunks and interprets the format, finds exactly the samples written, in one channel at the configured rate, if and only if the format length is 16, the format is consistent mono 16-bit PCM, and the file is shorter than 2^32 + 8 bytes |
| Recording.ClosedFilesParse | recorder/recorder.cpp:510-515 | every closed file of every run has the lengths of its samples and reads back as them if and only if the configuration has a 16-byte format chunk and describes mono 16-bit PCM, and the file is short enough |
| FixedPoint.Mpy48srRounds | DFT/DtmfDetector.cpp:12-19 | the two-halves multiply equals the product divided by 2^15 and rounded to nearest, for all 16- and 32-bit operands, if and only if they are not both the most negative ones |
| FixedPoint.TruncatedDivision | DFT/DtmfDetector.cpp:243-246 | the remainder of the truncated quotient is smaller than the divisor and has the sign of the dividend |
| Resonator.EnergyStep | DFT/DtmfDetector.cpp:29-34 | how one step changes the energy, for any new value |
| Resonator.StepEnergy | DFT/DtmfDetector.cpp:29-34 | the root of the energy grows by at most one half more than the sample's magnitude |
| Resonator.RunIsIdeal | DFT/DtmfDetector.cpp:27-35 | while the accumulated energy confines the state, no operation of a run overflows and the 32-bit run is the run over unbounded integers |
| Resonator.RunConcat | DFT/DtmfGenerator.cpp:33-50 | a run over two pieces is a run over their concatenation |
| Spectrum.EnergyIsSpectralPower | DFT/DtmfDetector.cpp:27-35 | the energy of the filter loop's recurrence, taken over the reals, is the squared modulus of the window's Fourier sum |
| Spectrum.DeviationBound | DFT/DtmfDetector.cpp:27-35 | rounding moves the state of an n-sample run by a root energy of at most n/2 |
| Spectrum.ExactIsFourier | DFT/DtmfDetector.cpp:27-35 | the recurrence over the reals has the window's Fourier sum as its state |
| Response.PeakBound | DFT/DtmfDetector.cpp:27-35 | the newest value is at most the sample bound plus one half times the sum of the impulse response's magnitudes |
| Response.SquareSumClosed | DFT/DtmfDetector.cpp:27-35 | a closed form for the sum of squares of the impulse response |
| Response.GainBound | DFT/DtmfDetector.cpp:27-35 | a bound on the sum of the impulse response's magnitudes, for any coefficient and length |
| Response.ConstantResponse | DFT/DtmfDetector.cpp:27-35 | the state after equal samples in terms of cosines of multiples of the angle |
| Goertzel.MagnitudeExact | DFT/DtmfDetector.cpp:41-48 | for scaled values within 16383 every 16-bit conversion is exact and the magnitude is the non-negative quadratic form |
| Goertzel.WideFilter | DFT/DtmfDetector.cpp:37-48 | a window for which the conversions of coefficient 32706 lose bits and its reported power is wrong |
| Goertzel.PowerExact | DFT/DtmfDetector.cpp:37-48 | for every other coefficient and windows of up to 102 samples the conversions are exact and the power is the quadratic form of the scaled state, and not negative |
| Goertzel.InBandSumFits | DFT/DtmfDetector.cpp:228-232 | every running sum of the ten in-band powers fits 32 bits and is not negative |
| Normalisation.DoublingsExact | DFT/DtmfDetector.cpp:69-71 | the count is n exactly when the number has 31 - n bits |
| Normalisation.NormOfDouble | DFT/DtmfDetector.cpp:55-75 | doubling a number costs exactly one redundant sign bit |
| Normalisation.DoubledNormalises | DFT/DtmfDetector.cpp:162-192 | doubling a window that passes the gate and still fits 16 bits leaves the normalised window identical |
| Normalisation.GateIgnoresSigns | DFT/DtmfDetector.cpp:162-168 | windows that are the same up to signs pass the gate alike |
| Normalisation.ConstantGate | DFT/DtmfDetector.cpp:160-171 | a window of one magnitude passes if and only if that is at least 328 |
| Normalisation.NormMeans | DFT/DtmfDetector.cpp:55-75 | the result for a non-zero number is how far it can be shifted left without overflow, and 0 for zero |
| Decision.WinnersAccepted | DFT/DtmfDetector.cpp:207-314 | the tests on the scan's winners are exactly the acceptance conditions stated as ratios of powers |
| Decision.NoKeyIff | DFT/DtmfDetector.cpp:207-314 | no key is returned if and only if no row and column meet the conditions |
| Decision.Keypad | DFT/DtmfDetector.cpp:292-311 | each position gives its key of ITU-T Q.23, different positions give different keys, none is blank |
| Decision.KeypadLayout | DFT/DtmfDetector.cpp:292-311 | the digits one to nine by rows of three, the letters down the last column, and star, zero and hash in the last row |
| Debounce.StoredPositions | DFT/DtmfDetector.cpp:124-141 | the stored keys are exactly the results at the second position of each run, in order |
| Debounce.StoresApart | DFT/DtmfDetector.cpp:124-141 | two stores are at least three windows apart |
| Debounce.LogIndex | DFT/DtmfDetector.cpp:128-131 | the write index is the number of stores modulo 64 |
| Debounce.LogOlder | DFT/DtmfDetector.cpp:128-131 | behind the write index the log holds the keys of the lap before, or what it held at first, and it ends behind slot 63 once a lap is complete |
| Detection.PowersSound | DFT/DtmfDetector.cpp:196-232 | on standard windows the in-band powers are non-negative and their sum does not overflow, which is what the decision's characterisation needs |
| Detection.ProcessTwice | DFT/DtmfDetector.cpp:107-151 | analysing a stream in two portions, keeping the remainder, is analysing it at once |
| Detection.Reblocking | DFT/DtmfDetector.cpp:107-151 | after any sequence of frames the state depends on the concatenated samples only |
| Detection.FramingInvisible | DFT/DtmfDetector.cpp:107-151 | two ways to cut the same samples into frames give the same state |
| Detection.ProcessBlocks | DFT/DtmfDetector.cpp:118-145 | the windows analysed are the consecutive blocks of the stream, and the rest is kept |
| Detection.BurstArrives | DFT/DtmfDetector.cpp:160-192 | the failing windows pass the gate and are their own normalisation, so the filter receives them |
| Detection.BlankIff | DFT/DtmfDetector.cpp:155-314 | on a window of up to 102 samples no key is reported if and only if the gate does not pass or no row and column meet the conditions |
| Accuracy.Triangle | DFT/DtmfDetector.cpp:27-35 | the root of the energy satisfies the triangle inequality |
| Accuracy.ErrorCalm | DFT/DtmfDetector.cpp:27-40 | rounding and the ten dropped bits together move the scaled state by a root energy of at most n/2 + 2048 |
| Accuracy.FormError | DFT/DtmfDetector.cpp:41-48 | the integer quadratic form differs from the energy of the scaled state by at most half its older value |
| Accuracy.PowerTracks | DFT/DtmfDetector.cpp:21-50 | for every coefficient but 32706 the reported power follows the exact energy in both directions |
| Accuracy.BurstEnergy | DFT/DtmfDetector.cpp:27-35 | the failing windows carry little energy at the frequency of coefficient 32706 |
| Frequencies.BinAngle | DFT/DtmfDetector.cpp:77-83 | the angle used for that is small, and seventeen of it are a sixth of a circle: a turn in 102 samples |
| Frequencies.NearestFilter | DFT/DtmfDetector.cpp:77-83 | among the filters, the nearest to a tone of the generator is the one at the same index; both tables go from the lowest tone to the highest |
| Tones.ToneNeverWraps | DFT/DtmfGenerator.cpp:33-45 | for every key and up to 1698 samples the output is the exact mean of two 16-bit values: neither addition nor conversion wraps |
| Tones.ToneOfKey | DFT/DtmfGenerator.cpp:77-190 | the switch gives each key of the detector's keypad its row and column tone |
| Tones.SilentUnlessKey | DFT/DtmfGenerator.cpp:191-197 | a byte is silent if and only if it is not one of the sixteen keys |
| Tones.OscillatorStays | DFT/DtmfGenerator.cpp:33-45 | for up to 1698 samples no oscillator overflows or leaves the 16-bit range |
| Tones.ToneSamples | DFT/DtmfGenerator.cpp:33-45 | each of the first 1698 samples of a key's tone is the exact mean of two 16-bit oscillator values |
| Tones.SilentSample | DFT/DtmfGenerator.cpp:191-197 | the samples of a byte that is not a key are all zero |
| Tones.TonesDiffer | DFT/DtmfGenerator.cpp:77-190 | two keys share the first oscillator exactly if they share the row, and the second exactly if they share the column |
| Tones.OscillatorIsPure | DFT/DtmfGenerator.cpp:33-45 | the same for one oscillator of any of the eight coefficients |
| Generator.FrameCount | DFT/DtmfGenerator.cpp:58-59 | 8 * duration < frames * frame size <= 8 * duration + frame size |
| Generator.CallCountsDown | DFT/DtmfGenerator.cpp:69-229 | every call takes exactly one off the number of calls left |
| Generator.CountdownOverRuns | DFT/DtmfGenerator.cpp:69-229 | after k calls k fewer are left, and the ready flag rises with exactly the last |
| Generator.NothingWhenDone | DFT/DtmfGenerator.cpp:73-228 | a call writes nothing if and only if it ends the transmission |
| Generator.RemainingButtons | DFT/DtmfGenerator.cpp:69-229 | from the start of a button on, the output is the transmission of the remaining keys |
| Generator.FrameSized | DFT/DtmfGenerator.cpp:199-219 | every call but the one that ends the transmission emits one whole frame |
| Generator.OutputLength | DFT/DtmfGenerator.cpp:69-229 | k calls emit k frames, as long as they do not end the transmission |
| Generator.EmptyRequest | DFT/DtmfGenerator.cpp:234-240 | a request of no keys is accepted by a ready generator, which stays ready and emits nothing |
| Generator.IdleEmitsNothing | DFT/DtmfGenerator.cpp:71 | a ready generator emits nothing and stays as it is, however often it is called |
| Generator.TwentyKeys | DFT/DtmfGenerator.cpp:241-242 | at most twenty keys are sent, the first ones |
| GeneratorObject.KeysRead | DFT/DtmfGenerator.cpp:241-246 | keys beyond the twentieth make no difference |
| RingBuffer.WriteContents | utils/ring-buffer.h:48-55 | a write appends, unless getSize() values are unread: then the buffer becomes empty |
| RingBuffer.ReadContents | utils/ring-buffer.h:57-67 | a read returns the oldest value, or nothing exactly when there is none |
| RingBuffer.RunContents | utils/ring-buffer.h:48-67 | over every run, unread values are the latest written, and values written = read + unread + whole buffers lost, one per overrun |
| RingBuffer.OverrunsCounted | utils/ring-buffer.h:48-55 | nothing is lost if and only if no write found getSize() values unread |
| RingBuffer.ReadsTake | utils/ring-buffer.h:57-67 | k reads return the k oldest values in order and leave the others |
| RingBuffer.OverrunHappens | utils/ring-buffer.h:48-55 | a run of two writes after which two values are lost |
| RingBuffer.ReadAllFails | utils/ring-buffer.h:33-46 | a run without overrun after which readAll cannot return the unread value |
| Handoff.StepKeeps | udp-streamer/tcp-server.cpp:96-106 | every single step of either side into a state with room keeps the hand-off invariant |
| Handoff.TearsIff | utils/ring-buffer.h:48-67 | an accepted frame tears the slot that the consumer uses or is about to take if and only if there is no room for it |
| Handoff.LateCountingFails | udp-streamer/tcp-server.cpp:102-106 | a run in which a frame counts as unread only after the head advance, and the consumer sees a torn frame |
| Handoff.HidesIff | utils/ring-buffer.h:48-67 | an advance of the write head hides a buffer full of unread frames from a polling consumer if and only if there is no room |
| SpinLock.BeyondTheBound | utils/thread.cpp:247-248 | a run that never nests deeper than 2^32 + 1, at whose end two threads hold the lock |
| SpinLock.StepKeeps | utils/thread.cpp:241-266 | every step of any thread keeps the lock invariant |
| SpinLock.OwnershipRules | utils/thread.cpp:241-266 | only the owner changes the count; only a thread finding the lock free, or the owner, changes the owner |
| SpinLock.OutsiderChangesNothing | utils/thread.cpp:254-266 | unless it swaps itself into a free lock, a non-owner changes nothing but its own position, and its calls return false |
| UdpServer.CallsIff | udp-streamer/server.cpp:280-341 | once synchronised, a frame causes as many put_data calls as its counter advances, less one if out of turn, if and only if it is 1 to 2^31 ahead |
| UdpServer.ErrorChannel | udp-streamer/server.cpp:128-132 | the channels of the error frame are constant 32000 |
| UdpServer.WholeIff | udp-streamer/server.cpp:332-337 | of a frame passed on as a whole the first half is right, and the second if and only if new memory happens to hold it |
| UdpServer.PassedAreCalls | udp-streamer/server.cpp:241-341 | the lists passed on for any datagrams are as many as the calls counted in the conservation law |
| UdpServer.FirstCounterZero | udp-streamer/server.cpp:257-276 | a single frame with counter 0 counts as 2^32 - 1 lost frames, although none is missing |
| UdpServer.InTurnWhole | udp-streamer/server.cpp:331-340 | when frames are passed on whole, one list of one entry with signal 1 and 512 samples, of which the first 256 are the frame's |
| UdpServer.OutOfTurnFills | udp-streamer/server.cpp:276-308 | every entry of every list passed on for a frame out of turn has no signal and samples of 32000 |
| UdpServer.CallsExactly | udp-streamer/server.cpp:257-341 | calls per frame, case by case: one in turn and for the first mismatch, then one for each missing frame, and none for a late, repeated or too distant frame |
| UdpServer.DesynchsCounted | udp-streamer/server.cpp:273-283 | the desynchronisation counter counts the frames out of turn, and the first of them synchronises |
| UdpServer.CounterIsLast | udp-streamer/server.cpp:257-276 | the packet counter is the counter of the last frame |
| WavFile.EncodeRoundTrip | utils/wav-writer.cpp:165-170 | decoding the written bytes gives back the samples |
| WavFile.OpenHolds | utils/wav-writer.cpp:87-108 | a newly opened file holds its header of 44 bytes and no samples; if it cannot be created nothing changes |
| WavFile.WriteHolds | utils/wav-writer.cpp:165-170 | writing appends the samples to what the file holds |
| WavFile.CloseHolds | utils/wav-writer.cpp:132-152 | closing changes only bytes 4..7 and 40..43, to 36 + 2n and 2n for the n samples held |
| WavFile.FormatIff | utils/wav-writer.cpp:214-222 | the header describes consistent mono 16-bit PCM at the configured rate if and only if format 1, one channel, a non-negative rate and 16 bits are configured |
| WavFile.SixteenBitsPlainly | utils/wav-writer.cpp:219-221 | for sample sizes that fit their header field, the condition on the bits says 16 |
| WavFile.ConsistentIffMono | utils/wav-writer.cpp:219-220 | block size and byte rate are right for the channel count if and only if there is one channel |
| WavFile.NoFormatLength | recorder/recorder.cpp:423-428 | with the format length left at zero no recording can be read back |
| WavFile.EncodedBytes | utils/wav-writer.cpp:165-170 | each sample is two bytes, the lower half first |
| WavFile.ClosedLengths | utils/wav-writer.cpp:132-152 | tags and lengths in the bytes of a closed file, the lengths as numbers of four bytes, the lowest first |
| WavFile.DefaultsDescribe | utils/wav-writer.h:29-31 | a file opened without being set up is configured readably, at 8000 samples a second |
| Recording.AllNamesDistinct | recorder/recorder.cpp:494-503 | from any state with distinct names, they stay distinct over every run up to 2^32 files |
| Recording.ReplaceKeeps | recorder/recorder.cpp:490-525 | replacing a file loses no samples of any slot |
| Recording.SwapKeeps | recorder/recorder.cpp:532-614 | a swap by size or by timer renews exactly the files that are due and loses no samples of any slot |
| Recording.RecordSlotsEffect | recorder/recorder.cpp:393-412 | recording a list closes, extends or renews each slot's file according to its frame alone |
| Recording.StepEffect | recorder/recorder.cpp:383-414 | any event does to a slot's files what it does to the slot alone |
| Recording.FreshRecorder | recorder/recorder.cpp:113-129 | from the initial slots: the data of a slot's files is what the slot alone has heard; it is complete if and only if no samples arrived without a file, and always when every file can be created |
| Recording.RunInv | recorder/recorder.cpp:383-414 | every file of every run is sound and configured alike, even if files cannot be created |
| Recording.SizeBound | recorder/recorder.cpp:576-614 | in size-based mode, from any sound state, no file outgrows max(limit, 44) by more than one frame over any run |
| Recording.NothingLost | recorder/recorder.cpp:532-614 | while every file can be created nothing is lost, whatever swaps by size or by timer happen |
| Recording.InitialNames | recorder/recorder.cpp:113-129 | the initial files are named by slot and serial numbers from one on, all distinct |
| Normalisation.NormL | DFT/DtmfDetector.cpp:55-75 | the loop ends for every 32-bit number and counts its redundant sign bits |
| Detector.GoertzelFilter | DFT/DtmfDetector.cpp:21-50 | the paired loop returns both filters' powers |
| Detector.DtmfDetector.constructor | DFT/DtmfDetector.cpp:90-99 | a new detector has nothing buffered, nothing pending and an empty log |
| Detector.DtmfDetector.ZerosIndexDialButton | DFT/DtmfDetector.hpp:47-50 | empties the log without touching what is buffered or being debounced |
| Detector.DtmfDetector.AnalyseWindows | DFT/DtmfDetector.cpp:117-145 | the loop observes the key of every complete window of the buffer, in order, and leaves the buffer as it is |
| Detector.DtmfDetector.Append | DFT/DtmfDetector.cpp:112-114 | the frame is copied behind the buffered samples |
| Detector.DtmfDetector.MoveDown | DFT/DtmfDetector.cpp:147-150 | the remainder is moved to the front, in place |
| Detector.DtmfDetector.ObserveKey | DFT/DtmfDetector.cpp:124-141 | the debouncing statements have the effect of the debouncer's step |
| Detector.DtmfDetector.DtmfDetection | DFT/DtmfDetector.cpp:155-314 | the key is a function of the window alone: no earlier content of the scratch arrays matters |
| Detector.DtmfDetector.SumOfMagnitudes | DFT/DtmfDetector.cpp:160-168 | the loop computes the sum of magnitudes |
| Detector.DtmfDetector.CommonShift | DFT/DtmfDetector.cpp:173-186 | the loop finds the common shift of the window |
| Detector.DtmfDetector.ShiftWindow | DFT/DtmfDetector.cpp:189-192 | the scratch array receives the normalised window |
| Detector.DtmfDetector.FilterBank | DFT/DtmfDetector.cpp:196-204 | all eighteen powers are stored at their places |
| Detector.DtmfDetector.FilterPair | DFT/DtmfDetector.cpp:196-204 | two powers are stored and all others are kept |
| Detector.DtmfDetector.ScanLoudest | DFT/DtmfDetector.cpp:208-226 | the scan finds the first largest positive power of a group |
| Detector.DtmfDetector.AverageOfRest | DFT/DtmfDetector.cpp:228-239 | the running 32-bit sums give the mean of the in-band powers without the winners |
| Detector.DtmfDetector.LiftZeros | DFT/DtmfDetector.cpp:253-255 | zero powers are replaced by one, in place |
| Detector.DtmfDetector.PassesOthers | DFT/DtmfDetector.cpp:259-265 | the loop with early exits decides the out-of-band test |
| Detector.DtmfDetector.PassesDial | DFT/DtmfDetector.cpp:270-290 | the loop with early exits decides the in-band test |
| Detector.DtmfDetector.DecideKey | DFT/DtmfDetector.cpp:207-314 | the cascade of tests returns the decision on the powers as they were |
| Detector.DtmfDetector.GetIndexDialButtons | DFT/DtmfDetector.hpp:34-38 | the write index of the log |
| GeneratorObject.FrequencyOscillator | DFT/DtmfGenerator.cpp:21-51 | the loop writes the tone's samples, returns the advanced oscillators and keeps the rest of the array |
| GeneratorObject.DtmfGenerator.constructor | DFT/DtmfGenerator.cpp:56-63 | a new generator is ready, with frame counts derived from the durations |
| GeneratorObject.DtmfGenerator.DtmfGeneratorReset | DFT/DtmfGenerator.hpp:63-68 | the reset's whole new state |
| GeneratorObject.DtmfGenerator.TransmitNewDialButtonsArray | DFT/DtmfGenerator.cpp:231-254 | refuses unless ready, and otherwise starts a transmission of at most the first twenty keys, reading no others |
| GeneratorObject.DtmfGenerator.DtmfGenerating | DFT/DtmfGenerator.cpp:69-229 | new state and output array of a call, including that nothing is written when it ends |
| GeneratorObject.DtmfGenerator.LoadTone | DFT/DtmfGenerator.cpp:77-197 | the switch sets coefficients and start values |
| GeneratorObject.DtmfGenerator.ToneFrame | DFT/DtmfGenerator.cpp:199-209 | one frame of tone and one off its countdown |
| GeneratorObject.DtmfGenerator.GetReadyFlag | DFT/DtmfGenerator.hpp:73 | the ready flag of the state |
| RingBuffer.Buffer.Init | utils/ring-buffer.h:22-26 | both heads at the first slot |
| RingBuffer.Buffer.Write | utils/ring-buffer.h:48-55 | slot store and head advance have the effect of the write on the value |
| RingBuffer.Buffer.Read | utils/ring-buffer.h:57-67 | the slot handed out and the new state |
| RingBuffer.Buffer.ReadAll | utils/ring-buffer.h:33-46 | the loop of reads into a new array, and its two failure cases |
| RingBuffer.Buffer.AdvanceWriteHead | utils/ring-buffer.h:81-88 | the head wraps at the end |
| RingBuffer.Buffer.AdvanceReadHead | utils/ring-buffer.h:90-97 | the head wraps at the end |
| RingBuffer.Buffer.GetSize | utils/ring-buffer.h:74-77 | one less than the number of slots |
| UdpServer.Server.ReadyReadUdp | udp-streamer/server.cpp:228-351 | counters and all lists passed on after handling all pending datagrams; without any the connection is reset |
| UdpServer.Server.HandleDatagram | udp-streamer/server.cpp:241-346 | a datagram of the wrong size changes nothing |
| UdpServer.Server.HandleFrame | udp-streamer/server.cpp:257-341 | counters and lists passed on after one frame |
| UdpServer.Server.SplitChannels | udp-streamer/server.cpp:314-331 | the nested loops build the de-interleaved channels with their signal bytes |
| UdpServer.Server.Disconnected | udp-streamer/server.cpp:396-403 | all connection counters are reset |
| UdpServer.Server.constructor | udp-streamer/server.cpp:128-132 | a new server has fresh counters and a filled error frame |
| UdpServer.Server.FillErrorFrame | udp-streamer/server.cpp:128-132 | the nested loops fill exactly the samples of the configured channels |
| UdpServer.Server.PassErrors | udp-streamer/server.cpp:297-308 | the loop passes on the reused list with its contents at each call |
| UdpServer.Server.PassFrame | udp-streamer/server.cpp:314-340 | the list for a frame, split by channels or whole |
| UdpServer.Server.ErrorEntries | udp-streamer/server.cpp:298-306 | the nested loops build the entries of the error frame |
| WavFile.WavObject.SetupWave | utils/wav-writer.cpp:191-225 | stores the header fields without touching the file |
| WavFile.WavObject.OpenFile | utils/wav-writer.cpp:87-108 | header written, position behind it, and the case of a failing fopen |
| WavFile.WavObject.WriteSamples | utils/wav-writer.cpp:165-170 | bytes appended at the position, and the running size estimate |
| WavFile.WavObject.CloseFile | utils/wav-writer.cpp:132-152 | the seek-and-patch sequence has the effect of closing on the value |
| Recorder.RecorderObject.constructor | recorder/recorder.cpp:113-129 | creates the slots' file objects, named by slot and serial number and set up |
| Recorder.RecorderObject.ReplaceFile | recorder/recorder.cpp:494-522 | close, delete and open a new file in the same slot, the other slots untouched |
| Recorder.RecorderObject.NewFile | recorder/recorder.cpp:515-522 | the new file object is set up, named and opened |
| Recorder.RecorderObject.ReopenWavFile | recorder/recorder.cpp:490-525 | replaces the file exactly when it is not open |
| Recorder.RecorderObject.HotSwapFiles | recorder/recorder.cpp:532-570 | the loop replaces all open files |
| Recorder.RecorderObject.PollHotSwap | recorder/recorder.cpp:576-614 | the loop replaces the open files beyond the limit |
| Recorder.RecorderObject.Record | recorder/recorder.cpp:383-414 | poll and recording loop have the effect of the record event |
| Recorder.RecorderObject.RecordFrame | recorder/recorder.cpp:394-406 | close on silence, write to an open file, reopen otherwise |
| Recorder.RecorderObject.MakeFiles | recorder/recorder.cpp:113-129 | the loop creates distinct file objects with serial numbers from one on |

## Left out

- Goertzel.FilterNeverOverflows: 2014 samples is as far as the energy bound reaches for the sharpest coefficient; the lemma does not say that longer windows overflow.
- Detection.CastsExactIff: stated, like `PowerExactIff`, for the standard window of 102 samples; other window lengths are not settled.
- Detection.DetectIff: needs at most 102 samples, for which in-band powers are sound; for longer windows only the equality of the object with `Detection.Detect` is proved.
- Accuracy.PowerTracks: the slack is a bound, not the least one.
- Tones.ToneNeverWraps: 1698 samples per tone is what the energy bound covers for every key; longer tones are not settled.
- WavFile.ClosedFileParses: the reader is one for uncompressed 16-bit samples that insists on a consistent format chunk; players that guess are not modelled.
- Handoff.HandoffSafe: memory is sequentially consistent, and copying a frame is two steps during which the slot counts as torn.
- Recording.AudioPreserved: record and timer events are atomic - on which threads they run is set up outside the recorder, and `record` takes no lock on the files - and writes are complete; whether a file can be created is given for each event and slot, once for the swap and once for the recording.
- Recording.AllNamesDistinct: names are slot and serial number; the time string, the directory and the length limit of the name buffer are not modelled.
- SpinLock.MutualExclusion: thread identities are nonzero and the lock starts free, although the constructor does not initialise the owner.
- UdpServer.Server.ReadyReadUdp: the ignored checksum, the peek buffer and the monitor data are not modelled; what newly allocated memory holds is given with each datagram; channels and samples per channel fit the frame.
- Detector.DtmfDetector.constructor: the frame size is positive and the window has 1 to 65535 samples, because the filter's loop index is 16 bits wide; a log buffer that was never written holds arbitrary bytes.
- GeneratorObject.FrequencyOscillator: at most 65535 samples per frame, for the same reason.
- Generator.FrameCount: durations are not negative and eight times a duration fits the integer width.
- Recorder.RecorderObject.Record: a list has at most as many entries as there are slots.
- Signed overflow is modelled as wrap-around and right shifts of negative numbers as floor division, as the usual compilers do.
- Division of the most negative integer by minus one is modelled mathematically; it cannot happen where the in-band powers are sound.
- The ring buffer's `clear`, sockets, Qt timers and signals, XML configuration, logging, daemonising and inter-process messages.
- The TCP writer's sample lists, which refer to arrays of a finished loop turn; the peek helper; the double-buffer queues of the writer and the recorder.
- The semaphore and mutex wrappers, the plugin interface and the glue of the DTMF plugin.
