# Verified models of bgdesk's hard parts

This project models, in Dafny, the parts of bgdesk whose correctness is argued in comments rather than
visible in the code, and proves what those comments promise.

* **Resampler** (`ResampleMath`, `Residues`, `Reservation`, `Resampler`, `Ramp`, `Packetiser`). A reference function resamples a whole
  stream; the streaming resampler and the packetiser on top of it keep one frame, a fractional position
  and an incomplete packet, and produce exactly what the reference gives for everything accepted so far,
  however it was split into calls. Interpolation is a parameter, so the equalities are exact for f32.
* **Transport race** (`TransportRace`). The select loop runs on a schedule of wake-ups; its verdict is
  justified by the schedule alone, and a schedule justifies only one.
* **Connection set-up** (`ConnectionSetup`, `ConnectionOutcomes`). `_start_inner` and `connect` as a
  state machine whose future can be dropped at every await: the peer connection has one owner at all
  times, a TCP punch never runs from a socket that is still in use, nothing is sent in the clear that
  must not be, and exactly which connections a request can return and which outcome its answers call for.
* **UDP punch** (`PunchPacket`, `UdpPunch`). One end's loop, and two ends over a network that loses,
  duplicates and reorders.
* **Licence names** (`Base64Url`, `Text`, `LicenceName`, `LicenceRoundTrip`, `LicenceLimits`,
  `KeyValueRoundTrip`). A printed licence survives the trip through a file name, and exactly when.
* **Playback buffer** (`PlaybackRing`, `PlaybackBuffer`). The overwriting ring with its discontinuity
  counter, and the histogram that decides what may be dropped.
* **Login passwords** (`LoginPassword`), **clipboard** (`ClipboardCodec`, `ClipboardSync`), **binary
  scans** (`BinaryScan`) and the **ICNS container** (`Icns`).

`Prelude` and `Arithmetic` hold shared definitions. `dafny verify dfyconfig.toml` checks everything.

## Where the code does not do what it says

* `PreferredGivenUpIff`, `RelayedWebRtcCanBeLeaked`: inside `_start_inner` a peer connection is always
  closed or returned, but one level up the connection the preferred request returned can be held by the
  race in `_start` and then dropped without being closed, although libs/hbb_common/src/webrtc.rs:1137-1140
  says that dropping is not enough. It happens exactly when the fallback request succeeds while the race
  is holding a relayed WebRTC connection, or when `_start` itself is dropped meanwhile.
* `SharedPasswordEscapes`, `SharedPasswordEscapesOnSwitch`: a shared or default password can be
  written to a peer's config, exactly when the hash message's salt is no longer the one it was derived
  under or a switch of sides has reset its source. `Session` proves that nothing else lets it through.
* `OvertakingRepeatsTheCopy`, `OvertakingHappens`: a copy made while announcements of updates are pending
  is sent once for each of them as well. `NoEcho` bounds every run by one message per copy and one per
  update overtaken so, `OneMessagePerCopy` holds when none is.
* `RoundTripIff`: a licence behind a separator is read back exactly when, after the rewriting of
  src/custom_server.rs:94-97, an even number of dashes stands in front of it. That is proved of every
  reader that refuses the licence's JSON with trailing bytes other than white space, which serde_json
  does. `LicensedPrefixSwallowsSeparator` is the family of prefixes ending in `-licensed` that lose it.
* `PrintedNameReads`, `PrintedNameIsNotRead`: the file name src/naming.rs prints has a single dash before
  the name, which is no separator. It never decodes when the JSON's length is no multiple of three, and
  otherwise decodes to the JSON with eighteen bytes behind it, the first of which is not white space.
* `NeverOutgrownIff`: the buffers reserved in `new` are outgrown by calls of the very size they were
  dimensioned for, unless the largest number of frames that is ever pending leaves room for a call.
  `Suffices` computes that number from a greatest common divisor; `Feed` runs the calls.
* `LongVersionIsMissed`: a version that starts more than sixteen bytes in front of a chunk boundary and
  ends behind it is missed or misread. `MaxGlibcMinor` is exact unless every highest version is cut so.

## Model

| member | source | states |
|---|---|---|
| `ResampleMath.AvailableIffEmitted` | src/audio_resampler.rs:193-200 | the availability test of frame k over n input frames holds exactly for the first floor((n-1)*out/in)+1 frames |
| `ResampleMath.RetainedState` | src/audio_resampler.rs:211-218 | after a stream of n frames at most one frame is retained and the position is below the larger rate |
| `ResampleMath.EmittedGrowth` | src/audio_resampler.rs:181-191 | m further input frames determine at most floor(m*out/in)+1 further output frames |
| `ResampleMath.ChunkScalesToPacket` | src/audio_resampler.rs:57-69 | the constructor's input chunk scales to at most a packet and one frame for dividing ratios and up to twofold upsampling |
| `Resampler.FrameAt` | src/audio_resampler.rs:193-209 | sample (k, channel) of the reference is the blend at its own position, whatever was emitted before and after |
| `Ramp.RampStaysRamp` | src/audio_resampler.rs:193-209 | a stream whose channels are straight lines resamples to the same lines at k*in/out, which fixes both neighbours, their order and the weight |
| `Resampler.FramesStable` | src/audio_resampler.rs:165-179 | later input never changes a frame that was already determined |
| `Resampler.ResampleGrows` | src/audio_resampler.rs:165-179 | what was resampled stays a prefix of what will be |
| `Resampler.SameRateIsIdentity` | src/audio_resampler.rs:193-209 | at equal rates a stream resamples to itself |
| `Resampler.GrowthFitsCapacity` | src/audio_resampler.rs:181-191 | no call emits more samples than `output_capacity` reserves |
| `Resampler.StreamingLinearResampler.constructor` | src/audio_resampler.rs:156-163 | a fresh resampler has accepted nothing and reserves the given chunk |
| `Resampler.StreamingLinearResampler.RetainsAtMostOneFrame` | src/audio_resampler.rs:211-218 | between calls at most one frame is buffered and `next_position` is below the larger rate |
| `Resampler.StreamingLinearResampler.WriteNextFrame` | src/audio_resampler.rs:193-209 | writes exactly the next frame of the whole stream, exactly when that frame is available |
| `Resampler.StreamingLinearResampler.PushFrame` | src/audio_resampler.rs:201-207 | the channel loop appends the reference frame, reading the buffer at shifted indices |
| `Resampler.StreamingLinearResampler.DiscardConsumedFrames` | src/audio_resampler.rs:211-218 | drops every consumed frame and restores the invariant between calls |
| `Resampler.StreamingLinearResampler.WriteAvailable` | src/audio_resampler.rs:174-176 | the emission loop stops only when every determined frame is written |
| `Resampler.StreamingLinearResampler.ProcessInto` | src/audio_resampler.rs:165-179 | output grows by exactly the reference's growth; an error changes nothing; growth stays within the reservation |
| `Packetiser.PacketsAreDetermined` | src/audio_resampler.rs:84-89 | equal-length packets and a shorter rest are determined by the stream they spell |
| `Packetiser.FixedFrameResampler.New` | src/audio_resampler.rs:49-75 | builds a valid packetiser or reports the first failing check |
| `Resampler.CapacityFitsIff` | src/audio_resampler.rs:181-191 | a call is accepted exactly when its scaled frames and its reservation fit a machine word |
| `Packetiser.VerdictDone` | src/audio_resampler.rs:49-75 | a configuration is accepted exactly when everything the constructor computes fits a machine word |
| `Packetiser.FixedFrameResampler.ProcessWith` | src/audio_resampler.rs:77-91 | delivered packets and the rest spell the reference; errors change nothing; each allocation changes exactly when its room is exceeded |
| `Packetiser.FixedFrameResampler.Cut` | src/audio_resampler.rs:84-89 | hands out the complete packets and keeps the rest |
| `Packetiser.FixedFrameResampler.ChunksExact` | src/audio_resampler.rs:86-88 | the packets of one length that spell the largest such prefix |
| `Packetiser.FixedFrameResampler.ChunkHasRoom` | src/audio_resampler.rs:57-75 | after j dimensioned calls the next one has room in the packet buffer exactly when the frames pending then leave it, and always in the input buffer |
| `Packetiser.Session` | src/audio_resampler.rs:77-98 | for any calls, good and bad: packets of exact size, a shorter rest, together the reference of what was accepted |
| `Packetiser.SplitDoesNotShow` | src/audio_resampler.rs:77-91 | two splits of the same samples give the same packets and rest |
| `Residues.ResidueBound` | src/audio_resampler.rs:84-90 | no multiple leaves a remainder above the largest one its gcd allows |
| `Residues.ResidueReached` | src/audio_resampler.rs:84-90 | some multiple leaves that largest remainder |
| `Reservation.PendingIsResidue` | src/audio_resampler.rs:84-90 | the frames pending after j dimensioned calls are a remainder under packet times input rate |
| `Reservation.EveryCallFitsIff` | src/audio_resampler.rs:57-75 | every one of any number of dimensioned calls has room exactly when the peak of the cycle leaves it |
| `Reservation.UsualRatiosSuffice` | src/audio_resampler.rs:57-75 | dividing ratios and up to twofold upsampling never outgrow the reservation |
| `Reservation.ThreefoldUpsamplingSuffices` | src/audio_resampler.rs:57-75 | a ratio beyond those that does not outgrow it either |
| `Packetiser.Feed` | src/audio_resampler.rs:77-91 | dimensioned calls on a fresh packetiser change an allocation exactly when one of them is outgrown |
| `Packetiser.NeverOutgrownIff` | src/audio_resampler.rs:57-75 | no dimensioned call ever grows a buffer exactly when such calls are rejected or the peak leaves room |
| `Packetiser.TenfoldUpsamplingOutgrows` | src/audio_resampler.rs:57-75 | a configuration whose first dimensioned call grows the packet buffer |
| `TransportRace.LiveAttemptsDecrease` | src/client.rs:227-228 | every completion takes one live attempt away |
| `TransportRace.VerdictIsDetermined` | src/client.rs:215-220 | a schedule justifies at most one verdict |
| `TransportRace.OnWebrtc` | src/client.rs:237-282 | the WebRTC arm gives a justified verdict or keeps the meaning of the locals |
| `TransportRace.OnOther` | src/client.rs:283-329 | the same for the other transports, with failures `select_ok` absorbs |
| `TransportRace.OnTick` | src/client.rs:330-335 | the timer returns the held connection when its window is over |
| `TransportRace.Race` | src/client.rs:221-338 | direct results win at once, relayed ones only when nothing is live or the window since the first ran out, an error only when all failed and never the lone WebRTC bail; never stuck; one window |
| `ConnectionSetup.GoodRun` | src/client.rs:796-1395 | ownership, routing and socket invariants hold at every point of every run |
| `ConnectionSetup.PeerConnectionHasOneFate` | src/client.rs:1079-1266 | on every outcome and cancellation the peer connection is closed once or returned, never both or neither |
| `ConnectionSetup.NeverBareAtAnAwait` | src/client.rs:1302-1355 | no stream is outside its guard where the future can be dropped |
| `ConnectionSetup.TcpPunchHasReleasedSocket` | src/client.rs:1299-1344 | a round that may punch over TCP has released the rendezvous socket before it does |
| `ConnectionSetup.StartRoutes` | src/client.rs:491-599 | a forced relay never returns TCP, UDP or IPv6; Relay and WebSocket are never reported direct |
| `ConnectionOutcomes.OnlyAwaitsAsk` | src/client.rs:796-1395 | whatever depends on the environment is an await |
| `ConnectionOutcomes.RaceOutcome` | src/client.rs:1136-1261 | whatever the answers from the race on, the call ends within seven steps in the outcome they call for |
| `ConnectionOutcomes.DecidingOutcome` | src/client.rs:1546-1648 | a needed relay is asked for and returned as not direct, a WebRTC connection that cannot be secured is replaced by one, and a relayed one is not reported direct |
| `ConnectionOutcomes.FailsAtDecidingIff` | src/client.rs:1551-1575 | a run fails there exactly when a relay is needed and none was named |
| `ConnectionOutcomes.ReturnableIff` | src/client.rs:796-1395 | exactly which connections a request can return, for every request |
| `ConnectionOutcomes.StartReturnsIff` | src/client.rs:491-599 | exactly which connections `_start` can return, in terms of its options |
| `ConnectionOutcomes.RacesFallbackIff` | src/client.rs:560-570 | the fallback request is raced exactly when it could return a TCP punch beside something else |
| `ConnectionOutcomes.PunchReply` | src/client.rs:1025-1055 | a punch reply leads to the race with the sockets that could be connected and with the offerer exactly if it was answered and set up |
| `ConnectionOutcomes.RelayReply` | src/client.rs:1058-1147 | the same for a relay reply |
| `ConnectionOutcomes.NoAddressFails` | src/client.rs:1003-1022 | a refusal, or a reply without an address, ends the call |
| `ConnectionOutcomes.SilenceFails` | src/client.rs:981-1002 | an unanswered request is sent three times, then the call fails |
| `ConnectionOutcomes.NothingInTheClear` | src/client.rs:866-891 | an offer is sent only after the key exchange succeeded, a token only after that or the older handshake did |
| `ConnectionSetup.PreferredGivenUpIff` | src/client.rs:585-593 | the preferred request's connection is given up exactly when `_start` is dropped while the race holds it or the fallback succeeds then |
| `ConnectionOutcomes.RelayedWebRtcCanBeLeaked` | src/client.rs:548-593 | in every environment that races with an offerer, the requests can return a relayed WebRTC and a direct TCP connection, and a schedule holds the first and gives it up |
| `PunchPacket.TidInvertsEncode` | src/common.rs:2781-2793 | a datagram has a transaction id under a tag exactly when it is the packet made from them |
| `PunchPacket.ProbeIsNotAck` | src/common.rs:2777-2779 | no datagram is both probe and acknowledgement |
| `PunchPacket.LittleEndianOrder` | src/common.rs:2781-2786 | the transaction id is written least significant byte first |
| `UdpPunch.PunchUdp` | src/common.rs:2811-2888 | the whole call over any wake-ups, stopping at its first verdict, with as many probes sent as counted |
| `UdpPunch.ProbesAreSent` | src/common.rs:2829-2851 | a call sends as many probes as it counts |
| `UdpPunch.DatagramDecides` | src/common.rs:2862-2884 | which datagram confirms, which is handed out, which is answered and which is ignored |
| `UdpPunch.RunKeepsInv` | src/common.rs:2795-2803 | every packet in flight stays accounted for in every run |
| `UdpPunch.SuccessIsAFact` | src/common.rs:2795-2800 | a successful connector's own probe was received and acknowledged |
| `UdpPunch.ListenerSucceedsSecond` | src/common.rs:2802-2810 | the listener succeeds only on data, after the connector has succeeded |
| `UdpPunch.ListenerStillAnswers` | src/common.rs:2805-2810 | while the connector probes, a listener loops and answers until its own deadline, whenever each started |
| `UdpPunch.CanStillComplete` | src/common.rs:2811-2888 | while both ends loop and a probe is in flight, four deliveries complete the punch |
| `UdpPunch.LossIsRepaired` | src/common.rs:2846-2851 | after everything in flight is lost, the next due retransmission and four deliveries complete the punch |
| `UdpPunch.StoppingBothGoesMute` | src/common.rs:2805-2810 | if both ends stopped on their own acknowledgement, one could go mute while the other probes |
| `UdpPunch.TimersAreAbsolute` | src/common.rs:2834-2839 | while a punch is undecided its deadline, probes and their schedule are those of an end that hears nothing |
| `UdpPunch.DeadlineEndsTheLoop` | src/common.rs:2834-2845 | no traffic puts the deadline off |
| `UdpPunch.AtMostNineteenProbes` | src/common.rs:2821-2851 | at most nineteen probes before the deadline |
| `UdpPunch.NineteenProbesAreReached` | src/common.rs:2821-2851 | with a timer that fires on time, nineteen are sent |
| `Base64Url.DecodeEncode` | src/custom_server.rs:31-33 | unpadded decoding inverts encoding |
| `Base64Url.EncodeDecode` | src/custom_server.rs:31-33 | only its own encoding decodes to a byte string |
| `Base64Url.DigitsInOrder` | src/naming.rs:5-8 | the alphabet of RFC 4648, table 2 |
| `Base64Url.QuadIsBase64` | src/naming.rs:5-8 | a quad is its three bytes as one number in base 64, high digit first |
| `Base64Url.DashesAreLastInQuad` | src/naming.rs:5-8 | for ASCII the dash only occurs at positions congruent to 3 mod 4 |
| `Base64Url.BraceEnding` | src/naming.rs:5-8 | JSON objects encode to a text ending in 9, Q or 0 |
| `LicenceName.ParseKeyValues` | src/custom_server.rs:66-92 | each field is the value of the last part with its tag |
| `LicenceName.TryPieces` | src/custom_server.rs:98-110 | the first piece, or piece of a piece, that yields a licence |
| `LicenceName.GetCustomServerFromString` | src/custom_server.rs:44-113 | the reader's loops compute the function the round trips are about |
| `LicenceRoundTrip.RewriteAtSeparator` | src/custom_server.rs:94-97 | rewriting turns the separator into `--` and touches nothing behind it |
| `LicenceRoundTrip.NameIsTail` | src/naming.rs:5-8 | neither `--` nor `-licensed-` occurs in a printed name |
| `LicenceRoundTrip.NameReads` | src/custom_server.rs:24-41 | a name is read as its bytes exactly without padding or with the padding base64 asks for |
| `LicenceRoundTrip.SignedNameReads` | src/custom_server.rs:34-41 | a signed licence is read as what its signature covers |
| `LicenceRoundTrip.NamePiece` | src/custom_server.rs:99-109 | the piece with the name yields the licence, copy suffix or not |
| `LicenceRoundTrip.StripsExtension` | src/custom_server.rs:45-51 | exactly the extension is stripped |
| `LicenceRoundTrip.PiecesOf` | src/custom_server.rs:94-98 | the name becomes a piece of its own exactly when the dashes before it pair off |
| `LicenceRoundTrip.NameRoundTrip` | src/custom_server.rs:44-113 | any name that is read on its own and holds no separator is read from a file name, signed ones included |
| `LicenceRoundTrip.RoundTrip` | src/custom_server.rs:44-113 | every ASCII licence comes back, padded or not, from a prefix that separates, separator, name, copy suffix and extension |
| `LicenceRoundTrip.CleanRoundTrip` | src/custom_server.rs:44-113 | the same for every prefix that ends neither in a dash nor in `-licensed` |
| `LicenceLimits.RoundTripIff` | src/custom_server.rs:44-113 | for every reader that refuses trailing bytes the licence comes back exactly when the prefix separates, and nothing does otherwise |
| `LicenceLimits.DashAfter` | src/custom_server.rs:31-33 | what decodes with a dash behind the encoding decodes to the JSON and bytes that are not white space |
| `LicenceLimits.LicensedPrefixSwallowsSeparator` | src/custom_server.rs:94-98 | behind a prefix ending in `-licensed` and the separator `-licensed-` every licence is lost to such readers |
| `LicenceLimits.PrintedNameReads` | src/naming.rs:15-23 | what the reader makes of the generator's own file name, for every licence and every codec |
| `LicenceLimits.PrintedNameIsNotRead` | src/naming.rs:15-23 | no reader that refuses trailing bytes reads a licence back from it |
| `Base64Url.StrayBits` | src/custom_server.rs:31-33 | an incomplete last quad with an odd last sextet never decodes |
| `KeyValueRoundTrip.RoundTrip` | src/custom_server.rs:64-92 | fields in any order, number and letter case, with notes between them, come back with the value given last |
| `PlaybackRing.ApplyKeepsValid` | src/client.rs:2308-2334 | the ring keeps the newest samples and the counter moves exactly when unread ones go |
| `PlaybackRing.RunKeepsValid` | src/client.rs:2315-2334 | in every run the contents are a suffix of everything appended, within capacity |
| `PlaybackRing.ReadsAndDiscards` | src/client.rs:2308-2334 | between two points samples go by being read or by counted discards of at least one |
| `PlaybackRing.SameGenerationIsSeamless` | src/client/audio_playback.rs:121-130 | everything read between two points is one slice of what was appended exactly when they show the same generation |
| `PlaybackBuffer.BinIsTenths` | src/client.rs:2248-2251 | a bin is a tenth of a second, the last one everything above |
| `PlaybackBuffer.LeadingZerosAreLowest` | src/client.rs:2271-2274 | the lower water mark is the lowest filled bin |
| `PlaybackBuffer.PeakIsFullest` | src/client.rs:2276-2281 | the upper one is the first fullest bin above the lowest bin |
| `PlaybackBuffer.WindowBound` | src/client.rs:2283-2299 | a window drops an even number of at most two thirds of every level it recorded, plus one |
| `PlaybackBuffer.SkipOf` | src/client.rs:2267-2299 | exactly what a window drops, from its lowest and its fullest bin |
| `PlaybackBuffer.SteadyWindowSkips` | src/client.rs:2267-2299 | a window that always held the same six or more tenths drops a quarter of them |
| `PlaybackBuffer.AudioBuffer.constructor` | src/client.rs:2219-2229 | an empty ring of three seconds and empty bins |
| `PlaybackBuffer.AudioBuffer.Append` | src/client.rs:2318-2334 | overwriting append with its signal |
| `PlaybackBuffer.AudioBuffer.Read` | src/client/audio_playback.rs:121-130 | the oldest whole frames and the generation they were read under |
| `PlaybackBuffer.AudioBuffer.Record` | src/client.rs:2248-2265 | counts a level and tells when the window is over |
| `PlaybackBuffer.AudioBuffer.ScanBins` | src/client.rs:2267-2289 | both water marks, and every bin zero afterwards |
| `PlaybackBuffer.AudioBuffer.TryShrink` | src/client.rs:2244-2306 | drops less than a third of the ring and at most two thirds of every recorded level plus one; all bins zero after a window |
| `PlaybackBuffer.AudioBuffer.AppendPcm` | src/client.rs:2339-2342 | an append, any reads that come in before the shrink, and at most one counted skip of less than a third of what they left |
| `LoginPassword.LoginConfigHandler.constructor` | src/client.rs:2956-2968 | starts with the token's password and source |
| `LoginPassword.LoginConfigHandler.GetConnToken` | src/client.rs:3940-3950 | a carried-over password keeps its source |
| `LoginPassword.LoginConfigHandler.HandleHash` | src/client.rs:4644-4735 | which password is used in which case, in the order of preference, keeping the source of every shared one |
| `LoginPassword.LoginConfigHandler.HandleLoginFromUi` | src/client.rs:4831-4849 | a typed password replaces everything, none typed keeps the one at hand |
| `LoginPassword.LoginConfigHandler.HandleLoginError` | src/client.rs:4510-4517 | a rejected password is forgotten |
| `LoginPassword.LoginConfigHandler.HandlePeerInfo` | src/client.rs:3670-3695 | what is written and what is forgotten; a shared password is written exactly when its source no longer recognises it |
| `LoginPassword.Session` | src/client.rs:2789-2820 | in any event sequence a shared password is written only after a salt change or a switch; never with a fixed salt and no switch |
| `LoginPassword.SharedPasswordEscapes` | src/client.rs:3676-3685 | a salt change lets one through |
| `LoginPassword.SharedPasswordEscapesOnSwitch` | src/client.rs:4664-4667 | so does an accepted switch of sides |
| `ClipboardCodec.RgbaRoundTripIff` | src/clipboard.rs:50-58 | pixels come back exactly when dimensions are positive, fit i32 and match the data |
| `ClipboardCodec.PackIsSmallest` | src/clipboard.rs:640-680 | what is sent is no larger than plain or compressed |
| `ClipboardCodec.ItemRoundTrip` | src/clipboard.rs:640-772 | every supported item comes back |
| `ClipboardCodec.ItemsRoundTrip` | src/clipboard.rs:731-780 | an item list comes back as its supported items, in order |
| `ClipboardSync.ClipboardContext.Get` | src/clipboard.rs:386-428 | nothing of a marked clipboard; otherwise the kept items, or nothing if there are files |
| `ClipboardSync.ClipboardContext.DoUpdate` | src/clipboard.rs:259-289 | an update holds all of its data and a mark, and its announcement sends nothing |
| `ClipboardSync.UpdateKeepsData` | src/clipboard.rs:259-289 | apart from the mark an update puts all of its data on the clipboard |
| `ClipboardSync.SentWhole` | src/clipboard.rs:386-428 | ordinary items are sent whole and in order, a clipboard with files not at all |
| `ClipboardSync.CopyIsDelivered` | src/clipboard.rs:259-289 | after a copy, its announcement and its arrival the other machine holds the copied items that are sent, in order, and the mark |
| `ClipboardSync.NoEcho` | src/clipboard.rs:399-428 | every run sends at most one message per user copy, plus one per update a copy overtook |
| `ClipboardSync.MessagesCarryCopies` | src/clipboard.rs:410-418 | what is under way was copied by the user of the sending side |
| `ClipboardSync.OneMessagePerCopy` | src/clipboard.rs:399-428 | at most one message per copy when no copy overtakes the announcement of an update |
| `ClipboardSync.OvertakingRepeatsTheCopy` | src/clipboard.rs:399-428 | a copy in front of p announcements is sent p+1 times, in excess of the user's copies exactly if some are of updates |
| `ClipboardSync.OvertakingHappens` | src/clipboard.rs:259-289 | a run of two copies and three messages |
| `BinaryScan.SeenInWindow` | build.py:985-996 | an occurrence is in what was read or whole in overlap and chunk |
| `BinaryScan.CarriesMarker` | build.py:984-996 | chunked search equals whole-file search |
| `BinaryScan.MatchesAreDisjoint` | build.py:888-889 | version matches never overlap |
| `BinaryScan.ScoreInWindow` | build.py:888-890 | a match in a window is a match of the file with at most its value |
| `BinaryScan.ScanWindow` | build.py:888-889 | the best version of one window |
| `BinaryScan.OneVersionReads` | build.py:888-889 | a file naming one version in decimal has it as its highest |
| `BinaryScan.SliceAttains` | build.py:888-889 | a window shows the file's maximum exactly when it holds a match with it whole |
| `BinaryScan.HeldIffNotCut` | build.py:885-890 | some window holds a match whole exactly when no chunk boundary cuts it more than sixteen bytes behind its start |
| `BinaryScan.MaxGlibcMinor` | build.py:878-890 | never above the file's maximum; equal to it exactly when that is 0 or some match with it is not cut, and always when matches have at most 17 bytes |
| `BinaryScan.LongVersionIsMissed` | build.py:878-890 | files with a full first chunk whose only version is cut |
| `Icns.CutBody` | scripts/generate-macos-dmg-assets.py:54-62 | cutting a body gives its entries back |
| `Icns.BodyCut` | scripts/generate-macos-dmg-assets.py:54-64 | whatever can be cut is tiled exactly by its entries |
| `Icns.BigEndianOrder` | scripts/generate-macos-dmg-assets.py:68-74 | lengths are written most significant byte first |
| `Icns.SerializeIsInjective` | scripts/generate-macos-dmg-assets.py:68-74 | no file spells two entry lists |
| `Icns.ReadEntries` | scripts/generate-macos-dmg-assets.py:54-65 | the entry loop ends without error exactly when the body can be cut |
| `Icns.IcnsTypes` | scripts/generate-macos-dmg-assets.py:47-65 | accepts exactly the serialised entry lists and returns their types in order |
| `Icns.WriteIcns` | scripts/generate-macos-dmg-assets.py:68-74 | writes the serialisation, or fails exactly on a missing size or an overlong file |
| `Icns.WriteThenRead` | scripts/generate-macos-dmg-assets.py:47-74 | reading what was written lists the table's types in order |

## Left out

- SameGenerationIsSeamless: assumes fewer than 2^64 discards between two reads, since the counter wraps.
- RoundTrip: JSON and signature checks are parameters; of the printer it is assumed that the parser inverts it, that its bytes are ASCII and that an object ends in a closing brace. Lower-casing is modelled for ASCII letters and the Kelvin sign; the dotted capital I becomes two characters, the second of which is in none of the tags.
- RoundTripIff: that serde_json refuses trailing bytes other than white space, and that JSON followed by such bytes is no signed message, are assumptions about the codec.
- Feed: assumes that `Vec::with_capacity` allocates what it is asked for and no more; a larger allocation would only hide that the reservation is outgrown.
- HandleHash: the refusal of a hash message in incoming-only mode, which changes nothing but the salt.
- RampStaysRamp: over the reals; the rounding of f32 is not modelled.
- GoodRun: options read from the interface are taken as fixed for one call, and an offerer's local endpoint as non-empty.
- ProcessInto: the position is an unbounded number; in the original it is a u64 that stays within one input rate of buffered frames times output rate.
- PunchUdp: the pause of 10 ms after a receive error is part of the wake-up times.
- UdpPunch: a KCP datagram is anything longer than a punch packet; both ends talk only to each other, as their connected sockets do.
- AudioBuffer::resize: it replaces the ring and starts a new stream; the evaluation clock is a field of the buffer, where the original has one static for the process.
- The sinc resampler, `audio_rechannel`, and the f32 value of an interpolated sample.
- Liveness: that a due timer or a ready attempt is eventually polled.
- The forced initial clipboard synchronisation, the file clipboard and the personal address-book event of `handle_peer_info`.
- Sockets, STUN, TLS, key exchange, hashing and compression themselves; they are parameters or nondeterministic answers.
- src/kcp_stream.rs, src/clipboard_file.rs, the UI and FFI layers, the installers and the REST clients: plumbing with only easy properties.
