# Verified models of leelen2sip

leelen2sip lets SIP phones talk to LEELEN door intercoms. This project models five of its
cores in Dafny and proves what they promise, over every input, every run and every interleaving.

| modules | core | main results |
|---|---|---|
| `CStrings`, `Messages`, `MessageCodec`, `MessageTheorems`, `PrintTheorems`, `ParseTheorems` | LEELEN VoIP message codec | the bounded printer writes the longest fitting prefix of a literal text; the in-place parser computes, for any bytes at all, what the last line for each field says; parsing undoes printing for exactly the normalised messages; what truncation spares, and exactly when a port survives it |
| `Dialogs`, `DialogEndpoint`, `DialogRuns`, `DialogAnswers`, `Network`, `Exchange`, `HangUp` | LEELEN dialog protocol | what a dialog answers, in the codes of the wire; waiting implies an armed timer; the exact ack deadline; BYE discipline; no ack storms; setup, teardown and early hang-up of two endpoints over a reordering network; the handshake end to end |
| `Single`, `SingleFlag` | single-daemon flag | mutual exclusion; acquires and finishes alternate; a stop is neither lost nor misdirected; when an acquire is decided; what each kind of join guarantees |
| `Numbers`, `NumberObject`, `NumberPacking` | phone numbers | the index-based parser accepts exactly a grammar; results are canonical; spellings agree; packing round trips in both directions with exact conditions |
| `Sdp`, `SdpMedia`, `Discovery`, `DiscoveryRecord` | SDP media lists, discovery rendezvous | the media as they are written and read, attribute by attribute; SDP round trip and payload types, each with its exact condition; first reply wins, fresh replies and honest timeouts |

Each core has a functional specification (values and functions, or a step relation), a class or
methods in the form of the C code proved against it, and theorems about the specification.

## How the model relates to the code

* A `char` stands for one byte, a C string for the bytes before the first NUL (`CStrings.CStr`).
  `strtol` is modelled for a 64-bit `long`, with its clamping and the truncation to the target field.
* The clock, random numbers, outcomes of `sendto`, `thrd_create` and weak exchanges, and everything
  other threads do are parameters. Where the C code does not set a field (`last_sent` of a new
  dialog, the extension byte of a number without one) the model leaves it arbitrary.
* Concurrent code is a step relation whose steps are the single accesses to shared memory, under
  sequential consistency; theorems quantify over all runs and any number of threads.

## What does not hold

Some expectations one could read into the code or its comments are false. Each has a lemma that
says exactly when the code does meet it.

* A message round-trips only when it is normalised: a port of an empty format list is never
  printed (`RoundTrip`, `UnprintedPortExample`).
* Truncation can cut a port in the middle of its digits; the shorter numeral still parses, to a wrong
  port (`PortsSurvive`, `TruncatedPortIsWrong`).
* `block-room` needs a room of two digits or more: after a single separator one digit is an extension
  (`PlainSpellingsAgree`). The comment at `leelen/number.h:135` does not say so.
* Parsing into a record that is not zeroed keeps the old extension byte, and packing then takes it for
  an extension (`StaleExtension`, `StaleExtensionExample`).
* `single_join` after `single_stop` does not wait, contrary to `utils/single.h:103-107`
  (`JoinIsRightUnlessStopping`, `StopThenJoinDoesNotWait`, `StopThenJoinExample`).
* The 32nd occurrence of a format outside the static table gets the type reserved for telephone events
  and is dropped (`SdpRoundTrip`, `LastFormatDropped`, `DroppedFormatExample`).
* From the 33rd such occurrence on the types leave the seven bits of RTP (`TypesInRange`).
* Two listings of one known format get one payload type; only unknown names may repeat
  (`TypesAreDistinct`).
* Hanging up before the call is up leaves the peer connected when the BYE overtakes the invitation
  (`HangUpConverges`, `ByeOvertakes`).
* An ack that comes after the deadline leaves the caller disconnected while its peer is connected
  (`Handshake`).

## Model

The main results come first, core by core; then the operations, each proved against its
specification; and last the facts that support them.

| member | source | states |
|---|---|---|
| MessageTheorems.RoundTrip | leelen/voip/message.c:20-51 | Parsing undoes printing if and only if the message is normalised, with its NUL sent or with its last byte overwritten by the receiver |
| MessageTheorems.TruncationSafe | leelen/voip/dialog.c:154-176 | At every MTU of at least the minimum, whichever lists are wanted: the datagram fits and ends in NUL; id, code, numbers and type survive; each list comes back as a prefix with at most its last entry cut; any video format arrives only after all the audio the receiver wants and the whole audio port |
| MessageTheorems.PortsSurvive | leelen/voip/dialog.c:168-174 | Whichever lists the receiver wants, a port is recovered if and only if it is zero or all of its digits were carried; otherwise a smaller number is read |
| MessageTheorems.TruncatedPortIsWrong | leelen/voip/message.c:147-154 | A port that loses its last digit is read as a tenth of itself, without an error |
| MessageTheorems.UnprintedPortExample | leelen/voip/message.c:32-48 | A clean message that arrives whole and comes back without its port |
| ParseTheorems.ParseMeans | leelen/voip/message.c:85-177 | For every message, well formed or not, each field is what the last line for it says: the last From line for the number, the last one with something behind its question mark for the type, the last To line that fits, the last line of each port; and each list is all its lines in order |
| ParseTheorems.UnknownLineIgnored | leelen/voip/message.c:169-173 | A line that starts with none of the six keys, `Resolution=` included, can stand anywhere in any text without changing the parse |
| PrintTheorems.TextIs | leelen/voip/message.c:29-48 | The text of every message, literally |
| PrintTheorems.PrintedByte | leelen/voip/message.c:20-51 | Every byte of a buffer of any usable length after printing: code, identifier, text, one NUL, and everything else as it was |
| MessageTheorems.HeadBound | leelen/voip/protocol.h:92-95 | Header, From and To lines and NUL fit the minimum size, and fill it exactly when both numbers have eleven characters and the type three digits |
| DialogRuns.WaitingIsArmed | leelen/voip/dialog.c:119-124 | In every reachable dialog waiting for an ack implies a set timer, whatever it held at first |
| DialogRuns.WaitingSince | leelen/voip/dialog.c:119-124 | In every reachable dialog that waits for an ack the timer holds the time of the last code the run sent |
| DialogRuns.AckDeadline | leelen/voip/dialog.c:184-195 | After any run that leaves a dialog waiting, an OK is the ack if and only if less than the timeout has passed since the run's last send; otherwise the receive reports 254 and the dialog falls back; clocks may step backwards |
| DialogRuns.TimeoutSettles | leelen/voip/dialog.c:84-97 | A reported timeout leaves a settled state: connecting falls to disconnected, disconnecting back to connected; asking again changes nothing |
| DialogRuns.ByeDiscipline | leelen/voip/dialog.c:141-146 | Between two guarded BYEs the peer failed to ack in time or an invite-class code was exchanged |
| DialogRuns.NeverInvited | leelen/voip/dialog.c:22-53 | Without an invite-class code a dialog stays disconnected and never sends a BYE |
| DialogAnswers.CodeIsAcked | leelen/voip/dialog.c:22-36 | An acked message of code 1, 2, 0x215 or 0x217 leaves the dialog connected, 0x214 disconnected, and no other code touches the state; the timer stays; the reply carries 0x110 and the same identifier |
| DialogAnswers.CodeGoesOut | leelen/voip/dialog.c:39-53 | A code that goes out: 1, 2, 0x215 and 0x217 wait for a connection, 0x214 for its end, no other code touches the state, and all but 0x110 set timer and activity stamp |
| DialogAnswers.OkIsHeard | leelen/voip/dialog.c:184-195 | OK in any state and at any time: never answered; 0 exactly if the timer is set and the timeout has not passed, else 254; what it completes, what a late one undoes |
| DialogAnswers.MessageTeaches | leelen/voip/dialog.c:196-258 | What any message teaches the dialog, when it is parsed, and what never changes |
| DialogAnswers.ByeGoesOutExactly | leelen/voip/dialog.c:141-146 | In every reachable dialog with an identifier a guarded BYE goes out, and the dialog then waits from that time for its end, if and only if it is connecting or connected |
| DialogAnswers.ActivityIsLast | leelen/voip/dialog.c:119-125 | After any run the activity stamp is that of the last code sent or message taken |
| Network.RepliesAreAcks | leelen/voip/dialog.c:260-272 | A delivery answers an OK, or a foreign dialog, with nothing, and any other code with exactly one OK of the same dialog if it can be sent |
| Network.DeliveryLightens | leelen/voip/dialog.c:179-283 | Twice the non-OK codes plus the OKs in flight strictly decreases at each delivery |
| Network.NoAckStorm | leelen/voip/dialog.c:179-283 | Without local sends every exchange ends within that many deliveries, in any order, timely or late, whatever datagrams are in flight |
| Network.PhaseConverges | leelen/voip/dialog.c:22-67 | Two endpoints, codes sent by either or both as often as the source lets them, lossless timely delivery in any order: the length of a run is bounded by what was in flight and what was sent, it can go on while anything is in flight, and it ends with both sides in the last state of the phase |
| Network.TeardownConverges | leelen/voip/dialog.c:141-146 | Two connected sides of which either or both send a guarded BYE end disconnected with an empty network |
| Network.SetupConverges | leelen/voip/dialog.c:154-176 | Two disconnected sides of which either or both invite, accept or repeat themselves, in whatever state they are by then, end connected with an empty network |
| HangUp.HangUpConverges | leelen/voip/dialog.c:141-146 | A caller that hangs up while it is connecting or connected, with invitations and acks in flight delivered in time in any order, ends disconnected; its peer does if and only if the BYE was the last thing it heard, always when no invitation was in flight |
| HangUp.ByeOvertakes | leelen/voip/dialog.c:22-53 | Whenever an invitation alone is in flight there is a timely run in which the hung-up call leaves the peer connected |
| Exchange.Handshake | leelen/voip/dialog.c:154-283 | Invitation and ack over the wire, for any numbers, formats, wanted lists and MTU: the caller ends connected if and only if the ack beats the deadline, the callee either way, and what each then holds as the other's number |
| Single.MutualExclusion | utils/single.c:19-51 | In every run at most one owner, one exactly while the flag is non-zero, and a daemon told to end still finds the flag STOPPING |
| Single.ComparisonDecides | utils/single.c:19-33 | A comparing access refuses at once while the flag is 1, takes it at 0 unless the exchange fails weakly, and goes on to wait otherwise |
| Single.AcquiresAlternate | utils/single.c:19-33 | Between two successful acquires the owner finished |
| Single.FinishesAlternate | utils/single.h:60 | Before every finish there is an acquire with no other finish in between |
| Single.StopSticks | utils/single.h:125-128 | After a successful stop the flag stays STOPPING, nobody else acquires and the owner's next question is answered no, until the owner stores STOPPED |
| Single.StopIsForThisOwner | utils/single.h:77-83 | Whoever sees STOPPING sees a stop after which nobody has acquired or finished, so no later daemon is affected |
| Single.StopReachesOwner | utils/single.h:77-83 | The first thread that stores STOPPED after a successful stop is the owner at the time of the stop, or the thread that this owner has created since to run the daemon |
| Single.RefusedSawRunning | utils/single.c:26-27 | An acquire returns false only after the thread found a running daemon with an owner |
| Single.JoinedSawNoOwner | utils/single.c:12-16 | The waiting join returns only after an instant without any owner |
| Single.JoinIsRightUnlessStopping | utils/single.h:111-115 | In every run a returned inline join had an instant without an owner from its first read on if and only if that read was not STOPPING; otherwise it returned at once |
| Single.StopThenJoinDoesNotWait | utils/single.h:111-128 | In every run a join that looks after a successful stop and before the daemon has finished returns at once, with the daemon still there |
| Single.StopThenJoinExample | utils/single.h:103-107 | A run in which one thread has stopped and joined the daemon, and the daemon works on |
| Numbers.ParseIsGrammar | leelen/number.c:113-203 | The parser accepts a string as a number form if and only if the string spells the form |
| Numbers.Unambiguous | leelen/number.h:130-143 | No string spells two forms |
| Numbers.VerdictIs | leelen/number.c:113-203 | 1 exactly for strings that spell no form, 2 exactly for a form without a block and no base, 0 otherwise |
| Numbers.Canonicalises | leelen/number.c:139-202 | Parsing any accepted result again, in place or into the old record, with any base or none, succeeds and gives the same bytes |
| Numbers.SpellingsAgree | leelen/number.h:130-143 | The five spellings of a number with an extension parse to the same bytes |
| Numbers.PlainSpellingsAgree | leelen/number.h:130-143 | So do those without one, `block-room` exactly when the room has two digits or more |
| NumberPacking.UnpackPack | leelen/number.c:23-58 | Unpacking undoes packing for every well-formed number, whatever the target held |
| NumberPacking.PackIsInjective | leelen/number.c:23-30 | Well-formed numbers with one packed value are the same number |
| NumberPacking.PackUnpack | leelen/number.c:13-58 | A word unpacked into a zeroed record packs to itself if and only if both 14-bit fields are below 10000 and the last field is 0 to 9 or 15 |
| NumberPacking.UnpackText | leelen/number.c:45-58 | The text unpacked from any word: the last four decimal digits of both fields, and the extension if the last field is a digit |
| NumberPacking.StaleExtension | leelen/number.h:70-73 | A parsed number without an extension packs as one if and only if the old extension byte is zero or looks like none |
| NumberPacking.StaleExtensionExample | leelen/number.c:195-196 | Two numbers read into one record, the second packing with the extension of the first |
| Sdp.SdpRoundTrip | sipleelen/transaction.c:23-142 | Extracting an encoded media gives its names in order (without the event name on audio) followed by the event name, if and only if every name is non-empty without leading white space and at most 31 need a dynamic type |
| SdpMedia.MediaIsWritten | sipleelen/transaction.c:23-82 | For every list: name, protocol and the port, which reads back; as many rtpmap attributes as payloads, in their order and with their numbers, each for a format that was asked for; and the two attributes numbered 127 |
| SdpMedia.MediaAllocates | sipleelen/transaction.c:53-69 | With at most 31 formats outside the table the payload numerals, read back, are the table types and consecutive ones from 96, each mapped to its format, in order |
| SdpMedia.PayloadsDiffer | sipleelen/transaction.c:53-69 | For every list the payload numerals, read back, are never 127, pairwise different exactly if no known name is listed twice, and below 127 exactly if at most 32 formats are outside the table |
| SdpMedia.MediaIsRead | sipleelen/transaction.c:95-108 | Any media among any others is read for the kind its name tells, and only with protocol RTP/AVP |
| Sdp.MediaDoNotMix | sipleelen/transaction.c:95-131 | For all lists, audio and video in one message, in either order, come back as each would alone, under the same exact condition |
| Sdp.TypesAreDistinct | sipleelen/transaction.c:53-69 | For every list, however long, no emitted type is the reserved one, and emitted types are pairwise distinct if and only if no known name is listed twice |
| Sdp.TypesInRange | sipleelen/transaction.c:53-69 | All emitted types are below 127 if and only if at most 32 formats are outside the table; the next one gets 128 |
| Sdp.LastFormatDropped | sipleelen/transaction.c:57 | Of any 32 audio formats outside the table exactly the last is lost in the round trip |
| Sdp.DroppedFormatExample | sipleelen/transaction.c:57 | Such formats exist, all different |
| Discovery.FirstReplyWins | leelen/discovery/discovery.c:141-161 | Between two writes of the shared host a caller has reset the result, for any number of callers and advertisements, in spite of the check without the lock |
| Discovery.FreshReply | leelen/discovery/discovery.c:27-68 | A call that has returned no timeout after a successful send returned a reply stored after its own reset and still the last one stored when it fetched it |
| Discovery.TimeoutIsHonest | leelen/discovery/discovery.c:33-63 | The result is a timeout only when none has been stored since some caller's reset |
| Discovery.UnsolicitedIsIgnored | leelen/discovery/discovery.c:319 | Advertisements before any discovery change nothing |
| MessageCodec.LeelenMessage.ToString | leelen/voip/message.c:20-51 | For every message and every usable length the buffer ends up with exactly the longest prefix of the ideal text that leaves room for a NUL; bytes at or past the length are untouched; the returned length does not depend on it |
| MessageCodec.Append | leelen/voip/message.c:29-30 | One chained `snprintf` extends "longest fitting prefix of what was printed" to "longest fitting prefix of it and the new text", also when the buffer is already full |
| MessageCodec.PrintFormats | leelen/voip/message.c:32-36 | The loop over a format list extends the ideal text by one keyed line for each format, in order, whatever room is left |
| MessageCodec.PrintSection | leelen/voip/message.c:32-48 | The port line follows a non-empty list only |
| CStrings.Snprintf | leelen/voip/message.c:29-30 | The printed prefix, its NUL and what stays untouched, also for size zero; the result is the untruncated length |
| MessageCodec.LeelenMessage.Init | leelen/voip/message.c:85-177 | The destructive parser yields the parse of the original bytes, and turns exactly the line feeds that end a non-empty line into NUL |
| MessageCodec.LeelenMessage.TakeLines | leelen/voip/message.c:101-174 | Chopping and reading line by line in place equals folding the non-empty lines of the untouched text |
| MessageCodec.LeelenMessage.TakeToken | leelen/voip/message.c:101-103 | Terminating one line in place and handling it leaves the rest of the text as it was, ready for the next line |
| MessageCodec.LeelenMessage.TakeFrom | leelen/voip/message.c:104-130 | Number and device type of the sender, with a missing or trailing `?`, a number too long and a type that is not a number |
| MessageCodec.LeelenMessage.TakeLine | leelen/voip/message.c:101-174 | One line changes only the field its key names, the keys taken in the order of the source |
| MessageCodec.Scan | leelen/voip/message.c:101-103 | `strtok_r` skips line feeds and delimits the next non-empty line |
| DialogEndpoint.LeelenDialog.constructor | leelen/voip/dialog.c:286-320 | A new dialog is disconnected, has a non-zero identifier and knows nothing of its peer but the number given |
| DialogEndpoint.LeelenDialog.AckTimeout | leelen/voip/dialog.c:84-97 | Result and new state of the ack check, including the early exit |
| DialogEndpoint.LeelenDialog.SendMsg | leelen/voip/dialog.c:100-126 | Nothing changes when sending fails or the code is OK; otherwise state, timer and activity do |
| DialogEndpoint.LeelenDialog.SendCode | leelen/voip/dialog.c:129-138 | The datagram of a bare code, complete, from a buffer of the minimum size |
| DialogEndpoint.LeelenDialog.MayBye | leelen/voip/dialog.c:141-146 | 1 and nothing sent exactly without an identifier or when disconnected or disconnecting; otherwise a BYE, after which the dialog is disconnecting with its timer at the time of sending |
| DialogEndpoint.LeelenDialog.Send | leelen/voip/dialog.c:154-176 | 255 exactly without an identifier or with an MTU below 45; otherwise what goes on the wire is the datagram cut to the MTU |
| DialogEndpoint.LeelenDialog.Verify | leelen/voip/dialog.c:201-258 | Present fields of the message replace what is known of the peer, absent ones do not |
| DialogEndpoint.LeelenDialog.Adopt | leelen/voip/dialog.c:196-258 | Parsing and adopting a raw message: the dialog learns exactly what the parse says, and the wanted lists come back |
| DialogEndpoint.LeelenDialog.ReceiveMsg | leelen/voip/dialog.c:179-283 | Return value, reply, lists and whole new dialog for every message, every timing and both outcomes of sending the ack |
| SingleFlag.Flag.Acquire | utils/single.c:19-33 | The retry and spin loops follow the thread of the protocol through every access, for every behaviour of the other threads and of the weak exchange; false at the first access that finds the flag running, true at the first that finds it stopped; before that no comparison was decisive, and the flag was never settled at two accesses in a row |
| SingleFlag.Flag.Join | utils/single.c:12-16 | The spin loop follows the joining thread of the protocol and returns on reading zero |
| SingleFlag.Flag.Continue | utils/single.h:77-83 | A read and, if it is not positive, a separate store |
| SingleFlag.Flag.Stop | utils/single.h:125-128 | The flag is STOPPING afterwards exactly if it was RUNNING or STOPPING |
| NumberObject.LeelenNumber.Init | leelen/number.c:113-203 | Verdict and result bytes for every source string, in place too, with or without a base; bytes after the terminator do not matter and nothing is written on failure |
| NumberObject.FindSeps | leelen/number.c:118-133 | The scan finds length and separators, or the string is too long or has three |
| NumberObject.CopyPadded | leelen/number.c:158-160 | The four-byte copy right-aligns a part among zeros, whatever it reads past the part |
| NumberObject.LeelenNumber.BlockRoom | leelen/number.c:157-161 | Padded block and room, accepted exactly when both have at most four digits |
| NumberObject.LeelenNumber.TwoParts | leelen/number.c:143-162 | The cases with a block of their own agree with the parse |
| NumberObject.LeelenNumber.OnePart | leelen/number.c:163-190 | The cases that may need the base agree with the parse, with result 2 exactly for a room-only form without a base |
| NumberObject.LeelenNumber.Store | leelen/number.c:192-201 | The record; without an extension its last two bytes keep their contents |
| NumberObject.LeelenNumber.FromInt | leelen/number.c:45-58 | Unpacking in place |
| NumberObject.LeelenNumber.ToInt | leelen/number.c:23-30 | Packing, with `atoi` reading to the first character that is not a digit; for every record as the parser leaves it, the values of block and room and the extension, or the stale byte |
| NumberObject.Itoa4 | leelen/number.c:33-42 | The last four decimal digits |
| Sdp.FormatToType | utils/sdp_message.c:51-75 | The table type, or the next dynamic type, which is then used up |
| Sdp.SdpMessage.EncodeMedia | sipleelen/transaction.c:23-82 | The media appended, or nothing for port zero |
| Sdp.EncodeFormats | sipleelen/transaction.c:53-69 | Payload list and attributes of the loop that threads the dynamic counter |
| Sdp.SdpMessage.ExtractMedia | sipleelen/transaction.c:85-142 | The names of the wanted kinds over all media, in order; 1 and nothing when there is no description |
| Sdp.ReadNames | sipleelen/transaction.c:110-131 | The names of one media's attributes |
| DiscoveryRecord.Record.Discover | leelen/discovery/discovery.c:27-68 | The caller takes the steps of the protocol: reset to 254 and send under the lock on the sockets that are open, then it returns what others left while it waited; 255 when the daemon does not run |
| DiscoveryRecord.Record.Advertised | leelen/discovery/discovery.c:141-161 | The receive loop takes the steps of the protocol: a look without the lock, and host and result stored exactly if the second look under it finds the result above 8 too |
| SingleFlag.Flag.JoinInline | utils/single.h:111-115 | One read decides whether to wait; the loop follows the joining thread of the protocol; STOPPING returns at once |
| MessageCodec.LeelenMessage.StoreHeader | leelen/voip/message.c:22-27 | Code and id are stored little-endian, each only if the length has room for it |
| MessageCodec.TokenSplits | leelen/voip/message.c:101-103 | The token found by scanning is the first of the non-empty lines, and the rest are those after it |
| MessageTheorems.CompleteArrival | sipleelen/sipleelen.c:283-284 | A clean message that arrives whole parses to its normal form, whichever lists the caller discards, also when the receiver overwrites the last line feed |
| MessageTheorems.Delivered | leelen/voip/message.c:85-177 | Parsing any prefix of a printed text is folding the cut list of lines |
| MessageTheorems.TokensOfCut | leelen/voip/message.c:101-103 | Tokenising a cut text gives the original lines with only the last one cut |
| MessageTheorems.CodesFit | leelen/voip/dialog.c:129-138 | A bare code is never truncated |
| MessageTheorems.ParseIsClean | leelen/voip/message.c:85-177 | Whatever bytes arrive, no parsed field holds a separator |
| MessageTheorems.ParseFits | leelen/voip/message.c:107-140 | Whatever bytes arrive, parsed fields stay within the C structure |
| ParseTheorems.LineMeans | leelen/voip/message.c:101-174 | What any single line changes, field by field; everything its key does not name stays |
| ParseTheorems.FromLineCases | leelen/voip/message.c:104-130 | A From line without a question mark, or with nothing behind it, leaves the type alone, and a number of twelve or more characters counts as none |
| ParseTheorems.NumeralFills | leelen/voip/message.c:123-130 | A type or port that is a numeral, with white space or a sign before it, is its value; anything behind the digits makes it zero |
| ParseTheorems.NoNumeralIsZero | leelen/voip/message.c:147-154 | A type or port without digits is zero |
| ParseTheorems.TokensSplit | leelen/voip/message.c:101-103 | A line feed separates what is read before and after it |
| CStrings.PrefixValue | leelen/voip/message.c:147-154 | A proper prefix of a numeral never has the value of the whole, zero apart |
| CStrings.StrtolReads | leelen/voip/message.c:123-125 | `strtol` reads white space, one sign and all digits, and clamps |
| CStrings.StrtolReadsNothing | leelen/voip/message.c:123-125 | Without a digit there it reads nothing |
| CStrings.DecimalIsShortest | leelen/voip/message.c:29-30 | `%d` prints no leading zeros |
| CStrings.PrintedAt | leelen/voip/message.c:29-30 | Every byte of a buffer after one `snprintf` with room: text, NUL, or as it was |
| PrintTheorems.DatagramStarts | leelen/voip/protocol.h:78-92 | Every datagram starts with code and identifier, little-endian |
| PrintTheorems.WordIsRead | leelen/voip/protocol.h:78-92 | Four little-endian bytes are read as the word they carry |
| Dialogs.TimeoutReachedIsExact | utils/timeval.h:26-41 | The borrow makes the comparison exact in nanoseconds, for clocks that step backwards too |
| DialogEndpoint.Print | leelen/voip/dialog.c:160-168 | A printed buffer starts with the datagram and holds the code in its header |
| DialogRuns.AckInTime | leelen/voip/dialog.c:179-195 | The same for one receive, with the whole new core, its timer and its activity stamp |
| DialogAnswers.CodeIsNotAcked | leelen/voip/dialog.c:260-268 | When the ack cannot be sent the receive returns -1 and neither state nor timer nor stamp moves |
| DialogAnswers.ForeignIsRefused | leelen/voip/dialog.c:182 | A message of another dialog returns 255 and changes nothing |
| DialogAnswers.AckIsOverdue | leelen/voip/dialog.c:84-97 | The ack is overdue exactly if the timer is not set or the timeout has passed; what that undoes |
| DialogAnswers.MediaMessageSays | leelen/voip/dialog.c:160-168 | What a message with media, cut to the MTU, says of its sender |
| DialogAnswers.CodeMessageSays | leelen/voip/dialog.c:129-138 | A bare code names both sides and nothing else |
| DialogRuns.HearMovesCore | leelen/voip/dialog.c:179-283 | A received message moves state and timer only by ack, by timeout, or by a code that could be acked |
| DialogRuns.IdentityStays | leelen/voip/dialog.c:100-283 | No event changes the identifier or the timeout of a dialog |
| DialogRuns.AckingIsNeutral | leelen/voip/dialog.c:119-125 | Sending an OK moves neither the state nor the timer |
| Network.RunTowardsEnd | leelen/voip/dialog.c:179-283 | The phase invariant holds along every timely run, every code sent pays for three moves, a side sends at most one BYE, and a run leaves the first state if and only if a side has sent |
| HangUp.RunEnds | leelen/voip/dialog.c:179-283 | Along every timely run after the hang-up the peer's state is what it heard last |
| Exchange.InvitationHeard | leelen/voip/dialog.c:179-283 | The peer of an invitation truncated at any MTU, whichever lists it wants, learns the caller, gets the wanted lists cut short (whole if they fit), acks once and is connected; if it knew no port it ends with the caller's if and only if the digits arrived or there is none to tell, and otherwise with a smaller one |
| Exchange.AckHeard | leelen/voip/dialog.c:184-195 | The ack completes the call if and only if it is in time; then the caller learns the peer, unless it wants no list and the ack is not parsed; late it is disconnected with a cleared timer |
| Single.FlagMoves | utils/single.h:77-83 | Acquire, finish and stop are the only changes of the flag |
| Single.AccessesAct | utils/single.h:77-128 | The outcome of every other access, in the values of the flag |
| SingleFlag.StillTrying | utils/single.c:24-31 | What an acquire that is not over has found: it waits only while it reads STOPPING |
| Numbers.PadKeepsValue | leelen/number.c:139-160 | Padded parts keep their value and are equal exactly when their values are |
| NumberObject.LeelenNumber.Digits | leelen/number.c:168-190 | Base block or own block, room and extension by length |
| NumberPacking.PackWritten | leelen/number.c:13-30 | The packed word of any parsed number as a sum of its three fields, stale extension byte included |
| NumberPacking.WrittenParts | leelen/number.c:192-201 | The record byte by byte; without an extension its last two bytes keep their contents |
| Sdp.LookupInjective | utils/sdp_message.c:19-48 | Different known names have different types |
| Sdp.TableRange | utils/sdp_message.c:19-48 | Static types are below the dynamic range, except the one for telephone events on audio |
| Sdp.EntriesAllocate | sipleelen/transaction.c:53-69 | Known names get their table type and unknown ones consecutive types from 96, all below 127 |
| SdpMedia.NameIsRead | sipleelen/transaction.c:115-120 | The name is what follows the first space and all white space after it, if anything does |
| SdpMedia.OtherAttributesIgnored | sipleelen/transaction.c:112-116 | Attributes that are no rtpmap, have no value or no space in it name nothing, wherever they stand |
| SdpMedia.StaticTypes | utils/sdp_message.c:19-48 | The static payload types of section 6 of RFC 3551 that the program knows |
| Discovery.RunKeepsInv | leelen/discovery/discovery.c:141-161 | The lock is held by exactly the thread at a locked point, and what it has read stays true |
| Discovery.OnlyResetsOpen | leelen/discovery/discovery.c:33-34 | A host is stored only while nothing has been since the last reset, and only a reset allows the next one |
| Discovery.SettledBy | leelen/discovery/discovery.c:153-160 | After a reset, a result other than a timeout belongs to the last stored host, and that was stored after the reset |
| Sdp.UnknownEntries | sipleelen/transaction.c:53-69 | Formats outside the table get consecutive types, and the one that would get 127 is dropped |
| Discovery.FetchedReply | leelen/discovery/discovery.c:61-63 | The same at the instant of fetching, under the lock |
| DiscoveryRecord.SendOutcome | leelen/discovery/discovery.c:37-51 | Sending succeeds if and only if the specific socket did when it is open, and otherwise if either family did |

## Left out

- MessageCodec.LeelenMessage.ToString: lengths are unbounded integers; the wrap of `unsigned int` for texts of 4 GiB is not modelled.
- MessageCodec.LeelenMessage.Init: allocation failure while growing a list, with its return of -1, and the log lines.
- DialogEndpoint.LeelenDialog.SendMsg: the peer address is left out, so `sendto` is only an outcome.
- DialogEndpoint.LeelenDialog.constructor: the configuration is passed field by field; addresses, `duration` and `userdata` are left out.
- DialogRuns.TimeoutSettles: states and timers of reachable dialogs need a positive clock, as the source takes zero seconds for "not set".
- Network.PhaseConverges: loss and late acks are excluded, because the source has no retransmission; `Exchange.Handshake` says what a late ack does.
- SingleFlag.Flag.Acquire: a spin loop runs over a finite list of what the other threads leave, because it need not end otherwise; progress depends on the scheduler.
- SingleFlag.Flag.Continue: what other threads do between two accesses is a parameter; `single_run` and `single_start` are steps of `Single` only.
- NumberObject.LeelenNumber.Init: the source buffer has at least twelve bytes, so that the fixed-size copies stay inside it; bytes after the terminator are arbitrary.
- Sdp.SdpMessage.EncodeMedia: osip lists are sequences and never fail to grow, so the return of 1 is left out.
- Sdp.SdpMessage.ExtractMedia: growing a list never fails, so the return of -1 is left out.
- DiscoveryRecord.Record.Advertised: parsing the advertisement is an opaque host and a result of 0 to 7; the address filter is a free choice.
- DiscoveryRecord.Record.Discover: the outcome of each send is a parameter, and the wait may end at any time.
- Sdp.FormatToType: `sdp_media_add_attribute` with a negative type, which this code never passes.
- Weak memory: all shared accesses are sequentially consistent.
- Byte order: the dialog identifier is copied in host order by the source; the model takes a little-endian host.
- Sockets, polling, address strings, logging, the command line and thread names.
- SIP sessions, transactions and the sweep over them, which depend on osip's state machine.
- `LeelenMessage_init_reply` and `LeelenMessage_copy_config`, which only copy fields.
- `LeelenNumber_tobytes`, `LeelenNumber_frombytes` and `LeelenNumber_equal`.
- Removal from pointer vectors, CIDR and policy routing, `leelen/voip/voip.c`, and the two-threaded forwarder.
