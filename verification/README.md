# Touchless: verified models of the codecs, the gesture engine and its concurrent parts

Touchless turns hand-tracking frames into mouse clicks, scrolls, zooms, rotations, desktop swipes and touches.
This project models four parts of it in Dafny and proves what each is for. `dafny verify dfyconfig.toml` checks
the whole project.

**The value codecs** (`ValueTree`, `Streams`, `Unicode`, `JsonSyntax`, `JsonPrinter`, `JsonParser`,
`JsonRoundTrip`, `JsonEscapes`, `JsonNumbers`, `JsonGrammar`, `JsonLayout`, `JsonDoubles`, `JsonStrictness`, `MessagePack`,
`MessagePackSizes`, `MessagePackWriter`). `Value` is a tree with a JSON printer that
encodes its layout in a signed indent, a hand-written parser, two UTF-8 encoders, a decoder, and a MessagePack
writer. The writers and parsers are methods over a stream, each proved equal to a function; the round trips are
lemmas about the functions. `JsonGrammar` states the accepted language as a type of syntax trees with a spelling and a
meaning, apart from the functions that read it, and `JsonLayout` states the printer's layout as such a tree.

**The gesture modes** (`Observations`, `MachineInputs`, `GestureTrace`, `Presses`, `FingerMouseChart`, `FingerMouseLaws`,
`FingerMouse`, `BasicModeChart`, `BasicModeLaws`, `BasicMode`, `GestureOnlyChart`, `GestureOnlyLaws`, `GestureOnlyMode`,
`GesturePhases`, `GestureMomentum`, `ScrollHistory`, `LPGesture`, `GestureRuns`). Each mode is
a run-to-completion machine whose handlers send exit and enter in a loop. A frame is a record of what the handlers
observe. The `...Chart` modules define the reaction to one input and the loop; the classes hold one method per
handler, proved against the chart; an observer (`GestureTrace.Monitor`) watches every call made to the operating
system. A handler spells out its exit, enter, frame and lost-focus cases with early returns and fall-through; the chart
states the same reaction as a table of states, so each handler is proved against a different form. The `...Laws` modules
say what the charts come to for the person using them, in terms of frames, calls and resting states: which observation
opens which gesture, over which frames a state is kept, how long recognition takes, how presses are numbered. `GesturePhases` is
the object that receives the gesture calls, with its heartbeat-driven momentum, and
`GestureRuns` puts modes and gesture object together.

**The supporting structures** (`TimedHistory`, `BoundedQueue`, `Reals`, `RollingMean`, `CategoricalFilter`, `GestureFilters`,
`TouchSets`, `TouchFrames`, `TouchManager`).

**The concurrent parts** (`Heartbeat`, `AutowiredChain`, `JunctionBox`, `ObjectPool`). Each is a set of atomic
steps that callers, workers and callbacks interleave in any order; a class holds one method per step.

## What does not hold as promised

The code was kept as it is. Where an obvious law fails, the exact condition under which it holds is proved; where a
comment misdescribes the code, a lemma says what the code does.

- JSON text gives back the value exactly when no string in it holds a NUL byte and every double in it is written with a
  fraction or an exponent that scans as the same double (`JsonDoubles.RoundTripIff`, `JsonRoundTrip.JsonRoundTrip`).
- What the printer writes is a text of RFC 8259 exactly when no string or key holds, before its first NUL, a control
  character other than the five that have a letter of their own (`JsonStrictness.PrintedIsRfcTextIff`).
- The parser accepts more than RFC 8259: form feeds between tokens, raw control characters in strings, and commas between
  elements that may be left out, repeated or trail. The language is `JsonGrammar.ParserReadsGrammar`.
- MessagePack's unsigned packing is the shortest exactly for numbers above 127, and the signed one exactly for numbers that no
  unsigned format of half the width holds (`MessagePackSizes.UnsignedIsShortestIff`, `MessagePackSizes.SignedIsShortestIff`).
- UTF-16 text survives exactly when every high surrogate is followed by a low one; otherwise the converter silently
  truncates where the JSON string parser rejects (`Unicode.Utf16RoundTrip`, `JsonEscapes.EncodersAgree`).
- The exit/enter loop of `BasicMode` diverges exactly on frames whose foremost pointable names a non-negative hand
  the frame does not contain (`BasicModeChart.LoopTerminatesIffNotSpinning`).
- Two desktop swipes may begin at the same instant once focus has been lost (`GestureOnlyChart.LostFocusBreaksSpacing`):
  swipes are safe, whatever frames follow any part of a run, exactly when focus is never lost less than 500 ms after one
  began (`GestureOnlyChart.AlwaysSpacedIffPatient`).
- `stopActiveEvents` leaves nothing active exactly when the machine was resting without fingers or the frame starts nothing
  at once: over a finger that still touches, the button is pressed again (`FingerMouseChart.LostFocusIsQuietIff`,
  `BasicModeChart.LostFocusIsQuietIff`). In the gesture-only mode it always does (`GestureOnlyChart.LostFocusIsQuiet`).
- "Average the history" (source/OSInteraction/LPGesture.cpp:166) picks an entry with the largest component
  (`GestureMomentum.PickIsLargest`).
- Momentum is damped by the sign of its components: opposite momenta are damped alike exactly when both or neither is above
  0.4 along a positive axis (`ScrollHistory.OppositesDampAlikeIff`).
- The Windows line timer compares microseconds with 100000 / 60, not a sixtieth of a second; it delays lines and loses
  none (`GestureMomentum.ScrollSettles`, `GestureMomentum.NothingIsLost`).
- The kept history is one frame longer than needed exactly when its two oldest frames carry the same time
  (`TimedHistory.KeptIsShortestIff`).
- `CategoricalFilter::reset` asserts readiness, which holds exactly for windows of at most 2
  (`CategoricalFilter.ResetIsReadyIff`). No caller resets after construction.
- Windows 8 pointer ids are touch ids modulo 256: a frame sends at most one report per pointer exactly when the ids in
  it are distinct modulo 256 (`TouchFrames.OneReportPerPointerIff`).
- `Heartbeat::Restart` is documented to invoke the callback at once; it only makes the worker wait again
  (`Heartbeat.RestartOnlyPostpones`).
- `Start` with an empty callback reaches a worker exactly when the callback is stored while running
  (`Heartbeat.EmptyCallbackReachesIff`), so a run is safe from empty callbacks exactly when none ever is
  (`Heartbeat.SafeIffCareful`).
- `ObjectPool::Rundown` leaves the cache empty for ever, whatever other threads do, exactly when the pool it is called on
  has nothing cached, being built or issued under the current version and a limit of zero already
  (`ObjectPool.RundownEmptiesCacheIff`). From any pool it does so as long as nobody raises the maximum meanwhile
  (`ObjectPool.RundownEndsEverything`).
- `SetMaximumPooledEntities` is documented to clamp its argument to the limit; it does not
  (`ObjectPool.ObjectPool.SetMaximumPooledEntities`).

## Model

| member | source | states |
|---|---|---|
| ValueTree.InsertIsMapUpdate | source/Utility/Value.cpp:183-206 | the ordered entry list that stands for `std::map` stays ordered; inserting replaces or adds exactly one key |
| ValueTree.LessIsTotal | source/Utility/Value.cpp:133-151 | hash keys are ordered by a strict total order on bytes |
| Unicode.EncodeAt | source/Utility/Value.cpp:401-445 | one step of the converter encodes the first code point, or stops where a high surrogate has no partner |
| Unicode.ConvertWideStringToUTF8String | source/Utility/Value.cpp:401-445 | the loop produces the encoding of the longest encodable prefix |
| Unicode.ConvertUTF8StringToWideString | source/Utility/Value.cpp:447-496 | the byte-by-byte loop computes the decoder, for both widths of `wchar_t` |
| Unicode.WellPairedIsEncodable | source/Utility/Value.cpp:401-445 | the converter reaches the end of UTF-16 text iff every high surrogate is followed by a low one |
| Unicode.DecodeOfEncode | source/Utility/Value.cpp:401-496 | decoding what was encoded gives back exactly the prefix before the first unpaired high surrogate |
| Unicode.Utf16RoundTrip | source/Utility/Value.cpp:401-496 | with a 2-byte `wchar_t` the round trip is the identity iff the text is well paired |
| Unicode.Utf32RoundTrip | source/Utility/Value.cpp:401-496 | with a 4-byte `wchar_t` it is the identity iff all units are code points other than high surrogates |
| JsonPrinter.WriteString | source/Utility/Value.cpp:45-90 | strings are quoted and escaped, stopping at the first NUL |
| JsonPrinter.ToStream | source/Utility/Value.cpp:35-159 | the printer appends the text the syntax prescribes, for every signed indent |
| JsonPrinter.WriteArray | source/Utility/Value.cpp:114-132 | elements, separators and layout of an array |
| JsonPrinter.WriteHash | source/Utility/Value.cpp:133-155 | entries in key order, separators and layout of a hash |
| JsonPrinter.ToJSON | source/Utility/Value.cpp:25-31 | `ToJSON` prints at indent 0 when pretty and at the packing indent 1 otherwise |
| JsonParser.InStream.GetDigit | source/Utility/Value.h:209-216 | a digit is consumed, or nothing is and the parse fails |
| JsonParser.InStream.GetUnicode | source/Utility/Value.h:242-252 | four hex digits as a number |
| JsonParser.InStream.SkipWhitespace | source/Utility/Value.cpp:389-399 | exactly the leading blanks are consumed |
| JsonParser.InStream.ParseCodePoint | source/Utility/Value.cpp:250-263 | one escape, or a surrogate pair of escapes, and failure on an unpaired high surrogate |
| JsonParser.InStream.ParseString | source/Utility/Value.cpp:230-290 | the string loop reads what the grammar reads and leaves what it leaves |
| JsonParser.InStream.ParseNumber | source/Utility/Value.cpp:292-359 | integer, fraction and exponent, and the choice of type by range |
| JsonParser.InStream.ParseArray | source/Utility/Value.cpp:208-228 | the array loop reads what the grammar reads |
| JsonParser.InStream.ParseObject | source/Utility/Value.cpp:183-206 | the object loop reads what the grammar reads; a repeated key keeps its last value |
| JsonParser.InStream.ParseValue | source/Utility/Value.cpp:161-181 | the parser refines the grammar on every input, failures included |
| JsonParser.FromJSON | source/Utility/Value.cpp:161-181 | parsing a whole text |
| JsonRoundTrip.ReadBack | source/Utility/Value.cpp:35-399 | parsing printed text followed by anything that cannot extend a number returns a known tree and exactly that rest, for every indent and slash flag |
| JsonRoundTrip.ReadbackOfNulFree | source/Utility/Value.cpp:292-359 | for NUL-free trees that tree is the original with integers re-typed by range |
| JsonRoundTrip.JsonRoundTrip | source/Utility/Value.cpp:35-399 | for trees without doubles the JSON round trip returns the re-typed value and the rest iff no string or key holds a NUL |
| JsonRoundTrip.FromJsonOfToJson | source/Utility/Value.cpp:25-31 | the same for `FromJSON(ToJSON(v))`, whatever the flags |
| JsonRoundTrip.TextEqualityIsValueEquality | source/Utility/Value.h:112 | for NUL-free trees without doubles, comparing values by their JSON text is comparing them up to integer type |
| JsonNumbers.NumbersAreRead | source/Utility/Value.cpp:292-359 | a number is read iff its text is one of section 6 of RFC 8259 and what follows cannot be more of it; it is a double of the whole text iff it has a fraction or an exponent, else the nearest 64-bit integer typed by range |
| JsonGrammar.TextsAreRead | source/Utility/Value.cpp:161-399 | every text of the grammar, after blanks and before anything that leaves it its end, is read whole and for what it means |
| JsonGrammar.ParserReadsGrammar | source/Utility/Value.cpp:161-399 | the parser returns a value and a rest iff the text is, after blanks, a text of the grammar with that meaning, followed by that rest |
| JsonLayout.PrintedIsTree | source/Utility/Value.cpp:35-159 | `ToJSON` writes the value's syntax tree: escapes, one comma between elements, and when pretty a line per element indented by two blanks per level and one blank after a colon |
| JsonLayout.TreeIsStrictIff | source/Utility/Value.cpp:45-90 | that tree has the commas and blanks RFC 8259 asks for, and no raw control character iff the value has none |
| JsonStrictness.PrintedIsRfcTextIff | source/Utility/Value.cpp:45-90 | the text written is one of RFC 8259 iff no string or key has a raw control character before its first NUL |
| JsonDoubles.PrintedIsRead | source/Utility/Value.cpp:35-399 | any tree of finite doubles, printed with either flag, is read whole, as the tree with its doubles rescanned and its strings cut at their first NUL |
| JsonDoubles.RoundTripIff | source/Utility/Value.cpp:25-31 | for every tree of finite doubles `FromJSON(ToJSON(v))` is `v` up to integer types iff no string holds a NUL and every double is written as a real that scans as itself |
| JsonEscapes.EncodersAgree | source/Utility/Value.cpp:230-290 | the two UTF-8 encoders agree on well-paired text spelled as escapes in either case; on other text the parser fails |
| MessagePack.UnpackOfPack | source/Utility/Value.cpp:549-710 | a decoder written from the MessagePack formats returns the value's meaning and exactly the bytes that follow |
| MessagePack.PackIsPrefixFree | source/Utility/Value.cpp:549-710 | two packings that agree, with anything after them, pack the same meaning and are followed by the same bytes |
| MessagePackSizes.UnsignedIsShortest | source/Utility/Value.cpp:620-653 | no unsigned format that decodes to the number is shorter |
| MessagePackSizes.SignedIsShortest | source/Utility/Value.cpp:570-609 | no signed format that decodes to the number is shorter |
| MessagePackSizes.UnsignedIsShortestIff | source/Utility/Value.cpp:620-653 | among all formats an unsigned packing is shortest iff the number is above 127 |
| MessagePackSizes.SignedIsShortestIff | source/Utility/Value.cpp:570-609 | a signed one iff no unsigned format of half its width holds the number |
| MessagePackSizes.RawIsShortest | source/Utility/Value.cpp:551-569 | no other packing of a string is shorter |
| MessagePackWriter.SwapInPlace | source/Utility/Value.cpp:533-545 | the swap loop reverses the bytes in place |
| MessagePackWriter.PackedInteger | source/Utility/Value.cpp:520-547 | multi-byte fields are big-endian on hosts of either order |
| MessagePackWriter.PackedDouble | source/Utility/Value.cpp:520-547 | the same for the eight bytes of a double |
| MessagePackWriter.WriteSigned | source/Utility/Value.cpp:570-609 | appends the signed packing of the number |
| MessagePackWriter.WriteUnsigned | source/Utility/Value.cpp:620-653 | appends the unsigned packing of the number |
| MessagePackWriter.WriteRaw | source/Utility/Value.cpp:551-569 | a string behind its length field, or failure iff it is too long |
| MessagePackWriter.ToBinaryStream | source/Utility/Value.cpp:549-710 | the writer succeeds iff every length fits 32 bits and then appends exactly the packing |
| MessagePackWriter.ToMessagePack | source/Utility/Value.cpp:512-518 | the whole packing, or nothing |
| FingerMouse.FingerMouse.TransitionToNFingersNoInteraction | source/GestureInteraction/FingerMouse.cpp:474-508 | always asks for a state: the one the palm and the finger count call for |
| FingerMouse.FingerMouse.StateZeroFingers | source/GestureInteraction/FingerMouse.cpp:510-528 | leaves as soon as fingers are unambiguous or a palm shows, to the state they call for; agrees with the chart on every input |
| FingerMouse.FingerMouse.StateOneHovering | source/GestureInteraction/FingerMouse.cpp:530-561 | a touch leads to clicking unless the number of fingers or the palm says otherwise; agrees with the chart on every input, enter falling through to the frame |
| FingerMouse.FingerMouse.StateOneClicking | source/GestureInteraction/FingerMouse.cpp:563-642 | presses on entry with the number counted up from recent clicks close by, releases on exit unless a drag follows, and asks for the drag only after 500 ms without movement |
| FingerMouse.FingerMouse.StateOneDragging | source/GestureInteraction/FingerMouse.cpp:644-679 | never presses, and releases on exit the button it took over |
| FingerMouse.FingerMouse.StateTwoHovering | source/GestureInteraction/FingerMouse.cpp:681-719 | a touch leads to recognition, or straight to scrolling where rotating and zooming are off |
| FingerMouse.FingerMouse.StateTwoRecognition | source/GestureInteraction/FingerMouse.cpp:721-795 | the first motion recognised picks rotating, zooming or scrolling; lifting goes back to hovering |
| FingerMouse.FingerMouse.StateTwoGesture | source/GestureInteraction/FingerMouse.cpp:797-994 | the rotating, scrolling and zooming handlers, which differ in the gesture and its apply call |
| FingerMouse.FingerMouse.StateThreeRecognition | source/GestureInteraction/FingerMouse.cpp:1077-1138 | a swipe needs 10 ms of translation with a dominant axis |
| FingerMouse.FingerMouse.StateThreeSwipeVertical | source/GestureInteraction/FingerMouse.cpp:1140-1193 | begins on entry, ends on exit, and turns horizontal only once lifted; it still applies the frame in which it turns |
| FingerMouse.FingerMouse.StateThreeSwipeHorizontal | source/GestureInteraction/FingerMouse.cpp:1195-1242 | begins on entry, ends on exit, applies on every frame it stays for |
| FingerMouse.FingerMouse.StatePalmSwipe | source/GestureInteraction/FingerMouse.cpp:1293-1325 | begins on entry, ends on exit, and lasts while the palm does |
| FingerMouse.FingerMouse.PerformTransitions | source/Utility/StateMachine.h:201-257 | the exit/enter loop terminates and is the chart's chain of transitions |
| FingerMouse.FingerMouse.RunCurrentState | source/Utility/StateMachine.h:149-153 | one input run to completion |
| FingerMouse.FingerMouse.Shutdown | source/Utility/StateMachine.h:156-168 | one exit, and only of a running machine |
| FingerMouse.FingerMouse.ProcessFrameInternal | source/GestureInteraction/FingerMouse.cpp:86-110 | the machine is started on the first frame and then given the frame |
| FingerMouseChart.EnteringDescends | source/GestureInteraction/FingerMouse.cpp:510-1325 | each state entered on the way ranks below the one before, for any fixed frame |
| FingerMouseChart.Run | source/Utility/StateMachine.h:201-257 | at most four transitions for one input, from every state |
| FingerMouseChart.FourTransitionsHappen | source/GestureInteraction/FingerMouse.cpp:510-849 | the bound is attained in a run: started over two rotating fingers, the machine loses focus over them and comes back to rotating |
| FingerMouseChart.RunIsDisciplined | source/GestureInteraction/FingerMouse.cpp:510-1325 | one input keeps gestures and button in alternation |
| FingerMouseChart.EveryRunIsDisciplined | source/GestureInteraction/FingerMouse.cpp:510-1325 | in every run from construction gestures and clicks alternate, clicks are numbered 1 to 3, every apply falls in a gesture of its kind, the button is down exactly in the clicking and dragging states, and shutdown closes everything |
| FingerMouseChart.LostFocusIsQuietIff | source/GestureInteraction/FingerMouse.cpp:178-181 | `stopActiveEvents` leaves no gesture open and the button up iff the machine had no fingers or the frame does not start anything at once |
| FingerMouseLaws.ProcessedFrameRests | source/GestureInteraction/FingerMouse.cpp:510-1325 | whatever state it was in, after a processed frame the machine rests in a state that the frame's palm, fingers, zone and motion fit |
| FingerMouseLaws.OpeningsAreWarranted | source/GestureInteraction/FingerMouse.cpp:510-1325 | every press and every gesture begun in a step is called for by the frame of that step: rotating by rotation, zooming by scaling, scrolling by translation or a touch with the others off, swipes along the axis that won |
| FingerMouseLaws.KeptIff | source/GestureInteraction/FingerMouse.cpp:510-1325 | a frame leaves a state alone iff it fits and nothing is due, and an open gesture then moves on by its one call |
| FingerMouseLaws.TwoFingersAreRecognised | source/GestureInteraction/FingerMouse.cpp:721-795 | all that two fingers in recognition lead to in a frame, motion by motion, for every frame |
| FingerMouseLaws.TwoFingersTouch | source/GestureInteraction/FingerMouse.cpp:681-719 | two fingers that touch are recognised in the same frame, or scroll where rotating and zooming are off |
| FingerMouseLaws.ThreeFingersAreRecognised | source/GestureInteraction/FingerMouse.cpp:1077-1138 | three fingers that touch swipe along the axis that won iff they have translated for 10 ms |
| FingerMouseLaws.VerticalSwipeTurns | source/GestureInteraction/FingerMouse.cpp:1140-1193 | a vertical swipe that is lifted and turns is moved on once more and followed by a horizontal one |
| FingerMouseLaws.GestureEnds | source/GestureInteraction/FingerMouse.cpp:797-1325 | any other gesture makes no further move in the frame that ends it |
| FingerMouseLaws.PalmIsRecognised | source/GestureInteraction/FingerMouse.cpp:1244-1291 | a palm swipes iff it has translated near the screen for 100 ms |
| FingerMouseLaws.OneFingerPresses | source/GestureInteraction/FingerMouse.cpp:530-561 | one finger that touches presses at once |
| FingerMouseLaws.DragTakesOver | source/GestureInteraction/FingerMouse.cpp:596-642 | a click becomes a drag, without a call, iff it is eligible, unmoved and older than 500 ms |
| FingerMouseLaws.SettlingCalls | source/Utility/StateMachine.h:201-257 | however many states a frame passes through, the calls are those that close the first and open the last |
| FingerMouseLaws.SwipesTakeTime | source/GestureInteraction/FingerMouse.cpp:1077-1291 | in every run a swipe begins 10 ms after three-finger recognition was reached, 100 ms after palm recognition, or as a vertical one turns, and from no other state |
| FingerMouseLaws.PressesAreCounted | source/GestureInteraction/FingerMouse.cpp:563-679 | in every run presses are numbered by the press before them, releases by the press they end, and a drag begins iff a press has been held still over a fitting finger for over 500 ms |
| BasicModeLaws.ProcessedFrameRests | source/GestureInteraction/BasicMode.cpp:257-859 | after a processed frame the machine rests in a state that the frame fits, but for a palm that starts to swipe in the frame in which it stops being one |
| BasicModeLaws.OpeningsAreWarranted | source/GestureInteraction/BasicMode.cpp:257-859 | every press and every gesture begun in a step is called for by its frame and, for scrolling, by the hand then followed |
| BasicModeLaws.KeptIff | source/GestureInteraction/BasicMode.cpp:257-859 | a frame leaves a state alone iff it fits and nothing is due; an open gesture then moves on by its one call, and a click is released once after 150 ms |
| BasicModeLaws.HandsAreRecognised | source/GestureInteraction/BasicMode.cpp:621-669 | two hands rotate or zoom, as the motion is, iff it is clear and 20 ms have passed |
| BasicModeLaws.PalmIsRecognised | source/GestureInteraction/BasicMode.cpp:807-831 | a palm that has translated for 100 ms swipes, even in the frame in which it stops being one |
| BasicModeLaws.FollowedHandScrolls | source/GestureInteraction/BasicMode.cpp:413-485 | hovering follows one hand, the favourite pointable's or else the foremost's, and scrolls iff it touches |
| BasicModeLaws.ArrivalFollowsForemost | source/GestureInteraction/BasicMode.cpp:257-485 | arriving in hovering makes the foremost pointable the favourite and its hand the one followed |
| BasicModeLaws.FavoriteIsKept | source/GestureInteraction/GestureInteractionManager.cpp:211-221 | frames keep the favourite while they have it and replace it by the foremost otherwise |
| BasicModeLaws.GesturesTakeTime | source/GestureInteraction/BasicMode.cpp:621-831 | in every run two hands rotate or zoom 20 ms after recognition was reached, a palm swipes 100 ms after, and from no other state |
| BasicModeLaws.PressesAreCounted | source/GestureInteraction/BasicMode.cpp:285-411 | in every run presses are numbered by the press before them and releases by the press they end |
| BasicMode.BasicMode.FavoritePointableId | source/GestureInteraction/GestureInteractionManager.cpp:211-221 | the favourite is kept while valid and otherwise becomes the foremost |
| BasicMode.BasicMode.TransitionToNPointablesNoInteraction | source/GestureInteraction/BasicMode.cpp:223-255 | which state the frame asks for |
| BasicMode.BasicMode.StateOneHovering | source/GestureInteraction/BasicMode.cpp:285-350 | a touch presses the button in the frame it leaves hovering, with the number counted up from recent clicks close by |
| BasicMode.BasicMode.StateOneClickCooldown | source/GestureInteraction/BasicMode.cpp:352-411 | releases once, after 150 ms of touching or on exit |
| BasicMode.BasicMode.StateTwoPlusHovering | source/GestureInteraction/BasicMode.cpp:413-485 | follows the hand of the favourite pointable, scrolls when that hand touches, and gives up when the hand is gone |
| BasicMode.BasicMode.StateTwoPlusScrolling | source/GestureInteraction/BasicMode.cpp:487-571 | scrolls while the followed hand touches; its assertion that this hand is valid never fails |
| BasicMode.BasicMode.StateHandsRecognition | source/GestureInteraction/BasicMode.cpp:621-669 | two hands rotate or zoom after 20 ms of the one motion |
| BasicMode.BasicMode.StateHandsGesture | source/GestureInteraction/BasicMode.cpp:671-769 | the two-handed rotating and zooming handlers |
| BasicMode.BasicMode.StatePalmSwipe | source/GestureInteraction/BasicMode.cpp:833-859 | begins on entry, ends on exit, and applies on every frame, the last included |
| BasicMode.BasicMode.ScrollingHasItsHand | source/GestureInteraction/BasicMode.cpp:413-571 | scrolling is only asked for with a hand of the frame |
| BasicMode.BasicMode.PerformTransitions | source/Utility/StateMachine.h:201-257 | the exit/enter loop terminates on frames that do not spin and is the chart's chain |
| BasicMode.BasicMode.ProcessFrameInternal | source/GestureInteraction/BasicMode.cpp:84-119 | the machine is started on the first frame and then given the frame |
| BasicModeChart.LoopTerminatesIffNotSpinning | source/GestureInteraction/BasicMode.cpp:223-485 | the loop ends from every state within three transitions iff the frame does not name a hand it lacks; if it does, the loop goes on for ever |
| BasicModeChart.Run | source/Utility/StateMachine.h:201-257 | at most three transitions for one input |
| BasicModeChart.EveryRunIsDisciplined | source/GestureInteraction/BasicMode.cpp:257-859 | in every run gestures and clicks alternate, clicks are numbered 1 to 3, applies fall in their gestures, the button is down only in the click cooldown, and shutdown closes everything |
| BasicModeChart.ReleasedInTime | source/GestureInteraction/BasicMode.cpp:352-411 | after any processed frame more than 150 ms past the click the button is up |
| BasicModeChart.LostFocusIsQuietIff | source/GestureInteraction/BasicMode.cpp:121-124 | `stopActiveEvents` leaves no gesture open and the button up iff the machine had no pointables or the frame does not start anything at once |
| GestureOnlyMode.GestureOnlyMode.CountBuckets | source/GestureInteraction/GestureOnlyMode.cpp:67-78 | the counting loop fills the buckets with the occurrences in the window |
| GestureOnlyMode.GestureOnlyMode.MakeBuckets | source/GestureInteraction/GestureOnlyMode.cpp:67-85 | the buckets hold the shares of the window, and the frame count is never zero where it divides |
| GestureOnlyMode.WindowIsOfWholeHistory | source/GestureInteraction/GestureOnlyMode.cpp:56-78 | the window of the purged history is the window of everything ever added |
| GestureOnlyMode.GestureOnlyMode.SelectInputs | source/GestureInteraction/GestureOnlyMode.cpp:87-110 | the if/else chain sends the count event the shares call for, and touching or not touching |
| GestureOnlyMode.GestureOnlyMode.ProcessFrameInternal | source/GestureInteraction/GestureOnlyMode.cpp:46-127 | one frame: history, buckets, events and the runs they cause |
| GestureOnlyMode.GestureOnlyMode.StateGestureRecognition | source/GestureInteraction/GestureOnlyMode.cpp:248-298 | with enough history a count event leads to hovering, a palm swipe, or a quick swipe along the dominant axis |
| GestureOnlyMode.GestureOnlyMode.StateCooldown | source/GestureInteraction/GestureOnlyMode.cpp:300-324 | returns to recognition after 500 ms, or at once when focus is lost |
| GestureOnlyMode.GestureOnlyMode.StateTwoScrolling | source/GestureInteraction/GestureOnlyMode.cpp:390-458 | begins on entry, ends on exit, applies on every frame, and remembers that it scrolled |
| GestureOnlyMode.GestureOnlyMode.StateSwipe | source/GestureInteraction/GestureOnlyMode.cpp:460-521 | the two quick-swipe handlers |
| GestureOnlyMode.GestureOnlyMode.StatePalmSwipe | source/GestureInteraction/GestureOnlyMode.cpp:523-554 | begins on entry, applies once on exit if the history is long enough, ends, and goes to the cooldown |
| GestureOnlyMode.GestureOnlyMode.PerformTransitions | source/Utility/StateMachine.h:201-257 | the exit/enter loop terminates and is the chart's chain |
| GestureOnlyMode.WindowShowsYoungFrames | source/GestureInteraction/GestureOnlyMode.cpp:67-78 | there is a window iff some frame is 100 ms old, and it holds the categories of exactly the newer ones |
| GestureOnlyMode.GestureOnlyMode.Categorize | source/GestureInteraction/GestureOnlyMode.cpp:46-54 | a palm, one or two pointables, three or more, or none of these |
| GestureOnlyLaws.RecognitionFrame | source/GestureInteraction/GestureOnlyMode.cpp:248-298 | all that a frame does in recognition: three fingers that moved swipe at once along the axis that won, a palm begins to swipe, two fingers hover or scroll, anything else does nothing |
| GestureOnlyLaws.HoveringFrame | source/GestureInteraction/GestureOnlyMode.cpp:326-388 | two hovering fingers that are denied cool down iff they have just scrolled; touching, they scroll |
| GestureOnlyLaws.ScrollingFrame | source/GestureInteraction/GestureOnlyMode.cpp:390-458 | two scrolling fingers stop when denied or lifted, and every other frame scrolls on by one call |
| GestureOnlyLaws.PalmFrame | source/GestureInteraction/GestureOnlyMode.cpp:523-554 | a palm swipes until it is denied, then is applied once if the history is long enough, ends and cools down |
| GestureOnlyLaws.CooldownFrame | source/GestureInteraction/GestureOnlyMode.cpp:300-324 | the cooldown makes no call and is over iff half a second has passed |
| GestureOnlyLaws.LossOfFocus | source/GestureInteraction/GestureOnlyMode.cpp:168-171 | losing focus makes just the calls that end what is open |
| GestureOnlyLaws.RestIsShown | source/GestureInteraction/GestureOnlyMode.cpp:87-101 | in every run two fingers hover or scroll, and a palm swipes, only while some window showed them and none since has spoken against it |
| GestureOnlyLaws.OpeningsAreWarranted | source/GestureInteraction/GestureOnlyMode.cpp:248-554 | in every run each gesture is begun by what the windows show: a vertical swipe by three fingers that moved vertically, a horizontal one by three that moved horizontally or a palm, a scroll by a touching favourite after two fingers |
| GestureOnlyLaws.DeniedCoolsDownIff | source/GestureInteraction/GestureOnlyMode.cpp:326-388 | in every run two hovering fingers that are denied cool down iff they have scrolled since they were first seen |
| GestureOnlyChart.SharesSumToOne | source/GestureInteraction/GestureOnlyMode.cpp:67-85 | the shares are non-negative and sum to exactly 1 for every window |
| GestureOnlyChart.ThresholdEventsExclude | source/GestureInteraction/GestureOnlyMode.cpp:87-101 | a category's event fires iff its share reaches the threshold, so the order of the chain is immaterial; uncertainty fires iff every share is below one half |
| GestureOnlyChart.Run | source/Utility/StateMachine.h:201-257 | at most two transitions for one input |
| GestureOnlyChart.EveryRunIsDisciplined | source/GestureInteraction/GestureOnlyMode.cpp:248-554 | in every run gestures alternate, applies fall in their gestures, nothing is clicked, and shutdown closes everything |
| GestureOnlyChart.SwipesAreSpaced | source/GestureInteraction/GestureOnlyMode.cpp:300-324 | with time not going back, and focus lost only when no swipe began in the 500 ms before, a step begins at most one desktop swipe, and none within 500 ms of the last |
| GestureOnlyChart.LostFocusKeepsSpacingIff | source/GestureInteraction/GestureOnlyMode.cpp:300-324 | losing focus begins no swipe, leads back to recognition, and keeps the spacing iff the last swipe is at least 500 ms old |
| GestureOnlyChart.AlwaysSpacedIffPatient | source/GestureInteraction/GestureOnlyMode.cpp:300-324 | swipes stay 500 ms apart after every part of a run and every frame that may follow it, iff focus is never lost within 500 ms of one |
| GestureOnlyChart.LostFocusBreaksSpacing | source/GestureInteraction/GestureOnlyMode.cpp:300-324 | the failing schedule: two swipes at one instant |
| GestureOnlyChart.LostFocusIsQuiet | source/GestureInteraction/GestureOnlyMode.cpp:168-171 | after a loss of focus no gesture is open, whatever the frame |
| LPGesture.LPGesture.BeginGesture | source/OSInteraction/LPGesture.cpp:67-115 | state and everything posted after `begin`, accepted iff no gesture is open |
| LPGesture.LPGesture.TakeLargest | source/OSInteraction/LPGesture.cpp:164-184 | the dequeue loop empties the queue and leaves the chosen entry |
| LPGesture.LPGesture.EndGesture | source/OSInteraction/LPGesture.cpp:117-197 | state and everything posted after `end` |
| LPGesture.LPGesture.ApplyScroll | source/OSInteraction/LPGesture.cpp:316-462 | state and everything posted after `applyScroll`, accepted or refused |
| LPGesture.LPGesture.FollowMomentum | source/OSInteraction/LPGesture.cpp:326-349 | damping, and the end of a momentum that has become slow |
| LPGesture.LPGesture.FollowScroll | source/OSInteraction/LPGesture.cpp:350-368 | the history kept for momentum |
| LPGesture.LPGesture.EmitPixels | source/OSInteraction/LPGesture.cpp:370-376 | whole pixels out, remainder kept |
| LPGesture.LPGesture.EmitLines | source/OSInteraction/LPGesture.cpp:378-398 | whole lines out when due, remainder kept |
| LPGesture.LPGesture.ApplyMomentum | source/OSInteraction/LPGesture.cpp:464-470 | one heartbeat |
| GesturePhases.ServingRests | source/OSInteraction/LPGesture.cpp:67-470 | between calls the type is none iff the phase is undefined, and no open gesture has momentum |
| GesturePhases.AllowedCallSucceeds | source/OSInteraction/LPGesture.cpp:67-470 | a call made in discipline is accepted, but for a scroll of almost nothing |
| GesturePhases.DisciplinedCallsSucceed | source/OSInteraction/LPGesture.cpp:67-197 | over whole runs with heartbeats anywhere, the open gesture is the caller's and every call is accepted |
| GestureRuns.FingerMouseCallsSucceed | source/GestureInteraction/GestureInteractionManager.cpp:287-317 | every begin and end of a finger-mouse run with its shutdown succeeds and nothing stays open |
| GestureRuns.BasicModeCallsSucceed | source/GestureInteraction/GestureInteractionManager.cpp:287-317 | the same for the basic mode |
| GestureRuns.GestureOnlyCallsSucceed | source/GestureInteraction/GestureInteractionManager.cpp:287-317 | the same for the gesture-only mode |
| GestureMomentum.PickIsLargest | source/OSInteraction/LPGesture.cpp:164-184 | the starting momentum is a history entry with the largest absolute component |
| GestureMomentum.MomentumStops | source/OSInteraction/LPGesture.cpp:326-349 | a momentum below 1.5 + 0.03 n pixels per heartbeat is gone after n + 1 heartbeats |
| GestureMomentum.TravelIsBounded | source/OSInteraction/LPGesture.cpp:326-349 | it covers at most 50 times its start on each axis, however long it runs |
| GestureMomentum.MomentumAfterScroll | source/OSInteraction/LPGesture.cpp:161-189 | all of this for the momentum a scroll leaves behind, and none without a history |
| GestureMomentum.NothingIsLost | source/OSInteraction/LPGesture.cpp:316-398 | until the next begin, along each axis, pixels and lines posted plus what is kept back are what was kept back before plus all distances accepted, at 120 pixels an inch and so many pixels a line |
| GestureMomentum.ScrollSettles | source/OSInteraction/LPGesture.cpp:370-396 | after an accepted call the pixel remainder is within a half and, off Windows or when the timer is due, the line remainder is in [0, 1) |
| GestureMomentum.TakenIsAccepted | source/OSInteraction/LPGesture.cpp:316-470 | what a run takes in is the sum of the accepted scrolls and of the momentum of every accepted heartbeat |
| GestureMomentum.FirstScrollPosts | source/OSInteraction/LPGesture.cpp:67-98 | the first scroll after a begin starts from nothing kept back, with the platform's pixels per line on each axis |
| GestureMomentum.PhaseSaysIsMoved | source/OSInteraction/LPGesture.cpp:67-115 | in every run the phase of an open gesture says whether it has been moved on |
| ScrollHistory.ScrollIsRecorded | source/OSInteraction/LPGesture.cpp:350-368 | an accepted scroll adds its distance per heartbeat, axis by axis, to at most ten older ones; almost nothing, or a pause of a second, forgets them |
| ScrollHistory.HistoryRecords | source/OSInteraction/LPGesture.cpp:350-368 | in every run the history holds the speeds of the last eleven scrolls remembered, in order |
| ScrollHistory.MomentumIsOfARecentScroll | source/OSInteraction/LPGesture.cpp:161-189 | in every run a scroll that ends goes on with the speed of one of those eleven, on both axes, and none was faster |
| ScrollHistory.MomentumKeepsDirection | source/OSInteraction/LPGesture.cpp:343-349 | after n heartbeats a momentum goes the way it started, with between 0.96^n and 0.98^n of its speed |
| ScrollHistory.OppositesDampAlikeIff | source/OSInteraction/LPGesture.cpp:343-349 | opposite momenta are damped alike iff both or neither is fast along a positive axis |
| GestureMomentum.KeptIsSmall | source/OSInteraction/LPGesture.cpp:316-398 | the same in every state reached from construction |
| TimedHistory.TimedHistory.AddFrame | source/Utility/TimedHistory.h:107-113 | the deque becomes the purged extension of what it held |
| TimedHistory.TimedHistory.PurgeExcessHistory | source/Utility/TimedHistory.h:125-138 | the pop-back loop computes the purge |
| TimedHistory.TimedHistory.GetFrameHavingAgeAtLeast | source/Utility/TimedHistory.h:93-104 | the scan finds the first frame old enough, which is the answer of the whole history for every age up to the smallest duration that was in force |
| TimedHistory.TimedHistory.HasSufficientHistory | source/Utility/TimedHistory.h:86-92 | true iff the oldest frame kept is old enough; as long as the duration never shrank, iff the whole history is |
| TimedHistory.PurgeOfPrefix | source/Utility/TimedHistory.h:125-138 | purging step by step keeps what purging everything at once keeps |
| TimedHistory.QueriesAgree | source/Utility/TimedHistory.h:93-104 | a sufficient prefix answers as the whole |
| TimedHistory.KeptIsShortestIff | source/Utility/TimedHistory.h:125-138 | what is kept is the shortest sufficient prefix iff its two oldest frames differ in time |
| TimedHistory.EqualTimesAreKept | source/Utility/TimedHistory.h:125-138 | the exception happens |
| BoundedQueue.BoundedQueue.Enqueue | source/Utility/BoundedQueue.h:41-49 | appends, or refuses and changes nothing when full |
| BoundedQueue.BoundedQueue.Dequeue | source/Utility/BoundedQueue.h:51-56 | removes and returns the oldest |
| BoundedQueue.BoundedQueue.PeekFront | source/Utility/BoundedQueue.h:60-66 | the element at an index from the front |
| BoundedQueue.BoundedQueue.Put | source/Utility/BoundedQueue.h:84-86 | assignment through the index operator changes that element alone |
| BoundedQueue.BoundedQueue.Reset | source/Utility/BoundedQueue.h:35-39 | empties the queue |
| RollingMean.RollingMean.Update | source/Utility/RollingMean.h:64-73 | the new weight and mean, which stay in range |
| RollingMean.RollingMean.Predict | source/Utility/RollingMean.h:45-52 | the mean, or zero before any data |
| RollingMean.RollingMean.SetWindow | source/Utility/RollingMean.h:81-85 | windows below 1 are ignored |
| RollingMean.UpdateMovesShare | source/Utility/RollingMean.h:64-73 | an update moves every component, and the weight it carries, by weight / window of the way |
| RollingMean.MeanIsBetween | source/Utility/RollingMean.h:45-73 | whatever the windows and weights, each component of the mean lies between the smallest and the largest measured |
| RollingMean.SumOfBlend | source/Utility/RollingMean.h:69-71 | a blend of two vectors sums to the blend of their sums |
| RollingMean.RepeatedUpdatesConverge | source/Utility/RollingMean.h:64-73 | n equal updates shrink the distance to the measurement by (1 - 1/w)^n in every component |
| CategoricalFilter.MakeIndexMap | source/Utility/CategoricalFilter.h:52-61 | the index map inverts the category list, or the constructor throws iff a category repeats |
| CategoricalFilter.CategoricalFilter.Reset | source/Utility/CategoricalFilter.h:124-130 | every category is as likely as any other, and whether the assertion holds |
| CategoricalFilter.RestartIsNeutral | source/Utility/CategoricalFilter.h:124-130 | after a reset each of n categories has probability 1/n |
| CategoricalFilter.RestartIsUnsure | source/Utility/CategoricalFilter.h:62-64 | with two categories or more and a threshold above one half it is then sure of none |
| CategoricalFilter.EvenEvidenceKeepsOrder | source/Utility/CategoricalFilter.h:118-122 | evidence that does not tell two categories apart keeps their order, strictly unless it replaces all that was known |
| CategoricalFilter.CategoricalFilter.UpdateWithCategory | source/Utility/CategoricalFilter.h:113-116 | a whole vote for the category, or failure iff it is not one of the list |
| CategoricalFilter.CategoricalFilter.SetWindow | source/Utility/CategoricalFilter.h:79-84 | changing the window behind the cache leaves the cached answer right |
| CategoricalFilter.CategoricalFilter.Normalized | source/Utility/CategoricalFilter.h:144-153 | the normalised prediction; its three assertions never fail |
| CategoricalFilter.FindMax | source/Utility/CategoricalFilter.h:155-163 | the first component that is as large as any |
| CategoricalFilter.CategoricalFilter.EnsureValuesAreCached | source/Utility/CategoricalFilter.h:136-173 | the cache afterwards is what would be computed now |
| CategoricalFilter.CategoricalFilter.FilteredCategoryIsUnambiguous | source/Utility/CategoricalFilter.h:89-93 | true iff some probability reaches the threshold |
| CategoricalFilter.CategoricalFilter.FilteredCategory | source/Utility/CategoricalFilter.h:95-99 | a category of largest probability, or an exception iff none reaches the threshold |
| CategoricalFilter.EveryRunIsSound | source/Utility/CategoricalFilter.h:113-130 | under any measurements, window changes and resets the probabilities are non-negative and sum to 1; without a reset the integral stays 1 |
| CategoricalFilter.WindowKeepsProbabilities | source/Utility/RollingMean.h:81-85 | probabilities do not depend on the window |
| CategoricalFilter.UnambiguousIsUnique | source/Utility/CategoricalFilter.h:165-172 | above one half, the unambiguous category beats every other |
| CategoricalFilter.EveryRunIsBalanced | source/Utility/CategoricalFilter.h:113-130 | after any normalised evidence, window changes and resets the mean sums to the integral |
| CategoricalFilter.EveryRunIsWhole | source/Utility/CategoricalFilter.h:113-122 | without a reset both are 1, so the probabilities are the mean |
| CategoricalFilter.RepeatedCategory | source/Utility/CategoricalFilter.h:113-122 | n equal updates leave its probability at 1 - (1 - 1/w)^n (1 - p) |
| CategoricalFilter.RepeatedCategoryAfterRun | source/Utility/CategoricalFilter.h:113-122 | that law for every filter reached from construction by normalised evidence and window changes |
| CategoricalFilter.FramesVote | source/Utility/CategoricalFilter.h:113-122 | the same with a new window after each update: what is left of the past is the product of the 1 - 1/w |
| CategoricalFilter.FramesPassIff | source/Utility/CategoricalFilter.h:165-172 | when those updates make the category unambiguous, and when not |
| CategoricalFilter.RepeatedCategoryPassesIff | source/Utility/CategoricalFilter.h:165-172 | when that many updates make it unambiguous, and when not |
| CategoricalFilter.ResetIsReadyIff | source/Utility/CategoricalFilter.h:124-130 | the assertion in `reset` holds iff the window is at most 2 |
| GestureFilters.GestureFilters.constructor | source/GestureInteraction/GestureInteractionManager.cpp:27-59 | categories, thresholds and windows of the two filters, neither of which knows anything yet |
| GestureFilters.GestureFilters.RtsProbabilityVector | source/GestureInteraction/GestureInteractionManager.cpp:235-257 | the reported shares, or a third for each motion where there are none |
| GestureFilters.GestureFilters.MeasureMotion | source/GestureInteraction/GestureInteractionManager.cpp:235-257 | a missing or empty motion report leaves the order of the motions as it was |
| GestureFilters.GestureFilters.ProcessFrame | source/GestureInteraction/GestureInteractionManager.cpp:78-87 | each filter takes in one vote per frame at the window of the frame before, then takes its window from the new frame rate, and both keep integral 1 |
| GestureFilters.GestureFilters.CountConverges | source/GestureInteraction/GestureInteractionManager.cpp:78-87 | in any state reached, one count in frame after frame: how near its probability comes to 1 under the windows the frames set |
| GestureFilters.GestureFilters.CountBecomesUnambiguousIff | source/GestureInteraction/GestureInteractionManager.cpp:259-265 | when it becomes the unambiguous count, and when not |
| GestureFilters.GestureFilters.CollectiveZone | source/GestureInteraction/GestureInteractionManager.cpp:128-159 | touching iff three touch, or the number touching is the count the filter is sure of |
| TouchSets.SameLookupsSameSet | source/OSInteraction/Touch.h:30 | an ordered set is decided by what a lookup finds |
| TouchManager.TouchManager.RemoveMissing | source/OSInteraction/TouchManager.cpp:49-58 | the erasing loop announces exactly the touches that are gone |
| TouchManager.TouchManager.SetTouches | source/OSInteraction/TouchManager.cpp:48-83 | the held set becomes the one passed, and what was announced and injected |
| TouchManager.TouchManager.ClearTouches | source/OSInteraction/TouchManager.cpp:34-38 | nothing is held, and every touch was announced as removed |
| TouchManager.TouchManager.UpdateTouch | source/OSInteraction/TouchManagerWin8.cpp:64-76 | the one report an update sends |
| TouchManager.TouchManager.FinishFrame | source/OSInteraction/TouchManagerWin8.cpp:13-18 | the queue is injected once if not empty, and cleared |
| TouchFrames.FrameOnId | source/OSInteraction/TouchManager.cpp:48-74 | in one frame an id sees exactly the one event its change calls for, or none |
| TouchFrames.EveryTouchLives | source/OSInteraction/TouchManager.cpp:48-83 | over any run each id sees add, updates from the last value, remove, and ends as the last set says |
| TouchFrames.EveryTouchAlternates | source/OSInteraction/TouchManagerWin8.cpp:56-84 | over any run the reports of a touch alternate DOWN and UP and end as the last set says |
| TouchFrames.FrameTells | source/OSInteraction/TouchManagerWin8.cpp:23-84 | in one frame an id is reported at most once, at the pixel of its touch, in range iff still held, in contact iff touching, down, up or update as it changed; a finger that lifts where it last touched |
| TouchFrames.LastReportIsInRangeIff | source/OSInteraction/TouchManagerWin8.cpp:78-84 | over any run the last report on a touch is in range iff it is still held |
| TouchFrames.NoneDownAfterClear | source/OSInteraction/TouchManager.cpp:34-38 | after clearing no touch is down |
| TouchFrames.OneReportPerPointerIff | source/OSInteraction/TouchManagerWin8.cpp:42 | a frame sends at most one report per pointer iff its ids are distinct modulo 256 |
| TouchFrames.EveryPointerAlternates | source/OSInteraction/TouchManagerWin8.cpp:42 | over runs of such frames every pointer alternates as well |
| Heartbeat.Heartbeat.StopBeating | source/Utility/Heartbeat.cpp:25-33 | the step of `Stop` |
| Heartbeat.Heartbeat.StartBeating | source/Utility/Heartbeat.cpp:35-46 | the step of `Start`, and when it succeeds |
| Heartbeat.Heartbeat.RestartBeating | source/Utility/Heartbeat.cpp:57-69 | the step of `Restart`, and when it succeeds |
| Heartbeat.Heartbeat.PeriodOver | source/Utility/Heartbeat.cpp:85-101 | the worker's step when its timed wait returns |
| Heartbeat.Heartbeat.CallbackReturns | source/Utility/Heartbeat.cpp:85-104 | the worker's step when the callback returns |
| Heartbeat.AtMostOneMoreCall | source/Utility/Heartbeat.cpp:25-104 | from a stopped state, until a start succeeds, at most one callback begins, and none unless it was already fetched |
| Heartbeat.StopIsPrompt | source/Utility/Heartbeat.cpp:25-33 | the same counted from a call of `Stop` in any state |
| Heartbeat.OneCallAfterStop | source/Utility/Heartbeat.cpp:97-103 | the one call happens |
| Heartbeat.TerminatedIsForever | source/Utility/Heartbeat.cpp:12-69 | nothing leaves the terminated state, and no start succeeds in it |
| Heartbeat.TerminatedWorkerExits | source/Utility/Heartbeat.cpp:71-106 | after termination the worker is out within two steps of its own |
| Heartbeat.DestructorJoins | source/Utility/Heartbeat.cpp:12-23 | the destructor's step terminates in any state; the worker is out after the two steps, or fewer, left to it, and begins at most one more callback |
| Heartbeat.StopThenStart | source/Utility/Heartbeat.cpp:25-46 | a heartbeat with a callback can be started once stopped, and then not again |
| Heartbeat.RunningGoesOn | source/Utility/Heartbeat.cpp:35-46 | until stopped or terminated it goes on running and no start succeeds |
| Heartbeat.BeatsOncePerPeriod | source/Utility/Heartbeat.cpp:71-106 | left alone it calls the stored callback once a period, for any number of periods |
| Heartbeat.RestartWhileRunning | source/Utility/Heartbeat.cpp:57-69 | it can be restarted iff it runs |
| Heartbeat.WorkerIsNeverStuck | source/Utility/Heartbeat.cpp:71-106 | a worker that is not out always has a step to take |
| Heartbeat.RestartOnlyPostpones | source/Utility/Heartbeat.h:60-63 | a restart makes a waiting worker wait again without a call |
| Heartbeat.RestartingNeverBeats | source/Utility/Heartbeat.cpp:57-69 | restarted again and again it never calls |
| Heartbeat.NoEmptyCall | source/Utility/Heartbeat.cpp:35-69 | if callers pass real callbacks the worker never calls an empty one |
| Heartbeat.EmptyCallbackReachesIff | source/Utility/Heartbeat.cpp:48-55 | an empty callback stored now may be fetched, with no other stored, iff the heartbeat is running |
| Heartbeat.SafeIffCareful | source/Utility/Heartbeat.cpp:35-104 | no part of a run may lead to an empty fetch iff no empty callback is ever stored while running |
| Heartbeat.EmptyCallHappens | source/Utility/Heartbeat.cpp:48-55 | an empty callback set while running is fetched |
| AutowiredChain.Autowired.ReadHead | contrib/autowiring/autowiring/Autowired.h:196-207 | one read of the head; the registrant runs its callback iff it sees the tombstone |
| AutowiredChain.Autowired.CompareExchangeWeak | contrib/autowiring/autowiring/Autowired.h:209-211 | the node becomes the head iff the head is what was read and the exchange does not fail for no reason |
| AutowiredChain.Autowired.ReleaseDependentChain | contrib/autowiring/autowiring/Autowired.h:215-221 | the first release returns the list, every later one null |
| AutowiredChain.Autowired.Destroy | contrib/autowiring/autowiring/Autowired.h:132-144 | an unreleased list is destroyed node by node, each once and after its link was read |
| AutowiredChain.EveryRunIsSound | contrib/autowiring/autowiring/Autowired.h:180-221 | under every interleaving the links form one finite list of distinct nodes, exactly those whose exchange succeeded |
| AutowiredChain.EachCallbackHasOnePlace | contrib/autowiring/autowiring/Autowired.h:180-221 | each finished registration is in that list once or was run by its registrant, never both |
| AutowiredChain.HandedOverIsFrozen | contrib/autowiring/autowiring/Autowired.h:215-221 | after the release nobody adds to the list, drops from it or relinks it |
| AutowiredChain.RegistrantFinishes | contrib/autowiring/autowiring/Autowired.h:196-211 | after the release a registrant is at most three of its own steps from running its callback |
| AutowiredChain.OthersDoNotInterfere | contrib/autowiring/autowiring/Autowired.h:196-211 | no step of another thread changes how far a registrant has come |
| JunctionBox.JunctionBox.FireCurried | contrib/autowiring/autowiring/JunctionBox.h:134-172 | the loop performs the one complete fire, terminates over a finite universe, and reports exactly the callbacks that threw |
| JunctionBox.JunctionBox.Increment | contrib/autowiring/autowiring/JunctionBox.h:156-158 | `++it` goes to the place after the one its element now stands on, which holds the least element above it; used only on an element still there |
| JunctionBox.JunctionBox.UpperBound | contrib/autowiring/autowiring/JunctionBox.h:159-162 | the search finds the least element above the key, there or not |
| JunctionBox.SuccessorIsUpperBound | contrib/autowiring/autowiring/JunctionBox.h:156-162 | in the ordered container the next place holds the least element above |
| JunctionBox.NextPlaceIsUpperBound | contrib/autowiring/autowiring/JunctionBox.h:156-162 | the search from scratch ends at the very place `++` goes to |
| JunctionBox.JunctionBox.Erase | contrib/autowiring/autowiring/JunctionBox.h:114-126 | removal is counted whether or not the listener was there |
| JunctionBox.CallsIncrease | contrib/autowiring/autowiring/JunctionBoxEntry.h:40-42 | listeners are called in strictly increasing order, so none twice |
| JunctionBox.CompleteFireIsUnique | contrib/autowiring/autowiring/JunctionBox.h:141-163 | listeners and interference decide the calls |
| JunctionBox.PersistentListenersAreCalledOnce | contrib/autowiring/autowiring/JunctionBox.h:141-163 | a listener registered throughout is called exactly once |
| JunctionBox.StayingListenersAreCalledOnce | contrib/autowiring/autowiring/JunctionBox.h:141-163 | so is one that is added above the current position and then stays |
| JunctionBox.OnlyListenersAreCalled | contrib/autowiring/autowiring/JunctionBox.h:141-146 | nobody is called who is not registered when the call begins |
| ObjectPool.ObjectPool.ObtainElement | contrib/autowiring/autowiring/ObjectPool.h:374-384 | refused iff at the limit, else the last cached object or leave to build one |
| ObjectPool.ObjectPool.ObtainElementUnsafe | contrib/autowiring/autowiring/ObjectPool.h:190-208 | the count rises whatever the limit, and the last object returned is issued again, or leave given to build one |
| ObjectPool.ObjectPool.BuildElement | contrib/autowiring/autowiring/ObjectPool.h:195-201 | the object built with the lock released is wrapped with the version of that moment |
| ObjectPool.ObjectPool.ReturnUnsafe | contrib/autowiring/autowiring/ObjectPool.h:157-181 | the count falls by one, and the object is cached iff its version is current and there is room |
| ObjectPool.ObjectPool.ReturnElement | contrib/autowiring/autowiring/ObjectPool.h:130-181 | cached iff the pool lives, the version matches and there is room, else freed; the count is never decremented below zero |
| ObjectPool.ObjectPool.ClearCachedEntities | contrib/autowiring/autowiring/ObjectPool.h:236-242 | the cache is freed and the version moves on |
| ObjectPool.ObjectPool.SetMaximumPooledEntities | contrib/autowiring/autowiring/ObjectPool.h:252-266 | undisturbed, the loop frees all but the oldest objects that fit |
| ObjectPool.ObjectPool.SetOutstandingLimit | contrib/autowiring/autowiring/ObjectPool.h:279-286 | throws iff a zero limit is to be raised |
| ObjectPool.ObjectPool.Preallocate | contrib/autowiring/autowiring/ObjectPool.h:340-351 | undisturbed, the cache ends at the larger of what it held and what maximum and limit allow of the request |
| ObjectPool.EveryRunIsAccounted | contrib/autowiring/autowiring/ObjectPool.h:120-208 | in every reachable state the count is the number issued or being built, and each object is in exactly one place |
| ObjectPool.ClearedIsNeverCached | contrib/autowiring/autowiring/ObjectPool.h:228-242 | no object wrapped before a clear is ever cached again |
| ObjectPool.BuildingSurvivesClear | contrib/autowiring/autowiring/ObjectPool.h:195-201 | one being built across the clear may be |
| ObjectPool.IssuedOnlyBelowLimit | contrib/autowiring/autowiring/ObjectPool.h:374-384 | only obtaining raises the count, by one, below the limit |
| ObjectPool.OutstandingIsLimited | contrib/autowiring/autowiring/ObjectPool.h:279-286 | the count never passes the largest limit ever set |
| ObjectPool.ZeroLimitIsForever | contrib/autowiring/autowiring/ObjectPool.h:275-286 | a zero limit stays zero and the count only falls |
| ObjectPool.RundownEndsEverything | contrib/autowiring/autowiring/ObjectPool.h:392-402 | after a rundown the count is zero for ever, and the cache too unless the maximum was raised meanwhile |
| ObjectPool.RundownEmptiesCacheIff | contrib/autowiring/autowiring/ObjectPool.h:392-402 | a rundown leaves the cache empty for ever under every interference iff the pool is abandoned, or nothing is cached, being built or issued under the current version and the limit is zero already |
| ObjectPool.CacheStaysEmptyIff | contrib/autowiring/autowiring/ObjectPool.h:392-402 | the cache stays empty iff it is empty when the rundown is over |
| ObjectPool.RaisedRundownKeepsObject | contrib/autowiring/autowiring/ObjectPool.h:252-266 | with a raise it need not be |

## Left out

- Decimal text of doubles: printing and scanning a double belong to the C++ library and are parameters of the JSON modules.
  `JsonDoubles` says what they have to do for the round trip to hold; that `stream << value` keeps six digits is not part of
  this model. In MessagePack a double is its eight bytes; `long double` is not modelled.
- JsonDoubles.RoundTripIff: asks that no double be infinite or not a number, because their text is no number to the parser.
- JsonStrictness.PrintedIsRfcTextIff: does not ask whether the bytes of a string are UTF-8.
- The printer's plain-text mode (`asJSON` false), stream state flags such as end-of-file, and `operator>>`.
- Floating-point rounding: floats and doubles are reals throughout the gesture modules.
- Overlays, cursor positions, screen mapping, icons, HID and CoreGraphics records: the gesture modules keep only the
  calls made and the whole pixels and lines posted. The click-distance test is an observation of the frame.
- The desktop-swipe distance and threshold arithmetic inside `applyDesktopSwipe`, which only fills Apple event records.
- The touch-output configuration of `BasicMode` and its two-handed touch state; the Windows 7 touch managers.
- Frame observations (zones, counts, palm posture, hand and pointable validity, history answers) are inputs; how the Leap
  library computes them is not modelled.
- GesturePhases.DisciplinedCallsSucceed: heartbeats and calls of the mode are atomic, because `begin` and `end` write the
  phase without the mutex `applyScroll` takes; the races this allows are not modelled.
- BasicMode.BasicMode.ProcessFrameInternal: asks for a frame that does not spin, because on the others the loop of the
  source does not end, which `BasicModeChart.LoopTerminatesIffNotSpinning` proves.
- The second moment and `Transform` of the rolling mean, which no caller uses.
- CategoricalFilter.CategoricalFilter.UpdateWithProbabilityVector: asks for non-negative evidence summing to more than
  1e-10, which the assertions of the source rely on without checking the argument.
- `OnRemoveAllTouches`, which the Windows 8 manager does not override, and the destructor of the touch manager, which
  clears after its derived part is gone.
- Heartbeat timeouts as durations: waking from a wait is a step that may happen at any time.
- Memory orders weaker than sequential consistency in the callback list, and the reclamation of its nodes by callers.
- JunctionBox.JunctionBox.FireCurried: the deletion counter is unbounded, so its wrap-around after 2^32 removals during
  one callback is not modelled; terminating the contexts of listeners that threw is not modelled either.
- The exception of a wait that starts under a zero limit, and the length of waits: a wait is the step at which its
  condition is true.
- Exceptions thrown by allocators, initialisers or finalisers of pooled objects, moving a pool, and using a pool after its
  destruction began.
- `LockFreeList`, `AutoPacket`, `SatCounter`, `ContextMap`, `CoreContext`, `DispatchQueue`, `Config`, `LPImage` and
  `LPVirtualScreen`: unfinished, compile-time only, input/output, or without visible driving code.
