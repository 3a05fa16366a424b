# Uniterm client and CLI: a verified model

Uniterm is a terminal multiplexer. This project models the state machines, parsers and
transactions of its client and command line in Dafny, and proves what they guarantee over
every input, every way of cutting a stream into reads, every run and every pattern of
failures. `dafny verify dfyconfig.toml` checks the whole project.

The modules follow the program:

- **Terminal input.** `SgrMouse` reads one SGR mouse report. `StdinScan` holds the scanner,
  the held-back escape, the focus stripper, the two carry buffers and the read that finds no
  data, each loop proved to compute a simple function. `StdinUnits` and `StdinFragments`
  carry the invariant through every read; `StdinTokens` states the round trip, and `WholeKeys`
  that an escape key arrives in one piece.
- **Prefix keys.** `KeyBindings` is the key table, `MenuActions` the menus that teach it, `PrefixKeys` the automaton behind the
  prefix key (plain and nested), `PrefixLaws` its laws, `QuickActions` the action picker that
  a prefix opens, `AttachLoop` the loop's rounds over picker and armed keys, `BracketedPaste` the
  observer that keeps pasted text away from all of them. The observer and the key table are
  arbitrary functions except where a law names the shipped ones.
- **The two together.** `TailQueue` is the loop in which the keys a round gives back go into the
  decoder's key buffer, `QueueRuns` its runs in which nothing is overtaken, `Overtaking` and
  `OvertakenRuns` the read that overtakes queued keys and what becomes of the run, and `QueueTokens`
  both for printed tokens. `AttachClient` is the client as the taker: clicks act on its open picker,
  then the keys of the same read go through one round. `AttachQueue` joins the two, with the class
  that updates buffers, key state, mode and frames in place.
- **Updating.** `InstallPair` replaces the two installed binaries with a failure oracle at
  each file operation; `UpdateLock` interleaves any number of updaters, failures and crashes.
- **Resizing.** `Resize` is the coalescer and its event loop, `ResizeLaws` its latency, rate
  and ordering bounds over every run.
- **Watching agents.** `AgentWatch` is the fold over the durable log, `AgentWatchLaws`
  reconnecting, waiting, the invocation fence and the freshness of what is reported.
- **Surfaces.** `WordWrap`, `MenuLayout` and `Palette` compare greedy code with simple
  specifications: fewest lines, the painted layout, some embedding.
- **SSH bridge.** `RemoteReady` is the handshake scanner, `Watchdog` the threads around it,
  `ShellQuote` the quoting of the remote command against the shell's own reading of it.
- **Names and import.** `WorkspaceKey` allocates free names, `DesktopJoin` joins the Desktop
  hierarchy (`StableSort` and `Selection` are the sort and the choice it relies on).

`Bytes`, `Decimal` and `Text` are small shared vocabularies.

Where the code falls short of what one would expect of it, the model keeps the code and states
exactly when the expectation holds:

- Keys behind an armed shortcut are put into the decoder's own key buffer, and the next read puts
  the beginning of a report that is held in the mouse buffer in front of them. The key and the
  click of `AttachQueue.KeyAndClickLost` never arrive. If no read overtakes queued keys, everything
  does (`QueueTokens.QueueRoundTrip`); if one does, everything does if and only if the token is a
  mouse or focus report and the queued keys happen to be copies of the bytes that complete it
  (`QueueTokens.OvertakenRoundTrip`, `AttachQueue.CopyIsHarmless`).
- A mouse or focus report whose ESC arrives alone, followed by a read that finds no data, is
  delivered as typed keys. The round trip holds if and only if that does not happen
  (`StdinTokens.RoundTripIffNothingTorn`, `StdinTokens.LoneEscapeTears`).
- A click on the open picker, or beside it, closes the picker and with it the prefix that opened it, so
  the next key is typed (`AttachQueue.ClickThenKey`). The client does what the automaton over its keys
  does if and only if no click arrives while a fresh picker is open (`AttachQueue.RunFollows`).
- An escape key whose ESC arrives alone before a read that finds no data is handed over in two pieces;
  exactly which steps break a key up is `WholeKeys.WholeExactlyWhen`.
- A nested client that holds a prefix lets a directly following ESC overtake it; it delivers its bytes
  in order if and only if no held prefix is followed by ESC (`BracketedPaste.NestedOrderExactlyWhen`,
  `BracketedPaste.EscapeOvertakesPrefix`). It may then also drop keys: if and only if only claimed bytes
  stand between two prefixes, a key that acts comes next, and something stands behind it
  (`QuickActions.NoKeyIsDropped`, `BracketedPaste.NestedDropsExactlyWhen`, `BracketedPaste.EscapeDropsKey`).
  A plain client needs no such condition.
- Doubling the prefix types it literally if and only if the prefix key is neither configured
  nor one of the built-in keys (`PrefixLaws.DoublingWithKeyTable`, `BracketedPaste.ShippedDoubling`).
- A watch that reconnects after its Pane has closed is refused, so lines can be lost although its
  cursor lies before the closing: nothing is lost if and only if the Pane is still listed at the
  reconnection or its closing had been seen (`AgentWatchLaws.ReconnectExactlyWhen`,
  `AgentWatchLaws.ReconnectLosesClose`).
- A permission prompt is kept although the documentation promises it only for status Permission;
  when the two agree is `AgentWatchLaws.PromptStatusExactlyWhen`.
- A suffixed Workspace key keeps the length bound if and only if something of the base is left
  or the suffix is short (`WorkspaceKey.BoundedFits`). The suffixes the program uses are short.
- The comment on the menu's box says that it stays clamped to the screen. Sideways it does; a box
  that opens downwards from a low anchor does not (`MenuLayout.StaysOnScreenExactlyWhen`,
  `MenuLayout.LowAnchorLeavesScreen`).
- Two action names of the client's key table, for the order of the file list, are refused by the
  configuration file (`MenuActions.AcceptedExactly`).
- A handshake that succeeds just as the watchdog strikes is reported as a success with a dead
  child; a success has a running child if and only if neither the watchdog's time ran out nor the child
  exited (`Watchdog.SuccessMayBeDead`, `Watchdog.SuccessRunsExactlyWhen`).
- Closing the picker drops the keys behind the closing key in the same read, while running an
  entry gives them back (`Palette.WhatIsLeft`, `Palette.CloseDrops`).
- The import shows each Project once if and only if no Project names a Workspace id that the
  catalog lists twice (`DesktopJoin.ConservedExactlyWhen`).

## Model

| member | source | states |
|---|---|---|
| `SgrMouse.ReportReadsBack` | crates/uniterm-client/src/input.rs:216-247 | Every report a terminal can print, with any button, cell and terminator, is read back as its own cell and kind; the kinds the client ignores give nothing |
| `SgrMouse.EventReadsBack` | crates/uniterm-client/src/input.rs:216-247 | Every mouse event, reported with the code xterm assigns to it and any of shift, meta and control held, is read back as that event |
| `SgrMouse.EventExactlyWhen` | crates/uniterm-client/src/input.rs:216-247 | A printed report is an event if and only if its code and terminator are those xterm assigns to a kind; the middle button, a right button released or dragging are no events |
| `SgrMouse.ReadExactlyWhen` | crates/uniterm-client/src/input.rs:216-247 | For any body whatever: it is read if and only if it is valid UTF-8 with three fields, perhaps more behind them, whose numerals, plus sign allowed, are within range and whose code means something |
| `StdinScan.ScanMouse` | crates/uniterm-client/src/input.rs:185-212 | The byte loop computes the recursive scan: events, passthrough and the incomplete report at the end |
| `StdinScan.SplitPartialEscape` | crates/uniterm-client/src/input.rs:106-123 | The search from the right returns exactly the trailing unfinished escape and leaves the rest |
| `StdinScan.StripFocusEvents` | crates/uniterm-client/src/input.rs:142-160 | The loop removes all focus reports and keeps the last state and all other bytes in order |
| `StdinScan.StdinDecoder.ReadChunk` | crates/uniterm-client/src/input.rs:166-179 | One read in the whole decoder: both carries are re-joined before the chunk, scanned, split and stripped, and both fields are set to the new carries |
| `StdinScan.StdinDecoder.ReadDry` | crates/uniterm-client/src/lib.rs:597-608 | A read without data releases a held key unless it can only be a longer CSI; which keys those are is `WholeKeys.WholeExactlyWhen` |
| `StdinUnits.SettleAfterUnit` | crates/uniterm-client/src/input.rs:166-212 | A complete unit at the front of a buffer is delivered as what it means, and the rest is decoded as if it stood alone |
| `StdinFragments.SettleBeginning` | crates/uniterm-client/src/input.rs:106-137 | A buffer that ends inside a unit holds exactly that beginning, in the mouse carry or in the key carry, or releases an overlong key |
| `StdinFragments.DecodingSound` | crates/uniterm-client/src/lib.rs:591-616 | From any point whose carry is the unread beginning of one unit, every read and every dry read leads to such a point, with what was delivered plus what is unread unchanged |
| `StdinFragments.RunFromStart` | crates/uniterm-client/src/input.rs:106-247 | So does every run of the decoder: at most one carry is non-empty, it is the unread beginning of one unit, and what was delivered plus what is unread is the meaning of the whole stream |
| `StdinTokens.FragmentationRoundTrip` | crates/uniterm-client/src/input.rs:166-247 | For every token sequence and every way of cutting its bytes into reads of the decoder, events, keys and focus are exactly those of the tokens, and nothing is held at the end |
| `StdinTokens.RoundTripIffNothingTorn` | crates/uniterm-client/src/lib.rs:597-608 | The tokens come back if and only if no dry read falls right after the ESC of a mouse or focus report |
| `StdinTokens.LoneEscapeTears` | crates/uniterm-client/src/lib.rs:597-608 | The smallest failing run: such a report is typed into the pane byte for byte |
| `StdinTokens.LastFocusCounts` | crates/uniterm-client/src/input.rs:142-160 | The focus left behind is that of the last focus report among the tokens |
| `WholeKeys.WholeExactlyWhen` | crates/uniterm-client/src/lib.rs:597-608 | Over every run with any cuts and dry reads, an escape key is handed over by one step if and only if no dry read falls behind its lone ESC or behind anything but parameters, and no step ends inside it beyond sixteen parameters |
| `WholeKeys.CsiKeyIsOneKey` | crates/uniterm-client/src/input.rs:125-137 | So a CSI key with at most sixteen digits and separators as parameters is never broken up, unless a dry read falls right behind its ESC |
| `PrefixKeys.FlushPassthrough` | crates/uniterm-client/src/tty.rs:134-140 | Typed bytes become one Input frame, an empty batch none |
| `PrefixKeys.PrefixState.TypeNested` | crates/uniterm-client/src/input.rs:308-323 | The nested client's handling of one typed byte |
| `PrefixKeys.PrefixState.ProcessInput` | crates/uniterm-client/src/input.rs:293-392 | The loop leaves the state, returns the action and appends frames that carry exactly the keys and commands of the automaton's run |
| `PrefixLaws.SplitIndependence` | crates/uniterm-client/src/input.rs:293-392 | For any paste observer and key table, processing u + v is processing u and, unless it ended in an action, going on with v |
| `PrefixLaws.SameStreamIffSameMerged` | crates/uniterm-client/src/input.rs:293-392 | Two frame lists carry the same keys and commands if and only if they are equal after merging adjacent Input frames |
| `PrefixLaws.SplitFramesMerge` | crates/uniterm-client/src/input.rs:293-392 | At the level of frames: those of processing u + v and those of processing u and then v are equal after merging adjacent Input frames |
| `PrefixLaws.NeverClosesUnasked` | crates/uniterm-client/src/input.rs:394-404 | For every observer, configuration, state and byte stream: no key sends a command whose confirmation is switched on, and the client asks about no other command |
| `PrefixLaws.SwitchesOnlyAsk` | crates/uniterm-client/src/input.rs:338-372 | The confirmation switches turn exactly the guarded commands into questions and change no other key |
| `MenuActions.PickerTeachesKeys` | crates/uniterm-core/src/menu.rs:1-8 | Under every configuration, a key that the picker shows beside an entry does after the prefix what the entry does: three tables agree |
| `MenuActions.KeysAreUnique` | crates/uniterm-core/src/menu.rs:120-389 | No key is shown for two entries |
| `MenuActions.OtherNames` | crates/uniterm-client/src/input.rs:438-498 | The first binding of a key decides: "none" switches it off, "menu" opens the menus, and a name that is not known leaves the built-in key as it was |
| `MenuActions.AcceptedExactly` | crates/uniterm-core/src/config.rs:1269-1310 | The configuration accepts exactly the action names the client knows, except for two file orders that the client knows and no configuration can use |
| `PrefixLaws.DoublingDelivers` | crates/uniterm-client/src/input.rs:327-392 | In a plain client, with any observer that claims no prefix byte of the doubled stream, doubling every prefix byte delivers the original bytes if and only if the prefix key itself types the prefix |
| `PrefixLaws.DoublingWithKeyTable` | crates/uniterm-client/src/input.rs:327-392 | The same for the shipped key table, in terms of the configuration and the built-in keys, still for any such observer |
| `BracketedPaste.ShippedDoubling` | crates/uniterm-core/src/keyboard.rs:25-42 | The same for the shipped observer, on any input that does not open a paste, escape keys included |
| `QuickActions.PickerReassembles` | crates/uniterm-client/src/input.rs:251-287 | The held prefix and the chunk are exactly the forwarded keys, the prefix bytes that opened the picker and the query, plain and nested |
| `QuickActions.PlainPickerArms` | crates/uniterm-client/src/input.rs:251-287 | Up to the opening prefix the automaton would have typed the same keys and then be armed |
| `QuickActions.NestedPickerArms` | crates/uniterm-client/src/input.rs:251-287 | The same for a nested client and its doubled prefix, a prefix held from an earlier read included, if no held prefix before the query is directly followed by a byte the observer claims |
| `QuickActions.NestedConserves` | crates/uniterm-client/src/input.rs:308-323 | Without a doubled prefix a nested client uses every byte, runs nothing and holds back at most one prefix; it delivers the bytes in order if and only if no held prefix is directly followed by another byte that the observer claims |
| `QuickActions.NoKeyIsDropped` | crates/uniterm-client/src/lib.rs:1543-1562 | When the picker stays closed, the automaton uses up the whole batch it is given, so that no key is dropped: always in a plain client, for any observer and any bytes; in a resting nested one if and only if the chunk nowhere has two typed prefixes with only claimed bytes between them, a typed key that acts after them, and something behind it |
| `QuickActions.UnusedExactlyWhen` | crates/uniterm-client/src/input.rs:293-392 | From any state, a batch leaves bytes unused if and only if an armed, unclaimed key that acts stands before its last byte |
| `QuickActions.PickerIsTransparent` | crates/uniterm-client/src/lib.rs:1140-1206 | Opening the picker, re-arming the prefix and processing the query is processing the whole chunk at once, whatever the query begins with in a plain client |
| `QuickActions.FindPrefix` | crates/uniterm-client/src/input.rs:251-287 | The observing loop finds the first typed prefix, or doubled prefix |
| `QuickActions.OpenPicker` | crates/uniterm-client/src/input.rs:251-287 | Returns the query, forwards the keys before it and updates the key state, or leaves frames and state alone |
| `AttachLoop.RoundIsRun` | crates/uniterm-client/src/lib.rs:1153-1206 | One round, with the picker closed, opening, or open from an earlier read, is one run of the automaton over the bytes it used, and its tail is what follows them; no condition on a plain client |
| `AttachLoop.RoundsAreOneRun` | crates/uniterm-client/src/lib.rs:1140-1206 | So are all rounds over a stretch of input, and they stop only when it is used up or an action or a search takes the keyboard |
| `AttachLoop.PlainIsApart` | crates/uniterm-client/src/lib.rs:1140-1206 | In a plain client that needs no condition: any observer, any bytes |
| `AttachLoop.ApartThroughout` | crates/uniterm-client/src/lib.rs:1140-1206 | In a nested client it is enough that no held or arming prefix of the input is directly followed by a claimed byte |
| `AttachLoop.RoundsEndAsOneRun` | crates/uniterm-client/src/lib.rs:1543-1562 | If no search takes the keyboard, state, keys, commands, action and bytes used are those of one run over the whole input |
| `AttachLoop.DoRound` | crates/uniterm-client/src/lib.rs:1153-1206 | One round in place: open the picker or not, re-arm for a shortcut, trim an armed chunk to one byte, process it, return the tail |
| `QueueRuns.RunDelivers` | crates/uniterm-client/src/lib.rs:1543-1550 | With the tails of any taker put in front of the held escape in the decoder's key buffer: if no read overtakes them, what was delivered followed by what is queued is what the units mean, and the mouse buffer ends empty |
| `QueueTokens.Halfway` | crates/uniterm-client/src/input.rs:166-179 | At every moment of such a run the key buffer is the queued keys followed by the beginning that is held, or the mouse buffer is that beginning, what is unread are the units of the tokens or the bytes of torn ones, and nothing is lost |
| `QueueTokens.QueueRoundTrip` | crates/uniterm-client/src/lib.rs:591-616 | For every token sequence, every cut, every taker and every dry read, all tokens come through if and only if no dry read hands over the lone ESC of a mouse or focus report, as long as no read overtakes queued keys |
| `Overtaking.OvertakenExactly` | crates/uniterm-client/src/input.rs:171-173 | One read of all the rest with keys queued and the beginning of a token held: right if and only if the token is a mouse or focus report and the queued keys are a whole number of copies of the bytes completing it |
| `OvertakenRuns.OvertakenAsOneRead` | crates/uniterm-client/src/input.rs:171-173 | However the rest is cut after an overtaking read, an undisturbed run comes to what one read of all the bytes yields |
| `QueueTokens.OvertakenRoundTrip` | crates/uniterm-client/src/lib.rs:1546-1549 | So for every run with one overtaking read, wherever it is, and whatever dry reads tore before it: the held beginning belongs to one of the tokens, and all tokens come through, torn only there, if and only if that condition holds |
| `AttachClient.PlayRun` | crates/uniterm-client/src/lib.rs:1562-1640 | Key by key, going on after every action that does not take the keyboard, is the same as the batches the loop processes, if a batch drops nothing |
| `AttachClient.ClickDeparts` | crates/uniterm-client/src/lib.rs:683-785 | After the mouse events of a read the client still stands where the automaton stands if and only if none of them is a click on a fresh picker |
| `AttachClient.KeysFollow` | crates/uniterm-client/src/lib.rs:1140-1206 | The keys of a read keep the client where the automaton over all keys handed to it stands; a nested client needs its prefixes to stay apart from claimed bytes |
| `AttachClient.TypedInstead` | crates/uniterm-client/src/lib.rs:780-784 | After a click beside the picker the next key is typed where the automaton would have obeyed it; the two agree on that key if and only if its effect is to type itself |
| `AttachQueue.RunFollows` | crates/uniterm-client/src/lib.rs:620-785 | Whatever is read and overtaken, the client does at every moment what the automaton over exactly the keys handed to it does, up to what takes the keyboard, if and only if no click arrives while a fresh picker is open |
| `AttachQueue.AttachRoundTrip` | crates/uniterm-client/src/lib.rs:591-616 | The whole loop: with nothing overtaken and nothing torn, events, focus and keys are those of the tokens; state, keys, commands and actions are those of one automaton over them if and only if no click arrives while a fresh picker is open; a nested client needs the prefixes among the typed keys to stay apart from claimed bytes |
| `AttachQueue.ClickThenKey` | crates/uniterm-client/src/lib.rs:780-784 | The prefix, a click beside the picker and a key, in three reads: the key is typed, where the automaton over the same keys obeys it |
| `AttachClient.ClicksExactly` | crates/uniterm-client/src/lib.rs:683-785 | What the mouse events of a read do: the first click on a fresh picker runs the entry it hits, once, and leaves the picker |
| `AttachQueue.RunPicks` | crates/uniterm-client/src/lib.rs:683-690 | Over every run the entries that were run are exactly those a click hit while the picker was fresh, in order |
| `AttachQueue.RunAsksFirst` | crates/uniterm-client/src/lib.rs:1562-1645 | Over every run of the whole loop, whatever is read, clicked or overtaken: no key sends a guarded command, and only guarded ones are asked about |
| `AttachQueue.KeyAndClickLost` | crates/uniterm-client/src/lib.rs:1546-1549 | Ctrl-A, n, a key and a click, read in two pieces: the key and the click never arrive |
| `AttachQueue.CopyIsHarmless` | crates/uniterm-client/src/lib.rs:1546-1549 | The same with the keys ";7M", which complete that click: everything arrives although the read overtook |
| `AttachQueue.Terminal.Turn` | crates/uniterm-client/src/lib.rs:591-616 | One read or dry read in place: first its clicks, then one round of its keys; buffers, key state, mode, frames and actions become those of the specified step, the tail going in front of the key buffer |
| `AttachQueue.Terminal.TakeEvent` | crates/uniterm-client/src/lib.rs:683-785 | A click on a fresh picker closes it, or runs the entry it hits, which may take the keyboard; other events change nothing here |
| `BracketedPaste.PasteTracksDelimiter` | crates/uniterm-core/src/keyboard.rs:25-42 | Inside a paste the one-pass matcher has read exactly the longest beginning of the closing delimiter |
| `BracketedPaste.PasteIsLiteral` | crates/uniterm-core/src/keyboard.rs:25-42 | Any bracketed text without the closing delimiter inside is delivered literally: no action, no command, no picker, and the key state is what it was |
| `BracketedPaste.ApartExactlyWhen` | crates/uniterm-core/src/keyboard.rs:25-42 | With the shipped observer the prefixes of a nested client stay apart from claimed bytes if and only if none is directly followed by ESC |
| `BracketedPaste.NestedOrderExactlyWhen` | crates/uniterm-core/src/keyboard.rs:25-42 | So an unarmed nested client delivers its bytes in order if and only if no held prefix is followed by ESC |
| `BracketedPaste.EscapeOvertakesPrefix` | crates/uniterm-client/src/input.rs:303-323 | Prefix and Up in a nested client: the prefix arrives inside the arrow's escape sequence |
| `BracketedPaste.NestedDropsExactlyWhen` | crates/uniterm-core/src/keyboard.rs:25-42 | With the shipped observer a resting nested client drops keys if and only if the chunk has that shape, with ESC directly behind the first prefix |
| `BracketedPaste.EscapeDropsKey` | crates/uniterm-client/src/input.rs:303-343 | Prefix, ESC, prefix and a key that acts in a nested client: the key behind it in the same read is dropped |
| `InstallPair.StepKeepsStanding` | crates/uniterm-cli/src/update.rs:272-306 | Every file operation, successful or not, keeps the invariant of its phase |
| `InstallPair.EveryOutcome` | crates/uniterm-cli/src/update.rs:272-306 | For every pattern of failures the pair ends old, or new, or `uniterm` new and `ut` old with the stage retained and holding the old `uniterm`; success means both new |
| `InstallPair.OutcomeExactly` | crates/uniterm-cli/src/update.rs:272-306 | What every pattern of failures leads to: the stage is retained if and only if everything up to the first rename works, the rename of `ut` fails and the rollback fails; a rollback that works leaves the directory as it was; success if and only if everything works |
| `InstallPair.NamesStayBound` | crates/uniterm-cli/src/update.rs:272-306 | After any number of operations an installed name is bound to its complete old or complete new contents |
| `InstallPair.SucceedsIfNothingFails` | crates/uniterm-cli/src/update.rs:272-306 | Without failures and directories in the way, the installation succeeds |
| `InstallPair.Installer.InstallPair` | crates/uniterm-cli/src/update.rs:272-306 | The in-place procedure with its early returns is exactly the run of the state machine |
| `UpdateLock.NextKeeps` | crates/uniterm-cli/src/update.rs:354-387 | Locking, verifying, every file operation, release and crash keep exclusion and the holder's standing |
| `UpdateLock.UnlockedPairIsIntact` | crates/uniterm-cli/src/update.rs:354-387 | For any number of updaters interleaved, at most one is at work, and every unlocked state without a failed rollback holds the original pair or both files of one verified release |
| `UpdateLock.DamageExactly` | crates/uniterm-cli/src/update.rs:354-387 | The pair counts as damaged only when an updater ends or dies with `uniterm` new and `ut` not, and no longer once both were replaced |
| `UpdateLock.AloneUpdates` | crates/uniterm-cli/src/update.rs:354-387 | An updater that finds the lock free and a pair matching its manifest leaves the directory as one installation does, whatever fails, and lets go of the lock |
| `UpdateLock.AloneSucceeds` | crates/uniterm-cli/src/update.rs:354-387 | If nothing fails, both files are then the verified ones |
| `UpdateLock.Refuses` | crates/uniterm-cli/src/update.rs:354-361 | A taken lock, a digest that differs and a binary that does not run are refused without touching the directory |
| `Resize.ResizeCoalescer.Note` | crates/uniterm-client/src/resize.rs:39-54 | The first note of a gesture fixes its start, later notes replace the size and the last time |
| `Resize.ResizeCoalescer.TakePending` | crates/uniterm-client/src/resize.rs:70-72 | Takes the pending size and clears it |
| `Resize.ResizeCoalescer.TakeDue` | crates/uniterm-client/src/resize.rs:75-82 | Takes the pending size if and only if its deadline has come |
| `ResizeLaws.TurnKeeps` | crates/uniterm-client/src/lib.rs:588-590 | One turn of the event loop, with any events in it, keeps the invariant |
| `ResizeLaws.EveryRun` | crates/uniterm-client/src/resize.rs:39-82 | Over every punctual run: reported sizes are a subsequence of seen sizes, no report is later than MAX_HOLD after the oldest size it covers or SETTLE after the latest, a timed report comes only once SETTLE has passed since the latest size or MAX_HOLD since the oldest and at least SETTLE after every earlier report, and no key is forwarded before a size seen before it |
| `ResizeLaws.LastSizeIsReported` | crates/uniterm-client/src/lib.rs:2243-2251 | The last size seen is the last reported once SETTLE has passed since it, or MAX_HOLD since the oldest unreported one; until then the loop reports a timeout |
| `ResizeLaws.DragPauses` | crates/uniterm-client/src/resize.rs:56-59 | Sizes at 0 and 10 ms are due at 26 ms and not before |
| `ResizeLaws.DragGoesOn` | crates/uniterm-client/src/resize.rs:56-59 | A drag that never pauses is due after 100 ms |
| `AgentWatch.Watcher.ApplyEvent` | crates/uniterm-cli/src/agent_watch.rs:23-118 | The in-place update is the step of the fold, and returns the kind of line to print |
| `AgentWatch.Watcher.Follow` | crates/uniterm-cli/src/agent_watch.rs:298-327 | The loop prints exactly the lines of the specification, and stops where it does |
| `AgentWatch.WatchPane` | crates/uniterm-cli/src/agent_watch.rs:244-327 | The whole command: a cursor beyond the log and a Pane that is not listed are refused, otherwise the specified watch from the live state or from the beginning of the log |
| `AgentWatchLaws.ReplayIsLossless` | crates/uniterm-cli/src/agent_watch.rs:283-327 | On the stream itself: for every log and cursor before the Pane closed, the lines up to the cursor followed by a replay that reports only what is beyond it are one uninterrupted watch |
| `AgentWatchLaws.ReconnectExactlyWhen` | crates/uniterm-cli/src/agent_watch.rs:244-327 | With the lookup of the Pane: reconnecting with the cursor of the last line seen loses and repeats nothing if and only if the Pane is still listed then or its closing had been seen |
| `AgentWatchLaws.ReconnectLosesClose` | crates/uniterm-cli/src/agent_watch.rs:259-281 | Bound, a status, closed; a watcher that saw the first and reconnects after the last is refused, and two lines are never printed |
| `AgentWatchLaws.CloseEndsWatch` | crates/uniterm-cli/src/agent_watch.rs:300-327 | An uninterrupted watch prints nothing after the Pane closed |
| `AgentWatchLaws.SnapshotAgrees` | crates/uniterm-cli/src/agent_watch.rs:244-327 | A start from a snapshot that is the fold of the log up to its sequence agrees with a replay from the beginning |
| `AgentWatchLaws.SnapshotConnects` | crates/uniterm-cli/src/agent_watch.rs:244-297 | A connection without a cursor prints what a replay from the Workspace's cursor prints, if the live state is the fold of the log |
| `AgentWatchLaws.WaitIsFirstMatch` | crates/uniterm-cli/src/agent_watch.rs:128-147 | Waiting for an event is watching up to the first matching line, and it fails if and only if the Pane closes before one |
| `AgentWatchLaws.WaitEndsExactly` | crates/uniterm-cli/src/agent_watch.rs:128-147 | On the log: a wait ends with the first event after the cursor that answers it (a notification, a stopped loop, a prompt or waiting item while status and item stand), fails if the Pane closes first, and goes on otherwise |
| `AgentWatchLaws.PrintedExactly` | crates/uniterm-cli/src/agent_watch.rs:23-118 | Which events are printed, as which kind of line; an event that is not printed changes nothing that is reported |
| `AgentWatchLaws.FenceHolds` | crates/uniterm-cli/src/agent_watch.rs:60-76 | Between two rebinds, once an accepted detail names an invocation every later accepted one names the same |
| `AgentWatchLaws.BindFences` | crates/uniterm-cli/src/agent_watch.rs:41-50 | After a bind that names its invocation only details of that invocation are accepted |
| `AgentWatchLaws.WaitingIsCurrent` | crates/uniterm-cli/src/agent_watch.rs:24-30 | A reported waiting item is the Pane's latest one, created since the last rebind and neither resolved nor retired since |
| `AgentWatchLaws.WaitingUntilRetired` | crates/uniterm-cli/src/agent_watch.rs:104-114 | Conversely, such an item is reported |
| `AgentWatchLaws.StatusIsCurrent` | crates/uniterm-cli/src/agent_watch.rs:51-59 | A reported status was set since the last rebind, and no other readable status came since |
| `AgentWatchLaws.StatusUntilChanged` | crates/uniterm-cli/src/agent_watch.rs:51-59 | Conversely, such a status is reported |
| `AgentWatchLaws.PermissionIsCurrent` | crates/uniterm-core/src/agent_detail.rs:127-194 | A reported permission prompt is the latest accepted one, with its text and time, and no new agent, session or other status came since |
| `AgentWatchLaws.PromptUntilEnded` | crates/uniterm-core/src/agent_detail.rs:127-194 | Conversely, such a prompt is reported |
| `AgentWatchLaws.FieldsAreLatest` | crates/uniterm-core/src/agent_detail.rs:127-194 | Agent, session, transcript, notification and loop are those of the last event that concerned them: nothing of an earlier agent or session is left |
| `AgentWatchLaws.BoundedTextExactly` | crates/uniterm-core/src/agent_detail.rs:199-206 | Free text keeps its beginning, with line breaks and tabs as spaces and other control characters dropped |
| `AgentWatchLaws.PromptStatusExactlyWhen` | crates/uniterm-core/src/agent_detail.rs:107-108 | A pending prompt is reported in status Permission if and only if it was asked in that status or the status changed to it afterwards |
| `AgentWatchLaws.PromptWithoutPermission` | crates/uniterm-core/src/agent_detail.rs:107-108 | Status Working and then a prompt: it is recorded although the status is not Permission |
| `WordWrap.Wrap` | crates/uniterm-client/src/observatory.rs:740-759 | The lines keep the word sequence, each word cut to the width, stay within the width, and are no more than those of any layout of the same words that fits |
| `WordWrap.FullIsShortest` | crates/uniterm-client/src/observatory.rs:740-759 | A layout in which no line had room for the next line's first word has the fewest lines of all layouts |
| `MenuLayout.PaintRows` | crates/uniterm-client/src/menu.rs:231-265 | The painting loop, breaks included, paints the first rows of the full layout that fit between the borders |
| `MenuLayout.ItemAt` | crates/uniterm-client/src/menu.rs:295-312 | For every clipped height, a cell resolves to item i if and only if item i is painted on its row inside the borders |
| `MenuLayout.RowsAreDistinct` | crates/uniterm-client/src/menu.rs:231-265 | No item or separator is painted twice |
| `MenuLayout.UnclippedShowsAll` | crates/uniterm-client/src/menu.rs:157-193 | On a screen that is tall enough the box paints every row |
| `MenuLayout.FitsSideways` | crates/uniterm-client/src/menu.rs:157-193 | Wherever the anchor is, box and shadow fit sideways if and only if the screen has at least seven columns |
| `MenuLayout.StaysOnScreenExactlyWhen` | crates/uniterm-client/src/menu.rs:157-193 | The box stays above the lower edge if and only if it is not anchored, opens upwards from the screen, or has enough room below its anchor |
| `MenuLayout.OpensAtAnchor` | crates/uniterm-client/src/menu.rs:157-193 | With room on the screen the box is as wide as its content or anchor, as high as its rows, and opens at its anchor, below or above it |
| `MenuLayout.LowAnchorLeavesScreen` | crates/uniterm-client/src/menu.rs:179-184 | The Project menu on 24 rows, opening downwards from row 12, is painted down to row 28 |
| `Palette.GreedyIsComplete` | crates/uniterm-client/src/palette.rs:260-267 | The one-pass scan accepts if and only if some strictly increasing embedding of exactly the non-blank query characters exists |
| `Palette.InsertingNarrows` | crates/uniterm-client/src/palette.rs:260-267 | Typing more anywhere in a query never makes it match more |
| `Palette.FilterNarrows` | crates/uniterm-client/src/palette.rs:106-114 | After an insertion, filtering the shown list is filtering the whole catalog, in catalog order |
| `Palette.FilterLists` | crates/uniterm-client/src/palette.rs:106-114 | The list is the catalog entries that match, all of them, in catalog order |
| `Palette.EveryInterleaving` | crates/uniterm-client/src/palette.rs:83-257 | Over every interleaving of keys, refreshes, pointer moves and repaints the selection is in range, the list is what the query matches, the window contains the selection, and its row hits it |
| `Palette.HandledKeepsGood` | crates/uniterm-client/src/palette.rs:216-257 | An action runs only when the indexed entry exists; a batch that changes nothing says so |
| `Palette.WhatIsLeft` | crates/uniterm-client/src/palette.rs:216-257 | Running gives back everything behind its Enter, closing says nothing about what is behind it, the other outcomes use the whole batch |
| `Palette.CloseDrops` | crates/uniterm-client/src/palette.rs:231-231 | What stands behind the closing key in the same read is dropped: anything else in its place changes nothing |
| `Palette.ArrowsCycle` | crates/uniterm-client/src/palette.rs:235-242 | Any batch of arrows and Tabs moves the selection by its net count around the list and changes nothing else |
| `Palette.BatchEdits` | crates/uniterm-client/src/palette.rs:216-257 | A batch of edits leaves the query and cursor that the line editor makes of all its keys, lists what matches, and starts at the first entry again if anything changed |
| `Palette.RefreshKeepsEntry` | crates/uniterm-client/src/palette.rs:83-104 | After new Projects arrive what was typed stays, and the selection stays on its entry as long as it is listed, else goes to the first |
| `Palette.RefreshedCatalog` | crates/uniterm-client/src/palette.rs:83-104 | The catalog is then its entries without a Project, all of them in order, followed by the new Projects |
| `Palette.ActionsStay` | crates/uniterm-client/src/palette.rs:83-257 | Over every interleaving the actions stay in the catalog, in order |
| `Palette.OpensOnCatalog` | crates/uniterm-client/src/palette.rs:72-79 | A fresh picker lists its whole catalog with the first entry selected |
| `Palette.WindowShowsSelection` | crates/uniterm-client/src/palette.rs:154-172 | The window contains the selection and does not run past the list |
| `Palette.WindowStaysPut` | crates/uniterm-client/src/palette.rs:158-172 | Selecting a row that is already shown leaves the window where it is |
| `Palette.HoverHoldsStill` | crates/uniterm-client/src/menu.rs:289-294 | Moving the pointer selects the entry under it, or nothing else, without moving the window |
| `Palette.Picker.Handle` | crates/uniterm-client/src/palette.rs:216-257 | The key loop computes the specified view and outcome and keeps the invariant |
| `Palette.Picker.RefreshProjects` | crates/uniterm-client/src/palette.rs:83-104 | Project entries are replaced, the list is filtered again, the selection is found again or reset |
| `Palette.Picker.Show` | crates/uniterm-client/src/palette.rs:158-172 | The in-place window computation |
| `RemoteReady.ReadRemoteReady` | crates/uniterm-cli/src/remote.rs:604-626 | For every byte stream the line-by-line scan succeeds if and only if the first marker in the stream ends within 64 KiB, leaves the reader right after it, and otherwise tells end of stream from too much text |
| `ShellQuote.QuotedReadsAsText` | crates/uniterm-cli/src/remote.rs:463-465 | Wherever quoted text stands on a command line, the shell appends exactly that text to the current word |
| `ShellQuote.QuotedIsOneWord` | crates/uniterm-cli/src/remote.rs:463-465 | Every text, quoted, is read as exactly one word equal to it (sections 2.2.1 and 2.2.2 of the Shell Command Language, POSIX.1-2017) |
| `Watchdog.KillsOnlyUnreaped` | crates/uniterm-cli/src/remote.rs:395-427 | In every interleaving of both threads and the child, a kill is sent only to a child that has not been reaped |
| `Watchdog.DisarmTellsTheTruth` | crates/uniterm-cli/src/remote.rs:420-427 | Disarming reports a timeout if and only if the watchdog sent its kill |
| `Watchdog.SucceedsExactlyWhen` | crates/uniterm-cli/src/remote.rs:335-386 | Every run that finishes succeeded if and only if the marker was read |
| `Watchdog.SuccessRunsExactlyWhen` | crates/uniterm-cli/src/remote.rs:370-386 | At the end of any run that succeeds the child is running if and only if neither the watchdog's timeout nor the child's exit is among the events |
| `Watchdog.SuccessMayBeDead` | crates/uniterm-cli/src/remote.rs:370-386 | The watchdog may strike between the marker and the disarming: success is then reported for a dead child |
| `Watchdog.NeverStuck` | crates/uniterm-cli/src/remote.rs:335-386 | Until the handshake thread has finished, some event that does not depend on anyone's goodwill can happen |
| `Watchdog.HandshakeEnds` | crates/uniterm-cli/src/remote.rs:335-427 | Every run is bounded, and one that cannot go on has finished, with a failed child reaped |
| `WorkspaceKey.CandidatesDiffer` | crates/uniterm-cli/src/lib.rs:1686-1700 | Distinct suffixes give distinct names, whatever the base |
| `WorkspaceKey.BoundedFits` | crates/uniterm-cli/src/lib.rs:1686-1700 | A suffixed name keeps the length bound if and only if some of the base is left or the suffix is short |
| `WorkspaceKey.CandidateIsValid` | crates/uniterm-proto/src/lib.rs:2577-2600 | Every suffixed name the search can try is a valid Workspace name |
| `WorkspaceKey.UniqueKey` | crates/uniterm-cli/src/lib.rs:1672-1684 | A name that fits and is free is its own key; else the key is the longest beginning of it that fits and does not end in a dot or dash, "workspace" if there is none, with the first free suffix from 2 to 9999, else the process id; with fewer than 9,998 names taken it is free; and it is a valid name |
| `WorkspaceKey.SqueezedKeepsLetters` | crates/uniterm-cli/src/lib.rs:1637-1650 | Turning other characters into dashes keeps every letter in order, all of them unless the room ran out |
| `WorkspaceKey.MigrationKey` | crates/uniterm-cli/src/lib.rs:1636-1660 | Any text becomes a valid Workspace name: its runs of name characters joined by single dashes, cut to 64, stripped of dots, dashes and underscores at its ends, "desktop" if nothing is left; a clean name stays as it is |
| `StableSort.SortSorts` | crates/uniterm-cli/src/desktop_migration.rs:189-190 | Sorted, and a permutation |
| `StableSort.SortIsStable` | crates/uniterm-cli/src/desktop_migration.rs:189-190 | Sorting and selecting is selecting and sorting, for every selection, so ties keep their order |
| `StableSort.TiesKeepOrder` | crates/uniterm-cli/src/desktop_migration.rs:189-190 | Elements with equal keys are among themselves where they were |
| `DesktopJoin.JoinCounts` | crates/uniterm-cli/src/desktop_migration.rs:220-255 | Each Project appears under its own Workspace id once for every occurrence of the id in the catalog |
| `DesktopJoin.NothingLost` | crates/uniterm-cli/src/desktop_migration.rs:178-261 | Whatever the catalog, every Project is in the result under its own Workspace id |
| `DesktopJoin.ConservedExactlyWhen` | crates/uniterm-cli/src/desktop_migration.rs:178-261 | Every Project appears exactly once if and only if no Project names a Workspace id that the catalog lists twice |
| `DesktopJoin.DistinctConserves` | crates/uniterm-cli/src/desktop_migration.rs:178-261 | With distinct catalog ids every Project appears exactly once |
| `DesktopJoin.JoinedWell` | crates/uniterm-cli/src/desktop_migration.rs:220-255 | Every output Workspace holds its own Projects by `sort_order` with ties in input order, is not empty, and every Project has its id, trimmed name, path and a Tab for each title, blank titles unnamed, at least one |
| `DesktopJoin.LoadedArranged` | crates/uniterm-cli/src/desktop_migration.rs:189-255 | The output Workspaces come by the `sort_order` of the catalog, ties as given, those without Projects left out, and behind them one "Recovered" Workspace for each id that only Projects name |
| `DesktopJoin.LastSnapshotCounts` | crates/uniterm-cli/src/desktop_migration.rs:200-203 | Of several snapshots of one Project the last counts |
| `DesktopJoin.Load` | crates/uniterm-cli/src/desktop_migration.rs:178-261 | The whole import: defaults, recovered Workspaces in any order, the join, and the laws above for its result: conservation, fields, order |

## Left out

- Socket, terminal, process, curl and file-system calls: they are steps, oracles or parameters of the model.
- Byte streams in which ESC directly follows ESC, or a report is cut off by another ESC, as terminal input: the token laws are about well-formed streams; such bytes arise in the model only by overtaking.
- The number of FocusGained frames: it depends on how reads are cut; only the focus left behind is stated.
- The translation of CSI-u keys for the prefix table and for overlays.
- `QueueTokens.OvertakenRoundTrip`: is about runs with one overtaking read and no lone ESC handed over after it; what two overtaking reads in one run do together, where one might make up for another, is not stated.
- `AttachQueue.AttachRoundTrip`: once an action, a search or another overlay has the keyboard, the keys go there and are only counted; overlays that queue keys again (a picker that runs an entry, `Palette.WhatIsLeft`) are not part of the loop. Which keys a fresh picker keeps, which actions take the keyboard at once and what a click on the picker hits are any functions.
- Server messages that change the loop between reads: a menu or overlay the server opens, and switching nested input on or off, which resets the key state (crates/uniterm-client/src/lib.rs:1801 and 1882).
- SHA-256, JSON decoding and wire frames: digests are an abstract function, events and frames are values.
- `InstallPair.EveryOutcome`: crashes inside one installation and the removal of the stage directory are not part of it; `UpdateLock` counts a crash between the two renames as damage.
- Release lookup, downloads, version comparison and connector refresh in the updater.
- `Palette.Picker.Handle`: keys are taken as already decoded, labels and queries as already in lower case, and the line editor is any function.
- The rule that decides when the picker starts searching, and the entries of the menus that mirror no key: tables without state.
- Menu navigation, item text and shadow, and 16-bit overflow in the menu geometry.
- The Observatory, inbox, requests, hooks, settings, about and chime screens: rendering and plumbing.
- `WordWrap.Wrap`: starts from the list of non-empty words and counts characters, as the code does; splitting at white space is the standard library's.
- `WorkspaceKey.UniqueKey`: the names present are a fixed set during the search, and lengths count characters, which are bytes for valid names.
- `RemoteReady.ReadRemoteReady`: read errors of the underlying pipe.
- `AgentWatchLaws.ReconnectExactlyWhen`: that a Pane which was created is listed until the log closes it is taken from the server, which never uses an id twice.
- `Watchdog.HandshakeEnds`: assumes, as the design does, that killing the child closes its output and that the clock reaches the timeout.
- `ShellQuote.QuotedIsOneWord`: the reader refuses unquoted special characters instead of giving them their meaning; none occurs outside quotes in quoted text.
- `DesktopJoin.Load`: reading the files with their backups, and the warnings.
